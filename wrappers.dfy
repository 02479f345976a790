/** Optional values: a missing exception, an event that may not fire. */
module Wrappers {

  datatype Option<+T> = None | Some(value: T)
}
