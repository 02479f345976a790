/**
 * The list operations the containers and the shader registry perform on
 * their `LinkedList` of children: insertion at an index and removal of the
 * first occurrence of an element.
 */
module ChildList {

  /** The position of the first occurrence of `t`. */
  function FirstIndex<T(==)>(s: seq<T>, t: T): (k: nat)
    requires t in s
    ensures k < |s| && s[k] == t
    ensures t !in s[..k]
  {
    if s[0] == t then 0
    else
      var k' := FirstIndex(s[1..], t);
      assert s[..k' + 1] == [s[0]] + s[1..][..k'];
      k' + 1
  }

  /** `add(index, t)`: `t` ends up at `index`, the others in their order. */
  function InsertAt<T>(s: seq<T>, index: nat, t: T): (r: seq<T>)
    requires index <= |s|
    ensures |r| == |s| + 1 && r[index] == t
    ensures r[..index] == s[..index] && r[index + 1..] == s[index..]
    ensures multiset(r) == multiset(s) + multiset{t}
  {
    assert s == s[..index] + s[index..];
    s[..index] + [t] + s[index..]
  }

  /** `remove(t)`: drops the first occurrence of `t`, if there is one. */
  function RemoveFirst<T(==)>(s: seq<T>, t: T): (r: seq<T>)
    ensures t !in s ==> r == s
    ensures t in s ==> |r| == |s| - 1
    ensures t in s ==> exists k :: 0 <= k < |s| && s[k] == t && t !in s[..k] && r == s[..k] + s[k + 1..]
    ensures multiset(r) == multiset(s) - multiset{t}
  {
    if t in s then
      var k := FirstIndex(s, t);
      assert s == s[..k] + [t] + s[k + 1..];
      s[..k] + s[k + 1..]
    else s
  }
}
