/**
 * Ordering tiles by depth.
 *
 * The scene keeps its tiles in a tree set whose comparator
 * `2 * (d1 - d2) + 1` never returns 0: a tile being inserted is placed
 * before every tile of greater depth and after every tile of smaller or
 * equal depth. Inserting one element that way is `InsertBy`; inserting a
 * whole sequence is `SortBy`, a stable sort. The older shader registry
 * uses the library's stable list sort, which `StableSortIsSortBy` shows
 * must coincide with `SortBy`.
 *
 * Everything is generic in the element type and its depth `key`.
 */
module DepthOrder {

  predicate SortedBy<T>(s: seq<T>, key: T -> int)
  {
    forall i, j :: 0 <= i < j < |s| ==> key(s[i]) <= key(s[j])
  }

  /** The scene's tree-set comparator on depths. */
  function Compare(d1: int, d2: int): int
  {
    2 * (d1 - d2) + 1
  }

  /** The comparator never declares two tiles equal. */
  lemma CompareNeverZero(d1: int, d2: int)
    ensures Compare(d1, d2) != 0
    ensures Compare(d1, d2) < 0 <==> d1 < d2
  {
  }

  /** Insertion of `t`, scanning from the back past greater keys. */
  function InsertBy<T>(s: seq<T>, t: T, key: T -> int): seq<T>
  {
    if s == [] then [t]
    else if key(s[|s| - 1]) <= key(t) then s + [t]
    else InsertBy(s[..|s| - 1], t, key) + [s[|s| - 1]]
  }

  /** Where `InsertBy` puts the new element. */
  function Position<T>(s: seq<T>, t: T, key: T -> int): (c: nat)
    ensures c <= |s|
  {
    if s == [] then 0
    else if key(s[|s| - 1]) <= key(t) then |s|
    else Position(s[..|s| - 1], t, key)
  }

  /** Insertion of every element of `s`, in order, into an empty set. */
  function SortBy<T>(s: seq<T>, key: T -> int): seq<T>
  {
    if s == [] then []
    else InsertBy(SortBy(s[..|s| - 1], key), s[|s| - 1], key)
  }

  /** The elements of depth `k`, in their order. */
  function WithKey<T>(s: seq<T>, k: int, key: T -> int): seq<T>
  {
    if s == [] then []
    else WithKey(s[..|s| - 1], k, key) + (if key(s[|s| - 1]) == k then [s[|s| - 1]] else [])
  }

  lemma SortedPrefix<T>(s: seq<T>, n: nat, key: T -> int)
    requires SortedBy(s, key) && n <= |s|
    ensures SortedBy(s[..n], key)
  {
  }

  /** `InsertBy` splices the new element in at `Position`. */
  lemma {:induction false} InsertByAt<T>(s: seq<T>, t: T, key: T -> int)
    ensures InsertBy(s, t, key) == s[..Position(s, t, key)] + [t] + s[Position(s, t, key)..]
  {
    if s == [] {
    } else if key(s[|s| - 1]) <= key(t) {
      assert s[..|s|] == s;
    } else {
      var s', x := s[..|s| - 1], s[|s| - 1];
      InsertByAt(s', t, key);
      var c := Position(s', t, key);
      assert s'[..c] == s[..c];
      assert s[c..] == s'[c..] + [x];
    }
  }

  /**
   * The new element lands after every element of smaller or equal depth
   * and before every element of greater depth.
   */
  lemma {:induction false} InsertByPlacement<T>(s: seq<T>, t: T, key: T -> int)
    requires SortedBy(s, key)
    ensures InsertBy(s, t, key) == s[..Position(s, t, key)] + [t] + s[Position(s, t, key)..]
    ensures forall i :: 0 <= i < Position(s, t, key) ==> key(s[i]) <= key(t)
    ensures forall i :: Position(s, t, key) <= i < |s| ==> key(t) < key(s[i])
  {
    InsertByAt(s, t, key);
    PositionSplits(s, t, key);
  }

  lemma {:induction false} PositionSplits<T>(s: seq<T>, t: T, key: T -> int)
    requires SortedBy(s, key)
    ensures forall i :: 0 <= i < Position(s, t, key) ==> key(s[i]) <= key(t)
    ensures forall i :: Position(s, t, key) <= i < |s| ==> key(t) < key(s[i])
  {
    if s == [] {
    } else if key(s[|s| - 1]) <= key(t) {
      forall i | 0 <= i < |s|
        ensures key(s[i]) <= key(t)
      {
        assert key(s[i]) <= key(s[|s| - 1]);
      }
    } else {
      var s', x := s[..|s| - 1], s[|s| - 1];
      SortedPrefix(s, |s| - 1, key);
      PositionSplits(s', t, key);
      var c := Position(s', t, key);
      assert Position(s, t, key) == c;
      forall i | 0 <= i < c
        ensures key(s[i]) <= key(t)
      {
        assert s[i] == s'[i];
      }
      forall i | c <= i < |s|
        ensures key(t) < key(s[i])
      {
        if i < |s| - 1 {
          assert s[i] == s'[i];
        }
      }
    }
  }

  /**
   * The same placement in terms of the scene's comparator: everything the
   * new tile compares above comes before it, everything it compares below
   * comes after it, and the comparator never calls them equal.
   */
  lemma PlacementByComparator<T>(s: seq<T>, t: T, key: T -> int)
    requires SortedBy(s, key)
    ensures InsertBy(s, t, key) == s[..Position(s, t, key)] + [t] + s[Position(s, t, key)..]
    ensures forall i :: 0 <= i < Position(s, t, key) ==> Compare(key(t), key(s[i])) > 0
    ensures forall i :: Position(s, t, key) <= i < |s| ==> Compare(key(t), key(s[i])) < 0
  {
    InsertByPlacement(s, t, key);
  }

  lemma {:induction false} InsertBySorted<T>(s: seq<T>, t: T, key: T -> int)
    requires SortedBy(s, key)
    ensures SortedBy(InsertBy(s, t, key), key)
  {
    InsertByPlacement(s, t, key);
    var c := Position(s, t, key);
    var r := InsertBy(s, t, key);
    forall i, j | 0 <= i < j < |r|
      ensures key(r[i]) <= key(r[j])
    {
      if i < c && j < c {
        assert r[i] == s[i] && r[j] == s[j];
      } else if i < c && j == c {
        assert r[i] == s[i];
      } else if i < c {
        assert r[i] == s[i] && r[j] == s[j - 1];
      } else if i == c {
        assert r[j] == s[j - 1];
      } else {
        assert r[i] == s[i - 1] && r[j] == s[j - 1];
      }
    }
  }

  lemma {:induction false} InsertByMultiset<T>(s: seq<T>, t: T, key: T -> int)
    ensures multiset(InsertBy(s, t, key)) == multiset(s) + multiset{t}
  {
    if s == [] {
    } else if key(s[|s| - 1]) <= key(t) {
    } else {
      var s' := s[..|s| - 1];
      InsertByMultiset(s', t, key);
      assert s == s' + [s[|s| - 1]];
    }
  }

  lemma WithKeyLast<T>(s: seq<T>, x: T, k: int, key: T -> int)
    ensures WithKey(s + [x], k, key) == WithKey(s, k, key) + (if key(x) == k then [x] else [])
  {
    assert (s + [x])[..|s|] == s;
  }

  /**
   * Inserting leaves the order of each depth class alone and puts the new
   * element last in its own class.
   */
  lemma {:induction false} InsertByWithKey<T>(s: seq<T>, t: T, k: int, key: T -> int)
    ensures WithKey(InsertBy(s, t, key), k, key)
         == WithKey(s, k, key) + (if key(t) == k then [t] else [])
  {
    if s == [] {
      WithKeyLast([], t, k, key);
    } else if key(s[|s| - 1]) <= key(t) {
      WithKeyLast(s, t, k, key);
    } else {
      var s', x := s[..|s| - 1], s[|s| - 1];
      assert s == s' + [x];
      InsertByWithKey(s', t, k, key);
      WithKeyLast(InsertBy(s', t, key), x, k, key);
      WithKeyLast(s', x, k, key);
    }
  }

  lemma {:induction false} SortBySorted<T>(s: seq<T>, key: T -> int)
    ensures SortedBy(SortBy(s, key), key)
  {
    if s != [] {
      SortBySorted(s[..|s| - 1], key);
      InsertBySorted(SortBy(s[..|s| - 1], key), s[|s| - 1], key);
    }
  }

  lemma {:induction false} SortByMultiset<T>(s: seq<T>, key: T -> int)
    ensures multiset(SortBy(s, key)) == multiset(s)
  {
    if s != [] {
      var s' := s[..|s| - 1];
      SortByMultiset(s', key);
      InsertByMultiset(SortBy(s', key), s[|s| - 1], key);
      assert s == s' + [s[|s| - 1]];
    }
  }

  /** Stability: each depth class keeps the order it had in the input. */
  lemma {:induction false} SortByWithKey<T>(s: seq<T>, k: int, key: T -> int)
    ensures WithKey(SortBy(s, key), k, key) == WithKey(s, k, key)
  {
    if s != [] {
      var s' := s[..|s| - 1];
      SortByWithKey(s', k, key);
      InsertByWithKey(SortBy(s', key), s[|s| - 1], k, key);
    }
  }

  lemma SortByLength<T>(s: seq<T>, key: T -> int)
    ensures |SortBy(s, key)| == |s|
  {
    SortByMultiset(s, key);
    assert |multiset(SortBy(s, key))| == |multiset(s)|;
  }

  lemma {:induction false} WithKeyMember<T>(s: seq<T>, x: T, k: int, key: T -> int)
    requires x in WithKey(s, k, key)
    ensures x in s && key(x) == k
  {
    var s' := s[..|s| - 1];
    if x in WithKey(s', k, key) {
      WithKeyMember(s', x, k, key);
    }
  }

  lemma SnocInjective<T>(a: seq<T>, x: T, b: seq<T>, y: T)
    requires a + [x] == b + [y]
    ensures a == b && x == y
  {
    assert |a| == |b|;
    assert a == (a + [x])[..|a|];
    assert b == (b + [y])[..|b|];
    assert x == (a + [x])[|a|];
  }

  /** The last element of a sorted sequence has the greatest depth. */
  lemma LastIsDeepest<T>(s: seq<T>, x: T, key: T -> int)
    requires SortedBy(s, key) && x in s
    ensures key(x) <= key(s[|s| - 1])
  {
    var i :| 0 <= i < |s| && s[i] == x;
    if i < |s| - 1 {
      assert key(s[i]) <= key(s[|s| - 1]);
    }
  }

  /** The last element of a non-empty sequence is in its depth class. */
  lemma LastInWithKey<T>(s: seq<T>, key: T -> int)
    requires s != []
    ensures WithKey(s, key(s[|s| - 1]), key) != []
  {
  }

  /**
   * A sorted sequence is determined by its depth classes: two sorted
   * sequences with the same elements of each depth in the same order are
   * equal.
   */
  lemma {:induction false} SortedUnique<T>(a: seq<T>, b: seq<T>, key: T -> int)
    requires SortedBy(a, key) && SortedBy(b, key)
    requires forall k :: WithKey(a, k, key) == WithKey(b, k, key)
    ensures a == b
    decreases |a| + |b|
  {
    if a == [] || b == [] {
      if a != [] {
        LastInWithKey(a, key);
        assert false;
      } else if b != [] {
        LastInWithKey(b, key);
        assert false;
      }
    } else {
      var a', x := a[..|a| - 1], a[|a| - 1];
      var b', y := b[..|b| - 1], b[|b| - 1];
      assert a == a' + [x] && b == b' + [y];
      SortedPrefix(a, |a| - 1, key);
      SortedPrefix(b, |b| - 1, key);
      // the last elements have the same depth
      WithKeyLast(a', x, key(x), key);
      assert x in WithKey(b, key(x), key);
      WithKeyMember(b, x, key(x), key);
      LastIsDeepest(b, x, key);
      WithKeyLast(b', y, key(y), key);
      assert y in WithKey(a, key(y), key);
      WithKeyMember(a, y, key(y), key);
      LastIsDeepest(a, y, key);
      var K := key(x);
      assert key(y) == K;
      forall k
        ensures WithKey(a', k, key) == WithKey(b', k, key)
      {
        assert WithKey(a, k, key) == WithKey(b, k, key);
        WithKeyLast(a', x, k, key);
        WithKeyLast(b', y, k, key);
        if k == K {
          SnocInjective(WithKey(a', k, key), x, WithKey(b', k, key), y);
        } else {
          assert WithKey(a', k, key) + [] == WithKey(a', k, key);
          assert WithKey(b', k, key) + [] == WithKey(b', k, key);
        }
      }
      SortedUnique(a', b', key);
      WithKeyLast(a', x, K, key);
      WithKeyLast(b', y, K, key);
      assert WithKey(a, K, key) == WithKey(b, K, key);
      SnocInjective(WithKey(a', K, key), x, WithKey(b', K, key), y);
    }
  }

  /**
   * Any stable sort by depth (a sorted result with each depth class in
   * input order) yields exactly `SortBy`.
   */
  lemma StableSortIsSortBy<T>(s: seq<T>, r: seq<T>, key: T -> int)
    requires SortedBy(r, key)
    requires forall k :: WithKey(r, k, key) == WithKey(s, k, key)
    ensures r == SortBy(s, key)
  {
    SortBySorted(s, key);
    forall k
      ensures WithKey(r, k, key) == WithKey(SortBy(s, key), k, key)
    {
      SortByWithKey(s, k, key);
    }
    SortedUnique(r, SortBy(s, key), key);
  }

  /** Sorting an already sorted sequence changes nothing. */
  lemma SortBySortedIdentity<T>(s: seq<T>, key: T -> int)
    requires SortedBy(s, key)
    ensures SortBy(s, key) == s
  {
    StableSortIsSortBy(s, s, key);
  }

  /** Dropping one element keeps a sequence sorted. */
  lemma SortedWithout<T>(s: seq<T>, k: nat, key: T -> int)
    requires SortedBy(s, key) && k < |s|
    ensures SortedBy(s[..k] + s[k + 1..], key)
  {
    var r := s[..k] + s[k + 1..];
    forall i, j | 0 <= i < j < |r|
      ensures key(r[i]) <= key(r[j])
    {
      var i' := if i < k then i else i + 1;
      var j' := if j < k then j else j + 1;
      assert r[i] == s[i'] && r[j] == s[j'];
    }
  }
}
