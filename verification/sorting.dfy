/**
  The stable sort the collections library applies when a comparator orders elements by
  an integer key (`sorted(comparator)`): equal keys keep their original order.
 */
module Sorting {

  predicate SortedBy<T>(s: seq<T>, key: T -> int) {
    forall i, j :: 0 <= i < j < |s| ==> key(s[i]) <= key(s[j])
  }

  /** Places `x` before the first element whose key is not below `x`'s. */
  function Insert<T>(x: T, s: seq<T>, key: T -> int): (r: seq<T>)
    ensures multiset(r) == multiset(s) + multiset{x}
    ensures |r| == |s| + 1
  {
    if s == [] || key(x) <= key(s[0]) then
      [x] + s
    else
      assert s == [s[0]] + s[1..];
      [s[0]] + Insert(x, s[1..], key)
  }

  /** Every element of `s` has a key of at least `k`. */
  predicate KeysFrom<T>(s: seq<T>, key: T -> int, k: int) {
    forall i :: 0 <= i < |s| ==> k <= key(s[i])
  }

  lemma {:induction false} InsertKeysFrom<T>(x: T, s: seq<T>, key: T -> int, k: int)
    requires KeysFrom(s, key, k) && k <= key(x)
    ensures KeysFrom(Insert(x, s, key), key, k)
  {
    if s != [] && key(x) > key(s[0]) {
      InsertKeysFrom(x, s[1..], key, k);
    }
  }

  /** A head whose key bounds the sorted tail's from below makes a sorted sequence. */
  lemma SortedCons<T>(h: T, t: seq<T>, key: T -> int)
    requires SortedBy(t, key) && KeysFrom(t, key, key(h))
    ensures SortedBy([h] + t, key)
  {
    var r := [h] + t;
    forall i, j | 0 <= i < j < |r|
      ensures key(r[i]) <= key(r[j])
    {
      assert r[j] == t[j - 1];
      if i > 0 {
        assert r[i] == t[i - 1];
      }
    }
  }

  /** Inserting into a sorted sequence keeps it sorted. */
  lemma {:induction false} InsertSorted<T>(x: T, s: seq<T>, key: T -> int)
    requires SortedBy(s, key)
    ensures SortedBy(Insert(x, s, key), key)
  {
    if s == [] || key(x) <= key(s[0]) {
      SortedCons(x, s, key);
    } else {
      var t := s[1..];
      assert SortedBy(t, key);
      assert KeysFrom(t, key, key(s[0]));
      InsertSorted(x, t, key);
      InsertKeysFrom(x, t, key, key(s[0]));
      SortedCons(s[0], Insert(x, t, key), key);
    }
  }

  /** Insertion sort: stable, so equal keys keep their order of appearance. */
  function SortBy<T>(s: seq<T>, key: T -> int): (r: seq<T>)
    ensures multiset(r) == multiset(s)
    ensures |r| == |s|
  {
    if s == [] then []
    else
      assert s == [s[0]] + s[1..];
      Insert(s[0], SortBy(s[1..], key), key)
  }

  /** The sort's result is ordered by the key. */
  lemma {:induction false} SortBySorted<T>(s: seq<T>, key: T -> int)
    ensures SortedBy(SortBy(s, key), key)
  {
    if s != [] {
      SortBySorted(s[1..], key);
      InsertSorted(s[0], SortBy(s[1..], key), key);
    }
  }

  /** In a sorted sequence the first element has the least key and the last the greatest. */
  lemma SortedEnds<T>(s: seq<T>, key: T -> int)
    requires SortedBy(s, key) && |s| > 0
    ensures forall x | x in s :: key(s[0]) <= key(x) <= key(s[|s| - 1])
  {
    forall x | x in s
      ensures key(s[0]) <= key(x) <= key(s[|s| - 1])
    {
      var k :| 0 <= k < |s| && s[k] == x;
    }
  }

  /** No two elements share a key. */
  predicate DistinctKeys<T>(s: seq<T>, key: T -> int) {
    forall i, j :: 0 <= i < j < |s| ==> key(s[i]) != key(s[j])
  }

  /** Two positions of a sequence hold two elements of its multiset. */
  lemma TwoPositions<T>(b: seq<T>, i: nat, j: nat)
    requires i < j < |b|
    ensures multiset{b[i], b[j]} <= multiset(b)
  {
    assert b == b[..i] + [b[i]] + b[i + 1..j] + [b[j]] + b[j + 1..];
  }

  /** Two elements of a multiset sit at two different positions. */
  lemma TwoElements<T>(a: seq<T>, x: T, y: T) returns (p: nat, q: nat)
    requires multiset{x, y} <= multiset(a)
    ensures p < |a| && q < |a| && p != q && a[p] == x && a[q] == y
  {
    assert x in multiset(a);
    p :| 0 <= p < |a| && a[p] == x;
    var rest := a[..p] + a[p + 1..];
    assert a == a[..p] + [a[p]] + a[p + 1..];
    assert multiset(a) == multiset(rest) + multiset{x};
    assert y in multiset(rest);
    var r :| 0 <= r < |rest| && rest[r] == y;
    q := if r < p then r else r + 1;
  }

  /** Reordering keeps keys distinct. */
  lemma PermutationKeepsDistinct<T>(a: seq<T>, b: seq<T>, key: T -> int)
    requires multiset(a) == multiset(b) && DistinctKeys(a, key)
    ensures DistinctKeys(b, key)
  {
    forall i, j | 0 <= i < j < |b|
      ensures key(b[i]) != key(b[j])
    {
      TwoPositions(b, i, j);
      var p, q := TwoElements(a, b[i], b[j]);
    }
  }
}
