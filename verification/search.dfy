/**
  The collections library's `binarySearch(value, comparator)`: `low`/`high` close in on
  the value, an element comparing equal is returned at once, and a miss yields
  `-(insertion point + 1)`. `cmp(x)` is the comparator applied to `x` and the value.
 */
module Search {

  function Sign(c: int): int {
    if c < 0 then -1 else if c == 0 then 0 else 1
  }

  /** The comparator's verdicts never go down along the sequence: the sequence is ordered for it. */
  predicate Ordered<T>(a: seq<T>, cmp: T -> int) {
    forall i, j :: 0 <= i <= j < |a| ==> Sign(cmp(a[i])) <= Sign(cmp(a[j]))
  }

  function BinarySearch<T>(a: seq<T>, cmp: T -> int): (r: int)
    ensures r >= 0 ==> r < |a| && cmp(a[r]) == 0
    ensures r < 0 ==> -r - 1 <= |a|
  {
    SearchBetween(a, cmp, 0, |a| - 1)
  }

  /** One step of the search loop, over the window `low..high`. */
  function SearchBetween<T>(a: seq<T>, cmp: T -> int, low: nat, high: int): (r: int)
    requires low <= high + 1 <= |a|
    ensures r >= 0 ==> low <= r <= high && cmp(a[r]) == 0
    ensures r < 0 ==> low <= -r - 1 <= high + 1
    decreases high + 1 - low
  {
    if low > high then -(low + 1)
    else
      var mid := (low + high) / 2;
      var c := cmp(a[mid]);
      if c < 0 then SearchBetween(a, cmp, mid + 1, high)
      else if c > 0 then SearchBetween(a, cmp, low, mid - 1)
      else mid
  }

  /**
    On an ordered sequence a miss splits it exactly at the insertion point: everything
    before compares below the value and everything from it on compares above.
   */
  lemma {:induction false} SearchBetweenSplits<T>(a: seq<T>, cmp: T -> int, low: nat, high: int)
    requires low <= high + 1 <= |a| && Ordered(a, cmp)
    requires forall i :: 0 <= i < low ==> cmp(a[i]) < 0
    requires forall i :: high < i < |a| ==> cmp(a[i]) > 0
    ensures var r := SearchBetween(a, cmp, low, high); r < 0 ==> SplitsAt(a, cmp, -r - 1)
    decreases high + 1 - low, 1
  {
    if low > high {
      EmptyWindowSplits(a, cmp, low, high);
    } else {
      var mid := (low + high) / 2;
      if cmp(a[mid]) < 0 {
        UpperHalfSplits(a, cmp, low, high);
      } else if cmp(a[mid]) > 0 {
        LowerHalfSplits(a, cmp, low, high);
      }
    }
  }

  /** When the middle element compares below the value, the search goes on in the upper half. */
  lemma {:induction false} UpperHalfSplits<T>(a: seq<T>, cmp: T -> int, low: nat, high: int)
    requires low <= high < |a| && Ordered(a, cmp) && cmp(a[(low + high) / 2]) < 0
    requires forall i :: 0 <= i < low ==> cmp(a[i]) < 0
    requires forall i :: high < i < |a| ==> cmp(a[i]) > 0
    ensures var r := SearchBetween(a, cmp, low, high); r < 0 ==> SplitsAt(a, cmp, -r - 1)
    decreases high + 1 - low, 0
  {
    var mid := (low + high) / 2;
    BelowBefore(a, cmp, mid);
    SearchBetweenSplits(a, cmp, mid + 1, high);
  }

  /** When the middle element compares above the value, the search goes on in the lower half. */
  lemma {:induction false} LowerHalfSplits<T>(a: seq<T>, cmp: T -> int, low: nat, high: int)
    requires low <= high < |a| && Ordered(a, cmp) && cmp(a[(low + high) / 2]) > 0
    requires forall i :: 0 <= i < low ==> cmp(a[i]) < 0
    requires forall i :: high < i < |a| ==> cmp(a[i]) > 0
    ensures var r := SearchBetween(a, cmp, low, high); r < 0 ==> SplitsAt(a, cmp, -r - 1)
    decreases high + 1 - low, 0
  {
    var mid := (low + high) / 2;
    AboveAfter(a, cmp, mid);
    SearchBetweenSplits(a, cmp, low, mid - 1);
  }

  /** A window closed down to nothing sits exactly at the split. */
  lemma EmptyWindowSplits<T>(a: seq<T>, cmp: T -> int, low: nat, high: int)
    requires low == high + 1 <= |a|
    requires forall i :: 0 <= i < low ==> cmp(a[i]) < 0
    requires forall i :: high < i < |a| ==> cmp(a[i]) > 0
    ensures SplitsAt(a, cmp, low)
  {
  }

  /** Everything before `p` compares below the value, everything from `p` on above it, and nothing equal. */
  predicate SplitsAt<T>(a: seq<T>, cmp: T -> int, p: int) {
    forall i :: 0 <= i < |a| ==> (cmp(a[i]) < 0 <==> i < p) && cmp(a[i]) != 0
  }

  /** In an ordered sequence, everything before an element comparing below the value compares below it too. */
  lemma BelowBefore<T>(a: seq<T>, cmp: T -> int, mid: nat)
    requires mid < |a| && Ordered(a, cmp) && cmp(a[mid]) < 0
    ensures forall i :: 0 <= i <= mid ==> cmp(a[i]) < 0
  {
    forall i | 0 <= i <= mid
      ensures cmp(a[i]) < 0
    {
      assert Sign(cmp(a[i])) <= Sign(cmp(a[mid]));
    }
  }

  /** In an ordered sequence, everything after an element comparing above the value compares above it too. */
  lemma AboveAfter<T>(a: seq<T>, cmp: T -> int, mid: nat)
    requires mid < |a| && Ordered(a, cmp) && cmp(a[mid]) > 0
    ensures forall i :: mid <= i < |a| ==> cmp(a[i]) > 0
  {
    forall i | mid <= i < |a|
      ensures cmp(a[i]) > 0
    {
      assert Sign(cmp(a[mid])) <= Sign(cmp(a[i]));
    }
  }

  /** Over the whole sequence: a hit compares equal, and a miss gives the insertion point. */
  lemma SearchSplits<T>(a: seq<T>, cmp: T -> int)
    requires Ordered(a, cmp)
    ensures var r := BinarySearch(a, cmp); r < 0 ==> SplitsAt(a, cmp, -r - 1)
  {
    SearchBetweenSplits(a, cmp, 0, |a| - 1);
  }
}
