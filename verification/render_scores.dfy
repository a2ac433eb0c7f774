/**
  The accuracy chart: scores grouped by the day they were made, one dataset per day in
  day order, and the chart's view of them as one flat series whose x value is the
  dataset an item belongs to and whose y value is its accuracy.
 */
module RenderScores {
  import opened Common
  import opened Histories
  import opened Sorting
  import opened Search

  /** One day of scores: the day's first instant and the accuracies made on it. */
  datatype Dataset = Dataset(key: int, data: seq<int>)

  function Key(d: Dataset): int { d.key }

  /** `truncatedTo(DAYS)` on an epoch-millisecond instant: the start of its UTC day, flooring before the epoch. */
  function DayStart(t: int): int {
    (t / DAY_MS) * DAY_MS
  }

  /** The day start is the one multiple of a day that leaves less than a day up to the instant. */
  lemma DayStartIsFloor(t: int, k: int)
    ensures DayStart(t) <= t < DayStart(t) + DAY_MS
    ensures k * DAY_MS <= t < k * DAY_MS + DAY_MS ==> DayStart(t) == k * DAY_MS
  {
    var q := t / DAY_MS;
    assert t == q * DAY_MS + t % DAY_MS;
  }

  function Day(s: Score): int {
    DayStart(s.createdAt)
  }

  function Init<T>(s: seq<T>): seq<T>
    requires s != []
  {
    s[..|s| - 1]
  }

  function Last<T>(s: seq<T>): T
    requires s != []
  {
    s[|s| - 1]
  }

  predicate Distinct(ks: seq<int>) {
    forall i, j :: 0 <= i < j < |ks| ==> ks[i] != ks[j]
  }

  /** The accuracies of the scores made on day `k`, in the order of the scores. */
  function On(scores: seq<Score>, k: int): seq<int> {
    if scores == [] then []
    else On(Init(scores), k) + (if Day(Last(scores)) == k then [Last(scores).accuracy] else [])
  }

  /** The days in the order their first score appears: the order the group map's keys are modelled in. */
  function FirstSeen(scores: seq<Score>): (r: seq<int>)
    ensures Distinct(r)
    ensures forall k :: k in r <==> exists i :: 0 <= i < |scores| && Day(scores[i]) == k
  {
    if scores == [] then []
    else
      var ks := FirstSeen(Init(scores));
      var d := Day(Last(scores));
      assert forall i :: 0 <= i < |scores| - 1 ==> Init(scores)[i] == scores[i];
      if d in ks then ks else ks + [d]
  }

  /** One dataset per listed day, holding that day's accuracies. */
  function EntriesFor(scores: seq<Score>, ks: seq<int>): (r: seq<Dataset>)
    ensures |r| == |ks|
  {
    seq(|ks|, j requires 0 <= j < |ks| => Dataset(ks[j], On(scores, ks[j])))
  }

  /** `run`'s datasets: the group map's entries sorted by day. */
  function Datasets(scores: seq<Score>): seq<Dataset> {
    SortBy(EntriesFor(scores, FirstSeen(scores)), Key)
  }

  /**
    `run` up to rendering: the scores grouped by day, then the group map's entries sorted
    by day.
   */
  method Run(scores: seq<Score>) returns (datasets: seq<Dataset>)
    ensures datasets == Datasets(scores)
  {
    var order, group := GroupByDay(scores);
    forall j | 0 <= j < |order|
      ensures order[j] in group
    {
      assert order[j] in order;
    }
    var entries := seq(|order|, j requires 0 <= j < |order| => Dataset(order[j], group[order[j]]));
    assert entries == EntriesFor(scores, order);
    datasets := SortBy(entries, Key);
  }

  /**
    The `forEach` of `run`: each score's accuracy is appended to the list of its day, the
    list created on first use. `order` is the order the map's keys come out in.
   */
  method GroupByDay(scores: seq<Score>) returns (order: seq<int>, group: map<int, seq<int>>)
    ensures order == FirstSeen(scores)
    ensures forall k :: k in group <==> k in order
    ensures forall k | k in group :: group[k] == On(scores, k)
  {
    order := [];
    group := map[];
    var i := 0;
    while i < |scores|
      invariant 0 <= i <= |scores|
      invariant order == FirstSeen(scores[..i])
      invariant forall k :: k in group <==> k in order
      invariant forall k | k in group :: group[k] == On(scores[..i], k)
    {
      var key := Day(scores[i]);
      if key !in group {
        OnAbsent(scores[..i], key);
      }
      var list := if key in group then group[key] else [];
      if key !in group {
        order := order + [key];
      }
      group := group[key := list + [scores[i].accuracy]];
      assert Init(scores[..i + 1]) == scores[..i] && Last(scores[..i + 1]) == scores[i];
      forall k
        ensures On(scores[..i + 1], k) == On(scores[..i], k) + (if key == k then [scores[i].accuracy] else [])
      {
      }
      i := i + 1;
    }
    assert scores[..i] == scores;
  }

  /** `itemCount`: the datasets' sizes added up. */
  function ItemCount(ds: seq<Dataset>): int {
    if ds == [] then 0 else ItemCount(Init(ds)) + |Last(ds).data|
  }

  /** The datasets' contents one after another: the series the chart plots. */
  function Flatten(ds: seq<Dataset>): (r: seq<int>)
    ensures |r| == ItemCount(ds)
  {
    if ds == [] then [] else Flatten(Init(ds)) + Last(ds).data
  }

  /** `idxCache`: the running totals from 0, so entry `i` is where dataset `i` starts in the series. */
  function IdxCache(ds: seq<Dataset>): (r: seq<int>)
    ensures |r| == |ds| + 1 && r[0] == 0 && r[|ds|] == ItemCount(ds)
  {
    if ds == [] then [0]
    else
      var c := IdxCache(Init(ds));
      c + [c[|ds| - 1] + |Last(ds).data|]
  }

  /** Each entry of the cache is the previous one plus the size of the dataset between them. */
  lemma {:induction false} IdxCacheStep(ds: seq<Dataset>, i: nat)
    requires i < |ds|
    ensures IdxCache(ds)[i + 1] == IdxCache(ds)[i] + |ds[i].data|
  {
    if i < |ds| - 1 {
      IdxCacheStep(Init(ds), i);
    }
  }

  /** The cache never goes down, and goes up strictly where no dataset is empty. */
  lemma {:induction false} IdxCacheGrows(ds: seq<Dataset>, i: nat, j: nat)
    requires i <= j <= |ds|
    ensures IdxCache(ds)[i] <= IdxCache(ds)[j]
    ensures NoneEmpty(ds) && i < j ==> IdxCache(ds)[i] < IdxCache(ds)[j]
    decreases j - i
  {
    if i < j {
      IdxCacheStep(ds, i);
      IdxCacheGrows(ds, i + 1, j);
    }
  }

  /** No dataset is empty, as no day made by `run` is. */
  predicate NoneEmpty(ds: seq<Dataset>) {
    forall k :: 0 <= k < |ds| ==> ds[k].data != []
  }

  /** The comparison `binarySearch(item)` makes: an entry against the item. */
  function Against(item: int): int -> int {
    x => x - item
  }

  /** `getXValue`: a hit is the dataset starting at the item; a miss is the one before the insertion point. */
  function GetXValue(ds: seq<Dataset>, item: int): int {
    InsertionIndex(BinarySearch(IdxCache(ds), Against(item)))
  }

  /** A hit is taken as it is; a miss `-(insertPoint + 1)` gives `insertPoint - 1`. */
  function InsertionIndex(what: int): int {
    if what >= 0 then what else -what - 1 - 1
  }

  /**
    Over datasets none of which is empty, every item of the series is placed in the
    dataset that holds it: the one whose start is at most the item and whose end is past it.
   */
  lemma GetXValueLocates(ds: seq<Dataset>, item: int)
    requires NoneEmpty(ds)
    requires 0 <= item < ItemCount(ds)
    ensures var i := GetXValue(ds, item);
      0 <= i < |ds| && IdxCache(ds)[i] <= item < IdxCache(ds)[i + 1]
  {
    var c := IdxCache(ds);
    IdxCacheIncreasing(ds);
    assert c[0] <= item < c[|c| - 1];
    SearchLocates(c, item);
    assert GetXValue(ds, item) == InsertionIndex(BinarySearch(c, Against(item)));
  }

  /** Where no dataset is empty, the cache is strictly increasing. */
  lemma IdxCacheIncreasing(ds: seq<Dataset>)
    requires NoneEmpty(ds)
    ensures forall i, j :: 0 <= i < j < |IdxCache(ds)| ==> IdxCache(ds)[i] < IdxCache(ds)[j]
  {
    forall i, j | 0 <= i < j < |IdxCache(ds)|
      ensures IdxCache(ds)[i] < IdxCache(ds)[j]
    {
      IdxCacheGrows(ds, i, j);
    }
  }

  /** In strictly increasing entries, the search places an item in range between the two entries around it. */
  lemma SearchLocates(c: seq<int>, item: int)
    requires |c| >= 1 && c[0] <= item < c[|c| - 1]
    requires forall i, j :: 0 <= i < j < |c| ==> c[i] < c[j]
    ensures var i := InsertionIndex(BinarySearch(c, Against(item)));
      0 <= i < |c| - 1 && c[i] <= item < c[i + 1]
  {
    var cmp := Against(item);
    var what := BinarySearch(c, cmp);
    if what < 0 {
      assert Ordered(c, cmp) by {
        forall i, j | 0 <= i <= j < |c|
          ensures Sign(cmp(c[i])) <= Sign(cmp(c[j]))
        {
          assert c[i] <= c[j];
        }
      }
      SearchSplits(c, cmp);
      var p := -what - 1;
      assert cmp(c[0]) < 0;
      assert !(cmp(c[|c| - 1]) < 0);
      assert cmp(c[p - 1]) < 0;
      assert !(cmp(c[p]) < 0);
    }
  }

  /** `getYValue`: the item's accuracy, or nothing where `get` would throw for an index out of range. */
  function GetYValue(ds: seq<Dataset>, item: int): Option<int> {
    ValueIn(ds, GetXValue(ds, item), item)
  }

  /** The item's accuracy read from dataset `idx`, at its offset from the dataset's start. */
  function ValueIn(ds: seq<Dataset>, idx: int, item: int): Option<int> {
    if 0 <= idx < |ds| && 0 <= item - IdxCache(ds)[idx] < |ds[idx].data| then
      Some(ds[idx].data[item - IdxCache(ds)[idx]])
    else
      None
  }

  /** Dataset `i`'s `j`-th accuracy sits at its start plus `j` in the series. */
  lemma {:induction false} FlattenAt(ds: seq<Dataset>, i: nat, j: nat)
    requires i < |ds| && j < |ds[i].data|
    ensures 0 <= IdxCache(ds)[i] && IdxCache(ds)[i] + j < |Flatten(ds)|
    ensures Flatten(ds)[IdxCache(ds)[i] + j] == ds[i].data[j]
  {
    var n := |ds| - 1;
    if i < n {
      FlattenAt(Init(ds), i, j);
      assert IdxCache(ds)[i] == IdxCache(Init(ds))[i];
    } else {
      assert IdxCache(ds)[i] == IdxCache(Init(ds))[n] == |Flatten(Init(ds))|;
    }
  }

  /** Over datasets none of which is empty, the chart's y values are the series itself. */
  lemma GetYValueIsSeries(ds: seq<Dataset>, item: int)
    requires NoneEmpty(ds)
    requires 0 <= item < ItemCount(ds)
    ensures GetYValue(ds, item) == Some(Flatten(ds)[item])
  {
    var i := GetXValue(ds, item);
    assert GetYValue(ds, item) == ValueIn(ds, i, item);
    GetXValueLocates(ds, item);
    ValueInIsSeries(ds, i, item);
  }

  /** Reading the dataset that holds the item gives the item's place in the series. */
  lemma ValueInIsSeries(ds: seq<Dataset>, i: nat, item: int)
    requires i < |ds| && IdxCache(ds)[i] <= item < IdxCache(ds)[i + 1]
    ensures 0 <= item < |Flatten(ds)|
    ensures ValueIn(ds, i, item) == Some(Flatten(ds)[item])
  {
    IdxCacheStep(ds, i);
    FlattenAt(ds, i, item - IdxCache(ds)[i]);
  }

  /** Item counts add up over concatenation. */
  lemma {:induction false} ItemCountAppend(u: seq<Dataset>, v: seq<Dataset>)
    ensures ItemCount(u + v) == ItemCount(u) + ItemCount(v)
    decreases |v|
  {
    if v != [] {
      assert u + v != [] && Last(u + v) == Last(v);
      assert Init(u + v) == u + Init(v);
      ItemCountAppend(u, Init(v));
      calc {
        ItemCount(u + v);
        ItemCount(u + Init(v)) + |Last(v).data|;
        ItemCount(u) + ItemCount(Init(v)) + |Last(v).data|;
        ItemCount(u) + ItemCount(v);
      }
    } else {
      assert u + v == u;
    }
  }

  /** Taking one dataset out takes its size off the count. */
  lemma ItemCountRemove(b: seq<Dataset>, p: nat)
    requires p < |b|
    ensures ItemCount(b) == ItemCount(b[..p] + b[p + 1..]) + |b[p].data|
  {
    assert b == b[..p] + [b[p]] + b[p + 1..];
    ItemCountAppend(b[..p], b[p + 1..]);
    ItemCountAppend(b[..p] + [b[p]], b[p + 1..]);
    ItemCountAppend(b[..p], [b[p]]);
    assert ItemCount([b[p]]) == |b[p].data| by {
      assert Init([b[p]]) == [];
    }
  }

  /** Reordering the datasets keeps the item count. */
  lemma {:induction false} ItemCountPermutation(a: seq<Dataset>, b: seq<Dataset>)
    requires multiset(a) == multiset(b)
    ensures ItemCount(a) == ItemCount(b)
    decreases |a|
  {
    if a == [] {
      assert |b| == |multiset(b)| == 0;
    } else {
      var x := Last(a);
      assert x in multiset(b) by {
        assert a == Init(a) + [x];
      }
      var p :| 0 <= p < |b| && b[p] == x;
      var rest := b[..p] + b[p + 1..];
      RemovedMultiset(a, b, p);
      ItemCountPermutation(Init(a), rest);
      ItemCountRemove(b, p);
    }
  }

  lemma RemovedMultiset(a: seq<Dataset>, b: seq<Dataset>, p: nat)
    requires multiset(a) == multiset(b) && a != [] && p < |b| && b[p] == Last(a)
    ensures multiset(b[..p] + b[p + 1..]) == multiset(Init(a))
  {
    var x := Last(a);
    assert b == b[..p] + [x] + b[p + 1..];
    assert a == Init(a) + [x];
    assert multiset(b) == multiset(b[..p] + b[p + 1..]) + multiset{x};
    assert multiset(a) == multiset(Init(a)) + multiset{x};
    assert multiset(b[..p] + b[p + 1..]) == multiset(b) - multiset{x};
    assert multiset(Init(a)) == multiset(a) - multiset{x};
  }

  /** The sizes of the listed days' accuracy lists, added up. */
  function SumOn(scores: seq<Score>, ks: seq<int>): int {
    if ks == [] then 0 else SumOn(scores, Init(ks)) + |On(scores, Last(ks))|
  }

  /** How many times `x` is listed. */
  function Occ(ks: seq<int>, x: int): nat {
    if ks == [] then 0 else Occ(Init(ks), x) + (if Last(ks) == x then 1 else 0)
  }

  lemma {:induction false} EntriesCount(scores: seq<Score>, ks: seq<int>)
    ensures ItemCount(EntriesFor(scores, ks)) == SumOn(scores, ks)
  {
    if ks != [] {
      assert Init(EntriesFor(scores, ks)) == EntriesFor(scores, Init(ks));
      EntriesCount(scores, Init(ks));
    }
  }

  lemma {:induction false} SumOnEmpty(ks: seq<int>)
    ensures SumOn([], ks) == 0
  {
    if ks != [] {
      SumOnEmpty(Init(ks));
    }
  }

  /** One more score adds one to the count of each listing of its day. */
  lemma {:induction false} SumOnSnoc(scores: seq<Score>, s: Score, ks: seq<int>)
    ensures SumOn(scores + [s], ks) == SumOn(scores, ks) + Occ(ks, Day(s))
  {
    assert Init(scores + [s]) == scores;
    if ks != [] {
      SumOnSnoc(scores, s, Init(ks));
    }
  }

  lemma {:induction false} OccOnce(ks: seq<int>, x: int)
    requires Distinct(ks)
    ensures Occ(ks, x) == (if x in ks then 1 else 0)
  {
    if ks != [] {
      assert ks == Init(ks) + [Last(ks)];
      OccOnce(Init(ks), x);
    }
  }

  /** Listing every day of the scores once counts every score once. */
  lemma {:induction false} SumOnCounts(scores: seq<Score>, ks: seq<int>)
    requires Distinct(ks)
    requires forall i :: 0 <= i < |scores| ==> Day(scores[i]) in ks
    ensures SumOn(scores, ks) == |scores|
  {
    if scores == [] {
      SumOnEmpty(ks);
    } else {
      var s := Last(scores);
      assert scores == Init(scores) + [s];
      SumOnCounts(Init(scores), ks);
      SumOnSnoc(Init(scores), s, ks);
      OccOnce(ks, Day(s));
    }
  }

  /** A day without a score has an empty list. */
  lemma {:induction false} OnAbsent(scores: seq<Score>, k: int)
    requires forall i :: 0 <= i < |scores| ==> Day(scores[i]) != k
    ensures On(scores, k) == []
  {
    if scores != [] {
      assert forall i :: 0 <= i < |scores| - 1 ==> Init(scores)[i] == scores[i];
      OnAbsent(Init(scores), k);
    }
  }

  /** A day with a score has a non-empty list. */
  lemma {:induction false} OnNonEmpty(scores: seq<Score>, i: nat)
    requires i < |scores|
    ensures On(scores, Day(scores[i])) != []
  {
    if i < |scores| - 1 {
      OnNonEmpty(Init(scores), i);
    }
  }

  /** The datasets come in strictly increasing day order, so no day appears twice. */
  lemma DatasetsSorted(scores: seq<Score>)
    ensures forall i, j :: 0 <= i < j < |Datasets(scores)| ==> Datasets(scores)[i].key < Datasets(scores)[j].key
  {
    var entries := EntriesFor(scores, FirstSeen(scores));
    assert DistinctKeys(entries, Key);
    PermutationKeepsDistinct(entries, Datasets(scores), Key);
    SortBySorted(entries, Key);
  }

  /** A dataset is a day with at least one score, holding exactly that day's accuracies in the scores' order. */
  lemma DatasetsAreDays(scores: seq<Score>)
    ensures forall d | d in Datasets(scores) :: d.data == On(scores, d.key) && d.data != []
  {
    var ks := FirstSeen(scores);
    var entries := EntriesFor(scores, ks);
    forall d | d in Datasets(scores)
      ensures d.data == On(scores, d.key) && d.data != []
    {
      assert d in multiset(Datasets(scores));
      assert d in entries;
      var j :| 0 <= j < |entries| && entries[j] == d;
      assert ks[j] in ks;
      var i :| 0 <= i < |scores| && Day(scores[i]) == ks[j];
      OnNonEmpty(scores, i);
    }
  }

  /** Every score's day has a dataset. */
  lemma DatasetsCoverScores(scores: seq<Score>)
    ensures forall i | 0 <= i < |scores| :: exists d | d in Datasets(scores) :: d.key == Day(scores[i])
  {
    var ks := FirstSeen(scores);
    var entries := EntriesFor(scores, ks);
    forall i | 0 <= i < |scores|
      ensures exists d | d in Datasets(scores) :: d.key == Day(scores[i])
    {
      assert Day(scores[i]) in ks;
      var j :| 0 <= j < |ks| && ks[j] == Day(scores[i]);
      assert entries[j] in multiset(entries);
      assert entries[j] in Datasets(scores);
    }
  }

  /** The chart plots every score once: the series is as long as the score list. */
  lemma DatasetsCountScores(scores: seq<Score>)
    ensures ItemCount(Datasets(scores)) == |scores|
  {
    var ks := FirstSeen(scores);
    var entries := EntriesFor(scores, ks);
    ItemCountPermutation(entries, Datasets(scores));
    EntriesCount(scores, ks);
    SumOnCounts(scores, ks);
  }
}
