/**
  A beatmap's score history: the analysed scores from oldest to newest, the index at
  which each analysis group begins, the analysis id that introduced each group, and the
  best score. Accuracy is an integer here; instants are epoch milliseconds.
 */
module Histories {
  import opened Common
  import opened Mods
  import opened Sorting
  import opened Search

  /** A web-API beatmap; `difficulty` holds the bits of the `Float` star rating. */
  datatype Beatmap = Beatmap(id: int, difficulty: nat, checksum: Option<string>)

  /** A score as the web API returns it; `pinnedId` is the score id of the current user's pin, if any. */
  datatype Score = Score(
    accuracy: int, createdAt: int, id: int, mods: seq<Mod>, userId: int,
    beatmap: Option<Beatmap>, pinnedId: Option<int>)

  function CreatedAt(s: Score): int { s.createdAt }
  function Accuracy(s: Score): int { s.accuracy }

  const SECOND_MS: int := 1000
  const DAY_MS: int := 86400000
  /** The default `recentWindow`: five days. */
  const DEFAULT_RECENT_WINDOW: int := 5 * DAY_MS

  datatype ScoreHistory = ScoreHistory(
    beatmapId: int, scores: seq<Score>, groups: seq<int>, analyzeIds: Option<seq<int>>,
    best: Option<Score>, recentWindow: int)

  /** `compareTo` on integers. */
  function Compare(a: int, b: int): int {
    if a < b then -1 else if a == b then 0 else 1
  }

  /**
    The comparator `binaryAnswer` searches with, applied to a score and the probe at
    `since`: a score at exactly `since` counts as later than the probe.
   */
  function CompareToProbe(since: int): (cmp: Score -> int)
    ensures forall l :: cmp(l) != 0 && (cmp(l) < 0 <==> l.createdAt < since)
  {
    (l: Score) => var c := Compare(l.createdAt, since); if c == 0 then 1 else c
  }

  /** The scores created at or after `since`, in their order: the reference for `binaryAnswer`. */
  function CreatedSince(scores: seq<Score>, since: int): (r: seq<Score>)
    ensures forall x | x in r :: x in scores && x.createdAt >= since
    ensures forall x | x in scores && x.createdAt >= since :: x in r
  {
    if scores == [] then []
    else if scores[0].createdAt >= since then [scores[0]] + CreatedSince(scores[1..], since)
    else CreatedSince(scores[1..], since)
  }

  /** `binaryAnswer(scores, since)`: the search never hits, and the view starts at its insertion point. */
  function BinaryAnswer(scores: seq<Score>, since: int): (r: seq<Score>)
    ensures |r| <= |scores| && r == scores[|scores| - |r|..]
    ensures SortedBy(scores, CreatedAt) ==> r == CreatedSince(scores, since)
  {
    var result := BinarySearch(scores, CompareToProbe(since));
    var insertPoint := -result - 1;
    var r := scores[insertPoint..];
    if SortedBy(scores, CreatedAt) then
      SinceSuffix(scores, since);
      r
    else
      r
  }

  /** On time-ordered scores the insertion point splits the old scores from the recent ones. */
  lemma SinceSuffix(scores: seq<Score>, since: int)
    requires SortedBy(scores, CreatedAt)
    ensures var k := -BinarySearch(scores, CompareToProbe(since)) - 1;
      0 <= k <= |scores| && scores[k..] == CreatedSince(scores, since)
  {
    var cmp := CompareToProbe(since);
    assert Ordered(scores, cmp) by {
      forall i, j | 0 <= i <= j < |scores|
        ensures Sign(cmp(scores[i])) <= Sign(cmp(scores[j]))
      {
        assert CreatedAt(scores[i]) <= CreatedAt(scores[j]) || i == j;
      }
    }
    SearchSplits(scores, cmp);
    var k := -BinarySearch(scores, cmp) - 1;
    SplitFilter(scores, since, k);
  }

  lemma {:induction false} SplitFilter(scores: seq<Score>, since: int, k: nat)
    requires k <= |scores|
    requires forall i :: 0 <= i < |scores| ==> (scores[i].createdAt < since <==> i < k)
    ensures scores[k..] == CreatedSince(scores, since)
  {
    if scores != [] {
      if k == 0 {
        SplitFilter(scores[1..], since, 0);
        assert scores == [scores[0]] + scores[1..];
      } else {
        SplitFilter(scores[1..], since, k - 1);
        assert scores[k..] == scores[1..][k - 1..];
      }
    }
  }

  /** `addScores`: an empty batch changes nothing; otherwise the batch becomes a new group. */
  function AddScores(h: ScoreHistory, added: seq<Score>, newBest: Option<Score>, analyzeId: int): (r: ScoreHistory)
    ensures added == [] ==> r == h
  {
    if added == [] then h
    else
      var n := |h.groups|;
      var newGroups := seq(n + 1, i requires 0 <= i <= n => if i == n then |h.scores| else h.groups[i]);
      var best := if newBest.Some? then newBest else h.best;
      var newIds := match h.analyzeIds {
        case None => seq(n + 1, i => if i == n then analyzeId else 0)
        case Some(ids) => ids + [analyzeId]
      };
      h.(groups := newGroups, analyzeIds := Some(newIds), scores := h.scores + added, best := best)
  }

  /**
    A non-empty batch is appended after the old scores, the old score count is appended
    to `groups` and `analyzeId` to the ids; every earlier entry stays as it was.
   */
  lemma AddScoresAppends(h: ScoreHistory, added: seq<Score>, newBest: Option<Score>, analyzeId: int)
    requires added != []
    ensures var r := AddScores(h, added, newBest, analyzeId);
      && r.scores[..|h.scores|] == h.scores && r.scores[|h.scores|..] == added
      && |r.groups| == |h.groups| + 1 && r.groups[..|h.groups|] == h.groups && r.groups[|h.groups|] == |h.scores|
      && r.analyzeIds.Some? && r.beatmapId == h.beatmapId && r.recentWindow == h.recentWindow
      && (h.analyzeIds.Some? ==>
            var old_ := h.analyzeIds.value;
            |r.analyzeIds.value| == |old_| + 1 && r.analyzeIds.value[..|old_|] == old_ && r.analyzeIds.value[|old_|] == analyzeId)
      && (h.analyzeIds.None? ==>
            |r.analyzeIds.value| == |h.groups| + 1 && r.analyzeIds.value[|h.groups|] == analyzeId
            && forall i :: 0 <= i < |h.groups| ==> r.analyzeIds.value[i] == 0)
  {
    var r := AddScores(h, added, newBest, analyzeId);
    assert r.groups[..|h.groups|] == h.groups;
  }

  /** The best after `addScores` is the new best when there is one, and the old best otherwise. */
  lemma AddScoresBest(h: ScoreHistory, added: seq<Score>, newBest: Option<Score>, analyzeId: int)
    requires added != []
    ensures AddScores(h, added, newBest, analyzeId).best == if newBest.Some? then newBest else h.best
  {
  }

  /**
    The shape the history keeps: groups begin at strictly increasing indices inside the
    scores, so each group is non-empty, and the ids, when present, pair up with the groups.
   */
  ghost predicate WellFormed(h: ScoreHistory) {
    && (forall i :: 0 <= i < |h.groups| ==> 0 <= h.groups[i] < |h.scores|)
    && (forall i, j :: 0 <= i < j < |h.groups| ==> h.groups[i] < h.groups[j])
    && (h.analyzeIds.Some? ==> |h.analyzeIds.value| == |h.groups|)
  }

  /** The end (exclusive) of group `i`: the start of the next group, or the end of the scores. */
  function GroupEnd(h: ScoreHistory, i: nat): int
    requires i < |h.groups|
  {
    if i + 1 < |h.groups| then h.groups[i + 1] else |h.scores|
  }

  /** In a well-formed history every group holds at least one score. */
  lemma GroupsNonEmpty(h: ScoreHistory)
    requires WellFormed(h)
    ensures forall i :: 0 <= i < |h.groups| ==> h.groups[i] < GroupEnd(h, i) <= |h.scores|
  {
  }

  /** `addScores` keeps a history well formed. */
  lemma AddScoresKeepsWellFormed(h: ScoreHistory, added: seq<Score>, newBest: Option<Score>, analyzeId: int)
    requires WellFormed(h)
    ensures WellFormed(AddScores(h, added, newBest, analyzeId))
  {
    if added != [] {
      AddScoresAppends(h, added, newBest, analyzeId);
      var r := AddScores(h, added, newBest, analyzeId);
      assert forall i :: 0 <= i < |h.groups| ==> r.groups[i] == h.groups[i];
    }
  }

  /** `scoreSince(since)`. */
  function ScoreSince(h: ScoreHistory, since: int): (r: seq<Score>)
    ensures SortedBy(h.scores, CreatedAt) ==> r == CreatedSince(h.scores, since)
  {
    BinaryAnswer(h.scores, since)
  }

  /** `reduce { l, r -> if (l.accuracy >= r.accuracy) l else r }` from position `i` on, carrying `acc`. */
  function ReduceBest(view: seq<Score>, acc: Score, i: nat): (r: Score)
    requires i <= |view|
    ensures r == acc || r in view[i..]
    ensures r.accuracy >= acc.accuracy
    decreases |view| - i
  {
    if i == |view| then acc
    else ReduceBest(view, if acc.accuracy >= view[i].accuracy then acc else view[i], i + 1)
  }

  /** `view[j]` has the highest accuracy in `view`, and nothing before it has as much. */
  predicate FirstBest(view: seq<Score>, j: nat) {
    && j < |view|
    && (forall k :: 0 <= k < |view| ==> view[k].accuracy <= view[j].accuracy)
    && (forall k :: 0 <= k < j ==> view[k].accuracy < view[j].accuracy)
  }

  lemma {:induction false} ReduceFindsFirstBest(view: seq<Score>, b: nat, i: nat) returns (j: nat)
    requires b < i <= |view|
    requires forall k :: 0 <= k < i ==> view[k].accuracy <= view[b].accuracy
    requires forall k :: 0 <= k < b ==> view[k].accuracy < view[b].accuracy
    ensures FirstBest(view, j) && ReduceBest(view, view[b], i) == view[j]
    decreases |view| - i
  {
    if i == |view| {
      j := b;
    } else if view[b].accuracy >= view[i].accuracy {
      j := ReduceFindsFirstBest(view, b, i + 1);
    } else {
      j := ReduceFindsFirstBest(view, i, i + 1);
    }
  }

  /** `recentBest(since)`: the reduction over the recent scores, or None when there are none. */
  function RecentBest(h: ScoreHistory, since: int): (r: Option<Score>)
    ensures r.Some? ==> r.value in BinaryAnswer(h.scores, since)
  {
    var view := BinaryAnswer(h.scores, since);
    if |view| > 0 then
      Some(ReduceBest(view, view[0], 1))
    else
      None
  }

  /**
    On time-ordered scores, `recentBest(since)` is None exactly when no score is as recent
    as `since`; otherwise it is the first score of highest accuracy among those that are.
   */
  lemma RecentBestIsFirstBest(h: ScoreHistory, since: int) returns (j: nat)
    requires SortedBy(h.scores, CreatedAt)
    ensures var r := RecentBest(h, since);
      var view := CreatedSince(h.scores, since);
      && (r.None? <==> forall x | x in h.scores :: x.createdAt < since)
      && (r.Some? ==> FirstBest(view, j) && r.value == view[j])
  {
    var view := BinaryAnswer(h.scores, since);
    if |view| > 0 {
      j := ReduceFindsFirstBest(view, 0, 1);
      assert view[0] in view;
    } else {
      j := 0;
    }
  }
}
