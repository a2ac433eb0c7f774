/** `ScoreAnalyzer.analyze` for one beatmap: the new scores since the last analysis, and their report. */
module Analyzer {
  import opened Common
  import opened Sorting
  import opened Histories

  /** `compareScore(l, r)`: the accuracy difference. */
  function CompareScore(l: Score, r: Score): int {
    l.accuracy - r.accuracy
  }

  datatype Report = Report(
    bestScore: Score, worstScore: Score, recentBest: Option<Score>,
    recentBestCompare: int, historyBestCompare: int)

  datatype AnalyzeReport = AnalyzeReport(history: ScoreHistory, playCount: int, report: Option<Report>)

  /** The cut-off: one second after the newest analysed score, or the fallback when there is none. */
  function Since(history: ScoreHistory, fallbackSince: Option<int>): (r: Option<int>)
    ensures |history.scores| > 0 ==> r == Some(history.scores[|history.scores| - 1].createdAt + SECOND_MS)
    ensures |history.scores| == 0 ==> r == fallbackSince
  {
    if |history.scores| > 0 then Some(history.scores[|history.scores| - 1].createdAt + SECOND_MS)
    else fallbackSince
  }

  /** The scores the analysis takes in: all of them without a cut-off, else those since it. */
  function Considered(history: ScoreHistory, scores: seq<Score>, fallbackSince: Option<int>): (r: seq<Score>)
    ensures Since(history, fallbackSince).None? ==> r == scores
    ensures Since(history, fallbackSince).Some? && SortedBy(scores, CreatedAt) ==>
      r == CreatedSince(scores, Since(history, fallbackSince).value)
  {
    var since := Since(history, fallbackSince);
    if since.None? then scores else BinaryAnswer(scores, since.value)
  }

  /** The first and last of the scores sorted by accuracy: a least and a greatest accuracy. */
  function Extremes(considered: seq<Score>): (r: (Score, Score))
    requires |considered| > 0
    ensures r.0 in considered && r.1 in considered
    ensures forall x | x in considered :: r.0.accuracy <= x.accuracy <= r.1.accuracy
  {
    var sorted := SortBy(considered, Accuracy);
    SortBySorted(considered, Accuracy);
    SortedEnds(sorted, Accuracy);
    assert sorted[0] in multiset(sorted) && sorted[|sorted| - 1] in multiset(sorted);
    forall x | x in considered
      ensures x in sorted
    {
      assert x in multiset(considered);
    }
    (sorted[0], sorted[|sorted| - 1])
  }

  /** The analysis. It reads no clock: `now` is a parameter, and so is the run's `analyzeId`. */
  function Analyze(now: int, history: ScoreHistory, scores: seq<Score>, fallbackSince: Option<int>, analyzeId: int): (r: AnalyzeReport)
    ensures var considered := Considered(history, scores, fallbackSince);
      && r.playCount == |considered|
      && (r.playCount == 0 <==> r.report.None?)
      && (r.playCount == 0 ==> r.history == history)
      && (r.report.Some? ==>
            var rep := r.report.value;
            && rep.bestScore in considered && rep.worstScore in considered
            && (forall x | x in considered :: rep.worstScore.accuracy <= x.accuracy <= rep.bestScore.accuracy)
            && rep.recentBest == RecentBest(history, now - history.recentWindow)
            && (rep.recentBest.None? ==> rep.recentBestCompare == 0)
            && (rep.recentBest.Some? ==> rep.recentBestCompare == rep.bestScore.accuracy - rep.recentBest.value.accuracy)
            && (history.best.None? ==> rep.historyBestCompare == 0)
            && (history.best.Some? ==> rep.historyBestCompare == rep.bestScore.accuracy - history.best.value.accuracy))
  {
    var considered := Considered(history, scores, fallbackSince);
    var playCount := |considered|;
    if playCount == 0 then AnalyzeReport(history, 0, None)
    else
      var (worstScore, bestScore) := Extremes(considered);
      var recentBest := RecentBest(history, now - history.recentWindow);
      var recentBestCompare := if recentBest.Some? then CompareScore(bestScore, recentBest.value) else 0;
      var historyBestCompare := if history.best.Some? then CompareScore(bestScore, history.best.value) else 0;
      var newBest := if history.best.None? || historyBestCompare >= 0 then Some(bestScore) else history.best;
      AnalyzeReport(
        AddScores(history, considered, newBest, analyzeId), playCount,
        Some(Report(bestScore, worstScore, recentBest, recentBestCompare, historyBestCompare)))
  }

  /**
    After a run with plays, the history is the old one with the considered scores added
    as one group under `analyzeId`, and its best is the run's best unless the old best
    has a strictly higher accuracy.
   */
  lemma AnalyzeAddsGroup(now: int, history: ScoreHistory, scores: seq<Score>, fallbackSince: Option<int>, analyzeId: int)
    ensures var r := Analyze(now, history, scores, fallbackSince, analyzeId);
      var considered := Considered(history, scores, fallbackSince);
      r.report.Some? ==>
        var best := r.report.value.bestScore;
        var newBest := if history.best.None? || history.best.value.accuracy <= best.accuracy then Some(best) else history.best;
        && r.history == AddScores(history, considered, newBest, analyzeId)
        && r.history.best == newBest
  {
  }

  /** An analysis keeps a history well formed. */
  lemma AnalyzeKeepsWellFormed(now: int, history: ScoreHistory, scores: seq<Score>, fallbackSince: Option<int>, analyzeId: int)
    requires WellFormed(history)
    ensures WellFormed(Analyze(now, history, scores, fallbackSince, analyzeId).history)
  {
    var r := Analyze(now, history, scores, fallbackSince, analyzeId);
    if r.report.Some? {
      AnalyzeAddsGroup(now, history, scores, fallbackSince, analyzeId);
      var rep := r.report.value;
      var newBest := if history.best.None? || history.best.value.accuracy <= rep.bestScore.accuracy then Some(rep.bestScore) else history.best;
      AddScoresKeepsWellFormed(history, Considered(history, scores, fallbackSince), newBest, analyzeId);
    }
  }

  /** The lines of `Report.pretty(historyBest)`, without their text formatting. */
  datatype Line =
    | BestLine(best: Score)
    | WorstLine(worst: Score)
    | RecentLine(recent: Option<Score>, compare: int)     // None: "not recently played"
    | HistoryLine(previous: Option<Score>, compare: int)  // None: "not played before"

  function Pretty(rep: Report, historyBest: Option<Score>): (lines: seq<Line>)
    ensures |lines| == (if rep.bestScore.id != rep.worstScore.id then 4 else 3)
    ensures forall k :: 0 <= k < |lines| ==> (lines[k].WorstLine? <==> k == 1 && rep.bestScore.id != rep.worstScore.id)
    ensures lines[0] == BestLine(rep.bestScore)
    ensures rep.bestScore.id != rep.worstScore.id ==> lines[1] == WorstLine(rep.worstScore)
    ensures lines[|lines| - 2] == RecentLine(rep.recentBest, rep.recentBestCompare)
    ensures lines[|lines| - 1].HistoryLine? &&
      (lines[|lines| - 1].previous.Some? <==> historyBest.Some? && historyBest.value.id != rep.bestScore.id) &&
      (lines[|lines| - 1].previous.Some? ==> lines[|lines| - 1].previous == historyBest) &&
      lines[|lines| - 1].compare == rep.historyBestCompare
  {
    var worst := if rep.bestScore.id != rep.worstScore.id then [WorstLine(rep.worstScore)] else [];
    var isRecentHistoryBest := historyBest.Some? && historyBest.value.id == rep.bestScore.id;
    var previous := if historyBest.Some? && !isRecentHistoryBest then historyBest else None;
    [BestLine(rep.bestScore)] + worst + [RecentLine(rep.recentBest, rep.recentBestCompare), HistoryLine(previous, rep.historyBestCompare)]
  }
}
