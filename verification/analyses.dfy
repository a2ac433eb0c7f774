/**
  The analysis log (`AnalyzeMetadata`) and the rollback of the last analysis group in a
  score history.
 */
module Analyses {
  import opened Common
  import opened Histories

  /** Analysis ids start at 100. */
  const START: int := 100

  datatype AnalyzeRecord = AnalyzeRecord(id: int, date: int)
  datatype AnalyzeMetadata = AnalyzeMetadata(lastId: int, records: seq<AnalyzeRecord>)

  /** The metadata used while none is stored: `lastId` is `START - 1`. */
  function Fresh(): (m: AnalyzeMetadata)
    ensures m.records == [] && m.lastId + 1 == START
  {
    AnalyzeMetadata(START - 1, [])
  }

  /** The id the next analysis takes. */
  function NextId(m: AnalyzeMetadata): int {
    m.lastId + 1
  }

  datatype IdMismatch = IdMismatch(expected: int, got: int)

  /** `addRecord` as written: it moves `lastId` one past the id it records. */
  function AddRecordAsWritten(m: AnalyzeMetadata, record: AnalyzeRecord): (r: Result<AnalyzeMetadata, IdMismatch>)
    ensures r.Err? <==> record.id != m.lastId + 1
    ensures r.Err? ==> r.error == IdMismatch(m.lastId + 1, record.id)
    ensures r.Ok? ==> r.value.records == m.records + [record] && r.value.lastId == record.id + 1
  {
    if m.lastId + 1 != record.id then Err(IdMismatch(m.lastId + 1, record.id))
    else Ok(m.(lastId := record.id + 1, records := m.records + [record]))
  }

  /** `addRecord` with `lastId` naming the last recorded analysis, as the rollback reads it. */
  function AddRecord(m: AnalyzeMetadata, record: AnalyzeRecord): (r: Result<AnalyzeMetadata, IdMismatch>)
    ensures r.Err? <==> record.id != m.lastId + 1
    ensures r.Err? ==> r.error == IdMismatch(m.lastId + 1, record.id)
    ensures r.Ok? ==> r.value.records == m.records + [record] && r.value.lastId == record.id
  {
    if m.lastId + 1 != record.id then Err(IdMismatch(m.lastId + 1, record.id))
    else Ok(m.(lastId := record.id, records := m.records + [record]))
  }

  /** From fresh metadata the first accepted id is `START`, and only `START`. */
  lemma FirstRecordIsStart(date: int, id: int)
    ensures AddRecord(Fresh(), AnalyzeRecord(id, date)).Ok? <==> id == START
    ensures AddRecordAsWritten(Fresh(), AnalyzeRecord(id, date)).Ok? <==> id == START
  {
  }

  /** What the rollback of one history does. */
  datatype Rollback =
    | NoIds                         // the history predates analysis ids: left alone
    | NoMatch                       // the last group was added by another analysis: left alone
    | Removed(history: ScoreHistory)
    | SavedThenThrows(history: ScoreHistory)  // saved, then reading the group's first score throws
    | Malformed                     // the ids claim a group that `groups` or `scores` lacks: throws

  /**
    The truncation step of `removeLastAnalyze`: when the last analysis id is `analyzeId`,
    the scores are cut back to where the last group begins and the last group and id are
    dropped. The truncated history is saved before the first score of the dropped group is
    read for the report, so a last group that starts at the end of the scores (an empty
    group) is saved and then throws, which ends the rollback of the remaining histories.
   */
  function Truncate(h: ScoreHistory, analyzeId: int): (r: Rollback)
    ensures r.NoIds? <==> h.analyzeIds.None?
    ensures r.NoMatch? <==> h.analyzeIds.Some? && (h.analyzeIds.value == [] || Last(h.analyzeIds.value) != analyzeId)
    ensures r.SavedThenThrows? <==> && h.analyzeIds.Some? && h.analyzeIds.value != [] && Last(h.analyzeIds.value) == analyzeId
                                    && |h.groups| > 0 && Last(h.groups) == |h.scores|
    ensures r.Removed? ==> |h.groups| > 0 && Last(h.groups) < |h.scores|
    ensures r.Removed? || r.SavedThenThrows? ==> r.history.best == h.best && r.history.beatmapId == h.beatmapId
    ensures r.Removed? || r.SavedThenThrows? ==>
      && |h.groups| > 0 && 0 <= Last(h.groups) <= |h.scores| && r.history.scores == h.scores[..Last(h.groups)]
      && r.history.groups == h.groups[..|h.groups| - 1]
      && r.history.analyzeIds == Some(h.analyzeIds.value[..|h.analyzeIds.value| - 1])
  {
    match h.analyzeIds
    case None => NoIds
    case Some(ids) =>
      if |ids| > 0 && ids[|ids| - 1] == analyzeId then
        if |h.groups| == 0 then Malformed
        else
          var index := h.groups[|h.groups| - 1];
          if index < 0 || index > |h.scores| then Malformed
          else
            var truncated := h.(scores := h.scores[..index], groups := h.groups[..|h.groups| - 1],
                                analyzeIds := Some(ids[..|ids| - 1]));
            if index == |h.scores| then SavedThenThrows(truncated) else Removed(truncated)
      else NoMatch
  }

  function Last(s: seq<int>): int
    requires |s| > 0
  {
    s[|s| - 1]
  }

  /** A well-formed history whose last id matches is always truncated, never malformed. */
  lemma TruncateWellFormed(h: ScoreHistory, analyzeId: int)
    requires WellFormed(h)
    ensures Truncate(h, analyzeId).Malformed? == false && Truncate(h, analyzeId).SavedThenThrows? == false
    ensures Truncate(h, analyzeId).Removed? ==> WellFormed(Truncate(h, analyzeId).history)
  {
  }

  /**
    Rolling back the analysis that just added a batch restores the history's scores,
    groups and ids, as long as it already had ids.
   */
  lemma TruncateUndoesAddScores(h: ScoreHistory, added: seq<Score>, newBest: Option<Score>, analyzeId: int)
    requires added != [] && h.analyzeIds.Some?
    ensures var r := Truncate(AddScores(h, added, newBest, analyzeId), analyzeId);
      r.Removed? && r.history == h.(best := if newBest.Some? then newBest else h.best)
  {
    AddScoresAppends(h, added, newBest, analyzeId);
  }

  /**
    One analysis run and its default rollback: the run takes `NextId(m)` as its id, adds
    its batch and its record, and the rollback with no explicit id uses the new `lastId`.
   */
  function RunThenRollBack(m: AnalyzeMetadata, h: ScoreHistory, added: seq<Score>, newBest: Option<Score>, date: int,
                           addRecord: (AnalyzeMetadata, AnalyzeRecord) -> Result<AnalyzeMetadata, IdMismatch>): (r: Option<Rollback>)
  {
    var id := NextId(m);
    var h' := AddScores(h, added, newBest, id);
    match addRecord(m, AnalyzeRecord(id, date))
    case Err(_) => None
    case Ok(m') => Some(Truncate(h', m'.lastId))
  }

  /** With `addRecord` as written, the default rollback never finds the group the run just added. */
  lemma DefaultRollbackMisses(m: AnalyzeMetadata, h: ScoreHistory, added: seq<Score>, newBest: Option<Score>, date: int)
    requires added != [] && h.analyzeIds.Some?
    ensures RunThenRollBack(m, h, added, newBest, date, AddRecordAsWritten) == Some(NoMatch)
  {
    AddScoresAppends(h, added, newBest, NextId(m));
  }

  /** With `lastId` naming the last recorded analysis, the default rollback undoes the run. */
  lemma DefaultRollbackUndoes(m: AnalyzeMetadata, h: ScoreHistory, added: seq<Score>, newBest: Option<Score>, date: int)
    requires added != [] && h.analyzeIds.Some?
    ensures RunThenRollBack(m, h, added, newBest, date, AddRecord)
         == Some(Removed(h.(best := if newBest.Some? then newBest else h.best)))
  {
    TruncateUndoesAddScores(h, added, newBest, NextId(m));
  }
}
