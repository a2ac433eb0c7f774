/**
  `AccumulateProgressIndicator`: a counter that `init` resets to 0 out of `max`, that each
  `progress` call moves one step up to `max` and no further, reporting every position to the
  indicator it delegates to.
 */
module Progress {
  import opened Common

  /** A call `progress(current, max, title, subtitle)` on the delegate. */
  datatype Report = Report(current: int, max: int, title: Option<string>, subtitle: Option<string>)

  /** The `IllegalStateException` thrown when the counter is already at `max`. */
  datatype ProgressError = IllegalState(acc: int, max: int)

  /** One `progress` step on the counter alone: up by one below `max`, an error at or above it. */
  function Tick(acc: int, max: int): Result<int, ProgressError> {
    if acc < max then Ok(acc + 1) else Err(IllegalState(acc, max))
  }

  /** `n` steps one after the other, stopping at the first error. */
  function Ticks(acc: int, max: int, n: nat): Result<int, ProgressError>
    decreases n
  {
    if n == 0 then Ok(acc)
    else
      match Tick(acc, max)
      case Err(e) => Err(e)
      case Ok(next) => Ticks(next, max, n - 1)
  }

  /**
    From any position, `n` steps all succeed exactly when they do not pass `max`, and then
    the counter has moved by `n`; otherwise the failure reports the counter stuck at `max`
    (or where it already stood above it). So after `init(max, …)` exactly `max` calls succeed.
   */
  lemma {:induction false} TicksUpToMax(acc: int, max: int, n: nat)
    ensures Ticks(acc, max, n).Ok? <==> n == 0 || acc + n <= max
    ensures Ticks(acc, max, n).Ok? ==> Ticks(acc, max, n).value == acc + n
    ensures Ticks(acc, max, n).Err? ==> Ticks(acc, max, n).error == IllegalState(Max(acc, max), max)
    decreases n
  {
    if n > 0 && acc < max {
      TicksUpToMax(acc + 1, max, n - 1);
    }
  }

  class AccumulateProgressIndicator {
    var title: Option<string>
    var acc: int
    var max: int
    /** What the delegate has been told, oldest first. */
    var reports: seq<Report>

    /** The counter is never negative and never passes `max`, save that a negative `max` leaves it at 0. */
    predicate Valid()
      reads this
    {
      0 <= acc && (acc <= max || acc == 0)
    }

    constructor ()
      ensures Valid() && acc == 0 && max == 0 && title == None && reports == []
    {
      title := None;
      acc := 0;
      max := 0;
      reports := [];
    }

    /** `init`: the counter restarts at 0 out of `max`; a `max` of 0 reports nothing and keeps the title. */
    method Init(newMax: int, newTitle: Option<string>, subtitle: Option<string>)
      modifies this
      ensures Valid() && acc == 0 && max == newMax
      ensures newMax != 0 ==> title == newTitle && reports == old(reports) + [Report(0, newMax, newTitle, subtitle)]
      ensures newMax == 0 ==> title == old(title) && reports == old(reports)
    {
      acc := 0;
      max := newMax;
      if newMax != 0 {
        title := newTitle;
        reports := reports + [Report(0, newMax, newTitle, subtitle)];
      }
    }

    /**
      `progress(subtitle)`: one step of the counter, reported with the new position; at
      `max` it fails with the counter, the title and the reports left as they were.
     */
    method Progress(subtitle: Option<string>) returns (r: Result<(), ProgressError>)
      requires Valid()
      modifies this
      ensures Valid() && max == old(max) && title == old(title)
      ensures r.Ok? <==> Tick(old(acc), max).Ok?
      ensures r.Ok? ==> acc == Tick(old(acc), max).value && acc == old(acc) + 1 <= max
      ensures r.Ok? ==> reports == old(reports) + [Report(acc, max, title, subtitle)]
      ensures r.Err? ==> r.error == Tick(old(acc), max).error && acc == old(acc) && reports == old(reports)
    {
      if acc < max {
        acc := acc + 1;
        reports := reports + [Report(acc, max, title, subtitle)];
        r := Ok(());
      } else {
        r := Err(IllegalState(acc, max));
      }
    }

    /** `update(subtitle)`: the current position reported again, nothing else changed. */
    method Update(subtitle: Option<string>)
      requires Valid()
      modifies this
      ensures Valid() && acc == old(acc) && max == old(max) && title == old(title)
      ensures reports == old(reports) + [Report(acc, max, title, subtitle)]
    {
      reports := reports + [Report(acc, max, title, subtitle)];
    }
  }
}
