/** What the idle gaps recorded over a whole history keep, whatever order the
    completions were delivered in. A history is the performance table in the
    order its rows were saved. */
module IdleGaps {
  import opened Base
  import opened Performance
  import opened Idleness

  const DEFAULT_CAP_SECONDS := 3600

  /** `IdleGapCapSeconds`, with the use case's fallback. */
  function EffectiveCap(capSeconds: int): (cap: int)
    ensures cap > 0
    ensures cap == capSeconds || (capSeconds <= 0 && cap == 3600)
  {
    if capSeconds <= 0 then DEFAULT_CAP_SECONDS else capSeconds
  }

  /** The greatest completion recorded for an associate. */
  function LastCompletion(rows: seq<TaskPerformance>, associateId: string): Option<Instant> {
    if rows == [] then None
    else
      var before := LastCompletion(Init(rows), associateId);
      if Last(rows).associateId != associateId then before
      else if before.None? then Some(Last(rows).completedAt)
      else Some(Max(before.value, Last(rows).completedAt))
  }

  /** LastCompletion is the maximum over the associate's rows, and attained. */
  lemma {:induction false} LastCompletionIsMaximum(rows: seq<TaskPerformance>, associateId: string)
    ensures forall p :: p in rows && p.associateId == associateId ==>
              LastCompletion(rows, associateId).Some? && p.completedAt <= LastCompletion(rows, associateId).value
    ensures LastCompletion(rows, associateId).Some? ==>
              exists p :: p in rows && p.associateId == associateId && p.completedAt == LastCompletion(rows, associateId).value
  {
    if rows != [] {
      LastCompletionIsMaximum(Init(rows), associateId);
      assert rows == Init(rows) + [Last(rows)];
    }
  }

  /** The gap recorded in front of `p` when `rows` are already saved. */
  function GapBefore(rows: seq<TaskPerformance>, p: TaskPerformance, capSeconds: int): Option<IdlePeriod> {
    var previous := LastCompletion(rows, p.associateId);
    if p.associateId == "" || previous.None? then None
    else
      match Idleness.New(p.associateId, p.taskType, previous.value, ClaimedAt(p), EffectiveCap(capSeconds))
      case Ok(gap) => Some(gap)
      case Err(_) => None
  }

  /** Every gap the recording path has saved for a history. */
  function Gaps(rows: seq<TaskPerformance>, capSeconds: int): (gaps: seq<IdlePeriod>)
    ensures |gaps| <= |rows|
  {
    if rows == [] then []
    else
      var before := Gaps(Init(rows), capSeconds);
      match GapBefore(Init(rows), Last(rows), capSeconds)
      case Some(gap) => before + [gap]
      case None => before
  }

  ghost predicate Measured(rows: seq<TaskPerformance>) {
    forall p :: p in rows ==> p.actualSeconds >= 0
  }

  lemma {:induction false} MeasuredInit(rows: seq<TaskPerformance>)
    requires Measured(rows) && rows != []
    ensures Measured(Init(rows)) && Last(rows).actualSeconds >= 0
  {
    assert Last(rows) in rows;
    forall p | p in Init(rows) ensures p.actualSeconds >= 0 { assert p in rows; }
  }

  /** No gap ends after the greatest completion recorded for its associate. */
  lemma {:induction false} GapEndsByLastCompletion(rows: seq<TaskPerformance>, capSeconds: int, i: nat)
    requires Measured(rows)
    requires i < |Gaps(rows, capSeconds)|
    ensures var g := Gaps(rows, capSeconds)[i];
            var last := LastCompletion(rows, g.associateId);
            g.startedAt < g.endedAt && last.Some? && g.endedAt <= last.value
  {
    MeasuredInit(rows);
    if i < |Gaps(Init(rows), capSeconds)| {
      GapEndsByLastCompletion(Init(rows), capSeconds, i);
    }
  }

  /** Delivery order cannot make one associate's gaps overlap: each later-recorded
      gap starts no earlier than every earlier one ended. */
  lemma {:induction false} GapsAreDisjointAndOrdered(rows: seq<TaskPerformance>, capSeconds: int, i: nat, j: nat)
    requires Measured(rows)
    requires i < j < |Gaps(rows, capSeconds)|
    requires Gaps(rows, capSeconds)[i].associateId == Gaps(rows, capSeconds)[j].associateId
    ensures Gaps(rows, capSeconds)[i].endedAt <= Gaps(rows, capSeconds)[j].startedAt
  {
    MeasuredInit(rows);
    if j < |Gaps(Init(rows), capSeconds)| {
      GapsAreDisjointAndOrdered(Init(rows), capSeconds, i, j);
    } else {
      GapEndsByLastCompletion(Init(rows), capSeconds, i);
    }
  }

  // --- Gaps are waits, and waits are gaps -------------------------------------------

  /** The associate's greatest completion among the first k rows. */
  ghost predicate IsPrevious(rows: seq<TaskPerformance>, k: nat, associateId: string, t: Instant)
    requires k <= |rows|
  {
    && (exists j :: 0 <= j < k && rows[j].associateId == associateId && rows[j].completedAt == t)
    && (forall j :: 0 <= j < k && rows[j].associateId == associateId ==> rows[j].completedAt <= t)
  }

  /** The gap is the wait in front of the row at k: from the associate's greatest earlier
      completion to the row's claim, in whole seconds, clipped at the cap. */
  ghost predicate IsWaitBefore(g: IdlePeriod, rows: seq<TaskPerformance>, k: nat, capSeconds: int) {
    && k < |rows|
    && g.associateId == rows[k].associateId != "" && g.taskType == rows[k].taskType
    && IsPrevious(rows, k, g.associateId, g.startedAt)
    && g.startedAt < g.endedAt == rows[k].completedAt - rows[k].actualSeconds * 1_000_000_000
    && var waited, cap := (g.endedAt - g.startedAt) / 1_000_000_000, if capSeconds <= 0 then 3600 else capSeconds;
       g.seconds == Min(waited, cap) && (g.capped <==> cap < waited)
  }

  lemma PreviousIsLast(rows: seq<TaskPerformance>, associateId: string)
    ensures LastCompletion(rows, associateId).Some? ==> IsPrevious(rows, |rows|, associateId, LastCompletion(rows, associateId).value)
    ensures LastCompletion(rows, associateId).None? ==> forall j :: 0 <= j < |rows| ==> rows[j].associateId != associateId
  {
    LastCompletionIsMaximum(rows, associateId);
    forall j | 0 <= j < |rows| && rows[j].associateId == associateId
      ensures LastCompletion(rows, associateId).Some? && rows[j].completedAt <= LastCompletion(rows, associateId).value
    {
      assert rows[j] in rows;
    }
  }

  lemma GapIsWait(rows: seq<TaskPerformance>, p: TaskPerformance, capSeconds: int)
    requires GapBefore(rows, p, capSeconds).Some?
    ensures IsWaitBefore(GapBefore(rows, p, capSeconds).value, rows + [p], |rows|, capSeconds)
  {
    PreviousIsLast(rows, p.associateId);
    var t := LastCompletion(rows, p.associateId).value;
    var j :| 0 <= j < |rows| && rows[j].associateId == p.associateId && rows[j].completedAt == t;
    assert (rows + [p])[j] == rows[j];
  }

  lemma SamePrevious(rows: seq<TaskPerformance>, more: seq<TaskPerformance>, k: nat, associateId: string, t: Instant)
    requires k <= |rows| <= |more| && more[..|rows|] == rows
    ensures IsPrevious(rows, k, associateId, t) <==> IsPrevious(more, k, associateId, t)
  {
    assert forall j :: 0 <= j < k ==> more[j] == rows[j];
  }

  /** Later rows do not change what a row waited for. */
  lemma SameWait(g: IdlePeriod, rows: seq<TaskPerformance>, more: seq<TaskPerformance>, k: nat, capSeconds: int)
    requires IsWaitBefore(g, rows, k, capSeconds) && |rows| <= |more| && more[..|rows|] == rows
    ensures IsWaitBefore(g, more, k, capSeconds)
  {
    assert more[k] == rows[k];
    SamePrevious(rows, more, k, g.associateId, g.startedAt);
  }

  /** Every recorded gap is the wait in front of one row. */
  lemma {:induction false} GapsAreWaits(rows: seq<TaskPerformance>, capSeconds: int, i: nat) returns (k: nat)
    requires i < |Gaps(rows, capSeconds)|
    ensures IsWaitBefore(Gaps(rows, capSeconds)[i], rows, k, capSeconds)
  {
    assert rows == Init(rows) + [Last(rows)];
    if i < |Gaps(Init(rows), capSeconds)| {
      k := GapsAreWaits(Init(rows), capSeconds, i);
      SameWait(Gaps(rows, capSeconds)[i], Init(rows), rows, k, capSeconds);
    } else {
      k := |rows| - 1;
      GapIsWait(Init(rows), Last(rows), capSeconds);
    }
  }

  lemma WaitHasGap(rows: seq<TaskPerformance>, p: TaskPerformance, t: Instant, capSeconds: int)
    requires p.associateId != "" && IsPrevious(rows, |rows|, p.associateId, t)
    requires t < p.completedAt - p.actualSeconds * 1_000_000_000
    ensures GapBefore(rows, p, capSeconds).Some?
  {
    PreviousIsLast(rows, p.associateId);
  }

  /** And in front of every row that was claimed after the associate's greatest earlier
      completion there is one. */
  lemma {:induction false} WaitsAreGaps(rows: seq<TaskPerformance>, capSeconds: int, k: nat, t: Instant) returns (i: nat)
    requires k < |rows| && rows[k].associateId != "" && IsPrevious(rows, k, rows[k].associateId, t)
    requires t < rows[k].completedAt - rows[k].actualSeconds * 1_000_000_000
    ensures i < |Gaps(rows, capSeconds)| && IsWaitBefore(Gaps(rows, capSeconds)[i], rows, k, capSeconds)
  {
    var init, p := Init(rows), rows[k];
    assert rows == init + [Last(rows)];
    SamePrevious(init, rows, k, p.associateId, t);
    if k < |rows| - 1 {
      i := WaitsAreGaps(init, capSeconds, k, t);
      SameWait(Gaps(init, capSeconds)[i], init, rows, k, capSeconds);
    } else {
      WaitHasGap(init, p, t, capSeconds);
      GapIsWait(init, p, capSeconds);
      i := |Gaps(init, capSeconds)|;
    }
  }

  ghost predicate Overlap(g: IdlePeriod, h: IdlePeriod) {
    g.startedAt < h.endedAt && h.startedAt < g.endedAt
  }

  /** A negative duration is not rejected by the use case. The gap recorded in
      front of `p` is safe from every next completion exactly when `p` was
      measured with a non-negative duration. */
  lemma {:induction false} GapIsSafeIffDurationNonNegative(rows: seq<TaskPerformance>, p: TaskPerformance, capSeconds: int)
    requires GapBefore(rows, p, capSeconds).Some?
    ensures p.actualSeconds >= 0 <==>
            forall q: TaskPerformance ::
              q.associateId == p.associateId && GapBefore(rows + [p], q, capSeconds).Some? ==>
                !Overlap(GapBefore(rows, p, capSeconds).value, GapBefore(rows + [p], q, capSeconds).value)
  {
    AppendParts(rows, p);
    var gap := GapBefore(rows, p, capSeconds).value;
    if p.actualSeconds < 0 {
      var q := p.(actualSeconds := 0, completedAt := gap.endedAt);
      assert GapBefore(rows + [p], q, capSeconds).Some?;
      assert Overlap(gap, GapBefore(rows + [p], q, capSeconds).value);
    }
  }

  // --- Time conservation -------------------------------------------------

  function FirstCompletion(rows: seq<TaskPerformance>, associateId: string): Option<Instant> {
    if rows == [] then None
    else
      var before := FirstCompletion(Init(rows), associateId);
      if before.None? && Last(rows).associateId == associateId then Some(Last(rows).completedAt) else before
  }

  function Count(rows: seq<TaskPerformance>, associateId: string): nat {
    if rows == [] then 0
    else Count(Init(rows), associateId) + (if Last(rows).associateId == associateId then 1 else 0)
  }

  /** Task seconds of every completion of the associate but the first. */
  function TaskSecondsAfterFirst(rows: seq<TaskPerformance>, associateId: string): int {
    if rows == [] then 0
    else
      TaskSecondsAfterFirst(Init(rows), associateId) +
      if Last(rows).associateId == associateId && Count(Init(rows), associateId) > 0 then Last(rows).actualSeconds else 0
  }

  function IdleSeconds(gaps: seq<IdlePeriod>, associateId: string): int {
    if gaps == [] then 0
    else IdleSeconds(Init(gaps), associateId) + (if Last(gaps).associateId == associateId then Last(gaps).seconds else 0)
  }

  /** The associate's completions arrive in order and no two of the tasks overlap. */
  ghost predicate InOrder(rows: seq<TaskPerformance>, associateId: string) {
    rows != [] ==>
      && InOrder(Init(rows), associateId)
      && (Last(rows).associateId == associateId && LastCompletion(Init(rows), associateId).Some? ==>
            LastCompletion(Init(rows), associateId).value <= ClaimedAt(Last(rows)) <= Last(rows).completedAt)
  }

  ghost predicate Uncapped(gaps: seq<IdlePeriod>, associateId: string) {
    forall g :: g in gaps && g.associateId == associateId ==> !g.capped
  }

  ghost predicate OnWholeSeconds(rows: seq<TaskPerformance>, associateId: string) {
    forall p :: p in rows && p.associateId == associateId ==> p.completedAt % SECOND == 0
  }

  /** Seconds of the span between first and last completion that neither task
      time nor idle time accounts for, in nanoseconds. */
  function Unaccounted(rows: seq<TaskPerformance>, associateId: string, capSeconds: int): int {
    match (FirstCompletion(rows, associateId), LastCompletion(rows, associateId))
    case (Some(first), Some(last)) =>
      last - first - (TaskSecondsAfterFirst(rows, associateId) + IdleSeconds(Gaps(rows, capSeconds), associateId)) * SECOND
    case _ => 0
  }

  lemma {:induction false} FirstAndLastTogether(rows: seq<TaskPerformance>, associateId: string)
    ensures FirstCompletion(rows, associateId).Some? <==> LastCompletion(rows, associateId).Some?
    ensures LastCompletion(rows, associateId).Some? <==> Count(rows, associateId) > 0
  {
    if rows != [] { FirstAndLastTogether(Init(rows), associateId); }
  }

  lemma {:induction false} NothingBeforeFirst(rows: seq<TaskPerformance>, associateId: string, capSeconds: int)
    requires Count(rows, associateId) == 0
    ensures TaskSecondsAfterFirst(rows, associateId) == 0
    ensures IdleSeconds(Gaps(rows, capSeconds), associateId) == 0
  {
    if rows != [] {
      NothingBeforeFirst(Init(rows), associateId, capSeconds);
      match GapBefore(Init(rows), Last(rows), capSeconds) {
        case Some(gap) => AppendParts(Gaps(Init(rows), capSeconds), gap);
        case None =>
      }
    }
  }

  /** What one more row adds to the unaccounted time: the part of its waiting time
      that its gap does not hold. */
  function Lost(rows: seq<TaskPerformance>, p: TaskPerformance, associateId: string, capSeconds: int): int {
    if p.associateId != associateId || LastCompletion(rows, associateId).None? then 0
    else
      ClaimedAt(p) - LastCompletion(rows, associateId).value -
      (match GapBefore(rows, p, capSeconds) case Some(gap) => gap.seconds * SECOND case None => 0)
  }

  lemma IdleSecondsStep(rows: seq<TaskPerformance>, associateId: string, capSeconds: int)
    requires rows != []
    ensures IdleSeconds(Gaps(rows, capSeconds), associateId) == IdleSeconds(Gaps(Init(rows), capSeconds), associateId) +
            match GapBefore(Init(rows), Last(rows), capSeconds)
            case Some(gap) => if gap.associateId == associateId then gap.seconds else 0
            case None => 0
  {
    match GapBefore(Init(rows), Last(rows), capSeconds) {
      case Some(gap) => AppendParts(Gaps(Init(rows), capSeconds), gap);
      case None =>
    }
  }

  lemma UnaccountedMoves(rows: seq<TaskPerformance>, associateId: string, capSeconds: int)
    requires associateId != "" && rows != [] && InOrder(rows, associateId)
    ensures Unaccounted(rows, associateId, capSeconds) ==
            Unaccounted(Init(rows), associateId, capSeconds) + Lost(Init(rows), Last(rows), associateId, capSeconds)
  {
    FirstAndLastTogether(Init(rows), associateId);
    IdleSecondsStep(rows, associateId, capSeconds);
    if Count(Init(rows), associateId) == 0 {
      NothingBeforeFirst(Init(rows), associateId, capSeconds);
    }
  }

  /** A row loses the fraction its gap dropped for whole seconds, or the part above the cap. */
  lemma LostBounds(rows: seq<TaskPerformance>, p: TaskPerformance, associateId: string, capSeconds: int)
    requires associateId != ""
    requires p.associateId == associateId && LastCompletion(rows, associateId).Some? ==> LastCompletion(rows, associateId).value <= ClaimedAt(p)
    ensures var lost, gap := Lost(rows, p, associateId, capSeconds), GapBefore(rows, p, capSeconds);
            && 0 <= lost
            && (gap.None? || !gap.value.capped ==> lost < SECOND)
            && (((gap.None? || !gap.value.capped) && p.completedAt % SECOND == 0 &&
                 (LastCompletion(rows, associateId).Some? ==> LastCompletion(rows, associateId).value % SECOND == 0)) ==> lost == 0)
  {
  }

  /** How one more row moves the unaccounted time: by the fraction its gap lost
      to whole seconds, or to the cap. */
  lemma UnaccountedStep(rows: seq<TaskPerformance>, associateId: string, capSeconds: int)
    requires associateId != "" && rows != [] && InOrder(rows, associateId)
    ensures var lost := Unaccounted(rows, associateId, capSeconds) - Unaccounted(Init(rows), associateId, capSeconds);
            && 0 <= lost
            && (Last(rows).associateId != associateId || Count(Init(rows), associateId) == 0 ==> lost == 0)
            && (Uncapped(Gaps(rows, capSeconds), associateId) ==> lost < SECOND)
            && (Uncapped(Gaps(rows, capSeconds), associateId) && OnWholeSeconds(rows, associateId) ==> lost == 0)
  {
    var init, p := Init(rows), Last(rows);
    UnaccountedMoves(rows, associateId, capSeconds);
    FirstAndLastTogether(init, associateId);
    if p.associateId == associateId {
      LostBounds(init, p, associateId, capSeconds);
      LastIsWhole(rows, associateId);
      if GapBefore(init, p, capSeconds).Some? {
        assert Last(Gaps(rows, capSeconds)) in Gaps(rows, capSeconds);
      }
    }
  }

  lemma LastIsWhole(rows: seq<TaskPerformance>, associateId: string)
    requires rows != []
    ensures OnWholeSeconds(rows, associateId) && Last(rows).associateId == associateId ==> Last(rows).completedAt % SECOND == 0
    ensures OnWholeSeconds(rows, associateId) && LastCompletion(Init(rows), associateId).Some? ==>
              LastCompletion(Init(rows), associateId).value % SECOND == 0
  {
    assert rows == Init(rows) + [Last(rows)];
    LastCompletionIsMaximum(Init(rows), associateId);
  }

  lemma {:induction false} UncappedInit(rows: seq<TaskPerformance>, associateId: string, capSeconds: int)
    requires rows != [] && Uncapped(Gaps(rows, capSeconds), associateId)
    ensures Uncapped(Gaps(Init(rows), capSeconds), associateId)
  {
    assert forall g :: g in Gaps(Init(rows), capSeconds) ==> g in Gaps(rows, capSeconds);
  }

  /** Task seconds plus idle seconds telescope to the span from the first to the
      last completion. They never exceed it; uncapped they fall short by less than
      one second per pair of completions, and not at all on whole seconds. */
  lemma {:induction false} TimeIsConserved(rows: seq<TaskPerformance>, associateId: string, capSeconds: int)
    requires associateId != "" && InOrder(rows, associateId)
    ensures 0 <= Unaccounted(rows, associateId, capSeconds)
    ensures Uncapped(Gaps(rows, capSeconds), associateId) && Count(rows, associateId) > 0 ==>
              Unaccounted(rows, associateId, capSeconds) <= (Count(rows, associateId) - 1) * (SECOND - 1)
    ensures Uncapped(Gaps(rows, capSeconds), associateId) && OnWholeSeconds(rows, associateId) ==>
              Unaccounted(rows, associateId, capSeconds) == 0
  {
    if rows != [] {
      TimeIsConserved(Init(rows), associateId, capSeconds);
      UnaccountedStep(rows, associateId, capSeconds);
      FirstAndLastTogether(Init(rows), associateId);
      assert forall p :: p in Init(rows) ==> p in rows;
      if Uncapped(Gaps(rows, capSeconds), associateId) {
        UncappedInit(rows, associateId, capSeconds);
      }
    }
  }
}
