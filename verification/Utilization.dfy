/** Task time against idle time over a trailing window, with the still-open gap. */
module Utilization {
  import opened Base
  import opened Performance
  import opened Idleness
  import opened IdleGaps
  import opened History
  import opened Sums
  import opened MemoryRepos

  const DEFAULT_WINDOW := HOUR

  datatype UtilizationResult = UtilizationResult(
    associates: nat,
    windowSeconds: int,
    taskSeconds: int,
    idleSeconds: int,
    openGapSeconds: int,
    utilizationPct: Option<real>)

  function ResolveWindow(window: int): int {
    if window <= 0 then DEFAULT_WINDOW else window
  }

  function LastActivity(lastCompleted: Option<Instant>, lastIdleEnd: Instant): Instant {
    var last := if lastCompleted.Some? then lastCompleted.value else ZERO_TIME;
    if lastIdleEnd > last then lastIdleEnd else last
  }

  function OpenGapSeconds(lastActivity: Instant, now: Instant, since: Instant): int {
    if lastActivity == ZERO_TIME || now <= lastActivity then 0
    else WholeSeconds(now - Max(lastActivity, since))
  }

  function AssociateCountFor(taskSeconds: int, idleSeconds: int, openGapSeconds: int): nat {
    if taskSeconds > 0 || idleSeconds > 0 || openGapSeconds > 0 then 1 else 0
  }

  /** The read model for one associate, over the two tables. */
  function ForAssociate(rows: seq<TaskPerformance>, items: seq<IdlePeriod>, associateId: string, window: int, now: Instant)
    : UtilizationResult
  {
    var resolved := ResolveWindow(window);
    var since := now - resolved;
    var taskSeconds := SumActualByAssociate(rows, associateId, since);
    var idleSeconds := SumIdleByAssociate(items, associateId, since);
    var last := LastActivity(LastCompletion(rows, associateId), LastEndedAt(items, associateId));
    var openGap := OpenGapSeconds(last, now, since);
    UtilizationResult(AssociateCountFor(taskSeconds, idleSeconds, openGap), WholeSeconds(resolved), taskSeconds,
                      idleSeconds, openGap, UtilizationPct(taskSeconds, idleSeconds + openGap))
  }

  /** The read model for one task type, fleet-wide; it has no open gap. */
  function ForTaskType(rows: seq<TaskPerformance>, items: seq<IdlePeriod>, taskType: string, window: int, now: Instant)
    : UtilizationResult
  {
    var resolved := ResolveWindow(window);
    var since := now - resolved;
    var taskSeconds := SumActualByTaskType(rows, taskType, since);
    var idleSeconds := SumIdleByTaskType(items, taskType, since);
    UtilizationResult(|AssociatesOfType(items, taskType, since)|, WholeSeconds(resolved), taskSeconds, idleSeconds, 0,
                      UtilizationPct(taskSeconds, idleSeconds))
  }

  // --- What the reported fields are ------------------------------------------------------

  /** The percentage is the share of task time in all the time reported, if there is any. */
  predicate IsShare(u: UtilizationResult) {
    var total := u.taskSeconds + u.idleSeconds + u.openGapSeconds;
    && (u.utilizationPct.Some? <==> total > 0)
    && (u.utilizationPct.Some? ==> u.utilizationPct.value * total as real == 100.0 * u.taskSeconds as real)
  }

  /** The latest completion or gap end of the associate, or the zero instant. */
  ghost predicate IsLastActivity(rows: seq<TaskPerformance>, items: seq<IdlePeriod>, associateId: string, t: Instant) {
    && 0 <= t
    && (forall k :: 0 <= k < |rows| && rows[k].associateId == associateId ==> rows[k].completedAt <= t)
    && (forall k :: 0 <= k < |items| && items[k].associateId == associateId ==> items[k].endedAt <= t)
    && (|| t == 0
        || (exists k :: 0 <= k < |rows| && rows[k].associateId == associateId && rows[k].completedAt == t)
        || (exists k :: 0 <= k < |items| && items[k].associateId == associateId && items[k].endedAt == t))
  }

  predicate IsWhole(seconds: int, nanos: int) {
    seconds * 1_000_000_000 <= nanos < (seconds + 1) * 1_000_000_000
  }

  /** The open gap runs from the last activity, or from the window's start if that is
      later, to now, in whole seconds. */
  predicate IsOpenGap(seconds: int, t: Instant, now: Instant, since: Instant) {
    if t == 0 || now <= t then seconds == 0
    else
      IsWhole(seconds, now - if t < since then since else t)
  }

  /** One hour when none is asked for. */
  function WindowStart(window: int, now: Instant): Instant {
    now - if window <= 0 then 3_600_000_000_000 else window
  }

  lemma LastActivityIsLast(rows: seq<TaskPerformance>, items: seq<IdlePeriod>, associateId: string)
    ensures IsLastActivity(rows, items, associateId, LastActivity(LastCompletion(rows, associateId), LastEndedAt(items, associateId)))
  {
    PreviousIsLast(rows, associateId);
    LastEndedAtIsAttained(items, associateId);
  }

  lemma AssociateShares(rows: seq<TaskPerformance>, items: seq<IdlePeriod>, associateId: string, window: int, now: Instant)
    ensures IsShare(ForAssociate(rows, items, associateId, window, now))
  {
  }

  lemma TypeShares(rows: seq<TaskPerformance>, items: seq<IdlePeriod>, taskType: string, window: int, now: Instant)
    ensures IsShare(ForTaskType(rows, items, taskType, window, now))
  {
  }

  /** An associate's report, field by field. */
  lemma {:induction false} AssociateReportIs(rows: seq<TaskPerformance>, items: seq<IdlePeriod>, associateId: string, window: int,
                                             now: Instant, t: Instant)
    requires IsLastActivity(rows, items, associateId, t)
    ensures var u, since := ForAssociate(rows, items, associateId, window, now), WindowStart(window, now);
            && u.taskSeconds == SumInts(Durations(rows), ByAssociateSince(rows, associateId, since))
            && u.idleSeconds == SumInts(GapSeconds(items), GapsOfAssociate(items, associateId, since))
            && IsOpenGap(u.openGapSeconds, t, now, since)
            && u.associates == (if u.taskSeconds > 0 || u.idleSeconds > 0 || u.openGapSeconds > 0 then 1 else 0)
            && IsWhole(u.windowSeconds, now - since)
            && IsShare(u)
  {
    AssociateShares(rows, items, associateId, window, now);
    var since := WindowStart(window, now);
    AssociateSumIsOverRows(rows, associateId, since);
    AssociateIdleIsOverGaps(items, associateId, since);
    LastActivityIsLast(rows, items, associateId);
  }

  /** A task type's report, field by field: no open gap, and each associate counted once. */
  lemma {:induction false} TypeReportIs(rows: seq<TaskPerformance>, items: seq<IdlePeriod>, taskType: string, window: int, now: Instant)
    ensures var u, since := ForTaskType(rows, items, taskType, window, now), WindowStart(window, now);
            && u.taskSeconds == SumInts(Durations(rows), ByTypeSince(rows, taskType, since))
            && u.idleSeconds == SumInts(GapSeconds(items), GapsOfType(items, taskType, since))
            && u.openGapSeconds == 0
            && u.associates == |set k | k in GapsOfType(items, taskType, since) :: items[k].associateId|
            && IsWhole(u.windowSeconds, now - since)
            && IsShare(u)
  {
    TypeShares(rows, items, taskType, window, now);
    var since := WindowStart(window, now);
    TypeSumIsOverRows(rows, taskType, since);
    TypeIdleIsOverGaps(items, taskType, since);
    AssociatesAreOfGaps(items, taskType, since);
  }

  lemma ShareBounds(pct: real, task: int, idle: int)
    requires 0 <= task && 0 <= idle && 0 < task + idle && pct * (task + idle) as real == 100.0 * task as real
    ensures 0.0 <= pct <= 100.0 && (pct == 100.0 <==> idle == 0)
  {
    assert (100.0 - pct) * (task + idle) as real == 100.0 * idle as real;
  }

  /** With nothing negative, the share is full exactly without idle time. */
  lemma FullExactlyWithoutIdle(u: UtilizationResult)
    requires IsShare(u) && u.utilizationPct.Some?
    requires 0 <= u.taskSeconds && 0 <= u.idleSeconds && 0 <= u.openGapSeconds
    ensures u.utilizationPct == Some(100.0) <==> u.idleSeconds == 0 && u.openGapSeconds == 0
  {
    ShareBounds(u.utilizationPct.value, u.taskSeconds, u.idleSeconds + u.openGapSeconds);
  }

  /** And more idle time, closed or open, for the same task time never raises it. */
  lemma {:induction false} MoreIdleNeverRaises(u: UtilizationResult, v: UtilizationResult)
    requires IsShare(u) && IsShare(v) && u.utilizationPct.Some? && v.utilizationPct.Some?
    requires 0 <= u.taskSeconds == v.taskSeconds
    requires u.idleSeconds + u.openGapSeconds <= v.idleSeconds + v.openGapSeconds
    ensures v.utilizationPct.value <= u.utilizationPct.value
  {
    LargerWhole(u.utilizationPct.value, v.utilizationPct.value, u.taskSeconds + u.idleSeconds + u.openGapSeconds,
                v.taskSeconds + v.idleSeconds + v.openGapSeconds, u.taskSeconds);
  }

  lemma LargerWhole(p: real, q: real, m: int, n: int, task: int)
    requires 0 < m <= n && 0 <= task && p * m as real == 100.0 * task as real == q * n as real
    ensures q <= p
  {
  }

  ghost predicate NothingAfter(rows: seq<TaskPerformance>, now: Instant) {
    forall p :: p in rows ==> p.completedAt <= now
  }

  lemma {:induction false} LastCompletionBounded(rows: seq<TaskPerformance>, associateId: string, now: Instant)
    requires NothingAfter(rows, now)
    ensures LastCompletion(rows, associateId).Some? ==> LastCompletion(rows, associateId).value <= now
  {
    LastCompletionIsMaximum(rows, associateId);
  }

  /** Closed idle time since `since`, in nanoseconds, is paid for by the time from
      `since` to the last completion, plus one cap for the gap that straddles it. */
  lemma {:induction false} ClosedIdleBound(rows: seq<TaskPerformance>, associateId: string, capSeconds: int, since: Instant)
    requires Measured(rows)
    ensures var idle := SumIdleByAssociate(Gaps(rows, capSeconds), associateId, since);
            var last := LastCompletion(rows, associateId);
            && 0 <= idle
            && (last.None? || last.value < since ==> idle == 0)
            && (last.Some? && since <= last.value ==>
                  idle * SECOND <= EffectiveCap(capSeconds) * SECOND + last.value - since)
  {
    if rows != [] {
      MeasuredInit(rows);
      var init, p := Init(rows), Last(rows);
      ClosedIdleBound(init, associateId, capSeconds, since);
      match GapBefore(init, p, capSeconds) {
        case Some(gap) => AppendParts(Gaps(init, capSeconds), gap);
        case None =>
      }
    }
  }

  lemma {:induction false} LastEndedAtIsGreatest(items: seq<IdlePeriod>, associateId: string, i: nat)
    requires i < |items| && items[i].associateId == associateId
    ensures items[i].endedAt <= LastEndedAt(items, associateId)
  {
    if i < |items| - 1 { LastEndedAtIsGreatest(Init(items), associateId, i); }
  }

  lemma {:induction false} TaskSecondsNonNegative(rows: seq<TaskPerformance>, associateId: string, since: Instant)
    requires Measured(rows)
    ensures 0 <= SumActualByAssociate(rows, associateId, since)
  {
    if rows != [] {
      MeasuredInit(rows);
      TaskSecondsNonNegative(Init(rows), associateId, since);
    }
  }

  /** Reported idle time never exceeds the window by more than one cap, the open
      gap never exceeds the window, and the percentage is a percentage. */
  lemma {:induction false} IdleFitsWindow(rows: seq<TaskPerformance>, associateId: string, capSeconds: int, window: int, now: Instant)
    requires Measured(rows) && NothingAfter(rows, now)
    ensures var u := ForAssociate(rows, Gaps(rows, capSeconds), associateId, window, now);
            && 0 <= u.idleSeconds && 0 <= u.openGapSeconds <= u.windowSeconds
            && u.idleSeconds + u.openGapSeconds <= u.windowSeconds + EffectiveCap(capSeconds)
            && (u.utilizationPct.Some? ==> 0.0 <= u.utilizationPct.value <= 100.0)
  {
    var since := now - ResolveWindow(window);
    var items := Gaps(rows, capSeconds);
    LastCompletionBounded(rows, associateId, now);
    ClosedIdleBound(rows, associateId, capSeconds, since);
    TaskSecondsNonNegative(rows, associateId, since);
  }

  // --- Fleet-wide ------------------------------------------------------------------------

  /** The type's idle seconds of some associates only. */
  function IdleOf(items: seq<IdlePeriod>, taskType: string, since: Instant, associates: set<string>): int {
    if items == [] then 0
    else
      IdleOf(Init(items), taskType, since, associates) +
      if Last(items).taskType == taskType && since <= Last(items).endedAt && Last(items).associateId in associates then Last(items).seconds
      else 0
  }

  ghost predicate NonNegative(items: seq<IdlePeriod>) {
    forall g :: g in items ==> 0 <= g.seconds
  }

  /** One more associate adds at most what that associate waited over all types. */
  lemma {:induction false} OneMoreAssociate(items: seq<IdlePeriod>, taskType: string, since: Instant, associates: set<string>, a: string)
    requires NonNegative(items) && a in associates
    ensures IdleOf(items, taskType, since, associates) <=
            IdleOf(items, taskType, since, associates - {a}) + SumIdleByAssociate(items, a, since)
  {
    if items != [] {
      assert items == Init(items) + [Last(items)];
      OneMoreAssociate(Init(items), taskType, since, associates, a);
    }
  }

  lemma {:induction false} NoAssociates(items: seq<IdlePeriod>, taskType: string, since: Instant)
    ensures IdleOf(items, taskType, since, {}) == 0
  {
    if items != [] { NoAssociates(Init(items), taskType, since); }
  }

  /** The sum over the type is the sum over its associates. */
  lemma {:induction false} AllAssociates(items: seq<IdlePeriod>, taskType: string, since: Instant, associates: set<string>)
    requires AssociatesOfType(items, taskType, since) <= associates
    ensures IdleOf(items, taskType, since, associates) == SumIdleByTaskType(items, taskType, since)
  {
    if items != [] {
      var last := Last(items);
      assert items == Init(items) + [last];
      if last.taskType == taskType && since <= last.endedAt {
        assert last.associateId in AssociatesOfType(items, taskType, since);
      }
      forall a | a in AssociatesOfType(Init(items), taskType, since) ensures a in associates {
        var g :| g in Init(items) && g.taskType == taskType && since <= g.endedAt && g.associateId == a;
        assert g in items && a in AssociatesOfType(items, taskType, since);
      }
      AllAssociates(Init(items), taskType, since, associates);
    }
  }

  lemma OneMoreTime(n: nat, bound: nat)
    ensures (n + 1) * bound == n * bound + bound
  {
  }

  lemma {:induction false} IdlePerAssociate(items: seq<IdlePeriod>, taskType: string, since: Instant, associates: set<string>, bound: nat)
    requires NonNegative(items) && forall a :: a in associates ==> SumIdleByAssociate(items, a, since) <= bound
    ensures IdleOf(items, taskType, since, associates) <= |associates| * bound
    decreases associates
  {
    if associates == {} {
      NoAssociates(items, taskType, since);
    } else {
      var a :| a in associates;
      var rest := associates - {a};
      OneMoreAssociate(items, taskType, since, associates, a);
      IdlePerAssociate(items, taskType, since, rest, bound);
      assert |associates| == |rest| + 1;
      OneMoreTime(|rest|, bound);
    }
  }

  lemma {:induction false} GapsNonNegative(rows: seq<TaskPerformance>, capSeconds: int)
    ensures NonNegative(Gaps(rows, capSeconds))
  {
    if rows != [] {
      GapsNonNegative(Init(rows), capSeconds);
    }
  }

  lemma {:induction false} FleetSumsNonNegative(rows: seq<TaskPerformance>, items: seq<IdlePeriod>, taskType: string, since: Instant)
    requires Measured(rows) && NonNegative(items)
    ensures 0 <= SumActualByTaskType(rows, taskType, since) && 0 <= SumIdleByTaskType(items, taskType, since)
  {
    if rows != [] {
      MeasuredInit(rows);
      FleetSumsNonNegative(Init(rows), items, taskType, since);
    } else if items != [] {
      assert items == Init(items) + [Last(items)];
      FleetSumsNonNegative(rows, Init(items), taskType, since);
    }
  }

  /** Fleet-wide, closed idle time never exceeds one window and one cap for each
      associate counted, and the percentage is a percentage. */
  lemma {:induction false} FleetIdleFitsWindow(rows: seq<TaskPerformance>, taskType: string, capSeconds: int, window: int, now: Instant)
    requires Measured(rows) && NothingAfter(rows, now)
    ensures var u := ForTaskType(rows, Gaps(rows, capSeconds), taskType, window, now);
            && 0 <= u.idleSeconds <= u.associates * (u.windowSeconds + EffectiveCap(capSeconds))
            && (u.utilizationPct.Some? ==> 0.0 <= u.utilizationPct.value <= 100.0)
  {
    var since, items := now - ResolveWindow(window), Gaps(rows, capSeconds);
    var associates := AssociatesOfType(items, taskType, since);
    GapsNonNegative(rows, capSeconds);
    FleetSumsNonNegative(rows, items, taskType, since);
    forall a | a in associates
      ensures SumIdleByAssociate(items, a, since) <= WholeSeconds(ResolveWindow(window)) + EffectiveCap(capSeconds)
    {
      IdleFitsWindow(rows, a, capSeconds, window, now);
    }
    AllAssociates(items, taskType, since, associates);
    IdlePerAssociate(items, taskType, since, associates, WholeSeconds(ResolveWindow(window)) + EffectiveCap(capSeconds));
  }

  /** The open gap starts no earlier than every recorded gap of the associate ended. */
  lemma {:induction false} OpenGapOverlapsNothing(rows: seq<TaskPerformance>, items: seq<IdlePeriod>, associateId: string, i: nat)
    requires i < |items| && items[i].associateId == associateId
    ensures items[i].endedAt <= LastActivity(LastCompletion(rows, associateId), LastEndedAt(items, associateId))
  {
    LastEndedAtIsGreatest(items, associateId, i);
  }

  /** The window bound is attained: one capped gap that ends where the window
      opens, then nothing until now, reports a whole window and a whole cap. */
  lemma WindowBoundIsTight(capSeconds: int, windowSeconds: int)
    requires capSeconds > 0 && windowSeconds > 0
    ensures exists rows: seq<TaskPerformance>, now: Instant ::
              && Measured(rows) && NothingAfter(rows, now)
              && var u := ForAssociate(rows, Gaps(rows, capSeconds), "a", windowSeconds * SECOND, now);
                 u.idleSeconds + u.openGapSeconds == windowSeconds + capSeconds
  {
    var first := TaskPerformance("e1", "t1", "a", "", 0, 0, None, SECOND);
    var second := TaskPerformance("e2", "t2", "a", "", 0, 0, None, SECOND + capSeconds * SECOND);
    var rows := [first, second];
    var now := second.completedAt + windowSeconds * SECOND;
    assert Init(rows) == [first] && Init([first]) == [];
    var gap := IdlePeriod("a", "", SECOND, second.completedAt, capSeconds, false);
    assert LastCompletion([first], "a") == Some(SECOND);
    assert WholeSeconds(capSeconds * SECOND) == capSeconds;
    assert GapBefore([first], second, capSeconds) == Some(gap);
    assert Gaps([first], capSeconds) == [];
    assert Gaps(rows, capSeconds) == [gap] && Init([gap]) == [];
    var since := now - windowSeconds * SECOND;
    assert SumIdleByAssociate([gap], "a", since) == capSeconds;
    assert LastActivity(LastCompletion(rows, "a"), LastEndedAt([gap], "a")) == second.completedAt;
    assert OpenGapSeconds(second.completedAt, now, since) == windowSeconds;
    assert Measured(rows) && NothingAfter(rows, now);
    var u := ForAssociate(rows, Gaps(rows, capSeconds), "a", windowSeconds * SECOND, now);
    assert u.idleSeconds + u.openGapSeconds == windowSeconds + capSeconds;
  }
}
