/** The in-memory repositories: append-only lists answered by loops. */
module MemoryRepos {
  import opened Base
  import opened Performance
  import opened Idleness
  import opened Sums
  import opened Sorting
  import opened History

  datatype TaskTypeBreakdown = TaskTypeBreakdown(taskCount: int, meanEfficiencyPct: Option<real>)

  datatype TaskTypePerformance =
    TaskTypePerformance(taskType: string, taskCount: int, meanEfficiencyPct: Option<real>, meanActualSeconds: Option<real>)

  /** The stored part of the scorecard read model. */
  datatype Scorecard = Scorecard(
    associateId: string,
    taskCount: int,
    meanEfficiencyPct: Option<real>,
    byTaskType: map<string, TaskTypeBreakdown>)

  ghost predicate IsScorecard(sc: Scorecard, own: seq<TaskPerformance>) {
    && sc.taskCount == |own|
    && sc.meanEfficiencyPct == Mean(Tally(own).efficiencyPctSum, Tally(own).tasksScored)
    && sc.byTaskType.Keys == ByType(own).Keys
    && forall taskType :: taskType in sc.byTaskType ==> sc.byTaskType[taskType] == EntryOf(own, taskType)
  }

  /** One type's slice: how many of the rows are of the type, and their mean score. */
  function EntryOf(own: seq<TaskPerformance>, taskType: string): TaskTypeBreakdown {
    var t := Tally(OfType(own, taskType));
    TaskTypeBreakdown(|OfType(own, taskType)|, Mean(t.efficiencyPctSum, t.tasksScored))
  }

  /** One more row of a type: counted always, summed only when scored. */
  function CountScore(agg: Counters, p: TaskPerformance): (next: Counters)
    ensures next == Add(agg, ScoreOnly(TallyOf(p)))
  {
    var counted := agg.(tasksRecorded := agg.tasksRecorded + 1);
    if p.efficiencyPct.None? then counted
    else counted.(efficiencyPctSum := agg.efficiencyPctSum + p.efficiencyPct.value, tasksScored := agg.tasksScored + 1)
  }

  function EntryFrom(agg: Counters): TaskTypeBreakdown {
    TaskTypeBreakdown(agg.tasksRecorded, Mean(agg.efficiencyPctSum, agg.tasksScored))
  }

  lemma EntryFromAggregate(own: seq<TaskPerformance>, taskType: string)
    ensures EntryFrom(Get(ByType(own), taskType)) == EntryOf(own, taskType)
  {
    ByTypeEntries(own, taskType);
    TallyCounts(OfType(own, taskType));
  }

  lemma TakeNext<T>(xs: seq<T>, i: nat)
    requires i < |xs|
    ensures xs[..i + 1] != [] && Init(xs[..i + 1]) == xs[..i] && Last(xs[..i + 1]) == xs[i]
  {
  }

  lemma OneMoreRow(rows: seq<TaskPerformance>, i: nat, associateId: string)
    requires i < |rows|
    ensures rows[i].associateId == associateId ==>
              OfAssociate(rows[..i + 1], associateId) == OfAssociate(rows[..i], associateId) + [rows[i]]
    ensures rows[i].associateId != associateId ==> OfAssociate(rows[..i + 1], associateId) == OfAssociate(rows[..i], associateId)
  {
    TakeNext(rows, i);
  }

  /** The scorecard's running values over the rows counted so far. */
  ghost predicate ScoresCounted(own: seq<TaskPerformance>, taskCount: int, sum: real, scored: int) {
    taskCount == |own| && sum == Tally(own).efficiencyPctSum && scored == Tally(own).tasksScored
  }

  ghost predicate TypesCounted(own: seq<TaskPerformance>, byType: map<string, Counters>) {
    byType == ByType(own)
  }

  lemma OneMoreScore(own: seq<TaskPerformance>, p: TaskPerformance, taskCount: int, sum: real, scored: int)
    requires ScoresCounted(own, taskCount, sum, scored)
    ensures p.efficiencyPct.Some? ==> ScoresCounted(own + [p], taskCount + 1, sum + p.efficiencyPct.value, scored + 1)
    ensures p.efficiencyPct.None? ==> ScoresCounted(own + [p], taskCount + 1, sum, scored)
  {
    TallyAppend(own, p);
  }

  lemma OneMoreOfType(own: seq<TaskPerformance>, p: TaskPerformance, byType: map<string, Counters>)
    requires TypesCounted(own, byType)
    ensures TypesCounted(own + [p], byType[p.taskType := CountScore(Get(byType, p.taskType), p)])
  {
    ByTypeAppend(own, p);
  }

  class PerformanceRepo {
    var byTID: seq<TaskPerformance>

    constructor ()
      ensures byTID == []
    {
      byTID := [];
    }

    method Save(p: TaskPerformance)
      modifies this
      ensures byTID == old(byTID) + [p]
    {
      byTID := byTID + [p];
    }

    method ExistsByAssociateID(associateId: string) returns (found: bool)
      ensures found <==> OfAssociate(byTID, associateId) != []
    {
      for i := 0 to |byTID|
        invariant OfAssociate(byTID[..i], associateId) == []
      {
        TakeNext(byTID, i);
        if byTID[i].associateId == associateId {
          OfAssociateGrows(byTID, associateId, i + 1);
          return true;
        }
      }
      assert byTID[..|byTID|] == byTID;
      return false;
    }

    method ScorecardFor(associateId: string) returns (sc: Scorecard)
      ensures sc.associateId == associateId
      ensures IsScorecard(sc, OfAssociate(byTID, associateId))
    {
      var taskCount, sum, scored, byType := Aggregate(byTID, associateId);
      var breakdown := Breakdown(byType);
      forall taskType | taskType in breakdown ensures breakdown[taskType] == EntryOf(OfAssociate(byTID, associateId), taskType) {
        EntryFromAggregate(OfAssociate(byTID, associateId), taskType);
      }
      sc := Scorecard(associateId, taskCount, Mean(sum, scored), breakdown);
    }

    /** The scorecard's single pass over the table. */
    static method Aggregate(rows: seq<TaskPerformance>, associateId: string)
      returns (taskCount: int, sum: real, scored: int, byType: map<string, Counters>)
      ensures ScoresCounted(OfAssociate(rows, associateId), taskCount, sum, scored)
      ensures TypesCounted(OfAssociate(rows, associateId), byType)
    {
      taskCount, sum, scored, byType := 0, 0.0, 0, map[];
      for i := 0 to |rows|
        invariant ScoresCounted(OfAssociate(rows[..i], associateId), taskCount, sum, scored)
        invariant TypesCounted(OfAssociate(rows[..i], associateId), byType)
      {
        OneMoreRow(rows, i, associateId);
        var p := rows[i];
        if p.associateId != associateId { continue; }
        OneMoreScore(OfAssociate(rows[..i], associateId), p, taskCount, sum, scored);
        OneMoreOfType(OfAssociate(rows[..i], associateId), p, byType);
        taskCount := taskCount + 1;
        if p.efficiencyPct.Some? {
          sum := sum + p.efficiencyPct.value;
          scored := scored + 1;
        }
        byType := byType[p.taskType := CountScore(Get(byType, p.taskType), p)];
      }
      assert rows[..|rows|] == rows;
    }

    static method Breakdown(byType: map<string, Counters>) returns (breakdown: map<string, TaskTypeBreakdown>)
      ensures breakdown.Keys == byType.Keys
      ensures forall taskType :: taskType in breakdown ==> breakdown[taskType] == EntryFrom(byType[taskType])
    {
      breakdown := map[];
      var left := byType.Keys;
      while left != {}
        invariant left <= byType.Keys && breakdown.Keys == byType.Keys - left
        invariant forall taskType :: taskType in breakdown ==> breakdown[taskType] == EntryFrom(byType[taskType])
        decreases left
      {
        var taskType :| taskType in left;
        breakdown := breakdown[taskType := EntryFrom(byType[taskType])];
        left := left - {taskType};
      }
    }

    method TaskTypePerformanceFor(taskType: string) returns (out: TaskTypePerformance)
      ensures var t := Tally(OfType(byTID, taskType));
              out == TaskTypePerformance(taskType, |OfType(byTID, taskType)|,
                                         Mean(t.efficiencyPctSum, t.tasksScored),
                                         Mean(t.actualSecondsSum as real, t.tasksMeasured))
    {
      var taskCount, effSum, effScored, actualSum, actualMeasured := 0, 0.0, 0, 0.0, 0;
      ghost var own: seq<TaskPerformance> := [];
      for i := 0 to |byTID|
        invariant own == OfType(byTID[..i], taskType)
        invariant taskCount == |own|
        invariant effSum == Tally(own).efficiencyPctSum && effScored == Tally(own).tasksScored
        invariant actualSum == Tally(own).actualSecondsSum as real && actualMeasured == Tally(own).tasksMeasured
      {
        TakeNext(byTID, i);
        var p := byTID[i];
        if p.taskType != taskType { continue; }
        TallyAppend(own, p);
        own := own + [p];
        taskCount := taskCount + 1;
        if p.efficiencyPct.Some? {
          effSum := effSum + p.efficiencyPct.value;
          effScored := effScored + 1;
        }
        if p.actualSeconds > 0 {
          actualSum := actualSum + p.actualSeconds as real;
          actualMeasured := actualMeasured + 1;
        }
      }
      assert byTID[..|byTID|] == byTID;
      out := TaskTypePerformance(taskType, taskCount, Mean(effSum, effScored), Mean(actualSum, actualMeasured));
    }

    method RecentByAssociateID(associateId: string, limit: nat) returns (matches: seq<TaskPerformance>)
      ensures NewestFirst(matches, OfAssociate(byTID, associateId), limit)
      ensures var own := |OfAssociate(byTID, associateId)|; |matches| == if own <= limit then own else limit
    {
      matches := [];
      for i := 0 to |byTID|
        invariant matches == OfAssociate(byTID[..i], associateId)
      {
        TakeNext(byTID, i);
        if byTID[i].associateId == associateId {
          matches := matches + [byTID[i]];
        }
      }
      assert byTID[..|byTID|] == byTID;
      matches := Sort(matches, NewerOrEqual);
      ghost var all := matches;
      SameMembers(all, OfAssociate(byTID, associateId));
      if |matches| > limit {
        matches := matches[..limit];
      }
      assert matches == all[..Min(limit, |all|)];
    }

    method SumActualSecondsByTaskType(taskType: string, since: Instant) returns (sum: int)
      ensures sum == SumActualByTaskType(byTID, taskType, since)
    {
      sum := 0;
      for i := 0 to |byTID|
        invariant sum == SumActualByTaskType(byTID[..i], taskType, since)
      {
        TakeNext(byTID, i);
        if byTID[i].taskType != taskType { continue; }
        if byTID[i].completedAt < since { continue; }
        sum := sum + byTID[i].actualSeconds;
      }
      assert byTID[..|byTID|] == byTID;
    }

    method SumActualSecondsByAssociate(associateId: string, since: Instant) returns (sum: int)
      ensures sum == SumActualByAssociate(byTID, associateId, since)
    {
      sum := 0;
      for i := 0 to |byTID|
        invariant sum == SumActualByAssociate(byTID[..i], associateId, since)
      {
        TakeNext(byTID, i);
        if byTID[i].associateId != associateId { continue; }
        if byTID[i].completedAt < since { continue; }
        sum := sum + byTID[i].actualSeconds;
      }
      assert byTID[..|byTID|] == byTID;
    }
  }

  lemma {:induction false} OfAssociateGrows(rows: seq<TaskPerformance>, associateId: string, i: nat)
    requires i <= |rows| && OfAssociate(rows[..i], associateId) != []
    ensures OfAssociate(rows, associateId) != []
    decreases |rows| - i
  {
    if i < |rows| {
      TakeNext(rows, i);
      OfAssociateGrows(rows, associateId, i + 1);
    } else {
      assert rows[..i] == rows;
    }
  }

  // --- Idle periods --------------------------------------------------------

  function SumIdleByAssociate(items: seq<IdlePeriod>, associateId: string, since: Instant): int {
    if items == [] then 0
    else
      SumIdleByAssociate(Init(items), associateId, since) +
      if Last(items).associateId == associateId && since <= Last(items).endedAt then Last(items).seconds else 0
  }

  function CountIdleByAssociate(items: seq<IdlePeriod>, associateId: string, since: Instant): nat {
    if items == [] then 0
    else
      CountIdleByAssociate(Init(items), associateId, since) +
      if Last(items).associateId == associateId && since <= Last(items).endedAt then 1 else 0
  }

  function SumIdleByTaskType(items: seq<IdlePeriod>, taskType: string, since: Instant): int {
    if items == [] then 0
    else
      SumIdleByTaskType(Init(items), taskType, since) +
      if Last(items).taskType == taskType && since <= Last(items).endedAt then Last(items).seconds else 0
  }

  function CountIdleByTaskType(items: seq<IdlePeriod>, taskType: string, since: Instant): nat {
    if items == [] then 0
    else
      CountIdleByTaskType(Init(items), taskType, since) +
      if Last(items).taskType == taskType && since <= Last(items).endedAt then 1 else 0
  }

  /** The greatest gap end of an associate, never before the zero instant. */
  function LastEndedAt(items: seq<IdlePeriod>, associateId: string): Instant {
    if items == [] then ZERO_TIME
    else
      var before := LastEndedAt(Init(items), associateId);
      if Last(items).associateId == associateId then Max(before, Last(items).endedAt) else before
  }

  function AssociatesOfType(items: seq<IdlePeriod>, taskType: string, since: Instant): set<string> {
    set g | g in items && g.taskType == taskType && since <= g.endedAt :: g.associateId
  }

  // --- What the sums are over ---------------------------------------------------------

  function GapSeconds(items: seq<IdlePeriod>): map<nat, int> {
    map k: nat | k < |items| :: items[k].seconds
  }

  /** The associate's gaps that ended at `since` or later. */
  function GapsOfAssociate(items: seq<IdlePeriod>, associateId: string, since: Instant): set<nat> {
    set k: nat | k < |items| && items[k].associateId == associateId && !(items[k].endedAt < since)
  }

  function GapsOfType(items: seq<IdlePeriod>, taskType: string, since: Instant): set<nat> {
    set k: nat | k < |items| && items[k].taskType == taskType && !(items[k].endedAt < since)
  }

  lemma GapsOfAssociateGrow(items: seq<IdlePeriod>, associateId: string, since: Instant)
    requires items != []
    ensures var s := GapsOfAssociate(Init(items), associateId, since);
            && GapsOfAssociate(items, associateId, since) ==
               (if Last(items).associateId == associateId && !(Last(items).endedAt < since) then s + {|items| - 1} else s)
            && |items| - 1 !in s
  {
  }

  lemma {:induction false} AssociateIdleIsOverGaps(items: seq<IdlePeriod>, associateId: string, since: Instant)
    ensures SumIdleByAssociate(items, associateId, since) == SumInts(GapSeconds(items), GapsOfAssociate(items, associateId, since))
    ensures CountIdleByAssociate(items, associateId, since) == |GapsOfAssociate(items, associateId, since)|
  {
    if items != [] {
      var init := Init(items);
      AssociateIdleIsOverGaps(init, associateId, since);
      GapsOfAssociateGrow(items, associateId, since);
      SumIntsGrow(GapSeconds(init), GapSeconds(items), GapsOfAssociate(init, associateId, since),
                  GapsOfAssociate(items, associateId, since), |init|);
    }
  }

  lemma GapsOfTypeGrow(items: seq<IdlePeriod>, taskType: string, since: Instant)
    requires items != []
    ensures var s := GapsOfType(Init(items), taskType, since);
            && GapsOfType(items, taskType, since) ==
               (if Last(items).taskType == taskType && !(Last(items).endedAt < since) then s + {|items| - 1} else s)
            && |items| - 1 !in s
  {
  }

  lemma {:induction false} TypeIdleIsOverGaps(items: seq<IdlePeriod>, taskType: string, since: Instant)
    ensures SumIdleByTaskType(items, taskType, since) == SumInts(GapSeconds(items), GapsOfType(items, taskType, since))
    ensures CountIdleByTaskType(items, taskType, since) == |GapsOfType(items, taskType, since)|
  {
    if items != [] {
      var init := Init(items);
      TypeIdleIsOverGaps(init, taskType, since);
      GapsOfTypeGrow(items, taskType, since);
      SumIntsGrow(GapSeconds(init), GapSeconds(items), GapsOfType(init, taskType, since), GapsOfType(items, taskType, since), |init|);
    }
  }

  /** The associates counted are those of the gaps counted. */
  lemma AssociatesAreOfGaps(items: seq<IdlePeriod>, taskType: string, since: Instant)
    ensures AssociatesOfType(items, taskType, since) == set k | k in GapsOfType(items, taskType, since) :: items[k].associateId
  {
    forall a ensures a in AssociatesOfType(items, taskType, since) <==>
                     exists k :: k in GapsOfType(items, taskType, since) && items[k].associateId == a {
      if a in AssociatesOfType(items, taskType, since) {
        var g :| g in items && g.taskType == taskType && since <= g.endedAt && g.associateId == a;
        var k :| 0 <= k < |items| && items[k] == g;
        assert k in GapsOfType(items, taskType, since);
      }
    }
  }

  /** The last end is the zero instant or that of some gap of the associate, and no gap of
      the associate ends later. */
  lemma {:induction false} LastEndedAtIsAttained(items: seq<IdlePeriod>, associateId: string)
    ensures var last := LastEndedAt(items, associateId);
            && 0 <= last
            && (forall k :: 0 <= k < |items| && items[k].associateId == associateId ==> items[k].endedAt <= last)
            && (last == 0 || exists k :: 0 <= k < |items| && items[k].associateId == associateId && items[k].endedAt == last)
  {
    if items != [] {
      var init, before := Init(items), LastEndedAt(Init(items), associateId);
      LastEndedAtIsAttained(init, associateId);
      assert forall k :: 0 <= k < |init| ==> items[k] == init[k];
      if LastEndedAt(items, associateId) == before != 0 {
        var k :| 0 <= k < |init| && init[k].associateId == associateId && init[k].endedAt == before;
        assert items[k].endedAt == before;
      } else if LastEndedAt(items, associateId) != 0 {
        assert items[|items| - 1].endedAt == LastEndedAt(items, associateId);
      }
    }
  }

  class IdlePeriodRepo {
    var items: seq<IdlePeriod>

    constructor ()
      ensures items == []
    {
      items := [];
    }

    method Save(p: IdlePeriod)
      modifies this
      ensures items == old(items) + [p]
    {
      items := items + [p];
    }

    method SumByTaskType(taskType: string, since: Instant) returns (sum: int, count: nat)
      ensures sum == SumIdleByTaskType(items, taskType, since)
      ensures count == CountIdleByTaskType(items, taskType, since)
    {
      sum, count := 0, 0;
      for i := 0 to |items|
        invariant sum == SumIdleByTaskType(items[..i], taskType, since)
        invariant count == CountIdleByTaskType(items[..i], taskType, since)
      {
        TakeNext(items, i);
        if items[i].taskType != taskType { continue; }
        if items[i].endedAt < since { continue; }
        sum := sum + items[i].seconds;
        count := count + 1;
      }
      assert items[..|items|] == items;
    }

    method SumByAssociate(associateId: string, since: Instant) returns (sum: int, count: nat)
      ensures sum == SumIdleByAssociate(items, associateId, since)
      ensures count == CountIdleByAssociate(items, associateId, since)
    {
      sum, count := 0, 0;
      for i := 0 to |items|
        invariant sum == SumIdleByAssociate(items[..i], associateId, since)
        invariant count == CountIdleByAssociate(items[..i], associateId, since)
      {
        TakeNext(items, i);
        if items[i].associateId != associateId { continue; }
        if items[i].endedAt < since { continue; }
        sum := sum + items[i].seconds;
        count := count + 1;
      }
      assert items[..|items|] == items;
    }

    method LastEndedAtByAssociate(associateId: string) returns (last: Instant)
      ensures last == LastEndedAt(items, associateId)
    {
      last := ZERO_TIME;
      for i := 0 to |items|
        invariant last == LastEndedAt(items[..i], associateId)
      {
        TakeNext(items, i);
        if items[i].associateId != associateId { continue; }
        if items[i].endedAt > last {
          last := items[i].endedAt;
        }
      }
      assert items[..|items|] == items;
    }

    method DistinctAssociatesByTaskType(taskType: string, since: Instant) returns (n: nat)
      ensures n == |AssociatesOfType(items, taskType, since)|
    {
      var seen: set<string> := {};
      for i := 0 to |items|
        invariant seen == AssociatesOfType(items[..i], taskType, since)
      {
        if items[i].taskType != taskType { continue; }
        if items[i].endedAt < since { continue; }
        seen := seen + {items[i].associateId};
      }
      assert items[..|items|] == items;
      n := |seen|;
    }
  }
}
