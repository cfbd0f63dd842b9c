/** What the outbox announces, field by field: each recorded row with the call that made
    it and the gap in front of it, each definition as a first one or as a revision. */
module Announcements {
  import opened Base
  import opened Performance
  import opened Idleness
  import opened IdleGaps
  import opened Standards
  import opened Oltp
  import opened Consistency
  import opened FrozenScoring

  // --- Definitions --------------------------------------------------------------------

  predicate Defines(row: OutboxRow) {
    row.topic.Analytics? && !row.event.TaskPerformanceRecorded?
  }

  /** The messages about standards on the analytics topic, in order. */
  function StandardEvents(outbox: seq<OutboxRow>): seq<DomainEvent> {
    if outbox == [] then []
    else
      var before := StandardEvents(Init(outbox));
      if Defines(Last(outbox)) then before + [Last(outbox).event] else before
  }

  /** The definition at j is the last one of the type before the one at i. */
  ghost predicate IsPrior(defs: seq<Definition>, j: nat, i: nat) {
    && j < i < |defs| && defs[j].taskType == defs[i].taskType
    && forall k :: j < k < i ==> defs[k].taskType != defs[i].taskType
  }

  /** The first definition of a type is announced as defined, every later one as a
      revision of the one before it. */
  ghost predicate TellsDefinition(e: DomainEvent, defs: seq<Definition>, i: nat)
    requires i < |defs|
  {
    var d := defs[i];
    && !e.TaskPerformanceRecorded?
    && e.occurredAt == d.at && e.standardId == d.id && e.taskType == d.taskType && e.expectedSeconds == d.expectedSeconds
    && e.travelComponentSeconds == d.travelComponentSeconds && e.effectiveFrom == d.at
    && (e.LaborStandardDefined? <==> forall j :: 0 <= j < i ==> defs[j].taskType != d.taskType)
    && (e.LaborStandardRevised? ==> exists j: nat :: IsPrior(defs, j, i) && e.previousExpectedSeconds == defs[j].expectedSeconds)
  }

  ghost predicate TellsDefinitions(outbox: seq<OutboxRow>) {
    var events, defs := StandardEvents(outbox), DefinitionsIn(outbox);
    |events| == |defs| && forall i :: 0 <= i < |defs| ==> TellsDefinition(events[i], defs, i)
  }

  lemma {:induction false} LatestIsPrior(defs: seq<Definition>, taskType: string)
    ensures Latest(defs, taskType).Some? ==>
              exists j :: 0 <= j < |defs| && defs[j] == Latest(defs, taskType).value && defs[j].taskType == taskType
                          && forall k :: j < k < |defs| ==> defs[k].taskType != taskType
    ensures Latest(defs, taskType).None? ==> forall j :: 0 <= j < |defs| ==> defs[j].taskType != taskType
  {
    if defs != [] && Last(defs).taskType != taskType {
      LatestIsPrior(Init(defs), taskType);
      assert forall j :: 0 <= j < |defs| - 1 ==> defs[j] == Init(defs)[j];
    }
  }

  /** Only what came before a definition decides how it is announced. */
  lemma SameTelling(e: DomainEvent, defs: seq<Definition>, more: seq<Definition>, i: nat)
    requires i < |defs| && defs <= more && TellsDefinition(e, defs, i)
    ensures TellsDefinition(e, more, i)
  {
    if e.LaborStandardRevised? {
      var j: nat :| IsPrior(defs, j, i) && e.previousExpectedSeconds == defs[j].expectedSeconds;
      assert IsPrior(more, j, i);
    }
  }

  lemma NextIsTold(defs: seq<Definition>, d: Definition)
    ensures TellsDefinition(DefinedEvent(defs, d), defs + [d], |defs|)
  {
    var more := defs + [d];
    LatestIsPrior(defs, d.taskType);
    assert forall j :: 0 <= j < |defs| ==> more[j] == defs[j];
    if Latest(defs, d.taskType).Some? {
      var j: nat :| j < |defs| && defs[j] == Latest(defs, d.taskType).value && defs[j].taskType == d.taskType
                    && forall k :: j < k < |defs| ==> defs[k].taskType != d.taskType;
      assert IsPrior(more, j, |defs|);
    }
  }

  lemma AppendEvent(outbox: seq<OutboxRow>, row: OutboxRow)
    ensures StandardEvents(outbox + [row]) == if Defines(row) then StandardEvents(outbox) + [row.event] else StandardEvents(outbox)
  {
    AppendParts(outbox, row);
  }

  lemma DefinedKeepsTelling(outbox: seq<OutboxRow>, d: Definition)
    requires TellsDefinitions(outbox)
    ensures TellsDefinitions(outbox + [Pending(Analytics, DefinedEvent(DefinitionsIn(outbox), d))])
  {
    var defs := DefinitionsIn(outbox);
    var row := Pending(Analytics, DefinedEvent(defs, d));
    AppendEvent(outbox, row);
    AppendRow(outbox, row);
    NextIsTold(defs, d);
    forall i | 0 <= i < |defs| ensures TellsDefinition(StandardEvents(outbox)[i], defs + [d], i) {
      SameTelling(StandardEvents(outbox)[i], defs, defs + [d], i);
    }
  }

  lemma RecordedKeepsTelling(outbox: seq<OutboxRow>, e: DomainEvent)
    requires TellsDefinitions(outbox) && e.TaskPerformanceRecorded?
    ensures TellsDefinitions(outbox + [Pending(Analytics, e), Pending(Integration, e)])
  {
    AppendEvent(outbox, Pending(Analytics, e));
    AppendEvent(outbox + [Pending(Analytics, e)], Pending(Integration, e));
    AppendRecordedPair(outbox, e);
    assert outbox + [Pending(Analytics, e), Pending(Integration, e)] == outbox + [Pending(Analytics, e)] + [Pending(Integration, e)];
  }

  lemma StepKeepsTelling(t: Tables, op: Op, capSeconds: int)
    requires TellsDefinitions(t.outbox)
    ensures TellsDefinitions(Step(t, op, capSeconds).outbox)
  {
    if Step(t, op, capSeconds) != t {
      match op {
        case Complete(req, now, choice) =>
          var p := Scored(req, PickedSeconds(t.standards, req, choice));
          RecordedKeepsTelling(t.outbox, RecordedEvent(t.performances, p, capSeconds, now));
        case Define(d) => DefinedKeepsTelling(t.outbox, d);
      }
    }
  }

  lemma {:induction false} SameStandardEvents(outbox: seq<OutboxRow>, outbox': seq<OutboxRow>)
    requires SameMessages(outbox, outbox')
    ensures StandardEvents(outbox') == StandardEvents(outbox)
  {
    if outbox != [] { SameStandardEvents(Init(outbox), Init(outbox')); }
  }

  lemma MarksKeepTelling(outbox: seq<OutboxRow>, outbox': seq<OutboxRow>)
    requires SameMessages(outbox, outbox') && TellsDefinitions(outbox)
    ensures TellsDefinitions(outbox')
  {
    SameStandardEvents(outbox, outbox');
    SameReadings(outbox, outbox', Analytics);
  }

  /** Over every run the message of the i-th accepted definition is that of a first
      definition exactly if no earlier one has its type; otherwise it is that of a revision
      and carries the seconds of the last earlier one. */
  lemma {:induction false} EveryRunTellsDefinitions(ops: seq<Op>, capSeconds: int)
    ensures TellsDefinitions(Run(ops, capSeconds).outbox)
    ensures DefinitionsIn(Run(ops, capSeconds).outbox) == Accepted(ops)
  {
    AnnouncedAreAccepted(ops, capSeconds);
    if ops != [] {
      EveryRunTellsDefinitions(Init(ops), capSeconds);
      StepKeepsTelling(Run(Init(ops), capSeconds), Last(ops), capSeconds);
    }
  }

  // --- How many of each ---------------------------------------------------------------

  function TypesDefined(defs: seq<Definition>): set<string> {
    set d | d in defs :: d.taskType
  }

  function FirstDefinitions(events: seq<DomainEvent>): nat {
    if events == [] then 0
    else
      var before := FirstDefinitions(Init(events));
      if Last(events).LaborStandardDefined? then before + 1 else before
  }

  lemma TypesGrow(defs: seq<Definition>)
    requires defs != []
    ensures TypesDefined(defs) == TypesDefined(Init(defs)) + {Last(defs).taskType}
    ensures Last(defs).taskType in TypesDefined(Init(defs)) <==>
            exists j :: 0 <= j < |defs| - 1 && defs[j].taskType == Last(defs).taskType
  {
    assert defs == Init(defs) + [Last(defs)];
    forall j | 0 <= j < |defs| - 1 ensures defs[j] in Init(defs) { assert defs[j] == Init(defs)[j]; }
    if Last(defs).taskType in TypesDefined(Init(defs)) {
      var d :| d in Init(defs) && d.taskType == Last(defs).taskType;
      var j :| 0 <= j < |Init(defs)| && Init(defs)[j] == d;
      assert defs[j] == d;
    }
  }

  /** One first definition per type. */
  lemma {:induction false} FirstsAreTypes(events: seq<DomainEvent>, defs: seq<Definition>)
    requires |events| == |defs| && forall i :: 0 <= i < |defs| ==> TellsDefinition(events[i], defs, i)
    ensures FirstDefinitions(events) == |TypesDefined(defs)|
  {
    if defs != [] {
      forall i | 0 <= i < |Init(defs)| ensures TellsDefinition(Init(events)[i], Init(defs), i) {
        assert TellsDefinition(events[i], defs, i);
        EarlierTelling(events[i], defs, i);
      }
      FirstsAreTypes(Init(events), Init(defs));
      TypesGrow(defs);
      var before, last := TypesDefined(Init(defs)), Last(defs).taskType;
      assert TellsDefinition(events[|defs| - 1], defs, |defs| - 1);
      if last in before {
        assert before + {last} == before;
      } else {
        assert |before + {last}| == |before| + 1;
        assert Last(events).LaborStandardDefined?;
      }
    }
  }

  lemma EarlierTelling(e: DomainEvent, defs: seq<Definition>, i: nat)
    requires i < |defs| - 1 && TellsDefinition(e, defs, i)
    ensures TellsDefinition(e, Init(defs), i)
  {
    assert forall j :: 0 <= j <= i ==> Init(defs)[j] == defs[j];
    if e.LaborStandardRevised? {
      var j: nat :| IsPrior(defs, j, i) && e.previousExpectedSeconds == defs[j].expectedSeconds;
      assert IsPrior(Init(defs), j, i);
    }
  }

  // --- Completions ---------------------------------------------------------------------

  /** The row and its two messages carry the request's own fields, and the messages the
      instant of the call. */
  predicate TellsCompletion(p: TaskPerformance, analytics: DomainEvent, integration: DomainEvent, op: Op) {
    && op.Complete?
    && p.eventId == op.req.kafkaEventId && p.taskId == op.req.taskId && p.associateId == op.req.associateId
    && p.taskType == op.req.taskType && p.actualSeconds == op.req.actualSeconds && p.completedAt == op.req.completedAt
    && analytics.TaskPerformanceRecorded? && integration == analytics
    && analytics.occurredAt == op.now && analytics.taskId == op.req.taskId && analytics.associateId == op.req.associateId
    && analytics.taskType == op.req.taskType && analytics.actualSeconds == op.req.actualSeconds
    && analytics.completedAt == op.req.completedAt && analytics.efficiencyPct == p.efficiencyPct
  }

  ghost predicate RowIsTold(t: Tables, k: nat, ops: seq<Op>) {
    var analytics, integration := RecordedOn(t.outbox, Analytics), RecordedOn(t.outbox, Integration);
    && k < |t.performances| && k < |analytics| && k < |integration|
    && exists i :: 0 <= i < |ops| && TellsCompletion(t.performances[k], analytics[k], integration[k], ops[i])
  }

  lemma RecordedIsTold(t: Tables, op: Op, capSeconds: int)
    requires Consistent(t, capSeconds) && op.Complete? && Step(t, op, capSeconds) != t
    ensures var next := Step(t, op, capSeconds); var k := |t.performances|;
            && |next.performances| == k + 1 && next.performances[..k] == t.performances
            && |RecordedOn(next.outbox, Analytics)| == k + 1 == |RecordedOn(next.outbox, Integration)|
            && RecordedOn(next.outbox, Analytics) == RecordedOn(t.outbox, Analytics) + [RecordedOn(next.outbox, Analytics)[k]]
            && RecordedOn(next.outbox, Integration) == RecordedOn(t.outbox, Integration) + [RecordedOn(next.outbox, Integration)[k]]
            && TellsCompletion(next.performances[k], RecordedOn(next.outbox, Analytics)[k], RecordedOn(next.outbox, Integration)[k], op)
  {
    var p := Scored(op.req, PickedSeconds(t.standards, op.req, op.choice));
    AppendRecordedPair(t.outbox, RecordedEvent(t.performances, p, capSeconds, op.now));
  }

  lemma DefinedTellsNoRow(t: Tables, d: Definition)
    ensures RecordedOn(Defined(t, d).outbox, Analytics) == RecordedOn(t.outbox, Analytics)
    ensures RecordedOn(Defined(t, d).outbox, Integration) == RecordedOn(t.outbox, Integration)
    ensures Defined(t, d).performances == t.performances
  {
    AppendRow(t.outbox, Pending(Analytics, DefinedEvent(DefinitionsIn(t.outbox), d)));
  }

  lemma StillTold(t: Tables, next: Tables, k: nat, ops: seq<Op>, op: Op)
    requires RowIsTold(t, k, ops) && t.performances <= next.performances
    requires RecordedOn(t.outbox, Analytics) <= RecordedOn(next.outbox, Analytics)
    requires RecordedOn(t.outbox, Integration) <= RecordedOn(next.outbox, Integration)
    ensures RowIsTold(next, k, ops + [op])
  {
    var i :| 0 <= i < |ops| && TellsCompletion(t.performances[k], RecordedOn(t.outbox, Analytics)[k], RecordedOn(t.outbox, Integration)[k], ops[i]);
    assert (ops + [op])[i] == ops[i];
  }

  lemma CompletionKeepsTelling(t: Tables, op: Op, ops: seq<Op>, capSeconds: int)
    requires Consistent(t, capSeconds) && op.Complete? && Step(t, op, capSeconds) != t
    requires forall k :: 0 <= k < |t.performances| ==> RowIsTold(t, k, ops)
    ensures var next := Step(t, op, capSeconds); forall k :: 0 <= k < |next.performances| ==> RowIsTold(next, k, ops + [op])
  {
    var next := Step(t, op, capSeconds);
    RecordedIsTold(t, op, capSeconds);
    forall k | 0 <= k < |next.performances| ensures RowIsTold(next, k, ops + [op]) {
      if k < |t.performances| {
        StillTold(t, next, k, ops, op);
      } else {
        assert (ops + [op])[|ops|] == op;
      }
    }
  }

  lemma OtherStepKeepsTelling(t: Tables, next: Tables, op: Op, ops: seq<Op>)
    requires next.performances == t.performances && forall k :: 0 <= k < |t.performances| ==> RowIsTold(t, k, ops)
    requires RecordedOn(next.outbox, Analytics) == RecordedOn(t.outbox, Analytics)
    requires RecordedOn(next.outbox, Integration) == RecordedOn(t.outbox, Integration)
    ensures forall k :: 0 <= k < |next.performances| ==> RowIsTold(next, k, ops + [op])
  {
    forall k | 0 <= k < |next.performances| ensures RowIsTold(next, k, ops + [op]) {
      StillTold(t, next, k, ops, op);
    }
  }

  /** In every run each row and its two messages are those of one call of the run. */
  lemma {:induction false} EveryRunTellsCompletions(ops: seq<Op>, capSeconds: int)
    ensures forall k :: 0 <= k < |Run(ops, capSeconds).performances| ==> RowIsTold(Run(ops, capSeconds), k, ops)
  {
    if ops != [] {
      var t, op := Run(Init(ops), capSeconds), Last(ops);
      EveryRunTellsCompletions(Init(ops), capSeconds);
      EveryRunIsConsistent(Init(ops), capSeconds);
      assert ops == Init(ops) + [op];
      if op.Complete? && Step(t, op, capSeconds) != t {
        CompletionKeepsTelling(t, op, Init(ops), capSeconds);
      } else {
        if op.Define? { DefinedTellsNoRow(t, op.d); }
        OtherStepKeepsTelling(t, Step(t, op, capSeconds), op, Init(ops));
      }
    }
  }

  // --- The idle time before a row ---------------------------------------------------------

  /** A message carries the seconds of the gap recorded in front of its row, or nothing
      where there is none. */
  lemma {:induction false} AnnouncedIdleIsGap(t: Tables, capSeconds: int, k: nat)
    requires Consistent(t, capSeconds) && k < |t.performances|
    ensures var idle := RecordedOn(t.outbox, Analytics)[k].idleSecondsBefore;
            if idle.Some? then
              exists i :: 0 <= i < |t.gaps| && IsWaitBefore(t.gaps[i], t.performances, k, capSeconds) && t.gaps[i].seconds == idle.value
            else forall i :: 0 <= i < |t.gaps| ==> !IsWaitBefore(t.gaps[i], t.performances, k, capSeconds)
  {
    var rows := t.performances;
    var before, p := rows[..k], rows[k];
    assert Announces(RecordedOn(t.outbox, Analytics)[k], rows, k, capSeconds);
    assert rows[..k + 1] == before + [p];
    if GapBefore(before, p, capSeconds).Some? {
      var gap := GapBefore(before, p, capSeconds).value;
      GapIsWait(before, p, capSeconds);
      SameWait(gap, before + [p], rows, k, capSeconds);
      var i := WaitsAreGaps(rows, capSeconds, k, gap.startedAt);
      OneWait(gap, t.gaps[i], rows, k, capSeconds);
    } else {
      forall i | 0 <= i < |t.gaps| ensures !IsWaitBefore(t.gaps[i], rows, k, capSeconds) {
        if IsWaitBefore(t.gaps[i], rows, k, capSeconds) {
          SamePrevious(before, rows, k, p.associateId, t.gaps[i].startedAt);
          WaitHasGap(before, p, t.gaps[i].startedAt, capSeconds);
        }
      }
    }
  }

  /** A row has one wait. */
  lemma OneWait(g: IdlePeriod, h: IdlePeriod, rows: seq<TaskPerformance>, k: nat, capSeconds: int)
    requires IsWaitBefore(g, rows, k, capSeconds) && IsWaitBefore(h, rows, k, capSeconds)
    ensures g == h
  {
    var i :| 0 <= i < k && rows[i].associateId == g.associateId && rows[i].completedAt == g.startedAt;
    var j :| 0 <= j < k && rows[j].associateId == g.associateId && rows[j].completedAt == h.startedAt;
  }
}
