/** What every committed state of the transactional database keeps, and the two
    ways a use case moves it. */
module Consistency {
  import opened Base
  import opened Performance
  import opened IdleGaps
  import opened Standards
  import opened Oltp

  datatype Request = Request(
    kafkaEventId: string,
    taskId: string,
    associateId: string,
    taskType: string,
    actualSeconds: int,
    completedAt: Instant)

  // --- Reading the outbox back ------------------------------------------------

  function DefinitionOf(row: OutboxRow): seq<Definition> {
    if row.topic != Analytics then []
    else
      match row.event
      case LaborStandardDefined(_, id, taskType, expected, travel, from) => [Definition(id, taskType, expected, travel, from)]
      case LaborStandardRevised(_, id, taskType, _, expected, travel, from) => [Definition(id, taskType, expected, travel, from)]
      case TaskPerformanceRecorded(_, _, _, _, _, _, _, _) => []
  }

  /** The definitions announced on the analytics topic, in order. */
  function DefinitionsIn(outbox: seq<OutboxRow>): seq<Definition> {
    if outbox == [] then [] else DefinitionsIn(Init(outbox)) + DefinitionOf(Last(outbox))
  }

  predicate Records(row: OutboxRow, topic: Topic) {
    row.topic == topic && row.event.TaskPerformanceRecorded?
  }

  /** The completions announced on one topic, in order. */
  function RecordedOn(outbox: seq<OutboxRow>, topic: Topic): seq<DomainEvent> {
    if outbox == [] then []
    else
      var before := RecordedOn(Init(outbox), topic);
      if Records(Last(outbox), topic) then before + [Last(outbox).event] else before
  }

  function IdleBefore(rows: seq<TaskPerformance>, p: TaskPerformance, capSeconds: int): Option<int> {
    match GapBefore(rows, p, capSeconds) case Some(gap) => Some(gap.seconds) case None => None
  }

  /** The event announces exactly the k-th recorded row and the idle time before it. */
  predicate Announces(e: DomainEvent, rows: seq<TaskPerformance>, k: nat, capSeconds: int)
    requires k < |rows|
  {
    var p := rows[k];
    e.TaskPerformanceRecorded? &&
    e == TaskPerformanceRecorded(e.occurredAt, p.taskId, p.associateId, p.taskType, p.actualSeconds, p.efficiencyPct,
                                 IdleBefore(rows[..k], p, capSeconds), p.completedAt)
  }

  /** One message per recorded row on the topic, in recording order. */
  ghost predicate AnnouncedOn(topic: Topic, t: Tables, capSeconds: int) {
    var events := RecordedOn(t.outbox, topic);
    |events| == |t.performances| && forall k :: 0 <= k < |events| ==> Announces(events[k], t.performances, k, capSeconds)
  }

  ghost predicate WellFormed(p: TaskPerformance) {
    p.eventId != "" && p.taskId != "" && p.efficiencyPct == ComputeEfficiencyPct(p.actualSeconds, p.standardSeconds)
  }

  /** The markers are exactly the rows' event ids, and no id has two rows. */
  ghost predicate Marked(processed: set<string>, rows: seq<TaskPerformance>) {
    && (forall id :: id in processed <==> exists k :: 0 <= k < |rows| && rows[k].eventId == id)
    && (forall j, k :: 0 <= j < k < |rows| ==> rows[j].eventId != rows[k].eventId)
  }

  /** The atomicity invariant: markers are exactly the rows' event ids, no id has
      two rows, the gaps are those the rows imply (at most one per row), each row
      is announced once on each topic, the standards table is the timeline of the
      announced definitions, and the outbox holds no other message. */
  ghost predicate Consistent(t: Tables, capSeconds: int) {
    && Marked(t.processed, t.performances)
    && (forall k :: 0 <= k < |t.performances| ==> WellFormed(t.performances[k]))
    && t.gaps == Gaps(t.performances, capSeconds)
    && AnnouncedOn(Analytics, t, capSeconds)
    && AnnouncedOn(Integration, t, capSeconds)
    && IsTimeline(t.standards, DefinitionsIn(t.outbox))
    && |t.outbox| == 2 * |t.performances| + |DefinitionsIn(t.outbox)|
  }

  // --- The two committed steps --------------------------------------------------

  /** Standard seconds in force for the type as of t; none for an unclassified task. */
  function SecondsAsOf(defs: seq<Definition>, taskType: string, t: Instant): int {
    if taskType == "" then 0
    else match AsOf(defs, taskType, t) case Some(d) => d.expectedSeconds case None => 0
  }

  /** What the unordered as-of query may find: the seconds of some row in force, none
      if there is no such row. A clock that stepped back can leave several. */
  ghost predicate CanFind(rows: map<nat, StandardRow>, req: Request, seconds: int) {
    var active := ActiveIds(rows, req.taskType, req.completedAt);
    if req.taskType == "" || active == {} then seconds == 0
    else exists id :: id in active && rows[id].expectedSeconds == seconds
  }

  lemma ActiveSeconds(rows: map<nat, StandardRow>, defs: seq<Definition>, taskType: string, t: Instant, id: nat)
    requires IsTimeline(rows, defs) && Monotone(defs) && taskType != "" && id in ActiveIds(rows, taskType, t)
    ensures rows[id].expectedSeconds == SecondsAsOf(defs, taskType, t)
  {
    LookupIsDeterministic(rows, defs, taskType, t);
    AsOfIsLatestBefore(defs, taskType, t);
    var i :| 0 <= i < |defs| && defs[i] == AsOf(defs, taskType, t).value;
    assert rows[defs[i].id] == RowOf(defs, i);
  }

  /** Under a clock that never stepped back it finds the reference seconds and nothing else. */
  lemma {:induction false} FoundIsAsOf(rows: map<nat, StandardRow>, defs: seq<Definition>, req: Request, seconds: int)
    requires IsTimeline(rows, defs) && Monotone(defs)
    ensures CanFind(rows, req, seconds) <==> seconds == SecondsAsOf(defs, req.taskType, req.completedAt)
  {
    LookupIsDeterministic(rows, defs, req.taskType, req.completedAt);
    if req.taskType != "" {
      forall id | id in ActiveIds(rows, req.taskType, req.completedAt)
        ensures rows[id].expectedSeconds == SecondsAsOf(defs, req.taskType, req.completedAt)
      {
        ActiveSeconds(rows, defs, req.taskType, req.completedAt, id);
      }
      if AsOf(defs, req.taskType, req.completedAt).Some? {
        assert AsOf(defs, req.taskType, req.completedAt).value.id in ActiveIds(rows, req.taskType, req.completedAt);
      }
    }
  }

  function Scored(req: Request, standardSeconds: int): TaskPerformance {
    TaskPerformance(req.kafkaEventId, req.taskId, req.associateId, req.taskType, req.actualSeconds, standardSeconds,
                    ComputeEfficiencyPct(req.actualSeconds, standardSeconds), req.completedAt)
  }

  /** The request's own fields, with the score of the standard it was measured against. */
  predicate RowOfRequest(p: TaskPerformance, req: Request) {
    && p.eventId == req.kafkaEventId && p.taskId == req.taskId && p.associateId == req.associateId && p.taskType == req.taskType
    && p.actualSeconds == req.actualSeconds && p.completedAt == req.completedAt
    && IsScore(p.efficiencyPct, p.actualSeconds, p.standardSeconds)
  }

  lemma ScoredIsOfRequest(req: Request, seconds: int)
    ensures RowOfRequest(Scored(req, seconds), req)
  {
  }

  function RecordedEvent(rows: seq<TaskPerformance>, p: TaskPerformance, capSeconds: int, now: Instant): DomainEvent {
    TaskPerformanceRecorded(now, p.taskId, p.associateId, p.taskType, p.actualSeconds, p.efficiencyPct,
                            IdleBefore(rows, p, capSeconds), p.completedAt)
  }

  /** A first-time completion scored against `seconds`: marker, row, gap and both
      messages at once. */
  function Recorded(t: Tables, req: Request, seconds: int, capSeconds: int, now: Instant): Tables {
    var p := Scored(req, seconds);
    var e := RecordedEvent(t.performances, p, capSeconds, now);
    t.(processed := t.processed + {req.kafkaEventId},
       performances := t.performances + [p],
       gaps := match GapBefore(t.performances, p, capSeconds) case Some(gap) => t.gaps + [gap] case None => t.gaps,
       outbox := t.outbox + [Pending(Analytics, e), Pending(Integration, e)])
  }

  function DefinedEvent(defs: seq<Definition>, d: Definition): DomainEvent {
    match Latest(defs, d.taskType)
    case Some(prior) =>
      LaborStandardRevised(d.at, d.id, d.taskType, prior.expectedSeconds, d.expectedSeconds, d.travelComponentSeconds, d.at)
    case None => LaborStandardDefined(d.at, d.id, d.taskType, d.expectedSeconds, d.travelComponentSeconds, d.at)
  }

  predicate IsOpenRow(rows: map<nat, StandardRow>, id: nat, taskType: string) {
    id in rows && rows[id].taskType == taskType && rows[id].effectiveTo.None?
  }

  /** Announced as a first definition exactly if no range of the type is open in the table
      it was made on; otherwise as a revision of the open one, with its seconds. */
  ghost predicate AnnouncesDefinition(row: OutboxRow, d: Definition, rows: map<nat, StandardRow>) {
    var e := row.event;
    && row.topic == Analytics && !row.published && !row.failed && row.attempts == 0
    && !e.TaskPerformanceRecorded?
    && e.occurredAt == d.at && e.standardId == d.id && e.taskType == d.taskType && e.expectedSeconds == d.expectedSeconds
    && e.travelComponentSeconds == d.travelComponentSeconds && e.effectiveFrom == d.at
    && (e.LaborStandardDefined? <==> forall id :: !IsOpenRow(rows, id, d.taskType))
    && (e.LaborStandardRevised? ==>
          exists id :: IsOpenRow(rows, id, d.taskType) && rows[id].expectedSeconds == e.previousExpectedSeconds)
  }

  lemma DefinedEventAnnounces(rows: map<nat, StandardRow>, defs: seq<Definition>, d: Definition)
    requires IsTimeline(rows, defs)
    ensures AnnouncesDefinition(Pending(Analytics, DefinedEvent(defs, d)), d, rows)
  {
    OneOpenRow(rows, defs, d.taskType);
    LatestIsDefined(defs, d.taskType);
    forall id ensures IsOpenRow(rows, id, d.taskType) <==> id in OpenIds(rows, d.taskType) {
    }
    if Latest(defs, d.taskType).Some? {
      var i :| 0 <= i < |defs| && defs[i] == Latest(defs, d.taskType).value;
      assert rows[defs[i].id] == RowOf(defs, i);
      assert IsOpenRow(rows, defs[i].id, d.taskType);
    }
  }

  /** A definition: the prior range closed, the new one open, one analytics message. */
  function Defined(t: Tables, d: Definition): Tables {
    t.(standards := Supersede(t.standards, d),
       outbox := t.outbox + [Pending(Analytics, DefinedEvent(DefinitionsIn(t.outbox), d))])
  }

  lemma AppendRow(outbox: seq<OutboxRow>, row: OutboxRow)
    ensures DefinitionsIn(outbox + [row]) == DefinitionsIn(outbox) + DefinitionOf(row)
    ensures forall topic :: RecordedOn(outbox + [row], topic) ==
                            if Records(row, topic) then RecordedOn(outbox, topic) + [row.event] else RecordedOn(outbox, topic)
  {
    AppendParts(outbox, row);
  }

  lemma AppendRecordedPair(outbox: seq<OutboxRow>, e: DomainEvent)
    requires e.TaskPerformanceRecorded?
    ensures var next := outbox + [Pending(Analytics, e), Pending(Integration, e)];
            && DefinitionsIn(next) == DefinitionsIn(outbox)
            && RecordedOn(next, Analytics) == RecordedOn(outbox, Analytics) + [e]
            && RecordedOn(next, Integration) == RecordedOn(outbox, Integration) + [e]
  {
    AppendRow(outbox, Pending(Analytics, e));
    AppendRow(outbox + [Pending(Analytics, e)], Pending(Integration, e));
    assert outbox + [Pending(Analytics, e), Pending(Integration, e)] ==
           outbox + [Pending(Analytics, e)] + [Pending(Integration, e)];
  }

  lemma AnnouncementExtends(topic: Topic, t: Tables, next: Tables, p: TaskPerformance, e: DomainEvent, capSeconds: int)
    requires AnnouncedOn(topic, t, capSeconds)
    requires next.performances == t.performances + [p]
    requires RecordedOn(next.outbox, topic) == RecordedOn(t.outbox, topic) + [e]
    requires Announces(e, next.performances, |t.performances|, capSeconds)
    ensures AnnouncedOn(topic, next, capSeconds)
  {
    forall k | 0 <= k < |t.performances|
      ensures Announces(RecordedOn(next.outbox, topic)[k], next.performances, k, capSeconds)
    {
      assert next.performances[..k] == t.performances[..k];
      assert Announces(RecordedOn(t.outbox, topic)[k], t.performances, k, capSeconds);
    }
  }

  lemma SameAnnouncements(topic: Topic, t: Tables, next: Tables, capSeconds: int)
    requires AnnouncedOn(topic, t, capSeconds)
    requires next.performances == t.performances && RecordedOn(next.outbox, topic) == RecordedOn(t.outbox, topic)
    ensures AnnouncedOn(topic, next, capSeconds)
  {
  }

  lemma MarkOneMore(processed: set<string>, rows: seq<TaskPerformance>, p: TaskPerformance)
    requires Marked(processed, rows) && p.eventId !in processed
    ensures Marked(processed + {p.eventId}, rows + [p])
  {
    var next := rows + [p];
    forall k | 0 <= k < |rows| ensures next[k].eventId != p.eventId {
      assert rows[k].eventId in processed;
    }
    forall id ensures id in processed + {p.eventId} <==> exists k :: 0 <= k < |next| && next[k].eventId == id {
      if id == p.eventId {
        assert next[|rows|].eventId == id;
      } else if id in processed {
        var k :| 0 <= k < |rows| && rows[k].eventId == id;
        assert next[k].eventId == id;
      }
    }
  }

  lemma GapsOneMore(rows: seq<TaskPerformance>, p: TaskPerformance, capSeconds: int)
    ensures Gaps(rows + [p], capSeconds) ==
            match GapBefore(rows, p, capSeconds) case Some(gap) => Gaps(rows, capSeconds) + [gap] case None => Gaps(rows, capSeconds)
  {
    AppendParts(rows, p);
  }

  lemma AnnounceOneMore(t: Tables, next: Tables, p: TaskPerformance, capSeconds: int, now: Instant)
    requires AnnouncedOn(Analytics, t, capSeconds) && AnnouncedOn(Integration, t, capSeconds)
    requires var e := RecordedEvent(t.performances, p, capSeconds, now);
             next.performances == t.performances + [p] && next.outbox == t.outbox + [Pending(Analytics, e), Pending(Integration, e)]
    ensures AnnouncedOn(Analytics, next, capSeconds) && AnnouncedOn(Integration, next, capSeconds)
    ensures DefinitionsIn(next.outbox) == DefinitionsIn(t.outbox)
  {
    var e := RecordedEvent(t.performances, p, capSeconds, now);
    AppendRecordedPair(t.outbox, e);
    assert next.performances[..|t.performances|] == t.performances;
    AnnouncementExtends(Analytics, t, next, p, e, capSeconds);
    AnnouncementExtends(Integration, t, next, p, e, capSeconds);
  }

  /** One recording, with some seconds its lookup may find. */
  ghost predicate RecordsOnce(t: Tables, next: Tables, req: Request, capSeconds: int, now: Instant) {
    exists seconds :: CanFind(t.standards, req, seconds) && next == Recorded(t, req, seconds, capSeconds, now)
  }

  /** Whatever seconds the completion is scored against. */
  lemma RecordedKeepsConsistent(t: Tables, req: Request, seconds: int, capSeconds: int, now: Instant)
    requires Consistent(t, capSeconds)
    requires req.kafkaEventId !in t.processed && req.kafkaEventId != "" && req.taskId != ""
    ensures Consistent(Recorded(t, req, seconds, capSeconds, now), capSeconds)
    ensures DefinitionsIn(Recorded(t, req, seconds, capSeconds, now).outbox) == DefinitionsIn(t.outbox)
  {
    var next := Recorded(t, req, seconds, capSeconds, now);
    var p := Scored(req, seconds);
    MarkOneMore(t.processed, t.performances, p);
    GapsOneMore(t.performances, p, capSeconds);
    AnnounceOneMore(t, next, p, capSeconds, now);
  }

  lemma {:induction false} DefinedKeepsConsistent(t: Tables, d: Definition, capSeconds: int)
    requires Consistent(t, capSeconds) && d.id !in t.standards
    ensures Consistent(Defined(t, d), capSeconds)
    ensures DefinitionsIn(Defined(t, d).outbox) == DefinitionsIn(t.outbox) + [d]
  {
    var next := Defined(t, d);
    AppendRow(t.outbox, Pending(Analytics, DefinedEvent(DefinitionsIn(t.outbox), d)));
    SupersedeExtends(t.standards, DefinitionsIn(t.outbox), d);
    assert RecordedOn(next.outbox, Analytics) == RecordedOn(t.outbox, Analytics);
    assert RecordedOn(next.outbox, Integration) == RecordedOn(t.outbox, Integration);
    SameAnnouncements(Analytics, t, next, capSeconds);
    SameAnnouncements(Integration, t, next, capSeconds);
  }

  lemma {:induction false} SameReadings(outbox: seq<OutboxRow>, outbox': seq<OutboxRow>, topic: Topic)
    requires SameMessages(outbox, outbox')
    ensures DefinitionsIn(outbox') == DefinitionsIn(outbox) && RecordedOn(outbox', topic) == RecordedOn(outbox, topic)
  {
    if outbox != [] { SameReadings(Init(outbox), Init(outbox'), topic); }
  }

  /** Marking rows keeps everything the writers rely on. */
  lemma MarksKeepConsistent(t: Tables, outbox: seq<OutboxRow>, capSeconds: int)
    requires Consistent(t, capSeconds) && SameMessages(t.outbox, outbox)
    ensures Consistent(t.(outbox := outbox), capSeconds)
  {
    SameReadings(t.outbox, outbox, Analytics);
    SameReadings(t.outbox, outbox, Integration);
    SameAnnouncements(Analytics, t, t.(outbox := outbox), capSeconds);
    SameAnnouncements(Integration, t, t.(outbox := outbox), capSeconds);
  }
}
