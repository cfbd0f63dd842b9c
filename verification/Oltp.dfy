/** The transactional database: committed tables, and transactions whose writes
    stay private until they commit. */
module Oltp {
  import opened Base
  import opened Performance
  import opened Idleness
  import opened Standards

  datatype Topic = Analytics | Integration

  datatype DomainEvent =
    | LaborStandardDefined(occurredAt: Instant, standardId: nat, taskType: string, expectedSeconds: int,
                           travelComponentSeconds: Option<int>, effectiveFrom: Instant)
    | LaborStandardRevised(occurredAt: Instant, standardId: nat, taskType: string, previousExpectedSeconds: int,
                           expectedSeconds: int, travelComponentSeconds: Option<int>, effectiveFrom: Instant)
    | TaskPerformanceRecorded(occurredAt: Instant, taskId: string, associateId: string, taskType: string,
                              actualSeconds: int, efficiencyPct: Option<real>, idleSecondsBefore: Option<int>,
                              completedAt: Instant)

  /** One encoded message waiting for the relay. Its position in the table is its
      id, and stands for the CloudEvents id minted when it was encoded. */
  datatype OutboxRow = OutboxRow(topic: Topic, event: DomainEvent, published: bool, attempts: nat, failed: bool)

  datatype Body =
    | StandardBody(taskType: string, expectedSeconds: int, travelComponentSeconds: Option<int>,
                   effectiveFrom: Instant, effectiveTo: Option<Instant>)
    | Problem(slug: string)

  datatype Response = Response(status: int, body: Body)

  /** An Idempotency-Key's row; the outcome columns are null until it is known. */
  datatype KeyRow = KeyRow(requestHash: string, outcome: Option<Response>)

  datatype Tables = Tables(
    standards: map<nat, StandardRow>,
    processed: set<string>,
    performances: seq<TaskPerformance>,
    gaps: seq<IdlePeriod>,
    outbox: seq<OutboxRow>,
    keys: map<string, KeyRow>)

  const EMPTY := Tables(map[], {}, [], [], [], map[])

  datatype CommitOutcome = Acknowledged | Lost | AppliedUnacknowledged

  /** What goes wrong in one transaction: the statement after so many successful
      ones fails, and the commit is acknowledged, lost, or applied without the
      caller learning of it. */
  datatype Fault = Fault(statementsBeforeError: Option<nat>, commit: CommitOutcome)

  const NO_FAULT := Fault(None, Acknowledged)

  /** A transaction: a private copy of the tables, unusable after an SQL error. */
  class Tx {
    var tables: Tables
    var poisoned: bool
    var budget: Option<nat>
    const commitOutcome: CommitOutcome

    constructor (tables: Tables, fault: Fault)
      ensures this.tables == tables && !poisoned && budget == fault.statementsBeforeError
      ensures commitOutcome == fault.commit
    {
      this.tables, poisoned, budget, commitOutcome := tables, false, fault.statementsBeforeError, fault.commit;
    }

    /** Every statement goes through here. In an aborted transaction all fail. */
    method Exec() returns (ok: bool)
      modifies this`poisoned, this`budget
      ensures ok <==> !poisoned
      ensures old(poisoned) ==> poisoned
      ensures old(budget).None? ==> budget.None? && poisoned == old(poisoned)
    {
      if !poisoned && budget.Some? {
        if budget.value == 0 {
          poisoned := true;
        } else {
          budget := Some(budget.value - 1);
        }
      }
      ok := !poisoned;
    }
  }

  /** What was committed, and nothing else, is visible to others. */
  class Database {
    var committed: Tables

    constructor ()
      ensures committed == EMPTY
    {
      committed := EMPTY;
    }

    method Begin(fault: Fault) returns (tx: Tx)
      ensures fresh(tx) && tx.tables == committed && !tx.poisoned
      ensures tx.budget == fault.statementsBeforeError && tx.commitOutcome == fault.commit
    {
      tx := new Tx(committed, fault);
    }

    method Commit(tx: Tx) returns (acknowledged: bool)
      modifies this
      ensures acknowledged <==> !tx.poisoned && tx.commitOutcome == Acknowledged
      ensures committed == if !tx.poisoned && tx.commitOutcome != Lost then tx.tables else old(committed)
    {
      if !tx.poisoned && tx.commitOutcome != Lost {
        committed := tx.tables;
      }
      acknowledged := !tx.poisoned && tx.commitOutcome == Acknowledged;
    }
  }

  // --- Encoding ---------------------------------------------------------------

  /** The associate, or the task for an unattributed completion. */
  function PerformanceSubject(associateId: string, taskId: string): (subject: string)
    ensures taskId != "" ==> subject != ""
    ensures subject == associateId || (associateId == "" && subject == taskId)
  {
    if associateId != "" then associateId else taskId
  }

  /** Partition key: the task type on the analytics topic, the associate on the
      integration topic. */
  function PartitionKey(topic: Topic, e: DomainEvent): string {
    if topic.Integration? && e.TaskPerformanceRecorded? then e.associateId else e.taskType
  }

  /** Completions of one associate, and only those, share a partition key on the
      integration topic, events of one task type on the analytics topic. */
  lemma {:induction false} KeysAreDimensions(e: DomainEvent, f: DomainEvent)
    ensures e.TaskPerformanceRecorded? && f.TaskPerformanceRecorded? ==>
              (PartitionKey(Integration, e) == PartitionKey(Integration, f) <==> e.associateId == f.associateId)
    ensures PartitionKey(Analytics, e) == PartitionKey(Analytics, f) <==> e.taskType == f.taskType
  {
  }

  /** Which events a topic's contract maps to a message. */
  predicate Mapped(topic: Topic, e: DomainEvent) {
    topic.Analytics? || e.TaskPerformanceRecorded?
  }

  function Pending(topic: Topic, e: DomainEvent): OutboxRow {
    OutboxRow(topic, e, false, 0, false)
  }

  /** Same messages at the same positions, whatever their marks. */
  ghost predicate SameMessages(outbox: seq<OutboxRow>, outbox': seq<OutboxRow>) {
    && |outbox| == |outbox'|
    && forall i :: 0 <= i < |outbox| ==> outbox'[i].topic == outbox[i].topic && outbox'[i].event == outbox[i].event
  }

  function EncodedBy(topic: Topic, events: seq<DomainEvent>): seq<OutboxRow> {
    if events == [] then []
    else
      var before := EncodedBy(topic, Init(events));
      if Mapped(topic, Last(events)) then before + [Pending(topic, Last(events))] else before
  }

  function EncodedByAll(encoders: seq<Topic>, events: seq<DomainEvent>): seq<OutboxRow> {
    if encoders == [] then [] else EncodedByAll(Init(encoders), events) + EncodedBy(Last(encoders), events)
  }

  const ENCODERS := [Analytics, Integration]

  /** What each publisher's id generator yields for one publication; a publisher
      built without a generator yields the empty id. */
  datatype Minted = Minted(analytics: string, integration: string) {
    function For(topic: Topic): string {
      if topic.Analytics? then analytics else integration
    }

    /** Both publishers have a generator, which never yields the empty id. */
    predicate Wired() {
      analytics != "" && integration != ""
    }
  }

  /** A CloudEvent cannot be built without an id or with an empty subject. */
  predicate Encodable(e: DomainEvent, id: string) {
    id != "" && (e.TaskPerformanceRecorded? ==> PerformanceSubject(e.associateId, e.taskId) != "")
  }

  /** The topic maps some event to a message that cannot be built. */
  ghost predicate Refuses(topic: Topic, events: seq<DomainEvent>, id: string) {
    exists e :: e in events && Mapped(topic, e) && !Encodable(e, id)
  }

  /** `Encode` of either publisher: unmapped events yield no message. */
  method Encode(topic: Topic, events: seq<DomainEvent>, id: string) returns (r: Result<seq<OutboxRow>, ()>)
    ensures r.Err? <==> Refuses(topic, events, id)
    ensures r.Ok? ==> r.value == EncodedBy(topic, events)
  {
    var out: seq<OutboxRow> := [];
    for i := 0 to |events|
      invariant out == EncodedBy(topic, events[..i])
      invariant !Refuses(topic, events[..i], id)
    {
      assert Init(events[..i + 1]) == events[..i];
      assert events[..i + 1] == events[..i] + [events[i]];
      if !Mapped(topic, events[i]) { continue; }
      if !Encodable(events[i], id) {
        return Err(());
      }
      out := out + [Pending(topic, events[i])];
    }
    assert events[..|events|] == events;
    return Ok(out);
  }

  datatype PublishResult = Published | EncodeFailed | InsertFailed

  /** One INSERT per message, in order. */
  method InsertRows(tx: Tx, rows: seq<OutboxRow>) returns (ok: bool)
    requires !tx.poisoned
    modifies tx
    ensures ok <==> !tx.poisoned
    ensures ok ==> tx.tables == old(tx.tables).(outbox := old(tx.tables).outbox + rows)
    ensures tx.tables.(outbox := []) == old(tx.tables).(outbox := [])
    ensures old(tx.budget).None? ==> tx.budget.None? && ok
  {
    for j := 0 to |rows|
      invariant !tx.poisoned
      invariant old(tx.budget).None? ==> tx.budget.None?
      invariant tx.tables == old(tx.tables).(outbox := old(tx.tables).outbox + rows[..j])
    {
      ok := tx.Exec();
      if !ok {
        return;
      }
      assert rows[..j + 1] == rows[..j] + [rows[j]];
      tx.tables := tx.tables.(outbox := tx.tables.outbox + [rows[j]]);
    }
    assert rows[..|rows|] == rows;
    ok := true;
  }

  lemma OneMoreEncoder(outbox: seq<OutboxRow>, encoders: seq<Topic>, i: nat, events: seq<DomainEvent>)
    requires i < |encoders|
    ensures EncodedByAll(encoders[..i + 1], events) == EncodedByAll(encoders[..i], events) + EncodedBy(encoders[i], events)
    ensures outbox + EncodedByAll(encoders[..i + 1], events) ==
            outbox + EncodedByAll(encoders[..i], events) + EncodedBy(encoders[i], events)
  {
    assert Init(encoders[..i + 1]) == encoders[..i];
  }

  /** The first encoder that refuses the events, or their number if none does. */
  ghost function FirstRefusal(encoders: seq<Topic>, events: seq<DomainEvent>, ids: Minted, from: nat): (k: nat)
    requires from <= |encoders|
    ensures from <= k <= |encoders|
    ensures k < |encoders| ==> Refuses(encoders[k], events, ids.For(encoders[k]))
    ensures forall j :: from <= j < k ==> !Refuses(encoders[j], events, ids.For(encoders[j]))
    decreases |encoders| - from
  {
    if from == |encoders| || Refuses(encoders[from], events, ids.For(encoders[from])) then from
    else FirstRefusal(encoders, events, ids, from + 1)
  }

  /** `OutboxPublisher.Publish`: one row per event and encoder message, in encoder
      order, inserted through the caller's transaction. */
  method Publish(tx: Tx, encoders: seq<Topic>, events: seq<DomainEvent>, ids: Minted) returns (r: PublishResult)
    requires !tx.poisoned
    modifies tx
    ensures r.Published? ==> FirstRefusal(encoders, events, ids, 0) == |encoders|
    ensures r.Published? ==> tx.tables == old(tx.tables).(outbox := old(tx.tables).outbox + EncodedByAll(encoders, events))
    ensures r.InsertFailed? <==> tx.poisoned
    ensures r.EncodeFailed? ==>
              var k := FirstRefusal(encoders, events, ids, 0);
              && k < |encoders|
              && tx.tables == old(tx.tables).(outbox := old(tx.tables).outbox + EncodedByAll(encoders[..k], events))
    ensures tx.tables.(outbox := []) == old(tx.tables).(outbox := [])
    ensures old(tx.budget).None? ==> tx.budget.None? && !tx.poisoned
  {
    if |events| == 0 {
      NothingEncoded(encoders);
      return Published;
    }
    for i := 0 to |encoders|
      invariant !tx.poisoned
      invariant old(tx.budget).None? ==> tx.budget.None?
      invariant tx.tables == old(tx.tables).(outbox := old(tx.tables).outbox + EncodedByAll(encoders[..i], events))
      invariant FirstRefusal(encoders, events, ids, 0) == FirstRefusal(encoders, events, ids, i)
    {
      OneMoreEncoder(old(tx.tables).outbox, encoders, i, events);
      var msgs := Encode(encoders[i], events, ids.For(encoders[i]));
      if msgs.Err? {
        return EncodeFailed;
      }
      var ok := InsertRows(tx, msgs.value);
      if !ok {
        return InsertFailed;
      }
    }
    assert encoders[..|encoders|] == encoders;
    return Published;
  }

  lemma {:induction false} NothingEncoded(encoders: seq<Topic>)
    ensures EncodedByAll(encoders, []) == []
  {
    if encoders != [] { NothingEncoded(Init(encoders)); }
  }
}
