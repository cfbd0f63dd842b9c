/** The two writing use cases, statement by statement inside a transaction. */
module UseCases {
  import opened Base
  import opened Performance
  import opened Idleness
  import opened IdleGaps
  import opened Sorting
  import opened History
  import opened Standards
  import opened Oltp
  import opened Consistency

  // --- SQL statements -----------------------------------------------------------

  /** INSERT ... ON CONFLICT DO NOTHING on the marker table. */
  method MarkProcessed(tx: Tx, eventId: string) returns (ok: bool, isNew: bool)
    modifies tx
    ensures ok <==> !tx.poisoned
    ensures ok ==> (isNew <==> eventId !in old(tx.tables).processed)
                   && tx.tables == old(tx.tables).(processed := old(tx.tables).processed + {eventId})
    ensures old(tx.budget).None? ==> tx.budget.None? && tx.poisoned == old(tx.poisoned)
  {
    isNew := false;
    ok := tx.Exec();
    if ok {
      isNew := eventId !in tx.tables.processed;
      tx.tables := tx.tables.(processed := tx.tables.processed + {eventId});
    }
  }

  method FindActiveAsOf(tx: Tx, taskType: string, t: Instant) returns (ok: bool, r: LaborStandard?)
    requires forall id :: id in tx.tables.standards ==> tx.tables.standards[id].id == id
    modifies tx`poisoned, tx`budget
    ensures ok <==> !tx.poisoned
    ensures ok && r == null ==> ActiveIds(tx.tables.standards, taskType, t) == {}
    ensures r != null ==> fresh(r) && r.id in ActiveIds(tx.tables.standards, taskType, t) && r.Row() == tx.tables.standards[r.id]
    ensures old(tx.budget).None? ==> tx.budget.None? && tx.poisoned == old(tx.poisoned)
  {
    r := null;
    ok := tx.Exec();
    var matches := ActiveIds(tx.tables.standards, taskType, t);
    if ok && matches != {} {
      var id :| id in matches;
      r := new LaborStandard.Rehydrate(tx.tables.standards[id]);
    }
  }

  method FindCurrentlyActive(tx: Tx, taskType: string) returns (ok: bool, r: LaborStandard?)
    requires forall id :: id in tx.tables.standards ==> tx.tables.standards[id].id == id
    modifies tx`poisoned, tx`budget
    ensures ok <==> !tx.poisoned
    ensures ok && r == null ==> OpenIds(tx.tables.standards, taskType) == {}
    ensures r != null ==> fresh(r) && r.id in OpenIds(tx.tables.standards, taskType) && r.Row() == tx.tables.standards[r.id]
    ensures old(tx.budget).None? ==> tx.budget.None? && tx.poisoned == old(tx.poisoned)
  {
    r := null;
    ok := tx.Exec();
    var matches := OpenIds(tx.tables.standards, taskType);
    if ok && matches != {} {
      var id :| id in matches;
      r := new LaborStandard.Rehydrate(tx.tables.standards[id]);
    }
  }

  /** Upsert by id; on conflict only effective_to changes. */
  method SaveStandard(tx: Tx, s: LaborStandard) returns (ok: bool)
    modifies tx
    ensures ok <==> !tx.poisoned
    ensures ok ==> tx.tables == old(tx.tables).(standards :=
                     var rows := old(tx.tables).standards;
                     rows[s.id := if s.id in rows then rows[s.id].(effectiveTo := s.effectiveTo) else s.Row()])
    ensures old(tx.budget).None? ==> tx.budget.None? && tx.poisoned == old(tx.poisoned)
  {
    ok := tx.Exec();
    if ok {
      var rows := tx.tables.standards;
      var row := if s.id in rows then rows[s.id].(effectiveTo := s.effectiveTo) else s.Row();
      tx.tables := tx.tables.(standards := rows[s.id := row]);
    }
  }

  method RecentByAssociateID(tx: Tx, associateId: string, limit: nat) returns (ok: bool, rows: seq<TaskPerformance>)
    modifies tx`poisoned, tx`budget
    ensures ok <==> !tx.poisoned
    ensures ok ==> NewestFirst(rows, OfAssociate(tx.tables.performances, associateId), limit)
    ensures old(tx.budget).None? ==> tx.budget.None? && tx.poisoned == old(tx.poisoned)
  {
    ok := tx.Exec();
    var all := Sort(OfAssociate(tx.tables.performances, associateId), NewerOrEqual);
    rows := all[..Min(limit, |all|)];
  }

  /** INSERT ... ON CONFLICT (event_id) DO NOTHING. */
  method SavePerformance(tx: Tx, p: TaskPerformance) returns (ok: bool)
    modifies tx
    ensures ok <==> !tx.poisoned
    ensures ok ==> tx.tables == old(tx.tables).(performances :=
                     var rows := old(tx.tables).performances;
                     if exists k :: 0 <= k < |rows| && rows[k].eventId == p.eventId then rows else rows + [p])
    ensures old(tx.budget).None? ==> tx.budget.None? && tx.poisoned == old(tx.poisoned)
  {
    ok := tx.Exec();
    if ok && !exists k :: 0 <= k < |tx.tables.performances| && tx.tables.performances[k].eventId == p.eventId {
      tx.tables := tx.tables.(performances := tx.tables.performances + [p]);
    }
  }

  method SaveGap(tx: Tx, gap: IdlePeriod) returns (ok: bool)
    modifies tx
    ensures ok <==> !tx.poisoned
    ensures ok ==> tx.tables == old(tx.tables).(gaps := old(tx.tables).gaps + [gap])
    ensures old(tx.budget).None? ==> tx.budget.None? && tx.poisoned == old(tx.poisoned)
  {
    ok := tx.Exec();
    if ok {
      tx.tables := tx.tables.(gaps := tx.tables.gaps + [gap]);
    }
  }

  lemma TimelineRowsCarryTheirId(rows: map<nat, StandardRow>, defs: seq<Definition>)
    requires IsTimeline(rows, defs)
    ensures forall id :: id in rows ==> rows[id].id == id
  {
    forall id | id in rows ensures rows[id].id == id {
      var i :| 0 <= i < |defs| && defs[i].id == id;
      assert rows[defs[i].id] == RowOf(defs, i);
    }
  }

  // --- RecordTaskPerformance ------------------------------------------------------

  datatype RecordError = SqlFailed | Rejected(cause: Performance.Error) | NotEncoded | CommitFailed

  /** The query has no order, so any row in force may be found; a clock that never
      stepped back leaves only the reference one. */
  method StandardSecondsAtCompletion(tx: Tx, req: Request) returns (ok: bool, seconds: int)
    requires IsTimeline(tx.tables.standards, DefinitionsIn(tx.tables.outbox))
    modifies tx`poisoned, tx`budget
    ensures !tx.poisoned ==> ok
    ensures !old(tx.poisoned) ==> (ok <==> !tx.poisoned)
    ensures ok ==> CanFind(tx.tables.standards, req, seconds)
    ensures ok && Monotone(DefinitionsIn(tx.tables.outbox)) ==>
              seconds == SecondsAsOf(DefinitionsIn(tx.tables.outbox), req.taskType, req.completedAt)
    ensures old(tx.budget).None? ==> tx.budget.None? && tx.poisoned == old(tx.poisoned)
  {
    ok, seconds := true, 0;
    ghost var defs := DefinitionsIn(tx.tables.outbox);
    if req.taskType != "" {
      TimelineRowsCarryTheirId(tx.tables.standards, defs);
      var active: LaborStandard?;
      ok, active := FindActiveAsOf(tx, req.taskType, req.completedAt);
      if !ok {
        return;
      }
      if active != null {
        seconds := active.expectedSeconds;
      }
    }
    if Monotone(defs) {
      FoundIsAsOf(tx.tables.standards, defs, req, seconds);
    }
  }

  method PreviousCompletionFor(tx: Tx, associateId: string) returns (ok: bool, previous: Option<Instant>)
    modifies tx`poisoned, tx`budget
    ensures !old(tx.poisoned) ==> (ok <==> !tx.poisoned)
    ensures ok ==> previous == if associateId == "" then None else LastCompletion(tx.tables.performances, associateId)
    ensures old(tx.budget).None? ==> tx.budget.None? && tx.poisoned == old(tx.poisoned)
  {
    ok, previous := true, None;
    if associateId == "" {
      return;
    }
    var rows: seq<TaskPerformance>;
    ok, rows := RecentByAssociateID(tx, associateId, 1);
    if ok {
      NewestIsLastCompletion(rows, tx.tables.performances, associateId);
      if |rows| > 0 {
        previous := Some(rows[0].completedAt);
      }
    }
  }

  /** Saves the gap in front of the request's claim, if there is one. */
  method RecordIdleGap(tx: Tx, req: Request, p: TaskPerformance, ghost before: seq<TaskPerformance>, previous: Option<Instant>, capSeconds: int)
    returns (ok: bool, idleSecondsBefore: Option<int>)
    requires !tx.poisoned
    requires p.associateId == req.associateId && p.taskType == req.taskType && ClaimedAt(p) == req.completedAt - req.actualSeconds * SECOND
    requires previous == if req.associateId == "" then None else LastCompletion(before, req.associateId)
    modifies tx
    ensures ok <==> !tx.poisoned
    ensures ok ==>
              && idleSecondsBefore == IdleBefore(before, p, capSeconds)
              && tx.tables == old(tx.tables).(gaps :=
                   match GapBefore(before, p, capSeconds) case Some(gap) => old(tx.tables).gaps + [gap] case None => old(tx.tables).gaps)
    ensures old(tx.budget).None? ==> tx.budget.None? && tx.poisoned == old(tx.poisoned)
  {
    if req.associateId == "" || previous.None? {
      return true, None;
    }
    var claimedAt := req.completedAt - req.actualSeconds * SECOND;
    var gap := Idleness.New(req.associateId, req.taskType, previous.value, claimedAt, EffectiveCap(capSeconds));
    if gap.Err? {
      return true, None;
    }
    ok := SaveGap(tx, gap.value);
    idleSecondsBefore := Some(gap.value.seconds);
  }

  /** The write phases for a first-time event id. Either the whole step happened in
      the transaction, or the caller gets an error and must not commit. */
  method Record(tx: Tx, req: Request, capSeconds: int, now: Instant, ids: Minted) returns (r: Result<TaskPerformance, RecordError>)
    requires !tx.poisoned
    requires IsTimeline(tx.tables.standards, DefinitionsIn(tx.tables.outbox))
    requires forall k :: 0 <= k < |tx.tables.performances| ==> tx.tables.performances[k].eventId != req.kafkaEventId
    modifies tx
    ensures r.Ok? ==>
              && !tx.poisoned
              && req.kafkaEventId != "" && req.taskId != "" && ids.Wired()
              && CanFind(old(tx.tables).standards, req, r.value.standardSeconds)
              && r.value == Scored(req, r.value.standardSeconds)
              && tx.tables == Recorded(old(tx.tables), req, r.value.standardSeconds, capSeconds, now).(processed := old(tx.tables).processed)
    ensures r.Ok? && Monotone(DefinitionsIn(old(tx.tables).outbox)) ==>
              r.value.standardSeconds == SecondsAsOf(DefinitionsIn(old(tx.tables).outbox), req.taskType, req.completedAt)
    ensures r.Err? ==> (tx.poisoned <==> r.error.SqlFailed?)
    ensures r.Err? && r.error.Rejected? ==> req.kafkaEventId == "" || req.taskId == ""
    ensures r.Err? && r.error.NotEncoded? ==> !ids.Wired()
    ensures r.Err? ==> !r.error.CommitFailed?
    ensures old(tx.budget).None? ==> (r.Ok? <==> req.kafkaEventId != "" && req.taskId != "" && ids.Wired())
  {
    ghost var before := tx.tables;
    var ok, standardSeconds := StandardSecondsAtCompletion(tx, req);
    if !ok {
      return Err(SqlFailed);
    }
    var recorded := Performance.New(req.kafkaEventId, req.taskId, req.associateId, req.taskType, req.actualSeconds,
                                    standardSeconds, req.completedAt);
    if recorded.Err? {
      return Err(Rejected(recorded.error));
    }
    var p := recorded.value;
    var previous: Option<Instant>;
    ok, previous := PreviousCompletionFor(tx, req.associateId);
    if !ok {
      return Err(SqlFailed);
    }
    ok := SavePerformance(tx, p);
    if !ok {
      return Err(SqlFailed);
    }
    var idleSecondsBefore: Option<int>;
    ok, idleSecondsBefore := RecordIdleGap(tx, req, p, before.performances, previous, capSeconds);
    if !ok {
      return Err(SqlFailed);
    }
    var e := TaskPerformanceRecorded(now, p.taskId, p.associateId, p.taskType, p.actualSeconds, p.efficiencyPct, idleSecondsBefore, p.completedAt);
    var published := PublishRecorded(tx, e, ids);
    if !published.Published? {
      return Err(if published.EncodeFailed? then NotEncoded else SqlFailed);
    }
    return Ok(p);
  }

  /** Both encoders map a completion, so either one's missing id stops it. */
  method PublishRecorded(tx: Tx, e: DomainEvent, ids: Minted) returns (r: PublishResult)
    requires !tx.poisoned && e.TaskPerformanceRecorded? && e.taskId != ""
    modifies tx
    ensures r.Published? ==>
              && !tx.poisoned && ids.Wired()
              && tx.tables == old(tx.tables).(outbox := old(tx.tables).outbox + [Pending(Analytics, e), Pending(Integration, e)])
    ensures r.InsertFailed? <==> tx.poisoned
    ensures r.EncodeFailed? ==> !ids.Wired()
    ensures old(tx.budget).None? ==> (r.Published? <==> ids.Wired())
  {
    r := Publish(tx, ENCODERS, [e], ids);
    RecordedPair(e);
    RefusalOfOne(e, ids);
  }

  /** Which encoder, if any, refuses a publication of one event. */
  lemma RefusalOfOne(e: DomainEvent, ids: Minted)
    requires e.TaskPerformanceRecorded? ==> e.taskId != ""
    ensures var k := FirstRefusal(ENCODERS, [e], ids, 0);
            && (ids.analytics == "" ==> k == 0)
            && (ids.analytics != "" && e.TaskPerformanceRecorded? && ids.integration == "" ==> k == 1)
            && (ids.analytics != "" && (!e.TaskPerformanceRecorded? || ids.integration != "") ==> k == |ENCODERS|)
  {
    assert ENCODERS[0] == Analytics && ENCODERS[1] == Integration;
    forall topic: Topic, id: string ensures Refuses(topic, [e], id) <==> Mapped(topic, e) && !Encodable(e, id) {
      assert e in [e];
    }
  }

  lemma RecordedPair(e: DomainEvent)
    ensures e.TaskPerformanceRecorded? ==> EncodedByAll(ENCODERS, [e]) == [Pending(Analytics, e), Pending(Integration, e)]
    ensures !e.TaskPerformanceRecorded? ==> EncodedByAll(ENCODERS, [e]) == [Pending(Analytics, e)]
    ensures !e.TaskPerformanceRecorded? ==> EncodedBy(Integration, [e]) == []
    ensures EncodedByAll(ENCODERS[..0], [e]) == []
  {
    assert Init([e]) == [];
    assert Init(ENCODERS) == [Analytics] && Init([Analytics]) == [];
    assert EncodedBy(Analytics, []) == [] == EncodedBy(Integration, []);
    assert ENCODERS[..0] == [];
    assert EncodedByAll([Analytics], [e]) == EncodedByAll([], [e]) + EncodedBy(Analytics, [e]);
  }

  lemma NewIdHasNoRow(t: Tables, eventId: string, capSeconds: int)
    requires Consistent(t, capSeconds) && eventId !in t.processed
    ensures forall k :: 0 <= k < |t.performances| ==> t.performances[k].eventId != eventId
  {
    forall k | 0 <= k < |t.performances| ensures t.performances[k].eventId != eventId {
      assert t.performances[k].eventId in t.processed;
    }
  }

  /** The unit of work's callback: the marker first, the writes only for a new id. */
  method RecordInScope(tx: Tx, req: Request, capSeconds: int, now: Instant, ids: Minted)
    returns (r: Result<Option<TaskPerformance>, RecordError>)
    requires !tx.poisoned && Consistent(tx.tables, capSeconds)
    modifies tx
    ensures r == Ok(None) ==> !tx.poisoned && tx.tables == old(tx.tables) && req.kafkaEventId in tx.tables.processed
    ensures r.Ok? && r.value.Some? ==>
              var seconds := r.value.value.standardSeconds;
              && !tx.poisoned && req.kafkaEventId !in old(tx.tables).processed
              && req.kafkaEventId != "" && req.taskId != ""
              && r.value.value == Scored(req, seconds)
              && CanFind(old(tx.tables).standards, req, seconds)
              && (Monotone(DefinitionsIn(old(tx.tables).outbox)) ==>
                    seconds == SecondsAsOf(DefinitionsIn(old(tx.tables).outbox), req.taskType, req.completedAt))
              && tx.tables == Recorded(old(tx.tables), req, seconds, capSeconds, now)
    ensures old(tx.budget).None? ==>
              (r.Err? <==> req.kafkaEventId !in old(tx.tables).processed && (req.kafkaEventId == "" || req.taskId == "" || !ids.Wired()))
  {
    ghost var before := tx.tables;
    var ok, isNew := MarkProcessed(tx, req.kafkaEventId);
    if !ok {
      return Err(SqlFailed);
    }
    if !isNew {
      assert tx.tables == before;
      return Ok(None);
    }
    NewIdHasNoRow(before, req.kafkaEventId, capSeconds);
    var p := Record(tx, req, capSeconds, now, ids);
    if p.Err? {
      return Err(p.error);
    }
    assert tx.tables == Recorded(before, req, p.value.standardSeconds, capSeconds, now);
    return Ok(Some(p.value));
  }

  /** Idempotent on the Kafka event id, atomic under every fault, whatever clock the
      standards were defined by. */
  method RecordTaskPerformance(db: Database, req: Request, capSeconds: int, now: Instant, ids: Minted, fault: Fault)
    returns (r: Result<Option<TaskPerformance>, RecordError>)
    requires Consistent(db.committed, capSeconds)
    modifies db
    ensures Consistent(db.committed, capSeconds)
    ensures DefinitionsIn(db.committed.outbox) == DefinitionsIn(old(db.committed).outbox)
    ensures r == Ok(None) ==> db.committed == old(db.committed) && req.kafkaEventId in db.committed.processed
    ensures r.Ok? && r.value.Some? ==>
              var seconds := r.value.value.standardSeconds;
              && req.kafkaEventId !in old(db.committed).processed
              && r.value.value == Scored(req, seconds) && RowOfRequest(r.value.value, req)
              && db.committed.performances == old(db.committed).performances + [r.value.value]
              && db.committed.processed == old(db.committed).processed + {req.kafkaEventId}
              && CanFind(old(db.committed).standards, req, seconds)
              && (Monotone(DefinitionsIn(old(db.committed).outbox)) ==>
                    seconds == SecondsAsOf(DefinitionsIn(old(db.committed).outbox), req.taskType, req.completedAt))
              && db.committed == Recorded(old(db.committed), req, seconds, capSeconds, now)
    ensures r.Err? && fault.commit != AppliedUnacknowledged ==> db.committed == old(db.committed)
    ensures db.committed != old(db.committed) ==>
              && req.kafkaEventId !in old(db.committed).processed && req.kafkaEventId != "" && req.taskId != ""
              && RecordsOnce(old(db.committed), db.committed, req, capSeconds, now)
    ensures fault == NO_FAULT ==>
              (r.Err? <==> req.kafkaEventId !in old(db.committed).processed && (req.kafkaEventId == "" || req.taskId == "" || !ids.Wired()))
  {
    ghost var before := db.committed;
    var tx := db.Begin(fault);
    r := RecordInScope(tx, req, capSeconds, now, ids);
    if r.Err? {
      return;
    }
    if r.value.Some? {
      ScoredIsOfRequest(req, r.value.value.standardSeconds);
      RecordedKeepsConsistent(before, req, r.value.value.standardSeconds, capSeconds, now);
    }
    var acknowledged := db.Commit(tx);
    if !acknowledged {
      r := Err(CommitFailed);
    }
  }

  // --- DefineStandard --------------------------------------------------------------

  datatype DefineError = StatementFailed | Invalid(cause: Standards.Error) | EventNotEncoded | NotCommitted

  /** The use case inside the transaction already bound to its context: it joins
      that scope and rolls nothing back itself. A message that cannot be built is the
      one failure that is not an SQL error, and so leaves the scope usable. */
  method DefineStandardIn(tx: Tx, d: Definition, ids: Minted) returns (r: Result<LaborStandard, DefineError>)
    requires !tx.poisoned && d.id !in tx.tables.standards
    requires IsTimeline(tx.tables.standards, DefinitionsIn(tx.tables.outbox))
    modifies tx
    ensures r.Ok? ==> !tx.poisoned && tx.tables == Defined(old(tx.tables), d)
    ensures r.Ok? ==>
              && |tx.tables.outbox| == |old(tx.tables).outbox| + 1 && old(tx.tables).outbox <= tx.tables.outbox
              && AnnouncesDefinition(tx.tables.outbox[|old(tx.tables).outbox|], d, old(tx.tables).standards)
    ensures r.Ok? ==> Validate(d.expectedSeconds, d.travelComponentSeconds).None?
                      && r.value.Row() == StandardRow(d.id, d.taskType, d.expectedSeconds, d.travelComponentSeconds, d.at, None)
    ensures r.Err? && r.error.StatementFailed? ==> tx.poisoned
    ensures r.Ok? ==> ids.analytics != ""
    ensures r.Err? && r.error.Invalid? ==>
              !tx.poisoned && tx.tables == old(tx.tables) && Validate(d.expectedSeconds, d.travelComponentSeconds) == Some(r.error.cause)
    ensures r.Err? && r.error.EventNotEncoded? ==>
              && !tx.poisoned && ids.analytics == "" && Validate(d.expectedSeconds, d.travelComponentSeconds).None?
              && tx.tables == old(tx.tables).(standards := Supersede(old(tx.tables).standards, d))
    ensures r.Err? ==> !r.error.NotCommitted?
    ensures old(tx.budget).None? ==> tx.budget.None? && !tx.poisoned
    ensures old(tx.budget).None? ==>
              (r.Ok? <==> Validate(d.expectedSeconds, d.travelComponentSeconds).None? && ids.analytics != "")
  {
    ghost var before := tx.tables;
    ghost var defs := DefinitionsIn(before.outbox);
    TimelineRowsCarryTheirId(before.standards, defs);
    OneOpenRow(before.standards, defs, d.taskType);
    var ok, prior := FindCurrentlyActive(tx, d.taskType);
    if !ok {
      return Err(StatementFailed);
    }
    var next := NewStandard(d.id, d.taskType, d.expectedSeconds, d.travelComponentSeconds, d.at);
    if next.Err? {
      return Err(Invalid(next.error));
    }
    if prior != null {
      PriorIsLatest(before.standards, defs, d.taskType, prior.id);
    }
    ok := SaveSuccession(tx, prior, next.value, d);
    if !ok {
      return Err(StatementFailed);
    }
    var e := if prior != null
      then LaborStandardRevised(d.at, d.id, d.taskType, prior.expectedSeconds, d.expectedSeconds, d.travelComponentSeconds, d.at)
      else LaborStandardDefined(d.at, d.id, d.taskType, d.expectedSeconds, d.travelComponentSeconds, d.at);
    assert e == DefinedEvent(defs, d);
    DefinedEventAnnounces(before.standards, defs, d);
    var published := PublishDefinition(tx, e, ids);
    if published.EncodeFailed? {
      return Err(EventNotEncoded);
    }
    if published.InsertFailed? {
      return Err(StatementFailed);
    }
    return Ok(next.value);
  }

  /** Closes the prior standard if there is one, then saves both records. */
  method SaveSuccession(tx: Tx, prior: LaborStandard?, next: LaborStandard, d: Definition) returns (ok: bool)
    requires !tx.poisoned && d.id !in tx.tables.standards
    requires next.Row() == StandardRow(d.id, d.taskType, d.expectedSeconds, d.travelComponentSeconds, d.at, None)
    requires OpenIds(tx.tables.standards, d.taskType) == if prior == null then {} else {prior.id}
    requires prior != null ==> prior != next && prior.id in tx.tables.standards && prior.Row() == tx.tables.standards[prior.id]
    modifies tx, prior
    ensures ok <==> !tx.poisoned
    ensures ok ==> tx.tables == old(tx.tables).(standards := Supersede(old(tx.tables).standards, d))
    ensures next.Row() == old(next.Row())
    ensures old(tx.budget).None? ==> tx.budget.None? && ok
  {
    ghost var rows := tx.tables.standards;
    if prior != null {
      assert prior.id in OpenIds(rows, d.taskType);
      prior.Close(d.at);
      ok := SaveStandard(tx, prior);
      if !ok {
        return;
      }
    }
    ok := SaveStandard(tx, next);
    if ok {
      forall id | id in rows && (prior == null || id != prior.id)
        ensures !(rows[id].taskType == d.taskType && rows[id].effectiveTo.None?)
      {
        assert id !in OpenIds(rows, d.taskType);
      }
      assert tx.tables.standards == Supersede(rows, d);
    }
  }

  /** Only the analytics encoder maps a definition, so without its id no row is written at all. */
  method PublishDefinition(tx: Tx, e: DomainEvent, ids: Minted) returns (r: PublishResult)
    requires !tx.poisoned && !e.TaskPerformanceRecorded?
    modifies tx
    ensures r.Published? ==> !tx.poisoned && tx.tables == old(tx.tables).(outbox := old(tx.tables).outbox + [Pending(Analytics, e)])
    ensures r.InsertFailed? <==> tx.poisoned
    ensures r.EncodeFailed? ==> ids.analytics == "" && tx.tables == old(tx.tables)
    ensures r.Published? ==> ids.analytics != ""
    ensures old(tx.budget).None? ==> tx.budget.None? && !tx.poisoned
    ensures old(tx.budget).None? ==> (r.Published? <==> ids.analytics != "")
  {
    r := Publish(tx, ENCODERS, [e], ids);
    RecordedPair(e);
    RefusalOfOne(e, ids);
  }

  lemma PriorIsLatest(rows: map<nat, StandardRow>, defs: seq<Definition>, taskType: string, id: nat)
    requires IsTimeline(rows, defs) && id in OpenIds(rows, taskType)
    ensures Latest(defs, taskType).Some? && Latest(defs, taskType).value.id == id
    ensures Latest(defs, taskType).value.expectedSeconds == rows[id].expectedSeconds
  {
    OneOpenRow(rows, defs, taskType);
    LatestIsDefined(defs, taskType);
    var i :| 0 <= i < |defs| && defs[i] == Latest(defs, taskType).value;
    assert rows[defs[i].id] == RowOf(defs, i);
  }

  /** On its own, the use case commits the whole definition or nothing. */
  method DefineStandard(db: Database, d: Definition, ids: Minted, capSeconds: int, fault: Fault)
    returns (r: Result<LaborStandard, DefineError>)
    requires Consistent(db.committed, capSeconds) && d.id !in db.committed.standards
    modifies db
    ensures Consistent(db.committed, capSeconds)
    ensures r.Ok? ==> db.committed == Defined(old(db.committed), d)
    ensures r.Err? ==> db.committed == old(db.committed) ||
                       (fault.commit == AppliedUnacknowledged && db.committed == Defined(old(db.committed), d))
    ensures db.committed != old(db.committed) ==> Validate(d.expectedSeconds, d.travelComponentSeconds).None? && ids.analytics != ""
    ensures db.committed != old(db.committed) ==>
              && |db.committed.outbox| == |old(db.committed).outbox| + 1 && old(db.committed).outbox <= db.committed.outbox
              && AnnouncesDefinition(db.committed.outbox[|old(db.committed).outbox|], d, old(db.committed).standards)
    ensures fault == NO_FAULT ==>
              (r.Ok? <==> Validate(d.expectedSeconds, d.travelComponentSeconds).None? && ids.analytics != "")
  {
    ghost var before := db.committed;
    var tx := db.Begin(fault);
    r := DefineStandardIn(tx, d, ids);
    if r.Err? {
      return;
    }
    DefinedKeepsConsistent(before, d, capSeconds);
    var acknowledged := db.Commit(tx);
    if !acknowledged {
      return Err(NotCommitted);
    }
  }
}
