/** Whole runs of the two writing use cases: what recording late, or out of
    order, cannot change. */
module FrozenScoring {
  import opened Base
  import opened Performance
  import opened Standards
  import opened Oltp
  import opened Consistency
  import opened UseCases

  /** `choice` is the row the unordered as-of query happens to return, if it is in force. */
  datatype Op = Complete(req: Request, now: Instant, choice: nat) | Define(d: Definition)

  /** The seconds of the chosen row if it is in force, of another one in force if not. */
  ghost function PickedSeconds(rows: map<nat, StandardRow>, req: Request, choice: nat): (seconds: int)
    ensures CanFind(rows, req, seconds)
  {
    var active := ActiveIds(rows, req.taskType, req.completedAt);
    if req.taskType == "" || active == {} then 0
    else if choice in active then rows[choice].expectedSeconds
    else var id :| id in active; rows[id].expectedSeconds
  }

  /** Every seconds the query may find are picked by some choice. */
  lemma SomeChoicePicks(rows: map<nat, StandardRow>, req: Request, seconds: int) returns (choice: nat)
    requires CanFind(rows, req, seconds)
    ensures PickedSeconds(rows, req, choice) == seconds
  {
    var active := ActiveIds(rows, req.taskType, req.completedAt);
    choice := 0;
    if req.taskType != "" && active != {} {
      choice :| choice in active && rows[choice].expectedSeconds == seconds;
    }
  }

  /** One use case call that commits, or changes nothing: a duplicate or empty id,
      an invalid standard. */
  ghost function Step(t: Tables, op: Op, capSeconds: int): Tables {
    match op
    case Complete(req, now, choice) =>
      if req.kafkaEventId in t.processed || req.kafkaEventId == "" || req.taskId == "" then t
      else Recorded(t, req, PickedSeconds(t.standards, req, choice), capSeconds, now)
    case Define(d) =>
      if d.id in t.standards || Validate(d.expectedSeconds, d.travelComponentSeconds).Some? then t else Defined(t, d)
  }

  ghost function Run(ops: seq<Op>, capSeconds: int): Tables {
    if ops == [] then EMPTY else Step(Run(Init(ops), capSeconds), Last(ops), capSeconds)
  }

  lemma StepKeepsConsistent(t: Tables, op: Op, capSeconds: int)
    requires Consistent(t, capSeconds)
    ensures Consistent(Step(t, op, capSeconds), capSeconds)
  {
    if Step(t, op, capSeconds) != t {
      match op {
        case Complete(req, now, choice) =>
          RecordedKeepsConsistent(t, req, PickedSeconds(t.standards, req, choice), capSeconds, now);
        case Define(d) => DefinedKeepsConsistent(t, d, capSeconds);
      }
    }
  }

  lemma {:induction false} EveryRunIsConsistent(ops: seq<Op>, capSeconds: int)
    ensures Consistent(Run(ops, capSeconds), capSeconds)
  {
    if ops != [] {
      EveryRunIsConsistent(Init(ops), capSeconds);
      StepKeepsConsistent(Run(Init(ops), capSeconds), Last(ops), capSeconds);
    }
  }

  /** The clock does not run backwards over the definitions, and no definition is
      made at or before an already recorded completion of its type. */
  ghost predicate Timely(ops: seq<Op>) {
    forall i, j :: 0 <= i < j < |ops| && ops[j].Define? ==>
      match ops[i]
      case Define(d) => d.at <= ops[j].d.at
      case Complete(req, _, _) => req.taskType == ops[j].d.taskType ==> req.completedAt < ops[j].d.at
  }

  ghost predicate CameFrom(p: TaskPerformance, op: Op) {
    && op.Complete?
    && p == Scored(op.req, p.standardSeconds)
  }

  lemma {:induction false} RowsComeFromCompletions(ops: seq<Op>, capSeconds: int)
    ensures forall p :: p in Run(ops, capSeconds).performances ==> exists i :: 0 <= i < |ops| && CameFrom(p, ops[i])
  {
    if ops != [] {
      RowsComeFromCompletions(Init(ops), capSeconds);
      var t := Run(Init(ops), capSeconds);
      forall p | p in Run(ops, capSeconds).performances ensures exists i :: 0 <= i < |ops| && CameFrom(p, ops[i]) {
        if p in t.performances {
          var i :| 0 <= i < |Init(ops)| && CameFrom(p, Init(ops)[i]);
          assert CameFrom(p, ops[i]);
        } else {
          assert CameFrom(p, ops[|ops| - 1]);
        }
      }
    }
  }

  /** The row's frozen standard is still what an as-of lookup gives. */
  ghost predicate StillTrue(p: TaskPerformance, t: Tables) {
    p.standardSeconds == SecondsAsOf(DefinitionsIn(t.outbox), p.taskType, p.completedAt)
  }

  /** A later definition contradicts a frozen score exactly when it is of the same
      type, was made at or before the completion, and sets other seconds. */
  lemma {:induction false} DefinitionContradictsScoreIff(t: Tables, d: Definition, p: TaskPerformance, capSeconds: int)
    requires Consistent(t, capSeconds) && d.id !in t.standards && StillTrue(p, t)
    ensures StillTrue(p, Defined(t, d)) <==>
            !(p.taskType != "" && d.taskType == p.taskType && d.at <= p.completedAt && d.expectedSeconds != p.standardSeconds)
  {
    DefinedKeepsConsistent(t, d, capSeconds);
    OneMoreDefinition(DefinitionsIn(t.outbox), d, p.taskType, p.completedAt);
  }

  lemma OneMoreDefinition(defs: seq<Definition>, d: Definition, taskType: string, t: Instant)
    ensures SecondsAsOf(defs + [d], taskType, t) ==
            if taskType != "" && d.taskType == taskType && d.at <= t then d.expectedSeconds else SecondsAsOf(defs, taskType, t)
  {
    AppendParts(defs, d);
  }

  /** The definitions a run accepts. */
  function Accepted(ops: seq<Op>): seq<Definition> {
    if ops == [] then []
    else
      var before := Accepted(Init(ops));
      if Last(ops).Define? && Validate(Last(ops).d.expectedSeconds, Last(ops).d.travelComponentSeconds).None?
         && (forall i :: 0 <= i < |before| ==> before[i].id != Last(ops).d.id)
      then before + [Last(ops).d] else before
  }

  lemma CompletionsAnnounceNoDefinition(t: Tables, req: Request, now: Instant, choice: nat, capSeconds: int)
    ensures DefinitionsIn(Step(t, Complete(req, now, choice), capSeconds).outbox) == DefinitionsIn(t.outbox)
  {
    var p := Scored(req, PickedSeconds(t.standards, req, choice));
    AppendRecordedPair(t.outbox, RecordedEvent(t.performances, p, capSeconds, now));
  }

  /** An id is new to the table exactly when no announced definition has it. */
  lemma DefinitionIsAnnounced(t: Tables, d: Definition, capSeconds: int)
    requires Consistent(t, capSeconds)
    ensures var defs := DefinitionsIn(t.outbox);
            DefinitionsIn(Step(t, Define(d), capSeconds).outbox) ==
            if Validate(d.expectedSeconds, d.travelComponentSeconds).None? && (forall i :: 0 <= i < |defs| ==> defs[i].id != d.id)
            then defs + [d] else defs
  {
    assert d.id in t.standards <==> exists i :: 0 <= i < |DefinitionsIn(t.outbox)| && DefinitionsIn(t.outbox)[i].id == d.id;
    if d.id !in t.standards { DefinedKeepsConsistent(t, d, capSeconds); }
  }

  lemma {:induction false} AnnouncedAreAccepted(ops: seq<Op>, capSeconds: int)
    ensures DefinitionsIn(Run(ops, capSeconds).outbox) == Accepted(ops)
  {
    if ops != [] {
      AnnouncedAreAccepted(Init(ops), capSeconds);
      EveryRunIsConsistent(Init(ops), capSeconds);
      match Last(ops) {
        case Complete(req, now, choice) =>
          CompletionsAnnounceNoDefinition(Run(Init(ops), capSeconds), req, now, choice, capSeconds);
        case Define(d) => DefinitionIsAnnounced(Run(Init(ops), capSeconds), d, capSeconds);
      }
    }
  }

  lemma {:induction false} AcceptedWereDefined(ops: seq<Op>)
    ensures forall d :: d in Accepted(ops) ==> exists i :: 0 <= i < |ops| && ops[i] == Define(d)
  {
    if ops != [] {
      AcceptedWereDefined(Init(ops));
      forall d | d in Accepted(ops) ensures exists i :: 0 <= i < |ops| && ops[i] == Define(d) {
        if d in Accepted(Init(ops)) {
          var i :| 0 <= i < |Init(ops)| && Init(ops)[i] == Define(d);
          assert ops[i] == Define(d);
        } else {
          assert ops[|ops| - 1] == Define(d);
        }
      }
    }
  }

  lemma {:induction false} AcceptedAreMonotone(ops: seq<Op>)
    requires Timely(ops)
    ensures Monotone(Accepted(ops))
  {
    if ops != [] {
      TimelyInit(ops);
      AcceptedAreMonotone(Init(ops));
      AcceptedWereDefined(Init(ops));
      if Last(ops).Define? {
        forall d | d in Accepted(Init(ops)) ensures d.at <= Last(ops).d.at {
          var i :| 0 <= i < |Init(ops)| && Init(ops)[i] == Define(d);
          assert ops[i] == Define(d) && ops[|ops| - 1] == Last(ops);
        }
      }
    }
  }

  lemma AnnouncedAreMonotone(ops: seq<Op>, capSeconds: int)
    requires Timely(ops)
    ensures Monotone(DefinitionsIn(Run(ops, capSeconds).outbox))
  {
    AnnouncedAreAccepted(ops, capSeconds);
    AcceptedAreMonotone(ops);
  }

  /** Recording scores against the reference lookup, and announces no definition. */
  lemma RecordingIsTrue(t: Tables, req: Request, now: Instant, choice: nat, capSeconds: int)
    requires Consistent(t, capSeconds) && Monotone(DefinitionsIn(t.outbox))
    ensures var next := Step(t, Complete(req, now, choice), capSeconds);
            && DefinitionsIn(next.outbox) == DefinitionsIn(t.outbox)
            && forall p :: p in next.performances && p !in t.performances ==> StillTrue(p, next)
  {
    CompletionsAnnounceNoDefinition(t, req, now, choice, capSeconds);
    FoundIsAsOf(t.standards, DefinitionsIn(t.outbox), req, PickedSeconds(t.standards, req, choice));
  }

  lemma TimelyInit(ops: seq<Op>)
    requires Timely(ops) && ops != []
    ensures Timely(Init(ops))
  {
    assert forall i :: 0 <= i < |Init(ops)| ==> Init(ops)[i] == ops[i];
  }

  lemma {:induction false} FrozenScoresStayTrue(ops: seq<Op>, capSeconds: int)
    requires Timely(ops)
    ensures forall p :: p in Run(ops, capSeconds).performances ==> StillTrue(p, Run(ops, capSeconds))
  {
    if ops != [] {
      var t, op := Run(Init(ops), capSeconds), Last(ops);
      TimelyInit(ops);
      FrozenScoresStayTrue(Init(ops), capSeconds);
      EveryRunIsConsistent(Init(ops), capSeconds);
      match op {
        case Complete(req, now, choice) =>
          AnnouncedAreMonotone(Init(ops), capSeconds);
          RecordingIsTrue(t, req, now, choice, capSeconds);
        case Define(d) =>
          if Step(t, op, capSeconds) != t { TimelyDefinitionKeepsScores(ops, d, capSeconds); }
      }
    }
  }

  lemma TimelyDefinitionKeepsScores(ops: seq<Op>, d: Definition, capSeconds: int)
    requires Timely(ops) && ops != [] && Last(ops) == Define(d)
    requires var t := Run(Init(ops), capSeconds);
             && Consistent(t, capSeconds) && d.id !in t.standards
             && forall p :: p in t.performances ==> StillTrue(p, t)
    ensures var next := Defined(Run(Init(ops), capSeconds), d); forall p :: p in next.performances ==> StillTrue(p, next)
  {
    var t := Run(Init(ops), capSeconds);
    RowsComeFromCompletions(Init(ops), capSeconds);
    forall p | p in t.performances ensures StillTrue(p, Defined(t, d)) {
      var i :| 0 <= i < |Init(ops)| && CameFrom(p, Init(ops)[i]);
      assert ops[i] == Init(ops)[i] && ops[|ops| - 1].Define?;
      DefinitionContradictsScoreIff(t, d, p, capSeconds);
    }
  }

  ghost predicate Completes(ops: seq<Op>, req: Request) {
    exists i :: 0 <= i < |ops| && ops[i].Complete? && ops[i].req == req
  }

  lemma {:induction false} EveryCompletionIsRecorded(ops: seq<Op>, capSeconds: int, req: Request)
    requires Completes(ops, req) && req.kafkaEventId != "" && req.taskId != ""
    ensures req.kafkaEventId in Run(ops, capSeconds).processed
  {
    var i :| 0 <= i < |ops| && ops[i].Complete? && ops[i].req == req;
    if i < |ops| - 1 {
      assert Init(ops)[i] == ops[i];
      EveryCompletionIsRecorded(Init(ops), capSeconds, req);
    }
  }

  /** An event id names one completion. */
  ghost predicate IdsIdentify(ops: seq<Op>) {
    forall r, s :: Completes(ops, r) && Completes(ops, s) && r.kafkaEventId == s.kafkaEventId ==> r == s
  }

  /** The score a completion gets from a sequence of definitions alone. */
  function ReferenceScore(req: Request, defs: seq<Definition>): TaskPerformance {
    Scored(req, SecondsAsOf(defs, req.taskType, req.completedAt))
  }

  /** Every recorded row is some completion's reference score. */
  lemma {:induction false} RowIsReferenceScore(ops: seq<Op>, capSeconds: int, p: TaskPerformance) returns (req: Request)
    requires Timely(ops) && p in Run(ops, capSeconds).performances
    ensures Completes(ops, req) && p == ReferenceScore(req, Accepted(ops))
    ensures req.kafkaEventId != "" && req.taskId != ""
  {
    RowsComeFromCompletions(ops, capSeconds);
    var i :| 0 <= i < |ops| && CameFrom(p, ops[i]);
    req := ops[i].req;
    assert Completes(ops, req);
    FrozenScoresStayTrue(ops, capSeconds);
    AnnouncedAreAccepted(ops, capSeconds);
    EveryRunIsConsistent(ops, capSeconds);
    var k :| 0 <= k < |Run(ops, capSeconds).performances| && Run(ops, capSeconds).performances[k] == p;
    assert WellFormed(Run(ops, capSeconds).performances[k]);
  }

  /** And every completion's reference score is recorded. */
  lemma ReferenceScoreIsRecorded(ops: seq<Op>, capSeconds: int, req: Request)
    requires Timely(ops) && IdsIdentify(ops) && Completes(ops, req) && req.kafkaEventId != "" && req.taskId != ""
    ensures ReferenceScore(req, Accepted(ops)) in Run(ops, capSeconds).performances
  {
    EveryCompletionIsRecorded(ops, capSeconds, req);
    EveryRunIsConsistent(ops, capSeconds);
    var rows := Run(ops, capSeconds).performances;
    var k :| 0 <= k < |rows| && rows[k].eventId == req.kafkaEventId;
    var other := RowIsReferenceScore(ops, capSeconds, rows[k]);
    assert other.kafkaEventId == req.kafkaEventId;
  }

  /** Recording order does not matter: two runs of the same completions and the
      same definitions, however interleaved, however often redelivered, record the
      same rows with the same frozen standards and efficiencies. */
  lemma {:induction false} ScoresAreOrderFree(ops: seq<Op>, ops': seq<Op>, capSeconds: int)
    requires Timely(ops) && Timely(ops') && Accepted(ops) == Accepted(ops')
    requires forall req :: Completes(ops, req) <==> Completes(ops', req)
    requires IdsIdentify(ops)
    ensures forall p :: p in Run(ops, capSeconds).performances <==> p in Run(ops', capSeconds).performances
  {
    forall p | p in Run(ops, capSeconds).performances ensures p in Run(ops', capSeconds).performances {
      var req := RowIsReferenceScore(ops, capSeconds, p);
      ReferenceScoreIsRecorded(ops', capSeconds, req);
    }
    forall p | p in Run(ops', capSeconds).performances ensures p in Run(ops, capSeconds).performances {
      var req := RowIsReferenceScore(ops', capSeconds, p);
      ReferenceScoreIsRecorded(ops, capSeconds, req);
    }
  }

  // --- Runs of the use cases themselves ------------------------------------------------

  datatype Call =
    | RecordCall(req: Request, now: Instant, ids: Minted, fault: Fault)
    | DefineCall(d: Definition, ids: Minted, fault: Fault)

  lemma RecordedIsStep(t: Tables, next: Tables, req: Request, capSeconds: int, now: Instant) returns (op: Op)
    requires RecordsOnce(t, next, req, capSeconds, now)
    requires req.kafkaEventId !in t.processed && req.kafkaEventId != "" && req.taskId != ""
    ensures op.Complete? && op.req == req && next == Step(t, op, capSeconds)
  {
    var seconds :| CanFind(t.standards, req, seconds) && next == Recorded(t, req, seconds, capSeconds, now);
    var choice := SomeChoicePicks(t.standards, req, seconds);
    op := Complete(req, now, choice);
  }

  method PerformRecord(db: Database, req: Request, now: Instant, ids: Minted, fault: Fault, capSeconds: int) returns (ghost op: Option<Op>)
    requires Consistent(db.committed, capSeconds)
    modifies db
    ensures Consistent(db.committed, capSeconds)
    ensures op.None? ==> db.committed == old(db.committed)
    ensures op.Some? ==> op.value.Complete? && op.value.req == req && db.committed == Step(old(db.committed), op.value, capSeconds)
  {
    ghost var before := db.committed;
    op := None;
    var r := RecordTaskPerformance(db, req, capSeconds, now, ids, fault);
    if db.committed != before {
      ghost var step := RecordedIsStep(before, db.committed, req, capSeconds, now);
      op := Some(step);
    }
  }

  method PerformDefine(db: Database, d: Definition, ids: Minted, fault: Fault, capSeconds: int) returns (ghost op: Option<Op>)
    requires Consistent(db.committed, capSeconds) && d.id !in db.committed.standards
    modifies db
    ensures Consistent(db.committed, capSeconds)
    ensures op.None? ==> db.committed == old(db.committed)
    ensures op.Some? ==> op.value == Define(d) && db.committed == Step(old(db.committed), op.value, capSeconds)
  {
    ghost var before := db.committed;
    var r := DefineStandard(db, d, ids, capSeconds, fault);
    op := None;
    if db.committed != before {
      op := Some(Define(d));
      assert db.committed == Defined(before, d);
    }
  }

  /** Any sequence of calls, each with its own fault and its own new id, ends where a
      run of operations does: what holds of every run holds of the database. */
  method PerformAll(db: Database, calls: seq<Call>, capSeconds: int) returns (ghost ops: seq<Op>)
    requires db.committed == EMPTY
    modifies db
    ensures db.committed == Run(ops, capSeconds) && |ops| <= |calls|
  {
    ops := [];
    EveryRunIsConsistent([], capSeconds);
    for k := 0 to |calls|
      invariant Consistent(db.committed, capSeconds)
      invariant db.committed == Run(ops, capSeconds) && |ops| <= k
    {
      ghost var op: Option<Op> := None;
      match calls[k] {
        case RecordCall(req, now, ids, fault) => op := PerformRecord(db, req, now, ids, fault, capSeconds);
        case DefineCall(d, ids, fault) =>
          if d.id !in db.committed.standards {
            op := PerformDefine(db, d, ids, fault, capSeconds);
          }
      }
      if op.Some? {
        AppendParts(ops, op.value);
        ops := ops + [op.value];
      }
    }
  }
}
