/** The fulfillment-events consumer: bounded retries, dead-letter topic, offset
    commits. A crash at any point shows as the remaining steps of that message
    failing, followed by a new session from the committed offset. */
module Consumers {
  import opened Base
  import opened Performance
  import opened Standards
  import opened Oltp
  import opened Consistency
  import opened UseCases
  import FrozenScoring
  import Relay

  const MAX_HANDLER_ATTEMPTS := 3
  const DLQ_TOPIC_READY_ATTEMPTS := 40

  /** What decoding and data extraction make of a message value. */
  datatype Decoded =
    | NotACloudEvent
    | OtherType
    | MalformedData
    | TaskCompleted(req: Request)

  datatype Message = Message(key: string, value: string, decoded: Decoded)

  datatype Cause = InvalidEvent | HandlerFailed

  datatype DeadLetter = DeadLetter(key: string, value: string, cause: Cause)

  datatype WriteOutcome = Written | WrittenUnacknowledged | TopicNotReady | WriteRefused

  /** What others do to the same database: the HTTP service defines a standard, another
      consumer of the partition handles a message, the relay commits a pass's marks. */
  datatype Interference =
    | Defines(d: Definition, ids: Minted, fault: Fault)
    | Handles(position: nat, now: Instant, ids: Minted, fault: Fault)
    | Marks(published: nat, count: nat, failed: bool)

  /** Everything outside the process while one message is handled: what others did
      meanwhile, per attempt the clock, the minted ids and the transaction's fate, after
      how many attempts shutdown strikes or the back-off's elapsed-time limit is reached,
      what each DLQ write does, and the offset commit. */
  datatype Env = Env(
    meanwhile: seq<Interference>,
    now: nat -> Instant,
    ids: nat -> Minted,
    fault: nat -> Fault,
    cancelledAfter: Option<nat>,
    elapsedAfter: Option<nat>,
    dlqWrite: nat -> WriteOutcome,
    offsetCommit: CommitOutcome)
  {
    /** No attempt follows this many failed ones, though fewer than the maximum. */
    predicate StopsAfter(attempts: nat) {
      || (cancelledAfter.Some? && cancelledAfter.value <= attempts)
      || (elapsedAfter.Some? && elapsedAfter.value <= attempts)
    }
  }

  ghost predicate InDlq(m: Message, dlq: seq<DeadLetter>) {
    exists k :: 0 <= k < |dlq| && dlq[k].key == m.key && dlq[k].value == m.value
  }

  /** The message needs no further handling. */
  ghost predicate Settled(m: Message, t: Tables, dlq: seq<DeadLetter>) {
    || m.decoded.OtherType?
    || (m.decoded.TaskCompleted? && m.decoded.req.kafkaEventId in t.processed)
    || InDlq(m, dlq)
  }

  /** Handling `m` at most once moved the tables, by exactly its recorded completion. */
  ghost predicate AtMostItsEffect(m: Message, before: Tables, after: Tables, capSeconds: int) {
    || after == before
    || (m.decoded.TaskCompleted?
        && m.decoded.req.kafkaEventId !in before.processed
        && m.decoded.req.kafkaEventId != "" && m.decoded.req.taskId != ""
        && exists now :: RecordsOnce(before, after, m.decoded.req, capSeconds, now))
  }

  /** Handling one fetched message left this behind. The offset moves past it only by its
      record, its type or its own dead letter; that letter says what was wrong. */
  ghost predicate MessageHandled(m: Message, before: Tables, after: Tables, dlq: seq<DeadLetter>, dlq': seq<DeadLetter>,
                                 moved: bool, capSeconds: int) {
    && AtMostItsEffect(m, before, after, capSeconds)
    && (dlq' == dlq || dlq' == dlq + [LetterFor(m)])
    && (m.decoded.OtherType? ==> dlq' == dlq)
    && (moved && dlq' == dlq ==>
          m.decoded.OtherType? || (m.decoded.TaskCompleted? && m.decoded.req.kafkaEventId in after.processed))
  }

  /** The raw key and payload, and why: not an event at all, or not handled. */
  function LetterFor(m: Message): DeadLetter {
    DeadLetter(m.key, m.value, if m.decoded.NotACloudEvent? then InvalidEvent else HandlerFailed)
  }

  /** A completion the use case accepts. */
  predicate Recordable(m: Message) {
    m.decoded.TaskCompleted? && m.decoded.req.kafkaEventId != "" && m.decoded.req.taskId != ""
  }

  /** The first attempt meets no fault. */
  ghost predicate Unharmed(env: Env) {
    env.ids(0).Wired() && env.fault(0) == NO_FAULT
  }

  /** The write that decides a dead-letter publish: the first that is not told the
      topic is not ready, or the last one allowed. */
  function LastWrite(env: Env, attempt: nat): WriteOutcome
    requires attempt <= DLQ_TOPIC_READY_ATTEMPTS
    decreases DLQ_TOPIC_READY_ATTEMPTS - attempt
  {
    if attempt == DLQ_TOPIC_READY_ATTEMPTS then TopicNotReady
    else if env.dlqWrite(attempt) != TopicNotReady then env.dlqWrite(attempt)
    else if env.cancelledAfter.Some? then TopicNotReady
    else LastWrite(env, attempt + 1)
  }

  /** The attempt after k failed ones is made, and meets no fault. */
  ghost predicate GoodAttempt(env: Env, k: nat) {
    env.ids(k).Wired() && env.fault(k) == NO_FAULT && forall j: nat :: 0 < j <= k ==> !env.StopsAfter(j)
  }

  /** The dead-letter write after k that found the topic not ready is made, and acknowledged. */
  ghost predicate GoodWrite(env: Env, k: nat) {
    && env.dlqWrite(k) == Written
    && (forall j: nat :: j < k ==> env.dlqWrite(j) == TopicNotReady)
    && (k > 0 ==> env.cancelledAfter.None?)
  }

  lemma {:induction false} LastWriteIsGood(env: Env, k: nat)
    requires k <= DLQ_TOPIC_READY_ATTEMPTS && (forall j: nat :: j < k ==> env.dlqWrite(j) == TopicNotReady)
    requires k > 0 ==> env.cancelledAfter.None?
    ensures LastWrite(env, k) == Written <==> exists i: nat :: k <= i < 40 && GoodWrite(env, i)
    decreases DLQ_TOPIC_READY_ATTEMPTS - k
  {
    if k < DLQ_TOPIC_READY_ATTEMPTS {
      if env.dlqWrite(k) == Written {
        assert GoodWrite(env, k);
      } else if env.dlqWrite(k) == TopicNotReady && env.cancelledAfter.None? {
        LastWriteIsGood(env, k + 1);
      } else {
        forall i: nat | k <= i < 40 ensures !GoodWrite(env, i) {
          assert i > k ==> k < i;
        }
      }
    }
  }

  /** The dead-letter topic takes the message and the offset commit is acknowledged. */
  ghost predicate Smooth(env: Env) {
    LastWrite(env, 0) == Written && env.offsetCommit == Acknowledged
  }

  ghost predicate SmoothUpTo(envs: seq<Env>, n: nat)
    requires n <= |envs|
  {
    forall k :: 0 <= k < n ==> Smooth(envs[k])
  }

  class Consumer {
    const db: Database
    const capSeconds: int
    var dlq: seq<DeadLetter>
    var offset: nat

    constructor (db: Database, capSeconds: int)
      ensures this.db == db && this.capSeconds == capSeconds && dlq == [] && offset == 0
    {
      this.db, this.capSeconds, dlq, offset := db, capSeconds, [], 0;
    }

    ghost predicate Valid()
      reads db
    {
      Consistent(db.committed, capSeconds)
    }

    /** Other event types are skipped; a completion is recorded, or fails. */
    method HandleFulfillmentEvent(m: Message, now: Instant, ids: Minted, fault: Fault) returns (failed: bool)
      requires Valid() && !m.decoded.NotACloudEvent?
      modifies db
      ensures Valid()
      ensures AtMostItsEffect(m, old(db.committed), db.committed, capSeconds)
      ensures !failed && m.decoded.TaskCompleted? ==> m.decoded.req.kafkaEventId in db.committed.processed
      ensures m.decoded.OtherType? ==> !failed && db.committed == old(db.committed)
      ensures m.decoded.MalformedData? ==> failed && db.committed == old(db.committed)
      ensures Recordable(m) && ids.Wired() && fault == NO_FAULT ==> !failed
    {
      if m.decoded.OtherType? {
        return false;
      }
      if m.decoded.MalformedData? {
        return true;
      }
      var r := RecordTaskPerformance(db, m.decoded.req, capSeconds, now, ids, fault);
      return r.Err?;
    }

    /** At most three attempts; the outcome of the last one decides. Whatever the
        attempts did, the completion took effect at most once. */
    method HandleWithRetry(m: Message, env: Env) returns (failed: bool, attempts: nat)
      requires Valid() && !m.decoded.NotACloudEvent?
      modifies db
      ensures Valid()
      ensures 1 <= attempts <= MAX_HANDLER_ATTEMPTS
      ensures attempts <= 3 && (failed ==> attempts == 3 || env.StopsAfter(attempts))
      ensures Recordable(m) ==> forall k: nat :: k < 3 && GoodAttempt(env, k) ==> !failed && attempts <= k + 1
      ensures AtMostItsEffect(m, old(db.committed), db.committed, capSeconds)
      ensures !failed && m.decoded.TaskCompleted? ==> m.decoded.req.kafkaEventId in db.committed.processed
      ensures m.decoded.OtherType? ==> !failed && attempts == 1 && db.committed == old(db.committed)
      ensures m.decoded.MalformedData? ==> failed
      ensures Recordable(m) && Unharmed(env) ==> !failed && attempts == 1
    {
      attempts, failed := 0, true;
      while failed && attempts < MAX_HANDLER_ATTEMPTS && (attempts == 0 || !env.StopsAfter(attempts))
        invariant attempts <= MAX_HANDLER_ATTEMPTS
        invariant attempts == 0 ==> failed && db.committed == old(db.committed)
        invariant Valid() && AtMostItsEffect(m, old(db.committed), db.committed, capSeconds)
        invariant !failed && m.decoded.TaskCompleted? ==> m.decoded.req.kafkaEventId in db.committed.processed
        invariant m.decoded.OtherType? && attempts > 0 ==> !failed && attempts == 1
        invariant m.decoded.OtherType? ==> db.committed == old(db.committed)
        invariant m.decoded.MalformedData? ==> failed
        invariant Recordable(m) && Unharmed(env) && attempts > 0 ==> !failed && attempts == 1
        invariant Recordable(m) ==> forall k: nat :: k < attempts && GoodAttempt(env, k) ==> !failed && attempts == k + 1
        decreases MAX_HANDLER_ATTEMPTS - attempts
      {
        failed := HandleFulfillmentEvent(m, env.now(attempts), env.ids(attempts), env.fault(attempts));
        attempts := attempts + 1;
      }
    }

    /** Publishes the raw payload, retrying only while the topic is being created. */
    method WriteDLQ(letter: DeadLetter, env: Env) returns (ok: bool)
      modifies this`dlq
      ensures var fate := LastWrite(env, 0);
              && (ok <==> fate == Written)
              && dlq == if fate == Written || fate == WrittenUnacknowledged then old(dlq) + [letter] else old(dlq)
      ensures ok <==> exists k: nat :: k < 40 && GoodWrite(env, k)
    {
      LastWriteIsGood(env, 0);
      ok := false;
      for attempt := 0 to DLQ_TOPIC_READY_ATTEMPTS
        invariant dlq == old(dlq) && !ok
        invariant LastWrite(env, 0) == LastWrite(env, attempt)
      {
        match env.dlqWrite(attempt) {
          case Written =>
            dlq := dlq + [letter];
            return true;
          case WrittenUnacknowledged =>
            dlq := dlq + [letter];
            return false;
          case WriteRefused => return false;
          case TopicNotReady =>
            if env.cancelledAfter.Some? {
              return false;
            }
        }
      }
    }

    method Commit(outcome: CommitOutcome) returns (ok: bool)
      modifies this`offset
      ensures ok <==> outcome == Acknowledged
      ensures offset == old(offset) + if outcome == Lost then 0 else 1
    {
      ok := outcome == Acknowledged;
      if outcome != Lost {
        offset := offset + 1;
      }
    }

    /** One fetched message. The offset moves past it only once it is settled, a
        failed dead-letter publish never moves it, and no message can block the
        partition while the dead-letter topic takes writes. */
    method HandleMessage(m: Message, env: Env) returns (ok: bool)
      requires Valid()
      modifies this, db
      ensures Valid()
      ensures offset == old(offset) || (offset == old(offset) + 1 && Settled(m, db.committed, dlq))
      ensures ok ==> offset == old(offset) + 1
      ensures MessageHandled(m, old(db.committed), db.committed, old(dlq), dlq, offset == old(offset) + 1, capSeconds)
      ensures dlq == old(dlq) || (|dlq| == |old(dlq)| + 1 && dlq[..|old(dlq)|] == old(dlq) && Last(dlq).key == m.key && Last(dlq).value == m.value)
      ensures dlq != old(dlq) ==> (Last(dlq).cause == InvalidEvent <==> m.decoded.NotACloudEvent?)
      ensures AtMostItsEffect(m, old(db.committed), db.committed, capSeconds)
      ensures m.decoded.OtherType? ==> dlq == old(dlq) && db.committed == old(db.committed)
      ensures Recordable(m) && (exists k: nat :: k < 3 && GoodAttempt(env, k)) ==>
                dlq == old(dlq) && m.decoded.req.kafkaEventId in db.committed.processed
      ensures Recordable(m) && Unharmed(env) ==> dlq == old(dlq) && m.decoded.req.kafkaEventId in db.committed.processed
      ensures Smooth(env) ==> ok
    {
      if m.decoded.NotACloudEvent? {
        var published := WriteDLQ(DeadLetter(m.key, m.value, InvalidEvent), env);
        if !published {
          return false;
        }
        assert dlq[|old(dlq)|] == Last(dlq);
        ok := Commit(env.offsetCommit);
        return;
      }
      var failed, _ := HandleWithRetry(m, env);
      if !failed {
        ok := Commit(env.offsetCommit);
        return;
      }
      var published := WriteDLQ(DeadLetter(m.key, m.value, HandlerFailed), env);
      if !published {
        return false;
      }
      assert dlq[|old(dlq)|] == Last(dlq);
      ok := Commit(env.offsetCommit);
    }

    /** Nothing below the committed offset was lost, and nothing was recorded that
        the log does not say. */
    ghost predicate Accounted(log: seq<Message>)
      reads this, db
    {
      && offset <= |log|
      && AllSettled(log, offset, db.committed, dlq)
      && FromLog(db.committed.performances, log)
    }

    /** One act of another writer. */
    method Interfere(log: seq<Message>, act: Interference)
      requires Valid() && Accounted(log)
      modifies db
      ensures Valid() && Accounted(log)
    {
      ghost var before := db.committed;
      match act {
        case Defines(d, ids, fault) =>
          if d.id !in db.committed.standards {
            ghost var op := FrozenScoring.PerformDefine(db, d, ids, fault, capSeconds);
            if op.Some? { InterferenceKeeps(log, offset, before, op.value, dlq, capSeconds, 0); }
          }
        case Handles(position, now, ids, fault) =>
          if position < |log| && log[position].decoded.TaskCompleted? {
            ghost var op := FrozenScoring.PerformRecord(db, log[position].decoded.req, now, ids, fault, capSeconds);
            if op.Some? { InterferenceKeeps(log, offset, before, op.value, dlq, capSeconds, position); }
          }
        case Marks(published, count, failed) =>
          var rows := db.committed.outbox;
          if published + count <= |rows| && (failed ==> published + count < |rows|) {
            Relay.PassRowsSameMessages(rows, published, count, failed);
            MarksKeepConsistent(before, Relay.PassRows(rows, published, count, failed), capSeconds);
            db.committed := db.committed.(outbox := Relay.PassRows(rows, published, count, failed));
            AllSettledSurvive(log, log, offset, before, db.committed, dlq, dlq);
          }
      }
    }

    /** Fetches and handles the message at the committed offset, after whatever others did. */
    method Advance(log: seq<Message>, env: Env) returns (ok: bool)
      requires Valid() && Accounted(log) && offset < |log|
      modifies this, db
      ensures Valid() && Accounted(log) && offset >= old(offset)
      ensures ok ==> offset == old(offset) + 1
      ensures Smooth(env) ==> ok
    {
      for k := 0 to |env.meanwhile|
        invariant Valid() && Accounted(log) && offset == old(offset) < |log|
      {
        Interfere(log, env.meanwhile[k]);
      }
      ghost var before, dead, at := db.committed, dlq, offset;
      ok := HandleMessage(log[offset], env);
      PrefixStaysSettled(log, at, before, db.committed, dead, dlq, capSeconds, offset);
    }

    /** One session: fetch from the committed offset until the log, the session or
        the loop ends. */
    method Run(log: seq<Message>, envs: seq<Env>)
      requires Valid() && Accounted(log)
      modifies this, db
      ensures Valid() && Accounted(log) && offset >= old(offset)
      ensures SmoothUpTo(envs, |envs|) ==> offset == Min(old(offset) + |envs|, |log|)
    {
      var k := 0;
      while k < |envs| && offset < |log|
        invariant Valid() && Accounted(log) && k <= |envs|
        invariant old(offset) <= offset == old(offset) + k
      {
        var ok := Advance(log, envs[k]);
        if !ok {
          return;
        }
        k := k + 1;
      }
    }

    /** Any number of sessions, each ending wherever it ends. */
    method Lifetime(log: seq<Message>, sessions: seq<seq<Env>>)
      requires Valid() && Accounted(log)
      modifies this, db
      ensures Valid() && Accounted(log) && offset >= old(offset)
    {
      for k := 0 to |sessions|
        invariant Valid() && Accounted(log) && offset >= old(offset)
      {
        Run(log, sessions[k]);
      }
    }
  }

  /** Every row records some message of the log, field for field. */
  ghost predicate FromLog(rows: seq<TaskPerformance>, log: seq<Message>) {
    forall p :: p in rows ==>
      exists i :: 0 <= i < |log| && log[i].decoded.TaskCompleted? && p == Scored(log[i].decoded.req, p.standardSeconds)
  }

  /** Every message before the offset is settled. */
  ghost predicate AllSettled(log: seq<Message>, offset: nat, t: Tables, dlq: seq<DeadLetter>)
    requires offset <= |log|
  {
    forall i :: 0 <= i < offset ==> Settled(log[i], t, dlq)
  }

  lemma PrefixStaysSettled(log: seq<Message>, at: nat, t: Tables, t': Tables, dlq: seq<DeadLetter>, dlq': seq<DeadLetter>,
                           capSeconds: int, offset: nat)
    requires at < |log| && AtMostItsEffect(log[at], t, t', capSeconds)
    requires |dlq| <= |dlq'| && dlq'[..|dlq|] == dlq
    requires AllSettled(log, at, t, dlq)
    requires offset == at || (offset == at + 1 && Settled(log[at], t', dlq'))
    ensures AllSettled(log, offset, t', dlq')
    ensures FromLog(t.performances, log) ==> FromLog(t'.performances, log)
  {
    StillSettled(log, at, t, t', dlq, dlq', capSeconds);
  }

  lemma InDlqGrows(m: Message, dlq: seq<DeadLetter>, dlq': seq<DeadLetter>)
    requires InDlq(m, dlq) && |dlq| <= |dlq'| && dlq'[..|dlq|] == dlq
    ensures InDlq(m, dlq')
  {
    var k :| 0 <= k < |dlq| && dlq[k].key == m.key && dlq[k].value == m.value;
    assert dlq'[..|dlq|][k] == dlq'[k];
  }

  lemma {:induction false} StillSettled(log: seq<Message>, at: nat, t: Tables, t': Tables, dlq: seq<DeadLetter>, dlq': seq<DeadLetter>,
                                        capSeconds: int)
    requires at < |log| && AtMostItsEffect(log[at], t, t', capSeconds)
    requires |dlq| <= |dlq'| && dlq'[..|dlq|] == dlq
    ensures forall i :: 0 <= i < |log| && Settled(log[i], t, dlq) ==> Settled(log[i], t', dlq')
    ensures FromLog(t.performances, log) ==> FromLog(t'.performances, log)
  {
    forall i | 0 <= i < |log| && Settled(log[i], t, dlq) ensures Settled(log[i], t', dlq') {
      if InDlq(log[i], dlq) { InDlqGrows(log[i], dlq, dlq'); }
    }
    if t' != t && FromLog(t.performances, log) {
      forall p | p in t'.performances
        ensures exists i :: 0 <= i < |log| && log[i].decoded.TaskCompleted? && p == Scored(log[i].decoded.req, p.standardSeconds)
      {
        if p !in t.performances {
          assert p == Scored(log[at].decoded.req, p.standardSeconds);
        }
      }
    }
  }

  ghost predicate IdsIdentifyMessages(log: seq<Message>) {
    forall j, k ::
      (0 <= j < |log| && 0 <= k < |log| && log[j].decoded.TaskCompleted? && log[k].decoded.TaskCompleted?
       && log[j].decoded.req.kafkaEventId == log[k].decoded.req.kafkaEventId) ==> log[j].decoded == log[k].decoded
  }

  /** When event ids identify messages, a settled completion that is not in the
      dead-letter topic has exactly one row, and it is that message's. */
  lemma {:induction false} SettledIsRecorded(log: seq<Message>, i: nat, t: Tables, dlq: seq<DeadLetter>, capSeconds: int)
    requires Consistent(t, capSeconds) && FromLog(t.performances, log)
    requires i < |log| && log[i].decoded.TaskCompleted? && Settled(log[i], t, dlq) && !InDlq(log[i], dlq)
    requires IdsIdentifyMessages(log)
    ensures exists k :: 0 <= k < |t.performances| && t.performances[k] == Scored(log[i].decoded.req, t.performances[k].standardSeconds)
                     && forall j :: 0 <= j < |t.performances| && t.performances[j].eventId == log[i].decoded.req.kafkaEventId ==> j == k
  {
    var id := log[i].decoded.req.kafkaEventId;
    var k :| 0 <= k < |t.performances| && t.performances[k].eventId == id;
    var j :| 0 <= j < |log| && log[j].decoded.TaskCompleted? && t.performances[k] == Scored(log[j].decoded.req, t.performances[k].standardSeconds);
    assert log[j].decoded == log[i].decoded;
  }

  // --- What settled messages survive ------------------------------------------------------

  lemma SettledSurvives(m: Message, t: Tables, t': Tables, dlq: seq<DeadLetter>, dlq': seq<DeadLetter>)
    requires t.processed <= t'.processed && dlq <= dlq'
    ensures Settled(m, t, dlq) ==> Settled(m, t', dlq')
  {
    if InDlq(m, dlq) { InDlqGrows(m, dlq, dlq'); }
  }

  lemma AllSettledSurvive(source: seq<Message>, source': seq<Message>, n: nat, t: Tables, t': Tables, dlq: seq<DeadLetter>, dlq': seq<DeadLetter>)
    requires n <= |source| && source <= source' && t.processed <= t'.processed && dlq <= dlq'
    requires AllSettled(source, n, t, dlq)
    ensures AllSettled(source', n, t', dlq')
  {
    forall i | 0 <= i < n ensures Settled(source'[i], t', dlq') {
      assert Settled(source[i], t, dlq);
      SettledSurvives(source[i], t, t', dlq, dlq');
    }
  }

  /** A use case step forgets no marker, and a completion adds at most its own row. */
  lemma StepMoves(t: Tables, op: FrozenScoring.Op, capSeconds: int)
    ensures var next := FrozenScoring.Step(t, op, capSeconds);
            && t.processed <= next.processed
            && (op.Define? ==> next.performances == t.performances)
            && (op.Complete? ==> forall p :: p in next.performances ==> p in t.performances || p == Scored(op.req, p.standardSeconds))
  {
  }

  lemma RowsStayFromLog(t: Tables, op: FrozenScoring.Op, capSeconds: int, source: seq<Message>, offset: nat)
    requires FromLog(t.performances, source)
    requires op.Complete? ==> offset < |source| && source[offset].decoded == TaskCompleted(op.req)
    ensures FromLog(FrozenScoring.Step(t, op, capSeconds).performances, source)
  {
    StepMoves(t, op, capSeconds);
    forall p | p in FrozenScoring.Step(t, op, capSeconds).performances
      ensures exists i :: 0 <= i < |source| && source[i].decoded.TaskCompleted? && p == Scored(source[i].decoded.req, p.standardSeconds)
    {
      if p !in t.performances {
        assert source[offset].decoded.TaskCompleted? && p == Scored(source[offset].decoded.req, p.standardSeconds);
      }
    }
  }

  lemma InterferenceKeeps(log: seq<Message>, n: nat, t: Tables, op: FrozenScoring.Op, dlq: seq<DeadLetter>, capSeconds: int, at: nat)
    requires n <= |log| && AllSettled(log, n, t, dlq) && FromLog(t.performances, log)
    requires op.Complete? ==> at < |log| && log[at].decoded == TaskCompleted(op.req)
    ensures AllSettled(log, n, FrozenScoring.Step(t, op, capSeconds), dlq) && FromLog(FrozenScoring.Step(t, op, capSeconds).performances, log)
  {
    StepMoves(t, op, capSeconds);
    RowsStayFromLog(t, op, capSeconds, log, at);
    AllSettledSurvive(log, log, n, t, FrozenScoring.Step(t, op, capSeconds), dlq, dlq);
  }
}
