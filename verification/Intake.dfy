/** The head of the pipeline: what the fulfillment consumer keeps while definitions, the
    relay and the projector act between any two of its steps. */
module Intake {
  import opened Base
  import opened Oltp
  import opened Consistency
  import opened Consumers
  import opened Pipeline
  import opened Accounting

  /** What the consumer's phase says about the message it is working on. */
  ghost predicate PhaseOk(s: State) {
    s.consumer.Fetching? ||
    (s.offset < |s.source| &&
     var m := s.source[s.offset];
     match s.consumer
     case Fetching => true
     case Handling(attempts) => attempts <= MAX_HANDLER_ATTEMPTS && !m.decoded.NotACloudEvent? && (attempts > 0 ==> !m.decoded.OtherType?)
     case DeadLettering(cause) => !m.decoded.OtherType? && (cause.InvalidEvent? <==> m.decoded.NotACloudEvent?)
     case Committing => Settled(m, s.db, s.dlq))
  }

  /** Every dead letter carries the key and payload of a message that is not of another type. */
  ghost predicate LettersOf(dlq: seq<DeadLetter>, source: seq<Message>) {
    forall k :: 0 <= k < |dlq| ==> IsLetterOf(dlq[k], source)
  }

  ghost predicate IsLetterOf(letter: DeadLetter, source: seq<Message>) {
    exists i :: 0 <= i < |source| && source[i].key == letter.key && source[i].value == letter.value && !source[i].decoded.OtherType?
  }

  /** The intake invariant: everything below the committed offset is settled, every row
      records some message, and the dead-letter topic holds nothing but messages. */
  ghost predicate IntakeOk(s: State) {
    && s.offset <= |s.source|
    && AllSettled(s.source, s.offset, s.db, s.dlq)
    && FromLog(s.db.performances, s.source)
    && LettersOf(s.dlq, s.source)
    && PhaseOk(s)
  }

  // --- Every step keeps it -------------------------------------------------------------------

  /** Whatever is done to the tables by a use case, and whatever the consumer does that
      does not touch its offset, log or letters, keeps everything but the phase. */
  lemma TablesMoved(s: State, t: State, op: FrozenScoring.Op, capSeconds: int)
    requires IntakeOk(s) && t.db == FrozenScoring.Step(s.db, op, capSeconds)
    requires t.source == s.source && t.offset == s.offset && t.dlq == s.dlq
    requires op.Complete? ==> s.offset < |s.source| && s.source[s.offset].decoded == TaskCompleted(op.req)
    requires t.consumer == s.consumer || PhaseOk(t)
    ensures IntakeOk(t)
  {
    StepMoves(s.db, op, capSeconds);
    RowsStayFromLog(s.db, op, capSeconds, s.source, s.offset);
    AllSettledSurvive(s.source, t.source, s.offset, s.db, t.db, s.dlq, t.dlq);
    if s.offset < |s.source| { SettledSurvives(s.source[s.offset], s.db, t.db, s.dlq, t.dlq); }
  }

  lemma AttemptKeeps(s: State, now: Instant, choice: nat, transaction: CommitOutcome, capSeconds: int)
    requires IntakeOk(s) && s.consumer.Handling? && s.consumer.attempts < MAX_HANDLER_ATTEMPTS && s.offset < |s.source|
    ensures IntakeOk(Attempting(s, now, choice, transaction, capSeconds))
  {
    var t := Attempting(s, now, choice, transaction, capSeconds);
    var m := s.source[s.offset];
    if m.decoded.TaskCompleted? && !transaction.Lost? {
      TablesMoved(s, t, FrozenScoring.Complete(m.decoded.req, now, choice), capSeconds);
    }
  }

  lemma LetterKeeps(s: State, write: WriteOutcome)
    requires IntakeOk(s) && s.consumer.DeadLettering? && s.offset < |s.source|
    ensures IntakeOk(Lettering(s, write))
  {
    var t, m := Lettering(s, write), s.source[s.offset];
    AllSettledSurvive(s.source, t.source, s.offset, s.db, t.db, s.dlq, t.dlq);
    if write.Written? || write.WrittenUnacknowledged? {
      assert t.dlq[|s.dlq|].key == m.key && t.dlq[|s.dlq|].value == m.value;
      assert IsLetterOf(t.dlq[|s.dlq|], s.source);
    }
  }

  lemma CommitKeeps(s: State, outcome: CommitOutcome, c: Config)
    requires IntakeOk(s) && s.consumer.Committing?
    ensures IntakeOk(Next(s, CommitOffset(outcome), c))
  {
  }

  lemma ArriveKeeps(s: State, m: Message, c: Config)
    requires IntakeOk(s)
    ensures IntakeOk(Next(s, Arrive(m), c))
  {
    var t := Next(s, Arrive(m), c);
    AllSettledSurvive(s.source, t.source, s.offset, s.db, t.db, s.dlq, t.dlq);
    forall p | p in t.db.performances
      ensures exists i :: 0 <= i < |t.source| && t.source[i].decoded.TaskCompleted? && p == Scored(t.source[i].decoded.req, p.standardSeconds)
    {
      var i :| 0 <= i < |s.source| && s.source[i].decoded.TaskCompleted? && p == Scored(s.source[i].decoded.req, p.standardSeconds);
      assert t.source[i] == s.source[i];
    }
    forall k | 0 <= k < |t.dlq| ensures IsLetterOf(t.dlq[k], t.source) {
      assert IsLetterOf(s.dlq[k], s.source);
      var i :| 0 <= i < |s.source| && s.source[i].key == s.dlq[k].key && s.source[i].value == s.dlq[k].value && !s.source[i].decoded.OtherType?;
      assert t.source[i] == s.source[i];
    }
  }

  /** What happens downstream leaves markers, rows and the consumer alone. */
  lemma DownstreamKeeps(s: State, a: Action, c: Config)
    requires IntakeOk(s) && !Upstream(a)
    ensures IntakeOk(Next(s, a, c))
  {
    var t := Next(s, a, c);
    assert t.source == s.source && t.offset == s.offset && t.dlq == s.dlq && t.consumer == s.consumer;
    assert t.db.processed == s.db.processed && t.db.performances == s.db.performances;
    AllSettledSurvive(s.source, t.source, s.offset, s.db, t.db, s.dlq, t.dlq);
    if s.offset < |s.source| { SettledSurvives(s.source[s.offset], s.db, t.db, s.dlq, t.dlq); }
  }

  lemma NextKeepsIntake(s: State, a: Action, c: Config)
    requires IntakeOk(s)
    ensures IntakeOk(Next(s, a, c))
  {
    if Enabled(s, a, c) {
      match a {
        case Arrive(m) => ArriveKeeps(s, m, c);
        case Define(d) => TablesMoved(s, Next(s, a, c), FrozenScoring.Define(d), c.capSeconds);
        case Attempt(now, choice, transaction) => AttemptKeeps(s, now, choice, transaction, c.capSeconds);
        case WriteLetter(write) => LetterKeeps(s, write);
        case CommitOffset(outcome) => CommitKeeps(s, outcome, c);
        case Fetch =>
        case GiveUp =>
        case ConsumerDies =>
        case _ => DownstreamKeeps(s, a, c);
      }
    }
  }

  /** In every reachable state, whatever acts between the consumer's steps, each message
      below the committed offset is recorded, of another type, or in the dead-letter topic
      with its payload; no row lacks its message, no letter lacks its message. */
  lemma {:induction false} EveryRunSettles(actions: seq<Action>, c: Config)
    ensures IntakeOk(Run(actions, c))
  {
    if actions != [] {
      EveryRunSettles(Init(actions), c);
      NextKeepsIntake(Run(Init(actions), c), Last(actions), c);
    }
  }

  /** A dead-letter write that is not acknowledged never moves the offset, and nothing but
      a commit of a settled message does. */
  lemma OffsetMovesOnlyPastSettled(actions: seq<Action>, a: Action, c: Config)
    ensures var s, t := Run(actions, c), Next(Run(actions, c), a, c);
            t.offset != s.offset ==>
              && a.CommitOffset? && t.offset == s.offset + 1 && s.offset < |s.source|
              && Settled(s.source[s.offset], s.db, s.dlq)
  {
    EveryRunSettles(actions, c);
  }

  /** From message to report: below the committed offset a message is of another type, in
      the dead-letter topic, or a completion whose row is announced at a position that
      stands in exactly one of the six places. */
  lemma {:induction false} EveryMessageIsAccountedFor(actions: seq<Action>, c: Config, i: nat) returns (id: nat)
    requires i < Run(actions, c).offset
    ensures var s := Run(actions, c);
            && i < |s.source|
            && var m := s.source[i];
               || m.decoded.OtherType?
               || InDlq(m, s.dlq)
               || (&& m.decoded.TaskCompleted?
                   && Split(s) && id in TaskIds(s.db.outbox)
                   && RowAt(s.db.outbox, id) < |s.db.performances|
                   && s.db.performances[RowAt(s.db.outbox, id)].eventId == m.decoded.req.kafkaEventId
                   && Announces(s.db.outbox[id].event, s.db.performances, RowAt(s.db.outbox, id), c.capSeconds))
  {
    id := 0;
    EveryRunSettles(actions, c);
    EveryRunKeepsInv(actions, c);
    var s := Run(actions, c);
    var m := s.source[i];
    assert Settled(m, s.db, s.dlq);
    if !m.decoded.OtherType? && !InDlq(m, s.dlq) {
      id := RowOfMarker(s.db, m.decoded.req.kafkaEventId, c.capSeconds);
      SplitOfTaskIds(s);
    }
  }

  lemma RowOfMarker(t: Tables, eventId: string, capSeconds: int) returns (id: nat)
    requires Consistent(t, capSeconds) && eventId in t.processed
    ensures id in TaskIds(t.outbox) && RowAt(t.outbox, id) < |t.performances|
    ensures t.performances[RowAt(t.outbox, id)].eventId == eventId
    ensures Announces(t.outbox[id].event, t.performances, RowAt(t.outbox, id), capSeconds)
  {
    var k :| 0 <= k < |t.performances| && t.performances[k].eventId == eventId;
    PositionsAnnounceRows(t, capSeconds);
    assert HasPosition(t.outbox, k);
    id :| id in TaskIds(t.outbox) && RowAt(t.outbox, id) == k;
  }
}
