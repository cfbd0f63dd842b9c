/** Concrete inputs at which the code does less than one might expect. The exact
    conditions stand beside the definitions they are about. */
module Witnesses {
  import opened Base
  import opened Performance
  import opened IdleGaps
  import opened Standards
  import opened Oltp
  import opened Consistency
  import opened Projections
  import Consumers
  import FrozenScoring
  import AnalyticsConsumers
  import Pipeline
  import Relay
  import Accounting
  import Reading

  // --- Between the read and the projection --------------------------------------------------

  const COMPLETION := Request("e1", "t1", "a1", "", 30, 1)
  const MESSAGE := Consumers.Message("k1", "v1", Consumers.TaskCompleted(COMPLETION))

  /** One completion is consumed and recorded, and its announcement sent. */
  const SENT_ONCE: seq<Pipeline.Action> :=
    [Pipeline.Arrive(MESSAGE), Pipeline.Fetch, Pipeline.Attempt(2, 0, Acknowledged), Pipeline.Claim, Pipeline.Send(Relay.Delivered)]

  /** The projector dies between admitting and projecting it. */
  const DYING_PROJECTOR := SENT_ONCE + [Pipeline.Deliver(0, AnalyticsConsumers.GateOk), Pipeline.Drop(0)]

  /** The relay's pass commits, and the projector's gate fails for the message it has read. */
  const FAILING_GATE := SENT_ONCE + [Pipeline.EndPass(Acknowledged), Pipeline.Deliver(0, AnalyticsConsumers.GateFails)]

  lemma RunPrefix(actions: seq<Pipeline.Action>, n: nat, c: Pipeline.Config)
    requires n < |actions|
    ensures Pipeline.Run(actions[..n + 1], c) == Pipeline.Next(Pipeline.Run(actions[..n], c), actions[n], c)
  {
    AppendParts(actions[..n], actions[n]);
    assert actions[..n + 1] == actions[..n] + [actions[n]];
  }

  lemma TwoMore(actions: seq<Pipeline.Action>, a: Pipeline.Action, b: Pipeline.Action, c: Pipeline.Config)
    ensures Pipeline.Run(actions + [a, b], c) == Pipeline.Next(Pipeline.Next(Pipeline.Run(actions, c), a, c), b, c)
  {
    AppendParts(actions, a);
    AppendParts(actions + [a], b);
    assert actions + [a, b] == actions + [a] + [b];
  }

  /** After consuming it, the table holds the completion's row and both messages. */
  lemma Consumed(c: Pipeline.Config)
    ensures var s := Pipeline.Run(SENT_ONCE[..3], c);
            && s.db == Recorded(EMPTY, COMPLETION, 0, c.capSeconds, 2)
            && s.published == 0 == s.sent && s.log == [] && s.relay.Resting?
            && s.read == {} == s.admitted && s.inflight == {} && s.projection == NOTHING
  {
    var all := SENT_ONCE;
    assert all[..0] == [];
    RunPrefix(all, 0, c);
    RunPrefix(all, 1, c);
    RunPrefix(all, 2, c);
    assert Pipeline.Run(all[..2], c).consumer == Pipeline.Handling(0);
    assert FrozenScoring.PickedSeconds(map[], COMPLETION, 0) == 0;
  }

  /** A pass has sent the first message, and nobody has read it. */
  predicate FirstSent(s: Pipeline.State) {
    && |s.db.outbox| == 2 && s.log == [0] && s.published == 0 && s.sent == 1 && s.relay == Pipeline.Passing(1, 1, false)
    && s.read == {} == s.admitted && s.inflight == {} && s.projection == NOTHING
  }

  lemma FirstSend(s: Pipeline.State, c: Pipeline.Config)
    requires s.relay.Resting? && s.published == 0 == s.sent && s.log == [] && |s.db.outbox| == 2 && c.batchSize == 1
    requires s.read == {} == s.admitted && s.inflight == {} && s.projection == NOTHING
    ensures var t := Pipeline.Next(Pipeline.Next(s, Pipeline.Claim, c), Pipeline.Send(Relay.Delivered), c);
            FirstSent(t) && t.db == s.db
  {
    assert Pipeline.Next(s, Pipeline.Claim, c).relay == Pipeline.Passing(0, 1, false);
  }

  lemma OneRowTwoMessages(capSeconds: int)
    ensures var t := Recorded(EMPTY, COMPLETION, 0, capSeconds, 2);
            |t.performances| == 1 && |t.outbox| == 2 && t.outbox[0].topic.Analytics? && Accounting.TaskIds(t.outbox) == {0}
  {
    var t := Recorded(EMPTY, COMPLETION, 0, capSeconds, 2);
    assert Records(t.outbox[0], Analytics) && !Records(t.outbox[1], Analytics);
  }

  lemma SentOnce(c: Pipeline.Config)
    requires c.batchSize == 1
    ensures var s := Pipeline.Run(SENT_ONCE, c); FirstSent(s) && s.db == Recorded(EMPTY, COMPLETION, 0, c.capSeconds, 2)
  {
    Consumed(c);
    OneRowTwoMessages(c.capSeconds);
    RunPrefix(SENT_ONCE, 3, c);
    RunPrefix(SENT_ONCE, 4, c);
    FirstSend(Pipeline.Run(SENT_ONCE[..3], c), c);
    assert SENT_ONCE[..5] == SENT_ONCE;
  }

  lemma FirstIsNext(s: Pipeline.State, c: Pipeline.Config)
    requires s.log == [0] && |s.db.outbox| == 2 && s.db.outbox[0].topic.Analytics? && s.read == {}
    ensures Pipeline.AtOffset(s, 0, c)
  {
  }

  /** The projector admits it and dies. */
  lemma AdmittedAndDropped(s: Pipeline.State, c: Pipeline.Config)
    requires FirstSent(s) && s.db.outbox[0].topic.Analytics?
    ensures var t := Pipeline.Next(Pipeline.Next(s, Pipeline.Deliver(0, AnalyticsConsumers.GateOk), c), Pipeline.Drop(0), c);
            t.admitted == {0} && t.inflight == {} && t.db == s.db && t.projection == NOTHING
  {
    FirstIsNext(s, c);
    var t := Pipeline.Next(s, Pipeline.Deliver(0, AnalyticsConsumers.GateOk), c);
    assert t.admitted == {0} == t.inflight;
  }

  /** Lost for good: the row is committed, no redelivery will count it. */
  lemma ACompletionCanBeLost(c: Pipeline.Config)
    requires c.batchSize == 1
    ensures var s := Pipeline.Run(DYING_PROJECTOR, c);
            |s.db.performances| == 1 && Accounting.LostTasks(s) == {0} && Accounting.Claimed(s) == {}
  {
    SentOnce(c);
    OneRowTwoMessages(c.capSeconds);
    TwoMore(SENT_ONCE, Pipeline.Deliver(0, AnalyticsConsumers.GateOk), Pipeline.Drop(0), c);
    AdmittedAndDropped(Pipeline.Run(SENT_ONCE, c), c);
  }

  /** The relay publishes it, the projector reads past it. */
  lemma PublishedAndSkipped(s: Pipeline.State, c: Pipeline.Config)
    requires FirstSent(s) && s.db.outbox[0].topic.Analytics? && Accounting.TaskIds(s.db.outbox) == {0}
    ensures var t := Pipeline.Next(Pipeline.Next(s, Pipeline.EndPass(Acknowledged), c), Pipeline.Deliver(0, AnalyticsConsumers.GateFails), c);
            && t.db.performances == s.db.performances && Accounting.TaskIds(t.db.outbox) == {0}
            && t.log == [0] && t.read == {0} && t.admitted == {} && t.sent == 1 == t.published
  {
    var u := Pipeline.Next(s, Pipeline.EndPass(Acknowledged), c);
    Relay.PassRowsSameMessages(s.db.outbox, 0, 1, false);
    FirstIsNext(u, c);
    assert Pipeline.Next(u, Pipeline.Deliver(0, AnalyticsConsumers.GateFails), c).read == {0};
  }

  /** Skipped for good: the gate's error is only logged, the row is marked
      published, the group has read past the message, and unless it goes back nothing that
      happens later counts the completion. */
  lemma ACompletionCanBeSkipped(c: Pipeline.Config)
    requires c.batchSize == 1
    ensures var s := Pipeline.Run(FAILING_GATE, c);
            |s.db.performances| == 1 && Accounting.Skipped(s) == {0} && Accounting.LostTasks(s) == {}
    ensures forall more :: Reading.NoReplay(more) ==> 0 !in Accounting.Claimed(Pipeline.Run(FAILING_GATE + more, c))
  {
    SentOnce(c);
    OneRowTwoMessages(c.capSeconds);
    TwoMore(SENT_ONCE, Pipeline.EndPass(Acknowledged), Pipeline.Deliver(0, AnalyticsConsumers.GateFails), c);
    PublishedAndSkipped(Pipeline.Run(SENT_ONCE, c), c);
    OneCopyRead(Pipeline.Run(FAILING_GATE, c));
    forall more | Reading.NoReplay(more) ensures 0 !in Accounting.Claimed(Pipeline.Run(FAILING_GATE + more, c)) {
      Reading.MissingStayMissing(FAILING_GATE, more, c);
    }
  }

  lemma OneCopyRead(s: Pipeline.State)
    requires Accounting.TaskIds(s.db.outbox) == {0} && s.log == [0] && s.read == {0} && s.admitted == {} && s.sent == 1 == s.published
    ensures Accounting.Skipped(s) == {0} && Accounting.LostTasks(s) == {}
  {
    assert !Accounting.HasUnread(s, 0);
  }

  // --- A negative duration ------------------------------------------------------------------

  /** Measured at minus nine seconds, the second completion claims its task eight seconds
      after it completed; the third one's gap lies inside the second one's. */
  lemma NegativeDurationOverlaps(capSeconds: int)
    ensures var first := TaskPerformance("e1", "t1", "a1", "", 0, 0, None, 0);
            var second := TaskPerformance("e2", "t2", "a1", "", -9, 0, None, SECOND);
            var third := TaskPerformance("e3", "t3", "a1", "", 0, 0, None, 2 * SECOND);
            var gaps := Gaps([first, second, third], capSeconds);
            |gaps| == 2 && gaps[0].associateId == gaps[1].associateId == "a1" && Overlap(gaps[0], gaps[1])
  {
    var first := TaskPerformance("e1", "t1", "a1", "", 0, 0, None, 0);
    var second := TaskPerformance("e2", "t2", "a1", "", -9, 0, None, SECOND);
    var third := TaskPerformance("e3", "t3", "a1", "", 0, 0, None, 2 * SECOND);
    assert Init([first]) == [] && Init([first, second]) == [first] && Init([first, second, third]) == [first, second];
    assert LastCompletion([first], "a1") == Some(0);
    assert LastCompletion([first, second], "a1") == Some(SECOND);
    var outer, inner := GapBefore([first], second, capSeconds).value, GapBefore([first, second], third, capSeconds).value;
    assert outer.startedAt == 0 && outer.endedAt == 10 * SECOND;
    assert inner.startedAt == SECOND && inner.endedAt == 2 * SECOND;
    assert Gaps([first], capSeconds) == [];
    assert Gaps([first, second], capSeconds) == [outer];
    assert Gaps([first, second, third], capSeconds) == [outer, inner];
  }

  // --- A clock that steps back -----------------------------------------------------------------

  const DAY_ONE := Definition(1, "PICK", 40, None, 0)
  const DAY_TWO := Definition(2, "PICK", 50, None, 10)
  const STEPPED_BACK := Definition(3, "PICK", 60, None, 5)

  /** Defined at 0, at 10 and, the clock having stepped back, at 5: at 7 the first and the
      third standard are both in force, and a completion may be scored against either. */
  lemma SteppedBackClockIsAmbiguous()
    ensures BehindRevision([DAY_ONE, DAY_TWO], STEPPED_BACK)
    ensures var defs := [DAY_ONE, DAY_TWO, STEPPED_BACK]; ActiveAt(RowOf(defs, 0), 7) && ActiveAt(RowOf(defs, 2), 7)
  {
    var before, defs := [DAY_ONE, DAY_TWO], [DAY_ONE, DAY_TWO, STEPPED_BACK];
    assert Init(defs) == before && Init(before) == [DAY_ONE];
    assert DAY_ONE in before;
    assert SupersededAt([DAY_ONE], 0).None?;
    assert SupersededAt(before, 0) == Some(10);
    assert SupersededAt(defs, 0) == Some(10);
  }

  // --- A definition behind a recorded completion --------------------------------------------------

  const LATE_REQUEST := Request("e1", "t1", "", "PICK", 30, 10)
  const LATE := Definition(2, "PICK", 60, None, 8)

  /** Defined at 0, completed at 10. */
  ghost function ScoredByFirst(capSeconds: int): Tables {
    Recorded(Defined(EMPTY, DAY_ONE), LATE_REQUEST, 40, capSeconds, 11)
  }

  lemma DefinedFirst(capSeconds: int)
    ensures FrozenScoring.Run([FrozenScoring.Define(DAY_ONE)], capSeconds) == Defined(EMPTY, DAY_ONE)
    ensures Consistent(Defined(EMPTY, DAY_ONE), capSeconds)
    ensures DefinitionsIn(Defined(EMPTY, DAY_ONE).outbox) == [DAY_ONE]
  {
    assert Init([FrozenScoring.Define(DAY_ONE)]) == [];
    FrozenScoring.EveryRunIsConsistent([], capSeconds);
    DefinedKeepsConsistent(EMPTY, DAY_ONE, capSeconds);
    assert DefinitionsIn(EMPTY.outbox) == [];
  }

  lemma FirstIsPicked(rows: map<nat, StandardRow>)
    requires IsTimeline(rows, [DAY_ONE])
    ensures FrozenScoring.PickedSeconds(rows, LATE_REQUEST, 1) == 40
  {
    FoundIsAsOf(rows, [DAY_ONE], LATE_REQUEST, FrozenScoring.PickedSeconds(rows, LATE_REQUEST, 1));
    assert AsOf([DAY_ONE], "PICK", 10) == Some(DAY_ONE);
  }

  lemma ScoredByFirstIsRun(capSeconds: int)
    ensures FrozenScoring.Run([FrozenScoring.Define(DAY_ONE), FrozenScoring.Complete(LATE_REQUEST, 11, 1)], capSeconds) ==
            ScoredByFirst(capSeconds)
    ensures Consistent(ScoredByFirst(capSeconds), capSeconds)
    ensures FrozenScoring.StillTrue(Scored(LATE_REQUEST, 40), ScoredByFirst(capSeconds))
  {
    var define, complete := FrozenScoring.Define(DAY_ONE), FrozenScoring.Complete(LATE_REQUEST, 11, 1);
    assert Init([define, complete]) == [define];
    DefinedFirst(capSeconds);
    FirstIsPicked(Defined(EMPTY, DAY_ONE).standards);
    RecordedKeepsConsistent(Defined(EMPTY, DAY_ONE), LATE_REQUEST, 40, capSeconds, 11);
    assert AsOf([DAY_ONE], "PICK", 10) == Some(DAY_ONE);
  }

  /** A completion at 10 is scored against 40 seconds; a definition made at 8 then makes
      the lookup as of 10 answer 60. */
  lemma LateDefinitionContradictsScore(capSeconds: int)
    ensures var ops := [FrozenScoring.Define(DAY_ONE), FrozenScoring.Complete(LATE_REQUEST, 11, 1), FrozenScoring.Define(LATE)];
            var p := Scored(LATE_REQUEST, 40);
            p in FrozenScoring.Run(ops, capSeconds).performances && !FrozenScoring.StillTrue(p, FrozenScoring.Run(ops, capSeconds))
  {
    var ops := [FrozenScoring.Define(DAY_ONE), FrozenScoring.Complete(LATE_REQUEST, 11, 1), FrozenScoring.Define(LATE)];
    assert Init(ops) == [FrozenScoring.Define(DAY_ONE), FrozenScoring.Complete(LATE_REQUEST, 11, 1)];
    ScoredByFirstIsRun(capSeconds);
    var t := ScoredByFirst(capSeconds);
    assert t.standards.Keys == {1};
    FrozenScoring.DefinitionContradictsScoreIff(t, LATE, Scored(LATE_REQUEST, 40), capSeconds);
    assert FrozenScoring.Run(ops, capSeconds) == Defined(t, LATE);
  }

  // --- A wall clock behind the latest definition ---------------------------------------------------

  /** Asked at 9, the in-memory lookup of the current standard still answers the one that
      the definition made at 10 has closed. */
  lemma WallClockBehindFindsClosedStandard()
    ensures AsOf([DAY_ONE, DAY_TWO], "PICK", 9) == Some(DAY_ONE)
    ensures Latest([DAY_ONE, DAY_TWO], "PICK") == Some(DAY_TWO)
    ensures SupersededAt([DAY_ONE, DAY_TWO], 0) == Some(10)
  {
    assert Init([DAY_ONE, DAY_TWO]) == [DAY_ONE];
  }
}
