/** From a fulfillment message to its count in the report: the whole delivery
    pipeline as one step machine, where any stage may fail, crash or repeat
    between any two steps of the others. */
module Pipeline {
  import opened Base
  import opened Standards
  import opened Oltp
  import opened Consistency
  import opened FrozenScoring
  import opened Consumers
  import opened Relay
  import opened Projections
  import Analytics = AnalyticsConsumers

  /** The relay between passes, or inside one: rows sent and marked so far, rows
      claimed, and whether the next row's send failed. */
  datatype RelayPhase = Resting | Passing(count: nat, limit: nat, failed: bool)

  /** Where the fulfillment consumer stands with the message at its committed offset. */
  datatype ConsumerPhase = Fetching | Handling(attempts: nat) | DeadLettering(cause: Cause) | Committing

  datatype State = State(
    source: seq<Message>,
    offset: nat,
    consumer: ConsumerPhase,
    dlq: seq<DeadLetter>,
    db: Tables,
    published: nat,
    sent: nat,
    log: seq<nat>,
    relay: RelayPhase,
    read: set<nat>,
    admitted: set<nat>,
    inflight: set<nat>,
    projection: Projection)

  const START := State([], 0, Fetching, [], EMPTY, 0, 0, [], Resting, {}, {}, {}, NOTHING)

  /** What a deployment fixes, and the partition of the analytics topic that each logged
      message landed in, whatever assigned it. */
  datatype Config = Config(capSeconds: int, batchSize: nat, partition: nat -> nat)

  datatype Action =
    | Arrive(message: Message)
    | Define(d: Definition)
    | Fetch
    | Attempt(now: Instant, choice: nat, transaction: CommitOutcome)
    | GiveUp
    | WriteLetter(write: WriteOutcome)
    | CommitOffset(offsetCommit: CommitOutcome)
    | ConsumerDies
    | Claim
    | Send(outcome: SendOutcome)
    | EndPass(commit: CommitOutcome)
    | RelayDies
    | Deliver(position: nat, gate: Analytics.GateOutcome)
    | Replay(from: nat)
    | Project(id: nat, fate: ApplyOutcome)
    | Drop(id: nat)

  // --- What a message means to the read model ---------------------------------------

  function KindOf(e: DomainEvent): Kind {
    match e
    case LaborStandardDefined(_, _, _, _, _, _) => StandardDefinedFact
    case LaborStandardRevised(_, _, _, _, _, _, _) => StandardRevisedFact
    case TaskPerformanceRecorded(_, _, _, _, _, _, _, _) => TaskPerformanceFact
  }

  function DataOf(e: DomainEvent): Analytics.Data {
    match e
    case LaborStandardDefined(_, _, taskType, _, _, from) => Analytics.Data(taskType, from, ZERO_TIME, 0, None)
    case LaborStandardRevised(_, _, taskType, _, _, _, from) => Analytics.Data(taskType, from, ZERO_TIME, 0, None)
    case TaskPerformanceRecorded(_, _, _, taskType, actual, efficiency, _, completedAt) =>
      Analytics.Data(taskType, ZERO_TIME, completedAt, actual, efficiency)
  }

  function FactIn(e: DomainEvent): Fact {
    Analytics.FactOf(KindOf(e), e.occurredAt, DataOf(e))
  }

  function MessageOf(id: nat, e: DomainEvent): Analytics.Decoded {
    Analytics.Projecting(KindOf(e), id, e.occurredAt, Some(DataOf(e)))
  }

  // --- What the projector's group has read ------------------------------------------

  /** The logged message is one of the analytics topic. */
  predicate OnTopic(s: State, position: nat) {
    position < |s.log| && s.log[position] < |s.db.outbox| && s.db.outbox[s.log[position]].topic.Analytics?
  }

  /** The message at its partition's committed offset: nothing before it is unread there.
      Reading moves that offset at once, before the message is handled. */
  ghost predicate AtOffset(s: State, position: nat, c: Config) {
    && OnTopic(s, position) && position !in s.read
    && forall q :: 0 <= q < position && OnTopic(s, q) && c.partition(q) == c.partition(position) ==> q in s.read
  }

  /** The effect behind each of some outbox positions. */
  function EffectsOf(ids: set<nat>, outbox: seq<OutboxRow>): map<nat, Effect> {
    map id | id in ids && id < |outbox| :: EffectOf(FactIn(outbox[id].event))
  }

  // --- Steps ---------------------------------------------------------------------------

  ghost predicate Enabled(s: State, a: Action, c: Config) {
    match a
    case Arrive(_) => true
    case Define(_) => true
    case Fetch => s.consumer.Fetching? && s.offset < |s.source|
    case Attempt(_, _, _) => s.consumer.Handling? && s.consumer.attempts < MAX_HANDLER_ATTEMPTS && s.offset < |s.source|
    case GiveUp => s.consumer.Handling? && s.consumer.attempts > 0
    case WriteLetter(_) => s.consumer.DeadLettering? && s.offset < |s.source|
    case CommitOffset(_) => s.consumer.Committing?
    case ConsumerDies => true
    case Claim => s.relay.Resting? && s.published <= |s.db.outbox|
    case Send(_) => s.relay.Passing? && !s.relay.failed && s.relay.count < s.relay.limit
    case EndPass(_) =>
      s.relay.Passing? && (s.relay.failed || s.relay.count == s.relay.limit) &&
      s.published + s.relay.count <= |s.db.outbox| && (s.relay.failed ==> s.published + s.relay.count < |s.db.outbox|)
    case RelayDies => true
    case Deliver(position, _) => AtOffset(s, position, c)
    case Replay(_) => true
    case Project(id, _) => id in s.inflight && id < |s.db.outbox|
    case Drop(id) => id in s.inflight
  }

  /** One handler attempt. Only a completion touches the tables; an attempt that is not
      acknowledged has failed, whether it took effect or not. */
  ghost function Attempting(s: State, now: Instant, choice: nat, transaction: CommitOutcome, capSeconds: int): State
    requires s.consumer.Handling? && s.offset < |s.source|
  {
    var failed := Handling(s.consumer.attempts + 1);
    match s.source[s.offset].decoded
    case OtherType => s.(consumer := Committing)
    case TaskCompleted(req) =>
      var after := if transaction.Lost? then s.db else Step(s.db, Complete(req, now, choice), capSeconds);
      s.(db := after,
         consumer := if transaction.Acknowledged? && req.kafkaEventId in after.processed then Committing else failed)
    case _ => s.(consumer := failed)
  }

  /** One dead-letter write: only an acknowledged one lets the offset be committed, and
      only a topic that is not ready is tried again in the same session. */
  function Lettering(s: State, write: WriteOutcome): State
    requires s.consumer.DeadLettering? && s.offset < |s.source|
  {
    var m := s.source[s.offset];
    var written := s.dlq + [DeadLetter(m.key, m.value, s.consumer.cause)];
    match write
    case Written => s.(dlq := written, consumer := Committing)
    case WrittenUnacknowledged => s.(dlq := written, consumer := Fetching)
    case TopicNotReady => s
    case WriteRefused => s.(consumer := Fetching)
  }

  function Sending(s: State, outcome: SendOutcome): State
    requires s.relay.Passing?
  {
    var id := s.published + s.relay.count;
    var reached := if outcome.Refused? then s else s.(log := s.log + [id], sent := Max(s.sent, id + 1));
    reached.(relay := if outcome.Delivered? then s.relay.(count := s.relay.count + 1) else s.relay.(failed := true))
  }

  function EndingPass(s: State, commit: CommitOutcome): State
    requires s.relay.Passing? && s.published + s.relay.count <= |s.db.outbox|
    requires s.relay.failed ==> s.published + s.relay.count < |s.db.outbox|
  {
    if commit.Lost? then s.(relay := Resting)
    else
      s.(relay := Resting,
         published := s.published + s.relay.count,
         db := s.db.(outbox := PassRows(s.db.outbox, s.published, s.relay.count, s.relay.failed)))
  }

  /** The gate's part of a delivery: a known id, or an insert that fails before it is
      applied (so too a process that dies before it), admits nothing. */
  function Gating(s: State, id: nat, gate: Analytics.GateOutcome): State {
    if id in s.admitted || gate.GateFails? then s
    else s.(admitted := s.admitted + {id}, inflight := if gate.GateOk? then s.inflight + {id} else s.inflight)
  }

  /** The message counts as read whatever becomes of it. */
  function Delivering(s: State, position: nat, gate: Analytics.GateOutcome): State
    requires position < |s.log|
  {
    Gating(s.(read := s.read + {position}), s.log[position], gate)
  }

  function Projecting(s: State, id: nat, outcome: ApplyOutcome): State
    requires id < |s.db.outbox|
  {
    s.(inflight := s.inflight - {id},
       projection := if TookEffect(outcome) then ApplyOnce(s.projection, id, EffectOf(FactIn(s.db.outbox[id].event)))
                     else s.projection)
  }

  /** One action of one stage; an action that is not enabled does nothing. */
  ghost function Next(s: State, a: Action, c: Config): State {
    if !Enabled(s, a, c) then s
    else
      match a
      case Arrive(m) => s.(source := s.source + [m])
      case Define(d) => s.(db := Step(s.db, FrozenScoring.Define(d), c.capSeconds))
      case Fetch =>
        s.(consumer := if s.source[s.offset].decoded.NotACloudEvent? then DeadLettering(InvalidEvent) else Handling(0))
      case Attempt(now, choice, transaction) => Attempting(s, now, choice, transaction, c.capSeconds)
      case GiveUp => s.(consumer := DeadLettering(HandlerFailed))
      case WriteLetter(write) => Lettering(s, write)
      case CommitOffset(outcome) => s.(consumer := Fetching, offset := if outcome.Lost? then s.offset else s.offset + 1)
      case ConsumerDies => s.(consumer := Fetching)
      case Claim => s.(relay := Passing(0, Min(c.batchSize, |s.db.outbox| - s.published), false))
      case Send(outcome) => Sending(s, outcome)
      case EndPass(commit) => EndingPass(s, commit)
      case RelayDies => s.(relay := Resting)
      case Deliver(position, gate) => Delivering(s, position, gate)
      case Replay(from) => s.(read := set position | position in s.read && position < from)
      case Project(id, outcome) => Projecting(s, id, outcome)
      case Drop(id) => s.(inflight := s.inflight - {id})
  }

  ghost function Run(actions: seq<Action>, c: Config): State {
    if actions == [] then START else Next(Run(Init(actions), c), Last(actions), c)
  }

  // --- The invariant -----------------------------------------------------------------------

  predicate PassOnTrack(s: State, c: Config) {
    s.relay.Passing? ==>
      && s.relay.count <= s.relay.limit <= c.batchSize
      && s.published + s.relay.limit <= |s.db.outbox|
      && s.published + s.relay.count <= s.sent
      && (s.relay.failed ==> s.relay.count < s.relay.limit)
  }

  ghost predicate RelayOk(s: State, c: Config) {
    Drained(s.db.outbox, s.log, s.published, s.sent, c.batchSize) && PassOnTrack(s, c)
  }

  /** Claimed ids were admitted, admitted ones sent on the analytics topic, and no
      claimed id is still in flight. */
  predicate Funnel(s: State) {
    && s.sent <= |s.db.outbox|
    && (forall id :: id in s.admitted ==> id < s.sent && s.db.outbox[id].topic.Analytics?)
    && s.inflight <= s.admitted
    && s.projection.seen <= s.admitted
    && s.inflight !! s.projection.seen
  }

  ghost predicate ReadModelOk(s: State) {
    IsReference(s.projection, EffectsOf(s.projection.seen, s.db.outbox))
  }

  ghost predicate Inv(s: State, c: Config) {
    Consistent(s.db, c.capSeconds) && RelayOk(s, c) && Funnel(s) && ReadModelOk(s)
  }

  // --- Writers only append ---------------------------------------------------------------------

  ghost predicate Grows(outbox: seq<OutboxRow>, outbox': seq<OutboxRow>) {
    outbox <= outbox' && forall i :: |outbox| <= i < |outbox'| ==> !outbox'[i].published
  }

  lemma StepGrows(t: Tables, op: Op, capSeconds: int)
    ensures Grows(t.outbox, Step(t, op, capSeconds).outbox)
  {
  }

  lemma GrowthKeepsRelay(s: State, t: State, c: Config)
    requires RelayOk(s, c) && Grows(s.db.outbox, t.db.outbox)
    requires t.published == s.published && t.sent == s.sent && t.log == s.log && t.relay == s.relay
    ensures RelayOk(t, c)
  {
  }

  lemma GrowthKeepsEffects(ids: set<nat>, outbox: seq<OutboxRow>, outbox': seq<OutboxRow>)
    requires Grows(outbox, outbox') && forall id :: id in ids ==> id < |outbox|
    ensures EffectsOf(ids, outbox') == EffectsOf(ids, outbox)
  {
  }

  /** Nothing downstream of the tables moved. */
  predicate SameDelivery(s: State, t: State) {
    && t.published == s.published && t.sent == s.sent && t.log == s.log && t.relay == s.relay && t.read == s.read
    && t.admitted == s.admitted && t.inflight == s.inflight && t.projection == s.projection
  }

  lemma WriteKeepsInv(s: State, t: State, op: Op, c: Config)
    requires Inv(s, c) && SameDelivery(s, t) && t.db == Step(s.db, op, c.capSeconds)
    ensures Inv(t, c)
  {
    StepKeepsConsistent(s.db, op, c.capSeconds);
    StepGrows(s.db, op, c.capSeconds);
    GrowthKeepsRelay(s, t, c);
    GrowthKeepsEffects(s.projection.seen, s.db.outbox, t.db.outbox);
  }

  lemma SameTablesKeepInv(s: State, t: State, c: Config)
    requires Inv(s, c) && SameDelivery(s, t) && t.db == s.db
    ensures Inv(t, c)
  {
  }

  predicate Upstream(a: Action) {
    a.Arrive? || a.Define? || a.Fetch? || a.Attempt? || a.GiveUp? || a.WriteLetter? || a.CommitOffset? || a.ConsumerDies?
  }

  /** What the upstream actions do to the tables: nothing, or one use case step. */
  lemma UpstreamWrites(s: State, a: Action, c: Config) returns (op: Option<Op>)
    requires Upstream(a)
    ensures SameDelivery(s, Next(s, a, c))
    ensures Next(s, a, c).db == if op.Some? then Step(s.db, op.value, c.capSeconds) else s.db
    ensures op.Some? && op.value.Complete? ==> s.offset < |s.source| && s.source[s.offset].decoded == TaskCompleted(op.value.req)
  {
    op := None;
    if Enabled(s, a, c) {
      if a.Define? {
        op := Some(FrozenScoring.Define(a.d));
      } else if a.Attempt? && !a.transaction.Lost? && s.source[s.offset].decoded.TaskCompleted? {
        op := Some(Complete(s.source[s.offset].decoded.req, a.now, a.choice));
      }
    }
  }

  lemma UpstreamKeepsInv(s: State, a: Action, c: Config)
    requires Inv(s, c) && Upstream(a)
    ensures Inv(Next(s, a, c), c)
  {
    var op := UpstreamWrites(s, a, c);
    if op.Some? {
      WriteKeepsInv(s, Next(s, a, c), op.value, c);
    } else {
      SameTablesKeepInv(s, Next(s, a, c), c);
    }
  }

  // --- The relay only marks ----------------------------------------------------------------------

  lemma SendKeepsRelay(s: State, outcome: SendOutcome, c: Config)
    requires RelayOk(s, c) && Enabled(s, Send(outcome), c)
    ensures RelayOk(Sending(s, outcome), c)
  {
    SendNext(s.log, s.sent, s.published + s.relay.count);
  }

  lemma PassRowsAdvance(outbox: seq<OutboxRow>, published: nat, count: nat, failed: bool)
    requires published + count <= |outbox| && (failed ==> published + count < |outbox|)
    requires PublishedPrefix(outbox, published)
    ensures PublishedPrefix(PassRows(outbox, published, count, failed), published + count)
    ensures SameMessages(outbox, PassRows(outbox, published, count, failed))
  {
  }

  lemma SameEffects(ids: set<nat>, outbox: seq<OutboxRow>, outbox': seq<OutboxRow>)
    requires SameMessages(outbox, outbox')
    ensures EffectsOf(ids, outbox') == EffectsOf(ids, outbox)
  {
  }

  lemma EndPassKeepsRelay(s: State, commit: CommitOutcome, c: Config)
    requires RelayOk(s, c) && Enabled(s, EndPass(commit), c)
    ensures RelayOk(EndingPass(s, commit), c)
  {
    if !commit.Lost? {
      PassRowsAdvance(s.db.outbox, s.published, s.relay.count, s.relay.failed);
    }
  }

  lemma EndPassKeepsInv(s: State, commit: CommitOutcome, c: Config)
    requires Inv(s, c) && Enabled(s, EndPass(commit), c)
    ensures Inv(EndingPass(s, commit), c)
  {
    EndPassKeepsRelay(s, commit, c);
    if !commit.Lost? {
      var rows := PassRows(s.db.outbox, s.published, s.relay.count, s.relay.failed);
      PassRowsAdvance(s.db.outbox, s.published, s.relay.count, s.relay.failed);
      MarksKeepConsistent(s.db, rows, c.capSeconds);
      SameEffects(s.projection.seen, s.db.outbox, rows);
    }
  }

  /** The table only grows, and no message in it changes. */
  ghost predicate Extends(outbox: seq<OutboxRow>, outbox': seq<OutboxRow>) {
    && |outbox| <= |outbox'|
    && forall i :: 0 <= i < |outbox| ==> outbox'[i].topic == outbox[i].topic && outbox'[i].event == outbox[i].event
  }

  lemma NextExtends(s: State, a: Action, c: Config)
    requires PublishedPrefix(s.db.outbox, s.published)
    ensures Extends(s.db.outbox, Next(s, a, c).db.outbox)
  {
    if Upstream(a) {
      var op := UpstreamWrites(s, a, c);
      if op.Some? { StepGrows(s.db, op.value, c.capSeconds); }
    } else if a.EndPass? && Enabled(s, a, c) {
      PassRowsAdvance(s.db.outbox, s.published, s.relay.count, s.relay.failed);
    }
  }

  // --- The projector --------------------------------------------------------------------------------

  lemma {:induction false} LoggedIsSent(log: seq<nat>, s: nat, position: nat)
    requires Deduplicated(log) == UpTo(s) && position < |log|
    ensures log[position] < s
  {
    KeptWhenLogged(log, position);
    assert log[position] in UpTo(s);
  }

  lemma {:induction false} KeptWhenLogged(log: seq<nat>, position: nat)
    requires position < |log|
    ensures log[position] in Deduplicated(log)
  {
    if position < |log| - 1 { KeptWhenLogged(Init(log), position); }
  }

  lemma DeliverKeepsFunnel(s: State, id: nat, gate: Analytics.GateOutcome)
    requires Funnel(s) && id < s.sent && s.db.outbox[id].topic.Analytics?
    ensures Funnel(Gating(s, id, gate))
  {
  }

  lemma DeliverKeepsInv(s: State, position: nat, gate: Analytics.GateOutcome, c: Config)
    requires Inv(s, c) && Enabled(s, Deliver(position, gate), c)
    ensures Inv(Next(s, Deliver(position, gate), c), c)
  {
    LoggedIsSent(s.log, s.sent, position);
    DeliverKeepsFunnel(s.(read := s.read + {position}), s.log[position], gate);
    ProjectorMoved(s, Delivering(s, position, gate), c);
  }

  lemma OneMoreEffect(ids: set<nat>, outbox: seq<OutboxRow>, id: nat)
    requires id < |outbox| && forall i :: i in ids ==> i < |outbox|
    ensures EffectsOf(ids, outbox).Keys == ids
    ensures EffectsOf(ids + {id}, outbox) == EffectsOf(ids, outbox)[id := EffectOf(FactIn(outbox[id].event))]
  {
  }

  lemma ProjectKeepsReadModel(s: State, id: nat, outcome: ApplyOutcome)
    requires ReadModelOk(s) && Funnel(s) && id in s.inflight && id < |s.db.outbox|
    ensures ReadModelOk(Projecting(s, id, outcome))
  {
    assert forall i :: i in s.projection.seen ==> i in s.admitted;
    OneMoreEffect(s.projection.seen, s.db.outbox, id);
    ApplyKeepsReference(s.projection, EffectsOf(s.projection.seen, s.db.outbox), id, EffectOf(FactIn(s.db.outbox[id].event)));
  }

  lemma ProjectKeepsFunnel(s: State, id: nat, outcome: ApplyOutcome)
    requires Funnel(s) && id in s.inflight && id < |s.db.outbox|
    ensures Funnel(Projecting(s, id, outcome))
  {
  }

  /** The relay moved on, the tables and the projector did not. */
  lemma RelayMoved(s: State, t: State, c: Config)
    requires Inv(s, c) && RelayOk(t, c) && t.db == s.db && s.sent <= t.sent
    requires t.admitted == s.admitted && t.inflight == s.inflight && t.projection == s.projection
    ensures Inv(t, c)
  {
  }

  /** The projector moved on, the tables and the relay did not. */
  lemma ProjectorMoved(s: State, t: State, c: Config)
    requires Consistent(s.db, c.capSeconds) && RelayOk(s, c) && Funnel(t) && ReadModelOk(t)
    requires t.db == s.db && t.published == s.published && t.sent == s.sent && t.log == s.log && t.relay == s.relay
    ensures Inv(t, c)
  {
  }

  /** Claiming, dying, dropping and going back move no message and no count. */
  lemma QuietKeepsInv(s: State, a: Action, c: Config)
    requires Inv(s, c) && Enabled(s, a, c) && (a.Claim? || a.RelayDies? || a.Drop? || a.Replay?)
    ensures Inv(Next(s, a, c), c)
  {
    var next := Next(s, a, c);
    assert next.db == s.db && next.projection == s.projection && next.log == s.log;
  }

  lemma SendKeepsInv(s: State, outcome: SendOutcome, t: State, c: Config)
    requires Enabled(s, Send(outcome), c) && t == Sending(s, outcome)
    requires Inv(s, c)
    ensures Inv(t, c)
  {
    SendKeepsRelay(s, outcome, c);
    RelayMoved(s, t, c);
  }

  lemma NextKeepsInv(s: State, a: Action, c: Config)
    requires Inv(s, c)
    ensures Inv(Next(s, a, c), c)
  {
    if Enabled(s, a, c) {
      match a {
        case Send(outcome) => SendKeepsInv(s, outcome, Sending(s, outcome), c);
        case EndPass(commit) => EndPassKeepsInv(s, commit, c);
        case Deliver(position, gate) => DeliverKeepsInv(s, position, gate, c);
        case Project(id, outcome) =>
          ProjectKeepsFunnel(s, id, outcome);
          ProjectKeepsReadModel(s, id, outcome);
          ProjectorMoved(s, Projecting(s, id, outcome), c);
        case _ =>
          if Upstream(a) { UpstreamKeepsInv(s, a, c); } else { QuietKeepsInv(s, a, c); }
      }
    }
  }

  lemma {:induction false} EveryRunKeepsInv(actions: seq<Action>, c: Config)
    ensures Inv(Run(actions, c), c)
  {
    if actions == [] {
      EveryRunIsConsistent([], c.capSeconds);
      FoldIsReference([]);
    } else {
      EveryRunKeepsInv(Init(actions), c);
      NextKeepsInv(Run(Init(actions), c), Last(actions), c);
    }
  }
}
