/** Catching up: what every reachable state can still bring into the report, and what it
    cannot. The projector's group reads each message once, so what was read past without
    being admitted is as final as what was lost between the gate and the projection. */
module CatchingUp {
  import opened Base
  import opened Oltp
  import opened History
  import opened Relay
  import opened Sums
  import opened Projections
  import opened Pipeline
  import opened Accounting
  import opened Reading

  ghost function Continue(s: State, actions: seq<Action>, c: Config): State
    decreases |actions|
  {
    if actions == [] then s else Continue(Next(s, actions[0], c), actions[1..], c)
  }

  lemma {:induction false} ContinueIsRun(before: seq<Action>, more: seq<Action>, c: Config)
    ensures Continue(Run(before, c), more, c) == Run(before + more, c)
    decreases |more|
  {
    if more == [] {
      assert before + more == before;
    } else {
      AppendParts(before, more[0]);
      ContinueIsRun(before + [more[0]], more[1..], c);
      assert before + more == before + [more[0]] + more[1..];
    }
  }

  /** A step of the relay or the projector that nothing goes wrong in. */
  predicate HealthyStep(a: Action) {
    || a.Claim? || a == Send(Delivered) || a == EndPass(Acknowledged)
    || (a.Deliver? && a.gate.GateOk?) || (a.Project? && a.fate.ApplyOk?)
  }

  ghost predicate AllHealthySteps(actions: seq<Action>) {
    forall i :: 0 <= i < |actions| ==> HealthyStep(actions[i])
  }

  /** Ids that were admitted and will never be projected. */
  function Abandoned(s: State): set<nat> {
    s.admitted - s.inflight - s.projection.seen
  }

  /** Rows before it are marked published, or will be when the relay's pass commits. */
  function Frontier(s: State): nat {
    if s.relay.Passing? then s.published + s.relay.count else s.published
  }

  /** Ids read past without being admitted that a healthy relay will not send again. */
  function Stranded(s: State): set<nat> {
    set id | id in AnalyticsIds(s.db.outbox) && id < Frontier(s) && id !in s.admitted && !HasUnread(s, id)
  }

  function UnreadPositions(s: State): set<nat> {
    set p: nat | p < |s.log| && OnTopic(s, p) && p !in s.read
  }

  /** Everything is published, read and decided. */
  predicate CaughtUp(s: State) {
    s.published == |s.db.outbox| && UnreadPositions(s) == {} && s.inflight == {}
  }

  /** A step that moves messages along and changes nothing else. */
  ghost predicate Advances(s: State, t: State) {
    && t.db.performances == s.db.performances
    && SameMessages(s.db.outbox, t.db.outbox)
    && Abandoned(t) == Abandoned(s)
    && Stranded(t) == Stranded(s)
  }

  // --- The relay's part --------------------------------------------------------------

  function Stage(s: State, c: Config): nat
    requires PassOnTrack(s, c)
  {
    if s.relay.Resting? then c.batchSize + 2
    else if !s.relay.failed && s.relay.count < s.relay.limit then s.relay.limit - s.relay.count
    else if s.relay.count == 0 then c.batchSize + 3
    else 0
  }

  function RelayDue(s: State): Action {
    if s.relay.Resting? then Claim
    else if !s.relay.failed && s.relay.count < s.relay.limit then Send(Delivered)
    else EndPass(Acknowledged)
  }

  lemma SameIsSame(outbox: seq<OutboxRow>)
    ensures SameMessages(outbox, outbox)
  {
  }

  lemma ClaimAdvances(s: State, c: Config)
    requires s.relay.Resting? && s.published < |s.db.outbox| && s.published <= s.sent && c.batchSize > 0
    ensures var t := Next(s, Claim, c);
            && t.db == s.db && t.log == s.log && t.published == s.published && Frontier(t) == Frontier(s)
            && PassOnTrack(t, c) && Stage(t, c) < Stage(s, c)
  {
  }

  lemma SendAdvances(s: State, c: Config)
    requires Enabled(s, Send(Delivered), c) && PassOnTrack(s, c)
    ensures var t := Next(s, Send(Delivered), c);
            && t.db == s.db && t.log == s.log + [Frontier(s)] && t.published == s.published && Frontier(t) == Frontier(s) + 1
            && PassOnTrack(t, c) && Stage(t, c) < Stage(s, c)
  {
  }

  lemma EndPassAdvances(s: State, c: Config)
    requires Enabled(s, EndPass(Acknowledged), c) && PassOnTrack(s, c) && PublishedPrefix(s.db.outbox, s.published)
    ensures var t := Next(s, EndPass(Acknowledged), c);
            && t.db.performances == s.db.performances && SameMessages(s.db.outbox, t.db.outbox) && t.log == s.log
            && Frontier(t) == Frontier(s) && PassOnTrack(t, c)
            && (t.published > s.published || (t.published == s.published && Stage(t, c) < Stage(s, c)))
  {
    PassRowsAdvance(s.db.outbox, s.published, s.relay.count, s.relay.failed);
  }

  lemma RelayLeavesProjector(s: State, a: Action, c: Config)
    requires a.Claim? || a.Send? || a.EndPass? || a.RelayDies?
    ensures var t := Next(s, a, c);
            t.read == s.read && t.admitted == s.admitted && t.inflight == s.inflight && t.projection == s.projection
  {
  }

  lemma SameAnalyticsIds(outbox: seq<OutboxRow>, outbox': seq<OutboxRow>)
    requires SameMessages(outbox, outbox')
    ensures AnalyticsIds(outbox') == AnalyticsIds(outbox) && TaskIds(outbox') == TaskIds(outbox)
  {
  }

  /** The row just sent has an unread copy, the others have what they had. */
  lemma SendStrandsNothing(s: State, t: State)
    requires forall p :: p in s.read ==> p < |s.log|
    requires t.log == s.log + [Frontier(s)] && Frontier(t) == Frontier(s) + 1
    requires t.read == s.read && t.admitted == s.admitted && t.db == s.db
    ensures Stranded(t) == Stranded(s)
  {
    assert t.log[|s.log|] == Frontier(s) && HasUnread(t, Frontier(s));
    forall id ensures id != Frontier(s) ==> (HasUnread(t, id) <==> HasUnread(s, id)) {
      if HasUnread(s, id) {
        var p :| 0 <= p < |s.log| && s.log[p] == id && p !in s.read;
        assert t.log[p] == id;
      }
      if id != Frontier(s) && HasUnread(t, id) {
        var p :| 0 <= p < |t.log| && t.log[p] == id && p !in t.read;
        assert s.log[p] == id;
      }
    }
  }

  lemma QuietStrandsNothing(s: State, t: State)
    requires t.log == s.log && Frontier(t) == Frontier(s) && SameMessages(s.db.outbox, t.db.outbox)
    requires t.read == s.read && t.admitted == s.admitted
    ensures Stranded(t) == Stranded(s)
  {
    SameAnalyticsIds(s.db.outbox, t.db.outbox);
    forall id ensures HasUnread(t, id) <==> HasUnread(s, id) {
    }
  }

  /** With unpublished rows, the relay's next healthy step publishes one or gets closer to it. */
  lemma RelayAdvances(s: State, c: Config)
    requires RelayOk(s, c) && OffsetsOk(s, c) && c.batchSize > 0 && s.published < |s.db.outbox|
    ensures var t := Next(s, RelayDue(s), c);
            && Advances(s, t)
            && (|| t.published > s.published
                || (t.published == s.published && PassOnTrack(t, c) && Stage(t, c) < Stage(s, c)))
  {
    var t := Next(s, RelayDue(s), c);
    SameIsSame(s.db.outbox);
    RelayLeavesProjector(s, RelayDue(s), c);
    match RelayDue(s) {
      case Claim =>
        ClaimAdvances(s, c);
        QuietStrandsNothing(s, t);
      case Send(_) =>
        SendAdvances(s, c);
        SendStrandsNothing(s, t);
      case _ =>
        EndPassAdvances(s, c);
        QuietStrandsNothing(s, t);
    }
  }

  // --- The projector's part -------------------------------------------------------------

  /** Only the projector's own sets changed. */
  predicate SameUpstream(s: State, t: State) {
    t.db == s.db && t.log == s.log && t.sent == s.sent && t.published == s.published && t.relay == s.relay
  }

  /** The oldest unread message is at its partition's offset. */
  lemma OldestIsNext(s: State, c: Config) returns (position: nat)
    requires UnreadPositions(s) != {}
    ensures AtOffset(s, position, c)
  {
    position :| position in UnreadPositions(s);
    while exists q :: 0 <= q < position && q in UnreadPositions(s)
      invariant position in UnreadPositions(s)
      decreases position
    {
      var older :| 0 <= older < position && older in UnreadPositions(s);
      position := older;
    }
    forall q | 0 <= q < position && OnTopic(s, q) && c.partition(q) == c.partition(position) ensures q in s.read {
      assert q !in UnreadPositions(s);
    }
  }

  lemma DeliveryAdvances(s: State, c: Config, position: nat)
    requires Funnel(s) && AtOffset(s, position, c)
    ensures var t := Next(s, Deliver(position, Consumer.GateOk), c);
            && Advances(s, t) && SameUpstream(s, t)
            && UnreadPositions(t) == UnreadPositions(s) - {position}
  {
    var t := Next(s, Deliver(position, Consumer.GateOk), c);
    SameIsSame(s.db.outbox);
    forall id | id != s.log[position] ensures HasUnread(t, id) <==> HasUnread(s, id) {
      if HasUnread(s, id) {
        var p :| 0 <= p < |s.log| && s.log[p] == id && p !in s.read;
        assert p !in t.read;
      }
    }
    assert HasUnread(s, s.log[position]);
    assert s.log[position] in t.admitted;
  }

  lemma ProjectionAdvances(s: State, c: Config, id: nat)
    requires Funnel(s) && id in s.inflight
    ensures var t := Next(s, Project(id, ApplyOk), c);
            && Advances(s, t) && SameUpstream(s, t)
            && UnreadPositions(t) == UnreadPositions(s) && t.inflight == s.inflight - {id}
  {
    var t := Next(s, Project(id, ApplyOk), c);
    SameIsSame(s.db.outbox);
    assert t.admitted == s.admitted && t.read == s.read;
    QuietStrandsNothing(s, t);
  }

  // --- All of it ---------------------------------------------------------------------------

  lemma AdvancesCompose(s: State, t: State, u: State)
    requires Advances(s, t) && Advances(t, u)
    ensures Advances(s, u)
  {
  }

  lemma ContinueCons(s: State, a: Action, rest: seq<Action>, c: Config)
    ensures Continue(s, [a] + rest, c) == Continue(Next(s, a, c), rest, c)
  {
    assert ([a] + rest)[1..] == rest;
  }

  /** What is left to do, most significant first. */
  ghost predicate Closer(s: State, t: State, c: Config)
    requires PassOnTrack(s, c) && PassOnTrack(t, c)
  {
    || s.published < t.published
    || (s.published == t.published && Stage(t, c) < Stage(s, c))
    || (s.published == t.published && Stage(t, c) == Stage(s, c) && UnreadPositions(t) < UnreadPositions(s))
    || (s.published == t.published && Stage(t, c) == Stage(s, c) && UnreadPositions(t) == UnreadPositions(s) && t.inflight < s.inflight)
  }

  lemma ProjectorDue(s: State, c: Config) returns (a: Action)
    requires RelayOk(s, c) && Funnel(s) && s.published == |s.db.outbox| && !CaughtUp(s)
    ensures HealthyStep(a)
    ensures var t := Next(s, a, c);
            && Advances(s, t) && SameUpstream(s, t)
            && (|| UnreadPositions(t) < UnreadPositions(s)
                || (UnreadPositions(t) == UnreadPositions(s) && t.inflight < s.inflight))
  {
    if UnreadPositions(s) != {} {
      var position := OldestIsNext(s, c);
      a := Deliver(position, Consumer.GateOk);
      DeliveryAdvances(s, c, position);
    } else {
      var id :| id in s.inflight;
      a := Project(id, ApplyOk);
      ProjectionAdvances(s, c, id);
    }
  }

  lemma NextDue(s: State, c: Config) returns (a: Action)
    requires Inv(s, c) && OffsetsOk(s, c) && c.batchSize > 0 && !CaughtUp(s)
    ensures HealthyStep(a)
    ensures Inv(Next(s, a, c), c) && OffsetsOk(Next(s, a, c), c) && Advances(s, Next(s, a, c)) && Closer(s, Next(s, a, c), c)
  {
    if s.published < |s.db.outbox| {
      a := RelayDue(s);
      RelayAdvances(s, c);
    } else {
      a := ProjectorDue(s, c);
    }
    NextKeepsInv(s, a, c);
    NextKeepsOffsets(s, a, c);
  }

  lemma CloserIsLess(s: State, t: State, c: Config)
    requires RelayOk(s, c) && RelayOk(t, c) && SameMessages(s.db.outbox, t.db.outbox) && Closer(s, t, c)
    ensures t.published <= |t.db.outbox| == |s.db.outbox|
    ensures s.published < t.published || (s.published == t.published &&
              (Stage(t, c) < Stage(s, c) || (Stage(t, c) == Stage(s, c) &&
                (|| |UnreadPositions(t)| < |UnreadPositions(s)|
                 || (|UnreadPositions(t)| == |UnreadPositions(s)| && |t.inflight| < |s.inflight|)))))
  {
    if UnreadPositions(t) < UnreadPositions(s) { SmallerSet(UnreadPositions(t), UnreadPositions(s)); }
    if t.inflight < s.inflight { SmallerSet(t.inflight, s.inflight); }
  }

  lemma SmallerSet(a: set<nat>, b: set<nat>)
    requires a < b
    ensures |a| < |b|
  {
    assert b == a + (b - a);
  }

  lemma StepCloser(s: State, c: Config) returns (a: Action, t: State)
    requires Inv(s, c) && OffsetsOk(s, c) && c.batchSize > 0 && !CaughtUp(s)
    ensures HealthyStep(a) && t == Next(s, a, c) && Inv(t, c) && OffsetsOk(t, c) && Advances(s, t)
    ensures t.published <= |t.db.outbox| == |s.db.outbox|
    ensures s.published < t.published || (s.published == t.published &&
              (Stage(t, c) < Stage(s, c) || (Stage(t, c) == Stage(s, c) &&
                (|| |UnreadPositions(t)| < |UnreadPositions(s)|
                 || (|UnreadPositions(t)| == |UnreadPositions(s)| && |t.inflight| < |s.inflight|)))))
  {
    a := NextDue(s, c);
    t := Next(s, a, c);
    CloserIsLess(s, t, c);
  }

  /** Healthy steps end, with everything sent, read and decided, and strand and abandon
      nothing more. */
  lemma {:induction false} CatchUp(s: State, c: Config) returns (more: seq<Action>)
    requires Inv(s, c) && OffsetsOk(s, c) && c.batchSize > 0
    ensures AllHealthySteps(more)
    ensures var t := Continue(s, more, c); CaughtUp(t) && Advances(s, t) && Inv(t, c)
    decreases |s.db.outbox| - s.published, Stage(s, c), |UnreadPositions(s)|, |s.inflight|
  {
    if CaughtUp(s) {
      SameIsSame(s.db.outbox);
      return [];
    }
    var a, t := StepCloser(s, c);
    var rest := CatchUp(t, c);
    more := [a] + rest;
    ContinueCons(s, a, rest, c);
    AdvancesCompose(s, t, Continue(t, rest, c));
  }

  lemma NoUnreadCopy(s: State, id: nat)
    requires UnreadPositions(s) == {} && id in AnalyticsIds(s.db.outbox)
    ensures !HasUnread(s, id)
  {
    forall p | 0 <= p < |s.log| && s.log[p] == id ensures p in s.read {
      assert p !in UnreadPositions(s);
    }
  }

  /** Once caught up, what is claimed is everything but the abandoned and the stranded. */
  lemma CaughtUpClaims(s: State, t: State, c: Config)
    requires Advances(s, t) && CaughtUp(t) && Inv(t, c)
    ensures t.projection.seen == AnalyticsIds(s.db.outbox) - Abandoned(s) - Stranded(s)
    ensures Claimed(t) == TaskIds(s.db.outbox) - Abandoned(s) - Stranded(s)
    ensures LostTasks(t) == LostTasks(s)
  {
    SameAnalyticsIds(s.db.outbox, t.db.outbox);
    forall id | id in AnalyticsIds(t.db.outbox) && id !in t.admitted ensures id in Stranded(t) {
      NoUnreadCopy(t, id);
    }
    assert LostTasks(t) == TaskIds(t.db.outbox) * Abandoned(t) && LostTasks(s) == TaskIds(s.db.outbox) * Abandoned(s);
  }

  lemma FirstThenHealthy(first: Action, rest: seq<Action>)
    requires AllHealthySteps(rest)
    ensures ([first] + rest)[1..] == rest
    ensures !first.Replay? ==> NoReplay([first] + rest)
  {
    forall i | 1 <= i < |[first] + rest| ensures HealthyStep(([first] + rest)[i]) {
      assert ([first] + rest)[i] == rest[i - 1];
    }
  }

  /** What a continuation brought into the report: all completions but the lost and `out`. */
  ghost predicate CountsAllBut(s: State, t: State, out: set<nat>) {
    && t.db.performances == s.db.performances
    && LostTasks(t) == LostTasks(s)
    && Claimed(t) == TaskIds(s.db.outbox) - LostTasks(s) - out
    && Counted(t) == |Claimed(t)|
  }

  lemma CountsCarryOver(s: State, u: State, t: State, stranded: set<nat>, out: set<nat>)
    requires u.db == s.db && LostTasks(u) == LostTasks(s)
    requires TaskIds(s.db.outbox) * stranded == TaskIds(s.db.outbox) * out
    requires CountsAllBut(u, t, stranded)
    ensures CountsAllBut(s, t, out)
  {
    SameRest(TaskIds(s.db.outbox), LostTasks(s), stranded, out);
  }

  lemma SameRest(all: set<nat>, lost: set<nat>, a: set<nat>, b: set<nat>)
    requires all * a == all * b
    ensures all - lost - a == all - lost - b
  {
    forall id ensures id in all - lost - a <==> id in all - lost - b {
      assert id in all * a <==> id in all * b;
    }
  }

  lemma CatchUpCounts(s: State, c: Config) returns (more: seq<Action>)
    requires Inv(s, c) && OffsetsOk(s, c) && c.batchSize > 0
    ensures AllHealthySteps(more)
    ensures CountsAllBut(s, Continue(s, more, c), Stranded(s))
  {
    more := CatchUp(s, c);
    CaughtUpClaims(s, Continue(s, more, c), c);
    ClaimsTotal(Continue(s, more, c), c);
  }

  /** From every reachable state, if nothing fails from now on and nothing new is written,
      the report comes to count every committed completion but the lost ones and those
      read past without being admitted that the relay will not send again. */
  lemma {:induction false} HealthyCatchUp(actions: seq<Action>, c: Config) returns (more: seq<Action>)
    requires c.batchSize > 0
    ensures AllHealthySteps(more)
    ensures CountsAllBut(Run(actions, c), Run(actions + more, c), Stranded(Run(actions, c)))
  {
    EveryRunKeepsInv(actions, c);
    EveryRunKeepsOffsets(actions, c);
    more := CatchUpCounts(Run(actions, c), c);
    ContinueIsRun(actions, more, c);
  }

  /** A relay that dies gives back its pass; between passes, stranded completions are the
      skipped ones. */
  lemma DyingRelay(s: State, c: Config)
    requires Inv(s, c)
    ensures var t := Next(s, RelayDies, c);
            && t.db == s.db && LostTasks(t) == LostTasks(s)
            && TaskIds(s.db.outbox) * Stranded(t) == Skipped(s)
  {
    var t := Next(s, RelayDies, c);
    assert t == s.(relay := Resting);
    forall id ensures HasUnread(t, id) <==> HasUnread(s, id) {
    }
  }

  lemma RestThenCatchUp(s: State, c: Config) returns (more: seq<Action>)
    requires Inv(s, c) && OffsetsOk(s, c) && c.batchSize > 0
    ensures NoReplay(more)
    ensures CountsAllBut(s, Continue(s, more, c), Skipped(s))
  {
    var rested := Next(s, RelayDies, c);
    DyingRelay(s, c);
    NextKeepsInv(s, RelayDies, c);
    NextKeepsOffsets(s, RelayDies, c);
    var rest := CatchUpCounts(rested, c);
    CountsCarryOver(s, rested, Continue(rested, rest, c), Stranded(rested), Skipped(s));
    FirstThenHealthy(RelayDies, rest);
    ContinueCons(s, RelayDies, rest, c);
    more := [RelayDies] + rest;
  }

  /** Exactly the lost and the skipped completions stay missing: unless the group goes
      back no continuation counts one of them, and some continuation without a new write
      counts all the others. */
  lemma {:induction false} OnlyLostAndSkippedAreMissing(actions: seq<Action>, c: Config) returns (more: seq<Action>)
    requires c.batchSize > 0
    ensures NoReplay(more)
    ensures var s, t := Run(actions, c), Run(actions + more, c);
            && CountsAllBut(s, t, Skipped(s))
            && Counted(t) == |s.db.performances| - |LostTasks(s)| - |Skipped(s)|
    ensures forall other :: NoReplay(other) ==>
              var s, u := Run(actions, c), Run(actions + other, c);
              && Claimed(u) !! LostTasks(s) + Skipped(s)
              && Counted(u) <= |u.db.performances| - |LostTasks(s)| - |Skipped(s)|
  {
    var s := Run(actions, c);
    forall other | NoReplay(other)
      ensures Claimed(Run(actions + other, c)) !! LostTasks(s) + Skipped(s)
      ensures Counted(Run(actions + other, c)) <= |Run(actions + other, c).db.performances| - |LostTasks(s)| - |Skipped(s)|
    {
      MissingStayMissing(actions, other, c);
    }
    EveryRunKeepsInv(actions, c);
    EveryRunKeepsOffsets(actions, c);
    more := RestThenCatchUp(s, c);
    ContinueIsRun(actions, more, c);
    OneTaskIdPerAnnouncement(s.db.outbox);
    TwoApart(TaskIds(s.db.outbox), LostTasks(s), Skipped(s));
  }

  /** A committed completion can still be counted, without going back, exactly if it was
      neither lost nor skipped. */
  lemma {:induction false} CanBeCountedIff(actions: seq<Action>, c: Config, id: nat)
    requires c.batchSize > 0 && id in TaskIds(Run(actions, c).db.outbox)
    ensures (exists more :: NoReplay(more) && id in Claimed(Run(actions + more, c))) <==>
            id !in LostTasks(Run(actions, c)) + Skipped(Run(actions, c))
  {
    var more := OnlyLostAndSkippedAreMissing(actions, c);
    assert NoReplay(more);
  }

  /** A completion that was sent and not admitted can still be admitted, without going
      back, exactly if it has an unread copy or its row is unpublished. */
  lemma {:induction false} CanBeAdmittedIff(actions: seq<Action>, c: Config, id: nat)
    requires c.batchSize > 0
    requires var s := Run(actions, c); id in TaskIds(s.db.outbox) && id < s.sent && id !in s.admitted
    ensures var s := Run(actions, c);
            (exists more :: NoReplay(more) && id in Run(actions + more, c).admitted) <==> HasUnread(s, id) || s.published <= id
  {
    var s := Run(actions, c);
    if id in Skipped(s) {
      forall more | NoReplay(more) ensures id !in Run(actions + more, c).admitted {
        SkippedIsFinal(actions, more, c);
      }
    } else {
      var more := OnlyLostAndSkippedAreMissing(actions, c);
      EveryRunKeepsInv(actions + more, c);
      assert NoReplay(more) && id in Claimed(Run(actions + more, c));
    }
  }

  // --- Going back ------------------------------------------------------------------------------

  lemma {:induction false} SentIsLogged(log: seq<nat>, id: nat) returns (position: nat)
    requires id in Deduplicated(log)
    ensures position < |log| && log[position] == id
  {
    if Last(log) == id {
      position := |log| - 1;
    } else {
      position := SentIsLogged(Init(log), id);
    }
  }

  /** With nothing read, every id sent has an unread copy. */
  lemma NothingReadStrandsNothing(s: State, c: Config)
    requires RelayOk(s, c) && s.read == {}
    ensures Stranded(s) == {}
  {
    forall id | id in AnalyticsIds(s.db.outbox) && id < Frontier(s) ensures HasUnread(s, id) {
      assert UpTo(s.sent)[id] == id;
      var position := SentIsLogged(s.log, id);
      assert s.log[position] == id && position !in s.read;
    }
  }

  lemma NothingReadIsSound(s: State, t: State, c: Config)
    requires Inv(s, c) && t == s.(read := {})
    ensures Inv(t, c) && OffsetsOk(t, c)
  {
    ProjectorMoved(s, t, c);
  }

  lemma ReplayAll(s: State, c: Config)
    ensures Next(s, Replay(0), c) == s.(read := {})
  {
  }

  lemma GoingBack(s: State, c: Config)
    requires Inv(s, c)
    ensures var t := Next(s, Replay(0), c);
            && Inv(t, c) && OffsetsOk(t, c) && Stranded(t) == {}
            && t.db == s.db && LostTasks(t) == LostTasks(s)
  {
    var t := Next(s, Replay(0), c);
    ReplayAll(s, c);
    NothingReadIsSound(s, t, c);
    NothingReadStrandsNothing(t, c);
  }

  lemma BackThenCatchUp(s: State, c: Config) returns (more: seq<Action>)
    requires Inv(s, c) && OffsetsOk(s, c) && c.batchSize > 0
    ensures more != [] && more[0] == Replay(0) && AllHealthySteps(more[1..])
    ensures CountsAllBut(s, Continue(s, more, c), {})
  {
    var back := Next(s, Replay(0), c);
    GoingBack(s, c);
    var rest := CatchUpCounts(back, c);
    CountsCarryOver(s, back, Continue(back, rest, c), {}, {});
    FirstThenHealthy(Replay(0), rest);
    ContinueCons(s, Replay(0), rest, c);
    more := [Replay(0)] + rest;
  }

  /** What going back to the earliest message recovers: everything but the lost ones,
      whose ids the gate knows. */
  lemma {:induction false} OnlyTheLostAreMissing(actions: seq<Action>, c: Config) returns (more: seq<Action>)
    requires c.batchSize > 0
    ensures more != [] && more[0] == Replay(0) && AllHealthySteps(more[1..])
    ensures var s, t := Run(actions, c), Run(actions + more, c);
            && CountsAllBut(s, t, {})
            && Counted(t) == |s.db.performances| - |LostTasks(s)|
  {
    var s := Run(actions, c);
    EveryRunKeepsInv(actions, c);
    EveryRunKeepsOffsets(actions, c);
    more := BackThenCatchUp(s, c);
    ContinueIsRun(actions, more, c);
    OneTaskIdPerAnnouncement(s.db.outbox);
    TwoApart(TaskIds(s.db.outbox), LostTasks(s), {});
  }

  /** The group starts over with an empty gate and an empty read model. */
  function Rebuilt(s: State): State {
    s.(read := {}, admitted := {}, inflight := {}, projection := NOTHING)
  }

  lemma RebuiltKeepsInv(s: State, c: Config)
    requires Inv(s, c)
    ensures Inv(Rebuilt(s), c) && OffsetsOk(Rebuilt(s), c)
  {
    var t := Rebuilt(s);
    FoldIsReference([]);
    assert EffectsOf({}, s.db.outbox) == map[];
    ProjectorMoved(s, t, c);
  }

  /** Replayed from the earliest message into empty tables, the topic tells the whole
      performance table, whatever went wrong before. */
  lemma {:induction false} RebuildTellsTheTable(actions: seq<Action>, c: Config) returns (more: seq<Action>)
    requires c.batchSize > 0
    ensures AllHealthySteps(more)
    ensures var s := Run(actions, c);
            var t := Continue(Rebuilt(s), more, c);
            && t.db.performances == s.db.performances
            && TasksOnly(SumKeys(t.projection.rows, t.projection.rows.Keys)) == Tally(s.db.performances)
  {
    var s := Run(actions, c);
    EveryRunKeepsInv(actions, c);
    RebuiltKeepsInv(s, c);
    NothingReadStrandsNothing(Rebuilt(s), c);
    more := CatchUp(Rebuilt(s), c);
    var t := Continue(Rebuilt(s), more, c);
    CaughtUpClaims(Rebuilt(s), t, c);
    SameAnalyticsIds(s.db.outbox, t.db.outbox);
    assert t.projection.seen == AnalyticsIds(t.db.outbox);
    ReadModelTellsTable(t, c);
  }
}
