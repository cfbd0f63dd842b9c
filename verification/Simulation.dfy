/** The relay, the fulfillment consumer and the projector as written are those of the
    pipeline: whatever a pass of OutboxRelay, an attempt or a whole message of the consumer,
    or a message of the projector may do, by its contract, some steps of the machine do. */
module Simulation {
  import opened Base
  import opened Oltp
  import opened Consistency
  import opened FrozenScoring
  import opened Consumers
  import opened Relay
  import opened Pipeline
  import opened CatchingUp

  lemma {:induction false} ContinueConcat(s: State, first: seq<Action>, second: seq<Action>, c: Config)
    ensures Continue(s, first + second, c) == Continue(Continue(s, first, c), second, c)
    decreases |first|
  {
    if first == [] {
      assert first + second == second;
    } else {
      assert (first + second)[0] == first[0] && (first + second)[1..] == first[1..] + second;
      ContinueConcat(Next(s, first[0], c), first[1..], second, c);
    }
  }

  lemma ContinueOne(s: State, a: Action, c: Config)
    ensures Continue(s, [a], c) == Next(s, a, c)
  {
    assert [a][1..] == [];
    assert Continue(Next(s, a, c), [], c) == Next(s, a, c);
  }

  /** Only what the relay moves has moved. */
  predicate RelayOnly(s: State, t: State) {
    && t.source == s.source && t.offset == s.offset && t.consumer == s.consumer && t.dlq == s.dlq
    && t.read == s.read && t.admitted == s.admitted && t.inflight == s.inflight && t.projection == s.projection
    && t.db.(outbox := []) == s.db.(outbox := [])
  }

  function Sends(n: nat): seq<Action> {
    seq(n, _ => Send(Delivered))
  }

  /** n acknowledged sends of a pass. */
  lemma {:induction false} SendsRun(s: State, n: nat, c: Config)
    requires s.relay.Passing? && !s.relay.failed && s.relay.count + n <= s.relay.limit
    ensures var t := Continue(s, Sends(n), c);
            && t.relay == s.relay.(count := s.relay.count + n)
            && t.log == s.log + Between(s.published + s.relay.count, s.published + s.relay.count + n)
            && t.published == s.published && t.db == s.db && RelayOnly(s, t)
  {
    if n == 0 {
      NothingSent(s.log, s.published + s.relay.count);
    } else {
      SendsRun(s, n - 1, c);
      ContinueConcat(s, Sends(n - 1), [Send(Delivered)], c);
      ContinueOne(Continue(s, Sends(n - 1), c), Send(Delivered), c);
      assert Sends(n) == Sends(n - 1) + [Send(Delivered)];
      OneMoreSent(s.log, s.published + s.relay.count, s.published + s.relay.count + n - 1);
    }
  }

  /** The send a pass stops at, if it got that far. */
  function LastSend(stop: Stop, reached: bool): seq<Action> {
    if reached then [Send(DeliveredUnacknowledged)]
    else if stop == SendFailed then [Send(Refused)]
    else []
  }

  lemma LastSendRun(s: State, stop: Stop, reached: bool, c: Config)
    requires s.relay.Passing? && !s.relay.failed
    requires stop != Finished ==> s.relay.count < s.relay.limit
    requires reached ==> stop != Finished
    ensures var t := Continue(s, LastSend(stop, reached), c);
            && t.relay == s.relay.(failed := stop == SendFailed || reached)
            && t.log == (if reached then s.log + [s.published + s.relay.count] else s.log)
            && t.published == s.published && t.db == s.db && RelayOnly(s, t)
  {
    if reached {
      ContinueOne(s, Send(DeliveredUnacknowledged), c);
    } else if stop == SendFailed {
      ContinueOne(s, Send(Refused), c);
    }
  }

  /** How a pass ends: with its commit, or without a trace in the table. */
  lemma EndRun(s: State, committed: bool, c: Config)
    requires s.relay.Passing?
    requires committed ==> Enabled(s, EndPass(Acknowledged), c)
    ensures var t := Continue(s, [if committed then EndPass(Acknowledged) else RelayDies], c);
            && t.relay.Resting? && t.log == s.log && RelayOnly(s, t)
            && (!committed ==> t.published == s.published && t.db == s.db)
            && (committed ==> t.published == s.published + s.relay.count
                              && t.db.outbox == PassRows(s.db.outbox, s.published, s.relay.count, s.relay.failed))
  {
    ContinueOne(s, if committed then EndPass(Acknowledged) else RelayDies, c);
  }

  lemma ThreeParts(s: State, first: seq<Action>, second: seq<Action>, third: seq<Action>, c: Config)
    ensures Continue(s, first + (second + third), c) == Continue(Continue(Continue(s, first, c), second, c), third, c)
  {
    ContinueConcat(s, first, second + third, c);
    ContinueConcat(Continue(s, first, c), second, third, c);
  }

  function Tail(count: nat, stop: Stop, reached: bool, committed: bool): seq<Action> {
    Sends(count) + (LastSend(stop, reached) + [if committed then EndPass(Acknowledged) else RelayDies])
  }

  /** From the claim on. */
  lemma TailRun(s: State, count: nat, stop: Stop, reached: bool, committed: bool, c: Config)
    requires s.relay.Passing? && !s.relay.failed && s.relay.count == 0 && s.published + s.relay.limit <= |s.db.outbox|
    requires count <= s.relay.limit && (stop == Finished <==> count == s.relay.limit)
    requires (reached ==> stop != Finished) && (committed ==> stop != Died)
    ensures var t := Continue(s, Tail(count, stop, reached, committed), c);
            && t.relay.Resting? && RelayOnly(s, t)
            && t.log == s.log + Between(s.published, s.published + count) + (if reached then [s.published + count] else [])
            && (!committed ==> t.published == s.published && t.db == s.db)
            && (committed ==> t.published == s.published + count && t.db.outbox == PassRows(s.db.outbox, s.published, count, stop == SendFailed))
  {
    var end := [if committed then EndPass(Acknowledged) else RelayDies];
    ThreeParts(s, Sends(count), LastSend(stop, reached), end, c);
    SendsRun(s, count, c);
    var sent := Continue(s, Sends(count), c);
    LastSendRun(sent, stop, reached, c);
    EndRun(Continue(sent, LastSend(stop, reached), c), committed, c);
  }

  /** Rows, log and frontier after any pass that meets OutboxRelay's contract are those
      after a claim, some sends, and an end of the machine's pass. */
  lemma {:induction false} PassIsRun(s: State, rows: seq<OutboxRow>, log: seq<nat>, published: nat, count: nat, stop: Stop, c: Config)
    returns (actions: seq<Action>)
    requires RelayOk(s, c) && s.relay.Resting?
    requires var limit := Min(c.batchSize, |s.db.outbox| - s.published); count <= limit && (stop == Finished <==> count == limit)
    requires Sent(s.log, log, s.published, count, stop)
    requires CommittedPass(s.db.outbox, rows, s.published, published, count, stop)
    ensures var t := Continue(s, actions, c);
            && t.relay.Resting? && t.log == log && t.published == published
            && t.db.outbox == rows && RelayOnly(s, t)
  {
    var committed := !(published == s.published && rows == s.db.outbox);
    var reached := |log| > |s.log| + count;
    var claimed := Next(s, Claim, c);
    SentEnds(s.log, log, s.published, count, stop);
    ContinueOne(s, Claim, c);
    TailRun(claimed, count, stop, reached, committed, c);
    actions := [Claim] + Tail(count, stop, reached, committed);
    ContinueConcat(s, [Claim], Tail(count, stop, reached, committed), c);
  }

  /** Tables and verdict after any attempt that meets HandleFulfillmentEvent's contract are
      those after an attempt of the machine. */
  lemma {:induction false} AttemptIsAction(s: State, after: Tables, failed: bool, c: Config) returns (a: Action)
    requires s.consumer.Handling? && s.consumer.attempts < MAX_HANDLER_ATTEMPTS && s.offset < |s.source|
    requires var m := s.source[s.offset];
             && !m.decoded.NotACloudEvent?
             && AtMostItsEffect(m, s.db, after, c.capSeconds)
             && (!failed && m.decoded.TaskCompleted? ==> m.decoded.req.kafkaEventId in after.processed)
             && (m.decoded.OtherType? ==> !failed && after == s.db)
             && (m.decoded.MalformedData? ==> failed && after == s.db)
    ensures a.Attempt? && Enabled(s, a, c)
    ensures Next(s, a, c) == s.(db := after, consumer := if failed then Handling(s.consumer.attempts + 1) else Committing)
  {
    var m := s.source[s.offset];
    a := Attempt(0, 0, if failed then Lost else Acknowledged);
    if after != s.db {
      var req := m.decoded.req;
      var now :| RecordsOnce(s.db, after, req, c.capSeconds, now);
      var op := RecordedIsStep(s.db, after, req, c.capSeconds, now);
      a := Attempt(op.now, op.choice, if failed then AppliedUnacknowledged else Acknowledged);
    }
  }

  // --- One message of the fulfillment consumer ----------------------------------------------

  /** Tables, letters and offset after any message that meets HandleMessage's contract are
      those after a fetch and some steps of the machine's consumer. */
  lemma {:induction false} MessageIsRun(s: State, after: Tables, dlq: seq<DeadLetter>, moved: bool, c: Config)
    returns (actions: seq<Action>)
    requires s.consumer.Fetching? && s.offset < |s.source|
    requires MessageHandled(s.source[s.offset], s.db, after, s.dlq, dlq, moved, c.capSeconds)
    ensures Continue(s, actions, c) == s.(db := after, dlq := dlq, offset := if moved then s.offset + 1 else s.offset)
  {
    var m := s.source[s.offset];
    var fetched := Next(s, Fetch, c);
    if m.decoded.NotACloudEvent? {
      var rest := if dlq == s.dlq then [ConsumerDies] else LetterEnd(moved);
      if dlq == s.dlq { ContinueOne(fetched, ConsumerDies, c); } else { LetterRun(fetched, moved, c); }
      actions := [Fetch] + rest;
      ContinueCons(s, Fetch, rest, c);
    } else {
      var failed := dlq != s.dlq || !(m.decoded.OtherType? || (m.decoded.TaskCompleted? && m.decoded.req.kafkaEventId in after.processed));
      var a := AttemptIsAction(fetched, after, failed, c);
      var tried := Next(fetched, a, c);
      var rest := if dlq != s.dlq then [GiveUp] + LetterEnd(moved) else [if moved then CommitOffset(Acknowledged) else ConsumerDies];
      if dlq != s.dlq {
        LetterRun(Next(tried, GiveUp, c), moved, c);
        ContinueCons(tried, GiveUp, LetterEnd(moved), c);
      } else {
        ContinueOne(tried, if moved then CommitOffset(Acknowledged) else ConsumerDies, c);
      }
      actions := [Fetch] + ([a] + rest);
      ContinueCons(fetched, a, rest, c);
      ContinueCons(s, Fetch, [a] + rest, c);
    }
  }

  /** An acknowledged letter, then the commit, or the end of the session. */
  function LetterEnd(moved: bool): seq<Action> {
    [WriteLetter(Written), if moved then CommitOffset(Acknowledged) else ConsumerDies]
  }

  lemma LetterRun(s: State, moved: bool, c: Config)
    requires s.consumer.DeadLettering? && s.offset < |s.source|
    ensures var m := s.source[s.offset];
            Continue(s, LetterEnd(moved), c) ==
            s.(consumer := Fetching, dlq := s.dlq + [DeadLetter(m.key, m.value, s.consumer.cause)],
               offset := if moved then s.offset + 1 else s.offset)
  {
    var end := if moved then CommitOffset(Acknowledged) else ConsumerDies;
    assert LetterEnd(moved) == [WriteLetter(Written)] + [end];
    ContinueCons(s, WriteLetter(Written), [end], c);
    ContinueOne(Next(s, WriteLetter(Written), c), end, c);
  }

  // --- One message of the projector -----------------------------------------------------------

  /** Gate and read model after the analytics consumer handled the message at its offset,
      whatever happened to it, are those after the machine's steps for it. */
  lemma {:induction false} HandlingIsRun(s: State, position: nat, env: Analytics.Env, c: Config) returns (actions: seq<Action>)
    requires Funnel(s) && AtOffset(s, position, c)
    ensures var t := Continue(s, actions, c);
            && t.read == s.read + {position} && t.inflight == s.inflight && t.db == s.db && t.log == s.log
            && Analytics.Projector(t.admitted, t.projection) ==
               Analytics.Handle(Analytics.Projector(s.admitted, s.projection),
                                MessageOf(s.log[position], s.db.outbox[s.log[position]].event), env)
  {
    var id := s.log[position];
    var deliver := Deliver(position, env.gate);
    var t := Next(s, deliver, c);
    if env.gate.GateOk? && id !in s.admitted {
      var end := if env.crashAfterGate then Drop(id) else Project(id, env.apply);
      actions := [deliver] + [end];
      ContinueCons(s, deliver, [end], c);
      ContinueOne(t, end, c);
      assert id !in s.inflight && t.inflight - {id} == s.inflight;
    } else {
      actions := [deliver];
      ContinueOne(s, deliver, c);
    }
  }

  lemma SentEnds(start: seq<nat>, log: seq<nat>, p: nat, count: nat, stop: Stop)
    requires Sent(start, log, p, count, stop)
    ensures |log| == |start| + count ==> log == start + Between(p, p + count)
    ensures |log| > |start| + count ==> stop != Finished && log == start + Between(p, p + count) + [p + count]
  {
    OneMoreSent(start, p, p + count);
  }
}
