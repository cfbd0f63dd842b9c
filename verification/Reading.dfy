/** What the projector's group has read past, and what can no longer reach it. */
module Reading {
  import opened Base
  import opened Pipeline
  import opened Accounting

  // --- Read positions are offsets -------------------------------------------------------

  /** What was read of a partition is a prefix of it: an offset says it all. */
  ghost predicate OffsetsOk(s: State, c: Config) {
    && (forall p :: p in s.read ==> p < |s.log|)
    && (forall p, q :: p in s.read && 0 <= q < p && OnTopic(s, q) && c.partition(q) == c.partition(p) ==> q in s.read)
  }

  /** Every logged position names a row. */
  ghost predicate Logged(s: State) {
    forall p :: 0 <= p < |s.log| ==> s.log[p] < |s.db.outbox|
  }

  lemma InvIsLogged(s: State, c: Config)
    requires Inv(s, c)
    ensures Logged(s)
  {
    forall p | 0 <= p < |s.log| ensures s.log[p] < |s.db.outbox| {
      LoggedIsSent(s.log, s.sent, p);
    }
  }

  /** How any step but the group's own moves the log: not at all, or by the row the
      relay's pass has come to. */
  ghost predicate LogMoves(s: State, t: State) {
    t.log == s.log || exists id :: s.published <= id && t.log == s.log + [id]
  }

  lemma NextMovesLog(s: State, a: Action, c: Config)
    ensures LogMoves(s, Next(s, a, c))
    ensures !a.Replay? ==> s.read <= Next(s, a, c).read
    ensures !a.Deliver? && !a.Replay? ==> Next(s, a, c).read == s.read
    ensures s.published <= Next(s, a, c).published && s.sent <= Next(s, a, c).sent
  {
    if Enabled(s, a, c) && a.Send? && !a.outcome.Refused? {
      assert Next(s, a, c).log == s.log + [s.published + s.relay.count];
    } else {
      assert Next(s, a, c).log == s.log;
    }
    if Upstream(a) { var op := UpstreamWrites(s, a, c); }
  }

  /** The same logged messages, with more behind them, are on the topic as before. */
  lemma SameOnTopic(s: State, t: State, p: nat)
    requires Logged(s) && LogMoves(s, t) && Extends(s.db.outbox, t.db.outbox) && p < |s.log|
    ensures OnTopic(t, p) <==> OnTopic(s, p)
  {
  }

  lemma SameReadKeepsOffsets(s: State, t: State, c: Config)
    requires OffsetsOk(s, c) && Logged(s) && LogMoves(s, t) && Extends(s.db.outbox, t.db.outbox) && t.read == s.read
    ensures OffsetsOk(t, c)
  {
    forall p, q | p in t.read && 0 <= q < p && OnTopic(t, q) && c.partition(q) == c.partition(p) ensures q in t.read {
      SameOnTopic(s, t, q);
    }
  }

  /** A delivery reads the message at its partition's offset. */
  lemma DeliverKeepsOffsets(s: State, position: nat, t: State, c: Config)
    requires AtOffset(s, position, c) && t.db == s.db && t.log == s.log && t.read == s.read + {position}
    requires OffsetsOk(s, c)
    ensures OffsetsOk(t, c)
  {
    forall p, q | p in t.read && 0 <= q < p && OnTopic(t, q) && c.partition(q) == c.partition(p) ensures q in t.read {
      assert OnTopic(s, q);
    }
  }

  /** Going back leaves a prefix of the prefix. */
  lemma ReplayKeepsOffsets(s: State, from: nat, t: State, c: Config)
    requires t.db == s.db && t.log == s.log && t.read == set position | position in s.read && position < from
    requires OffsetsOk(s, c)
    ensures OffsetsOk(t, c)
  {
    forall p, q | p in t.read && 0 <= q < p && OnTopic(t, q) && c.partition(q) == c.partition(p) ensures q in t.read {
      assert p in s.read && OnTopic(s, q);
    }
  }

  lemma NextKeepsOffsets(s: State, a: Action, c: Config)
    requires Inv(s, c) && OffsetsOk(s, c)
    ensures OffsetsOk(Next(s, a, c), c)
  {
    if a.Deliver? {
      if Enabled(s, a, c) { DeliverKeepsOffsets(s, a.position, Next(s, a, c), c); }
    } else if a.Replay? {
      ReplayKeepsOffsets(s, a.from, Next(s, a, c), c);
    } else {
      OthersKeepOffsets(s, a, c);
    }
  }

  lemma OthersKeepOffsets(s: State, a: Action, c: Config)
    requires Inv(s, c) && OffsetsOk(s, c) && !a.Deliver? && !a.Replay?
    ensures OffsetsOk(Next(s, a, c), c)
  {
    InvIsLogged(s, c);
    NextMovesLog(s, a, c);
    NextExtends(s, a, c);
    SameReadKeepsOffsets(s, Next(s, a, c), c);
  }

  /** In every reachable state the group has read a prefix of each partition. */
  lemma {:induction false} EveryRunKeepsOffsets(actions: seq<Action>, c: Config)
    ensures OffsetsOk(Run(actions, c), c)
  {
    if actions != [] {
      EveryRunKeepsOffsets(Init(actions), c);
      EveryRunKeepsInv(Init(actions), c);
      NextKeepsOffsets(Run(Init(actions), c), Last(actions), c);
    }
  }

  // --- Skipped for good -------------------------------------------------------------------

  /** The group's offsets never go back. */
  ghost predicate NoReplay(actions: seq<Action>) {
    forall i :: 0 <= i < |actions| ==> !actions[i].Replay?
  }

  /** A published row is not sent again, so a copy of it that is unread was so before. */
  lemma UnreadWasUnread(s: State, a: Action, c: Config, id: nat)
    requires !a.Replay? && id < s.published && HasUnread(Next(s, a, c), id)
    ensures HasUnread(s, id)
  {
    NextMovesLog(s, a, c);
    var t := Next(s, a, c);
    var position :| 0 <= position < |t.log| && t.log[position] == id && position !in t.read;
    assert position < |s.log| && s.log[position] == id;
  }

  /** Only an unread copy admits. */
  lemma AdmittedWasUnread(s: State, a: Action, c: Config, id: nat)
    requires id !in s.admitted && id in Next(s, a, c).admitted
    ensures HasUnread(s, id)
  {
    if Upstream(a) { var op := UpstreamWrites(s, a, c); }
    assert a.Deliver? && s.log[a.position] == id;
  }

  lemma SkippedSurviveStep(s: State, a: Action, c: Config)
    requires Inv(s, c) && !a.Replay?
    ensures Skipped(s) <= Skipped(Next(s, a, c))
  {
    var t := Next(s, a, c);
    NextMovesLog(s, a, c);
    NextExtends(s, a, c);
    MoreTaskIds(s.db.outbox, t.db.outbox);
    forall id | id in Skipped(s) ensures id in Skipped(t) {
      if id in t.admitted { AdmittedWasUnread(s, a, c, id); }
      if HasUnread(t, id) { UnreadWasUnread(s, a, c, id); }
    }
  }

  lemma SkippedSurviveLast(actions: seq<Action>, a: Action, c: Config)
    requires !a.Replay?
    ensures Skipped(Run(actions, c)) <= Skipped(Next(Run(actions, c), a, c))
  {
    EveryRunKeepsInv(actions, c);
    SkippedSurviveStep(Run(actions, c), a, c);
  }

  /** What the reader skipped stays skipped unless the group goes back. */
  lemma {:induction false} SkippedIsFinal(before: seq<Action>, more: seq<Action>, c: Config)
    requires NoReplay(more)
    ensures Skipped(Run(before, c)) <= Skipped(Run(before + more, c))
  {
    if more == [] {
      assert before + more == before;
    } else {
      assert forall i :: 0 <= i < |Init(more)| ==> Init(more)[i] == more[i];
      SkippedIsFinal(before, Init(more), c);
      assert before + more == before + Init(more) + [Last(more)];
      AppendParts(before + Init(more), Last(more));
      SkippedSurviveLast(before + Init(more), Last(more), c);
    }
  }

  lemma TwoApart(all: set<nat>, a: set<nat>, b: set<nat>)
    requires a !! b && a <= all && b <= all
    ensures |all - a - b| == |all| - |a| - |b|
  {
    assert all == (all - a - b) + a + b;
    assert |a + b| == |a| + |b| && |all| == |all - a - b| + |a + b| by { assert all == (all - a - b) + (a + b); }
  }

  /** However the run goes on, the report can never count what was lost or skipped. */
  lemma {:induction false} MissingStayMissing(before: seq<Action>, more: seq<Action>, c: Config)
    requires NoReplay(more)
    ensures var s, t := Run(before, c), Run(before + more, c);
            && LostTasks(s) <= LostTasks(t) && Skipped(s) <= Skipped(t)
            && Claimed(t) !! LostTasks(s) + Skipped(s)
            && Counted(t) <= |t.db.performances| - |LostTasks(s)| - |Skipped(s)|
  {
    var s, t := Run(before, c), Run(before + more, c);
    VerdictsAreFinal(before, more, c);
    SkippedIsFinal(before, more, c);
    EveryRunKeepsInv(before, c);
    EveryRowIsAccountedFor(before + more, c);
    OneTaskIdPerAnnouncement(t.db.outbox);
    EveryRunKeepsInv(before + more, c);
    TwoApart(TaskIds(t.db.outbox), LostTasks(s), Skipped(s));
    FewerThan(Claimed(t), TaskIds(t.db.outbox) - LostTasks(s) - Skipped(s));
  }

  lemma FewerThan(a: set<nat>, b: set<nat>)
    requires a <= b
    ensures |a| <= |b|
  {
    assert b == a + (b - a);
  }
}
