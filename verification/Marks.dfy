/** What the outbox's own columns say in every reachable state: an error stands only on
    the row the relay is stuck at, and a row without one was never tried or is done. */
module Marks {
  import opened Base
  import opened Oltp
  import FrozenScoring
  import opened Relay
  import opened Pipeline

  /** A row that is neither published nor failed has never been tried; a failed one is
      unpublished and the first such; both kinds of mark cost an attempt. */
  ghost predicate MarkOk(row: OutboxRow, i: nat, published: nat) {
    && (row.published ==> !row.failed && row.attempts >= 1)
    && (row.failed ==> i == published && row.attempts >= 1)
    && (!row.published && !row.failed ==> row.attempts == 0)
  }

  ghost predicate MarksOk(outbox: seq<OutboxRow>, published: nat) {
    forall i :: 0 <= i < |outbox| ==> MarkOk(outbox[i], i, published)
  }

  /** A use case appends rows that nobody has tried. */
  ghost predicate AppendsUntried(outbox: seq<OutboxRow>, outbox': seq<OutboxRow>) {
    && outbox <= outbox'
    && forall i :: |outbox| <= i < |outbox'| ==> !outbox'[i].published && !outbox'[i].failed && outbox'[i].attempts == 0
  }

  lemma StepAppendsUntried(t: Tables, op: FrozenScoring.Op, capSeconds: int)
    ensures AppendsUntried(t.outbox, FrozenScoring.Step(t, op, capSeconds).outbox)
  {
  }

  lemma AppendKeepsMarks(outbox: seq<OutboxRow>, outbox': seq<OutboxRow>, published: nat)
    requires MarksOk(outbox, published) && AppendsUntried(outbox, outbox')
    ensures MarksOk(outbox', published)
  {
    forall i | 0 <= i < |outbox'| ensures MarkOk(outbox'[i], i, published) {
      if i < |outbox| { assert MarkOk(outbox[i], i, published) && outbox'[i] == outbox[i]; }
    }
  }

  lemma PassKeepsMarks(outbox: seq<OutboxRow>, published: nat, count: nat, failed: bool)
    requires MarksOk(outbox, published) && PublishedPrefix(outbox, published)
    requires published + count <= |outbox| && (failed ==> published + count < |outbox|)
    ensures MarksOk(PassRows(outbox, published, count, failed), published + count)
  {
    PassRowsAreMarks(outbox, published, count, failed);
    var rows := PassRows(outbox, published, count, failed);
    forall i | 0 <= i < |rows| ensures MarkOk(rows[i], i, published + count) {
      assert MarkOk(outbox[i], i, published);
    }
  }

  lemma NextKeepsMarks(s: State, a: Action, c: Config)
    requires MarksOk(s.db.outbox, s.published) && PublishedPrefix(s.db.outbox, s.published)
    ensures MarksOk(Next(s, a, c).db.outbox, Next(s, a, c).published)
  {
    if Upstream(a) {
      var op := UpstreamWrites(s, a, c);
      if op.Some? {
        StepAppendsUntried(s.db, op.value, c.capSeconds);
        AppendKeepsMarks(s.db.outbox, FrozenScoring.Step(s.db, op.value, c.capSeconds).outbox, s.published);
      }
    } else if a.EndPass? && Enabled(s, a, c) {
      PassKeepsMarks(s.db.outbox, s.published, s.relay.count, s.relay.failed);
    }
  }

  /** In every reachable state at most one row carries an error, the first unpublished one;
      rows behind it were never tried, rows before it are published without an error. */
  lemma {:induction false} EveryRunKeepsMarks(actions: seq<Action>, c: Config)
    ensures var s := Run(actions, c); MarksOk(s.db.outbox, s.published) && PublishedPrefix(s.db.outbox, s.published)
  {
    EveryRunKeepsInv(actions, c);
    if actions != [] {
      EveryRunKeepsMarks(Init(actions), c);
      NextKeepsMarks(Run(Init(actions), c), Last(actions), c);
    }
  }
}
