/** The outbox relay: an ordered, at-least-once drain of the outbox onto a sink,
    with a crash or failure allowed at every step. */
module Relay {
  import opened Base
  import opened Oltp

  // --- Outbox states -----------------------------------------------------------

  /** Published rows are exactly those before position p. */
  ghost predicate PublishedPrefix(rows: seq<OutboxRow>, p: nat) {
    p <= |rows| && forall i :: 0 <= i < |rows| ==> (rows[i].published <==> i < p)
  }

  function MarkedRow(row: OutboxRow): OutboxRow {
    row.(published := true, attempts := row.attempts + 1, failed := false)
  }

  function FailedRow(row: OutboxRow): OutboxRow {
    row.(attempts := row.attempts + 1, failed := true)
  }

  /** Rows lo..hi marked published, every other row untouched. */
  function MarkRange(rows: seq<OutboxRow>, lo: nat, hi: nat): (marked: seq<OutboxRow>)
    requires lo <= hi <= |rows|
    ensures |marked| == |rows|
    ensures forall i :: 0 <= i < |rows| ==> marked[i] == if lo <= i < hi then MarkedRow(rows[i]) else rows[i]
  {
    seq(|rows|, i requires 0 <= i < |rows| => if lo <= i < hi then MarkedRow(rows[i]) else rows[i])
  }

  lemma MarkGrows(rows: seq<OutboxRow>, lo: nat, hi: nat)
    requires lo <= hi < |rows|
    ensures MarkRange(rows, lo, hi)[hi := MarkedRow(MarkRange(rows, lo, hi)[hi])] == MarkRange(rows, lo, hi + 1)
  {
  }

  // --- The sink's view ------------------------------------------------------------

  /** What a consumer keeps that drops ids it has already seen. */
  function Deduplicated(log: seq<nat>): seq<nat> {
    if log == [] then []
    else
      var before := Deduplicated(Init(log));
      if Last(log) in before then before else before + [Last(log)]
  }

  /** The positions lo, lo + 1, ..., hi - 1. */
  function Between(lo: nat, hi: nat): (s: seq<nat>)
    requires lo <= hi
    ensures |s| == hi - lo && forall i :: 0 <= i < |s| ==> s[i] == lo + i
  {
    seq(hi - lo, i => lo + i)
  }

  /** The positions 0, 1, ..., n - 1. */
  function UpTo(n: nat): (s: seq<nat>)
    ensures |s| == n && forall i :: 0 <= i < n ==> s[i] == i
  {
    seq(n, i => i)
  }

  /** Resending a position changes nothing for a deduplicating consumer; sending
      the next one appends it. */
  lemma SendNext(log: seq<nat>, s: nat, id: nat)
    requires Deduplicated(log) == UpTo(s) && id <= s
    ensures Deduplicated(log + [id]) == UpTo(if id == s then s + 1 else s)
  {
    AppendParts(log, id);
    if id < s {
      assert UpTo(s)[id] == id;
    } else {
      assert id !in UpTo(s);
      assert UpTo(s) + [id] == UpTo(s + 1);
    }
  }

  /** The relay invariant: p rows published, s rows ever sent, first occurrences
      in the sink in id order, and at most one batch sent but not marked. */
  ghost predicate Drained(rows: seq<OutboxRow>, log: seq<nat>, p: nat, s: nat, batchSize: nat) {
    && PublishedPrefix(rows, p)
    && p <= s <= |rows|
    && s <= p + batchSize
    && Deduplicated(log) == UpTo(s)
  }

  /** The ids a consumer of one partition key keeps, in the order it keeps them. */
  function ForKey(ids: seq<nat>, rows: seq<OutboxRow>, topic: Topic, key: string): seq<nat>
    requires forall id :: id in ids ==> id < |rows|
  {
    if ids == [] then []
    else
      assert forall id :: id in Init(ids) ==> id in ids;
      assert Last(ids) in ids;
      var before := ForKey(Init(ids), rows, topic, key);
      if rows[Last(ids)].topic == topic && PartitionKey(topic, rows[Last(ids)].event) == key then before + [Last(ids)] else before
  }

  /** Per partition key a deduplicating consumer sees strictly increasing ids:
      insertion order, with no later event ahead of an earlier one. */
  lemma {:induction false} PerKeyOrder(rows: seq<OutboxRow>, s: nat, topic: Topic, key: string)
    requires s <= |rows|
    ensures var seen := ForKey(UpTo(s), rows, topic, key);
            && (forall i, j :: 0 <= i < j < |seen| ==> seen[i] < seen[j])
            && (forall id: nat :: id in seen <==> id < s && rows[id].topic == topic && PartitionKey(topic, rows[id].event) == key)
  {
    if s > 0 {
      assert Init(UpTo(s)) == UpTo(s - 1) && Last(UpTo(s)) == s - 1;
      PerKeyOrder(rows, s - 1, topic, key);
      var before := ForKey(UpTo(s - 1), rows, topic, key);
      forall i | 0 <= i < |before| ensures before[i] < s - 1 { assert before[i] in before; }
    }
  }

  // --- One pass --------------------------------------------------------------------

  datatype SendOutcome = Delivered | Refused | DeliveredUnacknowledged

  /** What happens to a pass from outside: each send and each mark, the final
      commit, and the step before which the process dies. */
  datatype PassEnv = PassEnv(
    sends: seq<SendOutcome>,
    markFails: Option<nat>,
    commit: CommitOutcome,
    crashBefore: Option<nat>)
  {
    /** The fate of the k-th send of the pass; sends beyond the listed ones succeed. */
    function SendAt(k: nat): SendOutcome {
      if k < |sends| then sends[k] else Delivered
    }
  }

  ghost predicate Unharmed(env: PassEnv) {
    env.markFails.None? && env.crashBefore.None?
  }

  ghost predicate Healthy(env: PassEnv) {
    Unharmed(env) && env.commit == Acknowledged && forall k :: env.SendAt(k) == Delivered
  }

  ghost predicate AllHealthy(envs: seq<PassEnv>, n: nat)
    requires n <= |envs|
  {
    forall k :: 0 <= k < n ==> Healthy(envs[k])
  }

  /** One more pass of at most batchSize rows after k of them. */
  lemma FullBatches(first: nat, k: nat, batchSize: nat, total: nat)
    requires first <= total
    ensures var at := Min(first + k * batchSize, total);
            at + Min(batchSize, total - at) == Min(first + (k + 1) * batchSize, total)
  {
    assert (k + 1) * batchSize == k * batchSize + batchSize;
  }

  datatype Stop = Finished | SendFailed | Died

  /** A pass reached the sink with `count` rows, and perhaps one more if it stopped early. */
  ghost predicate Sent(start: seq<nat>, log: seq<nat>, p: nat, count: nat, stop: Stop) {
    log == start + Between(p, p + count) || (stop != Finished && log == start + Between(p, p + count + 1))
  }

  lemma SentGrows(start: seq<nat>, log: seq<nat>, p: nat, count: nat)
    requires Sent(start, log, p, count, Finished)
    ensures Sent(start, log + [p + count], p, count + 1, Finished)
    ensures Sent(start, log + [p + count], p, count, SendFailed) && Sent(start, log + [p + count], p, count, Died)
  {
    BetweenGrows(p, p + count);
  }

  lemma OneMoreSent(log: seq<nat>, lo: nat, hi: nat)
    requires lo <= hi
    ensures log + Between(lo, hi + 1) == log + Between(lo, hi) + [hi]
  {
    BetweenGrows(lo, hi);
  }

  lemma NothingSent(log: seq<nat>, p: nat)
    ensures log + Between(p, p) == log
  {
  }

  lemma OneMoreKept(before: seq<nat>, after: seq<nat>, s: nat, id: nat)
    requires Deduplicated(before) == UpTo(Max(s, id)) && after == before + [id]
    ensures Deduplicated(after) == UpTo(Max(s, id + 1))
  {
    SendNext(before, Max(s, id), id);
  }

  /** Sending consecutively from the published frontier p <= s keeps first
      occurrences in order, whether rows before s are resent or not. */
  lemma {:induction false} SendRange(log: seq<nat>, s: nat, p: nat, hi: nat)
    requires Deduplicated(log) == UpTo(s) && p <= s && p <= hi
    ensures Deduplicated(log + Between(p, hi)) == UpTo(Max(s, hi))
    decreases hi
  {
    if hi == p {
      NothingSent(log, p);
    } else {
      SendRange(log, s, p, hi - 1);
      OneMoreSent(log, p, hi - 1);
      OneMoreKept(log + Between(p, hi - 1), log + Between(p, hi), s, hi - 1);
    }
  }

  lemma SentIsRange(start: seq<nat>, log: seq<nat>, p: nat, count: nat, stop: Stop)
    requires Sent(start, log, p, count, stop)
    ensures |start| + count <= |log| <= |start| + count + (if stop == Finished then 0 else 1)
    ensures log == start + Between(p, p + |log| - |start|)
  {
  }

  /** Whatever a pass managed to send, the relay invariant holds with the new frontier. */
  lemma SentKeepsDrained(rows: seq<OutboxRow>, start: seq<nat>, log: seq<nat>, p: nat, s: nat, count: nat, stop: Stop, batchSize: nat)
    requires Drained(rows, start, p, s, batchSize) && Sent(start, log, p, count, stop)
    requires var reach := if stop == Finished then count else count + 1; reach <= batchSize && p + reach <= |rows|
    ensures |log| >= |start| + count
    ensures Drained(rows, log, p, Max(s, p + |log| - |start|), batchSize)
  {
    SentIsRange(start, log, p, count, stop);
    SendRange(start, s, p, p + |log| - |start|);
  }

  function FailedAt(rows: seq<OutboxRow>, i: nat): seq<OutboxRow>
    requires i < |rows|
  {
    rows[i := FailedRow(rows[i])]
  }

  /** The rows a pass leaves behind when its commit is applied. */
  function PassRows(rows: seq<OutboxRow>, published: nat, count: nat, failed: bool): seq<OutboxRow>
    requires published + count <= |rows| && (failed ==> published + count < |rows|)
  {
    var marked := MarkRange(rows, published, published + count);
    if failed then FailedAt(marked, published + count) else marked
  }

  predicate SameMessage(row: OutboxRow, row': OutboxRow) {
    row'.topic == row.topic && row'.event == row.event
  }

  /** Field by field: each row sent is published, without an error, after one more attempt;
      the row whose send failed keeps its place, with an error, after one more attempt;
      every other row is as it was. */
  ghost predicate PassMarks(rows: seq<OutboxRow>, rows': seq<OutboxRow>, p: nat, count: nat, failed: bool) {
    && |rows'| == |rows|
    && (forall i :: 0 <= i < |rows| ==> SameMessage(rows[i], rows'[i]))
    && (forall i :: p <= i < p + count && i < |rows| ==>
          rows'[i].published && !rows'[i].failed && rows'[i].attempts == rows[i].attempts + 1)
    && (failed && p + count < |rows| ==>
          var next, next' := rows[p + count], rows'[p + count];
          next'.published == next.published && next'.failed && next'.attempts == next.attempts + 1)
    && (forall i :: 0 <= i < |rows| && !(p <= i < p + count) && !(failed && i == p + count) ==> rows'[i] == rows[i])
  }

  lemma PassRowsAreMarks(rows: seq<OutboxRow>, p: nat, count: nat, failed: bool)
    requires p + count <= |rows| && (failed ==> p + count < |rows|)
    ensures PassMarks(rows, PassRows(rows, p, count, failed), p, count, failed)
  {
  }

  lemma PassRowsSameMessages(rows: seq<OutboxRow>, published: nat, count: nat, failed: bool)
    requires published + count <= |rows| && (failed ==> published + count < |rows|)
    ensures SameMessages(rows, PassRows(rows, published, count, failed))
  {
  }

  /** A pass that sent `count` rows commits all their marks, with the next row's error
      beside them if its send failed, or commits nothing. */
  ghost predicate CommittedPass(rows: seq<OutboxRow>, rows': seq<OutboxRow>, p: nat, p': nat, count: nat, stop: Stop) {
    || (p' == p && rows' == rows)
    || (stop != Died && p' == p + count && p' <= |rows| && (stop == SendFailed ==> p' < |rows|)
        && rows' == PassRows(rows, p, count, stop == SendFailed))
  }

  datatype PassResult = PassOk | PassFailed

  class OutboxRelay {
    const db: Database
    const batchSize: nat
    /** Positions in the order the sink received them. */
    var log: seq<nat>
    /** Rows before this position are published; the table's own marks say the same. */
    ghost var published: nat
    ghost var sent: nat

    constructor (db: Database, batchSize: nat)
      requires PublishedPrefix(db.committed.outbox, 0)
      ensures this.db == db && this.batchSize == batchSize && log == []
      ensures Valid() && published == 0 && sent == 0
    {
      this.db, this.batchSize, log, published, sent := db, batchSize, [], 0, 0;
    }

    ghost predicate Valid()
      reads this, db
    {
      Drained(db.committed.outbox, log, published, sent, batchSize)
    }

    /** Reads up to batchSize unpublished positions, oldest first. */
    method Claim() returns (batch: seq<nat>)
      requires Valid()
      ensures |batch| == Min(batchSize, |db.committed.outbox| - published)
      ensures batch == Between(published, published + |batch|)
    {
      batch := [];
      var rows := db.committed.outbox;
      var i := 0;
      while i < |rows| && |batch| < batchSize
        invariant i <= |rows| && |batch| <= batchSize
        invariant |batch| == if i <= published then 0 else i - published
        invariant forall k :: 0 <= k < |batch| ==> batch[k] == published + k
      {
        if !rows[i].published {
          batch := batch + [i];
        }
        i := i + 1;
      }
    }

    /** The k-th claimed row: sent (an error may still have delivered it), then
        marked in the pass's private copy of the table. */
    static method SendAndMark(id: nat, k: nat, rows: seq<OutboxRow>, log: seq<nat>, env: PassEnv)
      returns (rows': seq<OutboxRow>, log': seq<nat>, stop: Stop)
      requires id < |rows|
      ensures stop == Finished ==> log' == log + [id] && env.SendAt(k) == Delivered && rows' == rows[id := MarkedRow(rows[id])]
      ensures stop != Finished ==> rows' == rows && (log' == log || log' == log + [id])
      ensures stop == SendFailed ==> env.SendAt(k) != Delivered
      ensures stop == Died ==> env.crashBefore == Some(k) || env.markFails == Some(k)
    {
      rows', log' := rows, log;
      if env.crashBefore == Some(k) {
        return rows', log', Died;
      }
      if env.SendAt(k) != Refused {
        log' := log' + [id];
      }
      if env.SendAt(k) != Delivered {
        return rows', log', SendFailed;
      }
      if env.markFails == Some(k) {
        return rows', log', Died;
      }
      rows' := rows'[id := MarkedRow(rows'[id])];
      stop := Finished;
    }

    /** The send loop: the claimed rows in order, stopping at the first that is not
        both sent and marked. */
    static method SendAll(batch: seq<nat>, rows: seq<OutboxRow>, log: seq<nat>, ghost p: nat, env: PassEnv)
      returns (count: nat, rows': seq<OutboxRow>, log': seq<nat>, stop: Stop)
      requires batch == Between(p, p + |batch|) && p + |batch| <= |rows|
      ensures count <= |batch| && (stop == Finished <==> count == |batch|)
      ensures rows' == MarkRange(rows, p, p + count)
      ensures Sent(log, log', p, count, stop)
      ensures stop == SendFailed ==> env.SendAt(count) != Delivered
      ensures forall k :: 0 <= k < count ==> env.SendAt(k) == Delivered
      ensures stop == Died ==> env.crashBefore == Some(count) || env.markFails == Some(count)
    {
      rows', log', count, stop := rows, log, 0, Finished;
      while stop == Finished && count < |batch|
        invariant count <= |batch| && (stop != Finished ==> count < |batch|)
        invariant rows' == MarkRange(rows, p, p + count)
        invariant Sent(log, log', p, count, stop)
        invariant stop == SendFailed ==> env.SendAt(count) != Delivered
        invariant stop == Died ==> env.crashBefore == Some(count) || env.markFails == Some(count)
        invariant forall k :: 0 <= k < count ==> env.SendAt(k) == Delivered
        decreases stop == Finished, |batch| - count
      {
        SentGrows(log, log', p, count);
        MarkGrows(rows, p, p + count);
        rows', log', stop := SendAndMark(batch[count], count, rows', log', env);
        if stop == Finished {
          count := count + 1;
        }
      }
    }

    /** Sends the claimed rows and commits the pass. On a failed send exactly the
        rows before it are committed as published, the failed row alone gets the
        error, and later rows are untouched; after a crash nothing is committed. */
    method PublishBatch(batch: seq<nat>, env: PassEnv) returns (count: nat, r: PassResult, ghost stop: Stop)
      requires Valid()
      requires |batch| <= batchSize && published + |batch| <= |db.committed.outbox|
      requires batch == Between(published, published + |batch|)
      modifies this, db
      ensures Valid() && sent >= old(sent) && count <= |batch|
      ensures Sent(old(log), log, old(published), count, stop) && (stop == Finished <==> count == |batch|)
      ensures CommittedPass(old(db.committed.outbox), db.committed.outbox, old(published), published, count, stop)
      ensures r.PassOk? ==>
                && count == |batch| && published == old(published) + count
                && db.committed.outbox == MarkRange(old(db.committed.outbox), old(published), published)
      ensures Unharmed(env) && env.commit == Acknowledged ==>
                && (r.PassFailed? <==> count < |batch|)
                && (count < |batch| ==>
                      && env.SendAt(count) != Delivered
                      && published == old(published) + count
                      && db.committed.outbox == FailedAt(MarkRange(old(db.committed.outbox), old(published), published), published))
      ensures Unharmed(env) && env.commit == Acknowledged ==>
                && PassMarks(old(db.committed.outbox), db.committed.outbox, old(published), count, count < |batch|)
                && published == old(published) + count
                && forall i :: published <= i < |db.committed.outbox| ==> !db.committed.outbox[i].published
    {
      ghost var before, p := db.committed.outbox, published;
      var rows, last;
      count, rows, last := SendBatch(batch, env);
      stop := last;
      r := FinishPass(rows, count, last, if last == SendFailed then batch[count] else 0, env);
      PassRowsAreMarks(before, p, count, count < |batch|);
    }

    /** The sends of a pass: they reach the sink whatever becomes of the pass's marks. */
    method SendBatch(batch: seq<nat>, env: PassEnv) returns (count: nat, rows: seq<OutboxRow>, stop: Stop)
      requires Valid()
      requires |batch| <= batchSize && published + |batch| <= |db.committed.outbox|
      requires batch == Between(published, published + |batch|)
      modifies this`log, this`sent
      ensures Valid() && sent >= old(sent) && published + count <= sent
      ensures Sent(old(log), log, published, count, stop)
      ensures count <= |batch| && (stop == Finished <==> count == |batch|)
      ensures rows == MarkRange(db.committed.outbox, published, published + count)
      ensures stop == SendFailed ==> env.SendAt(count) != Delivered
      ensures stop == Died ==> env.crashBefore == Some(count) || env.markFails == Some(count)
      ensures forall k :: 0 <= k < count ==> env.SendAt(k) == Delivered
    {
      ghost var start := log;
      count, rows, log, stop := SendAll(batch, db.committed.outbox, log, published, env);
      sent := Max(sent, published + |log| - |start|);
      SentKeepsDrained(db.committed.outbox, start, log, published, old(sent), count, stop, batchSize);
    }

    /** Commits the pass's table, with the failed row's error if a send failed;
        nothing if the process died or the commit is lost. */
    method FinishPass(marked: seq<OutboxRow>, count: nat, stop: Stop, failedId: nat, env: PassEnv) returns (r: PassResult)
      requires Valid() && published + count <= sent
      requires marked == MarkRange(db.committed.outbox, published, published + count)
      requires stop == SendFailed ==> failedId == published + count < |marked|
      modifies db, this`published
      ensures Valid()
      ensures published >= old(published)
      ensures CommittedPass(old(db.committed.outbox), db.committed.outbox, old(published), published, count, stop)
      ensures r.PassOk? ==> stop == Finished && published == old(published) + count && db.committed.outbox == marked
      ensures stop != Died && env.crashBefore.None? && env.commit == Acknowledged ==>
                && (r.PassOk? <==> stop == Finished)
                && published == old(published) + count
                && (stop == SendFailed ==> db.committed.outbox == FailedAt(marked, published))
                && PassMarks(old(db.committed.outbox), db.committed.outbox, old(published), count, stop == SendFailed)
    {
      PassRowsAreMarks(db.committed.outbox, published, count, stop == SendFailed);
      if stop == Died || env.crashBefore == Some(count) || env.commit == Lost {
        return PassFailed;
      }
      var rows := if stop == SendFailed then FailedAt(marked, failedId) else marked;
      db.committed := db.committed.(outbox := rows);
      published := published + count;
      r := if stop == Finished && env.commit == Acknowledged then PassOk else PassFailed;
    }

    /** One pass over the oldest unpublished rows. With a batch size of zero it claims
        and publishes nothing. */
    method RelayOnce(env: PassEnv) returns (count: nat, r: PassResult, ghost stop: Stop)
      requires Valid()
      modifies this, db
      ensures Valid() && published >= old(published) && sent >= old(sent)
      ensures SameMessages(old(db.committed.outbox), db.committed.outbox)
      ensures CommittedPass(old(db.committed.outbox), db.committed.outbox, old(published), published, count, stop)
      ensures Sent(old(log), log, old(published), count, stop)
      ensures stop == Finished <==> count == Min(batchSize, |old(db.committed.outbox)| - old(published))
      ensures count <= Min(batchSize, |old(db.committed.outbox)| - old(published))
      ensures r.PassOk? ==>
                && stop == Finished
                && published == old(published) + count
      ensures Healthy(env) ==> r.PassOk?
      ensures Unharmed(env) && env.commit == Acknowledged ==>
                PassMarks(old(db.committed.outbox), db.committed.outbox, old(published), count, stop == SendFailed)
      ensures Healthy(env) ==> forall i :: old(published) <= i < published ==>
                db.committed.outbox[i].published && !db.committed.outbox[i].failed
    {
      var batch := Claim();
      count, r, stop := PublishBatch(batch, env);
    }

    /** Any number of passes, whatever happens to them: the relay invariant holds
        after every one, and neither frontier moves back. Healthy passes publish full
        batches until nothing is left, each row sent once more than before. */
    method Run(envs: seq<PassEnv>)
      requires Valid()
      modifies this, db
      ensures Valid() && published >= old(published) && sent >= old(sent)
      ensures SameMessages(old(db.committed.outbox), db.committed.outbox)
      ensures AllHealthy(envs, |envs|) ==>
                && published == Min(old(published) + |envs| * batchSize, |old(db.committed.outbox)|)
                && log == old(log) + Between(old(published), published)
    {
      ghost var rows, start, first := db.committed.outbox, log, published;
      assert log == start + Between(first, first);
      for k := 0 to |envs|
        invariant Valid() && published >= first && sent >= old(sent)
        invariant SameMessages(rows, db.committed.outbox)
        invariant AllHealthy(envs, k) ==> published == Min(first + k * batchSize, |rows|) && log == start + Between(first, published)
      {
        ghost var before, at := log, published;
        var _, _, _ := RelayOnce(envs[k]);
        if AllHealthy(envs, k + 1) {
          FullBatches(first, k, batchSize, |rows|);
          SentJoin(start, before, log, first, at, published);
        }
      }
    }

    /** With a positive batch size and a healthy sink, the pending rows drain in
        exactly ceil(pending / batchSize) non-empty passes, each sent exactly once,
        in order. */
    method Drain(env: PassEnv) returns (passes: nat)
      requires Valid() && batchSize > 0
      requires Healthy(env)
      modifies this, db
      ensures Valid()
      ensures published == |db.committed.outbox| == |old(db.committed.outbox)|
      ensures passes == Passes(|old(db.committed.outbox)| - old(published), batchSize)
      ensures log == old(log) + Between(old(published), published)
    {
      passes := 0;
      ghost var start, first, total := log, published, |db.committed.outbox|;
      assert log == start + Between(first, first);
      var pending := true;
      while pending
        invariant Valid() && first <= published <= total == |db.committed.outbox|
        invariant passes + Passes(total - published, batchSize) == Passes(total - first, batchSize)
        invariant log == start + Between(first, published)
        invariant !pending ==> published == total
        decreases total - published, pending
      {
        ghost var before, at := log, published;
        var count, _, _ := RelayOnce(env);
        SentJoin(start, before, log, first, at, published);
        if count == 0 {
          pending := false;
        } else {
          passes := passes + 1;
        }
      }
    }
  }

  lemma BetweenGrows(lo: nat, hi: nat)
    requires lo <= hi
    ensures Between(lo, hi) + [hi] == Between(lo, hi + 1)
  {
  }

  lemma BetweenJoins(lo: nat, mid: nat, hi: nat)
    requires lo <= mid <= hi
    ensures Between(lo, mid) + Between(mid, hi) == Between(lo, hi)
  {
  }

  lemma SentJoin(start: seq<nat>, before: seq<nat>, log: seq<nat>, lo: nat, mid: nat, hi: nat)
    requires lo <= mid <= hi && before == start + Between(lo, mid) && log == before + Between(mid, hi)
    ensures log == start + Between(lo, hi)
  {
    BetweenJoins(lo, mid, hi);
    assert log == start + (Between(lo, mid) + Between(mid, hi));
  }

  /** Non-empty passes needed for n pending rows. */
  function Passes(n: nat, batchSize: nat): (passes: nat)
    requires batchSize > 0
  {
    if n == 0 then 0 else 1 + Passes(n - Min(batchSize, n), batchSize)
  }

  /** Which is the ceiling of n / batchSize. */
  lemma {:induction false} PassesIsCeiling(n: nat, batchSize: nat)
    requires batchSize > 0
    ensures (Passes(n, batchSize) - 1) * batchSize < n <= Passes(n, batchSize) * batchSize || (n == 0 && Passes(n, batchSize) == 0)
  {
    if n > 0 {
      PassesIsCeiling(n - Min(batchSize, n), batchSize);
    }
  }
}
