/** The Idempotency-Key protocol under concurrency: any number of calls, their
    statements interleaved in any order, over one table whose unique index makes
    a conflicting INSERT wait until the earlier inserter has finished. */
module KeyProtocol {
  import opened Base
  import opened Oltp

  datatype Write = StandardClosed(id: nat) | StandardSaved(id: nat) | EventQueued(standardId: nat)

  datatype Reply = MissingKey | KeyReused | InternalError | Answer(response: Response)

  /** Where one call stands. `row` is its own uncommitted table row, `writes` what
      the handler wrote through the same transaction. */
  datatype Phase =
    | Arrived
    | Inserted(row: KeyRow)
    | Handled(row: KeyRow, response: Response, writes: seq<Write>, poisoned: bool)
    | Updated(row: KeyRow, response: Response, writes: seq<Write>)
    | Conflicted
    | Replied(reply: Reply)
    | Gone

  datatype Call = Call(key: string, bodyHash: string, phase: Phase)

  /** One committed transaction: the call it served and the writes it made visible. */
  datatype Commit = Commit(call: nat, response: Response, writes: seq<Write>)

  datatype State = State(keys: map<string, KeyRow>, commits: seq<Commit>, calls: seq<Call>)

  datatype Step =
    | RejectMissingKey
    | BeginFails
    | Insert
    | HandlerReturns(response: Response, writes: seq<Write>, sqlError: bool)
    | HandlerPanics
    | Update
    | UpdateFails
    | TryCommit(outcome: CommitOutcome)
    | Read
    | ReadFails
    | Crash

  datatype Event = Event(call: nat, step: Step)

  predicate HoldsKey(p: Phase) {
    p.Inserted? || p.Handled? || p.Updated?
  }

  predicate Finished(p: Phase) {
    p.Replied? || p.Gone?
  }

  predicate Enabled(s: State, e: Event) {
    && e.call < |s.calls|
    && var c := s.calls[e.call];
       match e.step
       case RejectMissingKey => c.phase.Arrived? && c.key == ""
       case BeginFails => c.phase.Arrived? && c.key != ""
       case Insert =>
         // blocked while another transaction's insert of the key is undecided
         c.phase.Arrived? && c.key != "" &&
         forall j :: 0 <= j < |s.calls| && s.calls[j].key == c.key ==> !HoldsKey(s.calls[j].phase)
       case HandlerReturns(_, _, _) => c.phase.Inserted?
       case HandlerPanics => c.phase.Inserted?
       case Update => c.phase.Handled? && !c.phase.poisoned
       case UpdateFails => c.phase.Handled?
       case TryCommit(_) => c.phase.Updated?
       case Read => c.phase.Conflicted?
       case ReadFails => c.phase.Conflicted?
       case Crash => !c.phase.Gone?
  }

  /** What the plain read answers: no row, another body, no outcome, or the outcome. */
  function Replay(keys: map<string, KeyRow>, key: string, bodyHash: string): Reply {
    if key !in keys then InternalError
    else if keys[key].requestHash != bodyHash then KeyReused
    else if keys[key].outcome.None? then InternalError
    else Answer(keys[key].outcome.value)
  }

  /** The phase an enabled step leads to. */
  function Next(keys: map<string, KeyRow>, c: Call, step: Step): Phase {
    match step
    case RejectMissingKey => Replied(MissingKey)
    case BeginFails => Replied(InternalError)
    case Insert => if c.key in keys then Conflicted else Inserted(KeyRow(c.bodyHash, None))
    case HandlerReturns(response, writes, sqlError) =>
      if c.phase.Inserted? then Handled(c.phase.row, response, writes, sqlError) else c.phase
    case HandlerPanics => Gone
    case Update =>
      if c.phase.Handled? then Updated(c.phase.row.(outcome := Some(c.phase.response)), c.phase.response, c.phase.writes) else c.phase
    case UpdateFails => Replied(InternalError)
    case TryCommit(outcome) =>
      Replied(if outcome.Acknowledged? && c.phase.Updated? then Answer(c.phase.response) else InternalError)
    case Read => Replied(Replay(keys, c.key, c.bodyHash))
    case ReadFails => Replied(InternalError)
    case Crash => Gone
  }

  /** One event; an event that is not enabled does nothing. */
  function Apply(s: State, e: Event): (t: State)
    ensures |t.calls| == |s.calls|
  {
    if !Enabled(s, e) then s
    else
      var c := s.calls[e.call];
      var moved := s.(calls := s.calls[e.call := c.(phase := Next(s.keys, c, e.step))]);
      if Commits(e.step) then
        moved.(keys := s.keys[c.key := c.phase.row],
               commits := s.commits + [Commit(e.call, c.phase.response, c.phase.writes)])
      else moved
  }

  /** Every call has its own key and body; none has started. */
  function Start(requests: seq<(string, string)>): (s: State)
    ensures |s.calls| == |requests|
  {
    State(map[], [], seq(|requests|, i requires 0 <= i < |requests| => Call(requests[i].0, requests[i].1, Arrived)))
  }

  function Run(s: State, events: seq<Event>): (t: State)
    ensures |t.calls| == |s.calls|
  {
    if events == [] then s else Apply(Run(s, Init(events)), Last(events))
  }

  // --- The invariant --------------------------------------------------------------

  predicate CallOk(keys: map<string, KeyRow>, c: Call) {
    match c.phase
    case Arrived => true
    case Inserted(row) => c.key !in keys && row == KeyRow(c.bodyHash, None)
    case Handled(row, _, _, _) => c.key !in keys && row == KeyRow(c.bodyHash, None)
    case Updated(row, response, _) => c.key !in keys && row == KeyRow(c.bodyHash, Some(response))
    case Conflicted => c.key in keys
    case Replied(reply) =>
      (match reply
       case MissingKey => c.key == ""
       case KeyReused => c.key in keys && keys[c.key].requestHash != c.bodyHash
       case InternalError => true
       case Answer(response) => c.key in keys && keys[c.key] == KeyRow(c.bodyHash, Some(response)))
    case Gone => true
  }

  /** A commit's row is in the table, with the body and response of its own call. */
  predicate CommitOk(s: State, c: Commit) {
    && c.call < |s.calls|
    && Finished(s.calls[c.call].phase)
    && s.calls[c.call].key in s.keys
    && s.keys[s.calls[c.call].key] == KeyRow(s.calls[c.call].bodyHash, Some(c.response))
  }

  predicate CommittedKey(s: State, key: string) {
    exists n :: 0 <= n < |s.commits| && s.commits[n].call < |s.calls| && s.calls[s.commits[n].call].key == key
  }

  ghost predicate CallsOk(s: State) {
    forall i :: 0 <= i < |s.calls| ==> CallOk(s.keys, s.calls[i])
  }

  ghost predicate OneHolderPerKey(calls: seq<Call>) {
    forall i, j :: 0 <= i < j < |calls| && HoldsKey(calls[i].phase) && HoldsKey(calls[j].phase) ==> calls[i].key != calls[j].key
  }

  ghost predicate CommitsOk(s: State) {
    forall n :: 0 <= n < |s.commits| ==> CommitOk(s, s.commits[n])
  }

  ghost predicate OneCommitPerKey(s: State)
    requires CommitsOk(s)
  {
    forall m, n :: 0 <= m < n < |s.commits| ==> s.calls[s.commits[m].call].key != s.calls[s.commits[n].call].key
  }

  ghost predicate KeysCommitted(s: State) {
    forall key :: key in s.keys ==> CommittedKey(s, key)
  }

  ghost predicate Inv(s: State) {
    CallsOk(s) && OneHolderPerKey(s.calls) && CommitsOk(s) && OneCommitPerKey(s) && KeysCommitted(s)
  }

  predicate Commits(step: Step) {
    step.TryCommit? && !step.outcome.Lost?
  }

  /** The transaction behind a committed key. */
  lemma CommitOf(s: State, key: string) returns (n: nat)
    requires Inv(s) && key in s.keys
    ensures n < |s.commits| && CommitOk(s, s.commits[n]) && s.calls[s.commits[n].call].key == key
  {
    assert CommittedKey(s, key);
    n :| 0 <= n < |s.commits| && s.commits[n].call < |s.calls| && s.calls[s.commits[n].call].key == key;
  }

  lemma CommittedCalls(s: State, e: Event)
    requires Inv(s) && Enabled(s, e) && Commits(e.step)
    ensures s.calls[e.call].key !in s.keys
    ensures CallsOk(Apply(s, e))
  {
    var next, c := Apply(s, e), s.calls[e.call];
    assert CallOk(s.keys, c);
    forall i | 0 <= i < |s.calls| ensures CallOk(next.keys, next.calls[i]) {
      assert CallOk(s.keys, s.calls[i]);
    }
  }

  lemma CommittedEntries(s: State, e: Event)
    requires Inv(s) && Enabled(s, e) && Commits(e.step)
    ensures CommitsOk(Apply(s, e)) && OneCommitPerKey(Apply(s, e))
  {
    var next := Apply(s, e);
    CommittedCalls(s, e);
    forall n | 0 <= n < |next.commits| ensures CommitOk(next, next.commits[n]) {
      if n < |s.commits| { assert CommitOk(s, s.commits[n]); }
    }
    forall m, n | 0 <= m < n < |next.commits| ensures next.calls[next.commits[m].call].key != next.calls[next.commits[n].call].key {
      assert CommitOk(s, s.commits[m]);
    }
  }

  lemma CommittingKeepsInv(s: State, e: Event)
    requires Inv(s) && Enabled(s, e) && Commits(e.step)
    ensures Inv(Apply(s, e))
  {
    var next, c := Apply(s, e), s.calls[e.call];
    CommittedCalls(s, e);
    CommittedEntries(s, e);
    forall key | key in next.keys ensures CommittedKey(next, key) {
      if key == c.key {
        assert next.commits[|s.commits|].call == e.call;
      } else {
        var n := CommitOf(s, key);
        assert next.commits[n] == s.commits[n];
      }
    }
  }

  lemma MovedCallOk(s: State, e: Event)
    requires Inv(s) && Enabled(s, e) && !Commits(e.step)
    ensures CallOk(s.keys, Apply(s, e).calls[e.call])
  {
    var c := s.calls[e.call];
    assert CallOk(s.keys, c);
    if e.step.Read? {
      var n := CommitOf(s, c.key);
    }
  }

  lemma MovedHolders(s: State, e: Event)
    requires Inv(s) && Enabled(s, e) && !Commits(e.step)
    ensures var next := Apply(s, e);
            OneHolderPerKey(next.calls)
  {
    var c := s.calls[e.call];
    var next := Apply(s, e);
    forall i | 0 <= i < |s.calls| && i != e.call && HoldsKey(s.calls[i].phase) && HoldsKey(next.calls[e.call].phase)
      ensures s.calls[i].key != c.key
    {
      assert e.step.Insert? || HoldsKey(c.phase);
    }
  }

  lemma CommitsDiffer(s: State, m: nat, n: nat)
    requires Inv(s) && m < n < |s.commits|
    ensures s.commits[m].call < |s.calls| && s.commits[n].call < |s.calls|
    ensures s.calls[s.commits[m].call].key != s.calls[s.commits[n].call].key
  {
    assert CommitOk(s, s.commits[m]) && CommitOk(s, s.commits[n]);
  }

  /** A step that commits nothing changes only where its call stands, and a
      finished call never starts again. */
  lemma MovedFrame(s: State, e: Event)
    requires !Commits(e.step)
    ensures var t := Apply(s, e);
            && t.keys == s.keys && t.commits == s.commits
            && forall i :: 0 <= i < |s.calls| ==>
                 && t.calls[i].key == s.calls[i].key && t.calls[i].bodyHash == s.calls[i].bodyHash
                 && (Finished(s.calls[i].phase) ==> Finished(t.calls[i].phase))
  {
  }

  lemma MovedCommits(s: State, e: Event)
    requires Inv(s) && !Commits(e.step)
    ensures CommitsOk(Apply(s, e)) && OneCommitPerKey(Apply(s, e)) && KeysCommitted(Apply(s, e))
  {
    var next := Apply(s, e);
    MovedFrame(s, e);
    SameCommits(s, next);
  }

  lemma SameCommits(s: State, t: State)
    requires Inv(s) && t.keys == s.keys && t.commits == s.commits && |t.calls| == |s.calls|
    requires forall i :: 0 <= i < |s.calls| ==>
               && t.calls[i].key == s.calls[i].key && t.calls[i].bodyHash == s.calls[i].bodyHash
               && (Finished(s.calls[i].phase) ==> Finished(t.calls[i].phase))
    ensures CommitsOk(t) && OneCommitPerKey(t) && KeysCommitted(t)
  {
    forall n | 0 <= n < |t.commits| ensures CommitOk(t, t.commits[n]) {
      assert CommitOk(s, s.commits[n]);
    }
    forall m, n | 0 <= m < n < |t.commits| ensures t.calls[t.commits[m].call].key != t.calls[t.commits[n].call].key {
      CommitsDiffer(s, m, n);
    }
    forall key | key in t.keys ensures CommittedKey(t, key) {
      var n := CommitOf(s, key);
      assert t.commits[n] == s.commits[n];
    }
  }

  lemma MovingKeepsInv(s: State, e: Event)
    requires Inv(s) && Enabled(s, e) && !Commits(e.step)
    ensures Inv(Apply(s, e))
  {
    MovedCallOk(s, e);
    MovedHolders(s, e);
    MovedCommits(s, e);
  }

  lemma {:induction false} EveryRunKeepsInv(s: State, events: seq<Event>)
    requires Inv(s)
    ensures Inv(Run(s, events))
    ensures forall i :: 0 <= i < |s.calls| ==>
              Run(s, events).calls[i].key == s.calls[i].key && Run(s, events).calls[i].bodyHash == s.calls[i].bodyHash
  {
    if events != [] {
      EveryRunKeepsInv(s, Init(events));
      var t := Run(s, Init(events));
      if Enabled(t, Last(events)) {
        if Commits(Last(events).step) {
          CommittingKeepsInv(t, Last(events));
        } else {
          MovingKeepsInv(t, Last(events));
        }
      }
    }
  }

  // --- What every run keeps ---------------------------------------------------------

  /** No committed row is without its outcome, in any reachable state; and a call
      that saw zero rows inserted finds a populated row on its plain read. */
  lemma OutcomeIsNeverNull(requests: seq<(string, string)>, events: seq<Event>)
    ensures var s := Run(Start(requests), events);
            && (forall key :: key in s.keys ==> s.keys[key].outcome.Some?)
            && (forall i :: 0 <= i < |s.calls| && s.calls[i].phase.Conflicted? ==>
                  s.calls[i].key in s.keys && s.keys[s.calls[i].key].outcome.Some?)
  {
    EveryRunKeepsInv(Start(requests), events);
    var s := Run(Start(requests), events);
    forall key | key in s.keys ensures s.keys[key].outcome.Some? {
      var n := CommitOf(s, key);
    }
    forall i | 0 <= i < |s.calls| && s.calls[i].phase.Conflicted? ensures s.calls[i].key in s.keys {
      assert CallOk(s.keys, s.calls[i]);
    }
  }

  /** Handler writes become visible at most once per key, together with the key's
      row and only then: committed transactions and table rows correspond one to
      one, and the row holds that transaction's body and response. */
  lemma WritesOncePerKey(requests: seq<(string, string)>, events: seq<Event>)
    ensures var s := Run(Start(requests), events);
            && (forall n :: 0 <= n < |s.commits| ==> CommitOk(s, s.commits[n]))
            && (forall m, n :: 0 <= m < n < |s.commits| ==> s.calls[s.commits[m].call].key != s.calls[s.commits[n].call].key)
            && (forall key :: key in s.keys <==> CommittedKey(s, key))
  {
    EveryRunKeepsInv(Start(requests), events);
    var s := Run(Start(requests), events);
    forall key | CommittedKey(s, key) ensures key in s.keys {
      var n :| 0 <= n < |s.commits| && s.commits[n].call < |s.calls| && s.calls[s.commits[n].call].key == key;
      assert CommitOk(s, s.commits[n]);
    }
  }

  lemma StepIsFinal(s: State, e: Event)
    requires Inv(s)
    ensures forall key :: key in s.keys ==> key in Apply(s, e).keys && Apply(s, e).keys[key] == s.keys[key]
    ensures s.commits <= Apply(s, e).commits
  {
    if Enabled(s, e) && Commits(e.step) { CommittedCalls(s, e); }
  }

  /** Committed rows and commits are final: whatever happens later only adds to them. */
  lemma {:induction false} CommitsAreFinal(s: State, events: seq<Event>)
    requires Inv(s)
    ensures forall key :: key in s.keys ==> key in Run(s, events).keys && Run(s, events).keys[key] == s.keys[key]
    ensures s.commits <= Run(s, events).commits
  {
    if events != [] {
      CommitsAreFinal(s, Init(events));
      EveryRunKeepsInv(s, Init(events));
      StepIsFinal(Run(s, Init(events)), Last(events));
    }
  }

  lemma RepliesMatchRow(s: State, i: nat)
    requires Inv(s) && i < |s.calls| && s.calls[i].phase.Replied? && s.calls[i].key != "" && s.calls[i].key in s.keys
    ensures s.calls[i].phase.reply in {InternalError, Replay(s.keys, s.calls[i].key, s.calls[i].bodyHash)}
  {
    assert CallOk(s.keys, s.calls[i]);
  }

  lemma CommitsOnlyBefore(s: State, t: State, i: nat)
    requires Inv(s) && Inv(t) && s.commits <= t.commits && |s.calls| == |t.calls| && i < |t.calls|
    requires t.calls[i].key in s.keys && forall k :: 0 <= k < |s.calls| ==> t.calls[k].key == s.calls[k].key
    ensures forall n :: 0 <= n < |t.commits| && t.commits[n].call == i ==> n < |s.commits|
  {
    var m := CommitOf(s, t.calls[i].key);
    assert t.commits[m] == s.commits[m];
    assert CommitOk(t, t.commits[m]);
    forall n | |s.commits| <= n < |t.commits| ensures t.commits[n].call != i {
      assert CommitOk(t, t.commits[n]);
      assert t.calls[t.commits[m].call].key != t.calls[t.commits[n].call].key;
    }
  }

  lemma RowAnswers(s: State, key: string, bodyHash: string)
    requires Inv(s) && key in s.keys
    ensures Replay(s.keys, key, bodyHash) != InternalError
  {
    var n := CommitOf(s, key);
  }

  lemma LaterReply(s: State, t: State, i: nat)
    requires Inv(t) && i < |t.calls| && t.calls[i].phase.Replied? && t.calls[i].key != ""
    requires t.calls[i].key in s.keys && t.calls[i].key in t.keys && t.keys[t.calls[i].key] == s.keys[t.calls[i].key]
    ensures t.calls[i].phase.reply in {InternalError, Replay(s.keys, t.calls[i].key, t.calls[i].bodyHash)}
  {
    RepliesMatchRow(t, i);
  }

  /** Once a key is committed, a later call with the same body is answered with the
      recorded response or an infrastructure error, one with another body is told
      the key was reused or gets an infrastructure error; neither adds a write. */
  lemma RepliesAfterCommit(s: State, events: seq<Event>, i: nat)
    requires Inv(s) && i < |s.calls| && s.calls[i].phase.Arrived? && s.calls[i].key in s.keys && s.calls[i].key != ""
    ensures var t, recorded := Run(s, events), Replay(s.keys, s.calls[i].key, s.calls[i].bodyHash);
            && (t.calls[i].phase.Replied? ==> t.calls[i].phase.reply in {InternalError, recorded})
            && (forall n :: 0 <= n < |t.commits| && t.commits[n].call == i ==> n < |s.commits|)
            && recorded != InternalError
  {
    var t := Run(s, events);
    EveryRunKeepsInv(s, events);
    CommitsAreFinal(s, events);
    RowAnswers(s, s.calls[i].key, s.calls[i].bodyHash);
    if t.calls[i].phase.Replied? { LaterReply(s, t, i); }
    CommitsOnlyBefore(s, t, i);
  }

  /** A call told that its key was reused committed nothing; two answered calls of
      one key had the same body and got the same response. */
  lemma AnswersAgree(requests: seq<(string, string)>, events: seq<Event>, i: nat, j: nat)
    requires var s := Run(Start(requests), events);
             i < |s.calls| && j < |s.calls| && s.calls[i].key == s.calls[j].key && s.calls[i].phase.Replied? && s.calls[j].phase.Replied?
    ensures var s := Run(Start(requests), events); var ri, rj := s.calls[i].phase.reply, s.calls[j].phase.reply;
            && (ri.Answer? && rj.Answer? ==> ri == rj && s.calls[i].bodyHash == s.calls[j].bodyHash)
            && (ri.Answer? && rj.KeyReused? ==> s.calls[i].bodyHash != s.calls[j].bodyHash)
            && (rj.KeyReused? ==> forall n :: 0 <= n < |s.commits| ==> s.commits[n].call != j)
  {
    EveryRunKeepsInv(Start(requests), events);
    RepliesAgree(Run(Start(requests), events), i, j);
  }

  lemma RepliesAgree(s: State, i: nat, j: nat)
    requires Inv(s) && i < |s.calls| && j < |s.calls| && s.calls[i].key == s.calls[j].key
    requires s.calls[i].phase.Replied? && s.calls[j].phase.Replied?
    ensures var ri, rj := s.calls[i].phase.reply, s.calls[j].phase.reply;
            && (ri.Answer? && rj.Answer? ==> ri == rj && s.calls[i].bodyHash == s.calls[j].bodyHash)
            && (ri.Answer? && rj.KeyReused? ==> s.calls[i].bodyHash != s.calls[j].bodyHash)
            && (rj.KeyReused? ==> forall n :: 0 <= n < |s.commits| ==> s.commits[n].call != j)
  {
    assert CallOk(s.keys, s.calls[i]) && CallOk(s.keys, s.calls[j]);
    forall n | 0 <= n < |s.commits| && s.calls[j].phase.reply.KeyReused? ensures s.commits[n].call != j {
      assert CommitOk(s, s.commits[n]);
    }
  }

  predicate Aborts(step: Step) {
    step.HandlerPanics? || step.UpdateFails? || step == TryCommit(Lost) || step.Crash?
  }

  /** A panic, a failed UPDATE, a lost commit or a crash leaves no row and no write,
      and frees the key: the next call that was waiting for it inserts afresh. */
  lemma {:induction false} AbortLeavesNothing(s: State, e: Event)
    requires Inv(s) && Enabled(s, e) && Aborts(e.step) && HoldsKey(s.calls[e.call].phase)
    ensures var t, key := Apply(s, e), s.calls[e.call].key;
            && t.keys == s.keys && t.commits == s.commits && key !in t.keys
            && (forall j: nat :: j < |t.calls| && t.calls[j].key == key != "" && t.calls[j].phase.Arrived? ==>
                  && Enabled(t, Event(j, Insert))
                  && Apply(t, Event(j, Insert)).calls[j].phase == Inserted(KeyRow(t.calls[j].bodyHash, None)))
  {
    var t, key := Apply(s, e), s.calls[e.call].key;
    assert CallOk(s.keys, s.calls[e.call]);
    forall i | 0 <= i < |t.calls| && t.calls[i].key == key ensures !HoldsKey(t.calls[i].phase) {
      assert i == e.call || !HoldsKey(s.calls[i].phase);
    }
  }

  // --- No waiting for ever ----------------------------------------------------------

  /** Steps of a run in which nothing breaks. */
  predicate Healthy(step: Step) {
    match step
    case RejectMissingKey => true
    case Insert => true
    case HandlerReturns(_, _, sqlError) => !sqlError
    case Update => true
    case TryCommit(outcome) => outcome.Acknowledged?
    case Read => true
    case _ => false
  }

  predicate Sound(p: Phase) {
    !p.Gone? && p != Replied(InternalError) && (p.Handled? ==> !p.poisoned)
  }

  /** The step a call that is not waiting takes next. */
  function Due(s: State, c: Call): Step {
    match c.phase
    case Arrived => if c.key == "" then RejectMissingKey else Insert
    case Inserted(_) => HandlerReturns(Response(201, Problem("")), [], false)
    case Handled(_, _, _, poisoned) => if poisoned then UpdateFails else Update
    case Updated(_, _, _) => TryCommit(Acknowledged)
    case _ => Read
  }

  /** No deadlock, in any state at all: while some call is unfinished, some call can
      take the step due to it. A waiting call waits for one that can move, be it only
      to fail on its poisoned transaction; where nothing has broken the step is healthy. */
  lemma NeverStuck(s: State, i: nat) returns (e: Event)
    requires i < |s.calls| && !Finished(s.calls[i].phase)
    ensures Enabled(s, e) && e.step == Due(s, s.calls[e.call])
    ensures Healthy(e.step) || (e.step.UpdateFails? && s.calls[e.call].phase.Handled? && s.calls[e.call].phase.poisoned)
    ensures (forall k :: 0 <= k < |s.calls| ==> Sound(s.calls[k].phase)) ==> Healthy(e.step)
  {
    var c := s.calls[i];
    if c.phase.Arrived? && exists j :: 0 <= j < |s.calls| && s.calls[j].key == c.key && HoldsKey(s.calls[j].phase) {
      var j :| 0 <= j < |s.calls| && s.calls[j].key == c.key && HoldsKey(s.calls[j].phase);
      e := Event(j, Due(s, s.calls[j]));
    } else {
      e := Event(i, Due(s, c));
    }
  }

  function Rank(p: Phase): nat {
    match p
    case Arrived => 5
    case Inserted(_) => 4
    case Handled(_, _, _, _) => 3
    case Updated(_, _, _) => 2
    case Conflicted => 2
    case Replied(_) => 1
    case Gone => 0
  }

  function Left(calls: seq<Call>): nat {
    if calls == [] then 0 else Left(Init(calls)) + Rank(Last(calls).phase)
  }

  lemma {:induction false} LeftMoves(calls: seq<Call>, i: nat, c: Call)
    requires i < |calls|
    ensures Left(calls[i := c]) == Left(calls) - Rank(calls[i].phase) + Rank(c.phase)
  {
    if i == |calls| - 1 {
      assert Init(calls[i := c]) == Init(calls);
    } else {
      LeftMoves(Init(calls), i, c);
      assert Init(calls[i := c]) == Init(calls)[i := c];
    }
  }

  /** How many events of a run were enabled. */
  function Moves(s: State, events: seq<Event>): nat {
    if events == [] then 0
    else Moves(s, Init(events)) + if Enabled(Run(s, Init(events)), Last(events)) then 1 else 0
  }

  lemma RankDrops(s: State, e: Event)
    requires Enabled(s, e)
    ensures Apply(s, e).calls == s.calls[e.call := Apply(s, e).calls[e.call]]
    ensures Rank(Apply(s, e).calls[e.call].phase) < Rank(s.calls[e.call].phase)
  {
  }

  lemma {:induction false} MovesUseUpRank(s: State, events: seq<Event>)
    ensures Moves(s, events) + Left(Run(s, events).calls) <= Left(s.calls)
  {
    if events != [] {
      MovesUseUpRank(s, Init(events));
      var t, e := Run(s, Init(events)), Last(events);
      if Enabled(t, e) {
        RankDrops(t, e);
        LeftMoves(t.calls, e.call, Apply(t, e).calls[e.call]);
      }
    }
  }

  lemma {:induction false} StartRank(calls: seq<Call>)
    requires forall i :: 0 <= i < |calls| ==> calls[i].phase.Arrived?
    ensures Left(calls) == 5 * |calls|
  {
    if calls != [] { StartRank(Init(calls)); }
  }

  /** At most five steps per call whatever the interleaving: nothing polls or retries. */
  lemma RunsAreShort(requests: seq<(string, string)>, events: seq<Event>)
    ensures Moves(Start(requests), events) <= 5 * |requests|
  {
    MovesUseUpRank(Start(requests), events);
    StartRank(Start(requests).calls);
  }

  lemma HealthyStepStaysSound(s: State, e: Event)
    requires Inv(s) && Enabled(s, e) && Healthy(e.step) && Sound(s.calls[e.call].phase)
    ensures Sound(Apply(s, e).calls[e.call].phase)
  {
    assert CallOk(s.keys, s.calls[e.call]);
    if e.step.Read? { RowAnswers(s, s.calls[e.call].key, s.calls[e.call].bodyHash); }
  }

  lemma {:induction false} HealthyRunsStaySound(s: State, events: seq<Event>)
    requires Inv(s) && forall i :: 0 <= i < |s.calls| ==> Sound(s.calls[i].phase)
    requires forall n :: 0 <= n < |events| ==> Healthy(events[n].step)
    ensures forall i :: 0 <= i < |s.calls| ==> Sound(Run(s, events).calls[i].phase)
  {
    if events != [] {
      HealthyRunsStaySound(s, Init(events));
      EveryRunKeepsInv(s, Init(events));
      var t, e := Run(s, Init(events)), Last(events);
      if Enabled(t, e) {
        HealthyStepStaysSound(t, e);
        assert forall i :: 0 <= i < |t.calls| && i != e.call ==> Apply(t, e).calls[i] == t.calls[i];
      }
    }
  }

  /** Every call carries this key and body. */
  predicate Twins(s: State, key: string, bodyHash: string) {
    forall k :: 0 <= k < |s.calls| ==> s.calls[k].key == key && s.calls[k].bodyHash == bodyHash
  }

  lemma TwinReply(s: State, i: nat, key: string, bodyHash: string)
    requires Inv(s) && i < |s.calls| && key != "" && Twins(s, key, bodyHash)
    ensures |s.commits| <= 1
    ensures s.calls[i].phase.Replied? ==> s.calls[i].phase.reply.InternalError? || s.calls[i].phase.reply.Answer?
    ensures s.calls[i].phase.Replied? && s.calls[i].phase.reply.Answer? ==>
              |s.commits| == 1 && s.calls[i].phase.reply == Answer(s.commits[0].response)
  {
    assert CallOk(s.keys, s.calls[i]);
    assert CommitsOk(s);
    if |s.commits| > 1 { CommitsDiffer(s, 0, 1); }
    if |s.commits| > 0 {
      assert CommitOk(s, s.commits[0]);
    }
    if key in s.keys {
      var n := CommitOf(s, key);
    }
  }

  /** Any number of concurrent identical calls, whatever fails: at most one transaction
      commits, and every call that is answered gets its response; the others get an
      infrastructure error or nothing. If nothing fails and all have finished, exactly
      one committed and every caller is answered. */
  lemma TwinsCommitOnce(requests: seq<(string, string)>, events: seq<Event>, key: string, bodyHash: string)
    requires requests != [] && key != ""
    requires forall i :: 0 <= i < |requests| ==> requests[i] == (key, bodyHash)
    ensures var s := Run(Start(requests), events);
            && |s.commits| <= 1
            && (forall i :: 0 <= i < |requests| && s.calls[i].phase.Replied? && s.calls[i].phase.reply != InternalError ==>
                  |s.commits| == 1 && s.calls[i].phase.reply == Answer(s.commits[0].response))
            && ((forall n :: 0 <= n < |events| ==> Healthy(events[n].step))
                && (forall i :: 0 <= i < |requests| ==> Finished(s.calls[i].phase)) ==>
                  |s.commits| == 1 && forall i :: 0 <= i < |requests| ==> s.calls[i].phase == Replied(Answer(s.commits[0].response)))
  {
    EveryRunKeepsInv(Start(requests), events);
    var s := Run(Start(requests), events);
    forall i | 0 <= i < |requests|
      ensures |s.commits| <= 1
      ensures s.calls[i].phase.Replied? && s.calls[i].phase.reply != InternalError ==>
                |s.commits| == 1 && s.calls[i].phase.reply == Answer(s.commits[0].response)
    {
      TwinReply(s, i, key, bodyHash);
    }
    if forall n :: 0 <= n < |events| ==> Healthy(events[n].step) {
      HealthyRunsStaySound(Start(requests), events);
      assert Sound(s.calls[0].phase);
    }
    TwinReply(s, 0, key, bodyHash);
  }
}
