/** The Idempotency-Key middleware around POST /standards, statement by statement.
    Its transaction is the one the use case joins. */
module Idempotency {
  import opened Base
  import opened Standards
  import opened Oltp
  import opened Consistency
  import opened UseCases
  import KeyProtocol

  const TASK_TYPES := {"PICK", "PACK", "SLAM"}

  datatype StandardInput = StandardInput(taskType: string, expectedSeconds: int, travelComponentSeconds: Option<int>)

  /** `input` is what decoding makes of the body; the hash stands for the body's bytes. */
  datatype HttpRequest = HttpRequest(key: string, bodyReadable: bool, bodyHash: string, input: Option<StandardInput>)

  /** The minted standard and message ids, the clock, and everything that can go wrong
      in one call. */
  datatype Env = Env(id: nat, now: Instant, ids: Minted, fault: Fault, panics: bool, readFails: bool)

  datatype Reply = Answered(response: Response) | Panicked

  const KEY_REQUIRED := Response(400, Problem("idempotency-key-required"))
  const MALFORMED_BODY := Response(400, Problem("malformed-request-body"))
  const KEY_REUSED := Response(422, Problem("idempotency-key-reused"))
  const INTERNAL_ERROR := Response(500, Problem("internal-error"))

  function ProblemOf(e: Standards.Error): Response {
    match e
    case NonPositiveExpectedSeconds => Response(422, Problem("non-positive-expected-seconds"))
    case NegativeTravelComponentSeconds => Response(422, Problem("negative-travel-component-seconds"))
    case TravelComponentExceedsExpectedSeconds => Response(422, Problem("travel-component-exceeds-expected-seconds"))
  }

  function DefinitionOfInput(input: StandardInput, env: Env): Definition {
    Definition(env.id, input.taskType, input.expectedSeconds, input.travelComponentSeconds, env.now)
  }

  /** The body names a known task type and a standard within the rules. */
  predicate Definable(input: Option<StandardInput>) {
    && input.Some?
    && input.value.taskType in TASK_TYPES
    && Validate(input.value.expectedSeconds, input.value.travelComponentSeconds).None?
  }

  /** What the wrapped handler leaves in the transaction if no statement failed. */
  function HandledTables(t: Tables, input: Option<StandardInput>, env: Env): Tables {
    if !Definable(input) then t
    else
      var d := DefinitionOfInput(input.value, env);
      if env.ids.analytics == "" then t.(standards := Supersede(t.standards, d)) else Defined(t, d)
  }

  /** And what it answers. */
  function HandledResponse(input: Option<StandardInput>, env: Env): Response {
    match input
    case None => MALFORMED_BODY
    case Some(i) =>
      if i.taskType !in TASK_TYPES then Response(400, Problem("unknown-task-type"))
      else
        match Validate(i.expectedSeconds, i.travelComponentSeconds)
        case Some(e) => ProblemOf(e)
        case None =>
          if env.ids.analytics == "" then INTERNAL_ERROR
          else Response(201, StandardBody(i.taskType, i.expectedSeconds, i.travelComponentSeconds, env.now, None))
  }

  /** What the client of a handled call reads: why its definition was refused, or the
      standard now in force. */
  predicate TellsOutcome(response: Response, input: Option<StandardInput>, env: Env) {
    match input
    case None => response == Response(400, Problem("malformed-request-body"))
    case Some(i) =>
      var travel := i.travelComponentSeconds;
      if i.taskType != "PICK" && i.taskType != "PACK" && i.taskType != "SLAM" then response == Response(400, Problem("unknown-task-type"))
      else if i.expectedSeconds <= 0 then response == Response(422, Problem("non-positive-expected-seconds"))
      else if travel.Some? && travel.value < 0 then response == Response(422, Problem("negative-travel-component-seconds"))
      else if travel.Some? && i.expectedSeconds < travel.value then
        response == Response(422, Problem("travel-component-exceeds-expected-seconds"))
      else if env.ids.analytics == "" then response == Response(500, Problem("internal-error"))
      else response == Response(201, StandardBody(i.taskType, i.expectedSeconds, travel, env.now, None))
  }

  lemma {:induction false} HandledTells(input: Option<StandardInput>, env: Env)
    ensures TellsOutcome(HandledResponse(input, env), input, env)
  {
  }

  /** The row of a standard the client was told of. */
  lemma ToldIsDefined(t: Tables, req: HttpRequest, env: Env)
    ensures HandledResponse(req.input, env).status == 201 ==>
              && req.input.Some?
              && var i := req.input.value;
                 env.id in Served(t, req, env).standards
                 && Served(t, req, env).standards[env.id] ==
                    StandardRow(env.id, i.taskType, i.expectedSeconds, i.travelComponentSeconds, env.now, None)
  {
  }

  method HandleDefineStandard(tx: Tx, input: Option<StandardInput>, env: Env) returns (response: Response)
    requires !tx.poisoned && env.id !in tx.tables.standards
    requires IsTimeline(tx.tables.standards, DefinitionsIn(tx.tables.outbox))
    modifies tx
    ensures !tx.poisoned ==> tx.tables == HandledTables(old(tx.tables), input, env) && response == HandledResponse(input, env)
    ensures tx.poisoned ==> response == INTERNAL_ERROR
    ensures old(tx.budget).None? ==> tx.budget.None? && !tx.poisoned
  {
    if input.None? {
      return MALFORMED_BODY;
    }
    if input.value.taskType !in TASK_TYPES {
      return Response(400, Problem("unknown-task-type"));
    }
    var r := DefineStandardIn(tx, DefinitionOfInput(input.value, env), env.ids);
    if r.Err? {
      return if r.error.Invalid? then ProblemOf(r.error.cause) else INTERNAL_ERROR;
    }
    var st := r.value;
    return Response(201, StandardBody(st.taskType, st.expectedSeconds, st.travelComponentSeconds, st.effectiveFrom, st.effectiveTo));
  }

  // --- The middleware's own statements ------------------------------------------------

  /** INSERT ... ON CONFLICT (key) DO NOTHING, all outcome columns null. */
  method InsertKey(tx: Tx, key: string, bodyHash: string) returns (ok: bool, inserted: bool)
    modifies tx
    ensures ok <==> !tx.poisoned
    ensures ok ==> (inserted <==> key !in old(tx.tables).keys)
    ensures tx.tables == if ok && inserted then old(tx.tables).(keys := old(tx.tables).keys[key := KeyRow(bodyHash, None)]) else old(tx.tables)
    ensures old(tx.budget).None? ==> tx.budget.None? && tx.poisoned == old(tx.poisoned)
  {
    inserted := false;
    ok := tx.Exec();
    if ok && key !in tx.tables.keys {
      inserted := true;
      tx.tables := tx.tables.(keys := tx.tables.keys[key := KeyRow(bodyHash, None)]);
    }
  }

  /** UPDATE of the outcome columns of the key's row. */
  method UpdateKey(tx: Tx, key: string, response: Response) returns (ok: bool)
    modifies tx
    ensures ok <==> !tx.poisoned
    ensures old(tx.poisoned) ==> tx.poisoned
    ensures tx.tables == if ok && key in old(tx.tables).keys
                         then old(tx.tables).(keys := old(tx.tables).keys[key := old(tx.tables).keys[key].(outcome := Some(response))])
                         else old(tx.tables)
    ensures old(tx.budget).None? ==> tx.budget.None? && tx.poisoned == old(tx.poisoned)
  {
    ok := tx.Exec();
    if ok && key in tx.tables.keys {
      var row := tx.tables.keys[key].(outcome := Some(response));
      tx.tables := tx.tables.(keys := tx.tables.keys[key := row]);
    }
  }

  /** How the protocol's replies look on the wire. */
  function Rendered(reply: KeyProtocol.Reply): Response {
    match reply
    case MissingKey => KEY_REQUIRED
    case KeyReused => KEY_REUSED
    case InternalError => INTERNAL_ERROR
    case Answer(response) => response
  }

  method ReplayCachedResponse(db: Database, key: string, bodyHash: string, readFails: bool) returns (response: Response)
    ensures response == Rendered(if readFails then KeyProtocol.InternalError else KeyProtocol.Replay(db.committed.keys, key, bodyHash))
    ensures var keys := db.committed.keys;
            if readFails || key !in keys then response == Response(500, Problem("internal-error"))
            else if keys[key].requestHash != bodyHash then response == Response(422, Problem("idempotency-key-reused"))
            else if keys[key].outcome.None? then response == Response(500, Problem("internal-error"))
            else keys[key].outcome == Some(response)
  {
    if readFails || key !in db.committed.keys {
      return INTERNAL_ERROR;
    }
    var row := db.committed.keys[key];
    if row.requestHash != bodyHash {
      return KEY_REUSED;
    }
    if row.outcome.None? {
      return INTERNAL_ERROR;
    }
    return row.outcome.value;
  }

  /** The state after a call that was the first to commit its key. */
  function Served(t: Tables, req: HttpRequest, env: Env): Tables {
    HandledTables(t, req.input, env).(keys := t.keys[req.key := KeyRow(req.bodyHash, Some(HandledResponse(req.input, env)))])
  }

  lemma HandledFrame(t: Tables, keys: map<string, KeyRow>, input: Option<StandardInput>, env: Env)
    ensures HandledTables(t.(keys := keys), input, env) == HandledTables(t, input, env).(keys := keys)
  {
  }

  /** The new-key branch: handler, outcome, commit, and only then the reply. The
      key's row and the handler's writes are committed together or not at all. */
  method RunFreshRequest(db: Database, tx: Tx, req: HttpRequest, env: Env) returns (reply: Reply)
    requires !tx.poisoned && req.key !in db.committed.keys && env.id !in tx.tables.standards
    requires tx.tables == db.committed.(keys := db.committed.keys[req.key := KeyRow(req.bodyHash, None)])
    requires IsTimeline(tx.tables.standards, DefinitionsIn(tx.tables.outbox))
    modifies db, tx
    ensures db.committed == old(db.committed) || db.committed == Served(old(db.committed), req, env)
    ensures tx.poisoned || tx.commitOutcome.Lost? ==> db.committed == old(db.committed)
    ensures env.panics ==> reply.Panicked? && db.committed == old(db.committed)
    ensures !env.panics ==> reply.Answered?
    ensures !env.panics && reply.response != INTERNAL_ERROR ==> db.committed != old(db.committed) && reply.response == HandledResponse(req.input, env)
    ensures old(tx.budget).None? && tx.commitOutcome.Acknowledged? && !env.panics ==>
              db.committed == Served(old(db.committed), req, env) && reply.response == HandledResponse(req.input, env)
  {
    ghost var before := db.committed;
    ghost var bare := before.keys[req.key := KeyRow(req.bodyHash, None)];
    HandledFrame(before, bare, req.input, env);
    var response := HandleDefineStandard(tx, req.input, env);
    if env.panics {
      return Panicked;
    }
    assert !tx.poisoned ==> tx.tables == HandledTables(before, req.input, env).(keys := bare);
    var ok := UpdateKey(tx, req.key, response);
    if !ok {
      return Answered(INTERNAL_ERROR);
    }
    assert bare[req.key := KeyRow(req.bodyHash, Some(response))] == before.keys[req.key := KeyRow(req.bodyHash, Some(response))];
    var acknowledged := db.Commit(tx);
    return Answered(if acknowledged then response else INTERNAL_ERROR);
  }

  /** No committed row is without its outcome. */
  ghost predicate Complete(keys: map<string, KeyRow>) {
    forall key :: key in keys ==> keys[key].outcome.Some?
  }

  /** What one call may do and answer, by what it sent and what it found. */
  ghost predicate CallServed(before: Tables, after: Tables, req: HttpRequest, env: Env, reply: Reply) {
    if req.key == "" then after == before && reply == Answered(KEY_REQUIRED)
    else if !req.bodyReadable then after == before && reply == Answered(MALFORMED_BODY)
    else if req.key in before.keys then
      after == before
      && reply in {Answered(INTERNAL_ERROR), Answered(Rendered(KeyProtocol.Replay(before.keys, req.key, req.bodyHash)))}
    else
      || (after == before && reply in {Panicked, Answered(INTERNAL_ERROR)})
      || (after == Served(before, req, env) && reply in {Answered(INTERNAL_ERROR), Answered(HandledResponse(req.input, env))})
  }

  /** A call nothing went wrong in: a new key tells the outcome, recorded for good and, if
      created, with its standard in force; a known key with another body is refused; a
      genuine retry reads what was recorded. */
  ghost predicate AnswersAsTold(before: Tables, after: Tables, req: HttpRequest, env: Env, reply: Reply) {
    && reply.Answered?
    && if req.key !in before.keys then
         && TellsOutcome(reply.response, req.input, env)
         && after.keys == before.keys[req.key := KeyRow(req.bodyHash, Some(reply.response))]
         && (reply.response.status == 400 || reply.response.status == 422 ==> after == before.(keys := after.keys))
         && (reply.response.status == 201 ==>
               && req.input.Some? && env.id in after.standards
               && var i := req.input.value;
                  after.standards[env.id] == StandardRow(env.id, i.taskType, i.expectedSeconds, i.travelComponentSeconds, env.now, None))
       else if before.keys[req.key].requestHash != req.bodyHash then
         after == before && reply.response == Response(422, Problem("idempotency-key-reused"))
       else
         after == before && before.keys[req.key].outcome == Some(reply.response)
  }

  lemma HealthyCallTells(before: Tables, after: Tables, req: HttpRequest, env: Env, reply: Reply)
    requires Complete(before.keys) && req.key in after.keys
    requires after == if req.key in before.keys then before else Served(before, req, env)
    requires reply == Answered(Rendered(KeyProtocol.Replay(after.keys, req.key, req.bodyHash)))
    ensures AnswersAsTold(before, after, req, env, reply)
  {
    HandledTells(req.input, env);
    ToldIsDefined(before, req, env);
  }

  /** One call. A missing key or unreadable body is refused; a committed key answers
      from its row and changes nothing; a new key commits its row together with the
      handler's writes, or nothing at all. */
  method RequireIdempotencyKey(db: Database, req: HttpRequest, env: Env, capSeconds: int) returns (reply: Reply)
    requires Consistent(db.committed, capSeconds) && Complete(db.committed.keys)
    requires env.id !in db.committed.standards
    modifies db
    ensures Complete(db.committed.keys)
    ensures db.committed == old(db.committed) ||
            (req.key != "" && req.bodyReadable && req.key !in old(db.committed).keys && !env.panics
             && db.committed == Served(old(db.committed), req, env))
    ensures CallServed(old(db.committed), db.committed, req, env, reply)
    ensures env.fault.commit.Lost? ==> db.committed == old(db.committed)
    ensures env.fault == NO_FAULT && !env.panics && !env.readFails && req.key != "" && req.bodyReadable ==>
              && req.key in db.committed.keys
              && reply == Answered(Rendered(KeyProtocol.Replay(db.committed.keys, req.key, req.bodyHash)))
              && (req.key !in old(db.committed).keys ==> db.committed == Served(old(db.committed), req, env))
    ensures req.key == "" ==> reply == Answered(Response(400, Problem("idempotency-key-required")))
    ensures req.key != "" && !req.bodyReadable ==> reply == Answered(Response(400, Problem("malformed-request-body")))
    ensures req.key != "" && req.bodyReadable && env.fault == NO_FAULT && !env.readFails && !env.panics ==>
              AnswersAsTold(old(db.committed), db.committed, req, env, reply)
    ensures env.ids.Wired() ==> Consistent(db.committed, capSeconds)
    ensures Consistent(db.committed, capSeconds) <==>
              !(db.committed != old(db.committed) && env.ids.analytics == "" && Definable(req.input))
  {
    if req.key == "" {
      return Answered(KEY_REQUIRED);
    }
    if !req.bodyReadable {
      return Answered(MALFORMED_BODY);
    }
    ServedIsConsistentIff(db.committed, req, env, capSeconds);
    ghost var before := db.committed;
    reply := ServeKey(db, req, env);
    if env.fault == NO_FAULT && !env.readFails && !env.panics { HealthyCallTells(before, db.committed, req, env, reply); }
  }

  /** The call's transaction, from the insert of its key on. */
  method ServeKey(db: Database, req: HttpRequest, env: Env) returns (reply: Reply)
    requires req.key != "" && req.bodyReadable
    requires Complete(db.committed.keys) && env.id !in db.committed.standards
    requires IsTimeline(db.committed.standards, DefinitionsIn(db.committed.outbox))
    modifies db
    ensures CallServed(old(db.committed), db.committed, req, env, reply)
    ensures Complete(db.committed.keys)
    ensures env.panics || env.fault.commit.Lost? ==> db.committed == old(db.committed)
    ensures env.fault == NO_FAULT && !env.panics && !env.readFails ==>
              && req.key in db.committed.keys
              && reply == Answered(Rendered(KeyProtocol.Replay(db.committed.keys, req.key, req.bodyHash)))
              && (req.key !in old(db.committed).keys ==> db.committed == Served(old(db.committed), req, env))
  {
    var tx := db.Begin(env.fault);
    var ok, inserted := InsertKey(tx, req.key, req.bodyHash);
    if !ok {
      return Answered(INTERNAL_ERROR);
    }
    if !inserted {
      var response := ReplayCachedResponse(db, req.key, req.bodyHash, env.readFails);
      return Answered(response);
    }
    reply := RunFreshRequest(db, tx, req, env);
  }

  // --- One call is a run of the protocol -----------------------------------------------------

  /** The reply as the protocol sees it. */
  predicate Ends(phase: KeyProtocol.Phase, reply: Reply) {
    match reply
    case Panicked => phase.Gone?
    case Answered(response) => phase.Replied? && Rendered(phase.reply) == response
  }

  lemma OneEvent(s: KeyProtocol.State, events: seq<KeyProtocol.Event>, e: KeyProtocol.Event)
    ensures KeyProtocol.Run(s, events + [e]) == KeyProtocol.Apply(KeyProtocol.Run(s, events), e)
  {
    AppendParts(events, e);
  }

  /** The call's events, by what became of it. */
  function EventsOf(i: nat, steps: seq<KeyProtocol.Step>): seq<KeyProtocol.Event> {
    if steps == [] then [] else EventsOf(i, Init(steps)) + [KeyProtocol.Event(i, Last(steps))]
  }

  lemma NextStep(s: KeyProtocol.State, i: nat, steps: seq<KeyProtocol.Step>, step: KeyProtocol.Step)
    ensures KeyProtocol.Run(s, EventsOf(i, steps + [step])) ==
            KeyProtocol.Apply(KeyProtocol.Run(s, EventsOf(i, steps)), KeyProtocol.Event(i, step))
  {
    AppendParts(steps, step);
    OneEvent(s, EventsOf(i, steps), KeyProtocol.Event(i, step));
  }

  /** No other call holds the key. */
  ghost predicate KeyFree(s: KeyProtocol.State, key: string) {
    forall j :: 0 <= j < |s.calls| && s.calls[j].key == key ==> !KeyProtocol.HoldsKey(s.calls[j].phase)
  }

  function Moved(s: KeyProtocol.State, i: nat, phase: KeyProtocol.Phase): KeyProtocol.State
    requires i < |s.calls|
  {
    s.(calls := s.calls[i := s.calls[i].(phase := phase)])
  }

  lemma MovedTwice(s: KeyProtocol.State, i: nat, p: KeyProtocol.Phase, q: KeyProtocol.Phase)
    requires i < |s.calls|
    ensures Moved(Moved(s, i, p), i, q) == Moved(s, i, q)
  {
    assert s.calls[i := s.calls[i].(phase := p)][i := s.calls[i].(phase := q)] == s.calls[i := s.calls[i].(phase := q)];
  }

  /** A step of call i that commits nothing, from whichever phase the call has come to. */
  lemma StepTo(s: KeyProtocol.State, i: nat, phase: KeyProtocol.Phase, step: KeyProtocol.Step)
    requires i < |s.calls| && !KeyProtocol.Commits(step)
    requires KeyProtocol.Enabled(Moved(s, i, phase), KeyProtocol.Event(i, step))
    ensures KeyProtocol.Apply(Moved(s, i, phase), KeyProtocol.Event(i, step)) ==
            Moved(s, i, KeyProtocol.Next(s.keys, s.calls[i].(phase := phase), step))
  {
    MovedTwice(s, i, phase, KeyProtocol.Next(s.keys, s.calls[i].(phase := phase), step));
  }

  lemma CommitTo(s: KeyProtocol.State, i: nat, row: KeyRow, response: Response, writes: seq<KeyProtocol.Write>, outcome: CommitOutcome)
    requires i < |s.calls| && !outcome.Lost?
    ensures var reply := if outcome.Acknowledged? then KeyProtocol.Answer(response) else KeyProtocol.InternalError;
            KeyProtocol.Apply(Moved(s, i, KeyProtocol.Updated(row, response, writes)), KeyProtocol.Event(i, KeyProtocol.TryCommit(outcome))) ==
            Moved(s, i, KeyProtocol.Replied(reply)).(keys := s.keys[s.calls[i].key := row],
                                                     commits := s.commits + [KeyProtocol.Commit(i, response, writes)])
  {
    var reply := if outcome.Acknowledged? then KeyProtocol.Answer(response) else KeyProtocol.InternalError;
    MovedTwice(s, i, KeyProtocol.Updated(row, response, writes), KeyProtocol.Replied(reply));
  }

  /** A call that inserts its row, up to its update. */
  lemma HeldRun(s: KeyProtocol.State, i: nat, response: Response, writes: seq<KeyProtocol.Write>)
    requires i < |s.calls| && s.calls[i].phase.Arrived? && s.calls[i].key != "" && s.calls[i].key !in s.keys
    requires KeyFree(s, s.calls[i].key)
    ensures KeyProtocol.Run(s, EventsOf(i, HeldSteps(response, writes))) ==
            Moved(s, i, KeyProtocol.Updated(KeyRow(s.calls[i].bodyHash, Some(response)), response, writes))
  {
    var insert, handle, update := KeyProtocol.Insert, KeyProtocol.HandlerReturns(response, writes, false), KeyProtocol.Update;
    var bare := KeyRow(s.calls[i].bodyHash, None);
    ShortRun(s, i, insert, handle);
    assert Moved(s, i, KeyProtocol.Arrived) == s;
    StepTo(s, i, KeyProtocol.Arrived, insert);
    StepTo(s, i, KeyProtocol.Inserted(bare), handle);
    StepTo(s, i, KeyProtocol.Handled(bare, response, writes, false), update);
    NextStep(s, i, [insert, handle], update);
    assert [insert, handle] + [update] == HeldSteps(response, writes);
  }

  function HeldSteps(response: Response, writes: seq<KeyProtocol.Write>): seq<KeyProtocol.Step> {
    [KeyProtocol.Insert, KeyProtocol.HandlerReturns(response, writes, false), KeyProtocol.Update]
  }

  /** And its commit. */
  lemma FreshRun(s: KeyProtocol.State, i: nat, response: Response, writes: seq<KeyProtocol.Write>, outcome: CommitOutcome)
    requires i < |s.calls| && s.calls[i].phase.Arrived? && s.calls[i].key != "" && s.calls[i].key !in s.keys
    requires KeyFree(s, s.calls[i].key) && !outcome.Lost?
    ensures var reply := if outcome.Acknowledged? then KeyProtocol.Answer(response) else KeyProtocol.InternalError;
            KeyProtocol.Run(s, EventsOf(i, HeldSteps(response, writes) + [KeyProtocol.TryCommit(outcome)])) ==
            Moved(s, i, KeyProtocol.Replied(reply)).(keys := s.keys[s.calls[i].key := KeyRow(s.calls[i].bodyHash, Some(response))],
                                                     commits := s.commits + [KeyProtocol.Commit(i, response, writes)])
  {
    HeldRun(s, i, response, writes);
    NextStep(s, i, HeldSteps(response, writes), KeyProtocol.TryCommit(outcome));
    CommitTo(s, i, KeyRow(s.calls[i].bodyHash, Some(response)), response, writes, outcome);
  }

  /** Two steps that commit nothing. */
  lemma ShortRun(s: KeyProtocol.State, i: nat, first: KeyProtocol.Step, second: KeyProtocol.Step)
    ensures KeyProtocol.Run(s, EventsOf(i, [first])) == KeyProtocol.Apply(s, KeyProtocol.Event(i, first))
    ensures KeyProtocol.Run(s, EventsOf(i, [first, second])) ==
            KeyProtocol.Apply(KeyProtocol.Apply(s, KeyProtocol.Event(i, first)), KeyProtocol.Event(i, second))
  {
    assert EventsOf(i, []) == [];
    NextStep(s, i, [], first);
    NextStep(s, i, [first], second);
    assert [] + [first] == [first] && [first] + [second] == [first, second];
  }

  lemma OneStepRun(s: KeyProtocol.State, i: nat, step: KeyProtocol.Step)
    requires i < |s.calls| && s.calls[i].phase.Arrived?
    requires KeyProtocol.Enabled(s, KeyProtocol.Event(i, step)) && !KeyProtocol.Commits(step)
    ensures KeyProtocol.Run(s, EventsOf(i, [step])) == Moved(s, i, KeyProtocol.Next(s.keys, s.calls[i], step))
  {
    assert Moved(s, i, KeyProtocol.Arrived) == s;
    ShortRun(s, i, step, KeyProtocol.Crash);
    StepTo(s, i, KeyProtocol.Arrived, step);
  }

  lemma InsertThenRun(s: KeyProtocol.State, i: nat, step: KeyProtocol.Step)
    requires i < |s.calls| && s.calls[i].phase.Arrived? && s.calls[i].key != "" && KeyFree(s, s.calls[i].key)
    requires if s.calls[i].key in s.keys then step.Read? else step.HandlerPanics?
    ensures KeyProtocol.Run(s, EventsOf(i, [KeyProtocol.Insert, step])) ==
            Moved(s, i, if step.Read? then KeyProtocol.Replied(KeyProtocol.Replay(s.keys, s.calls[i].key, s.calls[i].bodyHash))
                        else KeyProtocol.Gone)
  {
    assert Moved(s, i, KeyProtocol.Arrived) == s;
    ShortRun(s, i, KeyProtocol.Insert, step);
    StepTo(s, i, KeyProtocol.Arrived, KeyProtocol.Insert);
    StepTo(s, i, KeyProtocol.Next(s.keys, s.calls[i], KeyProtocol.Insert), step);
  }

  /** A call that leaves the tables as they are. */
  lemma QuietCallIsRun(s: KeyProtocol.State, i: nat, t: Tables, req: HttpRequest, env: Env, reply: Reply)
    returns (steps: seq<KeyProtocol.Step>, phase: KeyProtocol.Phase)
    requires i < |s.calls| && s.calls[i] == KeyProtocol.Call(req.key, req.bodyHash, KeyProtocol.Arrived)
    requires s.keys == t.keys && KeyFree(s, req.key)
    requires (req.key == "" || req.bodyReadable) && CallServed(t, t, req, env, reply)
    ensures KeyProtocol.Run(s, EventsOf(i, steps)) == Moved(s, i, phase) && Ends(phase, reply)
  {
    if req.key == "" {
      steps, phase := [KeyProtocol.RejectMissingKey], KeyProtocol.Replied(KeyProtocol.MissingKey);
      OneStepRun(s, i, KeyProtocol.RejectMissingKey);
    } else if reply == Panicked {
      steps, phase := [KeyProtocol.Insert, KeyProtocol.HandlerPanics], KeyProtocol.Gone;
      InsertThenRun(s, i, KeyProtocol.HandlerPanics);
    } else if reply == Answered(INTERNAL_ERROR) {
      steps, phase := [KeyProtocol.BeginFails], KeyProtocol.Replied(KeyProtocol.InternalError);
      OneStepRun(s, i, KeyProtocol.BeginFails);
    } else {
      ServedLeavesItsKey(t, req, env);
      steps, phase := [KeyProtocol.Insert, KeyProtocol.Read], KeyProtocol.Replied(KeyProtocol.Replay(t.keys, req.key, req.bodyHash));
      InsertThenRun(s, i, KeyProtocol.Read);
    }
  }

  lemma ServedLeavesItsKey(t: Tables, req: HttpRequest, env: Env)
    ensures Served(t, req, env).keys == t.keys[req.key := KeyRow(req.bodyHash, Some(HandledResponse(req.input, env)))]
    ensures req.key !in t.keys ==> Served(t, req, env) != t
  {
  }

  /** What the protocol says of one call: nobody else moves, its own key is settled and
      answered, and its writes are committed exactly if the tables changed. */
  ghost predicate CallEnded(s: KeyProtocol.State, t: KeyProtocol.State, i: nat, before: Tables, after: Tables, req: HttpRequest,
                            env: Env, reply: Reply, writes: seq<KeyProtocol.Write>)
    requires i < |s.calls| == |t.calls|
  {
    && t.keys == after.keys
    && Ends(t.calls[i].phase, reply)
    && t.calls == s.calls[i := s.calls[i].(phase := t.calls[i].phase)]
    && t.commits == if after == before then s.commits
                    else s.commits + [KeyProtocol.Commit(i, HandledResponse(req.input, env), writes)]
  }

  /** Whatever one call may do by RequireIdempotencyKey's contract, while no other call
      holds its key, some events of the protocol do. Handler writes are opaque to the
      protocol, so this holds for whatever stands for them. */
  lemma {:induction false} CallIsRun(s: KeyProtocol.State, i: nat, before: Tables, after: Tables, req: HttpRequest, env: Env,
                                     reply: Reply, writes: seq<KeyProtocol.Write>) returns (steps: seq<KeyProtocol.Step>)
    requires i < |s.calls| && s.calls[i] == KeyProtocol.Call(req.key, req.bodyHash, KeyProtocol.Arrived)
    requires s.keys == before.keys && KeyFree(s, req.key)
    requires (req.key == "" || req.bodyReadable) && CallServed(before, after, req, env, reply)
    ensures CallEnded(s, KeyProtocol.Run(s, EventsOf(i, steps)), i, before, after, req, env, reply, writes)
  {
    if after == before {
      var phase;
      steps, phase := QuietCallIsRun(s, i, before, req, env, reply);
    } else {
      var response := HandledResponse(req.input, env);
      var outcome := if reply == Answered(response) then Acknowledged else AppliedUnacknowledged;
      ServedLeavesItsKey(before, req, env);
      FreshRun(s, i, response, writes, outcome);
      steps := HeldSteps(response, writes) + [KeyProtocol.TryCommit(outcome)];
    }
  }

  lemma KeysDoNotMatter(t: Tables, keys: map<string, KeyRow>, capSeconds: int)
    ensures Consistent(t.(keys := keys), capSeconds) <==> Consistent(t, capSeconds)
  {
  }

  /** Key, standard and event commit together in every call whose publisher mints ids,
      as the service wires it. They come apart exactly when a valid definition meets a
      publisher without an id generator: the message is refused, which is no SQL error,
      so the joined transaction stays usable and the cached 500 commits the standards
      alone. */
  lemma {:induction false} ServedIsConsistentIff(t: Tables, req: HttpRequest, env: Env, capSeconds: int)
    requires Consistent(t, capSeconds) && env.id !in t.standards
    ensures Consistent(Served(t, req, env), capSeconds) <==> !(env.ids.analytics == "" && Definable(req.input))
  {
    var after := HandledTables(t, req.input, env);
    KeysDoNotMatter(after, Served(t, req, env).keys, capSeconds);
    if Definable(req.input) {
      var d := DefinitionOfInput(req.input.value, env);
      if env.ids.analytics == "" {
        UnannouncedIsInconsistent(t, d, capSeconds);
      } else {
        DefinedKeepsConsistent(t, d, capSeconds);
      }
    }
  }

  const FIRST_STANDARD := HttpRequest("k1", true, "h1", Some(StandardInput("PICK", 45, None)))

  /** The same call with and without an id generator: one commits the standard and its
      event with a 201, the other the standard alone with a 500. */
  lemma MissingGeneratorLosesEvent(ids: Minted, capSeconds: int)
    requires ids.Wired()
    ensures var wired, unwired := Env(1, 0, ids, NO_FAULT, false, false), Env(1, 0, Minted("", ""), NO_FAULT, false, false);
            var after, without := Served(EMPTY, FIRST_STANDARD, wired), Served(EMPTY, FIRST_STANDARD, unwired);
            && Consistent(after, capSeconds) && 1 in after.standards && |after.outbox| == 1
            && after.keys["k1"].outcome.value.status == 201
            && !Consistent(without, capSeconds) && 1 in without.standards && without.outbox == []
            && without.keys["k1"].outcome == Some(INTERNAL_ERROR)
  {
    EmptyIsConsistent(capSeconds);
    ServedIsConsistentIff(EMPTY, FIRST_STANDARD, Env(1, 0, ids, NO_FAULT, false, false), capSeconds);
    ServedIsConsistentIff(EMPTY, FIRST_STANDARD, Env(1, 0, Minted("", ""), NO_FAULT, false, false), capSeconds);
  }

  lemma EmptyIsConsistent(capSeconds: int)
    ensures Consistent(EMPTY, capSeconds)
  {
    assert DefinitionsIn([]) == [] && RecordedOn([], Analytics) == [] == RecordedOn([], Integration);
  }

  lemma UnannouncedIsInconsistent(t: Tables, d: Definition, capSeconds: int)
    requires Consistent(t, capSeconds) && d.id !in t.standards
    ensures !Consistent(t.(standards := Supersede(t.standards, d)), capSeconds)
  {
    assert d.id in Supersede(t.standards, d);
  }
}
