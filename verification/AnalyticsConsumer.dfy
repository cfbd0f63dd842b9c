/** The analytics projector: an offset that moves as a message is read, then an admission
    gate that commits on its own, in front of the projection. */
module AnalyticsConsumers {
  import opened Base
  import opened Oltp
  import opened Projections

  /** The payload of a projecting event, or nothing if it does not decode. */
  datatype Data = Data(taskType: string, effectiveFrom: Instant, completedAt: Instant, actualSeconds: int, efficiencyPct: Option<real>)

  datatype Decoded =
    | NotACloudEvent
    | OtherType
    | Projecting(kind: Kind, id: nat, time: Instant, data: Option<Data>)

  function OrOccurredAt(businessTime: Instant, occurredAt: Instant): Instant {
    if businessTime == ZERO_TIME then occurredAt else businessTime
  }

  /** The fact an event carries: business time picks the bucket, event time the watermark. */
  function FactOf(kind: Kind, time: Instant, data: Data): Fact {
    match kind
    case TaskPerformanceFact => Fact(kind, data.taskType, OrOccurredAt(data.completedAt, time), time, data.actualSeconds, data.efficiencyPct)
    case _ => Fact(kind, data.taskType, OrOccurredAt(data.effectiveFrom, time), time, 0, None)
  }

  datatype GateOutcome = GateOk | GateFails | GateUnacknowledged

  /** What happens to one handled message: the gate's insert, a crash between gate
      and projection, and the projection's transaction. */
  datatype Env = Env(gate: GateOutcome, crashAfterGate: bool, apply: ApplyOutcome)

  /** One round of the read loop: the offset commit inside the read, then the handling. */
  datatype Turn = Turn(read: CommitOutcome, env: Env)

  datatype Projector = Projector(admitted: set<nat>, projection: Projection)

  /** The projection step of an admission took effect. */
  predicate Reaches(m: Decoded, env: Env)
    requires m.Projecting?
  {
    env.gate.GateOk? && !env.crashAfterGate && m.data.Some? && TookEffect(env.apply)
  }

  /** One handled message, as a step on values. */
  function Handle(s: Projector, m: Decoded, env: Env): Projector {
    if !m.Projecting? || env.gate.GateFails? || m.id in s.admitted then s
    else
      Projector(s.admitted + {m.id},
                if Reaches(m, env) then ApplyOnce(s.projection, m.id, EffectOf(FactOf(m.kind, m.time, m.data.value)))
                else s.projection)
  }

  class AnalyticsConsumer {
    /** The group's committed offset in the partition read. */
    var offset: nat
    var consumed: set<nat>
    const projection: PostgresProjection

    constructor (projection: PostgresProjection)
      ensures this.projection == projection && consumed == {} && offset == 0
    {
      offset, consumed, this.projection := 0, {}, projection;
    }

    ghost function State(): Projector
      reads this, projection
    {
      Projector(consumed, projection.State())
    }

    /** INSERT ... ON CONFLICT DO NOTHING, committed by itself. */
    method MarkProcessed(id: nat, outcome: GateOutcome) returns (ok: bool, isNew: bool)
      modifies this`consumed
      ensures ok <==> outcome.GateOk?
      ensures ok ==> (isNew <==> id !in old(consumed))
      ensures consumed == if outcome.GateFails? then old(consumed) else old(consumed) + {id}
    {
      ok, isNew := outcome.GateOk?, id !in consumed;
      if !outcome.GateFails? {
        consumed := consumed + {id};
      }
    }

    method HandleMessage(m: Decoded, env: Env) returns (ok: bool)
      modifies this`consumed, projection
      ensures State() == Handle(old(State()), m, env)
      ensures !m.Projecting? ==> ok
      ensures m.Projecting? && m.id in old(consumed) ==> (ok <==> env.gate.GateOk?)
      ensures m.Projecting? && m.id !in old(consumed) && ok ==> m.id in State().projection.seen
      ensures m.Projecting? && m.id !in old(consumed) && env.gate.GateOk? && !env.crashAfterGate && m.data.Some? && env.apply.ApplyOk? ==> ok
    {
      if !m.Projecting? {
        return true;
      }
      var marked, isNew := MarkProcessed(m.id, env.gate);
      if !marked {
        assert consumed == old(consumed) || m.id !in old(consumed);
        return false;
      }
      if !isNew {
        assert consumed == old(consumed);
        return true;
      }
      if env.crashAfterGate || m.data.None? {
        return false;
      }
      ok := Dispatch(m.id, FactOf(m.kind, m.time, m.data.value), env.apply);
    }

    /** Fetches the message at the offset and commits past it before handing it over. */
    method ReadMessage(log: seq<Decoded>, outcome: CommitOutcome) returns (m: Option<Decoded>)
      requires offset < |log|
      modifies this`offset
      ensures m == if outcome.Acknowledged? then Some(log[old(offset)]) else None
      ensures offset == old(offset) + if outcome.Lost? then 0 else 1
    {
      var fetched := log[offset];
      if !outcome.Lost? {
        offset := offset + 1;
      }
      return if outcome.Acknowledged? then Some(fetched) else None;
    }

    /** Reads on whatever becomes of each message: the messages from the old offset are
        handled once each, in order, until a read fails or there is nothing left. A read
        whose commit was applied without an answer passes its message by. */
    method Run(log: seq<Decoded>, turns: seq<Turn>) returns (ghost handled: seq<Handling>)
      requires offset <= |log|
      modifies this, projection
      ensures State() == RunFrom(old(State()), handled)
      ensures |handled| <= |turns| && old(offset) + |handled| <= |log|
      ensures forall k :: 0 <= k < |handled| ==>
                turns[k].read.Acknowledged? && handled[k] == Handling(log[old(offset) + k], turns[k].env)
      ensures var next := |handled|;
              if next == |turns| || old(offset) + next == |log| then offset == old(offset) + next
              else !turns[next].read.Acknowledged? && offset == old(offset) + next + if turns[next].read.Lost? then 0 else 1
    {
      handled := [];
      var k := 0;
      while k < |turns| && offset < |log|
        invariant k == |handled| <= |turns| && offset == old(offset) + k <= |log|
        invariant State() == RunFrom(old(State()), handled)
        invariant forall j :: 0 <= j < k ==> turns[j].read.Acknowledged? && handled[j] == Handling(log[old(offset) + j], turns[j].env)
      {
        var m := ReadMessage(log, turns[k].read);
        if m.None? {
          return;
        }
        ghost var h := Handling(m.value, turns[k].env);
        AppendParts(handled, h);
        var _ := HandleMessage(m.value, turns[k].env);
        handled := handled + [h];
        k := k + 1;
      }
    }

    /** Routes the fact to the projection method of its kind. */
    method Dispatch(id: nat, f: Fact, outcome: ApplyOutcome) returns (ok: bool)
      modifies projection
      ensures projection.State() == if TookEffect(outcome) then ApplyOnce(old(projection.State()), id, EffectOf(f)) else old(projection.State())
      ensures ok ==> id in projection.State().seen
      ensures outcome.ApplyOk? ==> ok
    {
      match f.kind {
        case TaskPerformanceFact => ok := projection.ApplyTaskPerformanceRecorded(id, f, outcome);
        case StandardDefinedFact => ok := projection.ApplyLaborStandardDefined(id, f, outcome);
        case StandardRevisedFact => ok := projection.ApplyLaborStandardRevised(id, f, outcome);
      }
    }
  }

  // --- Runs -------------------------------------------------------------------------------

  datatype Handling = Handling(message: Decoded, env: Env)

  const IDLE := Projector({}, NOTHING)

  function RunFrom(s: Projector, handlings: seq<Handling>): Projector {
    if handlings == [] then s else Handle(RunFrom(s, Init(handlings)), Last(handlings).message, Last(handlings).env)
  }

  function Run(handlings: seq<Handling>): Projector {
    RunFrom(IDLE, handlings)
  }

  /** The first handling of an id that gets past the gate's insert. */
  function Admission(handlings: seq<Handling>, id: nat): Option<Handling> {
    if handlings == [] then None
    else
      var before := Admission(Init(handlings), id);
      var h := Last(handlings);
      if before.Some? then before
      else if h.message.Projecting? && h.message.id == id && !h.env.gate.GateFails? then Some(h)
      else None
  }

  /** The design says each id is projected exactly once. What the code keeps: an id
      is projected at most once, and it is projected exactly when its admitting
      handling reached the projection. No later redelivery can make up for a crash
      or error between the gate and the projection. */
  lemma {:induction false} ProjectedIffAdmissionReached(handlings: seq<Handling>, id: nat)
    ensures id in Run(handlings).admitted <==> Admission(handlings, id).Some?
    ensures Admission(handlings, id).Some? ==> Admission(handlings, id).value.message.Projecting?
    ensures id in Run(handlings).projection.seen <==>
            Admission(handlings, id).Some? && Reaches(Admission(handlings, id).value.message, Admission(handlings, id).value.env)
  {
    if handlings != [] {
      ProjectedIffAdmissionReached(Init(handlings), id);
    }
  }

  /** The handling is its id's admission and reaches the projection. */
  predicate TakesEffect(s: Projector, h: Handling) {
    h.message.Projecting? && h.message.id !in s.admitted && Reaches(h.message, h.env)
  }

  function DeliveryOf(h: Handling): Delivery
    requires h.message.Projecting? && h.message.data.Some?
  {
    Delivery(h.message.id, EffectOf(FactOf(h.message.kind, h.message.time, h.message.data.value)))
  }

  /** The deliveries that reached the projection, in order. */
  function Projected(handlings: seq<Handling>): seq<Delivery> {
    if handlings == [] then []
    else
      var before, h := Projected(Init(handlings)), Last(handlings);
      if TakesEffect(Run(Init(handlings)), h) then before + [DeliveryOf(h)] else before
  }

  lemma HandleMovesProjection(s: Projector, h: Handling)
    ensures var t := Handle(s, h.message, h.env);
            && s.admitted <= t.admitted
            && (h.message.Projecting? && !h.env.gate.GateFails? ==> h.message.id in t.admitted)
            && (TakesEffect(s, h) ==> t.projection == ApplyOnce(s.projection, DeliveryOf(h).id, DeliveryOf(h).effect))
            && (!TakesEffect(s, h) ==> t.projection == s.projection)
  {
  }

  lemma FoldOneMore(deliveries: seq<Delivery>, d: Delivery)
    ensures Fold(deliveries + [d]) == ApplyOnce(Fold(deliveries), d.id, d.effect)
  {
    AppendParts(deliveries, d);
  }

  /** In every run the read model is the plain fold of the deliveries that reached
      it, and their ids are distinct: nothing is counted twice. */
  lemma {:induction false} ReadModelIsFold(handlings: seq<Handling>)
    ensures Run(handlings).projection == Fold(Projected(handlings))
    ensures Run(handlings).projection.seen <= Run(handlings).admitted
    ensures |Projected(handlings)| == |Run(handlings).projection.seen|
  {
    if handlings != [] {
      var s, h := Run(Init(handlings)), Last(handlings);
      ReadModelIsFold(Init(handlings));
      HandleMovesProjection(s, h);
      if TakesEffect(s, h) {
        FoldOneMore(Projected(Init(handlings)), DeliveryOf(h));
        assert h.message.id !in s.projection.seen;
      }
    }
  }
}
