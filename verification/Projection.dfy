/** The analytics read model: facts folded into hourly counters, once per event id. */
module Projections {
  import opened Base
  import opened Sums

  const UNCLASSIFIED := "UNCLASSIFIED"

  function ToUpper(c: char): char {
    if 'a' <= c <= 'z' then c - 'a' + 'A' else c
  }

  function Upper(s: string): string {
    seq(|s|, i requires 0 <= i < |s| => ToUpper(s[i]))
  }

  predicate IsSpace(c: char) {
    c == ' ' || c == '\t' || c == '\n' || c == '\r'
  }

  function TrimSpace(s: string): string {
    if s != [] && IsSpace(s[0]) then TrimSpace(s[1..])
    else if s != [] && IsSpace(Last(s)) then TrimSpace(Init(s))
    else s
  }

  function NormalizeTaskType(taskType: string): string {
    var trimmed := Upper(TrimSpace(taskType));
    if trimmed != "" then trimmed else UNCLASSIFIED
  }

  // --- What normalising does ---------------------------------------------------------

  /** The text between i and j, with nothing but white space around it. */
  ghost predicate IsTrimmed(s: string, i: nat, j: nat) {
    && i <= j <= |s|
    && (forall k :: 0 <= k < i ==> s[k] in {' ', '\t', '\n', '\r'})
    && (forall k :: j <= k < |s| ==> s[k] in {' ', '\t', '\n', '\r'})
    && (i < j ==> s[i] !in {' ', '\t', '\n', '\r'} && s[j - 1] !in {' ', '\t', '\n', '\r'})
  }

  lemma {:induction false} TrimIsTrimmed(s: string) returns (i: nat, j: nat)
    ensures IsTrimmed(s, i, j) && TrimSpace(s) == s[i..j]
  {
    if s != [] && IsSpace(s[0]) {
      i, j := TrimIsTrimmed(s[1..]);
      assert forall k :: 0 <= k < |s| - 1 ==> s[1..][k] == s[k + 1];
      forall k | 0 <= k < i + 1 ensures IsSpace(s[k]) { if k > 0 { assert s[1..][k - 1] == s[k]; } }
      forall k | j + 1 <= k < |s| ensures IsSpace(s[k]) { assert s[1..][k - 1] == s[k]; }
      assert s[1..][i..j] == s[i + 1..j + 1];
      i, j := i + 1, j + 1;
    } else if s != [] && IsSpace(Last(s)) {
      i, j := TrimIsTrimmed(Init(s));
      assert forall k :: 0 <= k < |s| - 1 ==> Init(s)[k] == s[k];
      assert Init(s)[i..j] == s[i..j];
    } else {
      i, j := 0, |s|;
      assert s[0..|s|] == s;
    }
  }

  /** Capital letters for small ones, character by character. */
  ghost predicate IsUpperOf(u: string, s: string) {
    && |u| == |s|
    && forall k :: 0 <= k < |s| ==>
         if 'a' <= s[k] <= 'z' then 'A' <= u[k] <= 'Z' && u[k] - 'A' == s[k] - 'a' else u[k] == s[k]
  }

  lemma UpperIsUpper(s: string)
    ensures IsUpperOf(Upper(s), s)
  {
  }

  /** A task type is trimmed and capitalised; white space alone is unclassified. */
  lemma {:induction false} NormalIs(taskType: string) returns (i: nat, j: nat)
    ensures IsTrimmed(taskType, i, j)
    ensures i == j ==> NormalizeTaskType(taskType) == "UNCLASSIFIED"
    ensures i < j ==> IsUpperOf(NormalizeTaskType(taskType), taskType[i..j])
  {
    i, j := TrimIsTrimmed(taskType);
    UpperIsUpper(taskType[i..j]);
  }

  predicate HasNoSmallLetter(s: string) {
    forall k :: 0 <= k < |s| ==> !('a' <= s[k] <= 'z')
  }

  /** A type that is not empty, trimmed and without small letters stays as it is. */
  lemma {:induction false} NormalStays(taskType: string)
    requires taskType != "" && HasNoSmallLetter(taskType)
    requires taskType[0] !in {' ', '\t', '\n', '\r'} && taskType[|taskType| - 1] !in {' ', '\t', '\n', '\r'}
    ensures NormalizeTaskType(taskType) == taskType
  {
    var i, j := NormalIs(taskType);
    assert i == 0 && j == |taskType|;
    assert taskType[0..|taskType|] == taskType;
    assert forall k :: 0 <= k < |taskType| ==> NormalizeTaskType(taskType)[k] == taskType[k];
  }

  /** The UTC hour t falls in. */
  function HourBucket(t: Instant): (h: Instant)
    ensures h <= t < h + 3_600_000_000_000 && h % 3_600_000_000_000 == 0
  {
    t - t % HOUR
  }

  datatype RowKey = RowKey(taskType: string, hourBucket: Instant)

  datatype Kind = TaskPerformanceFact | StandardDefinedFact | StandardRevisedFact

  datatype Fact = Fact(
    kind: Kind,
    taskType: string,
    businessTime: Instant,
    occurredAt: Instant,
    actualSeconds: int,
    efficiencyPct: Option<real>)

  function KeyOf(f: Fact): RowKey {
    RowKey(NormalizeTaskType(f.taskType), HourBucket(f.businessTime))
  }

  /** The increments one fact contributes to its row. */
  function DeltaOf(f: Fact): Counters {
    match f.kind
    case TaskPerformanceFact =>
      Counters(1, if f.efficiencyPct.Some? then 1 else 0, if f.efficiencyPct.Some? then f.efficiencyPct.value else 0.0,
               if f.actualSeconds > 0 then 1 else 0, if f.actualSeconds > 0 then f.actualSeconds else 0, 0, 0)
    case StandardDefinedFact => ZERO.(standardsDefined := 1)
    case StandardRevisedFact => ZERO.(standardsRevised := 1)
  }

  /** What a fact does to the read model: one delta to one row, one instant to the watermark. */
  datatype Effect = Effect(key: RowKey, delta: Counters, occurredAt: Instant)

  function EffectOf(f: Fact): Effect {
    Effect(KeyOf(f), DeltaOf(f), f.occurredAt)
  }

  /** The projection's state: ids whose effect is in, the rows, the freshness watermark. */
  datatype Projection = Projection(seen: set<nat>, rows: map<RowKey, Counters>, latest: Instant)

  const NOTHING := Projection({}, map[], ZERO_TIME)

  function ApplyOnce(s: Projection, id: nat, e: Effect): Projection {
    if id in s.seen then s
    else Projection(s.seen + {id}, Bump(s.rows, e.key, e.delta), Max(s.latest, e.occurredAt))
  }

  /** The in-place increments of one completed task amount to adding its delta. */
  function CountTask(r: Counters, f: Fact): (r': Counters)
    ensures f.kind.TaskPerformanceFact? ==> r' == Add(r, DeltaOf(f))
  {
    var recorded := r.(tasksRecorded := r.tasksRecorded + 1);
    var scored := if f.efficiencyPct.None? then recorded
      else recorded.(tasksScored := r.tasksScored + 1, efficiencyPctSum := r.efficiencyPctSum + f.efficiencyPct.value);
    if f.actualSeconds <= 0 then scored
    else scored.(tasksMeasured := r.tasksMeasured + 1, actualSecondsSum := r.actualSecondsSum + f.actualSeconds)
  }

  function CountDefined(r: Counters, f: Fact): (r': Counters)
    ensures f.kind.StandardDefinedFact? ==> r' == Add(r, DeltaOf(f))
  {
    r.(standardsDefined := r.standardsDefined + 1)
  }

  function CountRevised(r: Counters, f: Fact): (r': Counters)
    ensures f.kind.StandardRevisedFact? ==> r' == Add(r, DeltaOf(f))
  {
    r.(standardsRevised := r.standardsRevised + 1)
  }

  // --- The freshness watermark --------------------------------------------------------

  ghost predicate IsWatermark(latest: Instant, instants: set<Instant>) {
    && ZERO_TIME <= latest
    && (forall t :: t in instants ==> t <= latest)
    && (latest == ZERO_TIME || latest in instants)
  }

  /** `max(occurred_at)`, or the zero instant over nothing. */
  ghost function Watermark(instants: set<Instant>): (w: Instant)
    ensures IsWatermark(w, instants)
  {
    if exists t :: t in instants then
      var t :| t in instants;
      assert instants == instants - {t} + {t};
      Max(t, Watermark(instants - {t}))
    else ZERO_TIME
  }

  lemma WatermarkMoves(processed: map<nat, Instant>, id: nat, t: Instant)
    requires id !in processed
    ensures Watermark(processed[id := t].Values) == Max(Watermark(processed.Values), t)
  {
    assert processed[id := t].Values == processed.Values + {t} by {
      forall v | v in processed.Values ensures v in processed[id := t].Values {
        var j :| j in processed && processed[j] == v;
        assert processed[id := t][j] == v;
      }
      assert processed[id := t][id] == t;
    }
  }

  // --- The two stores ---------------------------------------------------------------

  class MemoryStore {
    var seen: set<nat>
    var consumed: set<nat>
    var rows: map<RowKey, Counters>
    var latest: Instant

    constructor ()
      ensures State() == NOTHING && consumed == {}
    {
      seen, consumed, rows, latest := {}, {}, map[], ZERO_TIME;
    }

    function State(): Projection
      reads this
    {
      Projection(seen, rows, latest)
    }

    method FirstApply(id: nat, occurredAt: Instant) returns (first: bool)
      modifies this`seen, this`latest
      ensures first <==> id !in old(seen)
      ensures seen == old(seen) + {id}
      ensures latest == if first then Max(old(latest), occurredAt) else old(latest)
    {
      if id in seen {
        return false;
      }
      seen := seen + {id};
      if occurredAt > latest {
        latest := occurredAt;
      }
      return true;
    }

    /** Applies `fn` to the row at `key`, unless the id was seen before. */
    method BumpRow(id: nat, key: RowKey, occurredAt: Instant, fn: Counters -> Counters, ghost delta: Counters)
      requires fn(Get(rows, key)) == Add(Get(rows, key), delta)
      modifies this`seen, this`latest, this`rows
      ensures State() == ApplyOnce(old(State()), id, Effect(key, delta, occurredAt))
    {
      var first := FirstApply(id, occurredAt);
      if !first {
        return;
      }
      rows := rows[key := fn(Get(rows, key))];
    }

    method ApplyTaskPerformanceRecorded(id: nat, f: Fact)
      requires f.kind.TaskPerformanceFact?
      modifies this
      ensures State() == ApplyOnce(old(State()), id, EffectOf(f)) && consumed == old(consumed)
    {
      BumpRow(id, KeyOf(f), f.occurredAt, r => CountTask(r, f), DeltaOf(f));
    }

    method ApplyLaborStandardDefined(id: nat, f: Fact)
      requires f.kind.StandardDefinedFact?
      modifies this
      ensures State() == ApplyOnce(old(State()), id, EffectOf(f)) && consumed == old(consumed)
    {
      BumpRow(id, KeyOf(f), f.occurredAt, r => CountDefined(r, f), DeltaOf(f));
    }

    method ApplyLaborStandardRevised(id: nat, f: Fact)
      requires f.kind.StandardRevisedFact?
      modifies this
      ensures State() == ApplyOnce(old(State()), id, EffectOf(f)) && consumed == old(consumed)
    {
      BumpRow(id, KeyOf(f), f.occurredAt, r => CountRevised(r, f), DeltaOf(f));
    }

    method MarkProcessed(id: nat) returns (isNew: bool)
      modifies this`consumed
      ensures isNew <==> id !in old(consumed)
      ensures consumed == old(consumed) + {id}
    {
      if id in consumed {
        return false;
      }
      consumed := consumed + {id};
      return true;
    }
  }

  datatype ApplyOutcome = ApplyOk | ClaimFails | UpsertFails | CommitLost | CommitUnacknowledged

  /** The apply reached the database. */
  predicate TookEffect(outcome: ApplyOutcome) {
    outcome.ApplyOk? || outcome.CommitUnacknowledged?
  }

  class PostgresProjection {
    var processed: map<nat, Instant>
    var rollup: map<RowKey, Counters>

    constructor ()
      ensures State() == NOTHING
    {
      processed, rollup := map[], map[];
    }

    ghost function State(): Projection
      reads this
    {
      Projection(processed.Keys, rollup, Watermark(processed.Values))
    }

    /** Claim and upsert in one transaction: both become visible, or neither. */
    method Apply(id: nat, taskType: string, bucketAt: Instant, occurredAt: Instant, d: Counters, outcome: ApplyOutcome)
      returns (ok: bool)
      modifies this
      ensures ok <==> outcome.ApplyOk? || (outcome.UpsertFails? && id in old(processed))
      ensures id in old(processed) || !TookEffect(outcome) ==> processed == old(processed) && rollup == old(rollup)
      ensures id !in old(processed) && TookEffect(outcome) ==>
                && processed == old(processed)[id := occurredAt]
                && rollup == Bump(old(rollup), RowKey(NormalizeTaskType(taskType), HourBucket(bucketAt)), d)
    {
      if outcome.ClaimFails? {
        return false;
      }
      var isNew := id !in processed;
      if !isNew {
        return outcome.ApplyOk? || outcome.UpsertFails?;
      }
      var claimed := processed[id := occurredAt];
      if outcome.UpsertFails? {
        return false;
      }
      var key := RowKey(NormalizeTaskType(taskType), HourBucket(bucketAt));
      var row := if key in rollup then Add(rollup[key], d) else d;
      AddLaws(d, ZERO, ZERO);
      if outcome.CommitLost? {
        return false;
      }
      processed, rollup := claimed, rollup[key := row];
      return outcome.ApplyOk?;
    }

    method ApplyTaskPerformanceRecorded(id: nat, f: Fact, outcome: ApplyOutcome) returns (ok: bool)
      requires f.kind.TaskPerformanceFact?
      modifies this
      ensures State() == if TookEffect(outcome) then ApplyOnce(old(State()), id, EffectOf(f)) else old(State())
      ensures ok ==> id in State().seen
      ensures outcome.ApplyOk? ==> ok
    {
      var d := ZERO.(tasksRecorded := 1);
      if f.efficiencyPct.Some? {
        d := d.(tasksScored := 1, efficiencyPctSum := f.efficiencyPct.value);
      }
      if f.actualSeconds > 0 {
        d := d.(tasksMeasured := 1, actualSecondsSum := f.actualSeconds);
      }
      if id !in processed { WatermarkMoves(processed, id, f.occurredAt); }
      ok := Apply(id, f.taskType, f.businessTime, f.occurredAt, d, outcome);
    }

    method ApplyLaborStandardDefined(id: nat, f: Fact, outcome: ApplyOutcome) returns (ok: bool)
      requires f.kind.StandardDefinedFact?
      modifies this
      ensures State() == if TookEffect(outcome) then ApplyOnce(old(State()), id, EffectOf(f)) else old(State())
      ensures ok ==> id in State().seen
      ensures outcome.ApplyOk? ==> ok
    {
      if id !in processed { WatermarkMoves(processed, id, f.occurredAt); }
      ok := Apply(id, f.taskType, f.businessTime, f.occurredAt, ZERO.(standardsDefined := 1), outcome);
    }

    method ApplyLaborStandardRevised(id: nat, f: Fact, outcome: ApplyOutcome) returns (ok: bool)
      requires f.kind.StandardRevisedFact?
      modifies this
      ensures State() == if TookEffect(outcome) then ApplyOnce(old(State()), id, EffectOf(f)) else old(State())
      ensures ok ==> id in State().seen
      ensures outcome.ApplyOk? ==> ok
    {
      if id !in processed { WatermarkMoves(processed, id, f.occurredAt); }
      ok := Apply(id, f.taskType, f.businessTime, f.occurredAt, ZERO.(standardsRevised := 1), outcome);
    }
  }

  // --- The reference: one sum over the distinct ids ------------------------------------

  function Deltas(effects: map<nat, Effect>): map<nat, Counters> {
    map id | id in effects :: effects[id].delta
  }

  function IdsAt(effects: map<nat, Effect>, key: RowKey): set<nat> {
    set id | id in effects && effects[id].key == key
  }

  function OccurredAts(effects: map<nat, Effect>): set<Instant> {
    set id | id in effects :: effects[id].occurredAt
  }

  /** The row at `key` exists exactly if some effect has that key, and is their deltas' sum. */
  ghost predicate RowIsSum(rows: map<RowKey, Counters>, effects: map<nat, Effect>, key: RowKey) {
    && (key in rows <==> IdsAt(effects, key) != {})
    && Get(rows, key) == SumKeys(Deltas(effects), IdsAt(effects, key))
  }

  /** A state that is exactly one sum of the effects' deltas per row key. */
  ghost predicate IsReference(s: Projection, effects: map<nat, Effect>) {
    && s.seen == effects.Keys
    && (forall key :: RowIsSum(s.rows, effects, key))
    && IsWatermark(s.latest, OccurredAts(effects))
    && SumKeys(s.rows, s.rows.Keys) == SumKeys(Deltas(effects), effects.Keys)
  }

  lemma ReferenceIsUnique(s: Projection, s': Projection, effects: map<nat, Effect>)
    requires IsReference(s, effects) && IsReference(s', effects)
    ensures s == s'
  {
    forall key ensures key in s.rows <==> key in s'.rows
               ensures key in s.rows ==> s.rows[key] == s'.rows[key]
    {
      assert RowIsSum(s.rows, effects, key) && RowIsSum(s'.rows, effects, key);
    }
    assert s.rows == s'.rows;
  }

  lemma NewEffectMovesSums(effects: map<nat, Effect>, id: nat, e: Effect, key: RowKey)
    requires id !in effects
    ensures var next := effects[id := e];
            SumKeys(Deltas(next), IdsAt(next, key)) ==
            if e.key == key then Add(SumKeys(Deltas(effects), IdsAt(effects, key)), e.delta)
            else SumKeys(Deltas(effects), IdsAt(effects, key))
    ensures SumKeys(Deltas(effects[id := e]), effects[id := e].Keys) == Add(SumKeys(Deltas(effects), effects.Keys), e.delta)
  {
    var next := effects[id := e];
    SumKeysAgree(Deltas(effects), Deltas(next), IdsAt(effects, key));
    SumKeysAgree(Deltas(effects), Deltas(next), effects.Keys);
    SumKeysPick(Deltas(next), next.Keys, id);
    assert next.Keys - {id} == effects.Keys;
    AddLaws(e.delta, SumKeys(Deltas(effects), effects.Keys), ZERO);
    if e.key == key {
      SumKeysPick(Deltas(next), IdsAt(next, key), id);
      assert IdsAt(next, key) - {id} == IdsAt(effects, key);
      AddLaws(e.delta, SumKeys(Deltas(effects), IdsAt(effects, key)), ZERO);
    } else {
      assert IdsAt(next, key) == IdsAt(effects, key);
    }
  }

  lemma NewEffectMovesWatermark(effects: map<nat, Effect>, latest: Instant, id: nat, e: Effect)
    requires id !in effects && IsWatermark(latest, OccurredAts(effects))
    ensures IsWatermark(Max(latest, e.occurredAt), OccurredAts(effects[id := e]))
  {
    var next := effects[id := e];
    assert next[id].occurredAt in OccurredAts(next);
    forall t | t in OccurredAts(effects) ensures t in OccurredAts(next) {
      var j :| j in effects && effects[j].occurredAt == t;
      assert next[j].occurredAt == t;
    }
    forall t | t in OccurredAts(next) ensures t == e.occurredAt || t in OccurredAts(effects) {
      var j :| j in next && next[j].occurredAt == t;
      if j != id { assert effects[j].occurredAt == t; }
    }
  }

  lemma NewEffectMovesRow(rows: map<RowKey, Counters>, effects: map<nat, Effect>, id: nat, e: Effect, key: RowKey)
    requires RowIsSum(rows, effects, key) && id !in effects
    ensures RowIsSum(Bump(rows, e.key, e.delta), effects[id := e], key)
  {
    NewEffectMovesSums(effects, id, e, key);
    var next := effects[id := e];
    if key == e.key {
      assert id in IdsAt(next, key);
    } else {
      assert IdsAt(next, key) == IdsAt(effects, key);
    }
  }

  lemma NewEffectMovesTotal(rows: map<RowKey, Counters>, effects: map<nat, Effect>, id: nat, e: Effect)
    requires SumKeys(rows, rows.Keys) == SumKeys(Deltas(effects), effects.Keys) && id !in effects
    ensures var rows', next := Bump(rows, e.key, e.delta), effects[id := e];
            SumKeys(rows', rows'.Keys) == SumKeys(Deltas(next), next.Keys)
  {
    NewEffectMovesSums(effects, id, e, e.key);
    BumpMovesTotal(rows, e.key, e.delta);
  }

  lemma NewEffectMovesRows(rows: map<RowKey, Counters>, effects: map<nat, Effect>, id: nat, e: Effect)
    requires id !in effects && forall key :: RowIsSum(rows, effects, key)
    ensures var rows', next := Bump(rows, e.key, e.delta), effects[id := e];
            forall key :: RowIsSum(rows', next, key)
  {
    var rows', next := Bump(rows, e.key, e.delta), effects[id := e];
    forall key ensures RowIsSum(rows', next, key) {
      NewEffectMovesRow(rows, effects, id, e, key);
    }
  }

  lemma ApplyKeepsReference(s: Projection, effects: map<nat, Effect>, id: nat, e: Effect)
    requires IsReference(s, effects)
    ensures IsReference(ApplyOnce(s, id, e), if id in effects then effects else effects[id := e])
  {
    if id !in effects {
      NewEffectMovesRows(s.rows, effects, id, e);
      NewEffectMovesWatermark(effects, s.latest, id, e);
      NewEffectMovesTotal(s.rows, effects, id, e);
    }
  }

  // --- Delivery sequences ----------------------------------------------------------------

  datatype Delivery = Delivery(id: nat, effect: Effect)

  function Fold(deliveries: seq<Delivery>): Projection {
    if deliveries == [] then NOTHING else ApplyOnce(Fold(Init(deliveries)), Last(deliveries).id, Last(deliveries).effect)
  }

  /** The fact each id was first delivered with. */
  function FirstEffects(deliveries: seq<Delivery>): map<nat, Effect> {
    if deliveries == [] then map[]
    else
      var before := FirstEffects(Init(deliveries));
      if Last(deliveries).id in before then before else before[Last(deliveries).id := Last(deliveries).effect]
  }

  lemma {:induction false} FoldIsReference(deliveries: seq<Delivery>)
    ensures IsReference(Fold(deliveries), FirstEffects(deliveries))
  {
    if deliveries == [] {
      assert Deltas(map[]).Keys == {};
      assert forall key :: IdsAt(map[], key) == {};
      assert OccurredAts(map[]) == {};
    } else {
      FoldIsReference(Init(deliveries));
      ApplyKeepsReference(Fold(Init(deliveries)), FirstEffects(Init(deliveries)), Last(deliveries).id, Last(deliveries).effect);
    }
  }

  ghost predicate SameEffectPerId(deliveries: seq<Delivery>) {
    forall d, e :: d in deliveries && e in deliveries && d.id == e.id ==> d.effect == e.effect
  }

  lemma {:induction false} FirstEffectsAreTheEffects(deliveries: seq<Delivery>, id: nat)
    requires SameEffectPerId(deliveries)
    ensures id in FirstEffects(deliveries) <==> exists d :: d in deliveries && d.id == id
    ensures id in FirstEffects(deliveries) ==> Delivery(id, FirstEffects(deliveries)[id]) in deliveries
  {
    if deliveries != [] {
      assert deliveries == Init(deliveries) + [Last(deliveries)];
      FirstEffectsAreTheEffects(Init(deliveries), id);
      assert Last(deliveries) in deliveries;
    }
  }

  /** Duplicates and reordering change nothing: two delivery sequences of the same
      effects end in the same rows and the same watermark. */
  lemma ProjectionIsOrderFree(ds: seq<Delivery>, ds': seq<Delivery>)
    requires SameEffectPerId(ds)
    requires forall d :: d in ds <==> d in ds'
    ensures Fold(ds) == Fold(ds')
  {
    assert SameEffectPerId(ds');
    FoldIsReference(ds);
    FoldIsReference(ds');
    forall id
      ensures id in FirstEffects(ds) <==> id in FirstEffects(ds')
      ensures id in FirstEffects(ds) ==> FirstEffects(ds)[id] == FirstEffects(ds')[id]
    {
      FirstEffectsAreTheEffects(ds, id);
      FirstEffectsAreTheEffects(ds', id);
      if id in FirstEffects(ds) {
        assert Delivery(id, FirstEffects(ds)[id]) in ds';
      }
    }
    assert FirstEffects(ds) == FirstEffects(ds');
    ReferenceIsUnique(Fold(ds), Fold(ds'), FirstEffects(ds));
  }

  // --- Counter nesting ----------------------------------------------------------------------

  /** A scored fact has a positive duration: what the recording path guarantees. */
  predicate WellScored(f: Fact) {
    f.kind.TaskPerformanceFact? && f.efficiencyPct.Some? ==> f.actualSeconds > 0
  }

  lemma NestedIffWellScored(f: Fact)
    ensures Nested(DeltaOf(f)) <==> WellScored(f)
  {
  }

  /** Rows built from nested effects nest, so the unscored count is an exact difference. */
  lemma RowsNest(s: Projection, effects: map<nat, Effect>, key: RowKey)
    requires IsReference(s, effects) && key in s.rows
    requires forall id :: id in effects ==> Nested(effects[id].delta)
    ensures Nested(s.rows[key])
  {
    assert RowIsSum(s.rows, effects, key);
    SumKeysNested(Deltas(effects), IdsAt(effects, key));
  }
}
