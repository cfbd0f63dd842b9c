/** Labor standards: half-open effective ranges, closed by the next definition of
    the same task type. A timeline is the sequence of definitions that took
    effect, in the order the use case ran. */
module Standards {
  import opened Base

  datatype StandardRow = StandardRow(
    id: nat,
    taskType: string,
    expectedSeconds: int,
    travelComponentSeconds: Option<int>,
    effectiveFrom: Instant,
    effectiveTo: Option<Instant>)

  datatype Error = NonPositiveExpectedSeconds | NegativeTravelComponentSeconds | TravelComponentExceedsExpectedSeconds

  function Validate(expectedSeconds: int, travelComponentSeconds: Option<int>): (e: Option<Error>)
    ensures e.None? <==> expectedSeconds > 0 &&
                         (travelComponentSeconds.Some? ==> 0 <= travelComponentSeconds.value <= expectedSeconds)
    ensures e == Some(NonPositiveExpectedSeconds) <==> expectedSeconds <= 0
    ensures e == Some(NegativeTravelComponentSeconds) <==>
            expectedSeconds > 0 && travelComponentSeconds.Some? && travelComponentSeconds.value < 0
  {
    if expectedSeconds <= 0 then Some(NonPositiveExpectedSeconds)
    else if travelComponentSeconds.None? then None
    else if travelComponentSeconds.value < 0 then Some(NegativeTravelComponentSeconds)
    else if travelComponentSeconds.value > expectedSeconds then Some(TravelComponentExceedsExpectedSeconds)
    else None
  }

  /** On or after EffectiveFrom, and strictly before EffectiveTo if there is one. */
  predicate ActiveAt(row: StandardRow, t: Instant) {
    row.effectiveFrom <= t && (row.effectiveTo.Some? ==> t < row.effectiveTo.value)
  }

  class LaborStandard {
    const id: nat
    const taskType: string
    const expectedSeconds: int
    const travelComponentSeconds: Option<int>
    const effectiveFrom: Instant
    var effectiveTo: Option<Instant>

    constructor Rehydrate(row: StandardRow)
      ensures Row() == row
    {
      id := row.id;
      taskType := row.taskType;
      expectedSeconds := row.expectedSeconds;
      travelComponentSeconds := row.travelComponentSeconds;
      effectiveFrom := row.effectiveFrom;
      effectiveTo := row.effectiveTo;
    }

    function Row(): StandardRow
      reads this
    {
      StandardRow(id, taskType, expectedSeconds, travelComponentSeconds, effectiveFrom, effectiveTo)
    }

    /** Ends the range and touches nothing else of the record. */
    method Close(at: Instant)
      modifies this
      ensures Row() == old(Row()).(effectiveTo := Some(at))
    {
      effectiveTo := Some(at);
    }

    predicate IsActiveAt(t: Instant)
      reads this
      ensures IsActiveAt(t) <==> ActiveAt(Row(), t)
    {
      if t < effectiveFrom then false
      else if effectiveTo.Some? && !(t < effectiveTo.value) then false
      else true
    }
  }

  /** `standard.New`: a fresh, open standard or the first rule it breaks. */
  method NewStandard(id: nat, taskType: string, expectedSeconds: int, travelComponentSeconds: Option<int>, effectiveFrom: Instant)
    returns (r: Result<LaborStandard, Error>)
    ensures match Validate(expectedSeconds, travelComponentSeconds)
            case Some(e) => r == Err(e)
            case None => r.Ok? && fresh(r.value) &&
                         r.value.Row() == StandardRow(id, taskType, expectedSeconds, travelComponentSeconds, effectiveFrom, None)
  {
    var e := Validate(expectedSeconds, travelComponentSeconds);
    if e.Some? {
      return Err(e.value);
    }
    var s := new LaborStandard.Rehydrate(StandardRow(id, taskType, expectedSeconds, travelComponentSeconds, effectiveFrom, None));
    return Ok(s);
  }

  // --- Lookups over the table ----------------------------------------------

  /** Ids of the rows the as-of query matches. */
  function ActiveIds(rows: map<nat, StandardRow>, taskType: string, t: Instant): set<nat> {
    set id | id in rows && rows[id].taskType == taskType && ActiveAt(rows[id], t)
  }

  /** Ids of the rows the `effective_to IS NULL` query matches. */
  function OpenIds(rows: map<nat, StandardRow>, taskType: string): set<nat> {
    set id | id in rows && rows[id].taskType == taskType && rows[id].effectiveTo.None?
  }

  // --- Timelines -----------------------------------------------------------

  datatype Definition = Definition(
    id: nat,
    taskType: string,
    expectedSeconds: int,
    travelComponentSeconds: Option<int>,
    at: Instant)

  /** The reference lookup: the last definition of the type made at or before t. */
  function AsOf(defs: seq<Definition>, taskType: string, t: Instant): Option<Definition> {
    if defs == [] then None
    else if Last(defs).taskType == taskType && Last(defs).at <= t then Some(Last(defs))
    else AsOf(Init(defs), taskType, t)
  }

  /** The last definition of the type, whenever it was made. */
  function Latest(defs: seq<Definition>, taskType: string): Option<Definition> {
    if defs == [] then None
    else if Last(defs).taskType == taskType then Some(Last(defs))
    else Latest(Init(defs), taskType)
  }

  /** When the definition at position i was superseded: the instant of the next
      definition of its type. */
  function SupersededAt(defs: seq<Definition>, i: nat): Option<Instant>
    requires i < |defs|
  {
    if i == |defs| - 1 then None
    else
      var before := SupersededAt(Init(defs), i);
      if before.Some? then before
      else if Last(defs).taskType == defs[i].taskType then Some(Last(defs).at)
      else None
  }

  function RowOf(defs: seq<Definition>, i: nat): StandardRow
    requires i < |defs|
  {
    var d := defs[i];
    StandardRow(d.id, d.taskType, d.expectedSeconds, d.travelComponentSeconds, d.at, SupersededAt(defs, i))
  }

  ghost predicate DistinctIds(defs: seq<Definition>) {
    forall i, j :: 0 <= i < j < |defs| ==> defs[i].id != defs[j].id
  }

  ghost predicate Monotone(defs: seq<Definition>) {
    forall i, j :: 0 <= i < j < |defs| ==> defs[i].at <= defs[j].at
  }

  /** The table holds one row per definition, each open until its type's next definition. */
  ghost predicate IsTimeline(rows: map<nat, StandardRow>, defs: seq<Definition>) {
    && DistinctIds(defs)
    && (forall id :: id in rows <==> exists i :: 0 <= i < |defs| && defs[i].id == id)
    && (forall i :: 0 <= i < |defs| ==> rows[defs[i].id] == RowOf(defs, i))
  }

  ghost predicate WellTimed(defs: seq<Definition>) {
    DistinctIds(defs) && Monotone(defs)
  }

  /** A range ends at the instant of some later definition, hence inside the run's clock. */
  lemma {:induction false} SupersededByLater(defs: seq<Definition>, i: nat)
    requires i < |defs| && SupersededAt(defs, i).Some?
    ensures exists j :: i < j < |defs| && defs[j].taskType == defs[i].taskType && SupersededAt(defs, i) == Some(defs[j].at)
  {
    if SupersededAt(Init(defs), i).Some? { SupersededByLater(Init(defs), i); }
  }

  /** The definition at j is the next one of the type of the definition at i. */
  ghost predicate IsNextOfType(defs: seq<Definition>, i: nat, j: nat) {
    && i < j < |defs| && defs[j].taskType == defs[i].taskType
    && forall k :: i < k < j ==> defs[k].taskType != defs[i].taskType
  }

  /** Namely of the very next one of its type; without one it stays open. */
  lemma {:induction false} SupersededByNext(defs: seq<Definition>, i: nat)
    requires i < |defs|
    ensures SupersededAt(defs, i).Some? ==> exists j: nat :: IsNextOfType(defs, i, j) && SupersededAt(defs, i) == Some(defs[j].at)
    ensures SupersededAt(defs, i).None? ==> forall j :: i < j < |defs| ==> defs[j].taskType != defs[i].taskType
  {
    if i < |defs| - 1 {
      SupersededByNext(Init(defs), i);
      if SupersededAt(Init(defs), i).Some? {
        var j: nat :| IsNextOfType(Init(defs), i, j) && SupersededAt(Init(defs), i) == Some(Init(defs)[j].at);
        assert IsNextOfType(defs, i, j);
      } else {
        assert forall j :: i < j < |defs| - 1 ==> defs[j] == Init(defs)[j];
        if Last(defs).taskType == defs[i].taskType { assert IsNextOfType(defs, i, |defs| - 1); }
      }
    }
  }

  /** The definition at i is the last one of the type by t. */
  ghost predicate IsLastBy(defs: seq<Definition>, i: nat, taskType: string, t: Instant) {
    && i < |defs| && defs[i].taskType == taskType && defs[i].at <= t
    && forall j :: i < j < |defs| && defs[j].taskType == taskType ==> t < defs[j].at
  }

  /** The reference lookup names the last of the type's definitions made by then, in the
      order the use case ran. */
  lemma {:induction false} AsOfIsLastBy(defs: seq<Definition>, taskType: string, t: Instant)
    ensures AsOf(defs, taskType, t).Some? ==> exists i: nat :: IsLastBy(defs, i, taskType, t) && AsOf(defs, taskType, t) == Some(defs[i])
    ensures AsOf(defs, taskType, t).None? ==> forall d :: d in defs && d.taskType == taskType ==> t < d.at
  {
    if defs != [] {
      assert defs == Init(defs) + [Last(defs)];
      AsOfIsLastBy(Init(defs), taskType, t);
      if Last(defs).taskType == taskType && Last(defs).at <= t {
        assert IsLastBy(defs, |defs| - 1, taskType, t);
      } else if AsOf(defs, taskType, t).Some? {
        var i: nat :| IsLastBy(Init(defs), i, taskType, t) && AsOf(Init(defs), taskType, t) == Some(Init(defs)[i]);
        assert forall j :: i < j < |defs| - 1 ==> defs[j] == Init(defs)[j];
        assert IsLastBy(defs, i, taskType, t);
      }
    }
  }

  /** A definition is open exactly when it is the latest of its type. */
  lemma {:induction false} OpenIffLatest(defs: seq<Definition>, i: nat)
    requires i < |defs| && DistinctIds(defs)
    ensures SupersededAt(defs, i).None? <==> Latest(defs, defs[i].taskType) == Some(defs[i])
  {
    if i < |defs| - 1 {
      assert Last(defs).id != defs[i].id;
      OpenIffLatest(Init(defs), i);
    }
  }

  lemma {:induction false} AsOfIsLatestBefore(defs: seq<Definition>, taskType: string, t: Instant)
    ensures var d := AsOf(defs, taskType, t);
            d.Some? ==> d.value in defs && d.value.taskType == taskType && d.value.at <= t
    ensures AsOf(defs, taskType, t).None? <==> forall d :: d in defs && d.taskType == taskType ==> t < d.at
  {
    if defs != [] {
      assert defs == Init(defs) + [Last(defs)];
      AsOfIsLatestBefore(Init(defs), taskType, t);
    }
  }

  /** Under a non-decreasing clock the range that contains t is the range of the
      reference lookup, and no other range of the type contains t. */
  lemma {:induction false} ActiveIffAsOf(defs: seq<Definition>, i: nat, t: Instant)
    requires i < |defs| && WellTimed(defs)
    ensures ActiveAt(RowOf(defs, i), t) <==> AsOf(defs, defs[i].taskType, t) == Some(defs[i])
  {
    var init, last := Init(defs), Last(defs);
    if i < |defs| - 1 {
      assert last.id != defs[i].id;
      ActiveIffAsOf(init, i, t);
      if SupersededAt(init, i).Some? { SupersededByLater(init, i); }
    } else {
      AsOfIsLatestBefore(init, defs[i].taskType, t);
    }
  }

  /** The chain of ranges partitions time from the type's first definition on:
      exactly one row is active at or after it, none before. So any scan of the
      table, in any order, finds the row of the reference lookup. */
  lemma LookupIsDeterministic(rows: map<nat, StandardRow>, defs: seq<Definition>, taskType: string, t: Instant)
    requires IsTimeline(rows, defs) && Monotone(defs)
    ensures ActiveIds(rows, taskType, t) ==
            match AsOf(defs, taskType, t) case Some(d) => {d.id} case None => {}
    ensures AsOf(defs, taskType, t).Some? <==> exists d :: d in defs && d.taskType == taskType && d.at <= t
  {
    AsOfIsLatestBefore(defs, taskType, t);
    forall i | 0 <= i < |defs|
      ensures defs[i].id in ActiveIds(rows, taskType, t) <==> AsOf(defs, taskType, t) == Some(defs[i])
    {
      ActiveIffAsOf(defs, i, t);
      if AsOf(defs, taskType, t) == Some(defs[i]) { assert defs[i].taskType == taskType; }
    }
    if AsOf(defs, taskType, t).Some? {
      var k :| 0 <= k < |defs| && defs[k] == AsOf(defs, taskType, t).value;
      assert defs[k].id in ActiveIds(rows, taskType, t);
    }
  }

  /** Exactly one open row per defined type: the latest definition's. */
  lemma {:induction false} LatestIsDefined(defs: seq<Definition>, taskType: string)
    ensures var d := Latest(defs, taskType); d.Some? ==> d.value in defs && d.value.taskType == taskType
    ensures Latest(defs, taskType).None? <==> forall d :: d in defs ==> d.taskType != taskType
  {
    if defs != [] {
      assert defs == Init(defs) + [Last(defs)];
      LatestIsDefined(Init(defs), taskType);
    }
  }

  lemma OneOpenRow(rows: map<nat, StandardRow>, defs: seq<Definition>, taskType: string)
    requires IsTimeline(rows, defs)
    ensures OpenIds(rows, taskType) == match Latest(defs, taskType) case Some(d) => {d.id} case None => {}
  {
    LatestIsDefined(defs, taskType);
    forall i | 0 <= i < |defs|
      ensures defs[i].id in OpenIds(rows, taskType) <==> Latest(defs, taskType) == Some(defs[i])
    {
      OpenIffLatest(defs, i);
      if Latest(defs, taskType) == Some(defs[i]) { assert defs[i].taskType == taskType; }
    }
    if Latest(defs, taskType).Some? {
      var k :| 0 <= k < |defs| && defs[k] == Latest(defs, taskType).value;
      assert defs[k].id in OpenIds(rows, taskType);
    }
  }

  /** The in-memory FindCurrentlyActive asks as of the wall clock instead of for
      the open row. It gives the SQL answer exactly when the wall clock has reached
      the latest definition. */
  lemma {:induction false} AsOfNowIsLatestIff(defs: seq<Definition>, taskType: string, wallClock: Instant)
    requires WellTimed(defs)
    ensures AsOf(defs, taskType, wallClock) == Latest(defs, taskType) <==>
            (Latest(defs, taskType).Some? ==> Latest(defs, taskType).value.at <= wallClock)
  {
    AsOfIsLatestBefore(defs, taskType, wallClock);
    LatestIsDefined(defs, taskType);
    if defs != [] && Last(defs).taskType != taskType {
      AsOfNowIsLatestIff(Init(defs), taskType, wallClock);
    }
  }

  /** A new definition changes the lookup as of t exactly when it is of that type
      and was made at or before t. */
  lemma DefinitionMovesLookupIff(defs: seq<Definition>, d: Definition, taskType: string, t: Instant)
    requires forall e :: e in defs ==> e.id != d.id
    ensures AsOf(defs + [d], taskType, t) != AsOf(defs, taskType, t) <==> d.taskType == taskType && d.at <= t
  {
    AppendParts(defs, d);
    AsOfIsLatestBefore(defs, taskType, t);
  }

  /** At every instant at most one row of the type is active, so a lookup without an
      order cannot choose. */
  ghost predicate Unambiguous(defs: seq<Definition>, taskType: string) {
    forall t, i, j ::
      (0 <= i < |defs| && 0 <= j < |defs| && defs[i].taskType == taskType == defs[j].taskType
       && ActiveAt(RowOf(defs, i), t) && ActiveAt(RowOf(defs, j), t)) ==> i == j
  }

  lemma RowAfter(defs: seq<Definition>, d: Definition, i: nat)
    requires i < |defs| && DistinctIds(defs)
    ensures RowOf(defs + [d], |defs|) == StandardRow(d.id, d.taskType, d.expectedSeconds, d.travelComponentSeconds, d.at, None)
    ensures defs[i].taskType == d.taskType && Latest(defs, d.taskType) == Some(defs[i]) ==>
              RowOf(defs + [d], i) == RowOf(defs, i).(effectiveTo := Some(d.at))
    ensures Latest(defs, d.taskType) != Some(defs[i]) ==> RowOf(defs + [d], i) == RowOf(defs, i)
  {
    AppendParts(defs, d);
    OpenIffLatest(defs, i);
  }

  /** A range that is not the latest ends by the time the latest begins. */
  lemma EndsByLatest(defs: seq<Definition>, i: nat)
    requires i < |defs| && WellTimed(defs) && Latest(defs, defs[i].taskType) != Some(defs[i])
    ensures SupersededAt(defs, i).Some? && Latest(defs, defs[i].taskType).Some?
    ensures SupersededAt(defs, i).value <= Latest(defs, defs[i].taskType).value.at
  {
    OpenIffLatest(defs, i);
    SupersededByLater(defs, i);
    var j :| i < j < |defs| && defs[j].taskType == defs[i].taskType && SupersededAt(defs, i) == Some(defs[j].at);
    NotAfterLatest(defs, j);
  }

  lemma {:induction false} NotAfterLatest(defs: seq<Definition>, j: nat)
    requires j < |defs| && WellTimed(defs)
    ensures Latest(defs, defs[j].taskType).Some? && defs[j].at <= Latest(defs, defs[j].taskType).value.at
  {
    if Last(defs).taskType != defs[j].taskType { NotAfterLatest(Init(defs), j); }
  }

  /** The clock steps back behind the open standard of a type that was revised before. */
  ghost predicate BehindRevision(defs: seq<Definition>, d: Definition) {
    && Latest(defs, d.taskType).Some?
    && d.at < Latest(defs, d.taskType).value.at
    && exists e :: e in defs && e.taskType == d.taskType && e.at < Latest(defs, d.taskType).value.at
  }

  lemma BehindRevisionIsAmbiguous(defs: seq<Definition>, d: Definition)
    requires WellTimed(defs) && (forall e :: e in defs ==> e.id != d.id) && BehindRevision(defs, d)
    ensures !Unambiguous(defs + [d], d.taskType)
  {
    var latest := Latest(defs, d.taskType).value;
    var e :| e in defs && e.taskType == d.taskType && e.at < latest.at;
    var t := Max(e.at, d.at);
    AsOfIsLatestBefore(defs, d.taskType, t);
    var i :| 0 <= i < |defs| && defs[i] == AsOf(defs, d.taskType, t).value;
    ActiveIffAsOf(defs, i, t);
    RowAfter(defs, d, i);
    assert ActiveAt(RowOf(defs + [d], i), t) && ActiveAt(RowOf(defs + [d], |defs|), t);
    assert (defs + [d])[i] == defs[i];
  }

  lemma OldRowsStayUnambiguous(defs: seq<Definition>, d: Definition, i: nat, j: nat, t: Instant)
    requires WellTimed(defs) && i < |defs| && j < |defs| && defs[i].taskType == d.taskType == defs[j].taskType
    requires ActiveAt(RowOf(defs + [d], i), t) && ActiveAt(RowOf(defs + [d], j), t)
    ensures i == j
  {
    RowAfter(defs, d, i);
    RowAfter(defs, d, j);
    ActiveIffAsOf(defs, i, t);
    ActiveIffAsOf(defs, j, t);
  }

  lemma NewRowIsAlone(defs: seq<Definition>, d: Definition, i: nat, t: Instant)
    requires WellTimed(defs) && i < |defs| && defs[i].taskType == d.taskType && !BehindRevision(defs, d)
    requires d.at <= t
    ensures !ActiveAt(RowOf(defs + [d], i), t)
  {
    RowAfter(defs, d, i);
    NotAfterLatest(defs, i);
    if Latest(defs, d.taskType) != Some(defs[i]) { EndsByLatest(defs, i); }
    assert defs[i] in defs;
  }

  /** The as-of query has no order of its own. A definition keeps its answer unique at
      every instant exactly unless the clock stepped back behind the open standard of a
      type that had been revised before. */
  lemma {:induction false} LookupStaysUniqueIff(defs: seq<Definition>, d: Definition)
    requires WellTimed(defs) && forall e :: e in defs ==> e.id != d.id
    ensures Unambiguous(defs + [d], d.taskType) <==> !BehindRevision(defs, d)
  {
    if BehindRevision(defs, d) {
      BehindRevisionIsAmbiguous(defs, d);
    } else {
      var next := defs + [d];
      forall t, i, j |
        0 <= i < |next| && 0 <= j < |next| && next[i].taskType == d.taskType == next[j].taskType
        && ActiveAt(RowOf(next, i), t) && ActiveAt(RowOf(next, j), t)
        ensures i == j
      {
        if i < |defs| && j < |defs| {
          OldRowsStayUnambiguous(defs, d, i, j, t);
        } else if i < |defs| {
          RowAfter(defs, d, i);
          NewRowIsAlone(defs, d, i, t);
        } else if j < |defs| {
          RowAfter(defs, d, j);
          NewRowIsAlone(defs, d, j, t);
        }
      }
    }
  }

  /** Closing the open row at the new definition's instant and adding the new
      row extends the timeline by that definition. */
  function Supersede(rows: map<nat, StandardRow>, d: Definition): map<nat, StandardRow> {
    (map id | id in rows ::
       if rows[id].taskType == d.taskType && rows[id].effectiveTo.None? then rows[id].(effectiveTo := Some(d.at)) else rows[id])
    [d.id := StandardRow(d.id, d.taskType, d.expectedSeconds, d.travelComponentSeconds, d.at, None)]
  }

  lemma SupersedeExtends(rows: map<nat, StandardRow>, defs: seq<Definition>, d: Definition)
    requires IsTimeline(rows, defs) && d.id !in rows
    ensures IsTimeline(Supersede(rows, d), defs + [d])
  {
    AppendParts(defs, d);
    var next := Supersede(rows, d);
    forall i | 0 <= i < |defs + [d]| ensures next[(defs + [d])[i].id] == RowOf(defs + [d], i) {
      if i < |defs| {
        assert defs[i].id in rows && rows[defs[i].id] == RowOf(defs, i);
      }
    }
    forall id | id in next ensures exists i :: 0 <= i < |defs + [d]| && (defs + [d])[i].id == id {
      if id == d.id {
        assert (defs + [d])[|defs|].id == id;
      } else {
        var i :| 0 <= i < |defs| && defs[i].id == id;
        assert (defs + [d])[i].id == id;
      }
    }
    forall i | 0 <= i < |defs| ensures defs[i].id != d.id { assert defs[i].id in rows; }
  }

  // --- The in-memory repository ---------------------------------------------

  class MemoryStandardRepo {
    var standards: map<nat, LaborStandard>
    var nextID: nat

    ghost predicate Valid()
      reads this
    {
      forall id :: id in standards ==> standards[id].id == id
    }

    ghost function Rows(): map<nat, StandardRow>
      reads this, standards.Values
    {
      map id | id in standards :: standards[id].Row()
    }

    constructor ()
      ensures Valid() && standards == map[] && nextID == 0
    {
      standards, nextID := map[], 0;
    }

    method NextID() returns (id: nat)
      modifies this`nextID
      ensures id == nextID == old(nextID) + 1
    {
      nextID := nextID + 1;
      id := nextID;
    }

    method Save(s: LaborStandard)
      requires Valid()
      modifies this`standards
      ensures Valid() && Rows() == old(Rows())[s.id := s.Row()]
    {
      standards := standards[s.id := s];
    }

    /** Visits the map in an arbitrary order and returns the first match. */
    method FindActiveAsOf(taskType: string, t: Instant) returns (r: LaborStandard?)
      requires Valid()
      ensures r == null ==> ActiveIds(Rows(), taskType, t) == {}
      ensures r != null ==> r.id in ActiveIds(Rows(), taskType, t) && standards[r.id] == r
    {
      var left := standards.Keys;
      while left != {}
        invariant left <= standards.Keys
        invariant forall id :: id in standards.Keys - left ==> id !in ActiveIds(Rows(), taskType, t)
        decreases left
      {
        var id :| id in left;
        var s := standards[id];
        if s.taskType == taskType && s.IsActiveAt(t) {
          return s;
        }
        left := left - {id};
      }
      return null;
    }

    method FindCurrentlyActive(taskType: string, wallClock: Instant) returns (r: LaborStandard?)
      requires Valid()
      ensures r == null ==> ActiveIds(Rows(), taskType, wallClock) == {}
      ensures r != null ==> r.id in ActiveIds(Rows(), taskType, wallClock) && standards[r.id] == r
    {
      r := FindActiveAsOf(taskType, wallClock);
    }
  }

  /** Whatever order the map is visited in, the in-memory lookup returns the row
      the SQL query returns and the reference lookup names. */
  method MemoryLookupAgrees(repo: MemoryStandardRepo, ghost defs: seq<Definition>, taskType: string, t: Instant)
    returns (r: LaborStandard?)
    requires repo.Valid() && IsTimeline(repo.Rows(), defs) && Monotone(defs)
    ensures match AsOf(defs, taskType, t)
            case None => r == null
            case Some(d) => r != null && r.id == d.id && r.expectedSeconds == d.expectedSeconds
  {
    r := repo.FindActiveAsOf(taskType, t);
    LookupIsDeterministic(repo.Rows(), defs, taskType, t);
    if r != null {
      ghost var i :| 0 <= i < |defs| && defs[i].id == r.id;
      assert repo.Rows()[r.id] == RowOf(defs, i);
      AsOfIsLatestBefore(defs, taskType, t);
      ghost var k :| 0 <= k < |defs| && defs[k] == AsOf(defs, taskType, t).value;
      assert k == i;
    }
  }
}
