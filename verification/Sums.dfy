/** The raw counters every read model adds up, and their sums over sequences and sets. */
module Sums {
  import opened Base

  datatype Counters = Counters(
    tasksRecorded: int,
    tasksScored: int,
    efficiencyPctSum: real,
    tasksMeasured: int,
    actualSecondsSum: int,
    standardsDefined: int,
    standardsRevised: int)

  const ZERO := Counters(0, 0, 0.0, 0, 0, 0, 0)

  function Add(a: Counters, b: Counters): Counters {
    Counters(a.tasksRecorded + b.tasksRecorded, a.tasksScored + b.tasksScored,
             a.efficiencyPctSum + b.efficiencyPctSum, a.tasksMeasured + b.tasksMeasured,
             a.actualSecondsSum + b.actualSecondsSum, a.standardsDefined + b.standardsDefined,
             a.standardsRevised + b.standardsRevised)
  }

  lemma AddLaws(a: Counters, b: Counters, c: Counters)
    ensures Add(a, b) == Add(b, a)
    ensures Add(a, Add(b, c)) == Add(Add(a, b), c) == Add(b, Add(a, c))
    ensures Add(Add(a, b), c) == Add(Add(a, c), b)
    ensures Add(a, ZERO) == a == Add(ZERO, a)
  {
  }

  /** `mean`: no number is made out of an empty bucket. */
  function Mean(sum: real, n: int): (m: Option<real>)
    ensures m.Some? <==> n > 0
    ensures m.Some? ==> m.value * n as real == sum
  {
    if n <= 0 then None else Some(sum / n as real)
  }

  /** Counters nest: a scored task was measured, a measured task was recorded, and
      nothing is summed without a task to sum over. */
  predicate Nested(c: Counters) {
    && 0 <= c.tasksScored <= c.tasksMeasured <= c.tasksRecorded
    && (c.tasksScored == 0 ==> c.efficiencyPctSum == 0.0)
    && (c.tasksMeasured == 0 ==> c.actualSecondsSum == 0)
  }

  function Get<K>(m: map<K, Counters>, k: K): Counters {
    if k in m then m[k] else ZERO
  }

  /** Adding a delta to one row, creating it at zero if needed. */
  function Bump<K>(m: map<K, Counters>, k: K, d: Counters): map<K, Counters> {
    m[k := Add(Get(m, k), d)]
  }

  /** The sum of `m` over a finite set of keys, in no particular order. */
  ghost function SumKeys<K>(m: map<K, Counters>, s: set<K>): Counters
    requires s <= m.Keys
    decreases s
  {
    if s == {} then ZERO else var k :| k in s; Add(m[k], SumKeys(m, s - {k}))
  }

  /** The choice SumKeys makes is immaterial: any key may be taken out first. */
  lemma {:induction false} SumKeysPick<K>(m: map<K, Counters>, s: set<K>, k: K)
    requires s <= m.Keys && k in s
    ensures SumKeys(m, s) == Add(m[k], SumKeys(m, s - {k}))
    decreases s
  {
    var first :| first in s && SumKeys(m, s) == Add(m[first], SumKeys(m, s - {first}));
    if first != k {
      SumKeysPick(m, s - {first}, k);
      SumKeysPick(m, s - {k}, first);
      assert s - {first} - {k} == s - {k} - {first};
      AddLaws(m[first], m[k], SumKeys(m, s - {first} - {k}));
    }
  }

  lemma {:induction false} SumKeysUnion<K>(m: map<K, Counters>, s: set<K>, t: set<K>)
    requires s <= m.Keys && t <= m.Keys && s !! t
    ensures SumKeys(m, s + t) == Add(SumKeys(m, s), SumKeys(m, t))
    decreases s
  {
    if s == {} {
      assert s + t == t;
    } else {
      var k :| k in s;
      SumKeysPick(m, s, k);
      SumKeysPick(m, s + t, k);
      assert s + t - {k} == (s - {k}) + t;
      SumKeysUnion(m, s - {k}, t);
    }
  }

  lemma {:induction false} SumKeysAgree<K>(m: map<K, Counters>, n: map<K, Counters>, s: set<K>)
    requires s <= m.Keys && s <= n.Keys
    requires forall k :: k in s ==> m[k] == n[k]
    ensures SumKeys(m, s) == SumKeys(n, s)
    decreases s
  {
    if s != {} {
      var k :| k in s;
      SumKeysPick(m, s, k);
      SumKeysPick(n, s, k);
      SumKeysAgree(m, n, s - {k});
    }
  }

  /** A bump moves the grand total by exactly its delta. */
  lemma BumpMovesTotal<K>(m: map<K, Counters>, k: K, d: Counters)
    ensures SumKeys(Bump(m, k, d), Bump(m, k, d).Keys) == Add(SumKeys(m, m.Keys), d)
  {
    var n := Bump(m, k, d);
    SumKeysPick(n, n.Keys, k);
    assert n.Keys - {k} == m.Keys - {k};
    SumKeysAgree(m, n, m.Keys - {k});
    var rest := SumKeys(m, m.Keys - {k});
    if k in m {
      SumKeysPick(m, m.Keys, k);
      AddLaws(m[k], d, rest);
      AddLaws(Add(m[k], rest), d, ZERO);
    } else {
      assert m.Keys - {k} == m.Keys;
      AddLaws(ZERO, d, rest);
    }
  }

  lemma {:induction false} SumKeysNested<K>(m: map<K, Counters>, s: set<K>)
    requires s <= m.Keys && forall k :: k in s ==> Nested(m[k])
    ensures Nested(SumKeys(m, s))
    decreases s
  {
    if s != {} {
      var k :| k in s;
      SumKeysPick(m, s, k);
      SumKeysNested(m, s - {k});
    }
  }

  /** The same for whole numbers by position. */
  ghost function SumInts(m: map<nat, int>, s: set<nat>): int
    requires s <= m.Keys
    decreases s
  {
    if s == {} then 0 else var k :| k in s; m[k] + SumInts(m, s - {k})
  }

  lemma {:induction false} SumIntsPick(m: map<nat, int>, s: set<nat>, k: nat)
    requires s <= m.Keys && k in s
    ensures SumInts(m, s) == m[k] + SumInts(m, s - {k})
    decreases s
  {
    var first :| first in s && SumInts(m, s) == m[first] + SumInts(m, s - {first});
    if first != k {
      SumIntsPick(m, s - {first}, k);
      SumIntsPick(m, s - {k}, first);
      assert s - {first} - {k} == s - {k} - {first};
    }
  }

  lemma {:induction false} SumIntsAgree(m: map<nat, int>, n: map<nat, int>, s: set<nat>)
    requires s <= m.Keys && s <= n.Keys && forall k :: k in s ==> m[k] == n[k]
    ensures SumInts(m, s) == SumInts(n, s)
    decreases s
  {
    if s != {} {
      var k :| k in s;
      SumIntsPick(m, s, k);
      SumIntsPick(n, s, k);
      SumIntsAgree(m, n, s - {k});
    }
  }

  /** One more position, counted in or left out. */
  lemma SumIntsGrow(m: map<nat, int>, n: map<nat, int>, s: set<nat>, t: set<nat>, k: nat)
    requires s <= m.Keys && t <= n.Keys && k !in s && (t == s + {k} || t == s)
    requires forall j :: j in s ==> j in n && m[j] == n[j]
    ensures SumInts(n, t) == SumInts(m, s) + if k in t then n[k] else 0
    ensures |t| == |s| + if k in t then 1 else 0
  {
    SumIntsAgree(m, n, s);
    if k in t {
      SumIntsPick(n, t, k);
      assert t - {k} == s;
    }
  }

  /** And for reals. */
  ghost function SumReals(m: map<nat, real>, s: set<nat>): real
    requires s <= m.Keys
    decreases s
  {
    if s == {} then 0.0 else var k :| k in s; m[k] + SumReals(m, s - {k})
  }

  lemma {:induction false} SumRealsPick(m: map<nat, real>, s: set<nat>, k: nat)
    requires s <= m.Keys && k in s
    ensures SumReals(m, s) == m[k] + SumReals(m, s - {k})
    decreases s
  {
    var first :| first in s && SumReals(m, s) == m[first] + SumReals(m, s - {first});
    if first != k {
      SumRealsPick(m, s - {first}, k);
      SumRealsPick(m, s - {k}, first);
      assert s - {first} - {k} == s - {k} - {first};
    }
  }

  lemma {:induction false} SumRealsAgree(m: map<nat, real>, n: map<nat, real>, s: set<nat>)
    requires s <= m.Keys && s <= n.Keys && forall k :: k in s ==> m[k] == n[k]
    ensures SumReals(m, s) == SumReals(n, s)
    decreases s
  {
    if s != {} {
      var k :| k in s;
      SumRealsPick(m, s, k);
      SumRealsPick(n, s, k);
      SumRealsAgree(m, n, s - {k});
    }
  }

  /** Contributions listed by position, some positions having none. */
  function Positions(ds: seq<Option<Counters>>): map<nat, Counters> {
    map id: nat | id < |ds| && ds[id].Some? :: ds[id].value
  }

  function SumSome(ds: seq<Option<Counters>>): Counters {
    if ds == [] then ZERO
    else Add(SumSome(Init(ds)), match Last(ds) case Some(d) => d case None => ZERO)
  }

  lemma PositionsGrow(ds: seq<Option<Counters>>, d: Option<Counters>)
    ensures Positions(ds + [d]) == if d.Some? then Positions(ds)[|ds| := d.value] else Positions(ds)
    ensures |ds| !in Positions(ds)
  {
  }

  /** Summing by position and summing over the set of positions agree. */
  lemma {:induction false} SumOfPositions(ds: seq<Option<Counters>>)
    ensures SumKeys(Positions(ds), Positions(ds).Keys) == SumSome(ds)
  {
    if ds == [] {
      assert Positions([]).Keys == {};
    } else {
      var before := Positions(Init(ds));
      SumOfPositions(Init(ds));
      assert ds == Init(ds) + [Last(ds)];
      PositionsGrow(Init(ds), Last(ds));
      match Last(ds) {
        case Some(d) =>
          AddLaws(d, ZERO, ZERO);
          var id: nat := |ds| - 1;
          BumpMovesTotal(before, id, d);
          assert Positions(ds) == Bump(before, id, d);
        case None =>
          AddLaws(SumSome(Init(ds)), ZERO, ZERO);
          assert Positions(ds) == before;
      }
    }
  }
}
