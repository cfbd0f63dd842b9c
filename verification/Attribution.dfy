/** Which row of the read model counts what: every claimed completion in the hour it was
    completed in and under its own task type, every definition in the hour it took effect. */
module Attribution {
  import opened Base
  import opened Performance
  import opened History
  import opened Sums
  import opened Oltp
  import opened Consistency
  import opened Projections
  import opened Pipeline
  import opened Accounting
  import opened Announcements
  import Relay
  import Reports

  /** The whole hour at `hour` contains t. */
  predicate InHour(t: Instant, hour: Instant) {
    hour % 3_600_000_000_000 == 0 && hour <= t < hour + 3_600_000_000_000
  }

  /** A business time, or the event's own time where there is none. */
  function TimeOr(t: Instant, occurredAt: Instant): Instant {
    if t == 0 then occurredAt else t
  }

  // --- Where one event falls -------------------------------------------------------------

  /** A standard takes effect in the hour and has the type. */
  predicate StandardFalls(e: DomainEvent, key: RowKey) {
    && !e.TaskPerformanceRecorded?
    && NormalizeTaskType(e.taskType) == key.taskType
    && InHour(TimeOr(e.effectiveFrom, e.occurredAt), key.hourBucket)
  }

  /** The k-th recorded row was completed in the hour and has the type. */
  predicate RowFalls(t: Tables, k: nat, key: RowKey) {
    && k < |t.performances| && k < |RecordedOn(t.outbox, Analytics)|
    && NormalizeTaskType(t.performances[k].taskType) == key.taskType
    && InHour(TimeOr(t.performances[k].completedAt, RecordedOn(t.outbox, Analytics)[k].occurredAt), key.hourBucket)
  }

  lemma OneHour(t: Instant, hour: Instant)
    ensures InHour(t, hour) <==> hour == HourBucket(t)
  {
    if InHour(t, hour) { assert hour / 3_600_000_000_000 == t / 3_600_000_000_000; }
  }

  lemma StandardKey(e: DomainEvent, key: RowKey)
    requires !e.TaskPerformanceRecorded?
    ensures StandardFalls(e, key) <==> KeyOf(FactIn(e)) == key
  {
    OneHour(TimeOr(e.effectiveFrom, e.occurredAt), key.hourBucket);
  }

  lemma TaskKey(t: Tables, capSeconds: int, id: nat, key: RowKey)
    requires Consistent(t, capSeconds) && id in TaskIds(t.outbox)
    ensures RowFalls(t, RowAt(t.outbox, id), key) <==> KeyOf(FactIn(t.outbox[id].event)) == key
  {
    PositionsAnnounceRows(t, capSeconds);
    AnnouncedAt(t.outbox, id);
    var e := t.outbox[id].event;
    OneHour(TimeOr(e.completedAt, e.occurredAt), key.hourBucket);
  }

  // --- Sums over claimed positions ----------------------------------------------------------

  /** The tally of the row announced at each position. */
  function RowTallies(t: Tables): map<nat, Counters> {
    map id | id in TaskIds(t.outbox) && RowAt(t.outbox, id) < |t.performances| :: TallyOf(t.performances[RowAt(t.outbox, id)])
  }

  lemma EveryTaskHasTally(t: Tables, capSeconds: int)
    requires Consistent(t, capSeconds)
    ensures RowTallies(t).Keys == TaskIds(t.outbox)
    ensures forall id :: id in TaskIds(t.outbox) ==> DeltaOf(FactIn(t.outbox[id].event)) == RowTallies(t)[id]
  {
    PositionsAnnounceRows(t, capSeconds);
  }

  function FirstIds(outbox: seq<OutboxRow>): set<nat> {
    set id: nat | id < |outbox| && outbox[id].topic.Analytics? && outbox[id].event.LaborStandardDefined?
  }

  function RevisionIds(outbox: seq<OutboxRow>): set<nat> {
    set id: nat | id < |outbox| && outbox[id].topic.Analytics? && outbox[id].event.LaborStandardRevised?
  }

  /** One delta counts one task, one first definition, one revision, or nothing. */
  predicate OneOfASort(d: Counters, id: nat, tallies: map<nat, Counters>, firsts: set<nat>, revisions: set<nat>) {
    && TasksOnly(d) == Get(tallies, id)
    && d.tasksRecorded == (if id in tallies then 1 else 0)
    && d.standardsDefined == (if id in firsts then 1 else 0)
    && d.standardsRevised == (if id in revisions then 1 else 0)
  }

  lemma OneTally(tallies: map<nat, Counters>, sub: set<nat>, id: nat)
    requires id in sub
    ensures SumKeys(tallies, tallies.Keys * sub) == Add(Get(tallies, id), SumKeys(tallies, tallies.Keys * (sub - {id})))
  {
    if id in tallies {
      SumKeysPick(tallies, tallies.Keys * sub, id);
      assert tallies.Keys * sub - {id} == tallies.Keys * (sub - {id});
    } else {
      assert tallies.Keys * sub == tallies.Keys * (sub - {id});
      AddLaws(SumKeys(tallies, tallies.Keys * sub), ZERO, ZERO);
    }
  }

  lemma {:induction false} TalliesAddUp(deltas: map<nat, Counters>, tallies: map<nat, Counters>, sub: set<nat>)
    requires sub <= deltas.Keys && forall id :: id in sub ==> TasksOnly(deltas[id]) == Get(tallies, id)
    ensures TasksOnly(SumKeys(deltas, sub)) == SumKeys(tallies, tallies.Keys * sub)
    decreases sub
  {
    if sub == {} {
      assert tallies.Keys * sub == {};
    } else {
      var id :| id in sub;
      TalliesAddUp(deltas, tallies, sub - {id});
      SumKeysPick(deltas, sub, id);
      OneTally(tallies, sub, id);
    }
  }

  /** A counter that is one at the marked positions and nothing elsewhere counts them. */
  lemma {:induction false} MarkedAddUp(deltas: map<nat, Counters>, counter: Counters -> int, marked: set<nat>, sub: set<nat>)
    requires counter(ZERO) == 0 && forall a, b :: counter(Add(a, b)) == counter(a) + counter(b)
    requires sub <= deltas.Keys && forall id :: id in sub ==> counter(deltas[id]) == if id in marked then 1 else 0
    ensures counter(SumKeys(deltas, sub)) == |marked * sub|
    decreases sub
  {
    if sub == {} {
      assert marked * sub == {};
    } else {
      var id :| id in sub;
      MarkedAddUp(deltas, counter, marked, sub - {id});
      SumKeysPick(deltas, sub, id);
      CountWithout(marked, sub, id);
    }
  }

  lemma SumsBySort(deltas: map<nat, Counters>, tallies: map<nat, Counters>, firsts: set<nat>, revisions: set<nat>, sub: set<nat>)
    requires sub <= deltas.Keys && forall id :: id in sub ==> OneOfASort(deltas[id], id, tallies, firsts, revisions)
    ensures var sum := SumKeys(deltas, sub);
            && TasksOnly(sum) == SumKeys(tallies, tallies.Keys * sub)
            && sum.tasksRecorded == |tallies.Keys * sub|
            && sum.standardsDefined == |firsts * sub|
            && sum.standardsRevised == |revisions * sub|
  {
    TalliesAddUp(deltas, tallies, sub);
    MarkedAddUp(deltas, (c: Counters) => c.tasksRecorded, tallies.Keys, sub);
    MarkedAddUp(deltas, (c: Counters) => c.standardsDefined, firsts, sub);
    MarkedAddUp(deltas, (c: Counters) => c.standardsRevised, revisions, sub);
  }

  lemma DeltaIsOfASort(t: Tables, capSeconds: int, id: nat)
    requires Consistent(t, capSeconds) && id in AnalyticsIds(t.outbox)
    ensures OneOfASort(DeltaOf(FactIn(t.outbox[id].event)), id, RowTallies(t), FirstIds(t.outbox), RevisionIds(t.outbox))
  {
    EveryTaskHasTally(t, capSeconds);
  }

  /** The deltas behind some positions add up to the tallies of the rows among them and
      the numbers of first definitions and revisions. */
  lemma DeltasAreTallies(t: Tables, capSeconds: int, ids: set<nat>, sub: set<nat>)
    requires Consistent(t, capSeconds) && sub <= ids <= AnalyticsIds(t.outbox)
    ensures EffectsOf(ids, t.outbox).Keys == ids && RowTallies(t).Keys == TaskIds(t.outbox)
    ensures var sum := SumKeys(Deltas(EffectsOf(ids, t.outbox)), sub);
            && TasksOnly(sum) == SumKeys(RowTallies(t), TaskIds(t.outbox) * sub)
            && sum.tasksRecorded == |TaskIds(t.outbox) * sub|
            && sum.standardsDefined == |FirstIds(t.outbox) * sub|
            && sum.standardsRevised == |RevisionIds(t.outbox) * sub|
  {
    EveryTaskHasTally(t, capSeconds);
    assert EffectsOf(ids, t.outbox).Keys == ids;
    var deltas := Deltas(EffectsOf(ids, t.outbox));
    forall id | id in sub ensures OneOfASort(deltas[id], id, RowTallies(t), FirstIds(t.outbox), RevisionIds(t.outbox)) {
      DeltaIsOfASort(t, capSeconds, id);
    }
    SumsBySort(deltas, RowTallies(t), FirstIds(t.outbox), RevisionIds(t.outbox), sub);
  }

  // --- Every row, in every reachable state ----------------------------------------------------

  /** The claimed completions that fall into the row. */
  function CountedIn(s: State, key: RowKey): set<nat> {
    set id | id in Claimed(s) && RowFalls(s.db, RowAt(s.db.outbox, id), key)
  }

  function DefinedIn(s: State, key: RowKey): set<nat> {
    set id | id in FirstIds(s.db.outbox) && id in s.projection.seen && StandardFalls(s.db.outbox[id].event, key)
  }

  function RevisedIn(s: State, key: RowKey): set<nat> {
    set id | id in RevisionIds(s.db.outbox) && id in s.projection.seen && StandardFalls(s.db.outbox[id].event, key)
  }

  lemma IdsBySort(s: State, c: Config, key: RowKey)
    requires Inv(s, c)
    ensures var ids := IdsAt(EffectsOf(s.projection.seen, s.db.outbox), key);
            && TaskIds(s.db.outbox) * ids == CountedIn(s, key)
            && FirstIds(s.db.outbox) * ids == DefinedIn(s, key)
            && RevisionIds(s.db.outbox) * ids == RevisedIn(s, key)
            && ids <= TaskIds(s.db.outbox) + FirstIds(s.db.outbox) + RevisionIds(s.db.outbox)
  {
    forall id | id in s.projection.seen
      ensures id in TaskIds(s.db.outbox) ==> (RowFalls(s.db, RowAt(s.db.outbox, id), key) <==> KeyOf(FactIn(s.db.outbox[id].event)) == key)
      ensures id !in TaskIds(s.db.outbox) ==> (StandardFalls(s.db.outbox[id].event, key) <==> KeyOf(FactIn(s.db.outbox[id].event)) == key)
    {
      if id in TaskIds(s.db.outbox) {
        TaskKey(s.db, c.capSeconds, id, key);
      } else {
        StandardKey(s.db.outbox[id].event, key);
      }
    }
  }

  /** The row is there exactly if something falls into it, and counts exactly that. */
  ghost predicate RowTells(s: State, key: RowKey) {
    var row := Get(s.projection.rows, key);
    && (key in s.projection.rows <==> CountedIn(s, key) + DefinedIn(s, key) + RevisedIn(s, key) != {})
    && row.tasksRecorded == |CountedIn(s, key)|
    && row.standardsDefined == |DefinedIn(s, key)|
    && row.standardsRevised == |RevisedIn(s, key)|
    && CountedIn(s, key) <= RowTallies(s.db).Keys
    && TasksOnly(row) == SumKeys(RowTallies(s.db), CountedIn(s, key))
  }

  lemma {:induction false} InvRowTells(s: State, c: Config, key: RowKey)
    requires Inv(s, c)
    ensures RowTells(s, key)
  {
    var effects := EffectsOf(s.projection.seen, s.db.outbox);
    assert RowIsSum(s.projection.rows, effects, key);
    IdsBySort(s, c, key);
    DeltasAreTallies(s.db, c.capSeconds, s.projection.seen, IdsAt(effects, key));
  }

  /** In every reachable state every row of the read model counts exactly the claimed
      completions of its type that were completed in its hour, and the definitions of its
      type that took effect in it; its sums are those of these completions. */
  lemma {:induction false} EveryRowTellsItsHour(actions: seq<Action>, c: Config, key: RowKey)
    ensures RowTells(Run(actions, c), key)
  {
    EveryRunKeepsInv(actions, c);
    InvRowTells(Run(actions, c), c, key);
  }

  // --- Caught up: the row is the tally of the table's rows --------------------------------------

  /** The rows among the first n that fall into the row of the read model. */
  function RowsIn(t: Tables, n: nat, key: RowKey): seq<TaskPerformance>
    requires n <= |t.performances|
  {
    if n == 0 then []
    else
      var before := RowsIn(t, n - 1, key);
      if RowFalls(t, n - 1, key) then before + [t.performances[n - 1]] else before
  }

  function IdsBelow(t: Tables, n: nat, key: RowKey): set<nat> {
    set id | id in TaskIds(t.outbox) && RowAt(t.outbox, id) < n && RowFalls(t, RowAt(t.outbox, id), key)
  }

  lemma OneMoreRow(t: Tables, capSeconds: int, n: nat, key: RowKey) returns (id: nat)
    requires Consistent(t, capSeconds) && n < |t.performances|
    ensures id in TaskIds(t.outbox) && RowAt(t.outbox, id) == n && id !in IdsBelow(t, n, key)
    ensures IdsBelow(t, n + 1, key) == if RowFalls(t, n, key) then IdsBelow(t, n, key) + {id} else IdsBelow(t, n, key)
  {
    PositionsAnnounceRows(t, capSeconds);
    assert HasPosition(t.outbox, n);
    id :| id in TaskIds(t.outbox) && RowAt(t.outbox, id) == n;
  }

  lemma {:induction false} TalliesAreOfRows(t: Tables, capSeconds: int, n: nat, key: RowKey)
    requires Consistent(t, capSeconds) && n <= |t.performances| && RowTallies(t).Keys == TaskIds(t.outbox)
    ensures SumKeys(RowTallies(t), IdsBelow(t, n, key)) == Tally(RowsIn(t, n, key))
  {
    if n == 0 {
      NothingBelow(t, key);
    } else {
      TalliesAreOfRows(t, capSeconds, n - 1, key);
      TallyStep(t, capSeconds, n - 1, key);
    }
  }

  lemma NothingBelow(t: Tables, key: RowKey)
    ensures IdsBelow(t, 0, key) == {}
  {
  }

  lemma TallyStep(t: Tables, capSeconds: int, n: nat, key: RowKey)
    requires Consistent(t, capSeconds) && n < |t.performances| && RowTallies(t).Keys == TaskIds(t.outbox)
    requires SumKeys(RowTallies(t), IdsBelow(t, n, key)) == Tally(RowsIn(t, n, key))
    ensures SumKeys(RowTallies(t), IdsBelow(t, n + 1, key)) == Tally(RowsIn(t, n + 1, key))
  {
    var id := OneMoreRow(t, capSeconds, n, key);
    if RowFalls(t, n, key) {
      OneMoreTally(t, IdsBelow(t, n, key), id);
      TallyAppend(RowsIn(t, n, key), t.performances[n]);
      assert RowTallies(t)[id] == TallyOf(t.performances[n]);
    }
  }

  lemma OneMoreTally(t: Tables, ids: set<nat>, id: nat)
    requires id !in ids && ids + {id} <= RowTallies(t).Keys
    ensures SumKeys(RowTallies(t), ids + {id}) == Add(SumKeys(RowTallies(t), ids), RowTallies(t)[id])
  {
    SumKeysPick(RowTallies(t), ids + {id}, id);
    assert ids + {id} - {id} == ids;
    AddLaws(RowTallies(t)[id], SumKeys(RowTallies(t), ids), ZERO);
  }

  lemma AllCountedAreBelow(s: State, c: Config, key: RowKey)
    requires Inv(s, c) && TaskIds(s.db.outbox) <= s.projection.seen
    ensures CountedIn(s, key) == IdsBelow(s.db, |s.db.performances|, key)
  {
    PositionsAnnounceRows(s.db, c.capSeconds);
  }

  lemma InvCaughtUpRow(s: State, c: Config, key: RowKey)
    requires Inv(s, c) && TaskIds(s.db.outbox) <= s.projection.seen
    ensures TasksOnly(Get(s.projection.rows, key)) == Tally(RowsIn(s.db, |s.db.performances|, key))
  {
    AllCountedAreBelow(s, c, key);
    EveryTaskHasTally(s.db, c.capSeconds);
    TalliesAreOfRows(s.db, c.capSeconds, |s.db.performances|, key);
    InvRowTells(s, c, key);
  }

  /** When every completion is claimed, each row's task counters are the tally of exactly
      the table's rows of its type and hour. */
  lemma {:induction false} CaughtUpRowIsTally(actions: seq<Action>, c: Config, key: RowKey)
    requires var s := Run(actions, c); TaskIds(s.db.outbox) <= s.projection.seen
    ensures var s := Run(actions, c);
            TasksOnly(Get(s.projection.rows, key)) == Tally(RowsIn(s.db, |s.db.performances|, key))
  {
    EveryRunKeepsInv(actions, c);
    InvCaughtUpRow(Run(actions, c), c, key);
  }

  // --- Reports and freshness ---------------------------------------------------------------------

  /** The row falls into an hour that starts in the window, and has the type if one is asked for. */
  ghost predicate InWindow(t: Tables, k: nat, from: Instant, to: Instant, taskType: string) {
    exists key :: RowFalls(t, k, key) && from <= key.hourBucket < to && (taskType == "" || key.taskType == taskType)
  }

  ghost function CountedAmong(s: State, keys: set<RowKey>): set<nat> {
    set id | id in Claimed(s) && exists key :: key in keys && RowFalls(s.db, RowAt(s.db.outbox, id), key)
  }

  lemma OneRowOnly(t: Tables, k: nat, key: RowKey, other: RowKey)
    requires RowFalls(t, k, key) && RowFalls(t, k, other)
    ensures key == other
  {
    var at := TimeOr(t.performances[k].completedAt, RecordedOn(t.outbox, Analytics)[k].occurredAt);
    OneHour(at, key.hourBucket);
    OneHour(at, other.hourBucket);
  }

  lemma AmongSplits(s: State, keys: set<RowKey>, key: RowKey)
    requires key in keys
    ensures CountedAmong(s, keys) == CountedIn(s, key) + CountedAmong(s, keys - {key})
    ensures CountedIn(s, key) !! CountedAmong(s, keys - {key})
  {
    forall id | id in CountedIn(s, key) && id in CountedAmong(s, keys - {key}) ensures false {
      var other :| other in keys - {key} && RowFalls(s.db, RowAt(s.db.outbox, id), other);
      OneRowOnly(s.db, RowAt(s.db.outbox, id), key, other);
    }
    forall id | id in CountedAmong(s, keys) ensures id in CountedIn(s, key) || id in CountedAmong(s, keys - {key}) {
      var other :| other in keys && RowFalls(s.db, RowAt(s.db.outbox, id), other);
      if other != key { assert other in keys - {key}; }
    }
  }

  lemma {:induction false} RowsCountAmong(s: State, c: Config, keys: set<RowKey>)
    requires Inv(s, c) && keys <= s.projection.rows.Keys
    ensures SumKeys(s.projection.rows, keys).tasksRecorded == |CountedAmong(s, keys)|
    decreases keys
  {
    if keys == {} {
      assert CountedAmong(s, keys) == {};
    } else {
      var key :| key in keys;
      RowsCountAmong(s, c, keys - {key});
      SumKeysPick(s.projection.rows, keys, key);
      InvRowTells(s, c, key);
      AmongSplits(s, keys, key);
    }
  }

  /** A claimed completion's row is in the read model. */
  lemma ClaimedHasRow(s: State, c: Config, id: nat, key: RowKey)
    requires Inv(s, c) && id in Claimed(s) && RowFalls(s.db, RowAt(s.db.outbox, id), key)
    ensures key in s.projection.rows
  {
    InvRowTells(s, c, key);
    assert id in CountedIn(s, key);
  }

  lemma SelectedIffInWindow(s: State, c: Config, id: nat, from: Instant, to: Instant, taskType: string)
    requires Inv(s, c) && id in Claimed(s)
    ensures id in CountedAmong(s, Reports.SelectedKeys(s.projection.rows, from, to, taskType)) <==>
            InWindow(s.db, RowAt(s.db.outbox, id), from, to, taskType)
  {
    var keys := Reports.SelectedKeys(s.projection.rows, from, to, taskType);
    if InWindow(s.db, RowAt(s.db.outbox, id), from, to, taskType) {
      var key :| RowFalls(s.db, RowAt(s.db.outbox, id), key) && from <= key.hourBucket < to && (taskType == "" || key.taskType == taskType);
      ClaimedHasRow(s, c, id, key);
      assert key in keys;
    }
  }

  /** The claimed completions of the window. */
  ghost function ClaimedInWindow(s: State, from: Instant, to: Instant, taskType: string): set<nat> {
    set id | id in Claimed(s) && InWindow(s.db, RowAt(s.db.outbox, id), from, to, taskType)
  }

  lemma AmongIsWindow(s: State, c: Config, from: Instant, to: Instant, taskType: string)
    requires Inv(s, c)
    ensures CountedAmong(s, Reports.SelectedKeys(s.projection.rows, from, to, taskType)) == ClaimedInWindow(s, from, to, taskType)
  {
    var keys := Reports.SelectedKeys(s.projection.rows, from, to, taskType);
    forall id ensures id in CountedAmong(s, keys) <==> id in ClaimedInWindow(s, from, to, taskType) {
      if id in Claimed(s) { SelectedIffInWindow(s, c, id, from, to, taskType); }
    }
  }

  /** In every reachable state a report over a window counts exactly the claimed
      completions whose hour starts in it and whose type was asked for. */
  lemma {:induction false} ReportTellsItsWindow(actions: seq<Action>, c: Config, r: Reports.LaborPerformanceReport,
                                                from: Instant, to: Instant, taskType: string)
    requires var rows := Run(actions, c).projection.rows;
             Reports.IsReportOf(r, rows, Reports.SelectedKeys(rows, from, to, taskType))
    ensures var s := Run(actions, c);
            r.totals.tasksRecorded == |ClaimedInWindow(s, from, to, taskType)|
  {
    var s := Run(actions, c);
    var keys := Reports.SelectedKeys(s.projection.rows, from, to, taskType);
    EveryRunKeepsInv(actions, c);
    Reports.ReportSums(r, s.projection.rows, keys);
    RowsCountAmong(s, c, keys);
    AmongIsWindow(s, c, from, to, taskType);
  }

  /** Between whole hours the window is the time between them. */
  lemma {:induction false} WholeHoursAreTheWindow(t: Tables, k: nat, from: Instant, to: Instant, taskType: string)
    requires k < |t.performances| && k < |RecordedOn(t.outbox, Analytics)|
    requires from % 3_600_000_000_000 == 0 && to % 3_600_000_000_000 == 0
    ensures InWindow(t, k, from, to, taskType) <==>
            && from <= TimeOr(t.performances[k].completedAt, RecordedOn(t.outbox, Analytics)[k].occurredAt) < to
            && (taskType == "" || NormalizeTaskType(t.performances[k].taskType) == taskType)
  {
    var at := TimeOr(t.performances[k].completedAt, RecordedOn(t.outbox, Analytics)[k].occurredAt);
    var key := RowKey(NormalizeTaskType(t.performances[k].taskType), HourBucket(at));
    OneHour(at, key.hourBucket);
    assert RowFalls(t, k, key);
    HoursAlign(at, from);
    HoursAlign(at, to);
    forall other | RowFalls(t, k, other) ensures other == key { OneRowOnly(t, k, other, key); }
  }

  lemma HoursAlign(at: Instant, bound: Instant)
    requires bound % 3_600_000_000_000 == 0
    ensures bound <= HourBucket(at) <==> bound <= at
  {
    if bound <= at { assert bound / 3_600_000_000_000 <= at / 3_600_000_000_000; }
  }

  /** The freshness watermark is the latest instant at which a counted event occurred. */
  lemma {:induction false} WatermarkIsLatestEvent(actions: seq<Action>, c: Config)
    ensures var s := Run(actions, c);
            && (forall id :: id in s.projection.seen ==> id < |s.db.outbox| && s.db.outbox[id].event.occurredAt <= s.projection.latest)
            && 0 <= s.projection.latest
            && (s.projection.latest == 0
                || exists id :: id in s.projection.seen && id < |s.db.outbox| && s.db.outbox[id].event.occurredAt == s.projection.latest)
  {
    EveryRunKeepsInv(actions, c);
    var s := Run(actions, c);
    var effects := EffectsOf(s.projection.seen, s.db.outbox);
    forall id | id in s.projection.seen ensures s.db.outbox[id].event.occurredAt <= s.projection.latest {
      assert effects[id].occurredAt in OccurredAts(effects);
    }
    if s.projection.latest != 0 {
      var id :| id in effects && effects[id].occurredAt == s.projection.latest;
      assert s.db.outbox[id].event.occurredAt == s.projection.latest;
    }
  }

  // --- First definitions and revisions --------------------------------------------------------------

  lemma {:induction false} EveryRunAnnounces(actions: seq<Action>, c: Config)
    ensures TellsDefinitions(Run(actions, c).db.outbox)
  {
    if actions == [] {
      assert StandardEvents([]) == [] && DefinitionsIn([]) == [];
    } else {
      var s := Run(Init(actions), c);
      EveryRunAnnounces(Init(actions), c);
      EveryRunKeepsInv(Init(actions), c);
      NextKeepsTelling(s, Last(actions), c);
    }
  }

  lemma NextKeepsTelling(s: State, a: Action, c: Config)
    requires TellsDefinitions(s.db.outbox)
    ensures TellsDefinitions(Next(s, a, c).db.outbox)
  {
    if Upstream(a) {
      var op := UpstreamWrites(s, a, c);
      if op.Some? { StepKeepsTelling(s.db, op.value, c.capSeconds); }
    } else if a.EndPass? && Enabled(s, a, c) && !a.commit.Lost? {
      Relay.PassRowsSameMessages(s.db.outbox, s.published, s.relay.count, s.relay.failed);
      MarksKeepTelling(s.db.outbox, Next(s, a, c).db.outbox);
    }
  }

  lemma {:induction false} FirstIdsAreEvents(outbox: seq<OutboxRow>)
    ensures |FirstIds(outbox)| == FirstDefinitions(StandardEvents(outbox))
  {
    if outbox != [] {
      FirstIdsAreEvents(Init(outbox));
      var e := Last(outbox);
      if e.topic.Analytics? && e.event.LaborStandardDefined? {
        assert FirstIds(outbox) == FirstIds(Init(outbox)) + {|outbox| - 1};
      } else {
        assert FirstIds(outbox) == FirstIds(Init(outbox));
      }
      if Defines(e) { AppendParts(StandardEvents(Init(outbox)), e.event); }
    }
  }

  /** When every analytics message is claimed, the read model counts one first definition
      for each task type ever defined, and every other definition as a revision. */
  lemma {:induction false} CaughtUpStandards(actions: seq<Action>, c: Config)
    requires var s := Run(actions, c); s.projection.seen == AnalyticsIds(s.db.outbox)
    ensures var s := Run(actions, c);
            var total, defs := SumKeys(s.projection.rows, s.projection.rows.Keys), DefinitionsIn(s.db.outbox);
            && total.standardsDefined == |TypesDefined(defs)|
            && total.standardsRevised == |defs| - |TypesDefined(defs)|
  {
    var s := Run(actions, c);
    EveryRunKeepsInv(actions, c);
    EveryRunAnnounces(actions, c);
    ReadModelTellsTable(s, c);
    DeltasAreTallies(s.db, c.capSeconds, s.projection.seen, s.projection.seen);
    assert FirstIds(s.db.outbox) * s.projection.seen == FirstIds(s.db.outbox);
    FirstIdsAreEvents(s.db.outbox);
    FirstsAreTypes(StandardEvents(s.db.outbox), DefinitionsIn(s.db.outbox));
  }
}
