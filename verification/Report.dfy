/** Building the labor performance report out of selected rows. */
module Reports {
  import opened Base
  import opened Sums
  import opened Sorting
  import opened Projections

  datatype Row = Row(key: RowKey, counters: Counters)

  /** Clamped at zero, which nested counters never need. */
  function TasksUnscored(c: Counters): (n: int)
    ensures Nested(c) ==> n == c.tasksRecorded - c.tasksScored
    ensures 0 <= n && (c.tasksScored <= c.tasksRecorded ==> c.tasksScored + n == c.tasksRecorded)
    ensures c.tasksRecorded < c.tasksScored ==> n == 0
  {
    if c.tasksRecorded - c.tasksScored > 0 then c.tasksRecorded - c.tasksScored else 0
  }

  datatype TaskTypeBar = TaskTypeBar(
    taskType: string,
    tasksRecorded: int,
    tasksScored: int,
    tasksUnscored: int,
    meanEfficiencyPct: Option<real>,
    meanActualSeconds: Option<real>,
    standardsDefined: int,
    standardsRevised: int)

  datatype Totals = Totals(
    tasksRecorded: int,
    tasksScored: int,
    tasksUnscored: int,
    meanEfficiencyPct: Option<real>,
    meanActualSeconds: Option<real>)

  datatype LaborPerformanceReport = LaborPerformanceReport(rows: seq<Row>, byTaskType: seq<TaskTypeBar>, totals: Totals)

  function TotalsFrom(c: Counters): Totals {
    Totals(c.tasksRecorded, c.tasksScored, TasksUnscored(c),
           Mean(c.efficiencyPctSum, c.tasksScored), Mean(c.actualSecondsSum as real, c.tasksMeasured))
  }

  function BarFrom(taskType: string, c: Counters): TaskTypeBar {
    TaskTypeBar(taskType, c.tasksRecorded, c.tasksScored, TasksUnscored(c),
                Mean(c.efficiencyPctSum, c.tasksScored), Mean(c.actualSecondsSum as real, c.tasksMeasured),
                c.standardsDefined, c.standardsRevised)
  }

  function SumRows(rows: seq<Row>): Counters {
    if rows == [] then ZERO else Add(SumRows(Init(rows)), Last(rows).counters)
  }

  function RowsOfType(rows: seq<Row>, taskType: string): seq<Row> {
    if rows == [] then []
    else
      var before := RowsOfType(Init(rows), taskType);
      if Last(rows).key.taskType == taskType then before + [Last(rows)] else before
  }

  /** Hour bucket first, then task type. */
  predicate RowLeq(a: Row, b: Row) {
    if a.key.hourBucket != b.key.hourBucket then a.key.hourBucket < b.key.hourBucket
    else StringLeq(a.key.taskType, b.key.taskType)
  }

  lemma RowLeqIsOrder()
    ensures TotalPreorder(RowLeq)
    ensures forall a, b :: RowLeq(a, b) && RowLeq(b, a) ==> a.key == b.key
  {
    StringLeqIsOrder();
  }

  // --- What a report is ------------------------------------------------------------------

  ghost predicate StrictlySorted(bars: seq<TaskTypeBar>) {
    forall i, j :: 0 <= i < j < |bars| ==> StringLeq(bars[i].taskType, bars[j].taskType) && bars[i].taskType != bars[j].taskType
  }

  /** One bar per task type present, strictly sorted, each made of its type's summed rows. */
  ghost predicate IsBreakdown(bars: seq<TaskTypeBar>, rows: seq<Row>) {
    && StrictlySorted(bars)
    && (forall i :: 0 <= i < |bars| ==>
          RowsOfType(rows, bars[i].taskType) != [] && bars[i] == BarFrom(bars[i].taskType, SumRows(RowsOfType(rows, bars[i].taskType))))
    && (forall taskType :: RowsOfType(rows, taskType) != [] ==> exists i :: 0 <= i < |bars| && bars[i].taskType == taskType)
  }

  ghost predicate IsReport(r: LaborPerformanceReport, rows: seq<Row>) {
    && multiset(r.rows) == multiset(rows)
    && SortedBy(r.rows, RowLeq)
    && IsBreakdown(r.byTaskType, rows)
    && r.totals == TotalsFrom(SumRows(rows))
  }

  // --- Order does not matter ----------------------------------------------------------------

  lemma {:induction false} SumRowsConcat(xs: seq<Row>, ys: seq<Row>)
    ensures SumRows(xs + ys) == Add(SumRows(xs), SumRows(ys))
  {
    if ys == [] {
      assert xs + ys == xs;
      AddLaws(SumRows(xs), ZERO, ZERO);
    } else {
      SumRowsConcat(xs, Init(ys));
      assert Init(xs + ys) == xs + Init(ys);
      AddLaws(SumRows(xs), SumRows(Init(ys)), Last(ys).counters);
    }
  }

  lemma SumRowsWithout(ys: seq<Row>, i: nat)
    requires i < |ys|
    ensures SumRows(ys) == Add(SumRows(Without(ys, i)), ys[i].counters)
  {
    var front, row, back := ys[..i], ys[i], ys[i + 1..];
    calc {
      SumRows(ys);
      { assert ys == (front + [row]) + back; }
      SumRows((front + [row]) + back);
      { SumRowsConcat(front + [row], back); }
      Add(SumRows(front + [row]), SumRows(back));
      { AppendParts(front, row); }
      Add(Add(SumRows(front), row.counters), SumRows(back));
      { AddLaws(SumRows(front), row.counters, SumRows(back)); }
      Add(Add(SumRows(front), SumRows(back)), row.counters);
      { SumRowsConcat(front, back); }
      Add(SumRows(Without(ys, i)), row.counters);
    }
  }

  lemma {:induction false} SumRowsIsOrderFree(xs: seq<Row>, ys: seq<Row>)
    requires multiset(xs) == multiset(ys)
    ensures SumRows(xs) == SumRows(ys)
  {
    if xs == [] {
      assert |multiset(ys)| == 0;
    } else {
      var i := StrikeOutLast(xs, ys);
      SumRowsIsOrderFree(Init(xs), Without(ys, i));
      SumRowsWithout(ys, i);
    }
  }

  lemma {:induction false} RowsOfTypeCounts(rows: seq<Row>, taskType: string, row: Row)
    ensures multiset(RowsOfType(rows, taskType))[row] == if row.key.taskType == taskType then multiset(rows)[row] else 0
  {
    if rows != [] {
      assert rows == Init(rows) + [Last(rows)];
      RowsOfTypeCounts(Init(rows), taskType, row);
    }
  }

  lemma RowsOfTypeIsOrderFree(xs: seq<Row>, ys: seq<Row>, taskType: string)
    requires multiset(xs) == multiset(ys)
    ensures multiset(RowsOfType(xs, taskType)) == multiset(RowsOfType(ys, taskType))
    ensures RowsOfType(xs, taskType) == [] <==> RowsOfType(ys, taskType) == []
    ensures SumRows(RowsOfType(xs, taskType)) == SumRows(RowsOfType(ys, taskType))
  {
    forall row ensures multiset(RowsOfType(xs, taskType))[row] == multiset(RowsOfType(ys, taskType))[row] {
      RowsOfTypeCounts(xs, taskType, row);
      RowsOfTypeCounts(ys, taskType, row);
    }
    var a, b := RowsOfType(xs, taskType), RowsOfType(ys, taskType);
    assert multiset(a) == multiset(b);
    assert |a| == |multiset(a)| == |multiset(b)| == |b|;
    SumRowsIsOrderFree(a, b);
  }

  predicate BarLeq(a: TaskTypeBar, b: TaskTypeBar) {
    StringLeq(a.taskType, b.taskType)
  }

  lemma BarOrder(bars: seq<TaskTypeBar>)
    requires StrictlySorted(bars)
    ensures TotalPreorder(BarLeq) && SortedBy(bars, BarLeq) && Distinct(bars) && TiesAreEqual(bars, BarLeq)
  {
    StringLeqIsOrder();
    forall x, y | x in bars && y in bars && BarLeq(x, y) && BarLeq(y, x) ensures x == y {
      var i :| 0 <= i < |bars| && bars[i] == x;
      var j :| 0 <= j < |bars| && bars[j] == y;
      assert x.taskType == y.taskType;
    }
  }

  /** The breakdown of a set of rows is determined by the rows alone. */
  lemma BreakdownIsUnique(bars: seq<TaskTypeBar>, bars': seq<TaskTypeBar>, rows: seq<Row>, rows': seq<Row>)
    requires IsBreakdown(bars, rows) && IsBreakdown(bars', rows') && multiset(rows) == multiset(rows')
    ensures bars == bars'
  {
    StringLeqIsOrder();
    forall bar | bar in bars ensures bar in bars' { SameBar(bars, bars', rows, rows', bar); }
    forall bar | bar in bars' ensures bar in bars { SameBar(bars', bars, rows', rows, bar); }
    DistinctSameElements(bars, bars');
    BarOrder(bars);
    BarOrder(bars');
    SortIsUnique(bars, bars', BarLeq);
  }

  lemma SameBar(bars: seq<TaskTypeBar>, bars': seq<TaskTypeBar>, rows: seq<Row>, rows': seq<Row>, bar: TaskTypeBar)
    requires IsBreakdown(bars, rows) && IsBreakdown(bars', rows') && multiset(rows) == multiset(rows') && bar in bars
    ensures bar in bars'
  {
    RowsOfTypeIsOrderFree(rows, rows', bar.taskType);
    var i :| 0 <= i < |bars'| && bars'[i].taskType == bar.taskType;
    assert bars'[i] == bar;
  }

  /** Totals and bars never depend on the order rows were fetched in; with one row
      per key, as both stores select them, the whole report is determined. */
  lemma ReportIsOrderFree(r: LaborPerformanceReport, r': LaborPerformanceReport, rows: seq<Row>, rows': seq<Row>)
    requires IsReport(r, rows) && IsReport(r', rows') && multiset(rows) == multiset(rows')
    ensures r.totals == r'.totals && r.byTaskType == r'.byTaskType
    ensures (forall x, y :: x in rows && y in rows && x.key == y.key ==> x == y) ==> r == r'
  {
    SumRowsIsOrderFree(rows, rows');
    BreakdownIsUnique(r.byTaskType, r'.byTaskType, rows, rows');
    if forall x, y :: x in rows && y in rows && x.key == y.key ==> x == y {
      RowLeqIsOrder();
      forall x | x in r.rows ensures x in rows { assert x in multiset(r.rows); }
      assert TiesAreEqual(r.rows, RowLeq);
      SortIsUnique(r.rows, r'.rows, RowLeq);
    }
  }

  // --- Conservation ---------------------------------------------------------------------------

  function TypeTotals(rows: seq<Row>): map<string, Counters> {
    if rows == [] then map[] else Bump(TypeTotals(Init(rows)), Last(rows).key.taskType, Last(rows).counters)
  }

  lemma {:induction false} TypeTotalsEntries(rows: seq<Row>, taskType: string)
    ensures taskType in TypeTotals(rows) <==> RowsOfType(rows, taskType) != []
    ensures Get(TypeTotals(rows), taskType) == SumRows(RowsOfType(rows, taskType))
  {
    if rows != [] {
      TypeTotalsEntries(Init(rows), taskType);
      if Last(rows).key.taskType == taskType {
        AppendParts(RowsOfType(Init(rows), taskType), Last(rows));
        assert RowsOfType(rows, taskType) == RowsOfType(Init(rows), taskType) + [Last(rows)];
      } else {
        assert RowsOfType(rows, taskType) == RowsOfType(Init(rows), taskType);
      }
    }
  }

  lemma {:induction false} TypeTotalsAddUp(rows: seq<Row>)
    ensures SumKeys(TypeTotals(rows), TypeTotals(rows).Keys) == SumRows(rows)
  {
    if rows != [] {
      TypeTotalsAddUp(Init(rows));
      BumpMovesTotal(TypeTotals(Init(rows)), Last(rows).key.taskType, Last(rows).counters);
    }
  }

  /** The counters a bar shows, without its means. */
  function BarCounters(b: TaskTypeBar): Counters {
    Counters(b.tasksRecorded, b.tasksScored, 0.0, 0, 0, b.standardsDefined, b.standardsRevised)
  }

  function SumBars(bars: seq<TaskTypeBar>): Counters {
    if bars == [] then ZERO else Add(SumBars(Init(bars)), BarCounters(Last(bars)))
  }

  function Shown(c: Counters): Counters {
    c.(efficiencyPctSum := 0.0, tasksMeasured := 0, actualSecondsSum := 0)
  }

  lemma ShownAdds(a: Counters, b: Counters)
    ensures Shown(Add(a, b)) == Add(Shown(b), Shown(a))
  {
  }

  function TypesOf(bars: seq<TaskTypeBar>): set<string> {
    set b | b in bars :: b.taskType
  }

  lemma {:induction false} BarsAddUp(bars: seq<TaskTypeBar>, m: map<string, Counters>)
    requires StrictlySorted(bars)
    requires forall b :: b in bars ==> b.taskType in m && BarCounters(b) == Shown(m[b.taskType])
    ensures TypesOf(bars) <= m.Keys
    ensures SumBars(bars) == Shown(SumKeys(m, TypesOf(bars)))
  {
    if bars != [] {
      var init, last := Init(bars), Last(bars);
      assert bars == init + [last];
      BarsAddUp(init, m);
      assert last.taskType !in TypesOf(init);
      assert TypesOf(bars) == TypesOf(init) + {last.taskType};
      assert TypesOf(bars) - {last.taskType} == TypesOf(init);
      SumKeysPick(m, TypesOf(bars), last.taskType);
      ShownAdds(m[last.taskType], SumKeys(m, TypesOf(init)));
    }
  }

  /** The bars split the totals: recorded and scored counts of all bars add up to
      the headline, and no standard event is lost or shown twice. */
  lemma BarsConserveTotals(r: LaborPerformanceReport, rows: seq<Row>)
    requires IsReport(r, rows)
    ensures SumBars(r.byTaskType) == Shown(SumRows(rows))
    ensures SumBars(r.byTaskType).tasksRecorded == r.totals.tasksRecorded
    ensures SumBars(r.byTaskType).tasksScored == r.totals.tasksScored
  {
    var bars, m := r.byTaskType, TypeTotals(rows);
    forall b | b in bars ensures b.taskType in m && BarCounters(b) == Shown(m[b.taskType]) {
      TypeTotalsEntries(rows, b.taskType);
    }
    BarsAddUp(bars, m);
    forall taskType ensures taskType in m <==> taskType in TypesOf(bars) {
      TypeTotalsEntries(rows, taskType);
      if taskType in TypesOf(bars) {
        var b :| b in bars && b.taskType == taskType;
      }
    }
    assert TypesOf(bars) == m.Keys;
    TypeTotalsAddUp(rows);
  }

  // --- Weighted means -----------------------------------------------------------------------------

  /** A mean's share in a weighted sum: nothing when there is no mean. */
  function Weighted(mean: Option<real>, n: int): real {
    if mean.Some? then mean.value * n as real else 0.0
  }

  /** Each row's mean efficiency, weighted by its scored tasks. */
  function WeightedScores(rows: seq<Row>): real {
    if rows == [] then 0.0
    else
      var c := Last(rows).counters;
      WeightedScores(Init(rows)) + Weighted(Mean(c.efficiencyPctSum, c.tasksScored), c.tasksScored)
  }

  /** Each row's mean duration, weighted by its measured tasks. */
  function WeightedSeconds(rows: seq<Row>): real {
    if rows == [] then 0.0
    else
      var c := Last(rows).counters;
      WeightedSeconds(Init(rows)) + Weighted(Mean(c.actualSecondsSum as real, c.tasksMeasured), c.tasksMeasured)
  }

  lemma {:induction false} WeightedSumsAreSums(rows: seq<Row>)
    requires forall row :: row in rows ==> Nested(row.counters)
    ensures WeightedScores(rows) == SumRows(rows).efficiencyPctSum
    ensures WeightedSeconds(rows) == SumRows(rows).actualSecondsSum as real
    ensures Nested(SumRows(rows))
  {
    if rows != [] {
      assert rows == Init(rows) + [Last(rows)];
      WeightedSumsAreSums(Init(rows));
    }
  }

  lemma {:induction false} RowsOfTypeMembers(rows: seq<Row>, taskType: string)
    ensures forall row :: row in RowsOfType(rows, taskType) ==> row in rows && row.key.taskType == taskType
  {
    if rows != [] {
      RowsOfTypeMembers(Init(rows), taskType);
      assert rows == Init(rows) + [Last(rows)];
    }
  }

  /** The mean is there exactly if there is volume, and then is the weighted mean: times
      the volume it gives the weighted sum. */
  predicate IsWeightedMean(mean: Option<real>, n: int, weighted: real) {
    (mean.Some? <==> n > 0) && (mean.Some? ==> mean.value * n as real == weighted)
  }

  lemma MeansWeigh(c: Counters)
    requires Nested(c)
    ensures IsWeightedMean(Mean(c.efficiencyPctSum, c.tasksScored), c.tasksScored, c.efficiencyPctSum)
    ensures IsWeightedMean(Mean(c.actualSecondsSum as real, c.tasksMeasured), c.tasksMeasured, c.actualSecondsSum as real)
  {
  }

  /** Both means of a bar are volume-weighted means of its rows, not means of means, and
      its unscored count is the exact difference. */
  lemma BarMeanIsWeighted(r: LaborPerformanceReport, rows: seq<Row>, i: nat)
    requires IsReport(r, rows) && i < |r.byTaskType|
    requires forall row :: row in rows ==> Nested(row.counters)
    ensures var bar := r.byTaskType[i]; var own := RowsOfType(rows, bar.taskType);
            && IsWeightedMean(bar.meanEfficiencyPct, bar.tasksScored, WeightedScores(own))
            && IsWeightedMean(bar.meanActualSeconds, SumRows(own).tasksMeasured, WeightedSeconds(own))
            && bar.tasksUnscored == bar.tasksRecorded - bar.tasksScored
  {
    var bar := r.byTaskType[i];
    var own := RowsOfType(rows, bar.taskType);
    RowsOfTypeMembers(rows, bar.taskType);
    WeightedSumsAreSums(own);
    MeansWeigh(SumRows(own));
  }

  /** And both means of the headline are volume-weighted means of all rows. */
  lemma TotalsMeanIsWeighted(r: LaborPerformanceReport, rows: seq<Row>)
    requires IsReport(r, rows) && forall row :: row in rows ==> Nested(row.counters)
    ensures IsWeightedMean(r.totals.meanEfficiencyPct, r.totals.tasksScored, WeightedScores(rows))
    ensures IsWeightedMean(r.totals.meanActualSeconds, SumRows(rows).tasksMeasured, WeightedSeconds(rows))
    ensures r.totals.tasksUnscored == r.totals.tasksRecorded - r.totals.tasksScored
  {
    WeightedSumsAreSums(rows);
    MeansWeigh(SumRows(rows));
  }

  /** Nested rows make nested reports. */
  lemma NestedReport(r: LaborPerformanceReport, rows: seq<Row>)
    requires IsReport(r, rows) && forall row :: row in rows ==> Nested(row.counters)
    ensures forall row :: row in r.rows ==> Nested(row.counters)
    ensures r.totals.tasksUnscored == r.totals.tasksRecorded - r.totals.tasksScored
    ensures forall i :: 0 <= i < |r.byTaskType| ==>
              r.byTaskType[i].tasksUnscored == r.byTaskType[i].tasksRecorded - r.byTaskType[i].tasksScored
  {
    forall row | row in r.rows ensures row in rows { assert row in multiset(r.rows); }
    TotalsMeanIsWeighted(r, rows);
    forall i | 0 <= i < |r.byTaskType|
      ensures r.byTaskType[i].tasksUnscored == r.byTaskType[i].tasksRecorded - r.byTaskType[i].tasksScored
    {
      BarMeanIsWeighted(r, rows, i);
    }
  }

  // --- Building ----------------------------------------------------------------------------------

  method TotalsOf(rows: seq<Row>) returns (totals: Totals)
    ensures totals == TotalsFrom(SumRows(rows))
  {
    var acc := ZERO;
    for i := 0 to |rows|
      invariant acc == SumRows(rows[..i]).(standardsDefined := 0, standardsRevised := 0)
    {
      assert Init(rows[..i + 1]) == rows[..i];
      var c := rows[i].counters;
      acc := acc.(tasksRecorded := acc.tasksRecorded + c.tasksRecorded,
                  tasksScored := acc.tasksScored + c.tasksScored,
                  efficiencyPctSum := acc.efficiencyPctSum + c.efficiencyPctSum,
                  tasksMeasured := acc.tasksMeasured + c.tasksMeasured,
                  actualSecondsSum := acc.actualSecondsSum + c.actualSecondsSum);
    }
    assert rows[..|rows|] == rows;
    totals := TotalsFrom(acc);
  }

  /** First loop of `breakdown`: per-type sums, and the types in order of appearance. */
  method Accumulate(rows: seq<Row>) returns (totals: map<string, Counters>, order: seq<string>)
    ensures totals == TypeTotals(rows)
    ensures Distinct(order) && forall taskType :: taskType in order <==> taskType in totals
  {
    totals, order := map[], [];
    for i := 0 to |rows|
      invariant totals == TypeTotals(rows[..i])
      invariant Distinct(order) && forall taskType :: taskType in order <==> taskType in totals
    {
      assert Init(rows[..i + 1]) == rows[..i];
      var taskType := rows[i].key.taskType;
      if taskType !in totals {
        order := order + [taskType];
      }
      totals := totals[taskType := Add(Get(totals, taskType), rows[i].counters)];
    }
    assert rows[..|rows|] == rows;
  }

  method Breakdown(rows: seq<Row>) returns (bars: seq<TaskTypeBar>)
    ensures IsBreakdown(bars, rows)
  {
    var totals, order := Accumulate(rows);
    StringLeqIsOrder();
    var sorted := Sort(order, StringLeq);
    SortedTypes(order, sorted);
    bars := MakeBars(sorted, totals);
    BarsAreBreakdown(bars, sorted, rows);
  }

  /** Second loop: one bar per type, in the sorted order. */
  method MakeBars(order: seq<string>, totals: map<string, Counters>) returns (bars: seq<TaskTypeBar>)
    requires forall taskType :: taskType in order ==> taskType in totals
    ensures |bars| == |order|
    ensures forall k :: 0 <= k < |order| ==> bars[k] == BarFrom(order[k], totals[order[k]])
  {
    bars := [];
    for i := 0 to |order|
      invariant |bars| == i
      invariant forall k :: 0 <= k < i ==> bars[k] == BarFrom(order[k], totals[order[k]])
    {
      bars := bars + [BarFrom(order[i], totals[order[i]])];
    }
  }

  lemma SortedTypes(order: seq<string>, sorted: seq<string>)
    requires Distinct(order) && multiset(sorted) == multiset(order)
    ensures Distinct(sorted) && forall taskType :: taskType in sorted <==> taskType in order
  {
    forall i, j | 0 <= i < j < |sorted| ensures sorted[i] != sorted[j] {
      if sorted[i] == sorted[j] {
        assert sorted == sorted[..j] + sorted[j..];
        assert sorted[i] in sorted[..j] && sorted[j] in sorted[j..];
        assert multiset(sorted)[sorted[i]] >= 2;
        DistinctCounts(order, sorted[i]);
        assert false;
      }
    }
    forall taskType ensures taskType in sorted <==> taskType in order {
      assert taskType in sorted <==> taskType in multiset(sorted);
    }
  }

  lemma BarsAreBreakdown(bars: seq<TaskTypeBar>, sorted: seq<string>, rows: seq<Row>)
    requires Distinct(sorted) && SortedBy(sorted, StringLeq)
    requires forall taskType :: taskType in sorted <==> taskType in TypeTotals(rows)
    requires |bars| == |sorted|
    requires forall k :: 0 <= k < |sorted| ==> sorted[k] in TypeTotals(rows) && bars[k] == BarFrom(sorted[k], TypeTotals(rows)[sorted[k]])
    ensures IsBreakdown(bars, rows)
  {
    forall taskType
      ensures taskType in TypeTotals(rows) <==> RowsOfType(rows, taskType) != []
      ensures Get(TypeTotals(rows), taskType) == SumRows(RowsOfType(rows, taskType))
    {
      TypeTotalsEntries(rows, taskType);
    }
    forall taskType | RowsOfType(rows, taskType) != [] ensures exists i :: 0 <= i < |bars| && bars[i].taskType == taskType {
      var i :| 0 <= i < |sorted| && sorted[i] == taskType;
      assert bars[i].taskType == taskType;
    }
  }

  method Build(rows: seq<Row>) returns (r: LaborPerformanceReport)
    ensures IsReport(r, rows)
  {
    RowLeqIsOrder();
    var ordered := Sort(rows, RowLeq);
    var bars := Breakdown(ordered);
    var totals := TotalsOf(ordered);
    r := LaborPerformanceReport(ordered, bars, totals);
    SumRowsIsOrderFree(ordered, rows);
    BreakdownCarriesOver(bars, ordered, rows);
  }

  lemma BreakdownCarriesOver(bars: seq<TaskTypeBar>, ordered: seq<Row>, rows: seq<Row>)
    requires IsBreakdown(bars, ordered) && multiset(ordered) == multiset(rows)
    ensures IsBreakdown(bars, rows)
  {
    forall taskType
      ensures RowsOfType(ordered, taskType) == [] <==> RowsOfType(rows, taskType) == []
      ensures SumRows(RowsOfType(ordered, taskType)) == SumRows(RowsOfType(rows, taskType))
    {
      RowsOfTypeIsOrderFree(ordered, rows, taskType);
    }
  }

  // --- Querying a store -----------------------------------------------------------------------------

  /** From inclusive, to exclusive, and the type if one is asked for. */
  function SelectedKeys(store: map<RowKey, Counters>, from: Instant, to: Instant, taskType: string): set<RowKey> {
    set key | key in store && from <= key.hourBucket < to && (taskType == "" || key.taskType == taskType)
  }

  function KeysOf(rows: seq<Row>): set<RowKey> {
    set row | row in rows :: row.key
  }

  /** The rows are the selected entries, each once, in any order. */
  ghost predicate Selects(rows: seq<Row>, store: map<RowKey, Counters>, keys: set<RowKey>)
    requires keys <= store.Keys
  {
    && (forall i, j :: 0 <= i < j < |rows| ==> rows[i].key != rows[j].key)
    && KeysOf(rows) == keys
    && (forall row :: row in rows ==> row.counters == store[row.key])
  }

  /** The report over exactly the entries at `keys`. */
  ghost predicate IsReportOf(r: LaborPerformanceReport, store: map<RowKey, Counters>, keys: set<RowKey>)
    requires keys <= store.Keys
  {
    exists rows :: Selects(rows, store, keys) && IsReport(r, rows)
  }

  /** Hours rise, and within an hour task types strictly rise letter by letter. */
  ghost predicate InRowOrder(a: Row, b: Row) {
    || a.key.hourBucket < b.key.hourBucket
    || (a.key.hourBucket == b.key.hourBucket && LexBefore(a.key.taskType, b.key.taskType))
  }

  /** What a report lists: the entries at `keys`, each once, hour by hour and type by type. */
  lemma RowsAreListed(r: LaborPerformanceReport, store: map<RowKey, Counters>, keys: set<RowKey>)
    requires keys <= store.Keys && IsReportOf(r, store, keys)
    ensures forall key :: key in keys <==> exists row :: row in r.rows && row.key == key
    ensures forall row :: row in r.rows ==> row.key in keys && row.counters == store[row.key]
    ensures forall i, j :: 0 <= i < j < |r.rows| ==> InRowOrder(r.rows[i], r.rows[j])
    ensures forall i, j :: 0 <= i < j < |r.byTaskType| ==> LexBefore(r.byTaskType[i].taskType, r.byTaskType[j].taskType)
  {
    var rows :| Selects(rows, store, keys) && IsReport(r, rows);
    forall row ensures row in r.rows <==> row in rows { assert row in r.rows <==> row in multiset(r.rows); }
    SelectedStayDistinct(r.rows, rows, store, keys);
    forall i, j | 0 <= i < j < |r.rows| ensures InRowOrder(r.rows[i], r.rows[j]) {
      assert RowLeq(r.rows[i], r.rows[j]);
      StringLeqIsLex(r.rows[i].key.taskType, r.rows[j].key.taskType);
    }
    forall i, j | 0 <= i < j < |r.byTaskType| ensures LexBefore(r.byTaskType[i].taskType, r.byTaskType[j].taskType) {
      StringLeqIsLex(r.byTaskType[i].taskType, r.byTaskType[j].taskType);
    }
  }

  lemma SelectedStayDistinct(sorted: seq<Row>, rows: seq<Row>, store: map<RowKey, Counters>, keys: set<RowKey>)
    requires keys <= store.Keys && Selects(rows, store, keys) && multiset(sorted) == multiset(rows)
    ensures forall i, j :: 0 <= i < j < |sorted| ==> sorted[i].key != sorted[j].key
  {
    forall i, j | 0 <= i < j < |sorted| ensures sorted[i].key != sorted[j].key {
      if sorted[i].key == sorted[j].key {
        assert sorted[i] in multiset(rows) && sorted[j] in multiset(rows);
        assert sorted[i] == sorted[j];
        assert sorted == sorted[..j] + sorted[j..];
        assert sorted[i] in sorted[..j] && sorted[j] in sorted[j..];
        assert multiset(sorted)[sorted[i]] >= 2;
        assert Distinct(rows);
        DistinctCounts(rows, sorted[i]);
        assert false;
      }
    }
  }

  /** The report lists exactly the rows whose hour lies in the window, from inclusive and
      to exclusive, and whose type is the one asked for, if one is. */
  method Query(store: MemoryStore, from: Instant, to: Instant, taskType: string) returns (r: LaborPerformanceReport)
    ensures IsReportOf(r, store.rows, SelectedKeys(store.rows, from, to, taskType))
    ensures forall row :: row in r.rows ==>
              && row.key in store.rows && row.counters == store.rows[row.key]
              && from <= row.key.hourBucket < to && (taskType == "" || row.key.taskType == taskType)
    ensures forall key :: key in store.rows && from <= key.hourBucket < to && (taskType == "" || key.taskType == taskType) ==>
              exists row :: row in r.rows && row.key == key
    ensures forall i, j :: 0 <= i < j < |r.rows| ==> InRowOrder(r.rows[i], r.rows[j])
  {
    var selected := Collect(store.rows, from, to, taskType);
    r := Build(selected);
    ghost var keys := SelectedKeys(store.rows, from, to, taskType);
    RowsAreListed(r, store.rows, keys);
    assert forall key :: key in store.rows && from <= key.hourBucket < to && (taskType == "" || key.taskType == taskType) ==> key in keys;
  }

  /** Visits the map in an arbitrary order, keeping what the query selects. */
  method Collect(store: map<RowKey, Counters>, from: Instant, to: Instant, taskType: string) returns (rows: seq<Row>)
    ensures Selects(rows, store, SelectedKeys(store, from, to, taskType))
  {
    rows := [];
    var left := store.Keys;
    ghost var done: set<RowKey> := {};
    while left != {}
      invariant left <= store.Keys && done <= store.Keys
      invariant done == SelectedKeys(store, from, to, taskType) - left
      invariant Selects(rows, store, done)
      decreases left
    {
      var key :| key in left;
      left := left - {key};
      if key.hourBucket < from || !(key.hourBucket < to) { continue; }
      if taskType != "" && key.taskType != taskType { continue; }
      SelectOneMore(rows, store, done, key);
      rows := rows + [Row(key, store[key])];
      done := done + {key};
    }
    assert done == SelectedKeys(store, from, to, taskType);
  }

  lemma SelectOneMore(rows: seq<Row>, store: map<RowKey, Counters>, keys: set<RowKey>, key: RowKey)
    requires keys <= store.Keys && Selects(rows, store, keys) && key in store && key !in keys
    ensures Selects(rows + [Row(key, store[key])], store, keys + {key})
  {
    var next := rows + [Row(key, store[key])];
    assert KeysOf(next) == KeysOf(rows) + {key};
    forall i | 0 <= i < |rows| ensures rows[i].key in keys { assert rows[i] in rows; }
  }

  lemma {:induction false} SelectedRowsSum(rows: seq<Row>, store: map<RowKey, Counters>, keys: set<RowKey>)
    requires keys <= store.Keys && Selects(rows, store, keys)
    ensures SumRows(rows) == SumKeys(store, keys)
  {
    if rows != [] {
      var init, last := Init(rows), Last(rows);
      assert rows == init + [last];
      forall row | row in init ensures row.key != last.key {
        var i :| 0 <= i < |init| && init[i] == row;
        assert rows[i].key != rows[|rows| - 1].key;
      }
      assert KeysOf(rows) == KeysOf(init) + {last.key};
      assert KeysOf(init) == keys - {last.key};
      SelectedRowsSum(init, store, keys - {last.key});
      SumKeysPick(store, keys, last.key);
      AddLaws(last.counters, SumRows(init), ZERO);
    }
  }

  lemma ReportSums(r: LaborPerformanceReport, store: map<RowKey, Counters>, keys: set<RowKey>)
    requires keys <= store.Keys && IsReportOf(r, store, keys)
    ensures r.totals == TotalsFrom(SumKeys(store, keys))
  {
    var rows :| Selects(rows, store, keys) && IsReport(r, rows);
    SelectedRowsSum(rows, store, keys);
  }

  /** The counts of adjacent windows add up to the count of their union. */
  lemma {:induction false} WindowsAdd(store: map<RowKey, Counters>, a: Instant, b: Instant, c: Instant, taskType: string,
                                      ab: LaborPerformanceReport, bc: LaborPerformanceReport, ac: LaborPerformanceReport)
    requires a <= b <= c
    requires IsReportOf(ab, store, SelectedKeys(store, a, b, taskType))
    requires IsReportOf(bc, store, SelectedKeys(store, b, c, taskType))
    requires IsReportOf(ac, store, SelectedKeys(store, a, c, taskType))
    ensures ab.totals.tasksRecorded + bc.totals.tasksRecorded == ac.totals.tasksRecorded
    ensures ab.totals.tasksScored + bc.totals.tasksScored == ac.totals.tasksScored
    ensures (forall key :: key in store ==> Nested(store[key])) ==>
              ab.totals.tasksUnscored + bc.totals.tasksUnscored == ac.totals.tasksUnscored
  {
    var s, t := SelectedKeys(store, a, b, taskType), SelectedKeys(store, b, c, taskType);
    assert SelectedKeys(store, a, c, taskType) == s + t;
    SumKeysUnion(store, s, t);
    ReportSums(ab, store, s);
    ReportSums(bc, store, t);
    ReportSums(ac, store, s + t);
    if forall key :: key in store ==> Nested(store[key]) {
      SumKeysNested(store, s);
      SumKeysNested(store, t);
      SumKeysNested(store, s + t);
    }
  }
}
