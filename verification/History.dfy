/** What the queries over the performance table compute, as functions of its rows. */
module History {
  import opened Base
  import opened Performance
  import opened IdleGaps
  import opened Sums
  import opened Sorting

  function OfAssociate(rows: seq<TaskPerformance>, associateId: string): seq<TaskPerformance> {
    if rows == [] then []
    else
      var before := OfAssociate(Init(rows), associateId);
      if Last(rows).associateId == associateId then before + [Last(rows)] else before
  }

  function OfType(rows: seq<TaskPerformance>, taskType: string): seq<TaskPerformance> {
    if rows == [] then []
    else
      var before := OfType(Init(rows), taskType);
      if Last(rows).taskType == taskType then before + [Last(rows)] else before
  }

  /** What one row contributes to every count and mean derived from the table. */
  function TallyOf(p: TaskPerformance): Counters {
    Counters(1, if p.efficiencyPct.Some? then 1 else 0, if p.efficiencyPct.Some? then p.efficiencyPct.value else 0.0,
             if p.actualSeconds > 0 then 1 else 0, if p.actualSeconds > 0 then p.actualSeconds else 0, 0, 0)
  }

  function Tally(rows: seq<TaskPerformance>): Counters {
    if rows == [] then ZERO else Add(Tally(Init(rows)), TallyOf(Last(rows)))
  }

  lemma TallyAppend(rows: seq<TaskPerformance>, p: TaskPerformance)
    ensures Tally(rows + [p]) == Add(Tally(rows), TallyOf(p))
  {
    AppendParts(rows, p);
  }

  lemma {:induction false} TallyCounts(rows: seq<TaskPerformance>)
    ensures Tally(rows).tasksRecorded == |rows| && 0 <= Tally(rows).tasksScored <= |rows|
  {
    if rows != [] { TallyCounts(Init(rows)); }
  }

  lemma {:induction false} TallyConcat(xs: seq<TaskPerformance>, ys: seq<TaskPerformance>)
    ensures Tally(xs + ys) == Add(Tally(xs), Tally(ys))
  {
    if ys == [] {
      assert xs + ys == xs;
    } else {
      TallyConcat(xs, Init(ys));
      assert Init(xs + ys) == xs + Init(ys);
      AddLaws(Tally(xs), Tally(Init(ys)), TallyOf(Last(ys)));
    }
  }

  lemma TallyWithout(ys: seq<TaskPerformance>, i: nat)
    requires i < |ys|
    ensures Tally(ys) == Add(Tally(Without(ys, i)), TallyOf(ys[i]))
  {
    var front, p, back := ys[..i], ys[i], ys[i + 1..];
    calc {
      Tally(ys);
      { assert ys == (front + [p]) + back; }
      Tally((front + [p]) + back);
      { TallyConcat(front + [p], back); }
      Add(Tally(front + [p]), Tally(back));
      { AppendParts(front, p); }
      Add(Add(Tally(front), TallyOf(p)), Tally(back));
      { AddLaws(Tally(front), TallyOf(p), Tally(back)); }
      Add(Add(Tally(front), Tally(back)), TallyOf(p));
      { TallyConcat(front, back); }
      Add(Tally(Without(ys, i)), TallyOf(p));
    }
  }

  /** A tally depends on which rows there are, not on their order. */
  lemma {:induction false} TallyIsOrderFree(xs: seq<TaskPerformance>, ys: seq<TaskPerformance>)
    requires multiset(xs) == multiset(ys)
    ensures Tally(xs) == Tally(ys)
  {
    if xs == [] {
      assert |multiset(ys)| == 0;
    } else {
      var i := StrikeOutLast(xs, ys);
      TallyIsOrderFree(Init(xs), Without(ys, i));
      TallyWithout(ys, i);
    }
  }

  function SumActualByAssociate(rows: seq<TaskPerformance>, associateId: string, since: Instant): int {
    if rows == [] then 0
    else
      SumActualByAssociate(Init(rows), associateId, since) +
      if Last(rows).associateId == associateId && since <= Last(rows).completedAt then Last(rows).actualSeconds else 0
  }

  function SumActualByTaskType(rows: seq<TaskPerformance>, taskType: string, since: Instant): int {
    if rows == [] then 0
    else
      SumActualByTaskType(Init(rows), taskType, since) +
      if Last(rows).taskType == taskType && since <= Last(rows).completedAt then Last(rows).actualSeconds else 0
  }

  // --- What the sums are over ---------------------------------------------------------

  function Durations(rows: seq<TaskPerformance>): map<nat, int> {
    map k: nat | k < |rows| :: rows[k].actualSeconds
  }

  /** The associate's rows completed at `since` or later. */
  function ByAssociateSince(rows: seq<TaskPerformance>, associateId: string, since: Instant): set<nat> {
    set k: nat | k < |rows| && rows[k].associateId == associateId && !(rows[k].completedAt < since)
  }

  function ByTypeSince(rows: seq<TaskPerformance>, taskType: string, since: Instant): set<nat> {
    set k: nat | k < |rows| && rows[k].taskType == taskType && !(rows[k].completedAt < since)
  }

  lemma RowsOfAssociateGrow(rows: seq<TaskPerformance>, associateId: string, since: Instant)
    requires rows != []
    ensures var s := ByAssociateSince(Init(rows), associateId, since);
            && ByAssociateSince(rows, associateId, since) ==
               (if Last(rows).associateId == associateId && !(Last(rows).completedAt < since) then s + {|rows| - 1} else s)
            && |rows| - 1 !in s
  {
  }

  lemma {:induction false} AssociateSumIsOverRows(rows: seq<TaskPerformance>, associateId: string, since: Instant)
    ensures SumActualByAssociate(rows, associateId, since) == SumInts(Durations(rows), ByAssociateSince(rows, associateId, since))
  {
    if rows != [] {
      var init := Init(rows);
      AssociateSumIsOverRows(init, associateId, since);
      RowsOfAssociateGrow(rows, associateId, since);
      SumIntsGrow(Durations(init), Durations(rows), ByAssociateSince(init, associateId, since), ByAssociateSince(rows, associateId, since), |init|);
    }
  }

  lemma RowsOfTypeGrow(rows: seq<TaskPerformance>, taskType: string, since: Instant)
    requires rows != []
    ensures var s := ByTypeSince(Init(rows), taskType, since);
            && ByTypeSince(rows, taskType, since) ==
               (if Last(rows).taskType == taskType && !(Last(rows).completedAt < since) then s + {|rows| - 1} else s)
            && |rows| - 1 !in s
  {
  }

  lemma {:induction false} TypeSumIsOverRows(rows: seq<TaskPerformance>, taskType: string, since: Instant)
    ensures SumActualByTaskType(rows, taskType, since) == SumInts(Durations(rows), ByTypeSince(rows, taskType, since))
  {
    if rows != [] {
      var init := Init(rows);
      TypeSumIsOverRows(init, taskType, since);
      RowsOfTypeGrow(rows, taskType, since);
      SumIntsGrow(Durations(init), Durations(rows), ByTypeSince(init, taskType, since), ByTypeSince(rows, taskType, since), |init|);
    }
  }

  function ScoredRows(rows: seq<TaskPerformance>): set<nat> {
    set k: nat | k < |rows| && rows[k].efficiencyPct.Some?
  }

  function MeasuredRows(rows: seq<TaskPerformance>): set<nat> {
    set k: nat | k < |rows| && 0 < rows[k].actualSeconds
  }

  lemma ScoredRowsGrow(rows: seq<TaskPerformance>)
    requires rows != []
    ensures ScoredRows(rows) == if Last(rows).efficiencyPct.Some? then ScoredRows(Init(rows)) + {|rows| - 1} else ScoredRows(Init(rows))
    ensures |rows| - 1 !in ScoredRows(Init(rows))
  {
  }

  lemma MeasuredRowsGrow(rows: seq<TaskPerformance>)
    requires rows != []
    ensures MeasuredRows(rows) == if 0 < Last(rows).actualSeconds then MeasuredRows(Init(rows)) + {|rows| - 1} else MeasuredRows(Init(rows))
    ensures |rows| - 1 !in MeasuredRows(Init(rows))
  {
  }

  lemma {:induction false} ScoredAreCounted(rows: seq<TaskPerformance>)
    ensures Tally(rows).tasksRecorded == |rows| && Tally(rows).tasksScored == |ScoredRows(rows)|
  {
    if rows != [] {
      ScoredAreCounted(Init(rows));
      ScoredRowsGrow(rows);
    }
  }

  lemma {:induction false} MeasuredAreSummed(rows: seq<TaskPerformance>)
    ensures Tally(rows).tasksMeasured == |MeasuredRows(rows)|
    ensures Tally(rows).actualSecondsSum == SumInts(Durations(rows), MeasuredRows(rows))
  {
    if rows != [] {
      var init := Init(rows);
      MeasuredAreSummed(init);
      MeasuredRowsGrow(rows);
      SumIntsGrow(Durations(init), Durations(rows), MeasuredRows(init), MeasuredRows(rows), |init|);
    }
  }

  function Scores(rows: seq<TaskPerformance>): map<nat, real> {
    map k: nat | k < |rows| && rows[k].efficiencyPct.Some? :: rows[k].efficiencyPct.value
  }

  lemma {:induction false} ScoresAreSummed(rows: seq<TaskPerformance>)
    ensures Scores(rows).Keys == ScoredRows(rows)
    ensures Tally(rows).efficiencyPctSum == SumReals(Scores(rows), ScoredRows(rows))
  {
    if rows != [] {
      var init, n := Init(rows), |rows| - 1;
      ScoresAreSummed(init);
      ScoredRowsGrow(rows);
      SumRealsAgree(Scores(init), Scores(rows), ScoredRows(init));
      if Last(rows).efficiencyPct.Some? {
        SumRealsPick(Scores(rows), ScoredRows(rows), n);
        assert ScoredRows(rows) - {n} == ScoredRows(init);
      }
    }
  }

  /** A tally counts every row, the scored rows and the rows with a duration, and sums
      the scores and the durations. */
  lemma TallyIsOverRows(rows: seq<TaskPerformance>)
    ensures var t := Tally(rows);
            && t.tasksRecorded == |rows| && t.tasksScored == |ScoredRows(rows)| && t.tasksMeasured == |MeasuredRows(rows)|
            && t.actualSecondsSum == SumInts(Durations(rows), MeasuredRows(rows))
            && Scores(rows).Keys == ScoredRows(rows) && t.efficiencyPctSum == SumReals(Scores(rows), ScoredRows(rows))
  {
    ScoredAreCounted(rows);
    ScoresAreSummed(rows);
    MeasuredAreSummed(rows);
  }

  predicate NewerOrEqual(p: TaskPerformance, q: TaskPerformance) {
    q.completedAt <= p.completedAt
  }

  /** `window` is what some newest-first sort of `own`, cut at `limit`, leaves. */
  ghost predicate NewestFirst(window: seq<TaskPerformance>, own: seq<TaskPerformance>, limit: nat) {
    exists all :: multiset(all) == multiset(own) && SortedBy(all, NewerOrEqual) && window == all[..Min(limit, |all|)]
  }

  // --- Per-associate scorecard --------------------------------------------

  /** The scorecard keeps counts and scores, not durations. */
  function ScoreOnly(c: Counters): Counters {
    c.(tasksMeasured := 0, actualSecondsSum := 0)
  }

  lemma ScoreOnlyAdds(a: Counters, b: Counters)
    ensures ScoreOnly(Add(a, b)) == Add(ScoreOnly(a), ScoreOnly(b))
  {
  }

  /** The breakdown, accumulated row by row. */
  function ByType(own: seq<TaskPerformance>): map<string, Counters> {
    if own == [] then map[] else Bump(ByType(Init(own)), Last(own).taskType, ScoreOnly(TallyOf(Last(own))))
  }

  lemma ByTypeAppend(own: seq<TaskPerformance>, p: TaskPerformance)
    ensures ByType(own + [p]) == Bump(ByType(own), p.taskType, ScoreOnly(TallyOf(p)))
  {
    AppendParts(own, p);
  }

  /** Each entry is the tally of exactly the rows of its type; a type without rows has none. */
  lemma {:induction false} ByTypeEntries(own: seq<TaskPerformance>, taskType: string)
    ensures Get(ByType(own), taskType) == ScoreOnly(Tally(OfType(own, taskType)))
    ensures taskType in ByType(own) <==> OfType(own, taskType) != []
  {
    if own != [] {
      var init, p := Init(own), Last(own);
      ByTypeEntries(init, taskType);
      if taskType == p.taskType {
        AppendParts(OfType(init, taskType), p);
        assert OfType(own, taskType) == OfType(init, taskType) + [p];
        assert Tally(OfType(own, taskType)) == Add(Tally(OfType(init, taskType)), TallyOf(p));
        ScoreOnlyAdds(Tally(OfType(init, taskType)), TallyOf(p));
      } else {
        assert OfType(own, taskType) == OfType(init, taskType);
      }
    }
  }

  /** The per-type breakdown splits the associate's tally: counts and scores of
      all types add up to the whole. */
  lemma {:induction false} BreakdownAddsUp(own: seq<TaskPerformance>)
    ensures SumKeys(ByType(own), ByType(own).Keys) == ScoreOnly(Tally(own))
    ensures SumKeys(ByType(own), ByType(own).Keys).tasksRecorded == |own|
  {
    TallyCounts(own);
    if own != [] {
      BreakdownAddsUp(Init(own));
      BumpMovesTotal(ByType(Init(own)), Last(own).taskType, ScoreOnly(TallyOf(Last(own))));
      ScoreOnlyAdds(Tally(Init(own)), TallyOf(Last(own)));
    }
  }

  lemma {:induction false} OfAssociateMembers(rows: seq<TaskPerformance>, associateId: string)
    ensures forall p :: p in OfAssociate(rows, associateId) <==> p in rows && p.associateId == associateId
  {
    if rows != [] {
      assert rows == Init(rows) + [Last(rows)];
      OfAssociateMembers(Init(rows), associateId);
    }
  }

  lemma SameMembers<T>(xs: seq<T>, ys: seq<T>)
    requires multiset(xs) == multiset(ys)
    ensures |xs| == |ys| && forall x :: x in xs <==> x in ys
  {
    assert |xs| == |multiset(xs)| && |ys| == |multiset(ys)|;
    forall x ensures x in xs <==> x in ys { assert x in xs <==> x in multiset(xs); }
  }

  lemma HeadIsNewest(all: seq<TaskPerformance>, p: TaskPerformance)
    requires SortedBy(all, NewerOrEqual) && p in all
    ensures p.completedAt <= all[0].completedAt
  {
    var i :| 0 <= i < |all| && all[i] == p;
    assert i == 0 || NewerOrEqual(all[0], all[i]);
  }

  /** The head of any newest-first window is the greatest recorded completion, so
      the gap's start does not depend on how ties are broken. */
  lemma NewestIsLastCompletion(window: seq<TaskPerformance>, rows: seq<TaskPerformance>, associateId: string)
    requires NewestFirst(window, OfAssociate(rows, associateId), 1)
    ensures window == [] <==> LastCompletion(rows, associateId).None?
    ensures window != [] ==> LastCompletion(rows, associateId) == Some(window[0].completedAt)
  {
    var own := OfAssociate(rows, associateId);
    var all :| multiset(all) == multiset(own) && SortedBy(all, NewerOrEqual) && window == all[..Min(1, |all|)];
    SameMembers(all, own);
    if window != [] {
      NewestOfOwn(all, rows, associateId);
    } else {
      NoneOfOwn(rows, associateId);
    }
  }

  lemma NewestOfOwn(all: seq<TaskPerformance>, rows: seq<TaskPerformance>, associateId: string)
    requires all != [] && SortedBy(all, NewerOrEqual)
    requires forall p :: p in all <==> p in OfAssociate(rows, associateId)
    ensures LastCompletion(rows, associateId) == Some(all[0].completedAt)
  {
    OfAssociateMembers(rows, associateId);
    LastCompletionIsMaximum(rows, associateId);
    assert all[0] in all;
    var newest :| newest in rows && newest.associateId == associateId && newest.completedAt == LastCompletion(rows, associateId).value;
    HeadIsNewest(all, newest);
  }

  lemma NoneOfOwn(rows: seq<TaskPerformance>, associateId: string)
    requires OfAssociate(rows, associateId) == []
    ensures LastCompletion(rows, associateId).None?
  {
    OfAssociateMembers(rows, associateId);
    LastCompletionIsMaximum(rows, associateId);
  }
}
