/** Trend and coaching signals over an associate's most recent rows. */
module Scorecards {
  import opened Base
  import opened Performance
  import opened Sums
  import opened Sorting
  import opened History
  import opened MemoryRepos

  const RECENT_WINDOW_SIZE := 10
  const MIN_SCORED_FOR_TREND := 3
  const TREND_THRESHOLD_PCT := 5.0
  const COACHING_CONSECUTIVE_THRESHOLD := 3
  const COACHING_EFFICIENCY_FLOOR := 85.0

  datatype TrendDirection = Improving | Declining | Stable | InsufficientData

  datatype Error = AssociateNotFound

  datatype AssociateScorecard = AssociateScorecard(stored: Scorecard, trend: TrendDirection, coachingFlag: bool)

  function ClassifyTrend(recentMean: Option<real>, baselineMean: Option<real>, recentScoredCount: int): TrendDirection {
    if recentMean.None? || baselineMean.None? || recentScoredCount < MIN_SCORED_FOR_TREND then InsufficientData
    else
      var diff := recentMean.value - baselineMean.value;
      if diff >= TREND_THRESHOLD_PCT then Improving
      else if diff <= -TREND_THRESHOLD_PCT then Declining
      else Stable
  }

  method DetectCoachingFlag(chronological: seq<real>) returns (flag: bool)
    ensures flag <==>
            |chronological| >= COACHING_CONSECUTIVE_THRESHOLD &&
            forall i :: |chronological| - COACHING_CONSECUTIVE_THRESHOLD <= i < |chronological| ==>
              chronological[i] < COACHING_EFFICIENCY_FLOOR
  {
    var n := |chronological|;
    if n < COACHING_CONSECUTIVE_THRESHOLD {
      return false;
    }
    for i := n - COACHING_CONSECUTIVE_THRESHOLD to n
      invariant forall j :: n - COACHING_CONSECUTIVE_THRESHOLD <= j < i ==> chronological[j] < COACHING_EFFICIENCY_FLOOR
    {
      if chronological[i] >= COACHING_EFFICIENCY_FLOOR {
        return false;
      }
    }
    return true;
  }

  /** The scores of a newest-first window, newest first. */
  function ScoresNewestFirst(recent: seq<TaskPerformance>): seq<real> {
    if recent == [] then []
    else if recent[0].efficiencyPct.Some? then [recent[0].efficiencyPct.value] + ScoresNewestFirst(recent[1..])
    else ScoresNewestFirst(recent[1..])
  }

  /** The same scores, oldest first. */
  function ScoresOldestFirst(recent: seq<TaskPerformance>): seq<real> {
    if recent == [] then []
    else if recent[0].efficiencyPct.Some? then ScoresOldestFirst(recent[1..]) + [recent[0].efficiencyPct.value]
    else ScoresOldestFirst(recent[1..])
  }

  lemma {:induction false} ScoresReversed(recent: seq<TaskPerformance>, k: nat)
    ensures |ScoresOldestFirst(recent)| == |ScoresNewestFirst(recent)|
    ensures k < |ScoresNewestFirst(recent)| ==>
              ScoresOldestFirst(recent)[|ScoresOldestFirst(recent)| - 1 - k] == ScoresNewestFirst(recent)[k]
  {
    if recent != [] {
      if recent[0].efficiencyPct.None? {
        ScoresReversed(recent[1..], k);
      } else {
        ScoresReversed(recent[1..], if k == 0 then 0 else k - 1);
      }
    }
  }

  function SumOf(xs: seq<real>): real {
    if xs == [] then 0.0 else SumOf(Init(xs)) + Last(xs)
  }

  /** The window's scores add up to its tally. */
  lemma {:induction false} ScoresTally(recent: seq<TaskPerformance>)
    ensures SumOf(ScoresOldestFirst(recent)) == Tally(recent).efficiencyPctSum
    ensures |ScoresOldestFirst(recent)| == Tally(recent).tasksScored
  {
    if recent != [] {
      ScoresTally(recent[1..]);
      assert recent == [recent[0]] + recent[1..];
      TallyConcat([recent[0]], recent[1..]);
      TallyAppend([], recent[0]);
      assert [] + [recent[0]] == [recent[0]];
      if recent[0].efficiencyPct.Some? {
        AppendParts(ScoresOldestFirst(recent[1..]), recent[0].efficiencyPct.value);
      } else {
        assert ScoresOldestFirst(recent) == ScoresOldestFirst(recent[1..]);
      }
    }
  }

  function RecentMean(recent: seq<TaskPerformance>): Option<real> {
    Mean(SumOf(ScoresOldestFirst(recent)), |ScoresOldestFirst(recent)|)
  }

  ghost predicate CoachingDue(recent: seq<TaskPerformance>) {
    var newest := ScoresNewestFirst(recent);
    |newest| >= 3 && newest[0] < 85.0 && newest[1] < 85.0 && newest[2] < 85.0
  }

  lemma CoachingReadsNewest(recent: seq<TaskPerformance>)
    ensures var chronological := ScoresOldestFirst(recent);
            && |chronological| == |ScoresNewestFirst(recent)|
            && (CoachingDue(recent) <==>
                  |chronological| >= COACHING_CONSECUTIVE_THRESHOLD &&
                  forall i :: |chronological| - COACHING_CONSECUTIVE_THRESHOLD <= i < |chronological| ==>
                    chronological[i] < COACHING_EFFICIENCY_FLOOR)
  {
    ScoresReversed(recent, 0);
    ScoresReversed(recent, 1);
    ScoresReversed(recent, 2);
  }

  // --- What the two signals mean ------------------------------------------------------

  /** A trend is called from three scores on, when their mean lies five points or more from
      the baseline, on the side it lies. */
  predicate CallsTrend(trend: TrendDirection, sum: real, n: nat, baseline: Option<real>) {
    && (trend == Improving <==> n >= 3 && baseline.Some? && sum >= (baseline.value + 5.0) * n as real)
    && (trend == Declining <==> n >= 3 && baseline.Some? && sum <= (baseline.value - 5.0) * n as real)
    && (trend == InsufficientData <==> n < 3 || baseline.None?)
  }

  ghost predicate TrendTells(trend: TrendDirection, window: seq<TaskPerformance>, baseline: Option<real>) {
    CallsTrend(trend, Tally(window).efficiencyPctSum, |ScoredRows(window)|, baseline)
  }

  lemma MeanAgainst(sum: real, n: nat, mean: real, bound: real)
    requires n > 0 && mean * n as real == sum
    ensures mean >= bound <==> sum >= bound * n as real
    ensures mean <= bound <==> sum <= bound * n as real
  {
    var d := mean - bound;
    assert sum - bound * n as real == d * n as real;
  }

  lemma TrendOfMean(sum: real, n: nat, baseline: Option<real>)
    ensures CallsTrend(ClassifyTrend(Mean(sum, n), baseline, n), sum, n, baseline)
  {
    if n > 0 && baseline.Some? {
      MeanAgainst(sum, n, Mean(sum, n).value, baseline.value + 5.0);
      MeanAgainst(sum, n, Mean(sum, n).value, baseline.value - 5.0);
    }
  }

  lemma TrendIsCalled(window: seq<TaskPerformance>, baseline: Option<real>)
    ensures TrendTells(ClassifyTrend(RecentMean(window), baseline, |ScoresNewestFirst(window)|), window, baseline)
  {
    ScoresTally(window);
    ScoresReversed(window, 0);
    TallyIsOverRows(window);
    var sum, n := Tally(window).efficiencyPctSum, |ScoredRows(window)|;
    assert RecentMean(window) == Mean(sum, n);
    TrendOfMean(sum, n, baseline);
  }

  predicate BelowFloor(p: TaskPerformance) {
    p.efficiencyPct.Some? && p.efficiencyPct.value < 85.0
  }

  ghost predicate NoneBefore(rows: seq<TaskPerformance>, n: nat) {
    n <= |rows| && forall m :: 0 <= m < n ==> rows[m].efficiencyPct.None?
  }

  /** The rows at i, j and k are the first three scored ones of the window, and all are
      below the floor. */
  ghost predicate ThreeBelow(window: seq<TaskPerformance>, i: nat, j: nat, k: nat) {
    && i < j < k < |window|
    && BelowFloor(window[i]) && BelowFloor(window[j]) && BelowFloor(window[k])
    && forall m :: 0 <= m < k && m != i && m != j ==> window[m].efficiencyPct.None?
  }

  lemma {:induction false} FirstScored(recent: seq<TaskPerformance>) returns (i: nat)
    requires ScoresNewestFirst(recent) != []
    ensures i < |recent| && recent[i].efficiencyPct == Some(ScoresNewestFirst(recent)[0])
    ensures NoneBefore(recent, i)
    ensures ScoresNewestFirst(recent[i + 1..]) == ScoresNewestFirst(recent)[1..]
  {
    if recent[0].efficiencyPct.Some? {
      i := 0;
    } else {
      var k := FirstScored(recent[1..]);
      i := k + 1;
      assert recent[1..][k + 1..] == recent[i + 1..];
      forall m | 0 <= m < i ensures recent[m].efficiencyPct.None? {
        if m > 0 { assert recent[1..][m - 1] == recent[m]; }
      }
    }
  }

  /** The first scored row's score comes first, the rest follow. */
  lemma {:induction false} ScoredHead(recent: seq<TaskPerformance>, i: nat)
    requires i < |recent| && recent[i].efficiencyPct.Some? && NoneBefore(recent, i)
    ensures ScoresNewestFirst(recent) != [] && ScoresNewestFirst(recent)[0] == recent[i].efficiencyPct.value
    ensures ScoresNewestFirst(recent[i + 1..]) == ScoresNewestFirst(recent)[1..]
  {
    if i > 0 {
      var rest := recent[1..];
      assert forall m :: 0 <= m < i - 1 ==> rest[m] == recent[m + 1];
      ScoredHead(rest, i - 1);
      assert rest[i..] == recent[i + 1..];
    }
  }

  /** Up to three scored rows, each counted from the one before. */
  lemma StepsAreThree(window: seq<TaskPerformance>, i: nat, j: nat, k: nat)
    requires i + j + k + 2 < |window|
    requires NoneBefore(window, i) && NoneBefore(window[i + 1..], j) && NoneBefore(window[i + j + 2..], k)
    ensures forall m :: 0 <= m < i + j + k + 2 && m != i && m != i + j + 1 ==> window[m].efficiencyPct.None?
  {
    forall m | 0 <= m < i + j + k + 2 && m != i && m != i + j + 1 ensures window[m].efficiencyPct.None? {
      if i < m < i + j + 1 {
        assert window[m] == window[i + 1..][m - i - 1];
      } else if i + j + 1 < m {
        assert window[m] == window[i + j + 2..][m - i - j - 2];
      }
    }
  }

  lemma ThreeAreSteps(window: seq<TaskPerformance>, i: nat, j: nat, k: nat)
    requires ThreeBelow(window, i, j, k)
    ensures CoachingDue(window)
  {
    var afterI, afterJ := window[i + 1..], window[j + 1..];
    ScoredHead(window, i);
    assert afterI[j - i - 1] == window[j] && afterJ[k - j - 1] == window[k];
    forall m | 0 <= m < j - i - 1 ensures afterI[m].efficiencyPct.None? { assert afterI[m] == window[i + 1 + m]; }
    ScoredHead(afterI, j - i - 1);
    assert afterI[j - i..] == afterJ;
    forall m | 0 <= m < k - j - 1 ensures afterJ[m].efficiencyPct.None? { assert afterJ[m] == window[j + 1 + m]; }
    ScoredHead(afterJ, k - j - 1);
  }

  lemma DueHasThree(window: seq<TaskPerformance>) returns (i: nat, j: nat, k: nat)
    requires CoachingDue(window)
    ensures ThreeBelow(window, i, j, k)
  {
    i := FirstScored(window);
    var j0 := FirstScored(window[i + 1..]);
    assert window[i + 1..][j0 + 1..] == window[i + j0 + 2..];
    var k0 := FirstScored(window[i + j0 + 2..]);
    StepsAreThree(window, i, j0, k0);
    j, k := i + j0 + 1, i + j0 + k0 + 2;
  }

  /** Coaching is due exactly if the three newest scores exist and are below the floor. */
  lemma {:induction false} CoachingIsDueIff(window: seq<TaskPerformance>)
    ensures CoachingDue(window) <==> exists i: nat, j: nat, k: nat :: ThreeBelow(window, i, j, k)
  {
    if CoachingDue(window) {
      var i, j, k := DueHasThree(window);
    }
    forall i: nat, j: nat, k: nat | ThreeBelow(window, i, j, k) ensures CoachingDue(window) {
      ThreeAreSteps(window, i, j, k);
    }
  }

  /** First loop of `trendAndCoachingFlag`: walk the window backwards, keep the scores. */
  method CollectScores(recentNewestFirst: seq<TaskPerformance>) returns (scored: seq<real>)
    ensures scored == ScoresOldestFirst(recentNewestFirst)
  {
    scored := [];
    var i := |recentNewestFirst| - 1;
    while i >= 0
      invariant -1 <= i < |recentNewestFirst|
      invariant scored == ScoresOldestFirst(recentNewestFirst[i + 1..])
    {
      var pct := recentNewestFirst[i].efficiencyPct;
      assert recentNewestFirst[i..][1..] == recentNewestFirst[i + 1..];
      if pct.Some? {
        scored := scored + [pct.value];
      }
      i := i - 1;
    }
    assert recentNewestFirst[0..] == recentNewestFirst;
  }

  /** Second loop: their mean, if there is one. */
  method MeanOf(scored: seq<real>) returns (recentMean: Option<real>)
    ensures recentMean == Mean(SumOf(scored), |scored|)
  {
    if |scored| == 0 {
      return None;
    }
    var sum := 0.0;
    for j := 0 to |scored|
      invariant sum == SumOf(scored[..j])
    {
      TakeNext(scored, j);
      sum := sum + scored[j];
    }
    assert scored[..|scored|] == scored;
    recentMean := Mean(sum, |scored|);
  }

  method TrendAndCoachingFlag(recentNewestFirst: seq<TaskPerformance>, baselineMean: Option<real>)
    returns (trend: TrendDirection, flag: bool)
    ensures trend == ClassifyTrend(RecentMean(recentNewestFirst), baselineMean, |ScoresNewestFirst(recentNewestFirst)|)
    ensures flag <==> CoachingDue(recentNewestFirst)
    ensures TrendTells(trend, recentNewestFirst, baselineMean)
    ensures flag <==> exists i: nat, j: nat, k: nat :: ThreeBelow(recentNewestFirst, i, j, k)
  {
    TrendIsCalled(recentNewestFirst, baselineMean);
    CoachingIsDueIff(recentNewestFirst);
    var scored := CollectScores(recentNewestFirst);
    var recentMean := MeanOf(scored);
    CoachingReadsNewest(recentNewestFirst);
    trend := ClassifyTrend(recentMean, baselineMean, |scored|);
    flag := DetectCoachingFlag(scored);
  }

  method GetAssociateScorecard(repo: PerformanceRepo, associateId: string) returns (r: Result<AssociateScorecard, Error>)
    ensures var own := OfAssociate(repo.byTID, associateId);
            && (r.Err? <==> associateId == "" || own == [])
            && (r.Ok? ==>
                  && IsScorecard(r.value.stored, own)
                  && r.value.stored.associateId == associateId
                  && exists window :: NewestFirst(window, own, 10)
                       && TrendTells(r.value.trend, window, r.value.stored.meanEfficiencyPct)
                       && (r.value.coachingFlag <==> exists i: nat, j: nat, k: nat :: ThreeBelow(window, i, j, k))
                       && r.value.trend == ClassifyTrend(RecentMean(window), r.value.stored.meanEfficiencyPct, |ScoresNewestFirst(window)|)
                       && (r.value.coachingFlag <==> CoachingDue(window)))
  {
    if associateId == "" {
      return Err(AssociateNotFound);
    }
    var found := repo.ExistsByAssociateID(associateId);
    if !found {
      return Err(AssociateNotFound);
    }
    var sc := repo.ScorecardFor(associateId);
    var recent := repo.RecentByAssociateID(associateId, RECENT_WINDOW_SIZE);
    var trend, flag := TrendAndCoachingFlag(recent, sc.meanEfficiencyPct);
    return Ok(AssociateScorecard(sc, trend, flag));
  }

  /** While the window still holds the whole history, the recent mean is the
      baseline: an associate with at most ten rows is never called a trend,
      however ties in completion time are broken. */
  lemma {:induction false} ShortHistoryIsNeverATrend(own: seq<TaskPerformance>, window: seq<TaskPerformance>)
    requires NewestFirst(window, own, RECENT_WINDOW_SIZE)
    requires |own| <= RECENT_WINDOW_SIZE
    ensures var baseline := Mean(Tally(own).efficiencyPctSum, Tally(own).tasksScored);
            ClassifyTrend(RecentMean(window), baseline, |ScoresNewestFirst(window)|) ==
            if Tally(own).tasksScored >= MIN_SCORED_FOR_TREND then Stable else InsufficientData
  {
    var all :| multiset(all) == multiset(own) && SortedBy(all, NewerOrEqual) && window == all[..Min(RECENT_WINDOW_SIZE, |all|)];
    assert |all| == |multiset(all)| == |multiset(own)| == |own|;
    assert window == all;
    TallyIsOrderFree(window, own);
    ScoresTally(window);
    ScoresReversed(window, 0);
  }

  lemma LeftOutIsLater(all: seq<TaskPerformance>, cut: nat, q: TaskPerformance)
    requires cut <= |all| && multiset(all[..cut])[q] < multiset(all)[q]
    ensures q in all[cut..]
  {
    assert all == all[..cut] + all[cut..];
    assert multiset(all[cut..])[q] > 0;
  }

  /** The coaching rule reads the genuinely most recent scores: every scored row
      left out of the window is no newer than any row in it. */
  lemma WindowIsMostRecent(own: seq<TaskPerformance>, window: seq<TaskPerformance>, limit: nat, p: TaskPerformance, q: TaskPerformance)
    requires NewestFirst(window, own, limit)
    requires p in window && q in own && multiset(window)[q] < multiset(own)[q]
    ensures q.completedAt <= p.completedAt
  {
    var all :| multiset(all) == multiset(own) && SortedBy(all, NewerOrEqual) && window == all[..Min(limit, |all|)];
    var cut := Min(limit, |all|);
    LeftOutIsLater(all, cut, q);
    var j :| cut <= j < |all| && all[j] == q;
    var i :| 0 <= i < |window| && window[i] == p;
    assert NewerOrEqual(all[i], all[j]);
  }
}
