/**
 * The six streak helpers of the analytics module: longest, current and
 * average streak, each for daily and for weekly habits.
 *
 * Each helper takes the habit's completions, already projected into the
 * user's timezone, and mirrors the loop of the original. Its postcondition
 * ties the result to the run functions of `Segmenter`; the lemmas below say
 * what those values mean for a habit.
 */
module Analytics {
  import opened Sorting
  import opened Calendar
  import opened Segmenter

  /** `sorted(set(local dates))`. */
  function DistinctDates(completed: seq<LocalInstant>): seq<int> {
    SortedSet(LocalDates(completed), DayRank)
  }

  /** `sorted(set(local (iso_year, iso_week) pairs))`. */
  function DistinctWeeks(completed: seq<LocalInstant>): seq<Week> {
    SortedSet(LocalWeeks(completed), WeekRank)
  }

  /** The current daily streak: 0 unless the last completion falls on today's
      local date; otherwise the backward walk over consecutive dates, which
      steps over repeated dates. */
  function DailyCurrent(completed: seq<LocalInstant>, now: LocalInstant): nat {
    if completed == [] || completed[|completed| - 1].date != now.date then 0
    else TrailingRunSkippingRepeats(LocalDates(completed), DayAdjacent)
  }

  /** The current weekly streak: 0 unless the last completion falls in this
      local ISO week; otherwise the backward walk over consecutive weeks, which
      stops at a repeated week. */
  function WeeklyCurrent(completed: seq<LocalInstant>, now: LocalInstant): nat {
    if completed == [] || completed[|completed| - 1].week != now.week then 0
    else TrailingRun(LocalWeeks(completed), WeekAdjacent)
  }

  lemma SortedSetNonEmpty<K>(s: seq<K>, rank: K -> int)
    requires s != []
    ensures SortedSet(s, rank) != []
  {
  }

  method LongestDailyStreak(completed: seq<LocalInstant>) returns (longest: nat)
    ensures longest == Longest(DistinctDates(completed), DayAdjacent)
  {
    if completed == [] {
      return 0;
    }
    var localDates := DistinctDates(completed);
    SortedSetNonEmpty(LocalDates(completed), DayRank);
    assert RunLengths(localDates[..1], DayAdjacent) == [1] && [1][..0] == [];
    longest := 1;
    var current := 1;
    for i := 1 to |localDates|
      invariant current == LastRun(localDates[..i], DayAdjacent)
      invariant longest == Longest(localDates[..i], DayAdjacent)
      invariant 1 <= current <= longest
    {
      LastRunStep(localDates, DayAdjacent, i);
      LongestRunStep(localDates, DayAdjacent, i);
      if localDates[i] - localDates[i - 1] == 1 {
        current := current + 1;
        longest := Max(longest, current);
      } else {
        current := 1;
      }
    }
    assert localDates[..|localDates|] == localDates;
  }

  method LongestWeeklyStreak(completed: seq<LocalInstant>) returns (longest: nat)
    ensures longest == Longest(DistinctWeeks(completed), WeekAdjacent)
  {
    if completed == [] {
      return 0;
    }
    var localWeeks := DistinctWeeks(completed);
    SortedSetNonEmpty(LocalWeeks(completed), WeekRank);
    assert RunLengths(localWeeks[..1], WeekAdjacent) == [1] && [1][..0] == [];
    longest := 1;
    var current := 1;
    for i := 1 to |localWeeks|
      invariant current == LastRun(localWeeks[..i], WeekAdjacent)
      invariant longest == Longest(localWeeks[..i], WeekAdjacent)
      invariant 1 <= current <= longest
    {
      LastRunStep(localWeeks, WeekAdjacent, i);
      LongestRunStep(localWeeks, WeekAdjacent, i);
      var prev, curr := localWeeks[i - 1], localWeeks[i];
      if (curr.year == prev.year && curr.week == prev.week + 1)
         || (curr.year == prev.year + 1 && prev.week == 52 && curr.week == 1)
      {
        current := current + 1;
        longest := Max(longest, current);
      } else {
        current := 1;
      }
    }
    assert localWeeks[..|localWeeks|] == localWeeks;
  }

  method CurrentDailyStreak(completed: seq<LocalInstant>, now: LocalInstant) returns (streak: nat)
    ensures streak == DailyCurrent(completed, now)
  {
    if completed == [] {
      return 0;
    }
    var localDates := LocalDates(completed);
    var today := now.date;
    if localDates[|localDates| - 1] != today {
      return 0;
    }
    ghost var whole := TrailingRunSkippingRepeats(localDates, DayAdjacent);
    assert localDates[..|localDates|] == localDates;
    streak := 1;
    for i := |localDates| downto 1
      invariant streak - 1 + TrailingRunSkippingRepeats(localDates[..i], DayAdjacent) == whole
    {
      assert localDates[..i + 1][..i] == localDates[..i];
      if localDates[i] - localDates[i - 1] == 1 {
        streak := streak + 1;
      } else if localDates[i] == localDates[i - 1] {
        continue;
      } else {
        break;
      }
    }
  }

  method CurrentWeeklyStreak(completed: seq<LocalInstant>, now: LocalInstant) returns (streak: nat)
    ensures streak == WeeklyCurrent(completed, now)
  {
    if completed == [] {
      return 0;
    }
    var localWeeks := LocalWeeks(completed);
    var currentWeek := now.week;
    if localWeeks[|localWeeks| - 1] != currentWeek {
      return 0;
    }
    ghost var whole := TrailingRun(localWeeks, WeekAdjacent);
    assert localWeeks[..|localWeeks|] == localWeeks;
    streak := 1;
    for i := |localWeeks| downto 1
      invariant streak - 1 + TrailingRun(localWeeks[..i], WeekAdjacent) == whole
    {
      assert localWeeks[..i + 1][..i] == localWeeks[..i];
      var prev, curr := localWeeks[i - 1], localWeeks[i];
      if (curr.year == prev.year && curr.week - prev.week == 1)
         || (curr.year - prev.year == 1 && prev.week == 52 && curr.week == 1)
      {
        streak := streak + 1;
      } else {
        break;
      }
    }
  }

  method AverageDailyStreak(completed: seq<LocalInstant>) returns (average: real)
    ensures average == MeanRunLength(DistinctDates(completed), DayAdjacent)
  {
    if completed == [] {
      return 0.0;
    }
    var localDates := DistinctDates(completed);
    SortedSetNonEmpty(LocalDates(completed), DayRank);
    assert RunLengths(localDates[..1], DayAdjacent) == [1];
    var streaks: seq<nat> := [];
    var current := 1;
    for i := 1 to |localDates|
      invariant streaks + [current] == RunLengths(localDates[..i], DayAdjacent)
    {
      StreaksStep(localDates, DayAdjacent, i, streaks, current);
      if localDates[i] - localDates[i - 1] == 1 {
        current := current + 1;
      } else {
        streaks := streaks + [current];
        current := 1;
      }
    }
    streaks := streaks + [current];
    assert localDates[..|localDates|] == localDates;
    average := Sum(streaks) as real / |streaks| as real;
  }

  method AverageWeeklyStreak(completed: seq<LocalInstant>) returns (average: real)
    ensures average == MeanRunLength(DistinctWeeks(completed), WeekAdjacent)
  {
    if completed == [] {
      return 0.0;
    }
    var localWeeks := DistinctWeeks(completed);
    SortedSetNonEmpty(LocalWeeks(completed), WeekRank);
    assert RunLengths(localWeeks[..1], WeekAdjacent) == [1];
    var streaks: seq<nat> := [];
    var current := 1;
    for i := 1 to |localWeeks|
      invariant streaks + [current] == RunLengths(localWeeks[..i], WeekAdjacent)
    {
      StreaksStep(localWeeks, WeekAdjacent, i, streaks, current);
      var prev, curr := localWeeks[i - 1], localWeeks[i];
      if (curr.year == prev.year && curr.week - prev.week == 1)
         || (curr.year - prev.year == 1 && prev.week == 52 && curr.week == 1)
      {
        current := current + 1;
      } else {
        streaks := streaks + [current];
        current := 1;
      }
    }
    streaks := streaks + [current];
    assert localWeeks[..|localWeeks|] == localWeeks;
    average := Sum(streaks) as real / |streaks| as real;
  }

  /** Every local date from `start` for `len` days has a completion. */
  ghost predicate EveryDayDone(days: set<int>, start: int, len: nat) {
    forall d :: start <= d < start + len ==> d in days
  }

  /** The longest and the average daily streak depend only on the set of
      local dates: reordering completions or completing twice on one day
      changes neither (the effect of `sorted(set(...))`). */
  lemma DailyStreaksIgnoreOrderAndRepeats(a: seq<LocalInstant>, b: seq<LocalInstant>)
    requires Elements(LocalDates(a)) == Elements(LocalDates(b))
    ensures Longest(DistinctDates(a), DayAdjacent) == Longest(DistinctDates(b), DayAdjacent)
    ensures MeanRunLength(DistinctDates(a), DayAdjacent) == MeanRunLength(DistinctDates(b), DayAdjacent)
  {
    DayRankInjective();
    SortedSetOnlyDependsOnElements(LocalDates(a), LocalDates(b), DayRank);
  }

  /** The same for weekly habits and the set of local ISO weeks. */
  lemma WeeklyStreaksIgnoreOrderAndRepeats(a: seq<LocalInstant>, b: seq<LocalInstant>)
    requires Elements(LocalWeeks(a)) == Elements(LocalWeeks(b))
    ensures Longest(DistinctWeeks(a), WeekAdjacent) == Longest(DistinctWeeks(b), WeekAdjacent)
    ensures MeanRunLength(DistinctWeeks(a), WeekAdjacent) == MeanRunLength(DistinctWeeks(b), WeekAdjacent)
  {
    WeekRankInjective();
    SortedSetOnlyDependsOnElements(LocalWeeks(a), LocalWeeks(b), WeekRank);
  }

  /** With at least one completion, the longest daily streak is at least 1
      and at most the number of distinct local dates, and it is the length of
      the longest block of consecutive calendar days that all have a
      completion. */
  lemma LongestDailyIsLongestBlockOfDays(completed: seq<LocalInstant>)
    requires completed != []
    ensures 1 <= Longest(DistinctDates(completed), DayAdjacent) <= |Elements(LocalDates(completed))|
    ensures exists start :: EveryDayDone(Elements(LocalDates(completed)), start, Longest(DistinctDates(completed), DayAdjacent))
    ensures forall start: int, len: nat :: EveryDayDone(Elements(LocalDates(completed)), start, len) ==> len <= Longest(DistinctDates(completed), DayAdjacent)
  {
    var s := DistinctDates(completed);
    var days := Elements(LocalDates(completed));
    var longest := Longest(s, DayAdjacent);
    DayRankInjective();
    SortedSetSpec(LocalDates(completed), DayRank);
    SortedSetNonEmpty(LocalDates(completed), DayRank);
    LongestBounds(s, DayAdjacent);
    LongestChainExists(s, DayAdjacent);
    var i, j :| Chain(s, DayAdjacent, i, j) && j - i == longest;
    DayChainCounts(s, i, j);
    assert EveryDayDone(days, s[i], longest) by {
      forall d | s[i] <= d < s[i] + longest ensures d in days {
        assert s[i + (d - s[i])] == d;
      }
    }
    forall start: int, len: nat | EveryDayDone(days, start, len) ensures len <= longest {
      if len > 0 {
        assert start in Elements(s);
        var k :| 0 <= k < |s| && s[k] == start;
        ConsecutiveDaysAreAChain(s, k, len);
        ChainAtMostLongest(s, DayAdjacent, k, k + len);
      }
    }
  }

  /** Along a chain of consecutive days, each date is one more than the last. */
  lemma {:induction false} DayChainCounts(s: seq<int>, i: int, j: int)
    requires Chain(s, DayAdjacent, i, j)
    ensures forall t :: i <= t < j ==> s[t] == s[i] + (t - i)
    decreases j
  {
    if j - 1 > i {
      DayChainCounts(s, i, j - 1);
      assert DayAdjacent(s[j - 2], s[j - 1]);
    }
  }

  /** In ascending distinct dates, a block of consecutive days that starts at
      position `k` occupies the positions right after it. */
  lemma {:induction false} ConsecutiveDaysAreAChain(s: seq<int>, k: nat, len: nat)
    requires Increasing(s, DayRank)
    requires k < |s| && 1 <= len
    requires forall d :: s[k] <= d < s[k] + len ==> d in Elements(s)
    ensures k + len <= |s|
    ensures Chain(s, DayAdjacent, k, k + len)
  {
    if len > 1 {
      ConsecutiveDaysAreAChain(s, k, len - 1);
      DayChainCounts(s, k, k + len - 1);
      var d := s[k] + len - 1;
      assert d in Elements(s);
      var m :| 0 <= m < |s| && s[m] == d;
      assert s[k + len - 2] == d - 1;
      assert m >= k + len - 1 by {
        assert forall t :: 0 <= t <= k + len - 2 ==> s[t] <= s[k + len - 2];
      }
      assert s[k + len - 1] == d by {
        assert s[k + len - 2] < s[k + len - 1] <= s[m];
      }
    }
  }

  /** For completions in chronological order (so their local dates never go
      back), the current daily streak is the length of the last run of the
      distinct dates when the last completion is today, and 0 otherwise;
      hence it never exceeds the longest streak, and a completion today
      makes it at least 1. */
  lemma CurrentDailyIsFinalRun(completed: seq<LocalInstant>, now: LocalInstant)
    requires NonDecreasing(LocalDates(completed), DayRank)
    ensures DailyCurrent(completed, now) ==
            if completed == [] || completed[|completed| - 1].date != now.date then 0
            else LastRun(DistinctDates(completed), DayAdjacent)
    ensures DailyCurrent(completed, now) <= Longest(DistinctDates(completed), DayAdjacent)
    ensures completed != [] && completed[|completed| - 1].date == now.date ==> 1 <= DailyCurrent(completed, now)
  {
    if completed != [] && completed[|completed| - 1].date == now.date {
      var dates := LocalDates(completed);
      DayRankInjective();
      SkippingRepeatsIsCompressedTrail(dates, DayAdjacent);
      CompressIsSortedSet(dates, DayRank);
      SortedSetNonEmpty(dates, DayRank);
      TrailingRunIsLastRun(DistinctDates(completed), DayAdjacent);
      TrailingRunIsMaximalChain(DistinctDates(completed), DayAdjacent);
      LongestBounds(DistinctDates(completed), DayAdjacent);
    }
  }

  /** For completions in chronological order, the current weekly streak never
      exceeds the longest weekly streak, and a completion this week makes it
      at least 1. */
  lemma CurrentWeeklyAtMostLongest(completed: seq<LocalInstant>, now: LocalInstant)
    requires NonDecreasing(LocalWeeks(completed), WeekRank)
    ensures WeeklyCurrent(completed, now) <= Longest(DistinctWeeks(completed), WeekAdjacent)
    ensures completed != [] && completed[|completed| - 1].week == now.week ==> 1 <= WeeklyCurrent(completed, now)
  {
    if completed != [] && completed[|completed| - 1].week == now.week {
      var weeks := LocalWeeks(completed);
      WeekRankInjective();
      TrailingRunAtMostCompressed(weeks, WeekAdjacent);
      CompressIsSortedSet(weeks, WeekRank);
      SortedSetNonEmpty(weeks, WeekRank);
      LongestBounds(DistinctWeeks(completed), WeekAdjacent);
    }
  }

  /** With at most one completion per local ISO week, in chronological order,
      the current weekly streak is the length of the last run of weeks when
      the last completion is this week, and 0 otherwise. */
  lemma CurrentWeeklyIsFinalRunWithoutRepeats(completed: seq<LocalInstant>, now: LocalInstant)
    requires Increasing(LocalWeeks(completed), WeekRank)
    ensures WeeklyCurrent(completed, now) ==
            if completed == [] || completed[|completed| - 1].week != now.week then 0
            else LastRun(DistinctWeeks(completed), WeekAdjacent)
  {
    var weeks := LocalWeeks(completed);
    WeekRankInjective();
    SortedSetSpec(weeks, WeekRank);
    IncreasingUnique(weeks, DistinctWeeks(completed), WeekRank);
    TrailingRunIsLastRun(weeks, WeekAdjacent);
  }

  /** A second completion in the current week is not stepped over: it ends
      the backward walk, so the current weekly streak is 1 however many
      consecutive weeks came before. */
  lemma RepeatedWeekStopsCurrentAtOne(completed: seq<LocalInstant>, now: LocalInstant)
    requires |completed| >= 2
    requires completed[|completed| - 1].week == completed[|completed| - 2].week == now.week
    ensures WeeklyCurrent(completed, now) == 1
  {
  }

  /** A repeated date is stepped over by the daily walk: completing twice on
      the last day leaves the current daily streak as it was. */
  lemma RepeatedDateIsSkipped(completed: seq<LocalInstant>, now: LocalInstant)
    requires |completed| >= 2
    requires completed[|completed| - 1].date == completed[|completed| - 2].date
    ensures DailyCurrent(completed, now) == DailyCurrent(completed[..|completed| - 1], now)
  {
    var n := |completed|;
    assert LocalDates(completed)[..n - 1] == LocalDates(completed[..n - 1]);
  }

  /** 2025-04-01, 2025-04-02 and 2025-04-04 (day ordinals 739342, 739343 and
      739345, all in ISO week 14 of 2025): runs of 2 and 1 days, so the
      longest daily streak is 2. */
  lemma LongestDailyExample()
    ensures var c := [LocalInstant(739342, Week(2025, 14)), LocalInstant(739343, Week(2025, 14)),
                      LocalInstant(739345, Week(2025, 14))];
            RunLengths(DistinctDates(c), DayAdjacent) == [2, 1]
            && Longest(DistinctDates(c), DayAdjacent) == 2
  {
    var c := [LocalInstant(739342, Week(2025, 14)), LocalInstant(739343, Week(2025, 14)),
              LocalInstant(739345, Week(2025, 14))];
    var s := [739342, 739343, 739345];
    DistinctDatesOfAscending(c, s);
    RunsOfThree(s, DayAdjacent);
    assert [2, 1][..1] == [2] && [2][..0] == [];
  }

  /** 2025-04-01, 2025-04-02 and 2025-04-05 (ordinal 739346): runs of 2 and 1
      days, so the average daily streak is (2 + 1) / 2 = 1.5. */
  lemma AverageDailyExample()
    ensures var c := [LocalInstant(739342, Week(2025, 14)), LocalInstant(739343, Week(2025, 14)),
                      LocalInstant(739346, Week(2025, 14))];
            MeanRunLength(DistinctDates(c), DayAdjacent) == 1.5
  {
    var c := [LocalInstant(739342, Week(2025, 14)), LocalInstant(739343, Week(2025, 14)),
              LocalInstant(739346, Week(2025, 14))];
    var s := [739342, 739343, 739346];
    DistinctDatesOfAscending(c, s);
    RunsOfThree(s, DayAdjacent);
    assert [2, 1][..1] == [2] && [2][..0] == [];
  }

  /** Completions on 2025-04-01, 2025-04-08 and 2025-04-15 fall in ISO weeks
      14, 15 and 16 of 2025: one run of three weeks, so the longest weekly
      streak is 3 and the average is 3.0. */
  lemma WeeklyExample()
    ensures var c := [LocalInstant(739342, Week(2025, 14)), LocalInstant(739349, Week(2025, 15)),
                      LocalInstant(739356, Week(2025, 16))];
            RunLengths(DistinctWeeks(c), WeekAdjacent) == [3]
            && Longest(DistinctWeeks(c), WeekAdjacent) == 3
            && MeanRunLength(DistinctWeeks(c), WeekAdjacent) == 3.0
  {
    var c := [LocalInstant(739342, Week(2025, 14)), LocalInstant(739349, Week(2025, 15)),
              LocalInstant(739356, Week(2025, 16))];
    var w := [Week(2025, 14), Week(2025, 15), Week(2025, 16)];
    DistinctWeeksOfAscending(c, w);
    RunsOfThree(w, WeekAdjacent);
    assert [3][..0] == [];
  }

  /** Across a year boundary the week rule links week 52 to week 1: 2019 has
      52 ISO weeks, and 2019-12-30 (ordinal 737423) begins week 1 of 2020. */
  lemma WeekOneAfterWeek52Example()
    ensures var c := [LocalInstant(737422, Week(2019, 52)), LocalInstant(737423, Week(2020, 1))];
            RunLengths(DistinctWeeks(c), WeekAdjacent) == [2]
  {
    var c := [LocalInstant(737422, Week(2019, 52)), LocalInstant(737423, Week(2020, 1))];
    var w := [Week(2019, 52), Week(2020, 1)];
    DistinctWeeksOfAscending(c, w);
    assert w[..1] == [Week(2019, 52)];
  }

  /** The week rule never links week 53 to week 1: 2020 has 53 ISO weeks,
      and 2021-01-04 (ordinal 737794) begins week 1 of 2021, yet the two
      weeks form two runs. */
  lemma WeekOneAfterWeek53Example()
    ensures var c := [LocalInstant(737793, Week(2020, 53)), LocalInstant(737794, Week(2021, 1))];
            RunLengths(DistinctWeeks(c), WeekAdjacent) == [1, 1]
  {
    var c := [LocalInstant(737793, Week(2020, 53)), LocalInstant(737794, Week(2021, 1))];
    var w := [Week(2020, 53), Week(2021, 1)];
    DistinctWeeksOfAscending(c, w);
    assert w[..1] == [Week(2020, 53)];
  }

  lemma DistinctDatesOfAscending(c: seq<LocalInstant>, s: seq<int>)
    requires |c| == |s| && forall i :: 0 <= i < |c| ==> c[i].date == s[i]
    requires forall i :: 0 < i < |s| ==> s[i - 1] < s[i]
    ensures DistinctDates(c) == s
  {
    assert LocalDates(c) == s;
    DayRankInjective();
    AscendingNeighbours(s, DayRank);
    SortedSetOfIncreasing(s, DayRank);
  }

  lemma DistinctWeeksOfAscending(c: seq<LocalInstant>, w: seq<Week>)
    requires |c| == |w| && forall i :: 0 <= i < |c| ==> c[i].week == w[i]
    requires forall i :: 0 < i < |w| ==> WeekRank(w[i - 1]) < WeekRank(w[i])
    ensures DistinctWeeks(c) == w
  {
    assert LocalWeeks(c) == w;
    WeekRankInjective();
    AscendingNeighbours(w, WeekRank);
    SortedSetOfIncreasing(w, WeekRank);
  }

  /** The runs of three keys, spelled out from the two adjacency tests. */
  lemma RunsOfThree<K>(s: seq<K>, adj: (K, K) -> bool)
    requires |s| == 3
    ensures RunLengths(s, adj) ==
            if adj(s[0], s[1]) && adj(s[1], s[2]) then [3]
            else if adj(s[0], s[1]) then [2, 1]
            else if adj(s[1], s[2]) then [1, 2]
            else [1, 1, 1]
  {
    assert s[..2][..1] == s[..1];
    assert RunLengths(s[..1], adj) == [1];
  }
}
