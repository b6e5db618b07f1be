/**
 * The reports built on the streak helpers: the streak report of one habit,
 * the streak columns of the habit listing, and the most and least
 * consistent habit.
 *
 * Fetching habits and their completions from the database is outside this
 * model: a habit arrives here together with its completions, in the order
 * of their completion time, each already seen in the user's timezone.
 */
module Reports {
  import opened Sorting
  import opened Calendar
  import opened Segmenter
  import opened Analytics

  datatype Option<T> = None | Some(value: T)

  /** A habit record. Timestamps are carried through untouched, so they are
      kept as the text the record holds. */
  datatype Habit = Habit(
    id: int,
    name: string,
    description: string,
    frequency: string,
    createdAt: string,
    lastCompletedAt: string)

  /** A habit with its completions in chronological order. */
  datatype Tracked = Tracked(habit: Habit, completed: seq<LocalInstant>)

  /** `[id, name, frequency, created_at, current_streak, longest_streak]`. */
  datatype StreakRow = StreakRow(
    id: int,
    name: string,
    frequency: string,
    createdAt: string,
    current: nat,
    longest: nat)

  /** The `table` of a streak report: a habit without completions gets its
      row as the table itself, any other habit a table holding its row. */
  datatype StreakTable = Flat(row: StreakRow) | Nested(rows: seq<StreakRow>)

  datatype StreakReport = StreakReport(streak: nat, table: StreakTable)

  /** `[id, name, description, frequency, created_at, last_completed_at,
      current_streak, longest_streak]`. */
  datatype ListingRow = ListingRow(
    id: int,
    name: string,
    description: string,
    frequency: string,
    createdAt: string,
    lastCompletedAt: string,
    current: nat,
    longest: nat)

  /** The running minimum starts at `float("inf")`. */
  datatype Bound = Infinity | Finite(value: real)

  /** `{"most_consistent" | "least_consistent": name, "average_streak": value}`. */
  datatype Consistency<V> = Consistency(name: string, average: V)

  /** Only the exact string `"DAILY"` selects the daily helpers; every other
      frequency, whatever it says, selects the weekly ones. */
  predicate IsDaily(frequency: string) {
    frequency == "DAILY"
  }

  function LongestFor(frequency: string, completed: seq<LocalInstant>): nat {
    if IsDaily(frequency) then Longest(DistinctDates(completed), DayAdjacent)
    else Longest(DistinctWeeks(completed), WeekAdjacent)
  }

  function CurrentFor(frequency: string, completed: seq<LocalInstant>, now: LocalInstant): nat {
    if IsDaily(frequency) then DailyCurrent(completed, now) else WeeklyCurrent(completed, now)
  }

  function AverageFor(frequency: string, completed: seq<LocalInstant>): real {
    if IsDaily(frequency) then MeanRunLength(DistinctDates(completed), DayAdjacent)
    else MeanRunLength(DistinctWeeks(completed), WeekAdjacent)
  }

  /** The number of distinct days or distinct weeks with a completion. */
  function DistinctKeys(frequency: string, completed: seq<LocalInstant>): nat {
    if IsDaily(frequency) then |Elements(LocalDates(completed))| else |Elements(LocalWeeks(completed))|
  }

  /** The last completion falls on today (daily) or in this week (weekly). */
  predicate DoneThisPeriod(frequency: string, completed: seq<LocalInstant>, now: LocalInstant) {
    && completed != []
    && if IsDaily(frequency) then completed[|completed| - 1].date == now.date
       else completed[|completed| - 1].week == now.week
  }

  /** Completions in order of time: their local dates and weeks never go back. */
  ghost predicate Chronological(completed: seq<LocalInstant>) {
    NonDecreasing(LocalDates(completed), DayRank) && NonDecreasing(LocalWeeks(completed), WeekRank)
  }

  function Average(t: Tracked): real {
    AverageFor(t.habit.frequency, t.completed)
  }

  /** The average streak of each habit, in order. */
  function Averages(habits: seq<Tracked>): (averages: seq<real>)
    ensures |averages| == |habits|
  {
    if habits == [] then [] else Averages(habits[..|habits| - 1]) + [Average(habits[|habits| - 1])]
  }

  lemma {:induction false} AveragesSpec(habits: seq<Tracked>)
    ensures forall i :: 0 <= i < |habits| ==> Averages(habits)[i] == Average(habits[i])
  {
    if habits != [] {
      var p := habits[..|habits| - 1];
      AveragesSpec(p);
      assert forall i :: 0 <= i < |p| ==> habits[i] == p[i];
    }
  }

  function Below(x: real, b: Bound): bool {
    b.Infinity? || x < b.value
  }

  method LongestStreak(frequency: string, completed: seq<LocalInstant>) returns (longest: nat)
    ensures longest == LongestFor(frequency, completed)
  {
    if IsDaily(frequency) {
      longest := LongestDailyStreak(completed);
    } else {
      longest := LongestWeeklyStreak(completed);
    }
  }

  method CurrentStreak(frequency: string, completed: seq<LocalInstant>, now: LocalInstant) returns (current: nat)
    ensures current == CurrentFor(frequency, completed, now)
  {
    if IsDaily(frequency) {
      current := CurrentDailyStreak(completed, now);
    } else {
      current := CurrentWeeklyStreak(completed, now);
    }
  }

  method AverageStreak(frequency: string, completed: seq<LocalInstant>) returns (average: real)
    ensures average == AverageFor(frequency, completed)
  {
    if IsDaily(frequency) {
      average := AverageDailyStreak(completed);
    } else {
      average := AverageWeeklyStreak(completed);
    }
  }

  /** The streak report of one habit: with no completions, a flat row with
      both streaks 0; otherwise the longest streak, and a one-row table with
      the current and the longest streak, both from the same cadence. */
  method GetStreak(habit: Habit, completed: seq<LocalInstant>, now: LocalInstant) returns (report: StreakReport)
    ensures completed == [] ==>
            report == StreakReport(0, Flat(StreakRow(habit.id, habit.name, habit.frequency, habit.createdAt, 0, 0)))
    ensures completed != [] ==>
            report == StreakReport(
              LongestFor(habit.frequency, completed),
              Nested([StreakRow(habit.id, habit.name, habit.frequency, habit.createdAt,
                                CurrentFor(habit.frequency, completed, now),
                                LongestFor(habit.frequency, completed))]))
  {
    if completed == [] {
      return StreakReport(0, Flat(StreakRow(habit.id, habit.name, habit.frequency, habit.createdAt, 0, 0)));
    }
    var longest := LongestStreak(habit.frequency, completed);
    var current := CurrentStreak(habit.frequency, completed, now);
    report := StreakReport(longest, Nested([StreakRow(habit.id, habit.name, habit.frequency, habit.createdAt, current, longest)]));
  }

  /** The listing row of a habit, with its current and longest streak. */
  function ListingRowOf(t: Tracked, now: LocalInstant): ListingRow {
    var h := t.habit;
    ListingRow(h.id, h.name, h.description, h.frequency, h.createdAt, h.lastCompletedAt,
               CurrentFor(h.frequency, t.completed, now), LongestFor(h.frequency, t.completed))
  }

  /** One listing row per habit, in the order given. */
  method AllStreaks(habits: seq<Tracked>, now: LocalInstant) returns (table: seq<ListingRow>)
    ensures |table| == |habits|
    ensures forall i :: 0 <= i < |habits| ==> table[i] == ListingRowOf(habits[i], now)
  {
    table := [];
    for i := 0 to |habits|
      invariant |table| == i
      invariant forall j :: 0 <= j < i ==> table[j] == ListingRowOf(habits[j], now)
    {
      var h := habits[i].habit;
      var completed := habits[i].completed;
      var current: nat, longest: nat;
      if completed == [] {
        NoCompletionsNoStreaks(h.frequency, now);
        current, longest := 0, 0;
      } else {
        longest := LongestStreak(h.frequency, completed);
        current := CurrentStreak(h.frequency, completed, now);
      }
      table := table + [ListingRow(h.id, h.name, h.description, h.frequency, h.createdAt, h.lastCompletedAt,
                                   current, longest)];
    }
  }

  /** The habit with the highest average streak. The running best starts at
      0 and only a strictly higher average replaces it, so the first habit to
      reach the maximum is chosen; no habit is chosen, and the name is
      "None", exactly when no average is above 0. */
  method MostConsistentHabit(habits: seq<Tracked>) returns (chosen: Option<nat>, report: Consistency<real>)
    ensures var averages := Averages(habits);
            && (forall i :: 0 <= i < |habits| ==> averages[i] <= report.average)
            && 0.0 <= report.average
            && (chosen.None? <==> forall i :: 0 <= i < |habits| ==> averages[i] <= 0.0)
            && (chosen.None? ==> report == Consistency("None", 0.0))
            && (chosen.Some? ==>
                && chosen.value < |habits|
                && report == Consistency(habits[chosen.value].habit.name, averages[chosen.value])
                && forall j :: 0 <= j < chosen.value ==> averages[j] < report.average)
  {
    chosen := None;
    var highest := 0.0;
    for i := 0 to |habits|
      invariant MostSoFar(Averages(habits[..i]), chosen, highest)
    {
      var average := AverageStreak(habits[i].habit.frequency, habits[i].completed);
      ghost var seen := Averages(habits[..i]);
      assert Averages(habits[..i + 1]) == seen + [average] by {
        assert habits[..i + 1][..i] == habits[..i];
      }
      ghost var before, best := chosen, highest;
      if average > highest {
        highest := average;
        chosen := Some(i);
      }
      MostStep(seen, average, before, best, chosen, highest);
    }
    assert habits[..|habits|] == habits;
    var name := if chosen.Some? then habits[chosen.value].habit.name else "None";
    report := Consistency(name, highest);
  }

  /** The state of the running maximum after the averages `seen`. */
  ghost predicate MostSoFar(seen: seq<real>, chosen: Option<nat>, highest: real) {
    && 0.0 <= highest
    && (forall j :: 0 <= j < |seen| ==> seen[j] <= highest)
    && (chosen.None? ==> highest == 0.0)
    && (chosen.Some? ==>
        && chosen.value < |seen|
        && highest == seen[chosen.value]
        && 0.0 < highest
        && forall j :: 0 <= j < chosen.value ==> seen[j] < highest)
  }

  /** One step of the running maximum: a strictly higher average replaces it. */
  lemma MostStep(seen: seq<real>, x: real, chosen: Option<nat>, highest: real, chosen': Option<nat>, highest': real)
    requires MostSoFar(seen, chosen, highest)
    requires if x > highest then chosen' == Some(|seen|) && highest' == x
             else chosen' == chosen && highest' == highest
    ensures MostSoFar(seen + [x], chosen', highest')
  {
    var s := seen + [x];
    assert forall j :: 0 <= j < |seen| ==> s[j] == seen[j];
  }

  /** The habit with the lowest average streak. The running best starts at
      infinity and only a strictly lower average replaces it, so the first
      habit is always chosen, and the first habit to reach the minimum wins;
      with no habits the name is "None" and the value infinity. */
  method LeastConsistentHabit(habits: seq<Tracked>) returns (chosen: Option<nat>, report: Consistency<Bound>)
    ensures chosen.None? <==> habits == []
    ensures chosen.None? ==> report == Consistency("None", Infinity)
    ensures var averages := Averages(habits);
            chosen.Some? ==>
            && chosen.value < |habits|
            && report == Consistency(habits[chosen.value].habit.name, Finite(averages[chosen.value]))
            && (forall i :: 0 <= i < |habits| ==> report.average.value <= averages[i])
            && forall j :: 0 <= j < chosen.value ==> report.average.value < averages[j]
  {
    chosen := None;
    var lowest := Infinity;
    for i := 0 to |habits|
      invariant LeastSoFar(Averages(habits[..i]), chosen, lowest)
    {
      var average := AverageStreak(habits[i].habit.frequency, habits[i].completed);
      ghost var seen := Averages(habits[..i]);
      assert Averages(habits[..i + 1]) == seen + [average] by {
        assert habits[..i + 1][..i] == habits[..i];
      }
      ghost var before, best := chosen, lowest;
      if Below(average, lowest) {
        lowest := Finite(average);
        chosen := Some(i);
      }
      LeastStep(seen, average, before, best, chosen, lowest);
    }
    assert habits[..|habits|] == habits;
    var name := if chosen.Some? then habits[chosen.value].habit.name else "None";
    report := Consistency(name, lowest);
  }

  /** The state of the running minimum after the averages `seen`. */
  ghost predicate LeastSoFar(seen: seq<real>, chosen: Option<nat>, lowest: Bound) {
    && (chosen.None? <==> seen == [])
    && (chosen.None? ==> lowest == Infinity)
    && (chosen.Some? ==>
        && chosen.value < |seen|
        && lowest == Finite(seen[chosen.value])
        && (forall j :: 0 <= j < |seen| ==> seen[chosen.value] <= seen[j])
        && forall j :: 0 <= j < chosen.value ==> seen[chosen.value] < seen[j])
  }

  /** One step of the running minimum: a strictly lower average replaces it. */
  lemma LeastStep(seen: seq<real>, x: real, chosen: Option<nat>, lowest: Bound, chosen': Option<nat>, lowest': Bound)
    requires LeastSoFar(seen, chosen, lowest)
    requires if Below(x, lowest) then chosen' == Some(|seen|) && lowest' == Finite(x)
             else chosen' == chosen && lowest' == lowest
    ensures LeastSoFar(seen + [x], chosen', lowest')
  {
    var s := seen + [x];
    assert forall j :: 0 <= j < |seen| ==> s[j] == seen[j];
  }

  /** With no completions every helper gives 0, whatever the frequency. */
  lemma NoCompletionsNoStreaks(frequency: string, now: LocalInstant)
    ensures LongestFor(frequency, []) == 0
    ensures CurrentFor(frequency, [], now) == 0
    ensures AverageFor(frequency, []) == 0.0
  {
    assert LocalDates([]) == [] && LocalWeeks([]) == [];
  }

  /** For a habit with completions in order of time, whichever cadence its
      frequency selects: the longest streak is between 1 and the number of
      distinct days or weeks; the current streak never exceeds it and is at
      least 1 once the habit is done this period; the average lies between 1
      and the longest streak. */
  lemma StreakBounds(frequency: string, completed: seq<LocalInstant>, now: LocalInstant)
    requires completed != [] && Chronological(completed)
    ensures 1 <= LongestFor(frequency, completed) <= DistinctKeys(frequency, completed)
    ensures CurrentFor(frequency, completed, now) <= LongestFor(frequency, completed)
    ensures DoneThisPeriod(frequency, completed, now) <==> 1 <= CurrentFor(frequency, completed, now)
    ensures 1.0 <= AverageFor(frequency, completed) <= LongestFor(frequency, completed) as real
  {
    if IsDaily(frequency) {
      var s := LocalDates(completed);
      DayRankInjective();
      SortedSetSpec(s, DayRank);
      SortedSetNonEmpty(s, DayRank);
      LongestBounds(DistinctDates(completed), DayAdjacent);
      MeanRunLengthBounds(DistinctDates(completed), DayAdjacent);
      CurrentDailyIsFinalRun(completed, now);
    } else {
      var s := LocalWeeks(completed);
      WeekRankInjective();
      SortedSetSpec(s, WeekRank);
      SortedSetNonEmpty(s, WeekRank);
      LongestBounds(DistinctWeeks(completed), WeekAdjacent);
      MeanRunLengthBounds(DistinctWeeks(completed), WeekAdjacent);
      CurrentWeeklyAtMostLongest(completed, now);
    }
  }

  /** The consistency reports only consider habits with at least one
      completion; each of those has an average of at least 1, so the most
      consistent habit is missing only when there are no habits. */
  lemma EveryCompletedHabitIsAboveZero(habits: seq<Tracked>)
    requires forall i :: 0 <= i < |habits| ==> habits[i].completed != []
    ensures forall i :: 0 <= i < |habits| ==> 1.0 <= Averages(habits)[i]
    ensures (forall i :: 0 <= i < |habits| ==> Averages(habits)[i] <= 0.0) <==> habits == []
  {
    AveragesSpec(habits);
    forall i | 0 <= i < |habits| ensures 1.0 <= Averages(habits)[i] {
      var t := habits[i];
      if IsDaily(t.habit.frequency) {
        SortedSetNonEmpty(LocalDates(t.completed), DayRank);
        MeanRunLengthBounds(DistinctDates(t.completed), DayAdjacent);
      } else {
        SortedSetNonEmpty(LocalWeeks(t.completed), WeekRank);
        MeanRunLengthBounds(DistinctWeeks(t.completed), WeekAdjacent);
      }
    }
    if habits != [] {
      assert !(Averages(habits)[0] <= 0.0);
    }
  }
}
