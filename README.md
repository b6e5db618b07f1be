# Habit streak engine

A Dafny model of the streak engine of the habit tracker (`habit_tracker/analytics.py`).
It covers:

- the six streak helpers: longest, current and average streak, each for daily and for weekly habits;
- the frequency dispatch of `get_streak` and `_get_all_streaks`;
- the running maximum and running minimum of `get_most_consistent_habit` and `get_least_consistent_habit`.

A completion enters the model already seen in the user's timezone, as a `LocalInstant`. It holds two things:

- its local calendar date, as a proleptic Gregorian day ordinal;
- its ISO 8601 week (section 4.1.4 of ISO 8601:2004), as a `(year, week)` pair with `1 <= week <= 53`.

"Today" and "this week" are a `LocalInstant` parameter `now`.

Modules:

- `Sorting`: `sorted(set(keys))` over keys ordered by an integer rank, and the "drop equal neighbours" view that the current-streak walks take.
- `Calendar`: the keys and the two adjacency rules.
  - Days: next calendar day, `(b - a).days == 1`.
  - Weeks, as hand-written: the next week of the same year, or week 52 followed by week 1 of the next year. Week 53 is followed by nothing.
- `Segmenter`: the runs of a key sequence (`RunLengths`) and the measures taken of them. These are the longest run, the last run, the mean run length, and the two backward walks of the current-streak helpers.
- `Analytics`: the six helpers, as loops that mirror the original ones, each proved equal to its specification function, plus what those values mean for a habit.
- `Reports`: the dispatch on `"DAILY"`, `get_streak`, `_get_all_streaks`, and the most/least consistent habit selection.

The two current-streak helpers work on the completions as given, without deduplicating them:

- The daily walk steps over a repeated date.
- The weekly walk stops at a repeated week. So a second completion in the current week makes the current weekly streak 1, however many consecutive weeks came before (`Analytics.RepeatedWeekStopsCurrentAtOne`).

The model keeps this behaviour as written.

The average helpers divide in floating point; the model divides in `real`.

## Model

| member | source | states |
|---|---|---|
| `Sorting.SortedSetSpec` | habit_tracker/analytics.py:103-104 | `sorted(set(xs))` is strictly ascending, holds exactly the keys of `xs`, and has one entry per distinct key |
| `Sorting.SortedSetOnlyDependsOnElements` | habit_tracker/analytics.py:142-143 | `sorted(set(xs))` depends only on which keys occur in `xs`, not on their order or repetition |
| `Sorting.SortedSetOfIncreasing` | habit_tracker/analytics.py:265 | keys that are already strictly ascending come out of `sorted(set(...))` unchanged |
| `Sorting.CompressIsSortedSet` | habit_tracker/analytics.py:185-190 | for keys in non-decreasing order, dropping equal neighbours (what the daily current walk does) gives `sorted(set(keys))` |
| `Calendar.WeekRankIsLexicographic` | habit_tracker/analytics.py:142-143 | the week rank orders `(year, week)` pairs as Python orders tuples, and two weeks rank equal only when they are equal |
| `Calendar.AdjacentKeysAscend` | habit_tracker/analytics.py:153-154 | both adjacency rules only link a key to a strictly later one, so no key is adjacent to itself |
| `Calendar.WeekAdjacentCases` | habit_tracker/analytics.py:153-154 | week `w < 52` is followed only by `w + 1` of the same year; week 52 by week 53 or by week 1 of the next year; week 53 by nothing |
| `Segmenter.RunLengths` | habit_tracker/analytics.py:267-276 | the run lengths are non-empty exactly when there are keys, each is at least 1, and together they add up to the number of keys |
| `Segmenter.RunLengthsStep` | habit_tracker/analytics.py:269-275 | one more key either lengthens the last run by one (when adjacent to the key before) or opens a new run of 1 |
| `Segmenter.LongestRunStep` | habit_tracker/analytics.py:109-112 | after one more key, the longest run is the larger of the longest run before and the last run |
| `Segmenter.LastRunStep` | habit_tracker/analytics.py:109-114 | one loop step: the last run grows by one when the key extends it and restarts at 1 otherwise, and it never exceeds the longest run |
| `Segmenter.LongestIsLongestChain` | habit_tracker/analytics.py:106-116 | the longest run has the length of some unbroken chain of adjacent keys, and no such chain is longer |
| `Segmenter.LongestBounds` | habit_tracker/analytics.py:106-116 | for keys present, the longest run is between 1 and the number of keys, and at least the trailing run |
| `Segmenter.MeanRunLengthBounds` | habit_tracker/analytics.py:277-278 | the mean run length is the number of keys over the number of runs, between 1.0 and the longest run |
| `Segmenter.TrailingRunIsLastRun` | habit_tracker/analytics.py:227-239 | walking back while keys are adjacent counts exactly the last run |
| `Segmenter.TrailingRunIsMaximalChain` | habit_tracker/analytics.py:227-239 | the backward walk that stops at the first non-adjacent key ends at an unbroken chain that the key before it does not extend (the daily walk is this walk once repeats are dropped) |
| `Segmenter.SkippingRepeatsIsCompressedTrail` | habit_tracker/analytics.py:186-192 | a backward walk that steps over equal neighbours counts the trailing run of the keys with repeats dropped |
| `Segmenter.TrailingRunAtMostCompressed` | habit_tracker/analytics.py:228-237 | a backward walk that stops at equal neighbours counts at least 1 and no more than the walk over the keys with repeats dropped |
| `Analytics.LongestDailyStreak` | habit_tracker/analytics.py:99-116 | the loop returns 0 for no completions and otherwise the longest run of consecutive days in the sorted distinct local dates |
| `Analytics.LongestWeeklyStreak` | habit_tracker/analytics.py:138-160 | the loop returns 0 for no completions and otherwise the longest run of consecutive weeks in the sorted distinct local weeks |
| `Analytics.CurrentDailyStreak` | habit_tracker/analytics.py:174-194 | the loop returns 0 for no completions or when the last date is not today, and otherwise the backward walk that steps over repeated dates |
| `Analytics.CurrentWeeklyStreak` | habit_tracker/analytics.py:215-239 | the loop returns 0 for no completions or when the last week is not this week, and otherwise the backward walk that stops at a repeated week |
| `Analytics.AverageDailyStreak` | habit_tracker/analytics.py:261-278 | the loop returns 0 for no completions, and otherwise the sum over the count of the runs of the sorted distinct local dates |
| `Analytics.AverageWeeklyStreak` | habit_tracker/analytics.py:300-321 | the loop returns 0 for no completions, and otherwise the sum over the count of the runs of the sorted distinct local weeks |
| `Analytics.DailyStreaksIgnoreOrderAndRepeats` | habit_tracker/analytics.py:103-104 | completions with the same set of local dates have the same longest and average daily streak |
| `Analytics.WeeklyStreaksIgnoreOrderAndRepeats` | habit_tracker/analytics.py:142-143 | completions with the same set of local weeks have the same longest and average weekly streak |
| `Analytics.LongestDailyIsLongestBlockOfDays` | habit_tracker/analytics.py:99-116 | for completions present, the longest daily streak is between 1 and the number of distinct dates, some block of that many consecutive days is fully done, and no longer block is |
| `Analytics.CurrentDailyIsFinalRun` | habit_tracker/analytics.py:177-194 | for dates in order, the current daily streak is 0 unless the last completion is today, otherwise the last run of the distinct dates; so it is at most the longest streak and at least 1 when done today |
| `Analytics.CurrentWeeklyAtMostLongest` | habit_tracker/analytics.py:220-239 | for weeks in order, the current weekly streak is at most the longest weekly streak, and at least 1 when done this week |
| `Analytics.CurrentWeeklyIsFinalRunWithoutRepeats` | habit_tracker/analytics.py:220-239 | with at most one completion per week, in order, the current weekly streak is 0 unless done this week, otherwise the last run of weeks |
| `Analytics.RepeatedWeekStopsCurrentAtOne` | habit_tracker/analytics.py:227-237 | when the last two completions both fall in the current week, the current weekly streak is exactly 1, whatever came before |
| `Analytics.RepeatedDateIsSkipped` | habit_tracker/analytics.py:186-190 | a second completion on the last date leaves the current daily streak as it was without it |
| `Analytics.LongestDailyExample` | habit_tracker/analytics.py:91-97 | 2025-04-01, 04-02 and 04-04 give runs [2, 1] and a longest daily streak of 2 |
| `Analytics.AverageDailyExample` | habit_tracker/analytics.py:254-259 | 2025-04-01, 04-02 and 04-05 give an average daily streak of 1.5 |
| `Analytics.WeeklyExample` | habit_tracker/analytics.py:130-136 | ISO weeks 14, 15 and 16 of 2025 give one run of 3: longest 3 and average 3.0 |
| `Analytics.WeekOneAfterWeek52Example` | habit_tracker/analytics.py:153-154 | week 52 of 2019 followed by week 1 of 2020 is one run of 2 |
| `Analytics.WeekOneAfterWeek53Example` | habit_tracker/analytics.py:153-154 | week 53 of 2020 followed by week 1 of 2021 is two runs of 1 |
| `Reports.LongestStreak` | habit_tracker/analytics.py:380-384 | `"DAILY"` selects the daily longest streak, any other frequency the weekly one |
| `Reports.CurrentStreak` | habit_tracker/analytics.py:386-390 | `"DAILY"` selects the daily current streak, any other frequency the weekly one |
| `Reports.AverageStreak` | habit_tracker/analytics.py:617-620 | `"DAILY"` selects the daily average streak, any other frequency the weekly one |
| `Reports.GetStreak` | habit_tracker/analytics.py:366-395 | no completions give streak 0 and a flat row with both streaks 0; otherwise the longest streak and a one-row table with current and longest streak of the same cadence |
| `Reports.AllStreaks` | habit_tracker/analytics.py:467-502 | one row per habit, in order, with its identity, its current and its longest streak (0 and 0 for no completions) |
| `Reports.AveragesSpec` | habit_tracker/analytics.py:608-620 | the list the selections range over holds, for each habit in order, its average streak under the cadence its frequency selects |
| `Reports.MostStep` | habit_tracker/analytics.py:622-624 | one step of the running maximum keeps it the largest average so far (or 0), held by the first habit reaching it |
| `Reports.LeastStep` | habit_tracker/analytics.py:680-682 | one step of the running minimum keeps it the smallest average so far, held by the first habit reaching it; any average replaces infinity |
| `Reports.MostConsistentHabit` | habit_tracker/analytics.py:603-629 | the value is the largest average, or 0 when none is above 0; the first habit reaching it is chosen, and the name is "None" exactly when no average is above 0 |
| `Reports.LeastConsistentHabit` | habit_tracker/analytics.py:661-687 | no habits give "None" and infinity; otherwise the first habit with the smallest average is chosen and its name and average are reported |
| `Reports.NoCompletionsNoStreaks` | habit_tracker/analytics.py:482-484 | the 0/0 written for a habit without completions is what the helpers give for no completions: longest, current and average are 0 for any frequency |
| `Reports.StreakBounds` | habit_tracker/analytics.py:376-395 | for completions in order, the longest streak is between 1 and the number of distinct days or weeks; the current streak is at most the longest and is at least 1 exactly when the habit is done this period; the average is between 1 and the longest |
| `Reports.EveryCompletedHabitIsAboveZero` | habit_tracker/analytics.py:603-629 | when every habit has a completion (the query joins on completions), every habit's average is at least 1, so all averages are at most 0 exactly when there are no habits, and "None" comes only from an empty habit list |

## Left out

- Database access: the Peewee queries and `_get_habit_by_id`. A habit and its completions are inputs, in completion order.
- The `{"error": "Habit not found"}` branch of `get_streak`. `_get_habit_by_id` indexes the first result and raises instead of returning `None`, so the branch is never taken.
- The exception wrapper `database_error_handler`.
- Timezone conversion (`astimezone`), `isocalendar()` and `datetime.now`. These are library calls; their results are the `LocalInstant` inputs and the `now` parameter.
- Whether a week number is valid for its year (which ISO years have a week 53) is left to `isocalendar()` and not checked by the model.
- Floating point: averages are exact `real` quotients. An empty input gives the integer `0` in the original and `0.0` here.
- `list_habits` filtering and `get_consistency` table formatting: string and SQL handling, no streak logic. Also the CLI, the services, the persistence models, the user settings and the date utilities.
- Timestamps (`created_at`, `last_completed_at`) are carried through as text, unchanged.
- The docstring of `_get_average_weekly_streak` (habit_tracker/analytics.py:293-298) claims 1.5 for weeks 14, 15 and 16 of 2025. The code gives 3.0, and the model follows the code (`Analytics.WeeklyExample`).
- The docstring of `_get_current_weekly_streak` (habit_tracker/analytics.py:199-213) repeats the daily text. The model follows the code.
- Analytics.CurrentDailyIsFinalRun: proved only for local dates in non-decreasing order. Completions sorted by UTC time can in principle map to local dates that go back across a change of UTC offset, and the lemma says nothing then.
- Analytics.CurrentWeeklyAtMostLongest: proved only for local weeks in non-decreasing order, for the same reason.
- Reports.StreakBounds: proved only for completions whose local dates and weeks are both in non-decreasing order, for the same reason.
- Reports.MostConsistentHabit: also returns the position of the chosen habit, which the original keeps as the habit object and reports only by name.
- Reports.LeastConsistentHabit: also returns the position of the chosen habit, for the same reason.
