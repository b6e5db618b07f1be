/**
 * Local calendar keys of completions, and the two adjacency rules.
 *
 * Converting a UTC instant into the user's timezone (`astimezone`), taking
 * its civil date (`date()`) and its ISO 8601 week (`isocalendar()[:2]`) are
 * library calls outside this model: a completion arrives here already
 * projected, as a `LocalInstant`. A local date is its proleptic Gregorian
 * day ordinal, so subtracting two dates in days is subtracting ordinals.
 */
module Calendar {
  import opened Sorting

  /** ISO 8601 week numbers run from 1 to 52 or 53. */
  type WeekNumber = w: int | 1 <= w <= 53 witness 1

  /** An `(iso_year, iso_week)` pair. */
  datatype Week = Week(year: int, week: WeekNumber)

  /** One instant as seen in the user's timezone: its local date and its ISO week. */
  datatype LocalInstant = LocalInstant(date: int, week: Week)

  /** `(curr - prev).days == 1`: the next calendar day. */
  predicate DayAdjacent(prev: int, curr: int) {
    curr - prev == 1
  }

  /** The hand-written week rule: the next week of the same year, or week 1
      right after week 52 of the previous year. Week 53 is followed by nothing. */
  predicate WeekAdjacent(prev: Week, curr: Week) {
    || (curr.year == prev.year && curr.week == prev.week + 1)
    || (curr.year == prev.year + 1 && prev.week == 52 && curr.week == 1)
  }

  /** Dates are ordered as their ordinals. */
  function DayRank(d: int): int {
    d
  }

  /** Weeks are ordered as Python orders the tuples `(year, week)`. */
  function WeekRank(k: Week): int {
    k.year * 53 + (k.week - 1)
  }

  /** The local dates of the completions, in the order given. */
  function LocalDates(completed: seq<LocalInstant>): seq<int> {
    seq(|completed|, i requires 0 <= i < |completed| => completed[i].date)
  }

  /** The local ISO weeks of the completions, in the order given. */
  function LocalWeeks(completed: seq<LocalInstant>): seq<Week> {
    seq(|completed|, i requires 0 <= i < |completed| => completed[i].week)
  }

  /** Ranking weeks is the lexicographic order on `(year, week)` that
      `sorted` applies to tuples. */
  lemma WeekRankIsLexicographic(a: Week, b: Week)
    ensures WeekRank(a) < WeekRank(b) <==> a.year < b.year || (a.year == b.year && a.week < b.week)
    ensures WeekRank(a) == WeekRank(b) <==> a == b
  {
    if a.year < b.year {
      assert b.year * 53 >= a.year * 53 + 53;
    } else if a.year > b.year {
      assert a.year * 53 >= b.year * 53 + 53;
    }
  }

  lemma DayRankInjective()
    ensures Injective(DayRank)
  {
  }

  lemma WeekRankInjective()
    ensures Injective(WeekRank)
  {
    forall a, b | WeekRank(a) == WeekRank(b) ensures a == b {
      WeekRankIsLexicographic(a, b);
    }
  }

  /** Both rules only link a key to a strictly later key, so no key is
      adjacent to itself: a repeated key never extends a run. */
  lemma AdjacentKeysAscend(d: int, e: int, p: Week, c: Week)
    ensures DayAdjacent(d, e) ==> DayRank(d) < DayRank(e)
    ensures WeekAdjacent(p, c) ==> WeekRank(p) < WeekRank(c)
    ensures !DayAdjacent(d, d) && !WeekAdjacent(p, p)
  {
    WeekRankIsLexicographic(p, c);
  }

  /** The week rule, case by case: inside a year the run goes on to the next
      week number; week 52 may go on to week 1 of the next year; week 53
      never goes on, since the rule knows no week after it. */
  lemma WeekAdjacentCases(p: Week, c: Week)
    ensures p.week < 52 ==> (WeekAdjacent(p, c) <==> c == Week(p.year, p.week + 1))
    ensures p.week == 52 ==> (WeekAdjacent(p, c) <==> c == Week(p.year, 53) || c == Week(p.year + 1, 1))
    ensures p.week == 53 ==> !WeekAdjacent(p, c)
  {
  }
}
