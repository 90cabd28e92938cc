/** Points in time at the resolution the subscription core observes them. */
module Times {

  /** A calendar month, counted as year * 12 + (month - 1): index 0 is January
      of year 0. Every date the core stores is the 1st of its month at 00:00
      UTC, so a month index determines it. */
  type Month = int

  const NanosPerDay: nat := 86_400_000_000_000

  /** A UTC instant: its calendar month and the nanoseconds elapsed since
      00:00 on the 1st of that month. */
  datatype Instant = Instant(month: Month, nanos: nat)

  /** Go's zero time.Time, January 1 of year 1, 00:00 UTC. */
  const ZeroTime: Instant := Instant(12, 0)

  /** 00:00 UTC on the 1st of month `m`. */
  function FirstOf(m: Month): Instant {
    Instant(m, 0)
  }

  /** The calendar year of a month index. */
  function YearOf(m: Month): int {
    m / 12
  }

  /** The month of the year, 1 (January) to 12 (December), of a month index. */
  function MonthOfYear(m: Month): (r: int)
    ensures 1 <= r <= 12
  {
    m % 12 + 1
  }

  /** The month index of `month` (1 to 12) in `year`. */
  function MonthIndex(year: int, month: int): (m: Month)
    requires 1 <= month <= 12
    ensures YearOf(m) == year && MonthOfYear(m) == month
  {
    year * 12 + month - 1
  }

  /** Go's a.Before(b): a is strictly earlier than b. */
  predicate Before(a: Instant, b: Instant) {
    a.month < b.month || (a.month == b.month && a.nanos < b.nanos)
  }

  /** An instant is earlier than the start of month `m` exactly when its own
      month is earlier; the same for two month starts. */
  lemma BeforeFirstOf(t: Instant, m: Month)
    ensures Before(t, FirstOf(m)) <==> t.month < m
    ensures Before(FirstOf(m), t) <==> m < t.month || (m == t.month && 0 < t.nanos)
  {
  }
}
