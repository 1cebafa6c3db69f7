/**
 * Calendar values of the date column: a proleptic Gregorian date with a
 * time of day (pandas' Timestamp at nanosecond resolution), the
 * chronological order on them, and the first-of-month bucket.
 */
module Calendar {
  import opened Ordering

  const NanosPerDay: int := 86_400_000_000_000

  datatype Stamp = Stamp(year: int, month: int, day: int, nanos: int)

  predicate IsLeapYear(y: int) {
    (y % 4 == 0 && y % 100 != 0) || y % 400 == 0
  }

  function DaysInMonth(y: int, m: int): (n: int)
    requires 1 <= m <= 12
    ensures 28 <= n <= 31
    ensures n == 29 <==> m == 2 && IsLeapYear(y)
  {
    if m == 2 then (if IsLeapYear(y) then 29 else 28)
    else if m == 4 || m == 6 || m == 9 || m == 11 then 30
    else 31
  }

  /** A real calendar date, and a time of day within that date. */
  predicate ValidStamp(t: Stamp) {
    && 1 <= t.month <= 12
    && 1 <= t.day <= DaysInMonth(t.year, t.month)
    && 0 <= t.nanos < NanosPerDay
  }

  type Timestamp = t: Stamp | ValidStamp(t) witness Stamp(1970, 1, 1, 0)

  /** Chronological order: `a` is strictly earlier than `b`. */
  predicate Chronological(a: Timestamp, b: Timestamp) {
    if a.year != b.year then a.year < b.year
    else if a.month != b.month then a.month < b.month
    else if a.day != b.day then a.day < b.day
    else a.nanos < b.nanos
  }

  predicate SameMonth(a: Timestamp, b: Timestamp) {
    a.year == b.year && a.month == b.month
  }

  /**
   * The month bucket of `t` (`to_period("M").to_timestamp()`): midnight of
   * the first day of t's month, which is the earliest instant of that month.
   */
  function MonthStart(t: Timestamp): (m: Timestamp)
    ensures SameMonth(m, t) && m.day == 1 && m.nanos == 0
    ensures !Chronological(t, m)
    ensures forall u: Timestamp :: SameMonth(u, t) ==> !Chronological(u, m)
  {
    Stamp(t.year, t.month, 1, 0)
  }

  lemma ChronologicalIsStrictTotalOrder()
    ensures StrictTotalOrder(Chronological)
  {
  }

  /** Two instants share a bucket exactly when they fall in the same calendar month. */
  lemma MonthStartIdentifiesMonth(a: Timestamp, b: Timestamp)
    ensures MonthStart(a) == MonthStart(b) <==> SameMonth(a, b)
  {
  }

  /** Bucketing a bucket changes nothing. */
  lemma MonthStartIdempotent(t: Timestamp)
    ensures MonthStart(MonthStart(t)) == MonthStart(t)
  {
  }
}
