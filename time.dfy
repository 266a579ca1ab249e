/**
 * Time as the bot uses it. Instants are integers in MICROSECONDS, so the sub-second
 * comparisons of the source (`total_seconds() < cooldown`) stay exact.
 *
 * Two clocks appear in the source: naive local time (`datetime.now()`), used for message
 * timestamps and ranking windows, and aware UTC (`datetime.now(timezone.utc)`), used for
 * blacklists, warnings, points and check-in dates. Both are parameters of the model.
 */
module Time {

  const Second: int := 1_000_000
  const Minute: int := 60 * Second
  const Hour: int := 60 * Minute
  const Day: int := 24 * Hour

  /**
   * A timestamp read back from storage. Only an aware stamp can be compared with an aware
   * "now"; subtracting a naive one raises `TypeError`, an unparseable one `ValueError`.
   */
  datatype Stamp = Aware(at: int) | Naive(at: int) | Malformed

  /** The fields of a Python `datetime` (Gregorian calendar, no time zone). */
  datatype DateTime = DateTime(year: int, month: int, day: int, hour: int, minute: int, second: int, microsecond: int)
  {
    predicate Valid() {
      1 <= year <= 9999 && 1 <= month <= 12 && 1 <= day <= DaysInMonth(year, month)
      && 0 <= hour < 24 && 0 <= minute < 60 && 0 <= second < 60 && 0 <= microsecond < 1_000_000
    }
  }

  /** Python's `datetime` values always satisfy the field ranges. */
  type LocalDateTime = dt: DateTime | dt.Valid() witness DateTime(1970, 1, 1, 0, 0, 0, 0)

  predicate IsLeap(year: int) {
    year % 4 == 0 && (year % 100 != 0 || year % 400 == 0)
  }

  function DaysInMonth(year: int, month: int): (n: int)
    requires 1 <= month <= 12
    ensures 28 <= n <= 31
    ensures month == 2 ==> (n == 29 <==> IsLeap(year))
  {
    if month == 2 then (if IsLeap(year) then 29 else 28)
    else if month == 4 || month == 6 || month == 9 || month == 11 then 30
    else 31
  }

  /** Days of the year before the first of `month` (Python's `_days_before_month`). */
  function DaysBeforeMonth(year: int, month: int): (n: int)
    requires 1 <= month <= 12
    ensures 0 <= n <= 335
  {
    var table := [0, 0, 31, 59, 90, 120, 151, 181, 212, 243, 273, 304, 334];
    table[month] + (if month > 2 && IsLeap(year) then 1 else 0)
  }

  /** Days before January 1 of `year`, counted from 0001-01-01 (Python's `_days_before_year`). */
  function DaysBeforeYear(year: int): int {
    var y := year - 1;
    y * 365 + y / 4 - y / 100 + y / 400
  }

  /** Python's `date.toordinal()`: 0001-01-01 is day 1. */
  function Ordinal(dt: DateTime): int
    requires dt.Valid()
  {
    DaysBeforeYear(dt.year) + DaysBeforeMonth(dt.year, dt.month) + dt.day
  }

  /** Python's `date.weekday()`: Monday is 0, Sunday is 6. */
  function WeekdayOfOrdinal(ordinal: int): (w: int)
    ensures 0 <= w < 7
  {
    (ordinal + 6) % 7
  }

  /** The instant of `dt` in microseconds since 0001-01-01 00:00. */
  function Micros(dt: DateTime): int
    requires dt.Valid()
  {
    (Ordinal(dt) - 1) * Day + dt.hour * Hour + dt.minute * Minute + dt.second * Second + dt.microsecond
  }

  /** The time-of-day part of an instant lies within its day. */
  lemma MicrosWithinDay(dt: DateTime)
    requires dt.Valid()
    ensures (Ordinal(dt) - 1) * Day <= Micros(dt) < Ordinal(dt) * Day
  {
  }
}
