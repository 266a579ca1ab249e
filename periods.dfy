/**
 * The ranking windows of `_get_start_time_for_period`: "today" starts at local midnight,
 * "week" at midnight of this week's Monday, "month" at midnight of the first of the month.
 */
module Periods {
  import opened Wrappers
  import opened Time

  datatype Period = Today | Week | Month

  function ParsePeriod(name: string): (p: Option<Period>)
    ensures p == Some(Today) <==> name == "today"
    ensures p == Some(Week) <==> name == "week"
    ensures p == Some(Month) <==> name == "month"
  {
    if name == "today" then Some(Today)
    else if name == "week" then Some(Week)
    else if name == "month" then Some(Month)
    else None
  }

  /** `now.replace(hour=0, minute=0, second=0, microsecond=0)`. */
  function Midnight(now: LocalDateTime): LocalDateTime {
    DateTime(now.year, now.month, now.day, 0, 0, 0, 0)
  }

  /** `now.replace(day=1, hour=0, minute=0, second=0, microsecond=0)`. */
  function FirstOfMonth(now: LocalDateTime): LocalDateTime {
    DateTime(now.year, now.month, 1, 0, 0, 0, 0)
  }

  /** The start of the window named `name`, in local microseconds; `None` for unknown names. */
  function StartTime(name: string, now: LocalDateTime): (start: Option<int>)
    ensures start.Some? <==> ParsePeriod(name).Some?
    ensures start.Some? ==> start.value <= Micros(now) && start.value % Day == 0
  {
    MidnightFacts(now);
    match ParsePeriod(name)
    case None => None
    case Some(Today) => Some(Micros(Midnight(now)))
    case Some(Week) => Some(WeekStart(now))
    case Some(Month) => Some(Micros(FirstOfMonth(now)))
  }

  /** `today - timedelta(days=today.weekday())`: midnight of this week's Monday. */
  function WeekStart(now: LocalDateTime): (start: int)
    ensures start == (Ordinal(now) - 1 - WeekdayOfOrdinal(Ordinal(now))) * Day
    ensures start <= Micros(now) && start % Day == 0
  {
    MidnightFacts(now);
    var o := Ordinal(now);
    var w := WeekdayOfOrdinal(o);
    DaysBack(o - 1, w);
    Micros(Midnight(now)) - w * Day
  }

  /** Going back `w` whole days from day `d`. */
  lemma DaysBack(d: int, w: int)
    requires 0 <= w
    ensures d * Day - w * Day == (d - w) * Day <= d * Day
    ensures ((d - w) * Day) % Day == 0 && ((d - w) * Day) / Day == d - w
  {
    DayMultiple(d - w);
  }

  lemma MidnightFacts(now: LocalDateTime)
    ensures Micros(Midnight(now)) == (Ordinal(now) - 1) * Day
    ensures Micros(FirstOfMonth(now)) == (Ordinal(now) - now.day) * Day
    ensures Micros(Midnight(now)) <= Micros(now) && Micros(FirstOfMonth(now)) <= Micros(now)
    ensures Micros(Midnight(now)) % Day == 0 && Micros(FirstOfMonth(now)) % Day == 0
  {
    MicrosWithinDay(now);
    DayMultiple(Ordinal(now) - 1);
    DayMultiple(Ordinal(now) - now.day);
  }

  lemma DayMultiple(k: int)
    ensures (k * Day) % Day == 0 && (k * Day) / Day == k
  {
  }

  /** "today" is the current calendar day: midnight, with `now` less than a day later. */
  lemma TodayWindow(now: LocalDateTime)
    ensures var start := StartTime("today", now).value;
      start == (Ordinal(now) - 1) * Day && start <= Micros(now) < start + Day
  {
    MicrosWithinDay(now);
  }

  /** "week" starts on a Monday at midnight, at most seven days before `now`. */
  lemma WeekWindow(now: LocalDateTime)
    ensures var start := StartTime("week", now).value;
      && start % Day == 0
      && WeekdayOfOrdinal(start / Day + 1) == 0
      && start <= Micros(now) < start + 7 * Day
  {
    MicrosWithinDay(now);
    WeekArithmetic(Ordinal(now), Micros(now));
  }

  lemma WeekArithmetic(o: int, m: int)
    requires (o - 1) * Day <= m < o * Day
    ensures var start := (o - 1 - WeekdayOfOrdinal(o)) * Day;
      && start % Day == 0
      && WeekdayOfOrdinal(start / Day + 1) == 0
      && start <= m < start + 7 * Day
  {
    var w := WeekdayOfOrdinal(o);
    DaysBack(o - 1, w);
    DaysBack(o - 1 - w + 7, 6 - w);
    assert (o - w + 6) % 7 == 0;
  }

  /** "month" starts on day 1 of the current month, at most 31 days before `now`. */
  lemma MonthWindow(now: LocalDateTime)
    ensures var start := StartTime("month", now).value;
      && start == Micros(DateTime(now.year, now.month, 1, 0, 0, 0, 0))
      && start <= Micros(now) < start + 31 * Day
  {
    var first := FirstOfMonth(now);
    assert Ordinal(now) - Ordinal(first) == now.day - 1;
    MicrosWithinDay(now);
  }

  /** The windows nest: a month or week window contains today's. */
  lemma WindowsNest(now: LocalDateTime)
    ensures StartTime("week", now).value <= StartTime("today", now).value
    ensures StartTime("month", now).value <= StartTime("today", now).value
  {
    assert Ordinal(now) - Ordinal(FirstOfMonth(now)) == now.day - 1;
  }
}
