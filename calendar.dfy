/**
  A proleptic Gregorian calendar on integer seconds since 1970-01-01 00:00 (UTC,
  no daylight saving), standing in for Foundation's `Calendar(identifier: .gregorian)`
  and for the date helpers the statistics screen calls: `date(year:month:)`,
  `date(year:)`, `date(year:weekDay:weekOfYear:)`, `startOfDay`, `endOfMonth`
  and `endOfYear`.  Days are numbered from 1970-01-01 (day 0, a Thursday).
*/
module Calendar {

  const SecondsPerDay: int := 86400
  const DaysPerWeek: int := 7

  predicate IsLeapYear(year: int) {
    year % 4 == 0 && (year % 100 != 0 || year % 400 == 0)
  }

  function DaysInYear(year: int): int {
    if IsLeapYear(year) then 366 else 365
  }

  function DaysInMonth(year: int, month: int): (days: int)
    requires 1 <= month <= 12
    ensures 28 <= days <= 31
    ensures month == 2 <==> days < 30
    ensures days == 29 <==> month == 2 && IsLeapYear(year)
  {
    if month == 2 then (if IsLeapYear(year) then 29 else 28)
    else if month == 4 || month == 6 || month == 9 || month == 11 then 30
    else 31
  }

  /** Days of `year` before the first of `month`; month 13 stands for the whole year. */
  function DaysBeforeMonth(year: int, month: int): (days: int)
    requires 1 <= month <= 13
    ensures 28 * (month - 1) <= days <= 31 * (month - 1)
  {
    [0, 31, 59, 90, 120, 151, 181, 212, 243, 273, 304, 334, 365][month - 1]
      + (if month > 2 && IsLeapYear(year) then 1 else 0)
  }

  lemma DaysBeforeNextMonth(year: int, month: int)
    requires 1 <= month <= 12
    ensures DaysBeforeMonth(year, month + 1) == DaysBeforeMonth(year, month) + DaysInMonth(year, month)
    ensures month == 12 ==> DaysBeforeMonth(year, 13) == DaysInYear(year)
  {
  }

  /** Stepping back one year changes `year / k` exactly when `k` divides `year`. */
  lemma DivisionSteps(y: int)
    ensures y / 4 - (y - 1) / 4 == if y % 4 == 0 then 1 else 0
    ensures y / 100 - (y - 1) / 100 == if y % 100 == 0 then 1 else 0
    ensures y / 400 - (y - 1) / 400 == if y % 400 == 0 then 1 else 0
  {
  }

  lemma LeapYearDivisors(y: int)
    ensures y % 400 == 0 ==> y % 100 == 0
    ensures y % 100 == 0 ==> y % 4 == 0
  {
    if y % 400 == 0 {
      var k := y / 400;
      assert y == 100 * (4 * k);
      assert y / 100 == 4 * k;
    }
    if y % 100 == 0 {
      var k := y / 100;
      assert y == 4 * (25 * k);
      assert y / 4 == 25 * k;
    }
  }

  /** Leap years among the years 1 .. year (for year >= 0), by the Gregorian rule. */
  function LeapYearsThrough(year: int): int {
    year / 4 - year / 100 + year / 400
  }

  /** Day number of 1 January of `year`. */
  function FirstDayOfYear(year: int): int {
    365 * (year - 1970) + LeapYearsThrough(year - 1) - LeapYearsThrough(1969)
  }

  lemma FirstDayOfNextYear(year: int)
    ensures FirstDayOfYear(year + 1) == FirstDayOfYear(year) + DaysInYear(year)
  {
    DivisionSteps(year);
    LeapYearDivisors(year);
  }

  /** Day number of day `day` (1-based) of `month` in `year`. */
  function DayNumber(year: int, month: int, day: int): int
    requires 1 <= month <= 12
  {
    FirstDayOfYear(year) + DaysBeforeMonth(year, month) + day - 1
  }

  /** Foundation's weekday numbering of a day number: Sunday is 1, Saturday is 7. */
  function DayOfWeek(dayNumber: int): (weekday: int)
    ensures 1 <= weekday <= 7
  {
    (dayNumber + 4) % DaysPerWeek + 1
  }

  /** The weekday of the day holding the instant `t`. */
  function Weekday(t: int): (weekday: int)
    ensures 1 <= weekday <= 7
  {
    DayOfWeek(t / SecondsPerDay)
  }

  predicate IsMidnight(t: int) {
    t % SecondsPerDay == 0
  }

  /** `startOfDay`: the midnight that begins the day holding `t`. */
  function StartOfDay(t: int): (start: int)
    ensures IsMidnight(start)
    ensures start <= t < start + SecondsPerDay
  {
    t - t % SecondsPerDay
  }

  /** `date(year:month:)`: the midnight that begins the first day of `month`. */
  function DateFrom(year: int, month: int): (t: int)
    requires 1 <= month <= 12
    ensures IsMidnight(t)
  {
    DayNumber(year, month, 1) * SecondsPerDay
  }

  /** `date(year:)`: the midnight that begins 1 January. */
  function DateFromYear(year: int): (t: int)
    ensures t == DateFrom(year, 1)
  {
    FirstDayOfYear(year) * SecondsPerDay
  }

  /** The last second of a day starts that day. */
  lemma StartOfDayOfLastSecond(dayAfter: int)
    ensures StartOfDay(dayAfter * SecondsPerDay - 1) == (dayAfter - 1) * SecondsPerDay
  {
    var t := dayAfter * SecondsPerDay - 1;
    assert t == (dayAfter - 1) * SecondsPerDay + (SecondsPerDay - 1);
  }

  /**
    `date(year:month:).endOfMonth.startOfDay`: `endOfMonth` is the last second of the
    month, and its `startOfDay` the midnight that begins the last day of `month`.
  */
  function EndOfMonthDay(year: int, month: int): (t: int)
    requires 1 <= month <= 12
    ensures IsMidnight(t)
    ensures t == DateFrom(year, month) + (DaysInMonth(year, month) - 1) * SecondsPerDay
  {
    var dayAfter := DayNumber(year, month, 1) + DaysInMonth(year, month);
    StartOfDayOfLastSecond(dayAfter);
    StartOfDay(dayAfter * SecondsPerDay - 1)
  }

  /** `date(year:).endOfYear.startOfDay`: the midnight that begins 31 December. */
  function EndOfYearDay(year: int): (t: int)
    ensures t == EndOfMonthDay(year, 12)
  {
    StartOfDayOfLastSecond(FirstDayOfYear(year + 1));
    DateFromNextMonth(year, 12);
    StartOfDay(DateFromYear(year + 1) - 1)
  }

  lemma DayOfWeekShift(dayNumber: int, weeks: int)
    ensures DayOfWeek(dayNumber + DaysPerWeek * weeks) == DayOfWeek(dayNumber)
  {
  }

  /** Going back `DayOfWeek(n) - 1` days from day `n` reaches a Sunday. */
  lemma SundayOnOrBefore(n: int)
    ensures DayOfWeek(n - (DayOfWeek(n) - 1)) == 1
  {
  }

  /** Day number of the Sunday that begins week 1 of `year`: the Sunday on or before 1 January. */
  function FirstSundayOfYear(year: int): (day: int)
    ensures DayOfWeek(day) == 1
    ensures day <= FirstDayOfYear(year) < day + DaysPerWeek
  {
    var firstDay := FirstDayOfYear(year);
    SundayOnOrBefore(firstDay);
    firstDay - (DayOfWeek(firstDay) - 1)
  }

  /**
    `date(year:weekDay:weekOfYear:)`: day `weekDay` (Sunday 1 .. Saturday 7) of week
    `weekOfYear` of `year`, where weeks begin on Sunday and week 1 is the week that
    holds 1 January (Foundation's rule for the Gregorian calendar with its default
    first weekday and one minimum day in the first week).
  */
  function DateFromWeek(year: int, weekDay: int, weekOfYear: int): (t: int)
    requires 1 <= weekDay <= 7
    ensures IsMidnight(t)
    ensures Weekday(t) == weekDay
    ensures weekOfYear == 1 ==> DateFromYear(year) - 6 * SecondsPerDay <= t <= DateFromYear(year) + 6 * SecondsPerDay
  {
    var sunday := FirstSundayOfYear(year) + DaysPerWeek * (weekOfYear - 1);
    DayOfWeekShift(FirstSundayOfYear(year), weekOfYear - 1);
    WeekdayInWeek(sunday, weekDay);
    DayStart(sunday + (weekDay - 1));
    (sunday + (weekDay - 1)) * SecondsPerDay
  }

  /** Day `weekDay` of a week that begins on a Sunday has weekday number `weekDay`. */
  lemma WeekdayInWeek(sunday: int, weekDay: int)
    requires DayOfWeek(sunday) == 1 && 1 <= weekDay <= 7
    ensures DayOfWeek(sunday + (weekDay - 1)) == weekDay
  {
  }

  /** The instant that begins day `day` is a midnight on that day's weekday. */
  lemma DayStart(day: int)
    ensures IsMidnight(day * SecondsPerDay)
    ensures Weekday(day * SecondsPerDay) == DayOfWeek(day)
  {
    assert (day * SecondsPerDay) / SecondsPerDay == day;
  }

  lemma ConsecutiveWeeks(year: int, weekDay: int, weekOfYear: int)
    requires 1 <= weekDay <= 7
    ensures DateFromWeek(year, weekDay, weekOfYear + 1)
         == DateFromWeek(year, weekDay, weekOfYear) + DaysPerWeek * SecondsPerDay
  {
  }

  /** Months counted from year 0, so that consecutive months have consecutive indices. */
  function MonthIndex(year: int, month: int): int {
    12 * year + month - 1
  }

  /** The month after `month` of `year`, as a (year, month) pair. */
  function NextMonth(year: int, month: int): (next: (int, int))
    requires 1 <= month <= 12
    ensures 1 <= next.1 <= 12
    ensures MonthIndex(next.0, next.1) == MonthIndex(year, month) + 1
  {
    if month == 12 then (year + 1, 1) else (year, month + 1)
  }

  /** The first day of the next month follows the last day of this one. */
  lemma DateFromNextMonth(year: int, month: int)
    requires 1 <= month <= 12
    ensures DateFrom(NextMonth(year, month).0, NextMonth(year, month).1)
         == DateFrom(year, month) + DaysInMonth(year, month) * SecondsPerDay
  {
    DaysBeforeNextMonth(year, month);
    if month == 12 {
      FirstDayOfNextYear(year);
    }
  }

  /** Months that come later in the calendar begin after every instant of earlier months. */
  lemma {:induction false} LaterMonthStartsLater(y1: int, m1: int, y2: int, m2: int)
    requires 1 <= m1 <= 12 && 1 <= m2 <= 12
    requires MonthIndex(y1, m1) < MonthIndex(y2, m2)
    ensures DateFrom(y1, m1) + DaysInMonth(y1, m1) * SecondsPerDay <= DateFrom(y2, m2)
    decreases MonthIndex(y2, m2) - MonthIndex(y1, m1)
  {
    var (ny, nm) := NextMonth(y1, m1);
    DateFromNextMonth(y1, m1);
    if MonthIndex(ny, nm) < MonthIndex(y2, m2) {
      LaterMonthStartsLater(ny, nm, y2, m2);
    } else {
      assert ny == y2 && nm == m2;
    }
  }

  /** Month starts are strictly ordered like their month indices. */
  lemma MonthOrder(y1: int, m1: int, y2: int, m2: int)
    requires 1 <= m1 <= 12 && 1 <= m2 <= 12
    ensures MonthIndex(y1, m1) < MonthIndex(y2, m2) ==> EndOfMonthDay(y1, m1) < DateFrom(y2, m2)
    ensures MonthIndex(y1, m1) == MonthIndex(y2, m2) ==> y1 == y2 && m1 == m2
  {
    if MonthIndex(y1, m1) < MonthIndex(y2, m2) {
      LaterMonthStartsLater(y1, m1, y2, m2);
    }
  }

  /** A month between two others in the calendar lies within the span from the first to the last. */
  lemma MonthWithin(y1: int, m1: int, y: int, m: int, y2: int, m2: int)
    requires 1 <= m1 <= 12 && 1 <= m <= 12 && 1 <= m2 <= 12
    requires MonthIndex(y1, m1) <= MonthIndex(y, m) <= MonthIndex(y2, m2)
    ensures DateFrom(y1, m1) <= DateFrom(y, m)
    ensures EndOfMonthDay(y, m) <= EndOfMonthDay(y2, m2)
  {
    MonthOrder(y1, m1, y, m);
    MonthOrder(y, m, y2, m2);
  }

  /** Moving an instant by whole days moves its day's start by the same amount. */
  lemma StartOfDayShift(t: int, days: int)
    ensures StartOfDay(t + days * SecondsPerDay) == StartOfDay(t) + days * SecondsPerDay
  {
  }

  lemma MidnightShift(t: int, days: int)
    requires IsMidnight(t)
    ensures IsMidnight(t + days * SecondsPerDay)
  {
  }
}
