/**
  The statistics view model: the week, month and year windows a period selector picks
  relative to today, and the dense per-day or per-month series of reading totals the
  charts draw for a window.
*/
module Statistics {
  import opened Wrappers
  import opened Calendar
  import opened ReadingSums

  /** The first year the year picker offers. */
  const FirstYear: int := 2022

  /**
    What the view model reads from `Date()` and the calendar: the current instant and
    its year, month and week of year.
  */
  datatype Clock = Clock(now: int, currentYear: int, currentMonth: int, currentWeek: int) {

    /** The year and month are those of `now`; the week of year is between 1 and 53. */
    predicate Valid() {
      1 <= currentMonth <= 12 && 1 <= currentWeek <= 53 &&
      DateFrom(currentYear, currentMonth) <= now < DateFrom(currentYear, currentMonth) + DaysInMonth(currentYear, currentMonth) * SecondsPerDay
    }

    /** `Date().startOfDay` */
    function Today(): int {
      StartOfDay(now)
    }
  }

  /** Selectors the week functions accept; any other value is a `fatalError()`. */
  predicate IsWeekSelector(c: Clock, week: int) {
    0 <= week <= c.currentWeek
  }

  /** Selectors the month functions accept; any other value is a `fatalError()`. */
  predicate IsMonthSelector(month: int) {
    0 <= month <= 12
  }

  /** Selectors the year functions accept; any other value is a `fatalError()`. */
  predicate IsYearSelector(c: Clock, year: int) {
    year == 0 || FirstYear <= year <= c.currentYear
  }

  /** `weekStart(_:)`: for 0, seven days before `weekEnd(0)`; otherwise the Monday of week `week`. */
  function WeekStart(c: Clock, week: int): (start: int)
    requires IsWeekSelector(c, week)
    ensures IsMidnight(start)
    ensures week >= 1 ==> Weekday(start) == 2
    decreases if week == 0 then 1 else 0
  {
    if week == 0 then WeekEnd(c, week) - DaysPerWeek * SecondsPerDay
    else DateFromWeek(c.currentYear, 2, week)
  }

  /** `weekEnd(_:)`: for 0, the start of tomorrow; otherwise seven days after `weekStart(week)`. */
  function WeekEnd(c: Clock, week: int): (end: int)
    requires IsWeekSelector(c, week)
    ensures IsMidnight(end)
    ensures week == 0 ==> end == c.Today() + SecondsPerDay
    decreases if week == 0 then 0 else 1
  {
    if week == 0 then StartOfDayShift(c.now, 1); StartOfDay(c.now + SecondsPerDay)
    else MidnightShift(WeekStart(c, week), DaysPerWeek); WeekStart(c, week) + DaysPerWeek * SecondsPerDay
  }

  /** Every week window is seven days long; week 0 ends with today, week n is week n of this year. */
  lemma WeekWindow(c: Clock, week: int)
    requires IsWeekSelector(c, week)
    ensures WeekEnd(c, week) == WeekStart(c, week) + DaysPerWeek * SecondsPerDay
    ensures week == 0 ==> WeekStart(c, week) == c.Today() - 6 * SecondsPerDay
    ensures week >= 1 ==> WeekStart(c, week) == DateFromWeek(c.currentYear, 2, week)
    ensures 1 <= week < c.currentWeek ==> WeekStart(c, week + 1) == WeekEnd(c, week)
  {
    if 1 <= week < c.currentWeek {
      ConsecutiveWeeks(c.currentYear, 2, week);
    }
  }

  /** The calendar year of month selector `month`: this year up to the current month, else last year. */
  function SelectedMonthYear(c: Clock, month: int): (year: int)
    requires c.Valid() && 1 <= month <= 12
    ensures MonthIndex(c.currentYear, c.currentMonth) - 12 < MonthIndex(year, month) <= MonthIndex(c.currentYear, c.currentMonth)
  {
    if month <= c.currentMonth then c.currentYear else c.currentYear - 1
  }

  /** `monthStart(_:)` */
  function MonthStart(c: Clock, month: int): (start: int)
    requires c.Valid() && IsMonthSelector(month)
    ensures IsMidnight(start)
  {
    if month == 0 then MidnightShift(c.Today(), -30); c.Today() - 30 * SecondsPerDay
    else if month <= c.currentMonth then DateFrom(c.currentYear, month)
    else DateFrom(c.currentYear - 1, month)
  }

  /** `monthEnd(_:)`: the start of the last day of the window. */
  function MonthEnd(c: Clock, month: int): (end: int)
    requires c.Valid() && IsMonthSelector(month)
    ensures IsMidnight(end)
  {
    if month == 0 then c.Today()
    else if month <= c.currentMonth then EndOfMonthDay(c.currentYear, month)
    else EndOfMonthDay(c.currentYear - 1, month)
  }

  /** Days in the window of month selector `month`: 31 for the rolling window, else the month's length. */
  function MonthLength(c: Clock, month: int): int
    requires c.Valid() && IsMonthSelector(month)
  {
    if month == 0 then 31 else DaysInMonth(SelectedMonthYear(c, month), month)
  }

  /**
    Month 0 is the 31 days ending today; month n is the latest month n that has begun,
    this year's up to the current month and last year's after it.
  */
  lemma MonthWindow(c: Clock, month: int)
    requires c.Valid() && IsMonthSelector(month)
    ensures MonthEnd(c, month) + SecondsPerDay == MonthStart(c, month) + MonthLength(c, month) * SecondsPerDay
    ensures month == 0 ==> MonthEnd(c, month) == c.Today()
    ensures month >= 1 ==> MonthStart(c, month) == DateFrom(SelectedMonthYear(c, month), month)
  {
  }

  /** `yearStart(_:)`: for 0 the first day of the month after the current one a year ago. */
  function YearStart(c: Clock, year: int): (start: int)
    requires c.Valid() && IsYearSelector(c, year)
    ensures IsMidnight(start)
  {
    // `date(year: currentYear - 1, month: currentMonth + 1)`; month 13 rolls over to January.
    if year == 0 then
      (if c.currentMonth < 12 then DateFrom(c.currentYear - 1, c.currentMonth + 1) else DateFrom(c.currentYear, 1))
    else DateFromYear(year)
  }

  /** `yearEnd(_:)`: the start of the last day of the year window. */
  function YearEnd(c: Clock, year: int): (end: int)
    requires c.Valid() && IsYearSelector(c, year)
    ensures IsMidnight(end)
  {
    if year == 0 then EndOfMonthDay(c.currentYear, c.currentMonth) else EndOfYearDay(year)
  }

  /**
    The shared `for day in stride(from: from, to: to, by: 60*60*24)` loop of `weekData`
    and `monthData`: one entry per day from `from` up to, not including, `to`.
  */
  method DailyReadings(filtered: seq<Reading>, from: int, to: int) returns (result: seq<Reading>)
    ensures IsDailySeries(result, filtered, from, |result|)
    ensures to <= from + |result| * SecondsPerDay
    ensures |result| > 0 ==> from + (|result| - 1) * SecondsPerDay < to
  {
    result := [];
    var day := from;
    while day < to
      invariant day == from + |result| * SecondsPerDay
      invariant |result| > 0 ==> day - SecondsPerDay < to
      invariant IsDailySeries(result, filtered, from, |result|)
      decreases if day < to then to - day else 0
    {
      var dayReadings := 0;
      dayReadings := dayReadings + SumAt(filtered, day);
      result := result + [Reading(day, dayReadings)];
      day := day + SecondsPerDay;
    }
  }

  /**
    The daily series of a window of `days` days from `start`, reading from `readings`
    filtered to the closed window up to `end`, as `weekData` and `monthData` build it.
  */
  method WindowSeries(readings: seq<Reading>, start: int, end: int, days: nat) returns (result: seq<Reading>)
    requires end == start + days * SecondsPerDay
    ensures IsDailySeries(result, readings, start, days)
    ensures Total(result) == SumOnGrid(readings, start, days)
  {
    var filtered := Window(readings, start, end);
    result := DailyReadings(filtered, start, end);
    WindowedDailySeries(result, readings, start, end, days);
    DailySeriesTotal(result, readings, start, days);
  }

  /** `weekData(_:)`: seven daily totals from `weekStart(week)`. */
  method WeekData(c: Clock, readings: seq<Reading>, week: int) returns (result: seq<Reading>)
    requires c.Valid() && IsWeekSelector(c, week)
    ensures IsDailySeries(result, readings, WeekStart(c, week), DaysPerWeek)
    ensures Total(result) == SumOnGrid(readings, WeekStart(c, week), DaysPerWeek)
  {
    var weekStart := WeekStart(c, week);
    var weekEnd := WeekEnd(c, week);
    WeekWindow(c, week);
    result := WindowSeries(readings, weekStart, weekEnd, DaysPerWeek);
  }

  /** `monthData(_:)`: one daily total per day of the month window. */
  method MonthData(c: Clock, readings: seq<Reading>, month: int) returns (result: seq<Reading>)
    requires c.Valid() && IsMonthSelector(month)
    ensures IsDailySeries(result, readings, MonthStart(c, month), MonthLength(c, month))
    ensures Total(result) == SumOnGrid(readings, MonthStart(c, month), MonthLength(c, month))
  {
    var monthStart := MonthStart(c, month);
    var monthEnd := MonthEnd(c, month) + SecondsPerDay;
    MonthWindow(c, month);
    result := WindowSeries(readings, monthStart, monthEnd, MonthLength(c, month));
  }

  /**
    A reading logged exactly at the end of a week window passes the closed-window filter
    but matches none of the seven bucket days.
  */
  lemma WeekEndReadingUncounted(c: Clock, readings: seq<Reading>, week: int, r: Reading)
    requires IsWeekSelector(c, week) && r in readings && r.period == WeekEnd(c, week)
    ensures r in Window(readings, WeekStart(c, week), WeekEnd(c, week))
    ensures !OnGrid(r.period, WeekStart(c, week), DaysPerWeek)
  {
    WeekWindow(c, week);
  }

  /** When readings are logged at midnights, a week's series totals the readings of its seven days. */
  lemma WeekTotalOfMidnightReadings(c: Clock, readings: seq<Reading>, week: int)
    requires IsWeekSelector(c, week)
    requires forall r :: r in readings ==> IsMidnight(r.period)
    ensures SumOnGrid(readings, WeekStart(c, week), DaysPerWeek)
         == SumIn(readings, WeekStart(c, week), WeekEnd(c, week) - SecondsPerDay)
  {
    WeekWindow(c, week);
    MidnightGridIsWindow(readings, WeekStart(c, week), DaysPerWeek);
  }

  /** One entry of a year series: month `ym` labelled with its first day, totalling its closed window. */
  function MonthEntry(readings: seq<Reading>, ym: (int, int)): Reading
    requires 1 <= ym.1 <= 12
  {
    Reading(DateFrom(ym.0, ym.1), SumIn(readings, DateFrom(ym.0, ym.1), EndOfMonthDay(ym.0, ym.1)))
  }

  /**
    The month of entry `i` of `yearData(year)`: for 0, the twelve months ending with the
    current one, oldest first; for a year, its months January to December.
  */
  function YearEntryMonth(c: Clock, year: int, i: int): (ym: (int, int))
    requires c.Valid() && IsYearSelector(c, year) && 0 <= i < 12
    ensures 1 <= ym.1 <= 12
    ensures year == 0 ==> MonthIndex(ym.0, ym.1) == MonthIndex(c.currentYear, c.currentMonth) - 11 + i
    ensures year != 0 ==> ym.0 == year && MonthIndex(ym.0, ym.1) == MonthIndex(year, 1) + i
  {
    if year != 0 then (year, i + 1)
    else if i < 12 - c.currentMonth then (c.currentYear - 1, c.currentMonth + 1 + i)
    else (c.currentYear, i - (12 - c.currentMonth) + 1)
  }

  /**
    `yearData(_:)`, with the two corrections listed as findings: in December the rolling
    year is this year's twelve months instead of trapping on `13...12`, and a chosen year's
    months are totalled over that year's month windows.
  */
  method YearData(c: Clock, readings: seq<Reading>, year: int) returns (result: seq<Reading>)
    requires c.Valid() && IsYearSelector(c, year)
    ensures |result| == 12
    ensures forall i :: 0 <= i < 12 ==> result[i] == MonthEntry(readings, YearEntryMonth(c, year, i))
  {
    var yearStart := YearStart(c, year);
    var yearEnd := YearEnd(c, year);
    var filtered := Window(readings, yearStart, yearEnd);
    if year == 0 {
      result := RollingYearData(c, readings, filtered);
    } else {
      result := CalendarYearData(c, readings, filtered, year);
    }
  }

  /** The `case 0` arm of `yearData`: the months after the current one last year, then this year's. */
  method RollingYearData(c: Clock, readings: seq<Reading>, filtered: seq<Reading>) returns (result: seq<Reading>)
    requires c.Valid() && filtered == Window(readings, YearStart(c, 0), YearEnd(c, 0))
    ensures |result| == 12
    ensures forall i :: 0 <= i < 12 ==> result[i] == MonthEntry(readings, YearEntryMonth(c, 0, i))
  {
    result := RollingMonths(c, readings, filtered, [], c.currentMonth + 1, 13, c.currentYear - 1);
    result := RollingMonths(c, readings, filtered, result, 1, c.currentMonth + 1, c.currentYear);
  }

  /**
    The loop shared by the two `for month in` loops of the `case 0` arm: append, for each
    month from `from` up to, not including, `to`, its entry labelled in `year` and totalled
    over the month selector's window of the year-filtered log.
  */
  method RollingMonths(c: Clock, readings: seq<Reading>, filtered: seq<Reading>, prefix: seq<Reading>, from: int, to: int, year: int)
    returns (result: seq<Reading>)
    requires c.Valid() && filtered == Window(readings, YearStart(c, 0), YearEnd(c, 0))
    requires || (from == c.currentMonth + 1 && to == 13 && year == c.currentYear - 1 && |prefix| == 0)
             || (from == 1 && to == c.currentMonth + 1 && year == c.currentYear && |prefix| == 12 - c.currentMonth)
    requires forall i :: 0 <= i < |prefix| ==> prefix[i] == MonthEntry(readings, YearEntryMonth(c, 0, i))
    ensures |result| == |prefix| + to - from
    ensures forall i :: 0 <= i < |result| ==> result[i] == MonthEntry(readings, YearEntryMonth(c, 0, i))
  {
    result := prefix;
    for month := from to to
      invariant |result| == |prefix| + month - from
      invariant forall i :: 0 <= i < |result| ==> result[i] == MonthEntry(readings, YearEntryMonth(c, 0, i))
    {
      var monthStart := MonthStart(c, month);
      var monthEnd := MonthEnd(c, month);
      var monthReadings := SumIn(filtered, monthStart, monthEnd);
      AppendRollingEntry(c, readings, filtered, result, month, year);
      result := result + [Reading(DateFrom(year, month), monthReadings)];
    }
  }

  /** The `case 2022...year` arm of `yearData`, totalling each month of `year` over its own window. */
  method CalendarYearData(c: Clock, readings: seq<Reading>, filtered: seq<Reading>, year: int) returns (result: seq<Reading>)
    requires c.Valid() && FirstYear <= year <= c.currentYear
    requires filtered == Window(readings, YearStart(c, year), YearEnd(c, year))
    ensures |result| == 12
    ensures forall i :: 0 <= i < 12 ==> result[i] == MonthEntry(readings, YearEntryMonth(c, year, i))
  {
    result := [];
    for month := 1 to 13
      invariant |result| == month - 1
      invariant forall i :: 0 <= i < |result| ==> result[i] == MonthEntry(readings, YearEntryMonth(c, year, i))
    {
      var monthStart := DateFrom(year, month);
      var monthEnd := EndOfMonthDay(year, month);
      var monthReadings := SumIn(filtered, monthStart, monthEnd);
      EntryOfCalendarYear(c, readings, year, month);
      AppendEntry(result, readings, c, year, Reading(DateFrom(year, month), monthReadings));
      result := result + [Reading(DateFrom(year, month), monthReadings)];
    }
  }

  /**
    The entry the rolling-year loops build for month selector `month` at position `k`
    (labelled with the month's first day, totalled over the selector's window of the
    year-filtered log) is entry `k` of the rolling year.
  */
  lemma EntryOfRollingYear(c: Clock, readings: seq<Reading>, filtered: seq<Reading>, k: int, month: int, year: int)
    requires c.Valid() && 0 <= k < 12 && 1 <= month <= 12
    requires k == if month > c.currentMonth then month - c.currentMonth - 1 else 12 - c.currentMonth + month - 1
    requires year == if month > c.currentMonth then c.currentYear - 1 else c.currentYear
    requires filtered == Window(readings, YearStart(c, 0), YearEnd(c, 0))
    ensures YearEntryMonth(c, 0, k) == (year, month)
    ensures MonthEntry(readings, YearEntryMonth(c, 0, k))
         == Reading(DateFrom(year, month), SumIn(filtered, MonthStart(c, month), MonthEnd(c, month)))
  {
    RollingEntryMonth(c, k, month, year);
    RollingEntryIsSelectedMonth(c, k);
    YearEntryInWindow(c, 0, k);
    WindowKeepsSubWindow(readings, YearStart(c, 0), YearEnd(c, 0), MonthStart(c, month), MonthEnd(c, month));
  }

  /** Appending the entry for `month` keeps the prefix the rolling-year loops have built correct. */
  lemma AppendRollingEntry(c: Clock, readings: seq<Reading>, filtered: seq<Reading>, prefix: seq<Reading>, month: int, year: int)
    requires c.Valid() && 1 <= month <= 12
    requires |prefix| == if month > c.currentMonth then month - c.currentMonth - 1 else 12 - c.currentMonth + month - 1
    requires year == if month > c.currentMonth then c.currentYear - 1 else c.currentYear
    requires filtered == Window(readings, YearStart(c, 0), YearEnd(c, 0))
    requires forall i :: 0 <= i < |prefix| ==> prefix[i] == MonthEntry(readings, YearEntryMonth(c, 0, i))
    ensures var entry := Reading(DateFrom(year, month), SumIn(filtered, MonthStart(c, month), MonthEnd(c, month)));
      forall i :: 0 <= i < |prefix| + 1 ==> (prefix + [entry])[i] == MonthEntry(readings, YearEntryMonth(c, 0, i))
  {
    EntryOfRollingYear(c, readings, filtered, |prefix|, month, year);
    AppendEntry(prefix, readings, c, 0, Reading(DateFrom(year, month), SumIn(filtered, MonthStart(c, month), MonthEnd(c, month))));
  }

  /** Position `k` of the rolling year holds month `month` of `year`, as the two loops place it. */
  lemma RollingEntryMonth(c: Clock, k: int, month: int, year: int)
    requires c.Valid() && 0 <= k < 12 && 1 <= month <= 12
    requires k == if month > c.currentMonth then month - c.currentMonth - 1 else 12 - c.currentMonth + month - 1
    requires year == if month > c.currentMonth then c.currentYear - 1 else c.currentYear
    ensures YearEntryMonth(c, 0, k) == (year, month)
  {
  }

  /**
    The entry the calendar-year loop builds for `month` (labelled with its first day,
    totalled over its window of the year-filtered log) is entry `month - 1` of the year.
  */
  lemma EntryOfCalendarYear(c: Clock, readings: seq<Reading>, year: int, month: int)
    requires c.Valid() && FirstYear <= year <= c.currentYear && 1 <= month <= 12
    ensures MonthEntry(readings, YearEntryMonth(c, year, month - 1))
         == Reading(DateFrom(year, month),
                    SumIn(Window(readings, YearStart(c, year), YearEnd(c, year)), DateFrom(year, month), EndOfMonthDay(year, month)))
  {
    assert YearEntryMonth(c, year, month - 1) == (year, month);
    YearEntryInWindow(c, year, month - 1);
    WindowKeepsSubWindow(readings, YearStart(c, year), YearEnd(c, year), DateFrom(year, month), EndOfMonthDay(year, month));
  }

  /** Appending the entry for the next month keeps a prefix of the year series correct. */
  lemma AppendEntry(prefix: seq<Reading>, readings: seq<Reading>, c: Clock, year: int, entry: Reading)
    requires c.Valid() && IsYearSelector(c, year) && |prefix| < 12
    requires forall i :: 0 <= i < |prefix| ==> prefix[i] == MonthEntry(readings, YearEntryMonth(c, year, i))
    requires entry == MonthEntry(readings, YearEntryMonth(c, year, |prefix|))
    ensures forall i :: 0 <= i <= |prefix| ==> (prefix + [entry])[i] == MonthEntry(readings, YearEntryMonth(c, year, i))
  {
  }

  /** The year window runs from the first day of entry 0's month to the last day of entry 11's. */
  lemma YearWindowEnds(c: Clock, year: int)
    requires c.Valid() && IsYearSelector(c, year)
    ensures YearStart(c, year) == DateFrom(YearEntryMonth(c, year, 0).0, YearEntryMonth(c, year, 0).1)
    ensures YearEnd(c, year) == EndOfMonthDay(YearEntryMonth(c, year, 11).0, YearEntryMonth(c, year, 11).1)
  {
    var (y0, m0) := YearEntryMonth(c, year, 0);
    var (y11, m11) := YearEntryMonth(c, year, 11);
    if year == 0 {
      if c.currentMonth < 12 {
        MonthOrder(y0, m0, c.currentYear - 1, c.currentMonth + 1);
      } else {
        MonthOrder(y0, m0, c.currentYear, 1);
      }
      MonthOrder(y11, m11, c.currentYear, c.currentMonth);
    }
  }

  /** Every month of a year series lies inside the year window. */
  lemma YearEntryInWindow(c: Clock, year: int, i: int)
    requires c.Valid() && IsYearSelector(c, year) && 0 <= i < 12
    ensures YearStart(c, year) <= DateFrom(YearEntryMonth(c, year, i).0, YearEntryMonth(c, year, i).1)
    ensures EndOfMonthDay(YearEntryMonth(c, year, i).0, YearEntryMonth(c, year, i).1) <= YearEnd(c, year)
  {
    var ym0 := YearEntryMonth(c, year, 0);
    var ym := YearEntryMonth(c, year, i);
    var ym11 := YearEntryMonth(c, year, 11);
    YearWindowEnds(c, year);
    MonthWithin(ym0.0, ym0.1, ym.0, ym.1, ym11.0, ym11.1);
  }

  /** Entry `i` of the rolling year is the month that month selector `ym.1` picks. */
  lemma RollingEntryIsSelectedMonth(c: Clock, i: int)
    requires c.Valid() && 0 <= i < 12
    ensures YearEntryMonth(c, 0, i).0 == SelectedMonthYear(c, YearEntryMonth(c, 0, i).1)
    ensures MonthStart(c, YearEntryMonth(c, 0, i).1) == DateFrom(YearEntryMonth(c, 0, i).0, YearEntryMonth(c, 0, i).1)
    ensures MonthEnd(c, YearEntryMonth(c, 0, i).1) == EndOfMonthDay(YearEntryMonth(c, 0, i).0, YearEntryMonth(c, 0, i).1)
  {
  }

  /** Consecutive entries of a year series are consecutive calendar months. */
  lemma YearEntriesConsecutive(c: Clock, year: int, i: int)
    requires c.Valid() && IsYearSelector(c, year) && 0 <= i < 11
    ensures YearEntryMonth(c, year, i + 1) == NextMonth(YearEntryMonth(c, year, i).0, YearEntryMonth(c, year, i).1)
  {
    var ym := YearEntryMonth(c, year, i);
    var next := NextMonth(ym.0, ym.1);
    var ym' := YearEntryMonth(c, year, i + 1);
    MonthOrder(next.0, next.1, ym'.0, ym'.1);
  }

  /** Entry `k` of a year series begins the day after entry `k - 1` ends, inside the year window. */
  lemma YearEntryFollows(c: Clock, year: int, k: int)
    requires c.Valid() && IsYearSelector(c, year) && 1 <= k < 12
    ensures var prev := YearEntryMonth(c, year, k - 1);
      var ym := YearEntryMonth(c, year, k);
      && DateFrom(ym.0, ym.1) == EndOfMonthDay(prev.0, prev.1) + SecondsPerDay
      && YearStart(c, year) <= EndOfMonthDay(prev.0, prev.1)
      && EndOfMonthDay(prev.0, prev.1) <= EndOfMonthDay(ym.0, ym.1)
  {
    var prev := YearEntryMonth(c, year, k - 1);
    YearEntriesConsecutive(c, year, k - 1);
    DateFromNextMonth(prev.0, prev.1);
    YearEntryInWindow(c, year, k - 1);
  }

  /**
    The closed windows of the twelve months of a year series, in order: they are adjacent,
    and together they span the year window.
  */
  lemma YearWindows(c: Clock, year: int) returns (windows: seq<(int, int)>)
    requires c.Valid() && IsYearSelector(c, year)
    ensures |windows| == 12 && Adjacent(windows)
    ensures forall i :: 0 <= i < 12 ==>
      windows[i] == (DateFrom(YearEntryMonth(c, year, i).0, YearEntryMonth(c, year, i).1),
                     EndOfMonthDay(YearEntryMonth(c, year, i).0, YearEntryMonth(c, year, i).1))
    ensures windows[0].0 == YearStart(c, year) && windows[11].1 == YearEnd(c, year)
  {
    windows := seq(12, i requires 0 <= i < 12 =>
      (DateFrom(YearEntryMonth(c, year, i).0, YearEntryMonth(c, year, i).1),
       EndOfMonthDay(YearEntryMonth(c, year, i).0, YearEntryMonth(c, year, i).1)));
    YearWindowsAdjacent(c, year, windows);
    YearWindowEnds(c, year);
  }

  /** Each month window of a year series begins the day after the previous one ends. */
  lemma YearWindowsAdjacent(c: Clock, year: int, windows: seq<(int, int)>)
    requires c.Valid() && IsYearSelector(c, year) && |windows| == 12
    requires forall i :: 0 <= i < 12 ==>
      windows[i] == (DateFrom(YearEntryMonth(c, year, i).0, YearEntryMonth(c, year, i).1),
                     EndOfMonthDay(YearEntryMonth(c, year, i).0, YearEntryMonth(c, year, i).1))
    ensures Adjacent(windows)
  {
    forall i | 0 < i < 12
      ensures windows[i].0 == windows[i - 1].1 + SecondsPerDay
    {
      YearEntryFollows(c, year, i);
    }
  }

  /**
    When readings are logged at midnights, a year series totals every reading of its year
    window: the twelve month windows leave out nothing but non-midnight instants.
  */
  lemma YearSeriesTotal(c: Clock, readings: seq<Reading>, year: int, series: seq<Reading>)
    requires c.Valid() && IsYearSelector(c, year) && |series| == 12
    requires forall i :: 0 <= i < 12 ==> series[i] == MonthEntry(readings, YearEntryMonth(c, year, i))
    requires forall r :: r in readings ==> IsMidnight(r.period)
    ensures Total(series) == SumIn(readings, YearStart(c, year), YearEnd(c, year))
  {
    var windows := YearWindows(c, year);
    forall i | 0 <= i < 12
      ensures series[i].readings == SumIn(readings, windows[i].0, windows[i].1)
    {
    }
    AdjacentWindowsWholeTotal(readings, windows, series);
  }

  /**
    When readings are logged at midnights, each entry of the rolling year equals the total
    of the month series that its month selector draws.
  */
  lemma RollingEntryMatchesMonthSeries(c: Clock, readings: seq<Reading>, i: int)
    requires c.Valid() && 0 <= i < 12
    requires forall r :: r in readings ==> IsMidnight(r.period)
    ensures MonthEntry(readings, YearEntryMonth(c, 0, i)).readings
         == SumOnGrid(readings, MonthStart(c, YearEntryMonth(c, 0, i).1), MonthLength(c, YearEntryMonth(c, 0, i).1))
  {
    var ym := YearEntryMonth(c, 0, i);
    RollingEntryIsSelectedMonth(c, i);
    MonthWindow(c, ym.1);
    MidnightGridIsWindow(readings, DateFrom(ym.0, ym.1), DaysInMonth(ym.0, ym.1));
  }

  // ----- `yearData` as written, for the findings -----

  /** Swift's closed range `lo...hi` as the values it iterates; `None` where forming it traps. */
  function ClosedRange(lo: int, hi: int): (r: Option<seq<int>>)
    ensures r.Some? <==> lo <= hi
    ensures r.Some? ==> |r.value| == hi - lo + 1 && forall i :: 0 <= i < |r.value| ==> r.value[i] == lo + i
  {
    if lo <= hi then Some(seq(hi - lo + 1, i => lo + i)) else None
  }

  /**
    The (year, month) pairs the two loops of `yearData(0)` walk as written,
    `(currentMonth+1)...12` of last year then `1...currentMonth` of this year, or `None`
    when forming one of the ranges traps.
  */
  function RollingMonthsAsWritten(c: Clock): (r: Option<seq<(int, int)>>)
    requires c.Valid()
    ensures c.currentMonth == 12 ==> r.None?
    ensures c.currentMonth < 12 ==> r.Some?
    ensures r.Some? ==> |r.value| == 12 && forall i :: 0 <= i < 12 ==> 1 <= r.value[i].1 <= 12
  {
    match ClosedRange(c.currentMonth + 1, 12)
    case None => None
    case Some(lastYear) =>
      match ClosedRange(1, c.currentMonth)
      case None => None
      case Some(thisYear) =>
        Some(InYear(c.currentYear - 1, lastYear) + InYear(c.currentYear, thisYear))
  }

  /** Each month of `months` paired with `year`, in order. */
  function InYear(year: int, months: seq<int>): (r: seq<(int, int)>)
    ensures |r| == |months|
    ensures forall i :: 0 <= i < |r| ==> r[i] == (year, months[i])
  {
    if months == [] then [] else [(year, months[0])] + InYear(year, months[1..])
  }

  /** As written, `yearData(0)` traps exactly in December; in other months it walks the corrected months. */
  lemma RollingMonthsAsWrittenTrapsInDecember(c: Clock)
    requires c.Valid()
    ensures RollingMonthsAsWritten(c).None? <==> c.currentMonth == 12
    ensures c.currentMonth < 12 ==>
      RollingMonthsAsWritten(c).Some? && |RollingMonthsAsWritten(c).value| == 12 &&
      forall i :: 0 <= i < 12 ==> RollingMonthsAsWritten(c).value[i] == YearEntryMonth(c, 0, i)
  {
  }

  /** A valid December clock on which `yearData(0)` as written traps. */
  lemma DecemberRollingYearTraps()
    ensures Clock(DateFrom(2024, 12), 2024, 12, 49).Valid()
    ensures RollingMonthsAsWritten(Clock(DateFrom(2024, 12), 2024, 12, 49)) == None
  {
    RollingMonthsAsWrittenTrapsInDecember(Clock(DateFrom(2024, 12), 2024, 12, 49));
  }

  /**
    Entry `month` of `yearData(year)` for a chosen year as written: labelled with the month
    of `year`, but totalled over the window of month selector `month`, which lies in this
    or last year whatever `year` is, intersected with `year`'s window by the filter: the
    total is the readings in both windows.
  */
  function CalendarYearEntryAsWritten(c: Clock, readings: seq<Reading>, year: int, month: int): (e: Reading)
    requires c.Valid() && FirstYear <= year <= c.currentYear && 1 <= month <= 12
    ensures e.period == DateFrom(year, month)
    ensures var lo := if YearStart(c, year) < MonthStart(c, month) then MonthStart(c, month) else YearStart(c, year);
      var hi := if YearEnd(c, year) < MonthEnd(c, month) then YearEnd(c, year) else MonthEnd(c, month);
      e.readings == SumIn(readings, lo, hi)
  {
    var filtered := Window(readings, YearStart(c, year), YearEnd(c, year));
    WindowThenSum(readings, YearStart(c, year), YearEnd(c, year), MonthStart(c, month), MonthEnd(c, month));
    Reading(DateFrom(year, month), SumIn(filtered, MonthStart(c, month), MonthEnd(c, month)))
  }

  /**
    As written, a chosen year's entry is that month's entry only when month selector
    `month` happens to pick that year; otherwise it is zero whatever was logged.
  */
  lemma CalendarYearEntryAsWrittenMissesOtherYears(c: Clock, readings: seq<Reading>, year: int, month: int)
    requires c.Valid() && FirstYear <= year <= c.currentYear && 1 <= month <= 12
    ensures SelectedMonthYear(c, month) == year ==>
      CalendarYearEntryAsWritten(c, readings, year, month) == MonthEntry(readings, (year, month))
    ensures SelectedMonthYear(c, month) != year ==>
      CalendarYearEntryAsWritten(c, readings, year, month).readings == 0
  {
    var y := SelectedMonthYear(c, month);
    MonthWindow(c, month);
    if y == year {
      MonthWithin(year, 1, y, month, year, 12);
      WindowKeepsSubWindow(readings, YearStart(c, year), YearEnd(c, year), MonthStart(c, month), MonthEnd(c, month));
    } else if y < year {
      MonthOrder(y, month, year, 1);
      WindowMissesDisjointWindow(readings, YearStart(c, year), YearEnd(c, year), MonthStart(c, month), MonthEnd(c, month));
    } else {
      MonthOrder(year, 12, y, month);
      WindowMissesDisjointWindow(readings, YearStart(c, year), YearEnd(c, year), MonthStart(c, month), MonthEnd(c, month));
    }
  }

  /** In June 2024, March 2023's five readings show as zero in `yearData(2023)` as written. */
  lemma PastYearMonthReadsZero()
    ensures Clock(DateFrom(2024, 6), 2024, 6, 23).Valid()
    ensures CalendarYearEntryAsWritten(Clock(DateFrom(2024, 6), 2024, 6, 23), [Reading(DateFrom(2023, 3), 5)], 2023, 3).readings == 0
    ensures MonthEntry([Reading(DateFrom(2023, 3), 5)], (2023, 3)).readings == 5
  {
    var c := Clock(DateFrom(2024, 6), 2024, 6, 23);
    CalendarYearEntryAsWrittenMissesOtherYears(c, [Reading(DateFrom(2023, 3), 5)], 2023, 3);
  }
}
