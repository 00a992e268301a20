# Mantra Reader counter, statistics, preset picker and numeric field, in Dafny

Mantra Reader is an iOS app for counting mantra recitations ("reads") towards a goal.
This project models four pieces of its logic and proves properties about them.

- **Reads counter** (`ReadsCount`, with `IntegerParsing` for Swift's `UInt32(text)` /
  `Int32(text)`). The adjustment dialog validates a typed number: add reads, add rounds
  of 108, set the count, or set the goal. The view model then applies the adjustment,
  pushing the overwritten value onto a last-in-first-out undo log, and undo pops it back.
  - `ReadsViewModel` is a class whose methods are proved against the value-level functions
    `Adjust` and `Undo`.
  - The lemmas relate those functions to each other: undo inverts adjust, a run of
    adjustments is undone by as many undos, and validation bounds every stored value.
- **Statistics** (`Statistics`, over `Calendar` and `ReadingSums`). A period selector
  picks a window relative to today: week 0 or week *n* of this year; month 0 (the last 31
  days) or month *n*; the rolling year or a calendar year from 2022. The view model then
  builds a dense series of per-day or per-month totals from the reading log.
  - The window functions are pure.
  - The series builders are methods with loops, proved to produce the series that
    `IsDailySeries` and `MonthEntry` specify.
  - Lemmas add the series up against the log.
  - The calendar is a concrete proleptic Gregorian calendar on integer seconds.
- **Preset mantra picker** (`PreloadedMantras`). Selecting a preset toggles its title in
  the set of selected titles and sets the flag of the first row with that title.
- **Numeric text field** (`NumericText`). Every character except `-` and ASCII digits is
  dropped, and the text is written back only when something was dropped.

The current instant and its year, month and week of year are a `Clock` parameter. The
readings log is an input sequence.

## Model

| member | source | states |
|---|---|---|
| IntegerParsing.ParseInteger | MantraReader/ReadsViewModel.swift:52 | a failable integer parse yields only values the target type can hold |
| IntegerParsing.ParseUInt32 | MantraReader/ReadsViewModel.swift:52 | `UInt32(text)` yields a value in `0...UInt32.max` or fails |
| IntegerParsing.ParseInt32 | MantraReader/ReadsCountScreen/ReadsView.swift:347 | `Int32(text)` yields a value in the `Int32` range or fails |
| IntegerParsing.Decimal | MantraReader/ReadsViewModel.swift:52 | the reference rendering (Swift's `String(n)`, which the source does not call) that the parse round-trip is stated against: a non-empty run of digits with no leading zero |
| IntegerParsing.DecimalValue | MantraReader/ReadsViewModel.swift:52 | reading the digits of a rendered numeral gives the number back |
| IntegerParsing.ParseNumeral | MantraReader/ReadsViewModel.swift:52 | parsing a rendered integer gives it back exactly when the type can hold it, and fails otherwise |
| IntegerParsing.ParseAcrossTypes | MantraReader/ReadsCountScreen/ReadsView.swift:346-347 | text accepted by one integer type is accepted with the same value by any type that holds that value |
| IntegerParsing.UnsignedMinusIsZero | MantraReader/ReadsViewModel.swift:52 | `UInt32` parsing accepts a minus sign only on zero, so negative input never validates |
| IntegerParsing.ParsedTextIsNumeral | MantraReader/ReadsViewModel.swift:52 | any text that parses is an optional sign followed by digits only |
| ReadsCount.Adjust | MantraReader/ReadsViewModel.swift:121-137 | an adjustment without a kind changes nothing; otherwise it appends exactly one undo entry and keeps the earlier log |
| ReadsCount.Undo | MantraReader/ReadsViewModel.swift:109-119 | undo on an empty log changes nothing; otherwise it drops only the last entry and keeps the earlier ones |
| ReadsCount.AdjustRecordsPriorValue | MantraReader/ReadsViewModel.swift:121-137 | reads/rounds/value adjustments log the old count as `.value` and change only the count; goal adjustments log the old goal as `.goal` and change only the goal |
| ReadsCount.UndoAfterAdjust | MantraReader/ReadsViewModel.swift:109-137 | undo right after any adjustment restores count, goal and undo log |
| ReadsCount.UndoRestoresNamedField | MantraReader/ReadsViewModel.swift:111-118 | undo writes the logged value back into the field its entry names and leaves the other field alone |
| ReadsCount.AdjustAll | MantraReader/ReadsViewModel.swift:121-137 | a run of adjustments grows the undo log by one entry per adjustment |
| ReadsCount.UndoEveryAdjustment | MantraReader/ReadsViewModel.swift:109-137 | undoing as many times as there were adjustments restores the state from before all of them |
| ReadsCount.IsValidUpdatingNumber | MantraReader/ReadsViewModel.swift:49-69 | a valid entry has text, a kind and a `UInt32` value, and the value it would write lies in `0...1_000_000` |
| ReadsCount.IsValidUpdatingNumberAsWritten | MantraReader/ReadsViewModel.swift:49-69 | the check as written can trap only for `.reads` and `.rounds` |
| ReadsCount.UInt32SumInRange | MantraReader/ReadsViewModel.swift:58 | `0...1_000_000 ~= UInt32(mantra.reads) + m` traps exactly when the count is negative or the sum passes `UInt32.max`; otherwise it answers whether the sum is in `0...1_000_000` |
| ReadsCount.AsWrittenAgreesWhenNoTrap | MantraReader/ReadsViewModel.swift:49-69 | wherever the check as written does not trap, it answers as the intended check does |
| ReadsCount.AsWrittenTrapsExactlyOnUInt32Sum | MantraReader/ReadsViewModel.swift:57-65 | the check as written traps exactly when `UInt32(reads) + n` (or `+ n*108`, when that product fits) overflows or the count is negative |
| ReadsCount.ReadsSumTraps | MantraReader/ReadsViewModel.swift:58 | with a positive count, entering 4294967295 for `.reads` traps where the intended answer is "invalid" |
| ReadsCount.RoundsSumTraps | MantraReader/ReadsViewModel.swift:64 | at count 100, entering 39768215 rounds traps where the intended answer is "invalid" |
| ReadsCount.ValidatedAdjustmentInBounds | MantraReader/ReadsCountScreen/ReadsView.swift:345-348 | a validated number parses as the same `Int32`, so the caller's guard never fails; applying it does not overflow and writes a value in `0...1_000_000` |
| ReadsCount.ValidatedAdjustmentKeepsBounds | MantraReader/ReadsViewModel.swift:121-137 | a validated adjustment keeps the count, the goal and every restorable value in `0...1_000_000` |
| ReadsCount.UndoKeepsBounds | MantraReader/ReadsViewModel.swift:109-119 | undo keeps the count, the goal and every restorable value in `0...1_000_000` |
| ReadsCount.Mantra.constructor | MantraReader/ReadsViewModel.swift:14 | a mantra holds the given count, goal and favourite flag |
| ReadsCount.ReadsViewModel.constructor | MantraReader/ReadsViewModel.swift:36-42 | the view model starts on the given mantra with an empty undo log |
| ReadsCount.ReadsViewModel.ToggleFavorite | MantraReader/ReadsViewModel.swift:44-47 | the favourite flag flips; count, goal and undo log are untouched |
| ReadsCount.ReadsViewModel.ToggleFavoriteTwice | MantraReader/ReadsViewModel.swift:44-47 | toggling twice leaves the favourite flag as it was |
| ReadsCount.ReadsViewModel.AdjustMantraReads | MantraReader/ReadsViewModel.swift:139-142 | only the count changes, to the given value |
| ReadsCount.ReadsViewModel.AdjustMantraGoal | MantraReader/ReadsViewModel.swift:162-165 | only the goal changes, to the given value |
| ReadsCount.ReadsViewModel.HandleAdjusting | MantraReader/ReadsViewModel.swift:121-137 | the new count, goal and log are `Adjust` of the old ones; `Int32` storage stays valid |
| ReadsCount.ReadsViewModel.HandleUndo | MantraReader/ReadsViewModel.swift:109-119 | the new count, goal and log are `Undo` of the old ones, so an empty log (undo button disabled) changes nothing |
| ReadsCount.ReadsViewModel.ValidateAndHandleAdjusting | MantraReader/ReadsCountScreen/ReadsView.swift:345-355 | the entry is applied exactly when it validates, which then leaves a non-empty undo log; a rejected entry changes nothing; bounded state stays bounded |
| Calendar.DaysInMonth | MantraReader/StatisticsScreen/StatisticsViewModel.swift:97 | months have 28 to 31 days; only February is shorter than 30 days, and it has 29 exactly in leap years |
| Calendar.DaysBeforeNextMonth | MantraReader/StatisticsScreen/StatisticsViewModel.swift:97 | the days before the next month are those before this month plus this month's length; the twelve months make up the year |
| Calendar.FirstDayOfNextYear | MantraReader/StatisticsScreen/StatisticsViewModel.swift:148 | consecutive years begin a year's length apart |
| Calendar.StartOfDay | MantraReader/StatisticsScreen/StatisticsViewModel.swift:66 | `startOfDay` is a midnight, and the instant lies within the day it begins |
| Calendar.DateFrom | MantraReader/StatisticsScreen/StatisticsViewModel.swift:88 | `date(year:month:)` is a midnight |
| Calendar.DateFromYear | MantraReader/StatisticsScreen/StatisticsViewModel.swift:140 | `date(year:)` is 1 January |
| Calendar.EndOfMonthDay | MantraReader/StatisticsScreen/StatisticsViewModel.swift:97-98 | `endOfMonth.startOfDay` is the midnight beginning the month's last day |
| Calendar.EndOfYearDay | MantraReader/StatisticsScreen/StatisticsViewModel.swift:148 | `endOfYear.startOfDay` is the midnight beginning 31 December |
| Calendar.FirstSundayOfYear | MantraReader/StatisticsScreen/StatisticsViewModel.swift:59 | week 1 begins on the Sunday on or before 1 January |
| Calendar.DateFromWeek | MantraReader/StatisticsScreen/StatisticsViewModel.swift:59 | `date(year:weekDay:weekOfYear:)` is a midnight on the requested weekday, and week 1 lies within six days of 1 January |
| Calendar.ConsecutiveWeeks | MantraReader/StatisticsScreen/StatisticsViewModel.swift:67 | the same weekday of consecutive weeks is seven days apart |
| Calendar.NextMonth | MantraReader/StatisticsScreen/StatisticsViewModel.swift:111-121 | the month after a month is the next in calendar order, across the year end |
| Calendar.DateFromNextMonth | MantraReader/StatisticsScreen/StatisticsViewModel.swift:111-121 | the next month begins the day after this month's last day |
| Calendar.LaterMonthStartsLater | MantraReader/StatisticsScreen/StatisticsViewModel.swift:111-121 | every instant of an earlier month precedes the start of a later month |
| Calendar.MonthOrder | MantraReader/StatisticsScreen/StatisticsViewModel.swift:111-121 | month windows are disjoint and ordered like the months |
| Calendar.MonthWithin | MantraReader/StatisticsScreen/StatisticsViewModel.swift:107 | a month between two others lies inside the span from the first's start to the last's last day |
| ReadingSums.Window | MantraReader/StatisticsScreen/StatisticsViewModel.swift:47 | every reading the closed-window filter keeps is in the log and inside the window, and every reading of the log inside the window is kept (membership; multiplicity and order are stated by the two lemmas below) |
| ReadingSums.WindowMultiplicity | MantraReader/StatisticsScreen/StatisticsViewModel.swift:47 | the filter keeps each reading inside the window exactly as often as the log holds it, and no reading outside it |
| ReadingSums.WindowOfConcat | MantraReader/StatisticsScreen/StatisticsViewModel.swift:47 | the filter of a log split in two is the filter of the first part followed by that of the second, so log order is kept |
| ReadingSums.SumAtIsOneDayWindow | MantraReader/StatisticsScreen/StatisticsViewModel.swift:50 | the exact-instant sum of the `filter { $0.period == day }...reduce(0, +)` chain equals the closed-window sum over the one-instant window |
| ReadingSums.SumIn | MantraReader/StatisticsScreen/StatisticsViewModel.swift:114 | the `filter { (monthStart...monthEnd).contains($0.period) }...reduce(0, +)` sum over an empty window is zero |
| ReadingSums.WindowThenSum | MantraReader/StatisticsScreen/StatisticsViewModel.swift:107-114 | summing a window on the log narrowed to another window sums the readings in the intersection of the two |
| ReadingSums.WindowKeepsDay | MantraReader/StatisticsScreen/StatisticsViewModel.swift:47-50 | summing a day after filtering to a window that holds it equals summing the unfiltered log |
| ReadingSums.WindowKeepsSubWindow | MantraReader/StatisticsScreen/StatisticsViewModel.swift:107-128 | summing a sub-window of the year-filtered log equals summing it on the whole log |
| ReadingSums.WindowMissesDisjointWindow | MantraReader/StatisticsScreen/StatisticsViewModel.swift:107-128 | a window disjoint from the filter's window sums to zero on the filtered log |
| ReadingSums.GridStep | MantraReader/StatisticsScreen/StatisticsViewModel.swift:48-51 | one more day of buckets adds that day's sum |
| ReadingSums.DailySeriesTotal | MantraReader/StatisticsScreen/StatisticsViewModel.swift:48-52 | a daily series totals the readings logged exactly on its bucket days |
| ReadingSums.MidnightGridIsWindow | MantraReader/StatisticsScreen/StatisticsViewModel.swift:47-50 | for midnight readings, the bucket days hold every reading from the first to the last day |
| ReadingSums.SplitWindowAtMidnight | MantraReader/StatisticsScreen/StatisticsViewModel.swift:114-128 | for midnight readings, a window splits at a midnight into two adjacent windows whose sums add up |
| ReadingSums.WindowedDailySeries | MantraReader/StatisticsScreen/StatisticsViewModel.swift:47-52 | a daily series of the log filtered to a closed window covering its days is a daily series of the unfiltered log |
| ReadingSums.AdjacentWindowsTotal | MantraReader/StatisticsScreen/StatisticsViewModel.swift:114-128 | for midnight readings, the entries of a run of adjacent month windows add up to the readings from the first window's start to the last one's end |
| ReadingSums.AdjacentWindowsWholeTotal | MantraReader/StatisticsScreen/StatisticsViewModel.swift:114-128 | for midnight readings, a whole run of adjacent windows totals the span it covers |
| Statistics.WeekStart | MantraReader/StatisticsScreen/StatisticsViewModel.swift:56-62 | a week window starts at a midnight; from week 1 on, on a Monday |
| Statistics.WeekEnd | MantraReader/StatisticsScreen/StatisticsViewModel.swift:64-70 | a week window ends at a midnight; week 0's ends at the start of tomorrow |
| Statistics.WeekWindow | MantraReader/StatisticsScreen/StatisticsViewModel.swift:56-70 | every week window is seven days; week 0 runs from six days before today; week *n* is week *n* of this year and is followed by week *n+1* |
| Statistics.SelectedMonthYear | MantraReader/StatisticsScreen/StatisticsViewModel.swift:88-89 | month selector *n* picks one of the last twelve months, the current one included |
| Statistics.MonthStart | MantraReader/StatisticsScreen/StatisticsViewModel.swift:85-92 | every month window starts at a midnight |
| Statistics.MonthEnd | MantraReader/StatisticsScreen/StatisticsViewModel.swift:94-101 | every month window's last day starts at a midnight |
| Statistics.MonthWindow | MantraReader/StatisticsScreen/StatisticsViewModel.swift:75-101 | month 0 is the 31 days ending today; month *n* is this year's month *n* up to the current month and last year's after it, its days exactly the month's length |
| Statistics.YearStart | MantraReader/StatisticsScreen/StatisticsViewModel.swift:137-143 | year windows start at a midnight |
| Statistics.YearEnd | MantraReader/StatisticsScreen/StatisticsViewModel.swift:145-151 | year windows end on a day starting at a midnight |
| Statistics.DailyReadings | MantraReader/StatisticsScreen/StatisticsViewModel.swift:48-52 | the stride loop yields one entry per day, in order, from the start up to but excluding the end, each the sum of that exact instant, zero when nothing was logged |
| Statistics.WindowSeries | MantraReader/StatisticsScreen/StatisticsViewModel.swift:43-54 | filtering to the closed window first does not change any day's sum; the series totals the readings on its bucket days |
| Statistics.WeekData | MantraReader/StatisticsScreen/StatisticsViewModel.swift:43-54 | seven daily entries from the week's start, totalling the readings on those days |
| Statistics.MonthData | MantraReader/StatisticsScreen/StatisticsViewModel.swift:72-83 | one daily entry per day of the month window (31 for month 0), totalling the readings on those days |
| Statistics.WeekEndReadingUncounted | MantraReader/StatisticsScreen/StatisticsViewModel.swift:47-48 | a reading at the week's end passes the closed filter yet lands in no bucket |
| Statistics.WeekTotalOfMidnightReadings | MantraReader/StatisticsScreen/StatisticsViewModel.swift:43-54 | for midnight readings, a week's series totals all readings of its seven days |
| Statistics.YearEntryMonth | MantraReader/StatisticsScreen/StatisticsViewModel.swift:110-131 | rolling-year entry *i* is the month 11 - *i* months before the current one; calendar-year entry *i* is month *i* + 1 of that year |
| Statistics.YearData | MantraReader/StatisticsScreen/StatisticsViewModel.swift:103-135 | twelve entries, entry *i* labelled with the first day of its month and totalling that month's closed window on the unfiltered log |
| Statistics.RollingYearData | MantraReader/StatisticsScreen/StatisticsViewModel.swift:110-123 | the two loops produce the twelve months ending with the current one, oldest first |
| Statistics.RollingMonths | MantraReader/StatisticsScreen/StatisticsViewModel.swift:111-122 | each of the two loops appends its months, last year's after the current month and then this year's, each entry the matching rolling-year entry |
| Statistics.CalendarYearData | MantraReader/StatisticsScreen/StatisticsViewModel.swift:124-131 | the loop produces January to December of the chosen year |
| Statistics.EntryOfCalendarYear | MantraReader/StatisticsScreen/StatisticsViewModel.swift:124-128 | the entry the loop builds for month *m* of a chosen year is that month's entry, since the month's window lies inside the year window |
| Statistics.EntryOfRollingYear | MantraReader/StatisticsScreen/StatisticsViewModel.swift:111-122 | the entry the loops build for selector *m* is the matching rolling-year entry, since month windows lie inside the year window |
| Statistics.AppendRollingEntry | MantraReader/StatisticsScreen/StatisticsViewModel.swift:111-122 | appending the entry for the next selector keeps the built prefix equal to the rolling year's first entries |
| Statistics.RollingEntryMonth | MantraReader/StatisticsScreen/StatisticsViewModel.swift:111-122 | the loops place last year's months after the current one first, then this year's |
| Statistics.AppendEntry | MantraReader/StatisticsScreen/StatisticsViewModel.swift:110-131 | appending the next month's entry extends a correct prefix of the year series |
| Statistics.YearWindowEnds | MantraReader/StatisticsScreen/StatisticsViewModel.swift:137-151 | the year window runs from the first day of the first entry's month to the last day of the last entry's |
| Statistics.YearEntryInWindow | MantraReader/StatisticsScreen/StatisticsViewModel.swift:105-128 | each entry's month lies inside the year window |
| Statistics.RollingEntryIsSelectedMonth | MantraReader/StatisticsScreen/StatisticsViewModel.swift:112-119 | a rolling-year entry's month is the month its selector picks, with the same window |
| Statistics.YearEntriesConsecutive | MantraReader/StatisticsScreen/StatisticsViewModel.swift:110-131 | consecutive entries are consecutive calendar months |
| Statistics.YearEntryFollows | MantraReader/StatisticsScreen/StatisticsViewModel.swift:110-131 | each entry's month begins the day after the previous one ends |
| Statistics.YearWindowsAdjacent | MantraReader/StatisticsScreen/StatisticsViewModel.swift:110-131 | the twelve month windows are adjacent, each beginning the day after the previous one ends |
| Statistics.YearWindows | MantraReader/StatisticsScreen/StatisticsViewModel.swift:103-151 | the twelve month windows are adjacent and together span the year window |
| Statistics.YearSeriesTotal | MantraReader/StatisticsScreen/StatisticsViewModel.swift:103-135 | for midnight readings, a year series totals every reading in the year window |
| Statistics.RollingEntryMatchesMonthSeries | MantraReader/StatisticsScreen/StatisticsViewModel.swift:72-83 | for midnight readings, a rolling-year entry equals the total of the month series for the same selector |
| Statistics.ClosedRange | MantraReader/StatisticsScreen/StatisticsViewModel.swift:111 | `lo...hi` can be formed only when `lo <= hi`, and then holds `lo` through `hi` in order |
| Statistics.RollingMonthsAsWritten | MantraReader/StatisticsScreen/StatisticsViewModel.swift:111-121 | the months the two loops walk as written: the walk traps in December, and otherwise yields twelve valid months |
| Statistics.RollingMonthsAsWrittenTrapsInDecember | MantraReader/StatisticsScreen/StatisticsViewModel.swift:111-122 | `yearData(0)` as written traps exactly in December, and otherwise walks the intended twelve months |
| Statistics.DecemberRollingYearTraps | MantraReader/StatisticsScreen/StatisticsViewModel.swift:111 | a valid clock in December 2024 on which `yearData(0)` traps |
| Statistics.CalendarYearEntryAsWritten | MantraReader/StatisticsScreen/StatisticsViewModel.swift:124-129 | a chosen year's entry as written is labelled with that year's month, and its total is the readings in both the year window and the month selector's window, which is relative to today |
| Statistics.CalendarYearEntryAsWrittenMissesOtherYears | MantraReader/StatisticsScreen/StatisticsViewModel.swift:124-131 | as written, a chosen year's month is right only when the selector maps to that year, and is zero otherwise |
| Statistics.PastYearMonthReadsZero | MantraReader/StatisticsScreen/StatisticsViewModel.swift:124-131 | in June 2024, a reading of 5 on 1 March 2023 shows as 0 in `yearData(2023)` as written, though March's entry should be 5 |
| PreloadedMantras.FirstIndex | MantraReader/PreloadedMantraLisViewModel.swift:28 | `firstIndex(where:)` finds the first row with the title, or reports that none has it |
| PreloadedMantras.MarkFirst | MantraReader/PreloadedMantraLisViewModel.swift:28-35 | marking keeps the row count and every title |
| PreloadedMantras.SelectRows | MantraReader/PreloadedMantraLisViewModel.swift:26-38 | selecting keeps the number of rows |
| PreloadedMantras.ToggleTitle | MantraReader/PreloadedMantraLisViewModel.swift:27-36 | the selected title's membership flips; every other title's membership is unchanged |
| PreloadedMantras.MarkFirstChangesOnlyFirstMatch | MantraReader/PreloadedMantraLisViewModel.swift:28-35 | only the first row with the title changes, and only its flag; later duplicates are untouched |
| PreloadedMantras.MarkFirstWithoutMatch | MantraReader/PreloadedMantraLisViewModel.swift:28-36 | with no row of that title, the rows are unchanged |
| PreloadedMantras.ToggleTwice | MantraReader/PreloadedMantraLisViewModel.swift:26-38 | selecting the same title twice restores the set of selected titles |
| PreloadedMantras.SelectTwiceRestoresRows | MantraReader/PreloadedMantraLisViewModel.swift:26-38 | when flags and set agree, selecting the same title twice restores the rows too |
| PreloadedMantras.SelectKeepsSynced | MantraReader/PreloadedMantraLisViewModel.swift:26-38 | selecting keeps "the first row of each title is flagged iff its title is selected" |
| PreloadedMantras.PreloadedMantraListViewModel.constructor | MantraReader/PreloadedMantraLisViewModel.swift:21-24 | the list starts with the given unflagged rows and nothing selected, so flags and set agree |
| PreloadedMantras.PreloadedMantraListViewModel.Select | MantraReader/PreloadedMantraLisViewModel.swift:26-38 | the new set and rows are the toggled set and the re-flagged rows; flags and set stay in agreement |
| PreloadedMantras.PreloadedMantraListViewModel.AddMantras | MantraReader/PreloadedMantraLisViewModel.swift:40-41 | nothing changes |
| NumericText.Filter | MantraReader/NumericTextField.swift:23 | the filtered text holds only `-` and digits and is no longer than the input |
| NumericText.FilterIsSubsequence | MantraReader/NumericTextField.swift:23 | the filtered text is the input with characters deleted, order kept |
| NumericText.FilterKeepsAllowed | MantraReader/NumericTextField.swift:23 | each allowed character is kept as often as it occurs; every other character is dropped |
| NumericText.FilterKeepsCleanText | MantraReader/NumericTextField.swift:24 | the filter changes a text exactly when the text holds a disallowed character |
| NumericText.FilterIdempotent | MantraReader/NumericTextField.swift:23-26 | filtering twice equals filtering once |
| NumericText.MinusSignsPassAnywhere | MantraReader/NumericTextField.swift:23 | number syntax is not enforced: `1--2-` passes unchanged |
| NumericText.NumericTextField.constructor | MantraReader/NumericTextField.swift:14-17 | the field starts with the given text |
| NumericText.NumericTextField.OnChange | MantraReader/NumericTextField.swift:22-27 | the text becomes its filtered form, and is written exactly when it held a disallowed character |
| NumericText.NumericTextField.Edit | MantraReader/NumericTextField.swift:22-27 | after an edit the text is the filtered input, and the handler fired again by the write-back does not rewrite it |

## Left out

- Value animation is not modelled, because it runs on timers and floating point: `animateReadsChanges`, `animateGoalChanges`, `updateForMantraChanges`, and `displayedReads`, `displayedGoal`, `progress` and `isAnimated`.
- Persistence is modelled as a no-op: `saveContext`, the Core Data context and `fatalCoreDataError`.
- `alertTitle`, `alertActionTitle`, `title`, `image` and `favoriteBarImage` are left out: they are localized strings and images.
- JSON decoding of the statistics log is left out. `data`, `readings` and `navigationTitle` are replaced by a `readings` parameter.
- `Date()` and the calendar's current components become the `Clock` parameter.
- Clock: the calendar is a proleptic Gregorian calendar in UTC with no daylight saving, so every day is 86 400 seconds.
- Clock: `currentWeek` is constrained only to `1...53`; it is not tied to the week of year that holds `now`. The week functions use it only as the upper bound of the accepted selectors, so no property here depends on that relation.
- Calendar.DateFromWeek: the extension behind `date(year:weekDay:weekOfYear:)` is not part of this model. It is modelled with Sunday-first weeks, week 1 being the week that holds 1 January.
- The extensions behind `date(year:month:)`, `date(year:)`, `startOfDay`, `endOfMonth` and `endOfYear` are not part of this model. They are modelled by their evident meaning. `date(year:month:)` with month 13 is taken as January of the next year.
- Sums of readings are unbounded integers; overflow of Swift's `Int` is not modelled.
- Statistics.WeekStart: selectors outside the accepted range call `fatalError()` in every selector function. That case is a precondition here, and so is the `default: return []` branch of `yearData`, which cannot be reached.
- ReadsCount.ReadsViewModel.HandleAdjusting: `Int32` overflow of `reads + number` or `number * 108` traps in Swift. It is a precondition here (`AdjustmentFits`), which a validated entry always meets (`ValidatedAdjustmentInBounds`).
- ReadsCount.ReadsViewModel.ValidateAndHandleAdjusting: uses the corrected validation from the findings below. It leaves out the dialog state it resets (`adjustingType`, `adjustingText`) and the alert flag; that flag is the negation of `accepted`.
- The undo button's other disabling conditions (counter mode, the pending congratulations) are view state and are left out.
- `ReadsViewModel.mantra` is a `const`: the core never reassigns it.
- `getPreloadedMantras`, the rows' images and `id = UUID()` are left out. The constructor takes the rows instead. `init` leaves `selectedMantrasTitles` unset, which does not compile; it is modelled as empty.
- `select(mantra:)` uses only the title of its argument.
- Swift `String` works on grapheme clusters; the model works on `char`s. Combining sequences such as a digit with a keycap mark are not modelled.
- All SwiftUI views, the widgets and the progress ring are left out.

## Findings

| source | as written | input that shows it | evidently intended | confidence | as-written member | corrected member |
|---|---|---|---|---|---|---|
| MantraReader/ReadsViewModel.swift:58 | `UInt32(mantra.reads) + alertNumber` traps when the sum passes `UInt32.max` | count 1, text "4294967295", kind `.reads` | the entry is reported invalid | high, not executed | ReadsCount.ReadsSumTraps | ReadsCount.IsValidUpdatingNumber |
| MantraReader/ReadsViewModel.swift:64 | `UInt32(mantra.reads) + multiplied.partialValue` traps although the product itself was checked | count 100, text "39768215", kind `.rounds` | the entry is reported invalid | high, not executed | ReadsCount.RoundsSumTraps | ReadsCount.IsValidUpdatingNumber |
| MantraReader/StatisticsScreen/StatisticsViewModel.swift:111 | `for month in (currentMonth+1)...12` forms `13...12` in December, which traps | any clock in December, e.g. 1 December 2024, `yearData(0)` | no months from last year; the twelve months of this year | high, not executed | Statistics.DecemberRollingYearTraps | Statistics.RollingYearData |
| MantraReader/StatisticsScreen/StatisticsViewModel.swift:126-127 | a chosen year's months are totalled over `monthStart(month)...monthEnd(month)`, which are relative to today, not to that year | in June 2024, `yearData(2023)` with one reading of 5 on 1 March 2023 gives 0 for March | each month totals that month of the chosen year (5 for March) | medium, not executed | Statistics.PastYearMonthReadsZero | Statistics.CalendarYearData |
