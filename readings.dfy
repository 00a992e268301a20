/**
  The log of readings the statistics screen aggregates, and the sums over it that the
  screen's `filter { … }.map { $0.readings }.reduce(0, +)` chains compute.
*/
module ReadingSums {
  import opened Calendar

  /** One logged count: `readings` recitations at the instant `period` (seconds). */
  datatype Reading = Reading(period: int, readings: int)

  /** `rs.filter { (lo...hi).contains($0.period) }`: the readings of a closed window, in log order. */
  function Window(rs: seq<Reading>, lo: int, hi: int): (w: seq<Reading>)
    ensures |w| <= |rs|
    ensures forall r :: r in w ==> r in rs && lo <= r.period <= hi
    ensures forall r :: r in rs && lo <= r.period <= hi ==> r in w
  {
    if rs == [] then []
    else (if lo <= rs[0].period <= hi then [rs[0]] else []) + Window(rs[1..], lo, hi)
  }

  /** The filter keeps every reading inside the window exactly as often as the log holds it, and no other. */
  lemma {:induction false} WindowMultiplicity(rs: seq<Reading>, lo: int, hi: int)
    ensures forall x :: multiset(Window(rs, lo, hi))[x] == if lo <= x.period <= hi then multiset(rs)[x] else 0
  {
    if rs != [] {
      WindowMultiplicity(rs[1..], lo, hi);
      assert rs == [rs[0]] + rs[1..];
      assert multiset(rs) == multiset([rs[0]]) + multiset(rs[1..]);
    }
  }

  /** Filtering a log split in two filters each part, keeping the parts in order: the filter keeps log order. */
  lemma {:induction false} WindowOfConcat(a: seq<Reading>, b: seq<Reading>, lo: int, hi: int)
    ensures Window(a + b, lo, hi) == Window(a, lo, hi) + Window(b, lo, hi)
  {
    if a != [] {
      var head := if lo <= a[0].period <= hi then [a[0]] else [];
      assert (a + b)[0] == a[0] && (a + b)[1..] == a[1..] + b;
      assert Window(a + b, lo, hi) == head + Window(a[1..] + b, lo, hi);
      WindowOfConcat(a[1..], b, lo, hi);
      assert Window(a, lo, hi) == head + Window(a[1..], lo, hi);
    } else {
      assert a + b == b;
    }
  }

  /** `rs.filter { $0.period == day }.map { $0.readings }.reduce(0, +)` */
  function SumAt(rs: seq<Reading>, day: int): int {
    if rs == [] then 0
    else (if rs[0].period == day then rs[0].readings else 0) + SumAt(rs[1..], day)
  }

  /** The sum of the readings whose period lies in the closed window `lo...hi`; an empty window sums to zero. */
  function SumIn(rs: seq<Reading>, lo: int, hi: int): (s: int)
    ensures lo > hi ==> s == 0
  {
    if rs == [] then 0
    else (if lo <= rs[0].period <= hi then rs[0].readings else 0) + SumIn(rs[1..], lo, hi)
  }

  /** `p` is one of the `n` instants `start`, `start` + 1 day, …, `start` + (n - 1) days. */
  predicate OnGrid(p: int, start: int, n: int) {
    start <= p < start + n * SecondsPerDay && (p - start) % SecondsPerDay == 0
  }

  /** The sum at one instant is the sum over the closed window holding only that instant. */
  lemma {:induction false} SumAtIsOneDayWindow(rs: seq<Reading>, day: int)
    ensures SumAt(rs, day) == SumIn(rs, day, day)
  {
    if rs != [] {
      SumAtIsOneDayWindow(rs[1..], day);
    }
  }

  /** The sum of the readings whose period is one of the `n` daily instants from `start`. */
  function SumOnGrid(rs: seq<Reading>, start: int, n: int): int {
    if rs == [] then 0
    else (if OnGrid(rs[0].period, start, n) then rs[0].readings else 0) + SumOnGrid(rs[1..], start, n)
  }

  /** The sum of a series' totals. */
  function Total(series: seq<Reading>): int {
    if series == [] then 0 else Total(series[..|series| - 1]) + series[|series| - 1].readings
  }

  /** The total of the first `k` entries is that of the first `k - 1` plus entry `k - 1`. */
  lemma TotalOfPrefix(series: seq<Reading>, k: int)
    requires 1 <= k <= |series|
    ensures Total(series[..k]) == Total(series[..k - 1]) + series[k - 1].readings
  {
    assert series[..k][..k - 1] == series[..k - 1];
  }

  /**
    `series` holds one entry per day for `n` days from `start`, in order, each labelled with
    its day and holding the sum of the readings logged exactly at that instant (zero when
    there are none).
  */
  ghost predicate IsDailySeries(series: seq<Reading>, rs: seq<Reading>, start: int, n: int) {
    |series| == n &&
    forall i :: 0 <= i < n ==> series[i] == Reading(start + i * SecondsPerDay, SumAt(rs, start + i * SecondsPerDay))
  }

  /** Narrowing the log to a window that holds `day` keeps that day's sum. */
  lemma {:induction false} WindowKeepsDay(rs: seq<Reading>, lo: int, hi: int, day: int)
    requires lo <= day <= hi
    ensures SumAt(Window(rs, lo, hi), day) == SumAt(rs, day)
  {
    if rs != [] {
      WindowKeepsDay(rs[1..], lo, hi, day);
      var head := if lo <= rs[0].period <= hi then [rs[0]] else [];
      SumAtAppend(head, Window(rs[1..], lo, hi), day);
    }
  }

  lemma {:induction false} SumAtAppend(a: seq<Reading>, b: seq<Reading>, day: int)
    ensures SumAt(a + b, day) == SumAt(a, day) + SumAt(b, day)
  {
    if a != [] {
      assert (a + b)[1..] == a[1..] + b;
      SumAtAppend(a[1..], b, day);
    } else {
      assert a + b == b;
    }
  }

  lemma {:induction false} SumInAppend(a: seq<Reading>, b: seq<Reading>, lo: int, hi: int)
    ensures SumIn(a + b, lo, hi) == SumIn(a, lo, hi) + SumIn(b, lo, hi)
  {
    if a != [] {
      assert (a + b)[1..] == a[1..] + b;
      SumInAppend(a[1..], b, lo, hi);
    } else {
      assert a + b == b;
    }
  }

  /** Narrowing the log to a window that contains `lo...hi` keeps the sum over `lo...hi`. */
  lemma {:induction false} WindowKeepsSubWindow(rs: seq<Reading>, a: int, b: int, lo: int, hi: int)
    requires a <= lo && hi <= b
    ensures SumIn(Window(rs, a, b), lo, hi) == SumIn(rs, lo, hi)
  {
    if rs != [] {
      WindowKeepsSubWindow(rs[1..], a, b, lo, hi);
      var head := if a <= rs[0].period <= b then [rs[0]] else [];
      SumInAppend(head, Window(rs[1..], a, b), lo, hi);
    }
  }

  /** Summing `lo...hi` on the log narrowed to `a...b` sums the readings in the intersection of the two windows. */
  lemma {:induction false} WindowThenSum(rs: seq<Reading>, a: int, b: int, lo: int, hi: int)
    ensures SumIn(Window(rs, a, b), lo, hi) == SumIn(rs, if a < lo then lo else a, if b < hi then b else hi)
  {
    if rs != [] {
      WindowThenSum(rs[1..], a, b, lo, hi);
      var head := if a <= rs[0].period <= b then [rs[0]] else [];
      SumInAppend(head, Window(rs[1..], a, b), lo, hi);
    }
  }

  /** Narrowing the log to a window disjoint from `lo...hi` leaves nothing to sum there. */
  lemma {:induction false} WindowMissesDisjointWindow(rs: seq<Reading>, a: int, b: int, lo: int, hi: int)
    requires b < lo || hi < a
    ensures SumIn(Window(rs, a, b), lo, hi) == 0
  {
    if rs != [] {
      WindowMissesDisjointWindow(rs[1..], a, b, lo, hi);
      var head := if a <= rs[0].period <= b then [rs[0]] else [];
      SumInAppend(head, Window(rs[1..], a, b), lo, hi);
    }
  }

  /** Adding one more day to the grid adds that day's sum. */
  lemma {:induction false} GridStep(rs: seq<Reading>, start: int, n: nat)
    ensures SumOnGrid(rs, start, n + 1) == SumOnGrid(rs, start, n) + SumAt(rs, start + n * SecondsPerDay)
  {
    if rs != [] {
      GridStep(rs[1..], start, n);
      var p := rs[0].period;
      assert OnGrid(p, start, n + 1) <==> OnGrid(p, start, n) || p == start + n * SecondsPerDay;
    }
  }

  /** A daily series of the log narrowed to a closed window that covers its days is a daily series of the whole log. */
  lemma WindowedDailySeries(series: seq<Reading>, rs: seq<Reading>, start: int, end: int, n: nat)
    requires end == start + n * SecondsPerDay
    requires IsDailySeries(series, Window(rs, start, end), start, n)
    ensures IsDailySeries(series, rs, start, n)
  {
    WindowKeepsGridDays(rs, start, end, n);
    SameDailySums(series, Window(rs, start, end), rs, start, n);
  }

  /** Narrowing the log to a closed window keeps the sum of each of the window's `n` days. */
  lemma WindowKeepsGridDays(rs: seq<Reading>, start: int, end: int, n: nat)
    requires end == start + n * SecondsPerDay
    ensures forall i :: 0 <= i < n ==> SumAt(Window(rs, start, end), start + i * SecondsPerDay) == SumAt(rs, start + i * SecondsPerDay)
  {
    forall i | 0 <= i < n
      ensures SumAt(Window(rs, start, end), start + i * SecondsPerDay) == SumAt(rs, start + i * SecondsPerDay)
    {
      WindowKeepsDay(rs, start, end, start + i * SecondsPerDay);
    }
  }

  /** A daily series of one log is a daily series of any log with the same sum on each of its days. */
  lemma SameDailySums(series: seq<Reading>, rs: seq<Reading>, rs': seq<Reading>, start: int, n: nat)
    requires IsDailySeries(series, rs, start, n)
    requires forall i :: 0 <= i < n ==> SumAt(rs, start + i * SecondsPerDay) == SumAt(rs', start + i * SecondsPerDay)
    ensures IsDailySeries(series, rs', start, n)
  {
  }

  /** The totals of a daily series add up to the readings logged exactly on its days. */
  lemma {:induction false} DailySeriesTotal(series: seq<Reading>, rs: seq<Reading>, start: int, n: nat)
    requires IsDailySeries(series, rs, start, n)
    ensures Total(series) == SumOnGrid(rs, start, n)
  {
    if n > 0 {
      DailySeriesTotal(series[..n - 1], rs, start, n - 1);
      GridStep(rs, start, n - 1);
    } else {
      SumOnGridEmpty(rs, start);
    }
  }

  lemma {:induction false} SumOnGridEmpty(rs: seq<Reading>, start: int)
    ensures SumOnGrid(rs, start, 0) == 0
  {
    if rs != [] {
      SumOnGridEmpty(rs[1..], start);
    }
  }

  /**
    When every reading is logged at a midnight, the days of a grid that starts at a midnight
    hold every reading of the closed window from its first to its last day.
  */
  lemma {:induction false} MidnightGridIsWindow(rs: seq<Reading>, start: int, n: nat)
    requires n >= 1 && IsMidnight(start)
    requires forall r :: r in rs ==> IsMidnight(r.period)
    ensures SumOnGrid(rs, start, n) == SumIn(rs, start, start + (n - 1) * SecondsPerDay)
  {
    if rs != [] {
      assert rs[0] in rs;
      MidnightGridIsWindow(rs[1..], start, n);
    }
  }

  /**
    For readings logged at midnights, a closed window splits at a midnight `b` into the part
    up to `b` and the part from the next midnight on.
  */
  lemma {:induction false} SplitWindowAtMidnight(rs: seq<Reading>, a: int, b: int, c: int)
    requires IsMidnight(b) && a <= b + SecondsPerDay && b <= c
    requires forall r :: r in rs ==> IsMidnight(r.period)
    ensures SumIn(rs, a, c) == SumIn(rs, a, b) + SumIn(rs, b + SecondsPerDay, c)
  {
    if rs != [] {
      assert rs[0] in rs;
      SplitWindowAtMidnight(rs[1..], a, b, c);
    }
  }

  /**
    Closed windows, each ending on a day that starts at a midnight and each beginning the
    day after the previous one's last day.
  */
  predicate Adjacent(windows: seq<(int, int)>) {
    (forall i :: 0 <= i < |windows| ==> windows[i].0 <= windows[i].1 && IsMidnight(windows[i].1)) &&
    forall i :: 0 < i < |windows| ==> windows[i].0 == windows[i - 1].1 + SecondsPerDay
  }

  /**
    For readings logged at midnights, the totals of the first `k` of a run of adjacent
    windows add up to the sum over the window from the first one's start to the `k`-th one's end.
  */
  lemma {:induction false} AdjacentWindowsTotal(rs: seq<Reading>, windows: seq<(int, int)>, series: seq<Reading>, k: int)
    requires Adjacent(windows) && |series| == |windows| && 1 <= k <= |windows|
    requires forall i :: 0 <= i < |windows| ==> series[i].readings == SumIn(rs, windows[i].0, windows[i].1)
    requires forall r :: r in rs ==> IsMidnight(r.period)
    ensures windows[0].0 <= windows[k - 1].1
    ensures Total(series[..k]) == SumIn(rs, windows[0].0, windows[k - 1].1)
  {
    TotalOfPrefix(series, k);
    if k > 1 {
      AdjacentWindowsTotal(rs, windows, series, k - 1);
      SplitWindowAtMidnight(rs, windows[0].0, windows[k - 2].1, windows[k - 1].1);
    }
  }

  /** For readings logged at midnights, a whole run of adjacent windows totals the window it spans. */
  lemma AdjacentWindowsWholeTotal(rs: seq<Reading>, windows: seq<(int, int)>, series: seq<Reading>)
    requires Adjacent(windows) && |series| == |windows| >= 1
    requires forall i :: 0 <= i < |windows| ==> series[i].readings == SumIn(rs, windows[i].0, windows[i].1)
    requires forall r :: r in rs ==> IsMidnight(r.period)
    ensures Total(series) == SumIn(rs, windows[0].0, windows[|windows| - 1].1)
  {
    AdjacentWindowsTotal(rs, windows, series, |windows|);
    assert series[..|windows|] == series;
  }
}
