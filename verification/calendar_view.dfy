/** components/counsellor/CalendarView.tsx: a month grid of the
    counsellor's confirmed appointments.  Grid cells are local day numbers
    (see the Calendar module); the shown month is a year and a 0-based
    month. */
module CalendarView {
  import opened Types
  import opened Calendar
  import AppointmentSection

  /** Only confirmed appointments are kept after the fetch. */
  function ConfirmedOnly(all: seq<Appointment>): (r: seq<Appointment>)
    ensures forall i :: 0 <= i < |r| ==> r[i].status == Confirmed
    ensures forall i :: 0 <= i < |all| && all[i].status == Confirmed ==> all[i] in r
  {
    var r := AppointmentSection.WithStatus(all, Confirmed);
    assert forall i :: 0 <= i < |all| && all[i].status == Confirmed ==> all[i] in r by {
      forall i | 0 <= i < |all| && all[i].status == Confirmed
        ensures all[i] in r
      {
        AppointmentSection.WithStatusComplete(all, Confirmed, i);
      }
    }
    r
  }

  /** The year `new Date(y, m, d)` uses: years 0 to 99 stand for 1900 to
      1999 (MakeFullYear in section 21.4.2.1 of ECMA-262); the month is
      carried into the year after that. */
  function FullYear(y: int): int {
    if 0 <= y <= 99 then 1900 + y else y
  }

  /** `new Date(y, m, 1)` and `new Date(y, m + 1, 0)`. */
  function MonthStart(ym: YearMonth): int
    requires 0 <= ym.month < 12
  {
    MakeDay(FullYear(ym.year), ym.month, 1)
  }

  function MonthEnd(ym: YearMonth): int
    requires 0 <= ym.month < 12
  {
    MakeDay(FullYear(ym.year), ym.month + 1, 0)
  }

  /** A day moved back by its weekday: the Sunday on or before it. */
  function WeekStart(day: int): int {
    day - WeekDay(day)
  }

  /** A day moved forward by `6 - getDay()`: the Saturday on or after it. */
  function WeekEnd(day: int): int {
    day + (6 - WeekDay(day))
  }

  function GridStart(ym: YearMonth): int
    requires 0 <= ym.month < 12
  {
    WeekStart(MonthStart(ym))
  }

  function GridEnd(ym: YearMonth): int
    requires 0 <= ym.month < 12
  {
    WeekEnd(MonthEnd(ym))
  }

  /** Week alignment on plain day numbers: a month whose days run from
      `first` to `last` (28 to 31 of them), widened back to a Sunday and
      forward to a Saturday. */
  lemma {:induction false} WeekAlign(first: int, last: int)
    requires 28 <= last - first + 1 <= 31
    ensures WeekDay(WeekStart(first)) == 0 && WeekDay(WeekEnd(last)) == 6
    ensures WeekStart(first) <= first < WeekStart(first) + 7
    ensures WeekEnd(last) - 7 < last <= WeekEnd(last)
    ensures (WeekEnd(last) - WeekStart(first) + 1) % 7 == 0
    ensures 28 <= WeekEnd(last) - WeekStart(first) + 1 <= 42
  {
    var n := last - first + 1;
    var ws := WeekDay(first);
    var s := first - ws;
    var q := (first + 4) / 7;
    assert first + 4 == 7 * q + ws;
    assert s + 4 == 7 * q;
    WeekDayShift(first, n - 1);
    var x := ws + n - 1;
    var wl := WeekDay(last);
    assert wl == x % 7;
    var e := last + (6 - wl);
    assert e - s + 1 == x - x % 7 + 7;
    assert e + 4 == 7 * q + x - x % 7 + 6;
    assert (x - x % 7) % 7 == 0;
  }

  /** The last day of a month is its first plus its length less one. */
  lemma MonthSpan(ym: YearMonth)
    requires 0 <= ym.month < 12
    ensures MonthEnd(ym) == MonthStart(ym) + DaysInMonth(FullYear(ym.year), ym.month) - 1
  {
    var n := DaysInMonth(FullYear(ym.year), ym.month);
    MonthBoundaries(FullYear(ym.year), ym.month);
    MonthDays(FullYear(ym.year), ym.month, n);
  }

  /** The grid runs Sunday to Saturday and covers the month with less than
      a week on either side. */
  lemma GridAligned(ym: YearMonth)
    requires 0 <= ym.month < 12
    ensures WeekDay(GridStart(ym)) == 0 && WeekDay(GridEnd(ym)) == 6
    ensures GridStart(ym) <= MonthStart(ym) < GridStart(ym) + 7
    ensures GridEnd(ym) - 7 < MonthEnd(ym) <= GridEnd(ym)
  {
    MonthSpan(ym);
    WeekAlign(MonthStart(ym), MonthEnd(ym));
  }

  /** Day `d` of a month is `d - 1` days after its first. */
  lemma MonthDays(y: int, m: int, d: int)
    requires 0 <= m < 12
    ensures MakeDay(y, m, d) == MakeDay(y, m, 1) + d - 1
  {
  }

  /** The loop `for (day = start; day <= end; day.setDate(day.getDate() + 1))`:
      the consecutive days from `start` through `end`. */
  method DayRange(start: int, end: int) returns (days: seq<int>)
    requires start <= end + 1
    ensures |days| == end - start + 1
    ensures forall i :: 0 <= i < |days| ==> days[i] == start + i
  {
    days := [];
    var day := start;
    while day <= end
      invariant start <= day <= end + 1
      invariant |days| == day - start
      invariant forall i :: 0 <= i < |days| ==> days[i] == start + i
    {
      days := days + [day];
      day := day + 1;
    }
  }

  /** The grid of a month whose days run from `first` to `last`: every day
      from the Sunday on or before `first` through the Saturday on or after
      `last`. */
  method WeekGrid(first: int, last: int) returns (days: seq<int>)
    requires 28 <= last - first + 1 <= 31
    ensures |days| % 7 == 0 && 28 <= |days| <= 42
    ensures |days| == WeekEnd(last) - WeekStart(first) + 1
    ensures forall i :: 0 <= i < |days| ==> days[i] == WeekStart(first) + i
    ensures WeekDay(days[0]) == 0 && WeekDay(days[|days| - 1]) == 6
    ensures days[0] <= first && last <= days[|days| - 1]
  {
    WeekAlign(first, last);
    days := DayRange(WeekStart(first), WeekEnd(last));
  }

  /** The grid: every day from the grid start through the grid end, one
      cell per day, with every day of the month among them. */
  method CalendarGrid(ym: YearMonth) returns (days: seq<int>)
    requires 0 <= ym.month < 12
    ensures |days| % 7 == 0 && 28 <= |days| <= 42
    ensures |days| == GridEnd(ym) - GridStart(ym) + 1
    ensures forall i :: 0 <= i < |days| ==> days[i] == GridStart(ym) + i
    ensures WeekDay(days[0]) == 0 && WeekDay(days[|days| - 1]) == 6
    ensures forall d :: 1 <= d <= DaysInMonth(FullYear(ym.year), ym.month) ==>
      MakeDay(FullYear(ym.year), ym.month, d) in days
  {
    MonthSpan(ym);
    days := WeekGrid(MonthStart(ym), MonthEnd(ym));
    MonthInGrid(ym, days);
  }

  /** A run of consecutive days from before the 1st to after the last day
      of the month holds every day of the month. */
  lemma MonthInGrid(ym: YearMonth, days: seq<int>)
    requires 0 <= ym.month < 12 && |days| > 0
    requires forall i :: 0 <= i < |days| ==> days[i] == days[0] + i
    requires days[0] <= MonthStart(ym) && MonthEnd(ym) <= days[|days| - 1]
    ensures forall d :: 1 <= d <= DaysInMonth(FullYear(ym.year), ym.month) ==>
      MakeDay(FullYear(ym.year), ym.month, d) in days
  {
    MonthSpan(ym);
    forall d | 1 <= d <= DaysInMonth(FullYear(ym.year), ym.month)
      ensures MakeDay(FullYear(ym.year), ym.month, d) in days
    {
      MonthDays(FullYear(ym.year), ym.month, d);
      assert days[MakeDay(FullYear(ym.year), ym.month, d) - days[0]] == MakeDay(FullYear(ym.year), ym.month, d);
    }
  }

  /** Day `d` of the month sits `getDay()` of the 1st plus `d - 1` cells
      into the grid. */
  lemma GridCell(ym: YearMonth, d: int)
    requires 0 <= ym.month < 12 && 1 <= d <= DaysInMonth(FullYear(ym.year), ym.month)
    ensures 0 <= WeekDay(MonthStart(ym)) + d - 1 <= GridEnd(ym) - GridStart(ym)
    ensures GridStart(ym) + WeekDay(MonthStart(ym)) + d - 1 == MakeDay(FullYear(ym.year), ym.month, d)
  {
    GridAligned(ym);
    MonthSpan(ym);
    MonthDays(FullYear(ym.year), ym.month, d);
  }

  /** A shown month in years 0 to 99 draws the grid of the same month
      1900 years later, since the constructor reads its year that way. */
  lemma TwoDigitYearGrid(ym: YearMonth)
    requires 0 <= ym.month < 12 && 0 <= ym.year <= 99
    ensures GridStart(ym) == GridStart(YearMonth(ym.year + 1900, ym.month))
    ensures GridEnd(ym) == GridEnd(YearMonth(ym.year + 1900, ym.month))
  {
    assert FullYear(ym.year) == FullYear(ym.year + 1900);
  }

  /** `changeMonth(offset)`: day 1 of the month `offset` months away, the
      year read as the constructor reads it and then carried. */
  function ChangeMonth(ym: YearMonth, offset: int): (r: YearMonth)
    ensures 0 <= r.month < 12
    ensures r.year * 12 + r.month == FullYear(ym.year) * 12 + ym.month + offset
  {
    NormalizeMonth(FullYear(ym.year), ym.month + offset)
  }

  /** Stepping forward and back returns to the month the constructor reads,
      which is the same month outside years 0 to 99, provided the month in
      between is not in years 0 to 99 either. */
  lemma ChangeMonthRoundTrip(ym: YearMonth, offset: int)
    requires 0 <= ym.month < 12
    requires !(0 <= ChangeMonth(ym, offset).year <= 99)
    ensures ChangeMonth(ChangeMonth(ym, offset), -offset) == YearMonth(FullYear(ym.year), ym.month)
    ensures !(0 <= ym.year <= 99) ==> ChangeMonth(ChangeMonth(ym, offset), -offset) == ym
  {
    var r := ChangeMonth(ChangeMonth(ym, offset), -offset);
    assert r.year * 12 + r.month == FullYear(ym.year) * 12 + ym.month;
    MonthIndexUnique(r, YearMonth(FullYear(ym.year), ym.month));
  }

  /** Going back from January of year 100 reaches December of year 99, and
      going forward from there reaches January 2000, not year 100. */
  lemma ChangeMonthAcrossYear100()
    ensures ChangeMonth(YearMonth(100, 0), -1) == YearMonth(99, 11)
    ensures ChangeMonth(YearMonth(99, 11), 1) == YearMonth(2000, 0)
  {
  }

  /** A (year, month) pair with month in range is determined by its month
      count. */
  lemma MonthIndexUnique(a: YearMonth, b: YearMonth)
    requires 0 <= a.month < 12 && 0 <= b.month < 12
    requires a.year * 12 + a.month == b.year * 12 + b.month
    ensures a == b
  {
    assert a.year == (a.year * 12 + a.month) / 12;
    assert b.year == (b.year * 12 + b.month) / 12;
  }

  /** Stepping past December enters January of the next year, and before
      January enters December of the year before. */
  lemma ChangeMonthRollsOver(y: int)
    ensures ChangeMonth(YearMonth(y, 11), 1) == YearMonth(FullYear(y) + 1, 0)
    ensures ChangeMonth(YearMonth(y, 0), -1) == YearMonth(FullYear(y) - 1, 11)
  {
  }

  /** `getAppsForDay(date)`: the appointments whose local day is that
      grid day, in list order. */
  function AppsForDay(apps: seq<Appointment>, day: int, offsetMs: int): (r: seq<Appointment>)
    ensures forall i :: 0 <= i < |r| ==> LocalDay(r[i].dateTime, offsetMs) == day
    ensures multiset(r) <= multiset(apps)
  {
    if |apps| == 0 then []
    else
      assert apps == [apps[0]] + apps[1..];
      (if LocalDay(apps[0].dateTime, offsetMs) == day then [apps[0]] else []) + AppsForDay(apps[1..], day, offsetMs)
  }

  lemma {:induction false} AppsForDayComplete(apps: seq<Appointment>, day: int, offsetMs: int, i: int)
    requires 0 <= i < |apps| && LocalDay(apps[i].dateTime, offsetMs) == day
    ensures apps[i] in AppsForDay(apps, day, offsetMs)
  {
    if i > 0 {
      AppsForDayComplete(apps[1..], day, offsetMs, i - 1);
    }
  }

  /** Matching on the local day number is matching on the (date, month,
      year) triple the code compares: an appointment whose local civil date
      is `ca` is listed on the cell whose civil date is `cg` exactly when
      the two dates are equal. */
  lemma AppsForDayByCivilDate(apps: seq<Appointment>, i: int, offsetMs: int, ca: CivilDate, cg: CivilDate)
    requires 0 <= i < |apps|
    requires ValidDate(ca) && ValidDate(cg)
    requires DayOf(ca) == LocalDay(apps[i].dateTime, offsetMs)
    ensures apps[i] in AppsForDay(apps, DayOf(cg), offsetMs) <==> ca == cg
  {
    CivilDateInjective(ca, cg);
    AppsForDaySound(apps, DayOf(cg), offsetMs, apps[i]);
    if ca == cg {
      AppsForDayComplete(apps, DayOf(cg), offsetMs, i);
    }
  }

  lemma AppsForDaySound(apps: seq<Appointment>, day: int, offsetMs: int, a: Appointment)
    ensures a in AppsForDay(apps, day, offsetMs) ==> LocalDay(a.dateTime, offsetMs) == day
  {
  }
}
