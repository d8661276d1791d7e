/** The day arithmetic of ECMAScript `Date` (section 21.4.1 of ECMA-262):
    day numbers counted from 1 January 1970, years and months as the
    language computes them, weekdays, and local days under a fixed offset
    from UTC.  Times are integer milliseconds since the epoch. */
module Calendar {
  const MsPerDay: int := 86400000

  predicate InLeapYear(y: int) {
    y % 4 == 0 && (y % 100 != 0 || y % 400 == 0)
  }

  function DaysInYear(y: int): (n: int)
    ensures n == 365 || n == 366
    ensures n == 366 <==> InLeapYear(y)
  {
    if InLeapYear(y) then 366 else 365
  }

  /** Day number of 1 January of year `y`, counted year by year from 1970. */
  function DayFromYear(y: int): int
    decreases if y < 1970 then 1970 - y else y - 1970
  {
    if y == 1970 then 0
    else if y > 1970 then DayFromYear(y - 1) + DaysInYear(y - 1)
    else DayFromYear(y + 1) - DaysInYear(y)
  }

  /** The closed form ECMAScript gives for DayFromYear (section 21.4.1.3 of
      ECMA-262), with floor division. */
  function DayFromYearFormula(y: int): int {
    365 * (y - 1970) + (y - 1969) / 4 - (y - 1901) / 100 + (y - 1601) / 400
  }

  // Each of the three floor quotients in DayFromYear steps by one from
  // year y to year y + 1 exactly when its divisor divides y.

  lemma DivStep4(b: int, q: int, r: int)
    requires b == 4 * q + r && 0 <= r < 4
    ensures b / 4 == q
    ensures (b + 1) / 4 == (if r == 3 then q + 1 else q)
  {
  }

  lemma DivStep100(b: int, q: int, r: int)
    requires b == 100 * q + r && 0 <= r < 100
    ensures b / 100 == q
    ensures (b + 1) / 100 == (if r == 99 then q + 1 else q)
  {
  }

  lemma DivStep400(b: int, q: int, r: int)
    requires b == 400 * q + r && 0 <= r < 400
    ensures b / 400 == q
    ensures (b + 1) / 400 == (if r == 399 then q + 1 else q)
  {
  }

  lemma Step4(y: int)
    ensures (y - 1968) / 4 - (y - 1969) / 4 == (if y % 4 == 0 then 1 else 0)
  {
    var q4, r4 := y / 4, y % 4;
    assert y == 4 * q4 + r4;
    if r4 == 0 {
      DivStep4(y - 1969, q4 - 493, 3);
    } else {
      DivStep4(y - 1969, q4 - 492, r4 - 1);
    }
  }

  lemma Step100(y: int)
    ensures (y - 1900) / 100 - (y - 1901) / 100 == (if y % 100 == 0 then 1 else 0)
  {
    var q, r := y / 100, y % 100;
    assert y == 100 * q + r;
    if r == 0 {
      DivStep100(y - 1901, q - 20, 99);
    } else {
      DivStep100(y - 1901, q - 19, r - 1);
    }
  }

  lemma Step400(y: int)
    ensures (y - 1600) / 400 - (y - 1601) / 400 == (if y % 400 == 0 then 1 else 0)
  {
    var q, r := y / 400, y % 400;
    assert y == 400 * q + r;
    if r == 0 {
      DivStep400(y - 1601, q - 5, 399);
    } else {
      DivStep400(y - 1601, q - 4, r - 1);
    }
  }

  /** The closed form also steps by one year length from year to year. */
  lemma FormulaStep(y: int)
    ensures DayFromYearFormula(y + 1) - DayFromYearFormula(y) == DaysInYear(y)
  {
    Step4(y);
    Step100(y);
    Step400(y);
    Divisibility(y);
    var a := (y - 1968) / 4 - (y - 1969) / 4;
    var b := (y - 1900) / 100 - (y - 1901) / 100;
    var c := (y - 1600) / 400 - (y - 1601) / 400;
    assert DayFromYearFormula(y + 1) == 365 * (y - 1969) + (y - 1968) / 4 - (y - 1900) / 100 + (y - 1600) / 400;
    assert DayFromYearFormula(y + 1) - DayFromYearFormula(y) == 365 + a - b + c;
  }

  /** The year-by-year count agrees with ECMAScript's closed form. */
  lemma {:induction false} DayFromYearIsFormula(y: int)
    ensures DayFromYear(y) == DayFromYearFormula(y)
    decreases if y < 1970 then 1970 - y else y - 1970
  {
    if y > 1970 {
      DayFromYearIsFormula(y - 1);
      FormulaStep(y - 1);
    } else if y < 1970 {
      DayFromYearIsFormula(y + 1);
      FormulaStep(y);
    }
  }

  /** Every multiple of 400 is one of 100, and every multiple of 100 one of 4. */
  lemma Divisibility(y: int)
    ensures y % 400 == 0 ==> y % 100 == 0
    ensures y % 100 == 0 ==> y % 4 == 0
  {
    if y % 400 == 0 {
      var k := y / 400;
      DivStep100(y, 4 * k, 0);
    }
    if y % 100 == 0 {
      var k := y / 100;
      DivStep4(y, 25 * k, 0);
    }
  }

  /** Consecutive year starts are one year length apart. */
  lemma YearLength(y: int)
    ensures DayFromYear(y + 1) - DayFromYear(y) == DaysInYear(y)
  {
    if y < 1969 {
      assert DayFromYear(y) == DayFromYear(y + 1) - DaysInYear(y);
    }
  }

  lemma {:induction false} YearStartMonotone(y1: int, y2: int)
    requires y1 < y2
    ensures DayFromYear(y1) + 365 * (y2 - y1) <= DayFromYear(y2)
    decreases y2 - y1
  {
    YearLength(y2 - 1);
    if y1 < y2 - 1 {
      YearStartMonotone(y1, y2 - 1);
    }
  }

  function DaysInMonth(y: int, m: int): (n: int)
    requires 0 <= m < 12
    ensures 28 <= n <= 31
    ensures m == 1 ==> (n == 29 <==> InLeapYear(y))
  {
    if m == 1 then (if InLeapYear(y) then 29 else 28)
    else if m == 3 || m == 5 || m == 8 || m == 10 then 30
    else 31
  }

  /** Days of a common year before the first of each month (0-based). */
  const CommonMonthStarts: seq<int> := [0, 31, 59, 90, 120, 151, 181, 212, 243, 273, 304, 334]

  /** Days of year `y` before the first of month `m` (0-based). */
  function DayFromMonth(y: int, m: int): (n: int)
    requires 0 <= m < 12
    ensures 0 <= n <= 335
  {
    CommonMonthStarts[m] + (if m >= 2 && InLeapYear(y) then 1 else 0)
  }

  /** Month starts are month lengths apart, and December ends the year. */
  lemma MonthLength(y: int, m: int)
    requires 0 <= m < 12
    ensures m + 1 < 12 ==> DayFromMonth(y, m + 1) == DayFromMonth(y, m) + DaysInMonth(y, m)
    ensures m == 11 ==> DayFromMonth(y, m) + DaysInMonth(y, m) == DaysInYear(y)
  {
  }

  /** A civil date: month 0-based as `getMonth` returns it, day of month
      from 1. */
  datatype CivilDate = CivilDate(year: int, month: int, date: int)

  ghost predicate ValidDate(c: CivilDate) {
    0 <= c.month < 12 && 1 <= c.date <= DaysInMonth(c.year, c.month)
  }

  /** Month arithmetic `new Date(y, m, ...)` performs: any month index,
      carried into the year. */
  datatype YearMonth = YearMonth(year: int, month: int)

  function NormalizeMonth(y: int, m: int): (r: YearMonth)
    ensures 0 <= r.month < 12
    ensures r.year * 12 + r.month == y * 12 + m
  {
    if 0 <= m < 12 then YearMonth(y, m) else YearMonth(y + m / 12, m % 12)
  }

  /** ECMAScript `MakeDay(y, m, d)`: the day number of day `d` of month
      `m` of year `y`, with the month carried into the year and the day
      allowed to run past either end of the month. */
  function MakeDay(y: int, m: int, d: int): int {
    var ym := NormalizeMonth(y, m);
    DayFromYear(ym.year) + DayFromMonth(ym.year, ym.month) + d - 1
  }

  function DayOf(c: CivilDate): int
    requires 0 <= c.month < 12
  {
    MakeDay(c.year, c.month, c.date)
  }

  /** A valid date lies within its year. */
  lemma DateWithinYear(c: CivilDate)
    requires ValidDate(c)
    ensures DayFromYear(c.year) <= DayOf(c) < DayFromYear(c.year + 1)
  {
    YearLength(c.year);
    MonthsFitYear(c.year, c.month);
    InRangeMonth(c);
  }

  lemma {:induction false} MonthsFitYear(y: int, m: int)
    requires 0 <= m < 12
    ensures DayFromMonth(y, m) + DaysInMonth(y, m) <= DaysInYear(y)
    decreases 12 - m
  {
    MonthLength(y, m);
    if m < 11 {
      MonthsFitYear(y, m + 1);
    }
  }

  lemma {:induction false} MonthStartMonotone(y: int, m1: int, m2: int)
    requires 0 <= m1 < m2 < 12
    ensures DayFromMonth(y, m1) + DaysInMonth(y, m1) <= DayFromMonth(y, m2)
    decreases m2 - m1
  {
    MonthLength(y, m1);
    if m1 + 1 < m2 {
      MonthStartMonotone(y, m1 + 1, m2);
    }
  }

  /** A day number names exactly one valid civil date, so comparing the
      (date, month, year) triples of two times is comparing their days. */
  lemma CivilDateInjective(c1: CivilDate, c2: CivilDate)
    requires ValidDate(c1) && ValidDate(c2)
    ensures DayOf(c1) == DayOf(c2) <==> c1 == c2
  {
    if DayOf(c1) == DayOf(c2) {
      SameDaySameYear(c1, c2);
      InRangeMonth(c1);
      InRangeMonth(c2);
      SameYearDaySameMonth(c1, c2);
    }
  }

  /** For a month already in range no carry happens. */
  lemma InRangeMonth(c: CivilDate)
    requires 0 <= c.month < 12
    ensures DayOf(c) == DayFromYear(c.year) + DayFromMonth(c.year, c.month) + c.date - 1
  {
    assert NormalizeMonth(c.year, c.month) == YearMonth(c.year, c.month);
  }

  lemma SameDaySameYear(c1: CivilDate, c2: CivilDate)
    requires ValidDate(c1) && ValidDate(c2) && DayOf(c1) == DayOf(c2)
    ensures c1.year == c2.year
  {
    DateWithinYear(c1);
    DateWithinYear(c2);
    YearOfDay(DayOf(c1), c1.year, DayOf(c2), c2.year);
  }

  /** A day number lies within exactly one year: the same day found in
      years `y1` and `y2` means `y1 == y2`. */
  lemma YearOfDay(d1: int, y1: int, d2: int, y2: int)
    requires d1 == d2
    requires DayFromYear(y1) <= d1 < DayFromYear(y1 + 1)
    requires DayFromYear(y2) <= d2 < DayFromYear(y2 + 1)
    ensures y1 == y2
  {
    if y1 < y2 {
      YearStartOrder(y1 + 1, y2);
    } else if y2 < y1 {
      YearStartOrder(y2 + 1, y1);
    }
  }

  lemma YearStartOrder(y1: int, y2: int)
    requires y1 <= y2
    ensures DayFromYear(y1) <= DayFromYear(y2)
  {
    if y1 < y2 {
      YearStartMonotone(y1, y2);
    }
  }

  lemma SameYearDaySameMonth(c1: CivilDate, c2: CivilDate)
    requires ValidDate(c1) && ValidDate(c2) && c1.year == c2.year
    requires DayFromMonth(c1.year, c1.month) + c1.date == DayFromMonth(c2.year, c2.month) + c2.date
    ensures c1 == c2
  {
    if c1.month < c2.month {
      MonthStartMonotone(c1.year, c1.month, c2.month);
    } else if c2.month < c1.month {
      MonthStartMonotone(c1.year, c2.month, c1.month);
    }
  }

  /** Day 0 of a month is the last day of the month before, and the first
      of the next month follows the last day of this one. */
  lemma MonthBoundaries(y: int, m: int)
    requires 0 <= m < 12
    ensures MakeDay(y, m + 1, 1) == MakeDay(y, m, 1) + DaysInMonth(y, m)
    ensures MakeDay(y, m + 1, 0) == MakeDay(y, m, DaysInMonth(y, m))
  {
    MonthLength(y, m);
    if m == 11 {
      YearLength(y);
      assert NormalizeMonth(y, m + 1) == YearMonth(y + 1, 0);
    } else {
      assert NormalizeMonth(y, m + 1) == YearMonth(y, m + 1);
    }
    assert NormalizeMonth(y, m) == YearMonth(y, m);
  }

  /** `getDay()`: 0 for Sunday; 1 January 1970 was a Thursday. */
  function WeekDay(day: int): (w: int)
    ensures 0 <= w < 7
    ensures (day - w) % 7 == 3
  {
    (day + 4) % 7
  }

  /** Weekdays advance by one each day, wrapping after Saturday. */
  lemma WeekDayShift(day: int, k: nat)
    ensures WeekDay(day + k) == (WeekDay(day) + k) % 7
  {
    var q := (day + 4) / 7;
    assert day + 4 == 7 * q + WeekDay(day);
    assert day + k + 4 == 7 * q + (WeekDay(day) + k);
  }

  /** The local day of a time under a fixed offset from UTC (local time =
      UTC + `offsetMs`). */
  function LocalDay(t: int, offsetMs: int): int {
    (t + offsetMs) / MsPerDay
  }

  /** The UTC time at which local day `day` begins. */
  function LocalDayStart(day: int, offsetMs: int): (t: int)
    ensures LocalDay(t, offsetMs) == day
  {
    day * MsPerDay - offsetMs
  }

  /** A time falls in local day `day` exactly when it lies between that
      day's start and the next day's start. */
  lemma LocalDayRange(t: int, offsetMs: int, day: int)
    ensures LocalDay(t, offsetMs) == day <==>
      LocalDayStart(day, offsetMs) <= t < LocalDayStart(day + 1, offsetMs)
  {
    var q := (t + offsetMs) / MsPerDay;
    assert q * MsPerDay <= t + offsetMs < q * MsPerDay + MsPerDay;
  }
}
