/**
 * The proleptic Gregorian calendar as Python's datetime module counts it:
 * day ordinal 1 is 0001-01-01, and `FromOrdinal` splits an ordinal into
 * 400-, 100-, 4- and 1-year cycles the way `_ord2ymd` does.
 */
module Calendar {

  datatype Date = Date(year: int, month: int, day: int)

  predicate IsLeapYear(y: int) {
    y % 4 == 0 && (y % 100 != 0 || y % 400 == 0)
  }

  function DaysInYear(y: int): int {
    if IsLeapYear(y) then 366 else 365
  }

  function DaysInMonth(y: int, m: int): int
    requires 1 <= m <= 12
  {
    if m == 2 then (if IsLeapYear(y) then 29 else 28)
    else if m == 4 || m == 6 || m == 9 || m == 11 then 30
    else 31
  }

  /** Days of year `y` that come before the first of month `m`. */
  function DaysBeforeMonth(y: int, m: int): int
    requires 1 <= m <= 12
  {
    var common :=
      if m == 1 then 0 else if m == 2 then 31 else if m == 3 then 59
      else if m == 4 then 90 else if m == 5 then 120 else if m == 6 then 151
      else if m == 7 then 181 else if m == 8 then 212 else if m == 9 then 243
      else if m == 10 then 273 else if m == 11 then 304 else 334;
    if m > 2 && IsLeapYear(y) then common + 1 else common
  }

  /** Days in the years 1 .. y-1. */
  function DaysBeforeYear(y: int): int
    requires y >= 1
  {
    var p := y - 1;
    p * 365 + p / 4 - p / 100 + p / 400
  }

  predicate ValidDate(d: Date) {
    d.year >= 1 && 1 <= d.month <= 12 && 1 <= d.day <= DaysInMonth(d.year, d.month)
  }

  function ToOrdinal(d: Date): int
    requires ValidDate(d)
  {
    DaysBeforeYear(d.year) + DaysBeforeMonth(d.year, d.month) + d.day
  }

  /** The month of year `y` that holds 0-based day `doy`, searching from month `m`. */
  function MonthOf(y: int, doy: int, m: int): (r: int)
    requires 1 <= m <= 12 && DaysBeforeMonth(y, m) <= doy < DaysInYear(y)
    ensures m <= r <= 12
    ensures DaysBeforeMonth(y, r) <= doy < DaysBeforeMonth(y, r) + DaysInMonth(y, r)
    decreases 12 - m
  {
    if m == 12 || doy < DaysBeforeMonth(y, m + 1) then m else MonthOf(y, doy, m + 1)
  }

  /**
   * The year holding 0-based day number `n0` (day 0 is 0001-01-01) and the
   * 0-based day within that year.
   */
  function YearAndDay(n0: int): (yd: (int, int))
    requires n0 >= 0
    ensures yd.0 >= 1 && 0 <= yd.1 < DaysInYear(yd.0)
    ensures DaysBeforeYear(yd.0) + yd.1 == n0
  {
    var n400, r400 := n0 / 146097, n0 % 146097;
    var n100, r100 := r400 / 36524, r400 % 36524;
    var n4, r4 := r100 / 1461, r100 % 1461;
    var n1, doy := r4 / 365, r4 % 365;
    var year := n400 * 400 + n100 * 100 + n4 * 4 + n1 + 1;
    CycleSplit(n0, n400, r400, n100, r100, n4, r4, n1, doy);
    if n1 == 4 || n100 == 4 then
      // the last day of a leap year that closes a 4- or 400-year cycle
      (year - 1, 365)
    else
      (year, doy)
  }

  /** The date with ordinal `n`: the inverse of `ToOrdinal`. */
  function FromOrdinal(n: int): (d: Date)
    requires n >= 1
    ensures ValidDate(d) && ToOrdinal(d) == n
  {
    var (year, doy) := YearAndDay(n - 1);
    var m := MonthOf(year, doy, 1);
    Date(year, m, doy - DaysBeforeMonth(year, m) + 1)
  }

  // ---------------------------------------------------------------------
  // Properties

  lemma DaysBeforeYearStep(y: int)
    requires y >= 1
    ensures DaysBeforeYear(y + 1) == DaysBeforeYear(y) + DaysInYear(y)
  {
    NextQuotient(y - 1, 4);
    NextQuotient(y - 1, 100);
    NextQuotient(y - 1, 400);
    if y % 100 == 0 {
      DivModOf(y / 100 * 25, 0, 4);
    }
    if y % 400 == 0 {
      DivModOf(y / 400 * 4, 0, 100);
    }
  }

  /** Counting one more year passes a multiple of `d` exactly when the new count is one. */
  lemma NextQuotient(p: int, d: int)
    requires p >= 0 && (d == 4 || d == 100 || d == 400)
    ensures (p + 1) / d == p / d + (if (p + 1) % d == 0 then 1 else 0)
  {
    var q, r := p / d, p % d;
    DivModOf(q, r, d);
    if r + 1 < d {
      DivModOf(q, r + 1, d);
    } else {
      DivModOf(q + 1, 0, d);
    }
  }

  lemma {:induction false} DaysBeforeYearMonotone(y1: int, y2: int)
    requires 1 <= y1 < y2
    ensures DaysBeforeYear(y1) + DaysInYear(y1) <= DaysBeforeYear(y2)
    decreases y2 - y1
  {
    DaysBeforeYearStep(y1);
    if y1 + 1 < y2 {
      DaysBeforeYearMonotone(y1 + 1, y2);
    }
  }

  /** A valid date's ordinal falls inside its own year. */
  lemma OrdinalInYear(d: Date)
    requires ValidDate(d)
    ensures DaysBeforeYear(d.year) < ToOrdinal(d) <= DaysBeforeYear(d.year) + DaysInYear(d.year)
  {
  }

  /** The ordinal of day-of-year `doy` in the year whose first cycle counts are given. */
  lemma CycleDays(a: int, b: int, c: int, e: int)
    requires a >= 0 && 0 <= b <= 3 && 0 <= c <= 24 && 0 <= e <= 3
    ensures DaysBeforeYear(400 * a + 100 * b + 4 * c + e + 1)
         == 146097 * a + 36524 * b + 1461 * c + 365 * e
  {
    var p := 400 * a + 100 * b + 4 * c + e;
    assert p / 4 == 100 * a + 25 * b + c;
    assert p / 100 == 4 * a + b;
    assert p / 400 == a;
  }

  /** Where the cycle counts of `YearAndDay` put day number `n0`. */
  lemma CycleSplit(n0: int, n400: int, r400: int, n100: int, r100: int,
                   n4: int, r4: int, n1: int, doy: int)
    requires n0 >= 0
    requires n400 == n0 / 146097 && r400 == n0 % 146097
    requires n100 == r400 / 36524 && r100 == r400 % 36524
    requires n4 == r100 / 1461 && r4 == r100 % 1461
    requires n1 == r4 / 365 && doy == r4 % 365
    ensures var year := n400 * 400 + n100 * 100 + n4 * 4 + n1 + 1;
      if n1 == 4 || n100 == 4 then
        year - 1 >= 1 && IsLeapYear(year - 1) && DaysBeforeYear(year - 1) + 365 == n0
      else
        year >= 1 && 0 <= doy < 365 && DaysBeforeYear(year) + doy == n0
  {
    assert n0 == 146097 * n400 + 36524 * n100 + 1461 * n4 + 365 * n1 + doy;
    assert n400 >= 0 && 0 <= n100 <= 4 && 0 <= n4 <= 24 && 0 <= n1 <= 4 && 0 <= doy < 365;
    if n100 == 4 {
      assert n4 == 0 && n1 == 0 && doy == 0;
      LastDayOfCycle(n400, 3, 24);
    } else if n1 == 4 {
      assert doy == 0 && n4 < 24;
      LastDayOfCycle(n400, n100, n4);
    } else {
      CycleDays(n400, n100, n4, n1);
    }
  }

  /** The year that closes a 4-year cycle (or, with b = 3 and c = 24, a 400-year one) is leap. */
  lemma LastDayOfCycle(a: int, b: int, c: int)
    requires a >= 0 && 0 <= b <= 3 && 0 <= c <= 24 && (c == 24 ==> b == 3)
    ensures var y := 400 * a + 100 * b + 4 * c + 4;
      IsLeapYear(y) && DaysBeforeYear(y) + 365 == 146097 * a + 36524 * b + 1461 * c + 1460
  {
    CycleDays(a, b, c, 3);
    var y := 400 * a + 100 * b + 4 * c + 4;
    DivModOf(100 * a + 25 * b + c + 1, 0, 4);
    if c == 24 {
      DivModOf(a + 1, 0, 400);
    } else {
      DivModOf(4 * a + b, 4 * c + 4, 100);
    }
  }

  /** Quotient and remainder of `q * d + r` by `d`, for a remainder in range. */
  lemma DivModOf(q: int, r: int, d: int)
    requires d == 4 || d == 100 || d == 400
    requires 0 <= r < d
    ensures (q * d + r) / d == q && (q * d + r) % d == r
  {
  }

  /** Two valid dates with the same ordinal are the same date. */
  lemma OrdinalInjective(d1: Date, d2: Date)
    requires ValidDate(d1) && ValidDate(d2) && ToOrdinal(d1) == ToOrdinal(d2)
    ensures d1 == d2
  {
    OrdinalInYear(d1);
    OrdinalInYear(d2);
    if d1.year < d2.year {
      DaysBeforeYearMonotone(d1.year, d2.year);
    } else if d2.year < d1.year {
      DaysBeforeYearMonotone(d2.year, d1.year);
    }
    assert d1.year == d2.year;
  }

  /** Converting a valid date to its ordinal and back gives the date. */
  lemma OrdinalRoundTrip(d: Date)
    requires ValidDate(d)
    ensures FromOrdinal(ToOrdinal(d)) == d
  {
    OrdinalInjective(FromOrdinal(ToOrdinal(d)), d);
  }

  /** Years before `y` are exactly the ordinals up to the days before `y`. */
  lemma YearBound(d: Date, y: int)
    requires ValidDate(d) && y >= 1
    ensures d.year < y <==> ToOrdinal(d) <= DaysBeforeYear(y)
  {
    OrdinalInYear(d);
    if d.year < y {
      DaysBeforeYearMonotone(d.year, y);
    } else if y < d.year {
      DaysBeforeYearMonotone(y, d.year);
    }
  }
}
