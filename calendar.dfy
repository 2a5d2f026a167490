/**
 * Calendar days as the statistics code sees them: a `YYYY-MM-DD` string is
 * read as midnight UTC of that day, and two days are compared through the
 * difference of their millisecond timestamps divided by the length of a day.
 * Here a day is the whole number of days since 1970-01-01 in the proleptic
 * Gregorian calendar, which is exactly that quotient.
 */
module Calendar {
  import opened Js

  /** `/^\d{4}-\d{2}-\d{2}$/.test(s)` */
  predicate IsDateShape(s: string) {
    && |s| == 10
    && IsDigit(s[0]) && IsDigit(s[1]) && IsDigit(s[2]) && IsDigit(s[3])
    && s[4] == '-'
    && IsDigit(s[5]) && IsDigit(s[6])
    && s[7] == '-'
    && IsDigit(s[8]) && IsDigit(s[9])
  }

  function YearOf(s: string): nat
    requires IsDateShape(s)
  {
    ParseNat(s[0..4])
  }

  function MonthOf(s: string): nat
    requires IsDateShape(s)
  {
    ParseNat(s[5..7])
  }

  function DayOf(s: string): nat
    requires IsDateShape(s)
  {
    ParseNat(s[8..10])
  }

  predicate IsLeapYear(y: int) {
    y % 4 == 0 && (y % 100 != 0 || y % 400 == 0)
  }

  function DaysInMonth(y: int, m: int): (n: int)
    requires 1 <= m <= 12
    ensures 28 <= n <= 31
    ensures m == 2 ==> (n == 29 <==> IsLeapYear(y))
  {
    if m == 2 then (if IsLeapYear(y) then 29 else 28)
    else if m == 4 || m == 6 || m == 9 || m == 11 then 30
    else 31
  }

  predicate IsValidDate(y: int, m: int, d: int) {
    0 <= y && 1 <= m <= 12 && 1 <= d <= DaysInMonth(y, m)
  }

  /** A string the source's pattern accepts and that names a day that exists. */
  predicate IsCalendarDate(s: string) {
    IsDateShape(s) && IsValidDate(YearOf(s), MonthOf(s), DayOf(s))
  }

  /** Days from 0000-01-01 to the first of January of year `y`. */
  function DaysBeforeYear(y: nat): nat {
    365 * y + (y + 3) / 4 - (y + 99) / 100 + (y + 399) / 400
  }

  /** Days from the first of January of year `y` to the first of month `m`. */
  function DaysBeforeMonth(y: int, m: int): nat
    requires 1 <= m <= 12
  {
    [0, 31, 59, 90, 120, 151, 181, 212, 243, 273, 304, 334][m - 1]
      + (if m > 2 && IsLeapYear(y) then 1 else 0)
  }

  lemma MonthLength(y: int, m: int)
    requires 1 <= m < 12
    ensures DaysBeforeMonth(y, m + 1) == DaysBeforeMonth(y, m) + DaysInMonth(y, m)
  {
  }

  /** `DaysBeforeYear(1970)`: the day number of 1970-01-01 counted from 0000-01-01. */
  const UnixEpochDays: nat := 719528

  /** Milliseconds of midnight UTC on the given day, divided by one day. */
  function DayNumber(y: int, m: int, d: int): int
    requires IsValidDate(y, m, d)
  {
    DaysBeforeYear(y) + DaysBeforeMonth(y, m) + d - 1 - UnixEpochDays
  }

  /** `new Date(s + 'T00:00:00.000Z').getTime() / 86400000` */
  function ParseDay(s: string): int
    requires IsCalendarDate(s)
  {
    DayNumber(YearOf(s), MonthOf(s), DayOf(s))
  }

  /** The calendar date following the given one. */
  function NextDate(y: int, m: int, d: int): (r: (int, int, int))
    requires IsValidDate(y, m, d)
    ensures IsValidDate(r.0, r.1, r.2)
  {
    if d < DaysInMonth(y, m) then (y, m, d + 1)
    else if m < 12 then (y, m + 1, 1)
    else (y + 1, 1, 1)
  }

  /** Counting the multiples of `k` below a bound: one more exactly when the bound is a multiple of `k`. */
  lemma MultiplesStep4(y: nat)
    ensures (y + 4) / 4 == (y + 3) / 4 + (if y % 4 == 0 then 1 else 0)
  {
    var q, r := y / 4, y % 4;
    assert y == 4 * q + r;
    if r == 0 {
      assert (y + 3) / 4 == q && (y + 4) / 4 == q + 1;
    } else {
      assert (y + 3) / 4 == q + 1 && (y + 4) / 4 == q + 1;
    }
  }

  lemma MultiplesStep100(y: nat)
    ensures (y + 100) / 100 == (y + 99) / 100 + (if y % 100 == 0 then 1 else 0)
  {
    var q, r := y / 100, y % 100;
    assert y == 100 * q + r;
    if r == 0 {
      assert (y + 99) / 100 == q && (y + 100) / 100 == q + 1;
    } else {
      assert (y + 99) / 100 == q + 1 && (y + 100) / 100 == q + 1;
    }
  }

  lemma MultiplesStep400(y: nat)
    ensures (y + 400) / 400 == (y + 399) / 400 + (if y % 400 == 0 then 1 else 0)
  {
    var q, r := y / 400, y % 400;
    assert y == 400 * q + r;
    if r == 0 {
      assert (y + 399) / 400 == q && (y + 400) / 400 == q + 1;
    } else {
      assert (y + 399) / 400 == q + 1 && (y + 400) / 400 == q + 1;
    }
  }

  lemma DivisibilityChain(y: nat)
    ensures y % 400 == 0 ==> y % 100 == 0
    ensures y % 100 == 0 ==> y % 4 == 0
  {
    if y % 400 == 0 {
      var k := y / 400;
      assert y == 100 * (4 * k);
    }
    if y % 100 == 0 {
      var k := y / 100;
      assert y == 4 * (25 * k);
    }
  }

  /** A year has 366 days when it is a leap year and 365 otherwise. */
  lemma YearLength(y: nat)
    ensures DaysBeforeYear(y + 1) == DaysBeforeYear(y) + (if IsLeapYear(y) then 366 else 365)
  {
    MultiplesStep4(y);
    MultiplesStep100(y);
    MultiplesStep400(y);
    DivisibilityChain(y);
    var a := if y % 4 == 0 then 1 else 0;
    var b := if y % 100 == 0 then 1 else 0;
    var c := if y % 400 == 0 then 1 else 0;
    assert DaysBeforeYear(y + 1) == DaysBeforeYear(y) + 365 + a - b + c;
    assert IsLeapYear(y) <==> a - b + c == 1;
    assert !IsLeapYear(y) <==> a - b + c == 0;
  }

  /** Consecutive calendar dates have consecutive day numbers. */
  lemma NextDateIsNextDay(y: int, m: int, d: int)
    requires IsValidDate(y, m, d)
    ensures var (y', m', d') := NextDate(y, m, d); DayNumber(y', m', d') == DayNumber(y, m, d) + 1
  {
    if d == DaysInMonth(y, m) && m == 12 {
      YearLength(y);
    } else if d == DaysInMonth(y, m) {
      MonthLength(y, m);
    }
  }

  /** Within a year, a later month or a later day of the month is a later day. */
  lemma {:induction false} DaysBeforeMonthGrows(y: int, m: int, m': int)
    requires 1 <= m < m' <= 12
    ensures DaysBeforeMonth(y, m') >= DaysBeforeMonth(y, m) + DaysInMonth(y, m)
    decreases m' - m
  {
    MonthLength(y, m);
    if m' > m + 1 {
      DaysBeforeMonthGrows(y, m + 1, m');
    }
  }

  lemma {:induction false} DaysBeforeYearGrows(y: nat, y': nat)
    requires y < y'
    ensures DaysBeforeYear(y') >= DaysBeforeYear(y) + (if IsLeapYear(y) then 366 else 365)
    decreases y' - y
  {
    YearLength(y);
    if y' > y + 1 {
      DaysBeforeYearGrows(y + 1, y');
    }
  }

  /**
   * Day numbers follow the order of dates, year first, then month, then day:
   * which is also the order in which `sort()` puts `YYYY-MM-DD` strings.
   */
  lemma DayNumberOrder(y: int, m: int, d: int, y': int, m': int, d': int)
    requires IsValidDate(y, m, d) && IsValidDate(y', m', d')
    ensures DayNumber(y, m, d) < DayNumber(y', m', d') <==>
              y < y' || (y == y' && m < m') || (y == y' && m == m' && d < d')
  {
    if y < y' {
      DaysBeforeYearGrows(y, y');
      DaysBeforeDecemberBound(y, m);
    } else if y' < y {
      DaysBeforeYearGrows(y', y);
      DaysBeforeDecemberBound(y', m');
    } else if m < m' {
      DaysBeforeMonthGrows(y, m, m');
    } else if m' < m {
      DaysBeforeMonthGrows(y, m', m);
    }
  }

  lemma DaysBeforeDecemberBound(y: int, m: int)
    requires 1 <= m <= 12
    ensures DaysBeforeMonth(y, m) + DaysInMonth(y, m) <= 365 + (if IsLeapYear(y) then 1 else 0)
  {
    if m < 12 {
      DaysBeforeMonthGrows(y, m, 12);
    }
  }
}
