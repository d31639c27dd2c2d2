/** The proleptic Gregorian calendar of section 21.4.1 of ECMA-262: day numbers and civil dates. */
module Gregorian {
  datatype Civil = Civil(year: int, month: int, day: int)

  predicate IsLeap(y: int) {
    y % 4 == 0 && (y % 100 != 0 || y % 400 == 0)
  }

  function DaysInYear(y: int): int {
    if IsLeap(y) then 366 else 365
  }

  /** The calendar's month lengths, months counted from 1. */
  function DaysInMonth(y: int, m: int): int {
    if m == 2 then (if IsLeap(y) then 29 else 28)
    else if m == 4 || m == 6 || m == 9 || m == 11 then 30
    else 31
  }

  predicate Valid(c: Civil) {
    1 <= c.month <= 12 && 1 <= c.day <= DaysInMonth(c.year, c.month)
  }

  /** DayFromYear: the number of the first day of year `y`, day 0 being 1970-01-01. */
  function DayFromYear(y: int): int {
    365 * (y - 1970) + (y - 1969) / 4 - (y - 1901) / 100 + (y - 1601) / 400
  }

  /** Days of year `y` before its month `m`, months counted from 0. */
  function MonthStart(y: int, m: int): int
    requires 0 <= m <= 12
  {
    if m == 0 then 0 else MonthStart(y, m - 1) + DaysInMonth(y, m)
  }

  lemma MonthsFillYear(y: int)
    ensures MonthStart(y, 12) == DaysInYear(y)
  {
    assert MonthStart(y, 1) == 31;
    assert MonthStart(y, 3) == MonthStart(y, 1) + DaysInMonth(y, 2) + 31;
    assert MonthStart(y, 5) == MonthStart(y, 3) + 61;
    assert MonthStart(y, 7) == MonthStart(y, 5) + 61;
    assert MonthStart(y, 9) == MonthStart(y, 7) + 61;
    assert MonthStart(y, 11) == MonthStart(y, 9) + 61;
  }

  /** MakeDay: months count from 0 and, like days, may lie outside their range and carry over. */
  function MakeDay(year: int, month: int, date: int): int {
    var y := year + month / 12;
    DayFromYear(y) + MonthStart(y, month % 12) + date - 1
  }

  lemma MakeDayInYear(year: int, month: int, date: int)
    requires 0 <= month <= 11
    ensures MakeDay(year, month, date) == DayFromYear(year) + MonthStart(year, month) + date - 1
  {
    assert month / 12 == 0 && month % 12 == month;
  }

  function DayNumber(c: Civil): int {
    MakeDay(c.year, c.month - 1, c.day)
  }

  lemma YearLength(y: int)
    ensures DayFromYear(y + 1) == DayFromYear(y) + DaysInYear(y)
  {
    FourYears(y);
    HundredYears(y);
    FourHundredYears(y);
  }

  lemma FourYears(y: int)
    ensures (y + 1 - 1969) / 4 == (y - 1969) / 4 + (if y % 4 == 0 then 1 else 0)
  {
  }

  lemma HundredYears(y: int)
    ensures (y + 1 - 1901) / 100 == (y - 1901) / 100 + (if y % 100 == 0 then 1 else 0)
    ensures y % 100 == 0 ==> y % 4 == 0
  {
  }

  lemma FourHundredYears(y: int)
    ensures (y + 1 - 1601) / 400 == (y - 1601) / 400 + (if y % 400 == 0 then 1 else 0)
    ensures y % 400 == 0 ==> y % 100 == 0
  {
  }

  /** YearFromTime on day numbers: the largest year whose first day is not after `day`, searched upward from `y`. */
  function YearFrom(day: int, y: int): int
    requires DayFromYear(y) <= day
    decreases day - DayFromYear(y)
  {
    YearLength(y);
    if day < DayFromYear(y + 1) then y else YearFrom(day, y + 1)
  }

  /** A year that begins on or before the day. */
  function EarlyYear(day: int): (y: int)
    ensures DayFromYear(y) <= day
  {
    if day >= 0 then 1970 else 1970 + day
  }

  function YearOf(day: int): int {
    YearFrom(day, EarlyYear(day))
  }

  lemma YearHoldsDay(day: int, y: int)
    requires DayFromYear(y) <= day
    ensures DayFromYear(YearFrom(day, y)) <= day < DayFromYear(YearFrom(day, y) + 1)
    decreases day - DayFromYear(y)
  {
    YearLength(y);
    if day >= DayFromYear(y + 1) {
      YearHoldsDay(day, y + 1);
    }
  }

  /** MonthFromTime: the month, counted from 0, that holds day `k` of year `y`, searched downward from `m`. */
  function MonthFrom(y: int, k: int, m: nat): (r: nat)
    requires m <= 11
    ensures r <= m
  {
    if m == 0 || MonthStart(y, m) <= k then m else MonthFrom(y, k, m - 1)
  }

  lemma {:induction false} MonthHoldsDay(y: int, k: int, m: nat)
    requires m <= 11 && 0 <= k < MonthStart(y, m + 1)
    ensures MonthStart(y, MonthFrom(y, k, m)) <= k < MonthStart(y, MonthFrom(y, k, m) + 1)
  {
    if m > 0 && k < MonthStart(y, m) {
      MonthHoldsDay(y, k, m - 1);
    }
  }

  /** The civil date of a day number: YearFromTime, MonthFromTime and DateFromTime. */
  function CivilOf(day: int): Civil {
    var y := YearOf(day);
    var k := day - DayFromYear(y);
    var m := MonthFrom(y, k, 11);
    Civil(y, m + 1, k - MonthStart(y, m) + 1)
  }

  lemma YearsIncrease(y: int, z: int)
    requires y < z
    ensures DayFromYear(y) + DaysInYear(y) <= DayFromYear(z)
    decreases z - y
  {
    YearLength(y);
    if y + 1 < z {
      YearsIncrease(y + 1, z);
    }
  }

  lemma NextMonth(y: int, m: int)
    requires 0 <= m <= 11
    ensures MonthStart(y, m + 1) == MonthStart(y, m) + DaysInMonth(y, m + 1)
  {
  }

  lemma MonthsIncrease(y: int, m: int, n: int)
    requires 1 <= m < n <= 13
    ensures MonthStart(y, m - 1) + DaysInMonth(y, m) <= MonthStart(y, n - 1)
    decreases n - m
  {
    if m + 1 < n {
      MonthsIncrease(y, m + 1, n);
    }
  }

  /** The order of civil dates by year, then month, then day. */
  predicate Before(a: Civil, b: Civil) {
    a.year < b.year || (a.year == b.year && (a.month < b.month || (a.month == b.month && a.day < b.day)))
  }

  lemma DayWithinYear(c: Civil)
    requires Valid(c)
    ensures DayNumber(c) == DayFromYear(c.year) + MonthStart(c.year, c.month - 1) + c.day - 1
    ensures DayFromYear(c.year) <= DayNumber(c) < DayFromYear(c.year) + DaysInYear(c.year)
  {
    hide DayFromYear, MonthStart, MakeDay, DaysInMonth, DaysInYear;
    MakeDayInYear(c.year, c.month - 1, c.day);
    MonthsIncrease(c.year, c.month, 13);
    MonthsFillYear(c.year);
    MonthStartNonNegative(c.year, c.month - 1);
  }

  lemma MonthStartNonNegative(y: int, m: int)
    requires 0 <= m <= 12
    ensures MonthStart(y, m) >= 0
  {
  }

  lemma BeforeIsEarlier(a: Civil, b: Civil)
    requires Valid(a) && Valid(b) && Before(a, b)
    ensures DayNumber(a) < DayNumber(b)
  {
    hide DayFromYear, MonthStart, MakeDay, DaysInMonth, DaysInYear;
    DayWithinYear(a);
    DayWithinYear(b);
    if a.year < b.year {
      YearsIncrease(a.year, b.year);
    } else if a.month < b.month {
      MonthsIncrease(a.year, a.month, b.month);
    }
  }

  /** Day numbers order valid civil dates as the calendar does, so they also tell them apart. */
  lemma DayNumberOrder(a: Civil, b: Civil)
    requires Valid(a) && Valid(b)
    ensures DayNumber(a) < DayNumber(b) <==> Before(a, b)
    ensures DayNumber(a) == DayNumber(b) <==> a == b
  {
    if Before(a, b) {
      BeforeIsEarlier(a, b);
    } else if Before(b, a) {
      BeforeIsEarlier(b, a);
    }
  }

  /** Day number to civil date and back. */
  lemma CivilOfDayNumber(day: int)
    ensures Valid(CivilOf(day)) && DayNumber(CivilOf(day)) == day
  {
    hide DayFromYear, MonthStart, MakeDay, YearFrom, MonthFrom, IsLeap, EarlyYear;
    var y := YearOf(day);
    YearLength(y);
    MonthsFillYear(y);
    NextMonth(y, MonthFrom(y, day - DayFromYear(y), 11));
    var k := day - DayFromYear(y);
    YearHoldsDay(day, EarlyYear(day));
    MonthHoldsDay(y, k, 11);
    var m := MonthFrom(y, k, 11);
    MakeDayInYear(y, m, k - MonthStart(y, m) + 1);
    assert CivilOf(day) == Civil(y, m + 1, k - MonthStart(y, m) + 1);
  }

  /** Civil date to day number and back. */
  lemma DayNumberOfCivil(c: Civil)
    requires Valid(c)
    ensures CivilOf(DayNumber(c)) == c
  {
    CivilOfDayNumber(DayNumber(c));
    DayNumberOrder(CivilOf(DayNumber(c)), c);
  }

  /** A year, month and day read back from their own day number exactly when they are a calendar date. */
  lemma ReadsBackIffValid(c: Civil)
    ensures CivilOf(DayNumber(c)) == c <==> Valid(c)
  {
    CivilOfDayNumber(DayNumber(c));
    if Valid(c) {
      DayNumberOfCivil(c);
    }
  }

  /** Changing only the day of the month moves the day number by the difference, across month and year ends. */
  lemma CarryOver(day: int, date: int)
    ensures MakeDay(CivilOf(day).year, CivilOf(day).month - 1, date) == day + date - CivilOf(day).day
  {
  }

  // ---- the calendar day by day ----

  /** The last days of the months, written out. */
  predicate IsLastOfMonth(c: Civil) {
    || (c.month in {1, 3, 5, 7, 8, 10, 12} && c.day == 31)
    || (c.month in {4, 6, 9, 11} && c.day == 30)
    || (c.month == 2 && c.day == if (c.year % 4 == 0 && c.year % 100 != 0) || c.year % 400 == 0 then 29 else 28)
  }

  function DayAfter(c: Civil): Civil {
    if !IsLastOfMonth(c) then Civil(c.year, c.month, c.day + 1)
    else if c.month < 12 then Civil(c.year, c.month + 1, 1)
    else Civil(c.year + 1, 1, 1)
  }

  /** The next day number is the next day of the calendar, and day 0 is 1970-01-01: this fixes every date. */
  lemma NextDay(c: Civil)
    requires Valid(c)
    ensures Valid(DayAfter(c)) && DayNumber(DayAfter(c)) == DayNumber(c) + 1
    ensures CivilOf(DayNumber(c) + 1) == DayAfter(c)
    ensures CivilOf(0) == Civil(1970, 1, 1)
  {
    hide *;
    DayStep(c);
    DayNumberOfCivil(DayAfter(c));
    Epoch();
    DayNumberOfCivil(Civil(1970, 1, 1));
  }

  lemma Epoch()
    ensures Valid(Civil(1970, 1, 1)) && DayNumber(Civil(1970, 1, 1)) == 0
  {
    MakeDayInYear(1970, 0, 1);
    NoMonthsYet(1970);
    assert DayFromYear(1970) == 0;
    hide DayFromYear, MonthStart, MakeDay;
  }

  lemma LastDays(c: Civil)
    requires Valid(c)
    ensures IsLastOfMonth(c) <==> c.day == DaysInMonth(c.year, c.month)
    ensures Valid(DayAfter(c))
  {
  }

  lemma DayStep(c: Civil)
    requires Valid(c)
    ensures Valid(DayAfter(c)) && DayNumber(DayAfter(c)) == DayNumber(c) + 1
  {
    LastDays(c);
    if !IsLastOfMonth(c) {
      WithinMonth(c);
    } else if c.month < 12 {
      AcrossMonths(c);
    } else {
      AcrossYears(c);
    }
  }

  lemma WithinMonth(c: Civil)
    requires Valid(c) && Valid(Civil(c.year, c.month, c.day + 1))
    ensures DayNumber(Civil(c.year, c.month, c.day + 1)) == DayNumber(c) + 1
  {
    hide *;
    DayWithinYear(c);
    DayWithinYear(Civil(c.year, c.month, c.day + 1));
  }

  lemma AcrossMonths(c: Civil)
    requires Valid(c) && c.day == DaysInMonth(c.year, c.month) && c.month < 12
    requires Valid(Civil(c.year, c.month + 1, 1))
    ensures DayNumber(Civil(c.year, c.month + 1, 1)) == DayNumber(c) + 1
  {
    assert c.month >= 1;
    hide *;
    DayWithinYear(c);
    DayWithinYear(Civil(c.year, c.month + 1, 1));
    NextMonth(c.year, c.month - 1);
  }

  lemma AcrossYears(c: Civil)
    requires Valid(c) && c.day == DaysInMonth(c.year, c.month) && c.month == 12
    requires Valid(Civil(c.year + 1, 1, 1))
    ensures DayNumber(Civil(c.year + 1, 1, 1)) == DayNumber(c) + 1
  {
    hide *;
    DayWithinYear(c);
    DayWithinYear(Civil(c.year + 1, 1, 1));
    NextMonth(c.year, 11);
    YearLength(c.year);
    MonthsFillYear(c.year);
    NoMonthsYet(c.year + 1);
  }

  lemma NoMonthsYet(y: int)
    ensures MonthStart(y, 0) == 0
  {
  }
}
