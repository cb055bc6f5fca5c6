/**
 * The proleptic Gregorian calendar as section 21.4.1 of ECMA-262 computes it from day numbers, with
 * day 0 on 1 January 1970. Months count from 0.
 */
module Calendar {

  datatype Date = Date(year: int, month: int, day: int)

  predicate IsLeap(y: int) {
    y % 4 == 0 && (y % 100 != 0 || y % 400 == 0)
  }

  function DayFromYear(y: int): int {
    365 * (y - 1970) + (y - 1969) / 4 - (y - 1901) / 100 + (y - 1601) / 400
  }

  lemma YearLength(y: int)
    ensures DayFromYear(y + 1) == DayFromYear(y) + if IsLeap(y) then 366 else 365
  {
    QuotientStep(y - 1969, 4);
    QuotientStep(y - 1901, 100);
    QuotientStep(y - 1601, 400);
  }

  /** A quotient grows by one exactly when the next number is a multiple of the divisor. */
  lemma QuotientStep(n: int, d: int)
    requires d == 4 || d == 100 || d == 400
    ensures (n + 1) / d == n / d + if (n + 1) % d == 0 then 1 else 0
  {
  }

  lemma {:induction false} YearsAscend(a: int, b: int)
    requires a <= b
    ensures DayFromYear(a) + (b - a) <= DayFromYear(b)
    decreases b - a
  {
    if a == b {
    } else {
      YearLength(a);
      YearsAscend(a + 1, b);
    }
  }

  /** The last year from `y` on that has begun by day `d`. */
  function YearFrom(y: int, d: int): (r: int)
    requires DayFromYear(y) <= d
    ensures DayFromYear(r) <= d < DayFromYear(r + 1)
    decreases d - DayFromYear(y)
  {
    YearLength(y);
    if d < DayFromYear(y + 1) then y else YearFrom(y + 1, d)
  }

  function YearOf(d: int): (r: int)
    ensures DayFromYear(r) <= d < DayFromYear(r + 1)
  {
    if d >= 0 then YearFrom(1970, d) else YearsAscend(1970 + d, 1970); YearFrom(1970 + d, d)
  }

  lemma YearIsUnique(d: int, y: int)
    requires DayFromYear(y) <= d < DayFromYear(y + 1)
    ensures YearOf(d) == y
  {
    OnlyOneYear(d, YearOf(d), y);
  }

  lemma OnlyOneYear(d: int, a: int, b: int)
    requires DayFromYear(a) <= d < DayFromYear(a + 1) && DayFromYear(b) <= d < DayFromYear(b + 1)
    ensures a == b
  {
    if a < b {
      YearsAscend(a + 1, b);
    } else if b < a {
      YearsAscend(b + 1, a);
    }
  }

  /** Days of the year before a month begins; month 12 is the end of the year. */
  function DaysBefore(month: int, leap: bool): int
    requires 0 <= month <= 12
  {
    [0, 31, 59, 90, 120, 151, 181, 212, 243, 273, 304, 334, 365][month] + if leap && month >= 2 then 1 else 0
  }

  function MonthOf(within: int, leap: bool): (m: int)
    requires 0 <= within < DaysBefore(12, leap)
    ensures 0 <= m < 12 && DaysBefore(m, leap) <= within < DaysBefore(m + 1, leap)
  {
    if within < 31 then 0
    else if within < DaysBefore(2, leap) then 1
    else if within < DaysBefore(3, leap) then 2
    else if within < DaysBefore(4, leap) then 3
    else if within < DaysBefore(5, leap) then 4
    else if within < DaysBefore(6, leap) then 5
    else if within < DaysBefore(7, leap) then 6
    else if within < DaysBefore(8, leap) then 7
    else if within < DaysBefore(9, leap) then 8
    else if within < DaysBefore(10, leap) then 9
    else if within < DaysBefore(11, leap) then 10
    else 11
  }

  /** The date a day number falls on. */
  function DateOf(d: int): Date {
    var y := YearOf(d);
    YearLength(y);
    var within := d - DayFromYear(y);
    var m := MonthOf(within, IsLeap(y));
    Date(y, m, within - DaysBefore(m, IsLeap(y)) + 1)
  }

  /** The day number of a date; a day past the end of its month counts on into the next. */
  function DayNumber(date: Date): int
    requires 0 <= date.month < 12
  {
    DayFromYear(date.year) + DaysBefore(date.month, IsLeap(date.year)) + date.day - 1
  }

  /** Sunday is 0. */
  function Weekday(d: int): (w: int)
    ensures 0 <= w < 7
  {
    (d + 4) % 7
  }

  // -------------------------------------------------------------- the calendar as people know it

  function DaysIn(year: int, month: int): int {
    if month == 1 then (if IsLeap(year) then 29 else 28)
    else if month == 3 || month == 5 || month == 8 || month == 10 then 30
    else 31
  }

  predicate IsReal(date: Date) {
    0 <= date.month < 12 && 1 <= date.day <= DaysIn(date.year, date.month)
  }

  function NextDate(date: Date): Date {
    if date.day < DaysIn(date.year, date.month) then Date(date.year, date.month, date.day + 1)
    else if date.month < 11 then Date(date.year, date.month + 1, 1)
    else Date(date.year + 1, 0, 1)
  }

  lemma MonthLength(year: int, month: int)
    requires 0 <= month < 12
    ensures DaysBefore(month + 1, IsLeap(year)) == DaysBefore(month, IsLeap(year)) + DaysIn(year, month)
  {
  }

  lemma NextIsReal(date: Date)
    requires IsReal(date)
    ensures IsReal(NextDate(date)) && DayNumber(NextDate(date)) == DayNumber(date) + 1
  {
    MonthLength(date.year, date.month);
    YearLength(date.year);
  }

  /** The numbering is the calendar's: 1 January 1970 is day 0, a Thursday, and each date is one day after the last. */
  lemma NumbersFollowTheCalendar(date: Date)
    requires IsReal(date)
    ensures DayNumber(Date(1970, 0, 1)) == 0 && Weekday(0) == 4
    ensures IsReal(NextDate(date)) && DayNumber(NextDate(date)) == DayNumber(date) + 1
    ensures Weekday(DayNumber(NextDate(date))) == (Weekday(DayNumber(date)) + 1) % 7
  {
    NextIsReal(date);
    WeekdayStep(DayNumber(date));
  }

  lemma WeekdayStep(d: int)
    ensures Weekday(d + 1) == (Weekday(d) + 1) % 7
  {
  }

  lemma MonthIsUnique(within: int, leap: bool, m: int)
    requires 0 <= m < 12 && DaysBefore(m, leap) <= within < DaysBefore(m + 1, leap)
    ensures 0 <= within < DaysBefore(12, leap) && MonthOf(within, leap) == m
  {
  }

  lemma DateIsReal(d: int)
    ensures IsReal(DateOf(d)) && DayNumber(DateOf(d)) == d
  {
    YearLength(YearOf(d));
  }

  /** Numbering a date and reading it back gives the date exactly when it is a real one. */
  lemma DateOfNumberExactly(date: Date)
    requires 0 <= date.month < 12
    ensures DateOf(DayNumber(date)) == date <==> IsReal(date)
  {
    DateIsReal(DayNumber(date));
    if IsReal(date) {
      DateOfNumber(date);
    }
  }

  lemma DateOfNumber(date: Date)
    requires IsReal(date)
    ensures DateOf(DayNumber(date)) == date
  {
    var within := DaysBefore(date.month, IsLeap(date.year)) + date.day - 1;
    MonthLength(date.year, date.month);
    MonthIsUnique(within, IsLeap(date.year), date.month);
    YearLength(date.year);
    YearIsUnique(DayNumber(date), date.year);
  }
}
