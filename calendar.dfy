/**
 * Day-level Gregorian calendar arithmetic: the part of `Calendar.current` that
 * BudgetLite uses (month start and end, adding months, same-month test).
 * The calendar is fixed to the proleptic Gregorian one instead of the ambient
 * system calendar.
 */
module Calendar {

  datatype CivilDate = CivilDate(year: int, month: int, day: int)

  predicate IsLeapYear(year: int) {
    year % 4 == 0 && (year % 100 != 0 || year % 400 == 0)
  }

  function DaysInMonth(year: int, month: int): (n: int)
    requires 1 <= month <= 12
    ensures 28 <= n <= 31
    ensures n == 29 <==> month == 2 && IsLeapYear(year)
  {
    if month == 2 then (if IsLeapYear(year) then 29 else 28)
    else if month == 4 || month == 6 || month == 9 || month == 11 then 30
    else 31
  }

  predicate IsValid(d: CivilDate) {
    1 <= d.month <= 12 && 1 <= d.day <= DaysInMonth(d.year, d.month)
  }

  /** A calendar day that exists. */
  type Date = d: CivilDate | IsValid(d) witness CivilDate(2000, 1, 1)

  /** Months elapsed since January of year 0. */
  function MonthIndex(d: Date): int {
    d.year * 12 + d.month - 1
  }

  /** `Calendar.isDate(a, equalTo: b, toGranularity: .month)`. */
  predicate IsSameMonth(a: Date, b: Date) {
    a.year == b.year && a.month == b.month
  }

  /** Strict chronological order of days. */
  predicate IsBefore(a: Date, b: Date) {
    a.year < b.year
    || (a.year == b.year && a.month < b.month)
    || (a.year == b.year && a.month == b.month && a.day < b.day)
  }

  predicate IsAtOrBefore(a: Date, b: Date) {
    a == b || IsBefore(a, b)
  }

  function Min(a: int, b: int): int {
    if a <= b then a else b
  }

  /**
   * `Calendar.date(byAdding: .month, value: n, to: d)`: moves `n` months, keeping the
   * day of the month when it exists and clamping it to the month's last day otherwise.
   */
  function AddMonths(d: Date, n: int): (r: Date)
    ensures MonthIndex(r) == MonthIndex(d) + n
    ensures r.day <= d.day
    ensures d.day <= DaysInMonth(r.year, r.month) ==> r.day == d.day
    ensures d.day > DaysInMonth(r.year, r.month) ==> r.day == DaysInMonth(r.year, r.month)
  {
    var t := MonthIndex(d) + n;
    var year, month := t / 12, t % 12 + 1;
    CivilDate(year, month, Min(d.day, DaysInMonth(year, month)))
  }

  /**
   * `Calendar.date(byAdding: DateComponents(day: -1), to: d)`: the day before in the same
   * month, or the last day of the month before when `d` is the first of its month.
   */
  function PreviousDay(d: Date): (r: Date)
    ensures IsBefore(r, d)
    ensures d.day > 1 ==> IsSameMonth(r, d) && r.day == d.day - 1
    ensures d.day == 1 ==> MonthIndex(r) == MonthIndex(d) - 1 && r.day == DaysInMonth(r.year, r.month)
  {
    if d.day > 1 then CivilDate(d.year, d.month, d.day - 1)
    else if d.month > 1 then CivilDate(d.year, d.month - 1, DaysInMonth(d.year, d.month - 1))
    else CivilDate(d.year - 1, 12, 31)
  }

  /** `startOfMonth(for:)`: the year and month of `d`, day 1. */
  function StartOfMonth(d: Date): (r: Date)
    ensures IsSameMonth(r, d) && r.day == 1
  {
    CivilDate(d.year, d.month, 1)
  }

  /** `endOfMonth(for:)`: one month after the start of the month, minus one day. */
  function EndOfMonth(d: Date): Date {
    PreviousDay(AddMonths(StartOfMonth(d), 1))
  }

  /** Month indices identify a year and month. */
  lemma SameMonthIffIndex(a: Date, b: Date)
    ensures IsSameMonth(a, b) <==> MonthIndex(a) == MonthIndex(b)
  {
  }

  /** December rolls over to January of the next year. */
  lemma NextMonthOfDecember(d: Date)
    requires d.month == 12
    ensures AddMonths(StartOfMonth(d), 1) == CivilDate(d.year + 1, 1, 1)
  {
    var r := AddMonths(StartOfMonth(d), 1);
    assert MonthIndex(r) == d.year * 12 + 12;
  }

  /** Any other month is followed by the next month of the same year. */
  lemma NextMonthWithinYear(d: Date)
    requires d.month < 12
    ensures AddMonths(StartOfMonth(d), 1) == CivilDate(d.year, d.month + 1, 1)
  {
    var r := AddMonths(StartOfMonth(d), 1);
    assert MonthIndex(r) == d.year * 12 + d.month;
  }

  /** The end of the month is its last day: 28, 29, 30 or 31 by the Gregorian rules. */
  lemma EndOfMonthIsLastDay(d: Date)
    ensures EndOfMonth(d) == CivilDate(d.year, d.month, DaysInMonth(d.year, d.month))
  {
    if d.month == 12 {
      NextMonthOfDecember(d);
    } else {
      NextMonthWithinYear(d);
    }
  }

  /** Every day lies between the start and the end of its month, both in the same month. */
  lemma MonthBrackets(d: Date)
    ensures IsSameMonth(StartOfMonth(d), d) && IsSameMonth(EndOfMonth(d), d)
    ensures IsAtOrBefore(StartOfMonth(d), d) && IsAtOrBefore(d, EndOfMonth(d))
  {
    EndOfMonthIsLastDay(d);
  }

  lemma StartOfMonthIdempotent(d: Date)
    ensures StartOfMonth(StartOfMonth(d)) == StartOfMonth(d)
  {
  }

  /** The last day of a month and the first day of the next month are in different months. */
  lemma MonthBoundary(d: Date)
    ensures !IsSameMonth(EndOfMonth(d), StartOfMonth(AddMonths(d, 1)))
    ensures MonthIndex(StartOfMonth(AddMonths(d, 1))) == MonthIndex(EndOfMonth(d)) + 1
  {
    EndOfMonthIsLastDay(d);
  }

  /** One month forward, then one back, is the same year and month again; the day may be clamped. */
  lemma NextThenPrevious(d: Date)
    ensures IsSameMonth(AddMonths(AddMonths(d, 1), -1), d)
    ensures AddMonths(AddMonths(d, 1), -1).day <= d.day
  {
    SameMonthIffIndex(AddMonths(AddMonths(d, 1), -1), d);
  }

  /** One month back, then one forward, is the same year and month again. */
  lemma PreviousThenNext(d: Date)
    ensures IsSameMonth(AddMonths(AddMonths(d, -1), 1), d)
  {
    SameMonthIffIndex(AddMonths(AddMonths(d, -1), 1), d);
  }

  /** Moving back one month from January gives December of the previous year. */
  lemma PreviousMonthOfJanuary(d: Date)
    requires d.month == 1
    ensures AddMonths(d, -1).year == d.year - 1 && AddMonths(d, -1).month == 12
  {
    assert MonthIndex(AddMonths(d, -1)) == d.year * 12 - 1;
  }
}
