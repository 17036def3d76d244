/**
 * Calendar dates as Python's `datetime.date` holds them: a proleptic Gregorian
 * date whose year lies in 1..9999, ordered chronologically, and the year-month
 * bucket key the ledger files records under.
 */
module Calendar {

  /** `datetime.MINYEAR` and `datetime.MAXYEAR`. */
  const MinYear := 1
  const MaxYear := 9999

  datatype Date = Date(year: int, month: int, day: int)

  /** The Gregorian leap-year rule: divisible by 4 and not by 100, or divisible by 400. */
  function IsLeap(year: int): (leap: bool)
    ensures year % 4 == 0 && year % 100 != 0 ==> leap
    ensures year % 400 == 0 ==> leap
    ensures year % 4 != 0 ==> !leap
    ensures year % 100 == 0 && year % 400 != 0 ==> !leap
  {
    (year % 4 == 0 && year % 100 != 0) || year % 400 == 0
  }

  /** The month-length table: 30 for April, June, September, November; February by the leap rule; 31 otherwise. */
  function DaysInMonth(year: int, month: int): (n: int)
    requires 1 <= month <= 12
    ensures 28 <= n <= 31
    ensures n == 29 <==> month == 2 && IsLeap(year)
  {
    if month == 4 || month == 6 || month == 9 || month == 11 then 30
    else if month == 2 then (if IsLeap(year) then 29 else 28)
    else 31
  }

  /** Days in the months of `year` strictly before `month`. */
  function DaysBefore(year: int, month: int): int
    requires 1 <= month <= 13
    decreases month
  {
    if month == 1 then 0 else DaysBefore(year, month - 1) + DaysInMonth(year, month - 1)
  }

  /** The month table adds up to the length of the year the leap rule predicts. */
  lemma YearLength(year: int)
    ensures DaysBefore(year, 13) == if IsLeap(year) then 366 else 365
  {
    assert DaysBefore(year, 2) == 31;
    assert DaysBefore(year, 4) == DaysBefore(year, 3) + 31;
    assert DaysBefore(year, 7) == DaysBefore(year, 4) + 30 + 31 + 30;
    assert DaysBefore(year, 10) == DaysBefore(year, 7) + 31 + 31 + 30;
    assert DaysBefore(year, 13) == DaysBefore(year, 10) + 31 + 30 + 31;
  }

  /** The dates a `datetime.date` can hold. */
  predicate Valid(d: Date)
  {
    && MinYear <= d.year <= MaxYear
    && 1 <= d.month <= 12
    && 1 <= d.day <= DaysInMonth(d.year, d.month)
  }

  type CalDate = d: Date | Valid(d) witness Date(1970, 1, 1)

  /** Chronological order (`a <= b` on `datetime.date`), which is lexicographic on (year, month, day). */
  predicate AtOrBefore(a: Date, b: Date)
  {
    || a.year < b.year
    || (a.year == b.year && (a.month < b.month || (a.month == b.month && a.day <= b.day)))
  }

  /** A "YYYY-MM" bucket key, kept as the pair it renders. */
  datatype YearMonth = YearMonth(year: int, month: int)

  predicate ValidMonth(k: YearMonth)
  {
    1 <= k.month <= 12
  }

  function MonthOf(d: Date): YearMonth
  {
    YearMonth(d.year, d.month)
  }

  /** Months counted from January of year 0; consecutive calendar months get consecutive numbers. */
  function MonthNumber(k: YearMonth): int
  {
    k.year * 12 + k.month - 1
  }

  /** The step of the month walk: the month after December is January of the next year. */
  function NextMonth(k: YearMonth): (next: YearMonth)
    ensures ValidMonth(k) ==> ValidMonth(next) && MonthNumber(next) == MonthNumber(k) + 1
  {
    if k.month + 1 > 12 then YearMonth(k.year + 1, 1) else YearMonth(k.year, k.month + 1)
  }

  /** On valid months, the month number is one-to-one. */
  lemma MonthNumberInjective(j: YearMonth, k: YearMonth)
    requires ValidMonth(j) && ValidMonth(k)
    requires MonthNumber(j) == MonthNumber(k)
    ensures j == k
  {
  }

  /** A date's month never comes after the month of a later date. */
  lemma MonthMonotone(a: Date, b: Date)
    requires 1 <= a.month <= 12 && 1 <= b.month <= 12
    requires AtOrBefore(a, b)
    ensures MonthNumber(MonthOf(a)) <= MonthNumber(MonthOf(b))
  {
  }

  /** The first of a month is at or before `b` exactly when that month is not after `b`'s month. */
  lemma FirstOfMonthAtOrBefore(k: YearMonth, b: Date)
    requires ValidMonth(k) && 1 <= b.month <= 12 && 1 <= b.day
    ensures AtOrBefore(Date(k.year, k.month, 1), b) <==> MonthNumber(k) <= MonthNumber(MonthOf(b))
  {
  }
}
