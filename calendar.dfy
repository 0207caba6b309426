/**
 * Calendar arithmetic on the proleptic Gregorian calendar, as Python's
 * `datetime` and pandas' periods use it: dates, calendar months laid out on
 * one line of consecutive integers, day numbers, weekday names and weeks.
 */
module Calendar {

  /** A calendar date (`datetime.date`): year, month 1..12, day of month. */
  datatype Date = Date(year: int, month: int, day: int)

  /** A calendar month, the key of a pandas monthly period. */
  datatype Month = Month(year: int, month: int)

  /** The years Python's `datetime` can represent. */
  const MinYear := 1
  const MaxYear := 9999

  predicate IsLeapYear(y: int) {
    y % 4 == 0 && (y % 100 != 0 || y % 400 == 0)
  }

  function DaysInMonth(y: int, m: int): (n: int)
    requires 1 <= m <= 12
    ensures 28 <= n <= 31
    ensures m == 2 ==> (n == 29 <==> IsLeapYear(y))
  {
    if m == 2 then (if IsLeapYear(y) then 29 else 28)
    else if m == 4 || m == 6 || m == 9 || m == 11 then 30
    else 31
  }

  predicate ValidMonth(k: Month) {
    MinYear <= k.year <= MaxYear && 1 <= k.month <= 12
  }

  predicate ValidDate(d: Date) {
    MinYear <= d.year <= MaxYear && 1 <= d.month <= 12 && 1 <= d.day <= DaysInMonth(d.year, d.month)
  }

  predicate AllValid(dates: seq<Date>) {
    forall i :: 0 <= i < |dates| ==> ValidDate(dates[i])
  }

  function MonthOf(d: Date): Month {
    Month(d.year, d.month)
  }

  /** The position of a month on the line of months: a month and the next are one apart. */
  function MonthIndex(k: Month): int {
    k.year * 12 + (k.month - 1)
  }

  /** The month at position `i`; the inverse of MonthIndex. */
  function MonthAt(i: int): (k: Month)
    ensures 1 <= k.month <= 12
    ensures MonthIndex(k) == i
    ensures FirstMonthIndex <= i <= LastMonthIndex ==> ValidMonth(k)
  {
    Month(i / 12, i % 12 + 1)
  }

  lemma MonthAtIndex(k: Month)
    requires 1 <= k.month <= 12
    ensures MonthAt(MonthIndex(k)) == k
  {
    var j := MonthAt(MonthIndex(k));
    MonthIndexInjective(j, k);
  }

  /** Two months in 1..12 at the same position are the same month. */
  lemma MonthIndexInjective(j: Month, k: Month)
    requires 1 <= j.month <= 12 && 1 <= k.month <= 12
    requires MonthIndex(j) == MonthIndex(k)
    ensures j == k
  {
  }

  /** The positions of the first and the last month of the calendar. */
  const FirstMonthIndex := MonthIndex(Month(MinYear, 1))
  const LastMonthIndex := MonthIndex(Month(MaxYear, 12))

  /** Days from 0001-01-01 to the first day of year `y`. */
  function DaysBeforeYear(y: int): (n: int)
    requires y >= 1
    ensures n >= 0
  {
    var p := y - 1;
    365 * p + p / 4 - p / 100 + p / 400
  }

  /** Days from the first of January of `y` to the first of month `m`. */
  function DaysBeforeMonth(y: int, m: int): (n: int)
    requires 1 <= m <= 12
    ensures 0 <= n <= 31 * (m - 1)
    decreases m
  {
    if m == 1 then 0 else DaysBeforeMonth(y, m - 1) + DaysInMonth(y, m - 1)
  }

  /** Days elapsed since 0001-01-01, which was a Monday; `date.toordinal() - 1` in Python. */
  function DayNumber(d: Date): (n: int)
    requires ValidDate(d)
    ensures DaysBeforeYear(d.year) <= n < DaysBeforeYear(d.year + 1)
  {
    DaysBeforeNextYear(d.year);
    DaysBeforeLaterMonth(d.year, d.month);
    DaysBeforeYear(d.year) + DaysBeforeMonth(d.year, d.month) + d.day - 1
  }

  /** The days of month `m` and those before it fit in the year. */
  lemma {:induction false} DaysBeforeLaterMonth(y: int, m: int)
    requires y >= 1 && 1 <= m <= 12
    ensures DaysBeforeMonth(y, m) + DaysInMonth(y, m) <= (if IsLeapYear(y) then 366 else 365)
    decreases 12 - m
  {
    if m == 12 {
      DaysBeforeYearMonths(y);
    } else {
      DaysBeforeLaterMonth(y, m + 1);
    }
  }

  /** The date that follows `d`. */
  function NextDay(d: Date): Date
    requires ValidDate(d)
  {
    if d.day < DaysInMonth(d.year, d.month) then Date(d.year, d.month, d.day + 1)
    else if d.month < 12 then Date(d.year, d.month + 1, 1)
    else Date(d.year + 1, 1, 1)
  }

  /** A year has 366 days when it is a leap year and 365 otherwise. */
  lemma DaysBeforeNextYear(y: int)
    requires y >= 1
    ensures DaysBeforeYear(y + 1) == DaysBeforeYear(y) + (if IsLeapYear(y) then 366 else 365)
  {
    DivStep4(y);
    DivStep100(y);
    DivStep400(y);
    CenturyDivisible(y);
  }

  /** A multiple of 400 is one of 100, and a multiple of 100 is one of 4. */
  lemma CenturyDivisible(y: int)
    ensures y % 400 == 0 ==> y % 100 == 0
    ensures y % 100 == 0 ==> y % 4 == 0
  {
    if y % 100 == 0 {
      assert y == 4 * (25 * (y / 100));
    }
    if y % 400 == 0 {
      assert y == 100 * (4 * (y / 400));
    }
  }

  lemma DivStep4(y: int)
    requires y >= 1
    ensures y / 4 - (y - 1) / 4 == if y % 4 == 0 then 1 else 0
  {
  }

  lemma DivStep100(y: int)
    requires y >= 1
    ensures y / 100 - (y - 1) / 100 == if y % 100 == 0 then 1 else 0
  {
  }

  lemma DivStep400(y: int)
    requires y >= 1
    ensures y / 400 - (y - 1) / 400 == if y % 400 == 0 then 1 else 0
  {
  }

  lemma DaysBeforeYearMonths(y: int)
    requires y >= 1
    ensures DaysBeforeMonth(y, 12) + DaysInMonth(y, 12) == (if IsLeapYear(y) then 366 else 365)
  {
  }

  /** Day numbers count days: the next date is numbered one more. */
  lemma {:induction false} NextDayNumber(d: Date)
    requires ValidDate(d) && d.year < MaxYear
    ensures ValidDate(NextDay(d))
    ensures DayNumber(NextDay(d)) == DayNumber(d) + 1
  {
    if d.day == DaysInMonth(d.year, d.month) && d.month == 12 {
      DaysBeforeNextYear(d.year);
      DaysBeforeYearMonths(d.year);
    }
  }

  /** Weekday names in Monday-first order, as pandas' `day_name()` spells them. */
  const WeekdayNames: seq<string> :=
    ["Monday", "Tuesday", "Wednesday", "Thursday", "Friday", "Saturday", "Sunday"]

  /** Month names, as `%B` and pandas' `month_name()` spell them. */
  const MonthNames: seq<string> :=
    ["January", "February", "March", "April", "May", "June", "July",
     "August", "September", "October", "November", "December"]

  function DayName(d: Date): (name: string)
    requires ValidDate(d)
    ensures name in WeekdayNames
  {
    WeekdayNames[DayNumber(d) % 7]
  }

  function MonthName(m: int): (name: string)
    requires 1 <= m <= 12
    ensures name in MonthNames
  {
    MonthNames[m - 1]
  }

  /**
   * The week a date falls in: weeks run Monday to Sunday, as pandas' weekly
   * period (`W-SUN`, a week ending on Sunday) groups them.
   */
  function WeekOf(d: Date): (w: int)
    requires ValidDate(d)
    ensures 7 * w <= DayNumber(d) < 7 * w + 7
  {
    DayNumber(d) / 7
  }

  /** Two days of one month at least a week apart fall in different weeks. */
  lemma SameMonthWeeksApart(a: Date, b: Date)
    requires ValidDate(a) && ValidDate(b) && MonthOf(a) == MonthOf(b)
    requires a.day + 7 <= b.day
    ensures WeekOf(a) < WeekOf(b)
  {
    assert DayNumber(b) - DayNumber(a) == b.day - a.day;
  }

  /** The week changes exactly when a Sunday is followed by a Monday. */
  lemma NextDayWeek(d: Date)
    requires ValidDate(d) && d.year < MaxYear
    ensures ValidDate(NextDay(d))
    ensures WeekOf(NextDay(d)) == (if DayName(d) == "Sunday" then WeekOf(d) + 1 else WeekOf(d))
    ensures DayName(d) == "Sunday" <==> DayName(NextDay(d)) == "Monday"
  {
    NextDayNumber(d);
    var n := DayNumber(d);
    assert DayNumber(NextDay(d)) == n + 1;
    if n % 7 == 6 {
      assert (n + 1) % 7 == 0 && (n + 1) / 7 == n / 7 + 1;
    } else {
      assert (n + 1) % 7 == n % 7 + 1 && (n + 1) / 7 == n / 7;
    }
  }

  /** Anchors the weekday count: 0001-01-01 and 2024-03-11 were Mondays. */
  lemma KnownMondays()
    ensures DayName(Date(1, 1, 1)) == "Monday"
    ensures DayName(Date(2024, 3, 11)) == "Monday"
  {
  }
}
