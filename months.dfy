/** `subtract_months`: the first day of the month a number of months back. */
module MonthShift {
  import opened Wrappers
  import opened Calendar

  /** How many times `range(n)` runs its body. */
  function Steps(n: int): (s: nat)
    ensures n >= 0 ==> s == n
    ensures n < 0 ==> s == 0
  {
    if n > 0 then n else 0
  }

  /**
   * Closed form of `subtract_months(dt, n)`: day 1 of the month `Steps(n)`
   * places before `d`'s month, or None where `datetime.replace` raises because
   * the year fell below 1.
   */
  function MonthsBefore(d: Date, n: int): (r: Option<Date>)
    requires ValidDate(d)
    ensures r.Some? <==> MonthIndex(MonthOf(d)) - Steps(n) >= MonthIndex(Month(MinYear, 1))
    ensures r.Some? ==> ValidDate(r.value) && r.value.day == 1
                        && MonthIndex(MonthOf(r.value)) == MonthIndex(MonthOf(d)) - Steps(n)
  {
    var k := MonthAt(MonthIndex(MonthOf(d)) - Steps(n));
    if k.year < MinYear then None else Some(Date(k.year, k.month, 1))
  }

  /**
   * Steps the (year, month) pair back one month at a time, wrapping from
   * January to December of the previous year, and lands on day 1.
   */
  method SubtractMonths(dt: Date, months: int) returns (r: Option<Date>)
    requires ValidDate(dt)
    ensures r.Some? <==> MonthIndex(MonthOf(dt)) - Steps(months) >= MonthIndex(Month(MinYear, 1))
    ensures r.Some? ==> ValidDate(r.value) && r.value.day == 1
                        && MonthIndex(MonthOf(r.value)) == MonthIndex(MonthOf(dt)) - Steps(months)
    ensures months <= 0 ==> r == Some(Date(dt.year, dt.month, 1))
  {
    var year, month := dt.year, dt.month;
    var i := 0;
    while i < months
      invariant 0 <= i <= Steps(months)
      invariant 1 <= month <= 12 && year <= dt.year
      invariant MonthIndex(Month(year, month)) == MonthIndex(MonthOf(dt)) - i
    {
      month := month - 1;
      if month < 1 {
        month := 12;
        year := year - 1;
      }
      i := i + 1;
    }
    if year < MinYear {
      r := None;
    } else {
      r := Some(Date(year, month, 1));
    }
  }

  /** Subtracting nothing keeps the year and month. */
  lemma MonthsBeforeZero(d: Date, n: int)
    requires ValidDate(d) && n <= 0
    ensures MonthsBefore(d, n) == Some(Date(d.year, d.month, 1))
  {
    MonthAtIndex(MonthOf(d));
  }

  /** Going back `a` months and then `b` more is going back `a + b` months. */
  lemma MonthsBeforeCompose(d: Date, a: nat, b: nat)
    requires ValidDate(d) && MonthsBefore(d, a).Some?
    ensures MonthsBefore(MonthsBefore(d, a).value, b) == MonthsBefore(d, a + b)
  {
    var e := MonthsBefore(d, a).value;
    var i := MonthIndex(MonthOf(d)) - a - b;
    assert MonthIndex(MonthOf(e)) - b == i;
    if MonthsBefore(d, a + b).Some? {
      var x, y := MonthsBefore(e, b).value, MonthsBefore(d, a + b).value;
      MonthIndexInjective(MonthOf(x), MonthOf(y));
    }
  }
}
