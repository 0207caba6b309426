/**
 * The statistics of `get_repo_stats`: the weekday on which most issues were
 * created, the weekday on which most were closed, and the month in which
 * most were closed, each None when there are no issues.
 */
module RepoStats {
  import opened Wrappers
  import opened Calendar
  import opened LexOrder

  /** The three statistics of one repository. */
  datatype Stats = Stats(maxCreatedDay: Option<string>, maxClosedDay: Option<string>, maxClosedMonth: Option<string>)

  /** How often `x` occurs in `xs`. */
  function Count(xs: seq<string>, x: string): nat {
    multiset(xs)[x]
  }

  /**
   * `m` is what `mode()[0]` gives: a value of `xs` that occurs at least as
   * often as any other, and the least in string order among those that
   * occur as often (pandas returns the modes sorted).
   */
  predicate IsMode(xs: seq<string>, m: string)
    ensures IsMode(xs, m) ==> Count(xs, m) >= 1
    ensures IsMode(xs, m) ==> forall y :: Count(xs, y) <= Count(xs, m)
  {
    && m in xs
    && (forall i :: 0 <= i < |xs| ==> Count(xs, xs[i]) <= Count(xs, m))
    && (forall i :: 0 <= i < |xs| && Count(xs, xs[i]) == Count(xs, m) ==> LexLe(m, xs[i]))
  }

  /** The mode among the first `n` values of `xs`, their counts taken over all of `xs`. */
  function ModeOfPrefix(xs: seq<string>, n: nat): (m: string)
    requires 0 < n <= |xs|
    ensures m in xs[..n]
    ensures forall i :: 0 <= i < n ==> Count(xs, xs[i]) <= Count(xs, m)
    ensures forall i :: 0 <= i < n && Count(xs, xs[i]) == Count(xs, m) ==> LexLe(m, xs[i])
  {
    if n == 1 then
      LexLeTotal(xs[0], xs[0]);
      xs[0]
    else
      var b := ModeOfPrefix(xs, n - 1);
      var c := xs[n - 1];
      LexLeTotal(b, c);
      LexLeTotal(c, c);
      if Count(xs, c) > Count(xs, b) || (Count(xs, c) == Count(xs, b) && !LexLe(b, c)) then
        assert forall i :: 0 <= i < n && Count(xs, xs[i]) == Count(xs, c) ==> LexLe(c, xs[i]) by {
          forall i | 0 <= i < n && Count(xs, xs[i]) == Count(xs, c)
            ensures LexLe(c, xs[i])
          {
            if i < n - 1 {
              LexLeTransitive(c, b, xs[i]);
            }
          }
        }
        c
      else
        b
  }

  /** `series.mode()[0]`, or None for an empty series. */
  function Mode(xs: seq<string>): (r: Option<string>)
    ensures r.None? <==> xs == []
    ensures r.Some? ==> IsMode(xs, r.value)
  {
    if xs == [] then None
    else
      var m := ModeOfPrefix(xs, |xs|);
      assert xs[..|xs|] == xs;
      Some(m)
  }

  /** There is only one mode in this sense, so Mode finds exactly it. */
  lemma ModeUnique(xs: seq<string>, m: string)
    requires IsMode(xs, m)
    ensures Mode(xs) == Some(m)
  {
    var r := Mode(xs).value;
    var i :| 0 <= i < |xs| && xs[i] == m;
    var j :| 0 <= j < |xs| && xs[j] == r;
    LexLeAntisymmetric(m, r);
  }

  /** Two different values together occur at most as often as there are values. */
  lemma {:induction false} CountPair(xs: seq<string>, a: string, b: string)
    requires a != b
    ensures Count(xs, a) + Count(xs, b) <= |xs|
  {
    if xs != [] {
      var init := xs[..|xs| - 1];
      assert xs == init + [xs[|xs| - 1]];
      CountPair(init, a, b);
    }
  }

  /** A value that makes up more than half of the values is the mode. */
  lemma MajorityIsMode(xs: seq<string>, m: string)
    requires 2 * Count(xs, m) > |xs|
    ensures IsMode(xs, m)
  {
    LexLeTotal(m, m);
    forall i | 0 <= i < |xs| && xs[i] != m
      ensures Count(xs, xs[i]) < Count(xs, m)
    {
      CountPair(xs, xs[i], m);
    }
  }

  /** `dt.day_name()` of each date. */
  function DayNames(dates: seq<Date>): (names: seq<string>)
    requires AllValid(dates)
    ensures |names| == |dates|
    ensures forall i :: 0 <= i < |dates| ==> names[i] == DayName(dates[i])
  {
    if dates == [] then [] else DayNames(dates[..|dates| - 1]) + [DayName(dates[|dates| - 1])]
  }

  /** `dt.month_name()` of each date. */
  function MonthNamesOf(dates: seq<Date>): (names: seq<string>)
    requires AllValid(dates)
    ensures |names| == |dates|
    ensures forall i :: 0 <= i < |dates| ==> names[i] == MonthName(dates[i].month)
  {
    if dates == [] then [] else MonthNamesOf(dates[..|dates| - 1]) + [MonthName(dates[|dates| - 1].month)]
  }

  /** The weekday on which most of `dates` fall, or None when there are none. */
  function BusiestDay(dates: seq<Date>): (r: Option<string>)
    requires AllValid(dates)
    ensures r.None? <==> dates == []
    ensures r.Some? ==> r.value in WeekdayNames && IsMode(DayNames(dates), r.value)
  {
    if dates == [] then None
    else
      var names := DayNames(dates);
      var m := Mode(names).value;
      var i :| 0 <= i < |names| && names[i] == m;
      Some(m)
  }

  /** The month in which most of `dates` fall, or None when there are none. */
  function BusiestMonth(dates: seq<Date>): (r: Option<string>)
    requires AllValid(dates)
    ensures r.None? <==> dates == []
    ensures r.Some? ==> r.value in MonthNames && IsMode(MonthNamesOf(dates), r.value)
  {
    if dates == [] then None
    else
      var names := MonthNamesOf(dates);
      var m := Mode(names).value;
      var i :| 0 <= i < |names| && names[i] == m;
      Some(m)
  }

  /**
   * The statistics of the created dates of the open issues and the closed
   * dates of the closed issues: each is None exactly when its list is
   * empty, and otherwise the mode of the names of its dates.
   */
  function RepoStats(created: seq<Date>, closed: seq<Date>): (s: Stats)
    requires AllValid(created) && AllValid(closed)
    ensures s.maxCreatedDay.None? <==> created == []
    ensures s.maxClosedDay.None? <==> closed == []
    ensures s.maxClosedMonth.None? <==> closed == []
    ensures s.maxCreatedDay.Some? ==> IsMode(DayNames(created), s.maxCreatedDay.value)
    ensures s.maxClosedDay.Some? ==> IsMode(DayNames(closed), s.maxClosedDay.value)
    ensures s.maxClosedMonth.Some? ==> IsMode(MonthNamesOf(closed), s.maxClosedMonth.value)
  {
    Stats(BusiestDay(created), BusiestDay(closed), BusiestMonth(closed))
  }

  /** Three issues on a Monday and one on a Tuesday: the busiest day is Monday. */
  lemma BusiestDayExample()
    ensures Mode(["Monday", "Monday", "Monday", "Tuesday"]) == Some("Monday")
  {
    var names := ["Monday", "Monday", "Monday", "Tuesday"];
    assert Count(names, "Monday") == 3;
    MajorityIsMode(names, "Monday");
    ModeUnique(names, "Monday");
  }

  /** A tie goes to the name first in string order: Friday before Monday. */
  lemma TieExample()
    ensures Mode(["Monday", "Friday"]) == Some("Friday")
  {
    var names := ["Monday", "Friday"];
    assert IsMode(names, "Friday") by {
      assert Count(names, "Monday") == 1 && Count(names, "Friday") == 1;
      assert LexLe("Friday", "Monday");
      LexLeTotal("Friday", "Friday");
    }
    ModeUnique(names, "Friday");
  }
}
