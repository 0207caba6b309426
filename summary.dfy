/**
 * The per-repository summary of `get_processed_repo_data`: issues counted
 * per "Month YYYY" label and per week, and their total, for the created
 * dates of the open issues and the closed dates of the closed issues.
 */
module IssueSummary {
  import opened Calendar
  import opened DateText
  import opened Counting

  /** The monthly counts, weekly counts and total of one list of issue dates. */
  datatype Buckets = Buckets(monthly: map<string, nat>, weekly: map<int, nat>, total: nat)

  /** The entry of one repository in the summary. */
  datatype RepoSummary = RepoSummary(created: Buckets, closed: Buckets, totalStars: int, totalForks: int)

  /** The "Month YYYY" label of each date: `to_period('M')`, then `format_date`. */
  function MonthLabels(dates: seq<Date>): (ls: seq<string>)
    requires AllValid(dates)
    ensures |ls| == |dates|
    ensures forall i :: 0 <= i < |dates| ==> ls[i] == MonthLabel(MonthOf(dates[i]))
  {
    if dates == [] then []
    else MonthLabels(dates[..|dates| - 1]) + [MonthLabel(MonthOf(dates[|dates| - 1]))]
  }

  /** The month of each date. */
  function Months(dates: seq<Date>): (ks: seq<Month>)
    ensures |ks| == |dates|
    ensures forall i :: 0 <= i < |dates| ==> ks[i] == MonthOf(dates[i])
  {
    if dates == [] then [] else Months(dates[..|dates| - 1]) + [MonthOf(dates[|dates| - 1])]
  }

  /** The week of each date: `to_period('W')`. */
  function WeekKeys(dates: seq<Date>): (ws: seq<int>)
    requires AllValid(dates)
    ensures |ws| == |dates|
    ensures forall i :: 0 <= i < |dates| ==> ws[i] == WeekOf(dates[i])
  {
    if dates == [] then [] else WeekKeys(dates[..|dates| - 1]) + [WeekOf(dates[|dates| - 1])]
  }

  /**
   * The week keys as the handler computes them: by the time the weekly pass
   * runs, the date column already holds the "Month YYYY" labels, which parse
   * back to the first day of the month, so each issue gets the week of the
   * first day of its month.
   */
  function WeekKeysAsWritten(dates: seq<Date>): (ws: seq<int>)
    requires AllValid(dates)
    ensures |ws| == |dates|
    ensures forall i :: 0 <= i < |dates| ==>
              ValidDate(Date(dates[i].year, dates[i].month, 1))
              && ws[i] == WeekOf(Date(dates[i].year, dates[i].month, 1))
  {
    if dates == [] then []
    else
      var d := dates[|dates| - 1];
      WeekKeysAsWritten(dates[..|dates| - 1]) + [WeekOf(Date(d.year, d.month, 1))]
  }

  /** The weekly counts as the handler computes them, from WeekKeysAsWritten. */
  function WeeklyAsWritten(dates: seq<Date>): (m: map<int, nat>)
    requires AllValid(dates)
    ensures dates == [] <==> m == map[]
    ensures forall w :: w in m <==> w in WeekKeysAsWritten(dates)
    ensures forall w :: w in m ==> m[w] == multiset(WeekKeysAsWritten(dates))[w]
  {
    if dates == [] then map[]
    else
      var m := CountBy(WeekKeysAsWritten(dates));
      assert WeekKeysAsWritten(dates)[0] in m;
      m
  }

  /** As written, all issues of one month share one week key, whatever their days. */
  lemma WeeklyAsWrittenMerges(dates: seq<Date>, i: int, j: int)
    requires AllValid(dates) && 0 <= i < |dates| && 0 <= j < |dates|
    requires MonthOf(dates[i]) == MonthOf(dates[j])
    ensures WeekKeysAsWritten(dates)[i] == WeekKeysAsWritten(dates)[j]
  {
  }

  /**
   * Two issues of one month: the handler's weekly map holds a single week,
   * the week of the first of the month, with both of them.
   */
  lemma WeeklyAsWrittenCounterexample(a: Date, b: Date)
    requires ValidDate(a) && ValidDate(b) && MonthOf(a) == MonthOf(b)
    ensures var m, w := WeeklyAsWritten([a, b]), WeekOf(Date(a.year, a.month, 1));
            && w in m && m[w] == 2
            && forall v :: v in m ==> v == w
  {
    var w := WeekOf(Date(a.year, a.month, 1));
    var ks := WeekKeysAsWritten([a, b]);
    assert ks == [w, w];
    assert multiset(ks)[w] == 2;
    var m := CountBy(ks);
    assert WeeklyAsWritten([a, b]) == m;
  }

  /**
   * The same two issues, at least a week apart, fall in two weeks, and the
   * weekly map of Summarize lists each of them once.
   */
  lemma WeeklySeparates(a: Date, b: Date)
    requires ValidDate(a) && ValidDate(b) && MonthOf(a) == MonthOf(b) && a.day + 7 <= b.day
    ensures var m := Summarize([a, b]).weekly;
            && WeekOf(a) != WeekOf(b)
            && WeekOf(a) in m && m[WeekOf(a)] == 1
            && WeekOf(b) in m && m[WeekOf(b)] == 1
  {
    SameMonthWeeksApart(a, b);
    var ks := WeekKeys([a, b]);
    assert ks == [WeekOf(a), WeekOf(b)];
    assert multiset(ks)[WeekOf(a)] == 1 && multiset(ks)[WeekOf(b)] == 1;
    assert Summarize([a, b]).weekly == CountBy(ks);
  }

  /** The issues of 2024-03-01 and 2024-03-20: one week as written, two weeks as intended. */
  lemma WeeklyMarch2024()
    ensures var a, b := Date(2024, 3, 1), Date(2024, 3, 20);
            && WeeklyAsWritten([a, b])[WeekOf(a)] == 2
            && Summarize([a, b]).weekly[WeekOf(a)] == 1
            && Summarize([a, b]).weekly[WeekOf(b)] == 1
  {
    var a, b := Date(2024, 3, 1), Date(2024, 3, 20);
    WeeklyAsWrittenCounterexample(a, b);
    WeeklySeparates(a, b);
  }

  /**
   * Buckets one list of issue dates. An empty list takes its own branch and
   * gives empty maps and a zero total; otherwise every listed bucket holds
   * at least one issue and the total is the number of issues.
   */
  function Summarize(dates: seq<Date>): (b: Buckets)
    requires AllValid(dates)
    ensures dates == [] <==> b.monthly == map[]
    ensures dates == [] <==> b.weekly == map[]
    ensures dates == [] ==> b.total == 0
    ensures b.total == |dates|
    ensures forall l :: l in b.monthly ==> b.monthly[l] > 0
    ensures forall w :: w in b.weekly ==> b.weekly[w] > 0
  {
    if |dates| == 0 then Buckets(map[], map[], 0)
    else
      var m, w := CountBy(MonthLabels(dates)), CountBy(WeekKeys(dates));
      assert MonthLabels(dates)[0] in m && WeekKeys(dates)[0] in w;
      Buckets(m, w, |dates|)
  }

  /** The monthly counts and the weekly counts each add up to the number of issues. */
  lemma SummarizePartitions(dates: seq<Date>)
    requires AllValid(dates)
    ensures SumValues(Summarize(dates).monthly) == |dates|
    ensures SumValues(Summarize(dates).weekly) == |dates|
  {
    if dates != [] {
      CountByTotal(MonthLabels(dates));
      CountByTotal(WeekKeys(dates));
    }
  }

  /** Counting labels counts months, because distinct months have distinct labels. */
  lemma {:induction false} LabelCounts(dates: seq<Date>, k: Month)
    requires AllValid(dates) && ValidMonth(k)
    ensures multiset(MonthLabels(dates))[MonthLabel(k)] == multiset(Months(dates))[k]
  {
    if dates != [] {
      var init, d := dates[..|dates| - 1], dates[|dates| - 1];
      LabelCounts(init, k);
      if MonthLabel(MonthOf(d)) == MonthLabel(k) {
        MonthLabelInjective(MonthOf(d), k);
      }
    }
  }

  /**
   * A month's label is listed exactly when some issue falls in that month,
   * with the number of issues in that month.
   */
  lemma SummarizeMonthly(dates: seq<Date>, k: Month)
    requires AllValid(dates) && ValidMonth(k)
    ensures var b := Summarize(dates);
            && (MonthLabel(k) in b.monthly <==> k in Months(dates))
            && (MonthLabel(k) in b.monthly ==> b.monthly[MonthLabel(k)] == multiset(Months(dates))[k])
  {
    var b := Summarize(dates);
    var labels, months := MonthLabels(dates), Months(dates);
    LabelCounts(dates, k);
    assert MonthLabel(k) in labels <==> k in months by {
      assert MonthLabel(k) in labels <==> multiset(labels)[MonthLabel(k)] > 0;
      assert k in months <==> multiset(months)[k] > 0;
    }
  }

  /** Every listed label is the label of some issue's month. */
  lemma SummarizeMonthlyKeys(dates: seq<Date>)
    requires AllValid(dates)
    ensures forall l :: l in Summarize(dates).monthly ==>
              exists i :: 0 <= i < |dates| && l == MonthLabel(MonthOf(dates[i]))
  {
    forall l | l in Summarize(dates).monthly
      ensures exists i :: 0 <= i < |dates| && l == MonthLabel(MonthOf(dates[i]))
    {
      var i := LabelSource(dates, l);
    }
  }

  /** The position of an issue whose month has the listed label `l`. */
  lemma LabelSource(dates: seq<Date>, l: string) returns (i: int)
    requires AllValid(dates) && l in Summarize(dates).monthly
    ensures 0 <= i < |dates| && l == MonthLabel(MonthOf(dates[i]))
  {
    var labels := MonthLabels(dates);
    assert l in CountBy(labels);
    i :| 0 <= i < |labels| && labels[i] == l;
  }

  /** A week is listed exactly when some issue falls in it, with the number of issues in it. */
  lemma SummarizeWeekly(dates: seq<Date>, w: int)
    requires AllValid(dates)
    ensures var b := Summarize(dates);
            && (w in b.weekly <==> w in WeekKeys(dates))
            && (w in b.weekly ==> b.weekly[w] == multiset(WeekKeys(dates))[w])
  {
    if dates != [] {
      assert Summarize(dates).weekly == CountBy(WeekKeys(dates));
    }
  }

  /**
   * One repository's entry: both issue lists bucketed, and the star and fork
   * counts of the repository details, 0 when the details lack them (as when
   * the details request failed and gave `{}`).
   */
  function SummarizeRepo(created: seq<Date>, closed: seq<Date>, details: map<string, int>): (s: RepoSummary)
    requires AllValid(created) && AllValid(closed)
    ensures s.created == Summarize(created) && s.closed == Summarize(closed)
    ensures "stargazers_count" !in details ==> s.totalStars == 0
    ensures "forks_count" !in details ==> s.totalForks == 0
    ensures "stargazers_count" in details ==> s.totalStars == details["stargazers_count"]
    ensures "forks_count" in details ==> s.totalForks == details["forks_count"]
  {
    RepoSummary(Summarize(created), Summarize(closed),
                if "stargazers_count" in details then details["stargazers_count"] else 0,
                if "forks_count" in details then details["forks_count"] else 0)
  }

  /** Five labels, the first three one label and the last two another, hold each label that often. */
  lemma ThreeThenTwo(ls: seq<string>, la: string, lb: string)
    requires la != lb
    requires |ls| == 5 && ls[0] == la && ls[1] == la && ls[2] == la && ls[3] == lb && ls[4] == lb
    ensures forall k :: k in ls <==> k == la || k == lb
    ensures multiset(ls)[la] == 3 && multiset(ls)[lb] == 2
  {
    assert ls == [la, la, la] + [lb, lb];
  }

  /**
   * Five issues, three created in one month (say
   * March 2024) and two in another (April 2024), give a total of 5 and the
   * counts {"March 2024": 3, "April 2024": 2}.
   */
  lemma TwoMonthsExample(dates: seq<Date>, a: Month, b: Month)
    requires AllValid(dates) && |dates| == 5 && ValidMonth(a) && ValidMonth(b) && a != b
    requires forall i :: 0 <= i < 3 ==> MonthOf(dates[i]) == a
    requires forall i :: 3 <= i < 5 ==> MonthOf(dates[i]) == b
    ensures Summarize(dates).total == 5
    ensures forall l :: l in Summarize(dates).monthly <==> l == MonthLabel(a) || l == MonthLabel(b)
    ensures Summarize(dates).monthly[MonthLabel(a)] == 3
    ensures Summarize(dates).monthly[MonthLabel(b)] == 2
  {
    var la, lb := MonthLabel(a), MonthLabel(b);
    assert la != lb by {
      if la == lb { MonthLabelInjective(a, b); }
    }
    var ls := MonthLabels(dates);
    assert MonthOf(dates[0]) == a && MonthOf(dates[1]) == a && MonthOf(dates[2]) == a;
    assert MonthOf(dates[3]) == b && MonthOf(dates[4]) == b;
    ThreeThenTwo(ls, la, lb);
  }
}
