/**
 * The `github` handler's view of the fetched issues: each issue projected to
 * a row of `issues_response`, and the monthly series of created and closed
 * dates, with every month between the first and the last observed month
 * listed, months without issues counted as 0.
 */
module MonthlySeries {
  import opened Wrappers
  import opened Calendar
  import opened DateText
  import opened Counting

  datatype Label = Label(name: string)
  datatype User = User(login: string)

  /** An issue as the search API returns it, reduced to the fields the handler reads. */
  datatype Issue = Issue(number: int, createdAt: string, closedAt: Option<string>,
                         labels: seq<Label>, state: string, user: User)

  /** One entry of `issues_response`. */
  datatype IssueRow = IssueRow(number: int, createdAt: string, closedAt: Option<string>,
                               labels: seq<string>, state: string, author: string)

  /** One row of the reindexed pandas series: a month and its count. */
  datatype Bucket = Bucket(month: Month, count: nat)

  /** One `[str(period), count]` pair of the handler's output. */
  datatype Entry = Entry(period: string, count: nat)

  /** `s[0:10]`: the first ten characters, or all of a shorter string. */
  function Prefix10(s: string): (p: string)
    ensures p <= s
    ensures |s| < 10 ==> p == s
    ensures |s| >= 10 ==> |p| == 10 && ParseIsoDate(p) == ParseIsoDate(s)
  {
    if |s| < 10 then s
    else
      ParseIsoDatePrefix(s);
      s[..10]
  }

  /** `[label['name'] for label in issue['labels']]` */
  function LabelNames(labels: seq<Label>): (names: seq<string>)
    ensures |names| == |labels|
    ensures forall i :: 0 <= i < |labels| ==> names[i] == labels[i].name
  {
    seq(|labels|, i requires 0 <= i < |labels| => labels[i].name)
  }

  /**
   * One row of `issues_response`. The timestamps keep their date part; a
   * `closed_at` that is null or empty (false in Python) becomes null.
   */
  function Project(issue: Issue): (row: IssueRow)
    ensures row.number == issue.number && row.state == issue.state && row.author == issue.user.login
    ensures |issue.createdAt| >= 10 ==> |row.createdAt| == 10 && ParseIsoDate(row.createdAt) == ParseIsoDate(issue.createdAt)
    ensures row.closedAt.None? <==> issue.closedAt.None? || issue.closedAt.value == ""
    ensures row.closedAt.Some? && |issue.closedAt.value| >= 10 ==>
              |row.closedAt.value| == 10 && ParseIsoDate(row.closedAt.value) == ParseIsoDate(issue.closedAt.value)
    ensures |row.labels| == |issue.labels|
    ensures forall i :: 0 <= i < |issue.labels| ==> row.labels[i] == issue.labels[i].name
  {
    var closed := if issue.closedAt.Some? && issue.closedAt.value != "" then Some(Prefix10(issue.closedAt.value)) else None;
    IssueRow(issue.number, Prefix10(issue.createdAt), closed, LabelNames(issue.labels), issue.state, issue.user.login)
  }

  /** The loop that builds `issues_response`, one row per fetched issue, in order. */
  method ProjectIssues(issues: seq<Issue>) returns (rows: seq<IssueRow>)
    ensures |rows| == |issues|
    ensures forall i :: 0 <= i < |issues| ==> rows[i] == Project(issues[i])
  {
    rows := [];
    for i := 0 to |issues|
      invariant |rows| == i
      invariant forall j :: 0 <= j < i ==> rows[j] == Project(issues[j])
    {
      rows := rows + [Project(issues[i])];
    }
  }

  /** `df['created_at']`: every row has a creation date. */
  function CreatedColumn(rows: seq<IssueRow>): (c: seq<Option<string>>)
    ensures |c| == |rows|
    ensures forall i :: 0 <= i < |rows| ==> c[i] == Some(rows[i].createdAt)
  {
    seq(|rows|, i requires 0 <= i < |rows| => Some(rows[i].createdAt))
  }

  /** `df['closed_at']`: null for the issues still open. */
  function ClosedColumn(rows: seq<IssueRow>): (c: seq<Option<string>>)
    ensures |c| == |rows|
    ensures forall i :: 0 <= i < |rows| ==> c[i] == rows[i].closedAt
  {
    seq(|rows|, i requires 0 <= i < |rows| => rows[i].closedAt)
  }

  /**
   * `pd.to_datetime(s, format='%Y-%m-%d')` of one string: exactly an ISO
   * date, nothing before or after it.
   */
  function ParseDay(s: string): (r: Option<Date>)
    ensures r.Some? ==> ValidDate(r.value)
  {
    if |s| == 10 then ParseIsoDate(s) else None
  }

  /** A string converts to a date exactly when it is that date's ISO form. */
  lemma ParseDayFormat(s: string, d: Date)
    ensures ParseDay(s) == Some(d) <==> ValidDate(d) && FormatIsoDate(d) == s
  {
    if ParseDay(s) == Some(d) {
      FormatParseIsoDate(s);
    }
    if ValidDate(d) && FormatIsoDate(d) == s {
      ParseFormatIsoDate(d);
    }
  }

  /**
   * `pd.to_datetime` of a whole column: nulls stay null (NaT), and one
   * string that is not a date makes the conversion fail (None).
   */
  function ParseColumn(column: seq<Option<string>>): (r: Option<seq<Option<Date>>>)
    ensures r.Some? <==> forall i :: 0 <= i < |column| && column[i].Some? ==> ParseDay(column[i].value).Some?
    ensures r.Some? ==> |r.value| == |column|
    ensures r.Some? ==> forall i :: 0 <= i < |column| && r.value[i].Some? ==> ValidDate(r.value[i].value)
    ensures r.Some? ==> forall i :: 0 <= i < |column| ==>
              r.value[i] == if column[i].None? then None else ParseDay(column[i].value)
  {
    if column == [] then Some([])
    else
      var init, c := column[..|column| - 1], column[|column| - 1];
      match ParseColumn(init)
      case None =>
        assert exists i :: 0 <= i < |init| && init[i].Some? && ParseDay(init[i].value).None?;
        None
      case Some(ds) =>
        if c.None? then Some(ds + [None])
        else if ParseDay(c.value).None? then None
        else Some(ds + [ParseDay(c.value)])
  }

  /** The number of values that are not null. */
  function CountPresent<T>(vs: seq<Option<T>>): nat {
    if vs == [] then 0 else CountPresent(vs[..|vs| - 1]) + (if vs[|vs| - 1].Some? then 1 else 0)
  }

  /** The dates that are not null, in order (`groupby` drops NaT). */
  function Present(ds: seq<Option<Date>>): (xs: seq<Date>)
    ensures |xs| == CountPresent(ds)
    ensures forall j :: 0 <= j < |xs| ==> Some(xs[j]) in ds
    ensures forall i :: 0 <= i < |ds| && ds[i].Some? ==> ds[i].value in xs
    ensures forall x :: multiset(xs)[x] == multiset(ds)[Some(x)]
  {
    if ds == [] then []
    else
      var init, x := ds[..|ds| - 1], ds[|ds| - 1];
      assert ds == init + [x];
      if x.None? then Present(init) else Present(init) + [x.value]
  }

  /** The position on the line of months of each date's month: `dt.to_period('m')`. */
  function MonthIndices(xs: seq<Date>): (ks: seq<int>)
    ensures |ks| == |xs|
    ensures forall i :: 0 <= i < |xs| ==> ks[i] == MonthIndex(MonthOf(xs[i]))
  {
    if xs == [] then [] else MonthIndices(xs[..|xs| - 1]) + [MonthIndex(MonthOf(xs[|xs| - 1]))]
  }

  /** `index.min()` */
  function SeqMin(ks: seq<int>): (m: int)
    requires ks != []
    ensures m in ks
    ensures forall i :: 0 <= i < |ks| ==> m <= ks[i]
  {
    if |ks| == 1 then ks[0]
    else
      var m := SeqMin(ks[..|ks| - 1]);
      if ks[|ks| - 1] < m then ks[|ks| - 1] else m
  }

  /** `index.max()` */
  function SeqMax(ks: seq<int>): (m: int)
    requires ks != []
    ensures m in ks
    ensures forall i :: 0 <= i < |ks| ==> ks[i] <= m
  {
    if |ks| == 1 then ks[0]
    else
      var m := SeqMax(ks[..|ks| - 1]);
      if ks[|ks| - 1] > m then ks[|ks| - 1] else m
  }

  /**
   * The `n` months from position `lo` on, each with the number of keys
   * `ks` at its position: `groupby(level=0).size()` reindexed over
   * `period_range` with `fill_value=0`.
   */
  function Reindexed(ks: seq<int>, lo: int, n: nat): (r: seq<Bucket>)
    ensures |r| == n
    ensures forall j :: 0 <= j < n ==> r[j].month == MonthAt(lo + j) && r[j].count == multiset(ks)[lo + j]
  {
    if n == 0 then [] else Reindexed(ks, lo, n - 1) + [Bucket(MonthAt(lo + n - 1), multiset(ks)[lo + n - 1])]
  }

  predicate AllValidMonths(bs: seq<Bucket>) {
    forall j :: 0 <= j < |bs| ==> ValidMonth(bs[j].month)
  }

  /** `[str(key), count]` for each row: the period strings read back as the months. */
  function Rendered(bs: seq<Bucket>): (es: seq<Entry>)
    requires AllValidMonths(bs)
    ensures |es| == |bs|
    ensures forall j :: 0 <= j < |bs| ==> es[j].count == bs[j].count && ParsePeriod(es[j].period) == Some(bs[j].month)
  {
    if bs == [] then []
    else
      var b := bs[|bs| - 1];
      ParsePeriodText(b.month);
      Rendered(bs[..|bs| - 1]) + [Entry(PeriodText(b.month), b.count)]
  }

  /** The dates of a column that converts, nulls dropped. */
  function ColumnDates(column: seq<Option<string>>): (xs: seq<Date>)
    requires ParseColumn(column).Some?
    ensures forall j :: 0 <= j < |xs| ==> ValidDate(xs[j])
    ensures forall j :: 0 <= j < |xs| ==> Some(xs[j]) in ParseColumn(column).value
    ensures forall i :: 0 <= i < |column| && column[i].Some? ==> ParseDay(column[i].value).value in xs
    ensures forall x :: multiset(xs)[x] == multiset(ParseColumn(column).value)[Some(x)]
  {
    var ds := ParseColumn(column).value;
    var xs := Present(ds);
    assert forall j :: 0 <= j < |xs| ==> ValidDate(xs[j]) by {
      forall j | 0 <= j < |xs|
        ensures ValidDate(xs[j])
      {
        var i :| 0 <= i < |ds| && ds[i] == Some(xs[j]);
      }
    }
    xs
  }

  /** Converting a column keeps its nulls where they are, so as many values are present. */
  lemma {:induction false} ParseColumnPresent(column: seq<Option<string>>)
    requires ParseColumn(column).Some?
    ensures CountPresent(ParseColumn(column).value) == CountPresent(column)
  {
    if column != [] {
      var init := column[..|column| - 1];
      var ds := ParseColumn(column).value;
      assert ParseColumn(init).Some?;
      ParseColumnPresent(init);
      assert ds[..|ds| - 1] == ParseColumn(init).value;
    }
  }

  /** Every key is the position of a month of the calendar. */
  predicate OnCalendar(ks: seq<int>) {
    forall i :: 0 <= i < |ks| ==> FirstMonthIndex <= ks[i] <= LastMonthIndex
  }

  /**
   * The month of each date of a column, or None where the conversion to
   * dates fails.
   */
  function MonthKeys(column: seq<Option<string>>): (r: Option<seq<int>>)
    ensures r.None? <==> ParseColumn(column).None?
    ensures r.Some? ==> r.value == MonthIndices(ColumnDates(column)) && OnCalendar(r.value)
  {
    if ParseColumn(column).None? then None
    else Some(MonthIndices(ColumnDates(column)))
  }

  /**
   * The reindexed counts of a non-empty list of month keys, from the
   * smallest key to the largest.
   */
  function SeriesOf(ks: seq<int>): (bs: seq<Bucket>)
    requires ks != [] && OnCalendar(ks)
    ensures |bs| == SeqMax(ks) - SeqMin(ks) + 1
    ensures AllValidMonths(bs)
    ensures forall j :: 0 <= j < |bs| ==>
              bs[j].month == MonthAt(SeqMin(ks) + j) && bs[j].count == multiset(ks)[SeqMin(ks) + j]
  {
    var lo, hi := SeqMin(ks), SeqMax(ks);
    var n: nat := hi - lo + 1;
    Reindexed(ks, lo, n)
  }

  /**
   * The reindexed pandas series of one column: None where pandas raises,
   * because a string is not a date or because no date is left once the
   * nulls are dropped (`period_range(NaT, NaT)`).
   */
  function Reindex(column: seq<Option<string>>): (r: Option<seq<Bucket>>)
    ensures r.None? <==> ParseColumn(column).None? || ColumnDates(column) == []
    ensures r.Some? ==> AllValidMonths(r.value)
  {
    match MonthKeys(column)
    case None => None
    case Some(ks) => if ks == [] then None else Some(SeriesOf(ks))
  }

  /**
   * The `[period, count]` pairs of one column, or None where pandas raises:
   * one pair per row of the reindexed series, whose period string reads
   * back as the row's month.
   */
  function GapFilled(column: seq<Option<string>>): (r: Option<seq<Entry>>)
    ensures r.None? <==> Reindex(column).None?
    ensures r.Some? ==> |r.value| == |Reindex(column).value|
    ensures r.Some? ==> forall j :: 0 <= j < |r.value| ==>
              ParsePeriod(r.value[j].period) == Some(Reindex(column).value[j].month)
              && r.value[j].count == Reindex(column).value[j].count
  {
    match Reindex(column)
    case None => None
    case Some(bs) => Some(Rendered(bs))
  }

  /**
   * Builds the series of one column: pandas groups and reindexes the
   * dates, then the handler's loop appends `[str(key), count]` for each
   * row of the reindexed series, in order.
   */
  method MonthlyCounts(column: seq<Option<string>>) returns (r: Option<seq<Entry>>)
    ensures r == GapFilled(column)
  {
    var buckets := Reindex(column);
    if buckets.None? {
      return None;
    }
    var entries := AppendPairs(buckets.value);
    return Some(entries);
  }

  /** The handler's loop: `[str(key), count]` appended for each row, in order. */
  method AppendPairs(buckets: seq<Bucket>) returns (entries: seq<Entry>)
    requires AllValidMonths(buckets)
    ensures entries == Rendered(buckets)
  {
    entries := [];
    for j := 0 to |buckets|
      invariant entries == Rendered(buckets[..j])
    {
      assert buckets[..j + 1][..j] == buckets[..j];
      entries := entries + [Entry(PeriodText(buckets[j].month), buckets[j].count)];
    }
    assert buckets[..|buckets|] == buckets;
  }

  /** The sum of the counts of the rows of a series. */
  function BucketTotal(bs: seq<Bucket>): nat {
    if bs == [] then 0 else BucketTotal(bs[..|bs| - 1]) + bs[|bs| - 1].count
  }

  /** The sum of the counts of the output pairs. */
  function SumCounts(es: seq<Entry>): nat {
    if es == [] then 0 else SumCounts(es[..|es| - 1]) + es[|es| - 1].count
  }

  lemma {:induction false} RenderedTotal(bs: seq<Bucket>)
    requires AllValidMonths(bs)
    ensures SumCounts(Rendered(bs)) == BucketTotal(bs)
  {
    if bs != [] {
      var es := Rendered(bs);
      assert es[..|es| - 1] == Rendered(bs[..|bs| - 1]);
      RenderedTotal(bs[..|bs| - 1]);
    }
  }

  lemma {:induction false} ReindexedTotal(ks: seq<int>, lo: int, n: nat)
    ensures BucketTotal(Reindexed(ks, lo, n)) == RangeCount(ks, lo, n)
  {
    if n > 0 {
      var bs := Reindexed(ks, lo, n);
      assert bs[..n - 1] == Reindexed(ks, lo, n - 1);
      ReindexedTotal(ks, lo, n - 1);
    }
  }

  /** The counts of the series of keys add up to the number of keys. */
  lemma SeriesOfTotal(ks: seq<int>)
    requires ks != [] && OnCalendar(ks)
    ensures BucketTotal(SeriesOf(ks)) == |ks|
  {
    var lo, hi := SeqMin(ks), SeqMax(ks);
    var n: nat := hi - lo + 1;
    ReindexedTotal(ks, lo, n);
    RangeCountAll(ks, lo, n);
  }

  /**
   * `bs` lists consecutive months in ascending order, from the month of
   * the earliest date of `xs` to the month of the latest.
   */
  predicate SpansMonths(bs: seq<Bucket>, xs: seq<Date>) {
    && |bs| > 0
    && (forall j :: 0 <= j < |bs| ==> MonthIndex(bs[j].month) == MonthIndex(bs[0].month) + j)
    && (exists i :: 0 <= i < |xs| && bs[0].month == MonthOf(xs[i]))
    && (exists i :: 0 <= i < |xs| && bs[|bs| - 1].month == MonthOf(xs[i]))
    && (forall i :: 0 <= i < |xs| ==>
          MonthIndex(bs[0].month) <= MonthIndex(MonthOf(xs[i])) <= MonthIndex(bs[|bs| - 1].month))
  }

  /**
   * Row `j` counts the dates of `xs` in its month, so it is 0 exactly when
   * no date falls in that month.
   */
  predicate CountsMonth(bs: seq<Bucket>, xs: seq<Date>, j: int)
    requires 0 <= j < |bs|
  {
    && bs[j].count == multiset(MonthIndices(xs))[MonthIndex(bs[j].month)]
    && (bs[j].count > 0 <==> exists i :: 0 <= i < |xs| && MonthOf(xs[i]) == bs[j].month)
  }

  /** The rows of the series of keys are the months from the smallest key to the largest. */
  lemma SeriesOfPositions(ks: seq<int>)
    requires ks != [] && OnCalendar(ks)
    ensures var bs := SeriesOf(ks);
            && MonthIndex(bs[0].month) == SeqMin(ks)
            && MonthIndex(bs[|bs| - 1].month) == SeqMax(ks)
            && forall j :: 0 <= j < |bs| ==> MonthIndex(bs[j].month) == SeqMin(ks) + j
  {
  }

  lemma SeriesOfMonths(xs: seq<Date>)
    requires xs != [] && AllValid(xs)
    ensures SpansMonths(SeriesOf(MonthIndices(xs)), xs)
  {
    var ks := MonthIndices(xs);
    var bs := SeriesOf(ks);
    SeriesOfPositions(ks);
    var a :| 0 <= a < |ks| && ks[a] == SeqMin(ks);
    var b :| 0 <= b < |ks| && ks[b] == SeqMax(ks);
    MonthIndexInjective(bs[0].month, MonthOf(xs[a]));
    MonthIndexInjective(bs[|bs| - 1].month, MonthOf(xs[b]));
  }

  /** Row `j` of the series of keys counts the keys at its month's position. */
  lemma SeriesOfRow(ks: seq<int>, j: int)
    requires ks != [] && OnCalendar(ks) && 0 <= j < |SeriesOf(ks)|
    ensures SeriesOf(ks)[j].count == multiset(ks)[MonthIndex(SeriesOf(ks)[j].month)]
  {
  }

  lemma SeriesOfCounts(xs: seq<Date>, j: int)
    requires xs != [] && AllValid(xs) && 0 <= j < |SeriesOf(MonthIndices(xs))|
    ensures CountsMonth(SeriesOf(MonthIndices(xs)), xs, j)
  {
    var ks := MonthIndices(xs);
    var bs := SeriesOf(ks);
    var k := bs[j].month;
    SeriesOfRow(ks, j);
    if bs[j].count > 0 {
      assert MonthIndex(k) in ks;
      var i :| 0 <= i < |ks| && ks[i] == MonthIndex(k);
      assert MonthOf(xs[i]) == k by {
        MonthIndexInjective(MonthOf(xs[i]), k);
      }
    }
    if i :| 0 <= i < |xs| && MonthOf(xs[i]) == k {
      assert ks[i] == MonthIndex(k);
      assert ks[i] in multiset(ks);
    }
  }

  /**
   * The reindexed series of a column lists consecutive months in ascending
   * order, from the month of its earliest date to the month of its latest.
   */
  lemma ReindexMonths(column: seq<Option<string>>)
    requires Reindex(column).Some?
    ensures SpansMonths(Reindex(column).value, ColumnDates(column))
  {
    var xs := ColumnDates(column);
    assert Reindex(column).value == SeriesOf(MonthIndices(xs));
    SeriesOfMonths(xs);
  }

  /** Each row of the reindexed series of a column counts the column's dates in its month. */
  lemma ReindexCounts(column: seq<Option<string>>, j: int)
    requires Reindex(column).Some? && 0 <= j < |Reindex(column).value|
    ensures CountsMonth(Reindex(column).value, ColumnDates(column), j)
  {
    var xs := ColumnDates(column);
    assert Reindex(column).value == SeriesOf(MonthIndices(xs));
    SeriesOfCounts(xs, j);
  }

  /** The counts of the series add up to the number of dates that are not null. */
  lemma GapFilledTotal(column: seq<Option<string>>)
    requires GapFilled(column).Some?
    ensures SumCounts(GapFilled(column).value) == |ColumnDates(column)| == CountPresent(column)
  {
    ParseColumnPresent(column);
    var ks := MonthKeys(column).value;
    var bs := SeriesOf(ks);
    assert GapFilled(column).value == Rendered(bs);
    RenderedTotal(bs);
    SeriesOfTotal(ks);
  }

  /**
   * From fetched issues to the created series: when every issue's
   * `created_at` starts with a date, the series exists as soon as there is
   * one issue, and it counts every issue once.
   */
  lemma CreatedSeriesCountsAll(issues: seq<Issue>, rows: seq<IssueRow>)
    requires |rows| == |issues|
    requires forall i :: 0 <= i < |issues| ==> rows[i] == Project(issues[i])
    requires forall i :: 0 <= i < |issues| ==> |issues[i].createdAt| >= 10 && ParseIsoDate(issues[i].createdAt).Some?
    ensures issues == [] <==> GapFilled(CreatedColumn(rows)).None?
    ensures issues != [] ==> SumCounts(GapFilled(CreatedColumn(rows)).value) == |issues|
  {
    var column := CreatedColumn(rows);
    CreatedColumnDates(issues, rows);
    if issues != [] {
      GapFilledTotal(column);
    }
  }

  /** Every projected creation date converts, and none is null. */
  lemma CreatedColumnDates(issues: seq<Issue>, rows: seq<IssueRow>)
    requires |rows| == |issues|
    requires forall i :: 0 <= i < |issues| ==> rows[i] == Project(issues[i])
    requires forall i :: 0 <= i < |issues| ==> |issues[i].createdAt| >= 10 && ParseIsoDate(issues[i].createdAt).Some?
    ensures ParseColumn(CreatedColumn(rows)).Some?
    ensures |ColumnDates(CreatedColumn(rows))| == |issues|
  {
    var column := CreatedColumn(rows);
    assert ParseColumn(column).Some?;
    var ds := ParseColumn(column).value;
    assert forall i :: 0 <= i < |ds| ==> ds[i].Some?;
    PresentAll(ds);
  }

  /** With no nulls, every value is present. */
  lemma {:induction false} PresentAll<T>(vs: seq<Option<T>>)
    requires forall i :: 0 <= i < |vs| ==> vs[i].Some?
    ensures CountPresent(vs) == |vs|
  {
    if vs != [] {
      PresentAll(vs[..|vs| - 1]);
    }
  }
}
