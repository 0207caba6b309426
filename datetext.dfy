/**
 * The text forms of dates the service reads and writes: ISO-8601 date
 * prefixes (`2024-03-11`), pandas' monthly period strings (`2024-03`) and
 * the "Month YYYY" labels produced by `strftime('%B %Y')`.
 */
module DateText {
  import opened Wrappers
  import opened Calendar

  predicate IsDigit(c: char) {
    '0' <= c <= '9'
  }

  predicate AllDigits(s: string) {
    forall i :: 0 <= i < |s| ==> IsDigit(s[i])
  }

  function DigitValue(c: char): (n: int)
    requires IsDigit(c)
    ensures 0 <= n <= 9
  {
    c as int - '0' as int
  }

  function Digit(n: int): (c: char)
    requires 0 <= n <= 9
    ensures IsDigit(c) && DigitValue(c) == n
  {
    ('0' as int + n) as char
  }

  function Pow10(w: nat): (p: int)
    ensures p >= 1
  {
    if w == 0 then 1 else 10 * Pow10(w - 1)
  }

  /** The value of a run of decimal digits, most significant first. */
  function ReadNumber(s: string): (n: int)
    requires AllDigits(s)
    ensures 0 <= n < Pow10(|s|)
  {
    if s == [] then 0 else ReadNumber(s[..|s| - 1]) * 10 + DigitValue(s[|s| - 1])
  }

  /** The last `width` decimal digits of `n`, with leading zeros (`%04d`, `%02d`). */
  function Padded(n: int, width: nat): (s: string)
    requires n >= 0
    ensures |s| == width && AllDigits(s)
  {
    if width == 0 then [] else Padded(n / 10, width - 1) + [Digit(n % 10)]
  }

  /** Reading back a padded number gives the number when it fits the width. */
  lemma {:induction false} ReadPadded(n: int, width: nat)
    requires 0 <= n < Pow10(width)
    ensures ReadNumber(Padded(n, width)) == n
  {
    if width > 0 {
      var s := Padded(n, width);
      assert s[..|s| - 1] == Padded(n / 10, width - 1);
      ReadPadded(n / 10, width - 1);
    }
  }

  /** Padding a number read from digits gives the digits back. */
  lemma {:induction false} PaddedRead(s: string)
    requires AllDigits(s)
    ensures Padded(ReadNumber(s), |s|) == s
  {
    if s != [] {
      var init := s[..|s| - 1];
      var n := ReadNumber(s);
      assert n / 10 == ReadNumber(init) && n % 10 == DigitValue(s[|s| - 1]);
      PaddedRead(init);
      assert s == init + [s[|s| - 1]];
    }
  }

  /** `date.isoformat()`: `YYYY-MM-DD`. */
  function FormatIsoDate(d: Date): (s: string)
    requires ValidDate(d)
    ensures |s| == 10
  {
    Padded(d.year, 4) + "-" + Padded(d.month, 2) + "-" + Padded(d.day, 2)
  }

  /**
   * The date in the first ten characters of an ISO-8601 timestamp
   * (`2024-03-11T08:15:00Z`), or None when they are not a valid date.
   */
  function ParseIsoDate(s: string): (r: Option<Date>)
    ensures r.Some? ==> ValidDate(r.value)
  {
    if |s| < 10 || s[4] != '-' || s[7] != '-'
       || !AllDigits(s[..4]) || !AllDigits(s[5..7]) || !AllDigits(s[8..10])
    then None
    else
      var d := Date(ReadNumber(s[..4]), ReadNumber(s[5..7]), ReadNumber(s[8..10]));
      if ValidDate(d) then Some(d) else None
  }

  /** Parsing reads a formatted date back. */
  lemma ParseFormatIsoDate(d: Date)
    requires ValidDate(d)
    ensures ParseIsoDate(FormatIsoDate(d)) == Some(d)
  {
    var s := FormatIsoDate(d);
    assert s[..4] == Padded(d.year, 4);
    assert s[5..7] == Padded(d.month, 2);
    assert s[8..10] == Padded(d.day, 2);
    ReadPadded(d.year, 4);
    ReadPadded(d.month, 2);
    ReadPadded(d.day, 2);
  }

  /** What parses as a date is exactly that date's ISO form, in its first ten characters. */
  lemma FormatParseIsoDate(s: string)
    requires ParseIsoDate(s).Some?
    ensures FormatIsoDate(ParseIsoDate(s).value) == s[..10]
  {
    PaddedRead(s[..4]);
    PaddedRead(s[5..7]);
    PaddedRead(s[8..10]);
    assert s[..10] == s[..4] + "-" + s[5..7] + "-" + s[8..10];
  }

  /** Only the first ten characters decide the date. */
  lemma ParseIsoDatePrefix(s: string)
    requires |s| >= 10
    ensures ParseIsoDate(s[..10]) == ParseIsoDate(s)
  {
    var p := s[..10];
    assert p[..4] == s[..4] && p[5..7] == s[5..7] && p[8..10] == s[8..10];
  }

  /** `str(Period(..., 'M'))`: `YYYY-MM`. */
  function PeriodText(k: Month): (s: string)
    requires ValidMonth(k)
    ensures |s| == 7 && s[4] == '-' && AllDigits(s[..4]) && AllDigits(s[5..])
    ensures ReadNumber(s[..4]) == k.year && ReadNumber(s[5..]) == k.month
  {
    ReadPadded(k.year, 4);
    ReadPadded(k.month, 2);
    var s := Padded(k.year, 4) + "-" + Padded(k.month, 2);
    assert s[..4] == Padded(k.year, 4) && s[5..] == Padded(k.month, 2);
    s
  }

  /** `datetime.strptime(s, '%Y-%m')`, reduced to the month it names; None where it raises. */
  function ParsePeriod(s: string): (r: Option<Month>)
    ensures r.Some? ==> ValidMonth(r.value)
  {
    if |s| != 7 || s[4] != '-' || !AllDigits(s[..4]) || !AllDigits(s[5..]) then None
    else
      var k := Month(ReadNumber(s[..4]), ReadNumber(s[5..]));
      if ValidMonth(k) then Some(k) else None
  }

  lemma ParsePeriodText(k: Month)
    requires ValidMonth(k)
    ensures ParsePeriod(PeriodText(k)) == Some(k)
  {
    var s := PeriodText(k);
    assert s[..4] == Padded(k.year, 4) && s[5..] == Padded(k.month, 2);
    ReadPadded(k.year, 4);
    ReadPadded(k.month, 2);
  }

  /** Distinct months have distinct period strings. */
  lemma PeriodTextInjective(j: Month, k: Month)
    requires ValidMonth(j) && ValidMonth(k)
    requires PeriodText(j) == PeriodText(k)
    ensures j == k
  {
    ParsePeriodText(j);
    ParsePeriodText(k);
  }

  /** `strftime('%B %Y')` of the first day of month `k`: "March 2024". */
  function MonthLabel(k: Month): (s: string)
    requires ValidMonth(k)
    ensures |s| > 5 && s[|s| - 5] == ' ' && AllDigits(s[|s| - 4..])
    ensures MonthNumber(s[..|s| - 5]) == k.month && ReadNumber(s[|s| - 4..]) == k.year
  {
    MonthNumberOfName(k.month);
    ReadPadded(k.year, 4);
    var s := MonthName(k.month) + " " + Padded(k.year, 4);
    assert s[..|s| - 5] == MonthName(k.month) && s[|s| - 4..] == Padded(k.year, 4);
    s
  }

  /**
   * `format_date` of the summary: read a `YYYY-MM` period string and write
   * the month's label; None where `strptime` raises.
   */
  function FormatDate(period: string): (r: Option<string>)
    ensures r.Some? <==> ParsePeriod(period).Some?
    ensures r.Some? ==> |period| == 7 && AllDigits(period[5..])
    ensures r.Some? ==> |r.value| > 5 && r.value[|r.value| - 4..] == period[..4]
    ensures r.Some? ==> MonthNumber(r.value[..|r.value| - 5]) == ReadNumber(period[5..])
  {
    if ParsePeriod(period).None? then None
    else
      var text := MonthLabel(ParsePeriod(period).value);
      PaddedRead(period[..4]);
      PaddedRead(text[|text| - 4..]);
      Some(text)
  }

  lemma FormatDateOfPeriod(k: Month)
    requires ValidMonth(k)
    ensures FormatDate(PeriodText(k)) == Some(MonthLabel(k))
  {
    ParsePeriodText(k);
  }

  /** The month number a name stands for, or 0 for a name that is not a month's. */
  function MonthNumber(name: string): (m: int)
    ensures 0 <= m <= 12
    ensures m != 0 ==> MonthName(m) == name
  {
    if name == "January" then 1 else if name == "February" then 2
    else if name == "March" then 3 else if name == "April" then 4
    else if name == "May" then 5 else if name == "June" then 6
    else if name == "July" then 7 else if name == "August" then 8
    else if name == "September" then 9 else if name == "October" then 10
    else if name == "November" then 11 else if name == "December" then 12
    else 0
  }

  lemma MonthNumberOfName(m: int)
    requires 1 <= m <= 12
    ensures MonthNumber(MonthName(m)) == m
  {
  }

  /** Distinct months have distinct labels, so counting by label counts by month. */
  lemma MonthLabelInjective(j: Month, k: Month)
    requires ValidMonth(j) && ValidMonth(k)
    requires MonthLabel(j) == MonthLabel(k)
    ensures j == k
  {
    var l := MonthLabel(j);
    var nj, nk := MonthName(j.month), MonthName(k.month);
    assert |nj| == |l| - 5 == |nk|;
    assert nj == l[..|nj|] == nk;
    MonthNumberOfName(j.month);
    MonthNumberOfName(k.month);
    assert l[|nj| + 1..] == Padded(j.year, 4) == Padded(k.year, 4);
    ReadPadded(j.year, 4);
    ReadPadded(k.year, 4);
  }

  /** `format_date('2024-03')` is "March 2024". */
  lemma FormatDateExample()
    ensures FormatDate("2024-03") == Some("March 2024")
  {
    var k := Month(2024, 3);
    assert Padded(2024, 4) == "2024" by {
      assert Padded(2, 1) == "2";
      assert Padded(20, 2) == "20";
      assert Padded(202, 3) == "202";
    }
    assert PeriodText(k) == "2024-03" && MonthLabel(k) == "March 2024";
    FormatDateOfPeriod(k);
  }
}
