# GitHub issue analytics backend: verified model of the core logic

The backend (`app.py`) is a Flask service. It fetches the issues of GitHub
repositories through the issue-search endpoint and turns them into
statistics for a dashboard. This project models its sequential logic in
Dafny and proves properties of the model. It covers:

- **Month arithmetic** (`subtract_months`). It steps a (year, month) pair back
  one month at a time and lands on day 1 (module `MonthShift`, file `months.dfy`).
- **The paging loops** (module `Paginator`, file `paginator.dfy`):
  - `fetch_repo_issues` requests pages of 100 issues. It backs off on
    rate-limited responses (403/429), gives up on the sixth consecutive
    one, and stops at an empty page or any other failure.
  - The `github` handler's loop stops at the first failure or short page.

  The HTTP exchange is a finite sequence of responses. Each response carries
  its status, its `retry-after` and `x-ratelimit-reset` headers, its items,
  and the clock reading (`time.time()`) taken when it is handled. The
  loops record their sleeps instead of sleeping.
- **The per-repository summary** of `get_processed_repo_data` (module
  `IssueSummary`, file `summary.dfy`):
  - Issues counted per "Month YYYY" label and per week, with totals.
  - An explicit empty branch for each count.
  - Star and fork counts defaulting to 0.
- **The `github` handler's data processing** (module `MonthlySeries`, file
  `series.dfy`):
  - The projection of each issue to a row of `issues_response`.
  - The monthly series of creation and closing dates, reindexed from the
    first to the last observed month with zero-filled gaps and emitted as
    `[period, count]` pairs.
- **The statistics of `get_repo_stats`** (module `RepoStats`, file
  `stats.dfy`): the busiest creation weekday, closing weekday and closing
  month, each `mode()[0]` of the names, or null for no issues.

Supporting modules:

| module | file | contents |
|---|---|---|
| `Calendar` | `calendar.dfy` | The proleptic Gregorian calendar: day numbers, weekday names, weeks, months on a line of integers. |
| `DateText` | `datetext.dfy` | ISO dates, `YYYY-MM` period strings and "Month YYYY" labels, with their parsers. |
| `Counting` | `counting.dfy` | `value_counts` as a map-building pass, and range counts. |
| `LexOrder` | `lexorder.dfy` | Python's string order. pandas sorts the modes in this order, so ties go to the smallest name. |
| `Wrappers` | `wrappers.dfy` | `Option`. `None` also stands for the places where Python or pandas raises. |

## Model

| member | source | states |
|---|---|---|
| MonthShift.SubtractMonths | app.py:44-51 | The loop's result: None exactly when the month lands before year 1, where `replace` raises. Otherwise a valid date on day 1 whose month position is exactly `months` below the input's. A count of 0 or less keeps the year and month. |
| MonthShift.MonthsBefore | app.py:44-51 | The closed form of the same result, stated by the same month-position relation. |
| MonthShift.MonthsBeforeZero | app.py:46 | Subtracting 0 months, or a negative number (an empty `range`), gives day 1 of the same month. |
| MonthShift.MonthsBeforeCompose | app.py:44-51 | Going back `a` months and then `b` more equals going back `a + b` months. |
| Paginator.Backoff | app.py:76-80 | The sleep is `retry-after` when that header is present. Otherwise it is at least 60: exactly `reset - now` when that is 60 or more, and 60 otherwise or when the reset header is missing. |
| Paginator.Fetch | app.py:63-98 | A whole run of `fetch_repo_issues` (defined step by step by `FetchFrom`): page 1 is requested first, there is at most one request per response, and the loop never stops on a short page. |
| Paginator.FetchRepoIssues | app.py:63-98 | The `while True` loop over `page`, `retries` and the accumulated issues computes exactly the run `Fetch` describes. |
| Paginator.FetchConsumes | app.py:70-92 | One request per response consumed. A run that stopped on its own consumed at least one response. A run that ran out of responses consumed them all. |
| Paginator.FetchCollects | app.py:75-96 | The issues returned are the items of the 200 responses consumed, concatenated in order. The sleeps are the backoffs of the rate-limited responses consumed, in order. |
| Paginator.FetchPages | app.py:75-96 | The first request asks for the starting page. After a rate limit the same page is requested again, and after a successful page the next one. Every response before the last consumed is a rate limit or a non-empty 200 page. |
| Paginator.FetchPagesMonotone | app.py:95 | Requested page numbers never decrease and grow by at most one per request. |
| Paginator.FetchStops | app.py:83-92 | The stop reason matches the last response consumed: a 200 with no items, a status other than 200/403/429 (returning what was accumulated), or a rate limit. The loop never stops on a short page. |
| Paginator.FetchRetryCap | app.py:82-84 | Once six consecutive rate-limited responses have been consumed, the run ends with RetriesExceeded. No request follows the sixth. |
| Paginator.RateLimitedRun | app.py:82-85 | With `retries` rate limits already counted, a run of rate limits stops after exactly `6 - retries` more requests. |
| Paginator.FetchGaveUp | app.py:82-96 | A run that gave up ended with six consecutive rate limits. Rate limits seen before a successful page do not count (`retries = 0`). |
| Paginator.FetchRetriesExceeded | app.py:82-96 | A whole run gives up exactly when its last six requests were all rate-limited. |
| Paginator.RetryExample | app.py:75-96 | Two header-less 429s sleep 60 s each and re-request page 1. Then a page of items is kept, and the empty page 2 ends the run. |
| Paginator.GiveUpExample | app.py:76-84 | Seven 429s with `retry-after: 30`: six requests, six 30 s sleeps, no issues. The seventh response is never read. |
| Paginator.List | app.py:211-225 | A whole run of the `github` loop (defined step by step by `ListFrom`): page 1 is requested first, there is at most one request per response, nothing is slept, and the loop stops only on an error status, a short page or the end of the responses. |
| Paginator.ListRepoIssues | app.py:211-225 | The `github` handler's loop computes exactly the run `List` describes. |
| Paginator.ListPages | app.py:211-225 | The handler's loop requests pages 1, 2, 3, ..., one per response. It never sleeps or retries. Every response before the last consumed is a full 200 page. |
| Paginator.ListCollects | app.py:216-224 | The handler's loop returns the items of the 200 responses consumed, a short last page included. It stops on a non-200 status or a short page, and on nothing else. |
| Paginator.FullPagesAgree | app.py:211-225 | When every page is full or empty, both loops request the same pages and return the same issues. |
| Calendar.DaysInMonth | app.py:131 | Month lengths 28 to 31. February has 29 days exactly in leap years. |
| Calendar.MonthAt | app.py:255 | The inverse of a month's position on the line of months; calendar positions give valid months. |
| Calendar.MonthAtIndex | app.py:255 | Reading a month's position back gives the month. |
| Calendar.MonthIndexInjective | app.py:255 | Distinct months have distinct positions. |
| Calendar.DaysBeforeNextYear | app.py:362 | The day count of a year is 366 in leap years and 365 otherwise. |
| Calendar.DaysBeforeYearMonths | app.py:362 | The twelve month lengths add up to the length of the year. |
| Calendar.DayNumber | app.py:362 | `toordinal() - 1`: a date's day number lies within its own year's numbers, from the first day of the year to the day before next year begins. |
| Calendar.DaysBeforeLaterMonth | app.py:362 | A month and the months before it fit within the length of the year. |
| Calendar.NextDayNumber | app.py:362 | The day after a date has the next day number, across month and year ends. |
| Calendar.DayName | app.py:362 | `day_name()` is one of the seven weekday names. |
| Calendar.MonthName | app.py:363 | `month_name()` is one of the twelve month names. |
| Calendar.WeekOf | app.py:147 | A date's week holds the 7 consecutive day numbers around the date's day number. |
| Calendar.NextDayWeek | app.py:147 | The week changes exactly from Sunday to Monday. Sunday is followed by Monday. |
| Calendar.KnownMondays | app.py:362 | 0001-01-01 and 2024-03-11 are Mondays, as in Python. |
| Calendar.SameMonthWeeksApart | app.py:147 | Two days of one month at least 7 days apart fall in different weeks. |
| DateText.ReadPadded | app.py:262 | Reading back a zero-padded number gives the number. |
| DateText.PaddedRead | app.py:127 | Zero-padding a number read from digits gives the digits back. |
| DateText.FormatIsoDate | app.py:232 | An ISO date is 10 characters long. |
| DateText.ParseIsoDate | app.py:253-254 | Whatever parses is a valid date. |
| DateText.ParseFormatIsoDate | app.py:253-254 | Parsing a formatted date gives the date back. |
| DateText.FormatParseIsoDate | app.py:253-254 | A string that parses is the ISO form of its date, in its first 10 characters. |
| DateText.ParseIsoDatePrefix | app.py:232 | Only the first 10 characters of a timestamp decide its date. |
| DateText.PeriodText | app.py:131 | `str(period)`: seven characters, four year digits, a dash and two month digits, which read back as the month's year and number. |
| DateText.ParsePeriod | app.py:127 | `strptime(..., '%Y-%m')` on a zero-padded `YYYY-MM`: whatever it reads is a valid month. |
| DateText.ParsePeriodText | app.py:131 | The `YYYY-MM` text of a month parses back to that month. |
| DateText.PeriodTextInjective | app.py:262 | Distinct months have distinct period strings. |
| DateText.MonthLabel | app.py:127 | `strftime('%B %Y')`: a month name, a space and four year digits. The name reads back as the month's number and the digits as its year. |
| DateText.FormatDate | app.py:126-127 | `format_date`: a label exactly when the text is a zero-padded `YYYY-MM` of a valid month, None otherwise. The label ends with the text's own four year digits, and its month name is the one the text's two month digits number. |
| DateText.FormatDateOfPeriod | app.py:126-127 | `format_date` of a month's period string is that month's "Month YYYY" label. |
| DateText.MonthNumber | app.py:127 | A month name's number names that month again. |
| DateText.MonthNumberOfName | app.py:127 | The number of a month's name is the month. |
| DateText.MonthLabelInjective | app.py:132-133 | Distinct months have distinct labels, so counting labels counts months. |
| DateText.FormatDateExample | app.py:126-127 | `format_date('2024-03')` is "March 2024". |
| Counting.CountBy | app.py:133 | `value_counts().to_dict()`: the keys are exactly the values that occur, each mapped to its number of occurrences, which is positive. |
| Counting.CountByTotal | app.py:133 | The counts add up to the number of values counted. |
| Counting.RangeCountAll | app.py:257-258 | When every key lies in a range of positions, the counts over the range add up to the number of keys. |
| IssueSummary.MonthLabels | app.py:131-132 | Each date becomes the label of its month. |
| IssueSummary.Months | app.py:131 | Each date becomes its month. |
| IssueSummary.WeekKeys | app.py:147 | The corrected week key of each date: the week it falls in. |
| IssueSummary.Summarize | app.py:130-161 | An empty list gives empty monthly and weekly maps and a total of 0, and a non-empty one gives non-empty maps. The total is the number of issues. Every listed bucket holds at least one issue. |
| IssueSummary.SummarizePartitions | app.py:133 | The monthly counts add up to the number of issues, and so do the weekly counts. |
| IssueSummary.LabelCounts | app.py:131-133 | The count of a month's label is the number of issues in that month. |
| IssueSummary.SummarizeMonthly | app.py:130-143 | A month's label is listed exactly when some issue falls in that month, with the number of issues in it. |
| IssueSummary.SummarizeMonthlyKeys | app.py:130-143 | Every listed label is the label of some issue's month. |
| IssueSummary.SummarizeWeekly | app.py:145-161 | A week is listed exactly when some issue falls in it, with the number of issues in it. |
| IssueSummary.SummarizeRepo | app.py:163-172 | The entry holds both bucketings. Stars and forks are the detail values, or 0 when missing. |
| IssueSummary.TwoMonthsExample | app.py:130-143 | Three issues in one month and two in another give a total of 5 and exactly those two labels, counted 3 and 2. |
| IssueSummary.WeekKeysAsWritten | app.py:145-148 | As written, each issue's week key is the week of the first day of its month. |
| IssueSummary.WeeklyAsWritten | app.py:145-148 | The weekly map as written: empty exactly for no issues. A week is listed exactly when some issue's as-written key is that week, with the number of such issues. |
| IssueSummary.WeeklyAsWrittenMerges | app.py:145-148 | As written, two issues of the same month always get the same week key. |
| IssueSummary.WeeklyAsWrittenCounterexample | app.py:145-148 | As written, two issues of one month produce a weekly map with one week, the week of the 1st, counting 2. |
| IssueSummary.WeeklySeparates | app.py:145-161 | The corrected weekly map lists two issues of one month, 7 or more days apart, under two different weeks, once each. |
| IssueSummary.WeeklyMarch2024 | app.py:145-148 | For issues on 2024-03-01 and 2024-03-20, the as-written map counts 2 in one week, while the corrected one counts 1 in each of two weeks. |
| MonthlySeries.Prefix10 | app.py:232 | `s[0:10]`: a prefix, the whole of a shorter string, and for a timestamp the same date. |
| MonthlySeries.LabelNames | app.py:234 | One name per label, in order. |
| MonthlySeries.Project | app.py:229-238 | Number, state and author are copied. The creation and closing dates are kept. A null or empty `closed_at` becomes null, and only that. Labels become their names. |
| MonthlySeries.ProjectIssues | app.py:228-238 | One row per fetched issue, in order, each the issue's projection. |
| MonthlySeries.CreatedColumn | app.py:252 | The creation column has one non-null value per row. |
| MonthlySeries.ClosedColumn | app.py:270 | The closing column holds each row's `closedAt`, in order. It is null where the projection made it null. |
| MonthlySeries.ParseDay | app.py:253-254 | Whatever `to_datetime(..., format='%Y-%m-%d')` accepts is a valid date. |
| MonthlySeries.ParseDayFormat | app.py:253-254 | A string converts to a date exactly when it is that date's ISO form. |
| MonthlySeries.ParseColumn | app.py:253-254 | The column converts exactly when every non-null string is a `YYYY-MM-DD` date. Nulls stay in place and each string becomes its date. |
| MonthlySeries.Present | app.py:256 | The non-null dates: as many as there are non-null values, each taken from the column, none missed. |
| MonthlySeries.MonthIndices | app.py:255 | Each date becomes its month's position. |
| MonthlySeries.SeqMin | app.py:257-258 | `index.min()` is a key no larger than any other. |
| MonthlySeries.SeqMax | app.py:257-258 | `index.max()` is a key no smaller than any other. |
| MonthlySeries.Reindexed | app.py:256-258 | `n` consecutive months from a position, each counting the keys at its position, 0 for none. |
| MonthlySeries.Rendered | app.py:260-263 | One pair per row, whose period string reads back as the row's month and whose count is the row's. |
| MonthlySeries.ColumnDates | app.py:253-256 | The column's non-null dates, every one converted from a string of the column. |
| MonthlySeries.ParseColumnPresent | app.py:253-256 | Conversion keeps the number of non-null values. |
| MonthlySeries.MonthKeys | app.py:253-255 | The month positions of a column: None exactly when conversion fails. They are the months of the column's dates and lie on the calendar. |
| MonthlySeries.SeriesOf | app.py:256-258 | The series spans the smallest to the largest key. Row `j` is month `min + j`, counting the keys there. |
| MonthlySeries.Reindex | app.py:252-258 | None exactly when a non-null string is not a `YYYY-MM-DD` date, or there is no date at all. Otherwise all rows are valid months. |
| MonthlySeries.GapFilled | app.py:252-263 | One pair per reindexed row, in order. Each pair's period reads back as its row's month and carries its count. None exactly where `Reindex` is None. |
| MonthlySeries.MonthlyCounts | app.py:252-263 | The handler's grouping, reindexing and appending compute exactly `GapFilled`. |
| MonthlySeries.AppendPairs | app.py:260-263 | The appending loop builds exactly the rendered pairs, in row order. |
| MonthlySeries.RenderedTotal | app.py:260-263 | Rendering keeps the sum of the counts. |
| MonthlySeries.ReindexedTotal | app.py:257-258 | The rows of a reindexed range add up to the keys counted in that range. |
| MonthlySeries.SeriesOfTotal | app.py:256-258 | Zero-filling adds nothing: the series' counts add up to the number of keys. |
| MonthlySeries.SeriesOfPositions | app.py:257-258 | The rows sit at consecutive positions from the smallest key to the largest. |
| MonthlySeries.SeriesOfMonths | app.py:255-258 | The series lists consecutive ascending months, from the month of the earliest date to that of the latest, covering every date. |
| MonthlySeries.SeriesOfRow | app.py:256-258 | Each row counts the keys at its month's position. |
| MonthlySeries.SeriesOfCounts | app.py:256-258 | Each row counts the dates in its month, and is 0 exactly when no date falls in it. |
| MonthlySeries.ReindexMonths | app.py:252-258 | A column's reindexed series spans its months consecutively and ascending, from the first observed month to the last. |
| MonthlySeries.ReindexCounts | app.py:270-276 | Each row of a column's reindexed series counts that column's dates in its month, 0 exactly for the gaps. |
| MonthlySeries.GapFilledTotal | app.py:270-281 | The counts of the emitted pairs add up to the number of non-null dates of the column. |
| MonthlySeries.CreatedSeriesCountsAll | app.py:228-263 | From fetched issues whose `created_at` holds a date, the created series exists exactly when there is an issue. It counts every issue once. |
| MonthlySeries.CreatedColumnDates | app.py:229-254 | Every projected creation date converts, none is null, and there is one per issue. |
| MonthlySeries.PresentAll | app.py:252 | A column without nulls has every value present. |
| LexOrder.LexLeTotal | app.py:370 | Any two strings are ordered one way or the other. |
| LexOrder.LexLeTransitive | app.py:370 | The string order is transitive. |
| LexOrder.LexLeAntisymmetric | app.py:370 | Strings ordered both ways are equal. |
| RepoStats.IsMode | app.py:370-372 | What `mode()[0]` picks: a value of the series occurring at least as often as any string whatsoever, and the least in string order among those occurring as often. |
| RepoStats.ModeOfPrefix | app.py:370-372 | Among the first `n` values, it picks one that occurs most often, and the least in string order among the values that occur as often. |
| RepoStats.Mode | app.py:370-372 | `mode()[0]` is None exactly for an empty series. Otherwise it is a value of maximal count, the least in string order among the ties. |
| RepoStats.ModeUnique | app.py:370-372 | Only one value is a mode in that sense, so Mode finds exactly it. |
| RepoStats.CountPair | app.py:370 | Two different values together occur at most as often as there are values. |
| RepoStats.MajorityIsMode | app.py:370 | A value making up more than half of the series is its mode. |
| RepoStats.DayNames | app.py:362 | `dt.day_name()` of each date, in order. |
| RepoStats.MonthNamesOf | app.py:363 | `dt.month_name()` of each date, in order. |
| RepoStats.BusiestDay | app.py:370-371 | None exactly for no issues. Otherwise a weekday name, and the mode of the dates' day names. |
| RepoStats.BusiestMonth | app.py:372 | None exactly for no issues. Otherwise a month name, and the mode of the dates' month names. |
| RepoStats.RepoStats | app.py:361-379 | Each statistic is null exactly when its issue list is empty. Otherwise it is the mode of the corresponding names. |
| RepoStats.BusiestDayExample | app.py:370 | Names Monday, Monday, Monday, Tuesday have mode Monday. |
| RepoStats.TieExample | app.py:370 | A tie between Monday and Friday goes to Friday, first in string order. |

## Findings

| source | as written | input that shows it | evidently intended | confidence | as-written member | corrected member |
|---|---|---|---|---|---|---|
| app.py:145-161 | Lines 131-132 (and 139-140) overwrite the date column with "Month YYYY" labels. The weekly pass then converts those labels back with `to_datetime`, giving the first of the month. So every issue is counted in the week containing the 1st of its month, and the weekly map repeats the monthly counts. | Issues created on 2024-03-01 and 2024-03-20: one week with count 2 instead of two weeks with count 1 each. | Each issue counted in the week its own date falls in. | high; not executed | IssueSummary.WeeklyAsWrittenCounterexample | IssueSummary.WeeklySeparates |

The rest of the model (`IssueSummary.Summarize`, `IssueSummary.SummarizeRepo`)
uses the corrected weekly keys. The as-written keys are kept beside them as
`IssueSummary.WeekKeysAsWritten` and `IssueSummary.WeeklyAsWritten`.

## Left out

- Flask routing, `jsonify`, request bodies and the CORS helpers (app.py:20-33) are web plumbing with no logic to model.
- The HTTP requests themselves, `fetch_repo_details` (app.py:100-104), `fetch_repo_data` and `get_full_repo_data` (app.py:176-195) are single network calls. The paging loops take their responses as a finite sequence, and the summary takes the repository details as a map.
- The LSTM forecast requests and the merging of their answers (app.py:283-339) go to a remote service.
- The daily creation count (app.py:242-246) is computed but never used in the handler's response.
- The token and URL come from environment variables (app.py:36, 112, 299), which are configuration only.
- Network exceptions and JSON decoding failures, which raise, are not modelled. A missing `items` key reads as an empty list, as `.get('items', [])` does. A non-numeric `retry-after` header, which makes `int()` raise, is not modelled.
- Paginator.Backoff: the clock is whole seconds, so the fraction that `int(reset) - time.time()` carries is dropped. With the reset header missing, the source computes `int(time.time()) - time.time()`, which is below 1, so the sleep is 60 there as in the model.
- Paginator.FetchRepoIssues: `time.sleep` is recorded, not performed. A negative `retry-after`, which makes `time.sleep` raise, is recorded like any other value.
- Paginator.FetchRepoIssues: the loop is unbounded (`while True`). The model stops with `Exhausted` when the finite sequence of responses runs out, which the running loop never does.
- The `github` handler as written fails before its loop runs: `repo_name` is not a parameter (app.py:197) and `timedelta` is not imported (app.py:204). After its series, `issues_reponse` (app.py:290) and `repository` (app.py:329) are undefined. Only its paging loop, projection and series are modelled, with those names taken as intended.
- Timestamps are reduced to their date part. Time of day and time zones (pandas converts `Z` timestamps in UTC) are not modelled. The summary and the statistics take the dates of the issues directly, with their own timestamp parsing left out.
- IssueSummary.Summarize: a week is an integer (days since 0001-01-01 divided by 7, weeks starting on Monday), not pandas' `YYYY-MM-DD/YYYY-MM-DD` period string. Monthly keys are the labels themselves.
- IssueSummary.Summarize: the insertion order of `value_counts().to_dict()` (by falling count) is not modelled, because the maps are unordered.
- IssueSummary.Summarize: a closed issue without `closed_at` is not modelled; the closed-issue query returns only issues that have one.
- DateText.MonthLabel: years below 1000 are written with four digits. The platform's `strftime('%Y')` may not pad them.
- DateText.ParsePeriod, DateText.FormatDate: an unpadded month such as "2024-3", which `strptime('%m')` also reads, gives None here. `format_date` only ever receives `str(Period)` (app.py:131-132), which is always zero-padded, so such text never reaches it.
- MonthlySeries.ParseColumn, MonthlySeries.Reindex, MonthlySeries.GapFilled: `pd.to_datetime(..., format='%Y-%m-%d')` reads an empty string and the spellings "NaT" and "nan" as NaT, which `groupby` then drops. The model fails the whole column on them instead. Only `created_at` could carry them, and GitHub always sends a timestamp there; an empty `closed_at` is already null after the projection (app.py:233).
- MonthlySeries.ParseDay: accepts exactly the ten-character `YYYY-MM-DD` form. `strptime` also accepts unpadded fields, but after the `[0:10]` truncation only the padded form reaches it from GitHub timestamps.
- MonthlySeries.GapFilled: where pandas raises (an unparseable string, or no non-null date for `period_range(NaT, NaT)`), the model returns None rather than an exception. The sort at app.py:270 does not change the counts and is left out.
- Calendar years are limited to 1..9999, the range of Python's `datetime`, which `subtract_months` and `strptime` use.
- MonthlySeries.ParseDay, IssueSummary.Summarize, RepoStats.RepoStats: pandas Timestamps only reach from 1677-09-21 to 2262-04-11, and `pd.to_datetime` raises outside that range. The model accepts every year from 1 to 9999, so "1500-01-01" converts here where pandas raises.
- RepoStats.RepoStats: a null `closed_at` among closed issues, which pandas drops from the names, is not modelled; the closed-issue query returns only issues that have one.
