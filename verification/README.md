# git-time-report: the allocation and report pipeline in Dafny

`timereport.py` turns commit history into an approximate timesheet. The
model covers its three stages:

- `collect_commits` keeps the commits of the accepted author emails that are
  no more than `delta` days old and whose message contains a task identifier.
  It buckets each kept task by authored date, then by hour of day.
- `calculate_works` turns each date's buckets into `Work(task, date, hours)`
  records. The daily budget of `hours` is split evenly over the date's active
  hours, each hour's share evenly over the tasks recorded in that hour, and
  the shares are summed per task.
- `report` groups the works under a day, week or month key. It sorts the
  groups by key as Python sorts strings and yields `(key, task, str(round(hours)))`
  per work.

Each loop of the program is a method proved equal to a specification
function:

- `Collecting.CollectCommits` is proved equal to `Collecting.Collect`.
- `Allocation.CalculateWorks` and `Allocation.SummarizeDay` are proved equal
  to `Allocation.Works` and `Allocation.DaySummary`.
- `Reporting.Report` is proved equal to `Reporting.ReportRows`.

Lemmas state what the program promises about those functions.

Python dictionaries are modelled as insertion-ordered sequences of key/value
pairs (`OrderedMaps`). Dates, hours within a date and tasks within a date
all come out in first-seen order, so the order is part of what the model
states.

The parts of `datetime.date` the program uses are written out in
`Calendar`: the day number behind `today - date`, `isocalendar()[1]` and
`str(date)`. `Text` holds Python's string order, `str(int)` and `round()`.
`TaskPattern` is a matcher for the default `--task` pattern
`[A-Z]{1,8}\-?[0-9]{1,8}`.

## Model

| member | source | states |
|---|---|---|
| Collecting.CollectCommits | timereport.py:33-53 | the loop returns exactly `Collect` of its inputs: email, age and task filters in that order, then `commits[cdate][chour].append(task)`; the result is well formed (every date has an hour, every hour a task, no key repeats) |
| Collecting.Bucketize | timereport.py:40-52 | appending the kept entries one by one always yields well-formed buckets |
| Collecting.AppendTaskWellFormed | timereport.py:52 | one `commits[cdate][chour].append(task)` keeps the buckets well formed |
| Collecting.AppendedSlot | timereport.py:52 | one append adds its task at the end of its own (date, hour) bucket and changes no other bucket |
| Collecting.AppendedCount | timereport.py:52 | one append adds exactly one task to the buckets |
| Collecting.BucketContents | timereport.py:40-52 | each (date, hour) bucket holds exactly the tasks of the entries with that date and hour, in entry order |
| Collecting.TaskCountIsEntryCount | timereport.py:41-52 | the buckets hold as many tasks as there are kept entries |
| Collecting.DateOrder | timereport.py:40-52 | dates iterate in the order they were first seen among the kept commits |
| Collecting.HourOrder | timereport.py:40-52 | within a date, hours iterate in the order they were first seen |
| Collecting.SkippedCommit | timereport.py:42-48 | a commit from another author, older than `delta` days, or without a task leaves the buckets, and so the works, unchanged |
| Collecting.KeptCommit | timereport.py:41-52 | a commit that passes all three filters appends its matched task to its own bucket only, adding one task in all |
| Collecting.RecencyBoundary | timereport.py:44-45 | a commit exactly `delta` days old is kept, one `delta + 1` days old is dropped, and a future-dated commit is kept when `delta >= 0` |
| Collecting.CollectContents | timereport.py:33-53 | number of tasks = number of kept commits; each bucket lists its kept commits' tasks in commit order; dates and hours keep first-seen order |
| Allocation.CalculateWorks | timereport.py:56-67 | the loops return exactly `Works` of the buckets: per date in iteration order, one work per summary item in summary order |
| Allocation.SummarizeDay | timereport.py:59-64 | the inner loops build exactly `DaySummary`: `hours / len(day)` per hour, split `len(tasks)` ways, summed per task |
| Allocation.SpreadTotal | timereport.py:62-64 | an hour's entries together receive `len(tasks)` times the task ratio |
| Allocation.SplitEvenly | timereport.py:62-64 | splitting a share `n` ways and adding the parts back gives the share |
| Allocation.SharesTotal | timereport.py:59-64 | a date's contributions add up to the number of its hours times the hour ratio |
| Allocation.AccumulateTotal | timereport.py:60-64 | summing per task in `day_summary` loses and invents no hours |
| Allocation.DaySummaryTotal | timereport.py:59-64 | a date's summary adds up to exactly `hours` |
| Allocation.HoursConserved | timereport.py:56-67 | the works of a date with buckets add up to exactly `hours`; any other date has none |
| Allocation.AccumulatePositive | timereport.py:60-64 | with positive shares, every per-task total is positive |
| Allocation.SharesPositive | timereport.py:59-64 | with a positive budget every contribution is positive |
| Allocation.WorksPositive | timereport.py:56-67 | with a positive budget every work has positive hours |
| Allocation.AccumulateKeys | timereport.py:60-65 | `day_summary` lists each task once, in the order first seen |
| Allocation.AccumulateUnique | timereport.py:60-64 | `day_summary` never holds a task twice |
| Allocation.SharesTasks | timereport.py:61-63 | contributions follow the date's entries hour by hour, in order |
| Allocation.DaySummaryKeys | timereport.py:60-65 | a date's summary lists its buckets' tasks once each, in first-seen order |
| Allocation.WorkTasksPerDate | timereport.py:58-66 | the works of a date name each of its tasks exactly once, in first-seen order; a date without buckets has no works |
| Allocation.OneWorkPerTaskAndDate | timereport.py:58-66 | no two works share both task and date |
| Allocation.WorkDates | timereport.py:58-66 | every work is dated on a date that has buckets |
| Allocation.WorkDateOrder | timereport.py:58-66 | the dates of the works, first occurrences only, are the buckets' dates in order: every date with buckets has at least one work |
| Allocation.WorkDatesContiguous | timereport.py:58-66 | the works of a date are contiguous: works come out date by date |
| Allocation.AccumulateValue | timereport.py:60-64 | `day_summary[t]` is the sum of the contributions to `t`, and 0 for a task without any |
| Allocation.SpreadValue | timereport.py:62-64 | within an hour, a task receives `task_ratio` once per entry naming it |
| Allocation.SharesValue | timereport.py:59-64 | a date's contributions to `t` add up to its fair share: over the hours, `hours / len(day) / len(tasks)` times the number of the hour's entries naming `t` |
| Allocation.DaySummaryValue | timereport.py:59-64 | `day_summary[t]` for a date is that fair share of `t` |
| Allocation.WorkHours | timereport.py:56-67 | every work's hours are the fair share of its task on its date |
| Reporting.Report | timereport.py:70-91 | the loops return exactly `ReportRows`: the rows in order, or the error before any row |
| Reporting.GroupKey | timereport.py:73-87 | a key exists exactly for `day`, `week` and `month`; any other `group_by` gives `UnsupportedGroupBy(group_by)` |
| Reporting.GroupedOutcome | timereport.py:72-88 | grouping fails exactly when there is a work and `group_by` is unsupported, and then with that error |
| Reporting.ReportFails | timereport.py:70-91 | `report` raises exactly when `works` is non-empty and `group_by` is unsupported |
| Reporting.GroupedContents | timereport.py:71-88 | the list of each key holds exactly the works with that key, in work order |
| Reporting.GroupedUnique | timereport.py:71-88 | `grouped` never holds a key twice |
| Reporting.GroupedSize | timereport.py:71-88 | grouping files every work exactly once |
| Reporting.InsertPermutes | timereport.py:89 | inserting into the sorted list adds the item and changes nothing else (multiset) |
| Reporting.InsertSorted | timereport.py:89 | inserting a new key keeps the list strictly sorted by key |
| Reporting.SortByKeyFacts | timereport.py:89 | `sorted(grouped.items())` is a permutation of the items, strictly ordered by key, with the same keys and lists |
| Reporting.SortByKeySize | timereport.py:89 | sorting keeps the total number of works |
| Reporting.RowsSize | timereport.py:89-91 | one row per work in the groups |
| Reporting.RowsSorted | timereport.py:89-91 | rows of key-sorted groups have non-decreasing keys |
| Reporting.RowsOfKey | timereport.py:89-91 | in the output, the rows of a key are those of that key's list, in list order |
| Reporting.ReportRowCount | timereport.py:70-91 | for a supported `group_by`, one row per work |
| Reporting.ReportSorted | timereport.py:89-91 | row keys never decrease in Python's string order |
| Reporting.ReportGroups | timereport.py:71-91 | the rows of each key are the rows of the works with that key, in work order: grouping and sorting are stable |
| Reporting.RowContents | timereport.py:91 | a row carries its key and task, and its hours string reads back as the integer nearest the work's hours, ties to even |
| GroupKeys.MonthKeyInjective | timereport.py:81-85 | two dates share a month key exactly when they share year and month |
| GroupKeys.WeekKeyInjective | timereport.py:75-80 | two dates share a week key exactly when they share year, month and ISO week |
| GroupKeys.DayKeyOrder | timereport.py:73-74 | day keys compare as text exactly as the dates compare in the calendar |
| GroupKeys.DayKeyInjective | timereport.py:73-74 | two dates share a day key exactly when they are the same date |
| GroupKeys.MonthKeyTextOrder | timereport.py:81-89 | month keys are not zero-padded, so within a year October to December sort before February to September, against the calendar |
| GroupKeys.WeekKeyYearEnd | timereport.py:75-80 | 2019-12-31 and 2020-01-01 share ISO week 1 but are keyed `2019-12-1` and `2020-1-1`: the week key uses the calendar year and month |
| Calendar.IsoWeekPositive | timereport.py:79 | `isocalendar()[1]` is at least 1 |
| Text.RoundHalfEvenUnique | timereport.py:91 | `round(x)` is the only integer within 0.5 of `x` that is even when `x` lies halfway |
| Text.IntToStringRoundTrip | timereport.py:91 | `str(n)` reads back as `n` |
| Text.StrLessTotal | timereport.py:89 | different keys are always ordered one way or the other |
| Text.StrLessTransitive | timereport.py:89 | string order is transitive |
| TaskPattern.MatchAtSound | timereport.py:21 | what the matcher finds at a start matches `[A-Z]{1,8}\-?[0-9]{1,8}` |
| TaskPattern.MatchAtLongest | timereport.py:21 | no match at that start is longer than the one the matcher finds |
| TaskPattern.SearchFromFacts | timereport.py:46-49 | the search returns the leftmost match, the longest at its start, or nothing when no substring matches |
| TaskPattern.DefaultTaskFacts | timereport.py:46-49 | `rex_task.search(message).group(0)` with the default pattern is the leftmost-longest match in the message, or none |
| Scenarios.SameHourSameTask | timereport.py:56-67 | two commits in one hour for one task, budget 8: one work of 8.0 hours |
| Scenarios.SameHourTwoTasks | timereport.py:56-67 | two commits in one hour for two tasks, budget 8: two works of 4.0 hours |
| Scenarios.TwoHoursSameTask | timereport.py:56-67 | one commit in each of two hours for one task, budget 8: one work of 8.0 hours |
| Scenarios.OneDayRow | timereport.py:70-91 | one 8-hour work on 2024-03-07 grouped by day yields the row `("2024-03-07", "ABC-1", "8")` |

## Left out

- `get_parser`, `main` and command-line parsing are not modelled. Neither is printing the rows joined by `--sep`, nor reading the default email from the repository configuration.
- GitPython is not modelled. `repo.iter_commits()` is the input sequence of `Commit` values. Each commit carries the email, date and hour of its `authored_datetime` as already read, in the author's own time zone.
- `date.today()` is the `today` parameter, and `timedelta(days=delta)` is the whole number `delta`.
- `rex_task` is a function parameter `string -> Option<Task>` of `Collect` and `CollectCommits`, standing for `search(...)` followed by `group(0)`. Python's regular-expression engine in general is not modelled. `TaskPattern` covers only the default pattern, and a user-supplied `--task` pattern stays an opaque parameter.
- `Work.hours` and the ratios are Python floats but are modelled as exact reals. `Allocation.HoursConserved` and `Allocation.DaySummaryTotal` therefore state exact conservation, which the program only achieves up to floating-point rounding. `Text.RoundHalfEven` rounds the exact value, not the float.
- Combining the buckets of several repositories is not modelled: the program reads one repository (`path`) and has no merge step.
- `report` is a generator, and its laziness is not modelled. All grouping happens before the first row is yielded, so `ReportRows` returns either every row or the error.
- Reporting.ReportFails: an unsupported `group_by` raises only when there is at least one work, because the check sits inside the loop over `works`. With no works, `report` yields nothing and raises nothing.
- Collecting.RecencyBoundary: states that future-dated commits are kept only for `delta >= 0`. A negative `--delta` is accepted by the parser, and then future commits may be dropped as well.
- Hours of day are whole numbers as `authored_datetime.hour` gives them. The model does not restrict them to 0..23, because nothing in the core depends on that range.
- `calculate_works` divides by `len(day)` and `len(tasks)`. Well-formed buckets make both non-zero. `Allocation.Works` requires well-formed buckets, and `Collecting.CollectCommits` guarantees them.
- `isocalendar()`, `toordinal()` and `str(date)` are re-implemented after CPython's algorithms. The model covers dates from year 1 to 9999, which is the range `datetime.date` allows.
