# pbs-monitor in Dafny

A model of pbs-monitor, the two scripts that record and report the workload of a PBS cluster.

- **The collector**, `bin/pbs_monitor.py`. Each poll decodes the `pbsnodes` and `qstat` JSON documents. It appends one node row per entry of the nodes document and one job row per entry of the `Jobs` object, all stamped with the poll's timestamp. Each job row keeps:
  - the owner before its `@`, as the user;
  - the execution host before its `/`, as the machine;
  - `stime` verbatim, as the start time.
- **The report**, `bin/pbs_stats.py`. It builds a WHERE clause from the user and machine filters, with a guard against NULL. It groups the matching job rows by (user, machine) and orders the groups by count, descending. It then keeps each group whose start time, parsed from the scheduler's `%a %b %d %H:%M:%S %Y` text, falls inside the window of the last N days. It returns the kept groups, their total and a period line.

The model has seven modules:

| file | module | models |
|---|---|---|
| `wrappers.dfy` | `Wrappers` | `Option`, `Result`, `Outcome` |
| `text.dfy` | `Text` | `str.split(sep)[0]`, decimal digits, `str(int)`, `int(str)`, text order (SQLite's BINARY collation) and `MIN` |
| `calendar.dfy` | `Calendar` | proleptic Gregorian dates, `toordinal`, `fromordinal` and microsecond instants, so that `datetime - datetime` and `- timedelta(days=n)` are integer arithmetic |
| `pbs_dates.dfy` | `PbsDates` | `parse_pbs_date` (strptime with English names) and `format_pbs_date` (strftime `%Y-%m-%d`) |
| `schema.dfy` | `Schema` | decoded JSON values; Python dicts as `json.loads` builds them; the rows of the two tables `init_db` creates |
| `collector.dfy` | `Collector` | the normalisation of `collect_data`, and a `Store` class whose `nodes` and `jobs` fields are the two tables |
| `job_stats.dfy` | `JobStats` | `get_job_stats` |

Neither script has a duplicate-suppression window for polls, a live query path, a per-job detail view or walltime parsing. In particular every poll appends, with no duplicate check (`Collector.NoDeduplication`).

Three of SQLite's behaviours are modelled as written in the source:

- **Text order.** `MIN(start_time)` compares text, not dates. So the "Complete history" line names the date of the alphabetically first start time, such as a `Fri ...` before a `Mon ...`. It says "unknown date" whenever some row's start time is empty.
- **Window and counts.** The window is applied to one start time per group, and the group's count covers its whole history.
- **SQLite's free choices.** SQLite does not specify which row supplies a group's bare `start_time` column, nor the order of equal counts. For that reason the grouped query's answer is a parameter `fetched` of `GetJobStats`. `IsGroupedQuery` states every answer SQLite may give, and `GroupedQueryRealizable` shows that such an answer exists.

## Model

| member | source | states |
|---|---|---|
| Text.BeforeFirst | bin/pbs_monitor.py:62-63 | `split(sep)[0]`: a prefix of the text without `sep`, followed in the text by `sep` unless it is the whole text |
| Text.BeforeFirstUnique | bin/pbs_monitor.py:62-63 | only one prefix has those properties |
| Text.ZeroPad | bin/pbs_stats.py:22 | a fixed-width, zero-padded run of digits whose value is the number |
| Text.NatString | bin/pbs_stats.py:57 | `str(n)` for n ≥ 0: digits with the value n and no leading zero |
| Text.DecimalString | bin/pbs_stats.py:57 | `str(n)` for any int, `-` before the digits of a negative one; read back by `PyIntOfDecimalString` |
| Text.PyInt | bin/pbs_stats.py:54 | `int(s)` on text: surrounding whitespace, an optional sign, digits with single underscores; None for the ValueError; its round trip is `PyIntOfDecimalString` |
| Text.PyIntOfDecimalString | bin/pbs_stats.py:54 | `int(str(n)) == n` for every int, negative ones included |
| Text.LexLe | bin/pbs_stats.py:49 | the code-point order on text that SQLite's MIN uses; total, transitive and antisymmetric by the next three lemmas |
| Text.LexLeTotal | bin/pbs_stats.py:49 | the text order used by MIN is total |
| Text.LexLeTransitive | bin/pbs_stats.py:49 | the text order is transitive |
| Text.LexLeAntisymmetric | bin/pbs_stats.py:49 | the text order is antisymmetric |
| Text.MinText | bin/pbs_stats.py:49-50 | MIN is NULL exactly for no values; otherwise it is one of the values and precedes all of them |
| Calendar.FromOrdinal | bin/pbs_stats.py:55-57 | `date.fromordinal`: a valid date with the given ordinal |
| Calendar.OrdinalInRange | bin/pbs_stats.py:55-57 | every date of years 1 to 9999 has an ordinal from 1 to 3652059 |
| Calendar.OrdinalRoundTrip | bin/pbs_stats.py:55-57 | `fromordinal(toordinal(d)) == d` |
| Calendar.Ordinal | bin/pbs_stats.py:55-57 | `date.toordinal()`; its range and inverse are stated by `OrdinalInRange` and `OrdinalRoundTrip` |
| Calendar.TimeOfDay | bin/pbs_stats.py:82 | the microseconds since midnight, below one day's worth |
| Calendar.Micros | bin/pbs_stats.py:82 | a datetime as an instant in microseconds; its order is stated by `MicrosOrdered` |
| Calendar.MicrosOrdered | bin/pbs_stats.py:82 | one instant precedes another exactly when its day is earlier, or the day is the same and its time of day is earlier; on one day the difference of instants is the difference of times of day; equal instants are equal datetimes |
| PbsDates.NameIndex | bin/pbs_stats.py:15 | `%a`/`%b`: a name matches, ignoring case, the entry at the index returned; no name means no match |
| PbsDates.ParsePbsText | bin/pbs_stats.py:14-17 | strptime either fails (None) or gives a valid datetime with zero microseconds; exactly which texts it accepts, and to what, is stated by `ParsePbsTextSound` and `ParsePbsTextComplete` |
| PbsDates.FieldSound | bin/pbs_stats.py:15 | an accepted `%d`/`%H`/`%M`/`%S` field is one or two digits worth the value read, followed by its separator |
| PbsDates.ParseNumbersFields | bin/pbs_stats.py:15-17 | an accepted numeric tail is read field by field: day, hour, minute, second, then four digits worth the year |
| PbsDates.FieldsSpell | bin/pbs_stats.py:15 | fields read in that order spell the datetime's day, time and year |
| PbsDates.ParseNumbersSound | bin/pbs_stats.py:15-17 | an accepted numeric tail keeps the month given and spells the day, time and year of the result |
| PbsDates.ParsePbsTextSound | bin/pbs_stats.py:14-17 | every text strptime accepts is a weekday name, a space, the result's month name (ignoring case), a space, then one- or two-digit day, hour, minute and second and a four-digit year worth the result's fields |
| PbsDates.NameIndexOfSame | bin/pbs_stats.py:15 | `%b` finds a month name spelled in any letter case at its own index, as the month names are distinct |
| PbsDates.FieldComplete | bin/pbs_stats.py:15 | a one- or two-digit field followed by its separator reads as its value |
| PbsDates.ParseNumbersComplete | bin/pbs_stats.py:15-17 | day, time and year fields that spell a real date and time, one- or two-digit, parse to it in its month |
| PbsDates.ParseNamesThen | bin/pbs_stats.py:15 | past `%a` and `%b` matched in any letter case, the parse is the numeric parse of the tail in that month |
| PbsDates.ParsePbsTextComplete | bin/pbs_stats.py:14-17 | every text of the format's shape (any letter case in the names, one- or two-digit fields, single spaces) that names a real date and time parses to that datetime |
| PbsDates.ParsePbsDate | bin/pbs_stats.py:10-17 | a NULL or empty value gives None; a result is always a valid datetime |
| PbsDates.IsoDate | bin/pbs_stats.py:57 | `strftime('%Y-%m-%d')`: 10 characters, dashes at 4 and 7, digit fields worth year, month and day |
| PbsDates.FormatPbsDate | bin/pbs_stats.py:19-22 | "N/A" exactly when parsing fails; otherwise the parsed year, month and day as `YYYY-MM-DD` |
| PbsDates.MonthNameIndex | bin/pbs_stats.py:15 | each month name reads back as its own month |
| PbsDates.ParsePaddedNumbers | bin/pbs_stats.py:15-17 | zero-padded day, time and year fields read back as themselves, subject to the range checks |
| PbsDates.ParseHeader | bin/pbs_stats.py:15 | past a weekday name and a month name, the parse is decided by the numeric fields |
| PbsDates.ParsePbsFields | bin/pbs_stats.py:10-17 | on the zero-padded layout with single spaces, the parse succeeds exactly for a real date and time (no Feb 30, second 60 or year 0) and returns its fields |
| PbsDates.ParsePbsTextRoundTrip | bin/pbs_stats.py:10-17 | `parse_pbs_date` reads back the zero-padded text of any datetime, whatever weekday name is printed |
| PbsDates.FormatPbsDateOfText | bin/pbs_stats.py:19-22 | `format_pbs_date` of the zero-padded text is the instant's ISO date |
| Schema.Truthy | bin/pbs_monitor.py:63 | Python truthiness of a decoded JSON value: false exactly for null, false, 0, "", [] and {} |
| Schema.HasKeyCons | bin/pbs_monitor.py:54 | a key is in a dict with a first entry exactly when it is that entry's key or in the rest |
| Schema.Lookup | bin/pbs_monitor.py:62-64 | `dict.get`: None exactly for a missing key; otherwise a value stored under that key |
| Schema.Assign | bin/pbs_monitor.py:54 | `d[k] = v` keeps keys unique; k becomes present with value v; no other lookup changes; the size grows only for a new key |
| Schema.AssignOrder | bin/pbs_monitor.py:54 | `d[k] = v` appends a new key at the end; an existing key keeps its place and no key moves |
| Schema.LookupAt | bin/pbs_monitor.py:55 | iterating a dict yields each key with the value stored for it |
| Schema.DictOf | bin/pbs_monitor.py:54 | the dict `json.loads` builds has unique keys, namely the document's member names |
| Schema.LookupDictOf | bin/pbs_monitor.py:60 | a repeated member name takes the last value in the document |
| Collector.OwnerUser | bin/pbs_monitor.py:62 | raises exactly for an owner that is present and not text; otherwise the owner's text before its first `@`, "" when absent |
| Collector.ExecMachine | bin/pbs_monitor.py:63 | raises exactly for a truthy exec_host that is not text; NULL exactly for a missing or falsy one; otherwise the host's text before its first `/` |
| Collector.StartTime | bin/pbs_monitor.py:64 | raises exactly for an stime that is neither text nor null; NULL for null; otherwise the text, "" when absent |
| Collector.NormalizeJob | bin/pbs_monitor.py:61-67 | a job that is not an object raises; a row carries the timestamp, the job id, the job's attributes and a non-NULL user |
| Collector.NormalizeJobSucceeds | bin/pbs_monitor.py:61-67 | normalising a job raises exactly when the job is not an object, the owner is not text, a truthy exec_host is not text, or stime cannot be stored |
| Collector.NormalizeJobSpec | bin/pbs_monitor.py:62-67 | a job row: the poll's timestamp and the job id; the user before the first `@` (never NULL, "" when absent); the machine before the first `/`, NULL exactly when exec_host is missing or falsy (null, "", 0, false, [] or {}); stime verbatim, "" when absent; the job's own attributes |
| Collector.NodeRows | bin/pbs_monitor.py:55-57 | one node row per dict entry, in order: the timestamp, the node name and its attributes |
| Collector.MapSucceeds | bin/pbs_monitor.py:61-67 | a loop that stops at the first exception completes exactly when every element succeeds |
| Collector.MapValues | bin/pbs_monitor.py:61-67 | a completed loop yields one value per element, in order |
| Collector.MapFailureSticks | bin/pbs_monitor.py:61-67 | once a prefix raises, the whole loop raises that exception |
| Collector.JobRows | bin/pbs_monitor.py:61-67 | the jobs loop as a value: the rows in order or the first exception; stated by `JobRowsSucceeds`, `JobRowsSpec` and `FirstFailure` |
| Collector.FirstFailure | bin/pbs_monitor.py:61-67 | the first entry that raises is unique, and the loop raises its exception |
| Collector.JobRowsSucceeds | bin/pbs_monitor.py:61-67 | the jobs loop completes exactly when every job normalises |
| Collector.JobRowsSpec | bin/pbs_monitor.py:61-67 | the job rows are the jobs' normalisations, one per entry, in order |
| Collector.JobEntries | bin/pbs_monitor.py:60 | `.get('Jobs', {})`: raises exactly when the document or its `Jobs` member is not an object; a dict with unique keys, the job ids under `Jobs`, empty when `Jobs` is missing |
| Collector.PollRows | bin/pbs_monitor.py:53-67 | a poll fails when a document is not an object; on success it yields one node row per node and one job row per job |
| Collector.NodeRowsPerKey | bin/pbs_monitor.py:55-57 | exactly one node row per node name of the dict, none for any other name |
| Collector.JobRowsPerKey | bin/pbs_monitor.py:61-67 | exactly one job row per job id of the dict, none for any other id |
| Collector.PollRowsPerKey | bin/pbs_monitor.py:53-67 | a successful poll writes one node row per key of the nodes document and one job row per job under `Jobs`; a missing `Jobs` writes none |
| Collector.PollNodeRows | bin/pbs_monitor.py:54-57 | every node row of a poll carries its timestamp and the node's attributes, the last of repeated keys |
| Collector.PollJobRows | bin/pbs_monitor.py:60-67 | every job row of a poll carries its timestamp, a listed job id with that job's attributes, and a non-NULL user without `@` |
| Collector.PollSuccessIgnoresTimestamp | bin/pbs_monitor.py:35-67 | whether a poll succeeds depends only on the documents |
| Collector.NoDeduplication | bin/pbs_monitor.py:56-67 | two successful polls of the same documents leave two rows for every listed job |
| Collector.Store.constructor | bin/pbs_monitor.py:14-29 | `init_db` on a new database: both tables are empty |
| Collector.Store.InsertNodes | bin/pbs_monitor.py:55-57 | the nodes table is extended by exactly the poll's node rows; the jobs table is unchanged |
| Collector.Store.InsertJobs | bin/pbs_monitor.py:61-67 | the jobs table is extended by the job rows; on an exception, which is the first entry's that raises, it is extended by exactly the rows of the entries before that one; the nodes table is unchanged |
| Collector.Store.Poll | bin/pbs_monitor.py:49-70 | success: both tables are extended, earlier rows kept as a prefix; exception: both tables are as before (nothing was committed) |
| JobStats.WhereConditions | bin/pbs_stats.py:30-45 | the conditions list is never empty and ends with the NULL guard; it has a user clause exactly when a user is given, and likewise for machine |
| JobStats.WhereMeaning | bin/pbs_stats.py:36-45 | the WHERE clause holds exactly for rows with a user and a machine that equal each filter given |
| JobStats.Matching | bin/pbs_stats.py:66-67 | the selected rows are exactly the table rows satisfying the clause, each as often as in the table |
| JobStats.IsGroupedQuery | bin/pbs_stats.py:60-70 | the answers SQLite may give: one row per occurring pair with its COUNT(*) and the start time of one of its rows, in non-increasing count order; realised by `GroupedQueryRealizable` |
| JobStats.CountIn | bin/pbs_stats.py:65 | COUNT(*) of a pair is at most the row count, and positive exactly when a row of the pair exists |
| JobStats.GroupedQueryRealizable | bin/pbs_stats.py:60-70 | over rows with non-NULL user and machine, the grouped, count-ordered answer exists |
| JobStats.MatchingIsGroupable | bin/pbs_stats.py:60-76 | the grouped query over the rows the WHERE clause selects has an answer |
| JobStats.ResolveWindow | bin/pbs_stats.py:48-54 | the days argument as a window: the whole history or a number of days; stated by `ResolveWindowSpec` |
| JobStats.ResolveWindowSpec | bin/pbs_stats.py:48-54 | only "all" selects the whole history; a missing, zero or empty argument means 7 days; other ints are kept; text that `int()` refuses is an error |
| JobStats.DaysTextRoundTrip | bin/pbs_stats.py:54 | `--days N` selects N days, for every int N |
| JobStats.WindowStart | bin/pbs_stats.py:55-56 | `now - timedelta(days=n)`: a valid datetime with ordinal n below now's, exactly n days earlier |
| JobStats.StartTimes | bin/pbs_stats.py:49 | MIN ranges over the non-NULL start times of the matching rows |
| JobStats.EarliestLabel | bin/pbs_stats.py:49-51 | the date in the "Complete history" line; stated by `EarliestLabelSpec` |
| JobStats.EarliestLabelSpec | bin/pbs_stats.py:48-52 | "unknown date" exactly when no matching row has a start time or some has an empty one; otherwise the format of the start time that sorts first as text |
| JobStats.Period | bin/pbs_stats.py:47-57 | the period line, or the overflow of the date arithmetic; stated by `PeriodLastDays` and `EarliestLabelSpec` |
| JobStats.PeriodLastDays | bin/pbs_stats.py:53-57 | the numeric period succeeds exactly when a valid date lies n days before today, and then names that date |
| JobStats.Keep | bin/pbs_stats.py:81-82 | the day-window test of one group; stated by `KeepSinceStart`, `KeepRendered` and `KeepMonotone` |
| JobStats.KeepSinceStart | bin/pbs_stats.py:82 | a numeric window keeps a group exactly when its start time parses to an instant no earlier than the window's start |
| JobStats.KeepRendered | bin/pbs_stats.py:81-82 | for zero-padded text, the window compares the written instant itself with now |
| JobStats.KeepMonotone | bin/pbs_stats.py:82 | a wider window keeps everything a narrower one keeps |
| JobStats.Summaries | bin/pbs_stats.py:80-89 | the results list; stated by `SummariesMembers` and `SummariesOrdered` |
| JobStats.Summarize | bin/pbs_stats.py:77-89 | the loop yields the summaries of the kept groups and the sum of their counts |
| JobStats.SummariesMembers | bin/pbs_stats.py:80-89 | a result is exactly the summary of a fetched group that the window keeps |
| JobStats.SummariesOrdered | bin/pbs_stats.py:80-89 | filtering keeps the pairs distinct and the counts non-increasing |
| JobStats.SumJobsOfSummaries | bin/pbs_stats.py:83 | the total is at most the sum of the fetched counts, and equal to it for the whole history |
| JobStats.SumCountsHits | bin/pbs_stats.py:65-68 | over distinct groups with their true counts, the counts add up to the number of rows they cover |
| JobStats.StatsOf | bin/pbs_stats.py:24-96 | the report; stated by `StatsOfParts`, `ResultsMatchFilters`, `ResultsOrdered`, `ResultsFollowWindow`, `TotalCountsMatchingRows` and `StatsErrors` |
| JobStats.GetJobStats | bin/pbs_stats.py:24-96 | given a fetched answer SQLite may give over the matching rows, the method returns the report `StatsOf` defines |
| JobStats.StatsOfParts | bin/pbs_stats.py:48-96 | a report succeeds exactly when the days argument and the period succeed; its results are the kept groups and its total their sum |
| JobStats.ResultsMatchFilters | bin/pbs_stats.py:36-89 | every result has the filtered user and machine, the pair's true positive count, and the formatted start time of one of its rows |
| JobStats.ResultsOrdered | bin/pbs_stats.py:68-89 | each (user, machine) pair appears once, in non-increasing job order |
| JobStats.ResultsFollowWindow | bin/pbs_stats.py:80-89 | a fetched group is reported exactly when the window keeps its start time |
| JobStats.TotalCountsMatchingRows | bin/pbs_stats.py:78-85 | total_jobs is at most the number of matching job rows, and exactly that number for the whole history |
| JobStats.AllTimeReportsEveryGroup | bin/pbs_stats.py:80-89 | over the whole history, every matching row's pair is reported |
| JobStats.StatsErrors | bin/pbs_stats.py:54-56 | the report raises only for days text that `int()` refuses, or for a window reaching outside years 1 to 9999 |

## Left out

- SQLite itself is not modelled: connections, cursors, SQL text, parameter binding, commit and close. The tables are sequences. The WHERE clause is a predicate. The grouped query's answer is the parameter `fetched`, constrained by `IsGroupedQuery`.
- Subprocess calls are left out: the `pbsnodes` and `qstat` invocations, the JSON backup files, and their failure modes. The decoded documents are parameters.
- JSON text is not modelled. `json.loads` output is the `Json` datatype, and `json.dumps` is the opaque `Blob` holding the value it encodes.
- The clock is a parameter: the poll's timestamp text and the report's `now`. `get_job_stats` calls `datetime.now()` once per row, and the model uses one `now` for the whole call.
- `JobStats.GetJobStats`: the row loop runs on the list the grouped query returned, not on a live cursor.
- `PbsDates.ParsePbsText`:
  - it accepts exactly one space between fields, where strptime's pattern accepts runs of whitespace;
  - `%d` reads one or two digits, while strptime also accepts a space and one digit; together these reject the ctime-padded `Thu Sep  5 14:30:45 2024`, which strptime accepts;
  - digits and letters are ASCII only, with no locale other than C/English.
- `PbsDates.IsoDate`: `%Y` is always four zero-padded digits. Some C libraries print years below 1000 unpadded.
- `Collector.StartTime`: an `stime` that is a JSON number or boolean is treated as an error. The source would store its text form.
- `Collector.NormalizeJobSucceeds`: inherits the same `stime` deviation from `StartTime`.
- Text that `json.loads` decodes to a lone surrogate (`"\ud800"`) makes the INSERTs raise UnicodeEncodeError. A Dafny `char` cannot hold a lone surrogate, so that exception is not modelled.
- `Text.PyInt` handles only ASCII digits and whitespace, not Unicode decimal digits.
- Duplicate member names inside a stored blob: the `Blob` keeps a dict's entries as decoded, duplicate member names at any depth included, so two documents that `json.dumps` encodes alike can give different blobs. The blob distinguishes more documents than the stored text does.
- `Text.PyInt`: CPython's default limit of 4300 digits on int/str conversion is not modelled. Longer `--days` text makes `int()` raise ValueError in the source, while the model reads the number.
- `Text.PyIntOfDecimalString`: holds for every int in the model; CPython's 4300-digit limit makes `str()`/`int()` raise for numbers that long.
- `JobStats.DaysTextRoundTrip`: for `--days` text above the 4300-digit limit the source raises ValueError, where the model reports `DateOutOfRange`.
- JSON floats NaN and Infinity are not modelled.
- `init_db` on an existing database keeps its tables (CREATE TABLE IF NOT EXISTS). The constructor models only a new database.
- Left out as the scripts' command-line plumbing: the printing of the report, the verbose debug lines, argument parsing and `main`.
