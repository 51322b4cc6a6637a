/** The report (bin/pbs_stats.py, get_job_stats): the WHERE clause built from the user and machine
    filters, the GROUP BY user, machine query ordered by job count, the day window applied to each
    group's start time, the total and the period line. The jobs table is a sequence of rows, the
    clock reading `now` is a parameter, and the grouped query's answer is a parameter `fetched`
    related to the table by IsGroupedQuery, because SQLite leaves two of its choices open. */
module JobStats {
  import opened Wrappers
  import opened Text
  import opened Calendar
  import opened PbsDates
  import opened Schema

  // ---------------------------------------------------------------------------------------------
  // The WHERE clause

  /** One conjunct of the WHERE clause: "user = ?", "machine = ?" or
      "user IS NOT NULL AND machine IS NOT NULL". */
  datatype Condition = UserIs(user: string) | MachineIs(machine: string) | BothNotNull

  /** Python truthiness of an optional str argument: None and "" both count as absent. */
  predicate Given(f: Option<string>)
  {
    f.Some? && f.value != ""
  }

  /** The conditions list in the order get_job_stats appends them. It is never empty, so the "1=1"
      fallback is never used. */
  function WhereConditions(user: Option<string>, machine: Option<string>): (cs: seq<Condition>)
    ensures |cs| > 0 && cs[|cs| - 1] == BothNotNull
    ensures (exists c :: c in cs && c.UserIs?) <==> Given(user)
    ensures (exists c :: c in cs && c.MachineIs?) <==> Given(machine)
  {
    var cs := (if Given(user) then [UserIs(user.value)] else [])
      + (if Given(machine) then [MachineIs(machine.value)] else [])
      + [BothNotNull];
    assert Given(user) ==> cs[0].UserIs?;
    assert Given(machine) ==> cs[|cs| - 2].MachineIs?;
    cs
  }

  /** SQL's verdict on one conjunct; a comparison with NULL is not true, so it rejects the row. */
  predicate Holds(c: Condition, row: JobRow)
  {
    match c
    case UserIs(u) => row.user == Some(u)
    case MachineIs(m) => row.machine == Some(m)
    case BothNotNull => row.user.Some? && row.machine.Some?
  }

  /** The conjuncts joined with AND. */
  predicate Satisfies(cs: seq<Condition>, row: JobRow)
  {
    forall c :: c in cs ==> Holds(c, row)
  }

  /** What the WHERE clause selects: rows with a user and a machine, equal to each filter given. */
  lemma WhereMeaning(user: Option<string>, machine: Option<string>, row: JobRow)
    ensures Satisfies(WhereConditions(user, machine), row) <==>
      && row.user.Some? && row.machine.Some?
      && (Given(user) ==> row.user == user)
      && (Given(machine) ==> row.machine == machine)
  {
    var cs := WhereConditions(user, machine);
    assert forall c :: c in cs ==>
      c == BothNotNull || (Given(user) && c == UserIs(user.value)) || (Given(machine) && c == MachineIs(machine.value));
    if Satisfies(cs, row) {
      assert Holds(cs[|cs| - 1], row);
      if Given(user) { assert Holds(cs[0], row); }
      if Given(machine) { assert Holds(cs[|cs| - 2], row); }
    }
  }

  /** The rows of the table the WHERE clause selects, in table order. */
  function Matching(table: seq<JobRow>, cs: seq<Condition>): (m: seq<JobRow>)
    ensures |m| <= |table|
    ensures forall r :: r in m <==> r in table && Satisfies(cs, r)
    ensures forall r :: multiset(m)[r] == if Satisfies(cs, r) then multiset(table)[r] else 0
  {
    if |table| == 0 then []
    else
      var init := table[..|table| - 1];
      var last := table[|table| - 1];
      assert table == init + [last];
      assert multiset(table) == multiset(init) + multiset{last};
      var m := Matching(init, cs);
      if Satisfies(cs, last) then m + [last] else m
  }

  // ---------------------------------------------------------------------------------------------
  // The grouped query

  /** A row of "SELECT user, machine, start_time, COUNT(*) ... GROUP BY user, machine". */
  datatype GroupRow = GroupRow(user: string, machine: string, startTime: Option<string>, jobCount: nat)

  predicate InGroup(r: JobRow, user: string, machine: string)
  {
    r.user == Some(user) && r.machine == Some(machine)
  }

  /** COUNT(*) of a group. */
  function CountIn(rows: seq<JobRow>, user: string, machine: string): (n: nat)
    ensures n <= |rows|
    ensures n > 0 <==> exists r :: r in rows && InGroup(r, user, machine)
  {
    if |rows| == 0 then 0
    else
      var init := rows[..|rows| - 1];
      var last := rows[|rows| - 1];
      assert rows == init + [last];
      CountIn(init, user, machine) + (if InGroup(last, user, machine) then 1 else 0)
  }

  /** No (user, machine) pair appears twice. */
  predicate DistinctGroups(gs: seq<GroupRow>)
  {
    forall i, j :: 0 <= i < j < |gs| ==> (gs[i].user, gs[i].machine) != (gs[j].user, gs[j].machine)
  }

  /** ORDER BY job_count DESC. */
  predicate NonIncreasing(gs: seq<GroupRow>)
  {
    forall i, j :: 0 <= i < j < |gs| ==> gs[i].jobCount >= gs[j].jobCount
  }

  /** What SQLite may answer to the grouped query over the matching rows: one row per (user, machine)
      pair that occurs, with the pair's COUNT(*), a start_time taken from some row of the pair (which
      one SQLite does not specify), ordered by count with ties in any order. */
  predicate IsGroupedQuery(matching: seq<JobRow>, fetched: seq<GroupRow>)
  {
    && DistinctGroups(fetched)
    && NonIncreasing(fetched)
    && TrueCounts(matching, fetched)
    && Representatives(matching, fetched)
    && CoversAll(matching, fetched)
  }

  /** Each group's count is COUNT(*) of its pair. */
  predicate TrueCounts(matching: seq<JobRow>, fetched: seq<GroupRow>)
  {
    forall g :: g in fetched ==> g.jobCount == CountIn(matching, g.user, g.machine)
  }

  /** Each group's start_time is that of one of its pair's rows. */
  predicate Representatives(matching: seq<JobRow>, fetched: seq<GroupRow>)
  {
    forall g :: g in fetched ==>
      exists r :: r in matching && InGroup(r, g.user, g.machine) && r.startTime == g.startTime
  }

  /** Whether some group of `gs` is the row's (user, machine) pair. */
  predicate Covered(r: JobRow, gs: seq<GroupRow>)
  {
    exists g :: g in gs && InGroup(r, g.user, g.machine)
  }

  /** Every row falls in one of the groups. */
  predicate CoversAll(rows: seq<JobRow>, gs: seq<GroupRow>)
  {
    |rows| == 0 || (Covered(rows[|rows| - 1], gs) && CoversAll(rows[..|rows| - 1], gs))
  }

  lemma {:induction false} CoversAllMeans(rows: seq<JobRow>, gs: seq<GroupRow>)
    ensures CoversAll(rows, gs) <==> forall r :: r in rows ==> Covered(r, gs)
  {
    if |rows| > 0 {
      CoversAllMeans(rows[..|rows| - 1], gs);
      assert rows == rows[..|rows| - 1] + [rows[|rows| - 1]];
    }
  }

  /** The (user, machine) pairs that occur, each once. */
  function GroupKeys(rows: seq<JobRow>): (ks: seq<(string, string)>)
    ensures forall i, j :: 0 <= i < j < |ks| ==> ks[i] != ks[j]
    ensures forall k :: k in ks <==> exists r :: r in rows && InGroup(r, k.0, k.1)
  {
    if |rows| == 0 then []
    else
      var init := rows[..|rows| - 1];
      var last := rows[|rows| - 1];
      assert rows == init + [last];
      var ks := GroupKeys(init);
      if last.user.Some? && last.machine.Some? && (last.user.value, last.machine.value) !in ks then
        assert InGroup(last, last.user.value, last.machine.value);
        ks + [(last.user.value, last.machine.value)]
      else ks
  }

  /** One admissible start_time for a group: the last row's. */
  function Representative(rows: seq<JobRow>, user: string, machine: string): (s: Option<string>)
    ensures (exists r :: r in rows && InGroup(r, user, machine)) ==>
      exists r :: r in rows && InGroup(r, user, machine) && r.startTime == s
  {
    if |rows| == 0 then None
    else
      var init := rows[..|rows| - 1];
      var last := rows[|rows| - 1];
      assert rows == init + [last];
      if InGroup(last, user, machine) then last.startTime else Representative(init, user, machine)
  }

  /** The group row for a pair, with the witness's choice of start_time. */
  function GroupOf(rows: seq<JobRow>, k: (string, string)): GroupRow
  {
    GroupRow(k.0, k.1, Representative(rows, k.0, k.1), CountIn(rows, k.0, k.1))
  }

  /** The groups whose count is exactly `c`, in the order of `ks`. */
  function Level(ks: seq<(string, string)>, rows: seq<JobRow>, c: nat): (level: seq<GroupRow>)
    requires forall i, j :: 0 <= i < j < |ks| ==> ks[i] != ks[j]
    ensures forall g :: g in level <==>
      (g.user, g.machine) in ks && CountIn(rows, g.user, g.machine) == c && g == GroupOf(rows, (g.user, g.machine))
    ensures DistinctGroups(level)
  {
    if |ks| == 0 then []
    else
      var init := ks[..|ks| - 1];
      var k := ks[|ks| - 1];
      assert ks == init + [k];
      var level := Level(init, rows, c);
      if CountIn(rows, k.0, k.1) == c then level + [GroupOf(rows, k)] else level
  }

  /** Groups of count `c` followed by disjoint groups of smaller counts stay distinct and ordered. */
  lemma ConcatLevels(top: seq<GroupRow>, rest: seq<GroupRow>, c: nat)
    requires DistinctGroups(top) && DistinctGroups(rest) && NonIncreasing(rest)
    requires forall g :: g in top ==> g.jobCount == c
    requires forall h :: h in rest ==> h.jobCount < c
    requires forall g, h :: g in top && h in rest ==> (g.user, g.machine) != (h.user, h.machine)
    ensures DistinctGroups(top + rest) && NonIncreasing(top + rest)
  {
    var gs := top + rest;
    forall i, j | 0 <= i < j < |gs|
      ensures gs[i].jobCount >= gs[j].jobCount
      ensures (gs[i].user, gs[i].machine) != (gs[j].user, gs[j].machine)
    {
      if j < |top| {
        assert gs[i] == top[i] && gs[j] == top[j];
      } else if i < |top| {
        assert gs[i] == top[i] && gs[j] == rest[j - |top|];
        assert top[i] in top && rest[j - |top|] in rest;
      } else {
        assert gs[i] == rest[i - |top|] && gs[j] == rest[j - |top|];
      }
    }
  }

  /** The groups with counts from `c` down to 1, highest first. */
  function Levels(ks: seq<(string, string)>, rows: seq<JobRow>, c: nat): (gs: seq<GroupRow>)
    requires forall i, j :: 0 <= i < j < |ks| ==> ks[i] != ks[j]
    ensures forall g :: g in gs <==>
      && (g.user, g.machine) in ks && 1 <= CountIn(rows, g.user, g.machine) <= c
      && g == GroupOf(rows, (g.user, g.machine))
    ensures DistinctGroups(gs) && NonIncreasing(gs)
  {
    if c == 0 then []
    else
      var top := Level(ks, rows, c);
      var rest := Levels(ks, rows, c - 1);
      ConcatLevels(top, rest, c);
      top + rest
  }

  /** One answer SQLite could give: the groups by falling count. */
  function GroupBy(rows: seq<JobRow>): seq<GroupRow>
  {
    Levels(GroupKeys(rows), rows, |rows|)
  }

  /** The grouped query always has an answer: IsGroupedQuery is not vacuous. */
  lemma GroupedQueryRealizable(rows: seq<JobRow>)
    requires forall r :: r in rows ==> r.user.Some? && r.machine.Some?
    ensures IsGroupedQuery(rows, GroupBy(rows))
  {
    var gs := GroupBy(rows);
    forall g | g in gs
      ensures exists r :: r in rows && InGroup(r, g.user, g.machine) && r.startTime == g.startTime
    {
      assert (g.user, g.machine) in GroupKeys(rows);
    }
    forall r | r in rows
      ensures Covered(r, gs)
    {
      var g := GroupOf(rows, (r.user.value, r.machine.value));
      assert InGroup(r, g.user, g.machine);
      assert g in gs;
    }
    CoversAllMeans(rows, gs);
  }

  // ---------------------------------------------------------------------------------------------
  // The days argument and the period line

  /** The days argument: None, an int, or the text given on the command line. */
  datatype DaysArg = NoDays | DaysInt(n: int) | DaysStr(s: string)

  /** The window the rows are filtered by: the whole history, or a number of days. */
  datatype Window = AllTime | LastDays(days: int)

  /** The exceptions: int() refusing the days text (ValueError), or the date arithmetic leaving the
      representable years (OverflowError). */
  datatype StatsError = DaysNotAnInteger | DateOutOfRange

  /** The text "all" selects the whole history; a missing or falsy argument means 7 days; any other
      argument is read as an integer number of days. */
  function ResolveWindow(days: DaysArg): Result<Window, StatsError>
  {
    match days
    case NoDays => Success(LastDays(7))
    case DaysInt(n) => Success(LastDays(if n == 0 then 7 else n))
    case DaysStr(s) =>
      if s == "all" then Success(AllTime)
      else if s == "" then Success(LastDays(7))
      else
        match PyInt(s)
        case None => Failure(DaysNotAnInteger)
        case Some(n) => Success(LastDays(n))
  }

  /** Only the text "all" selects the whole history; a missing, zero or empty argument means 7 days;
      any other int is taken as it is; text that int() refuses is an error. */
  lemma ResolveWindowSpec(days: DaysArg)
    ensures ResolveWindow(days) == Success(AllTime) <==> days == DaysStr("all")
    ensures days == NoDays || days == DaysInt(0) || days == DaysStr("") ==> ResolveWindow(days) == Success(LastDays(7))
    ensures days.DaysInt? && days.n != 0 ==> ResolveWindow(days) == Success(LastDays(days.n))
    ensures ResolveWindow(days).Failure? <==>
      days.DaysStr? && days.s != "all" && days.s != "" && PyInt(days.s).None?
    ensures ResolveWindow(days).Failure? ==> ResolveWindow(days).error == DaysNotAnInteger
  {
  }

  /** `--days N` on the command line selects N days, whatever N is. */
  lemma DaysTextRoundTrip(n: int)
    ensures ResolveWindow(DaysStr(DecimalString(n))) == Success(LastDays(n))
  {
    PyIntOfDecimalString(n);
    var s := DecimalString(n);
    assert s != "all" by {
      if n < 0 { assert s[0] == '-'; } else { assert IsDigit(s[0]); }
    }
  }

  /** The start of a window of n days: the same time of day as now, n days earlier. */
  function WindowStart(n: int, now: DateTime): (start: DateTime)
    requires now.Valid() && 1 <= Ordinal(now.date) - n <= MaxOrdinal
    ensures start.Valid()
    ensures Ordinal(start.date) + n == Ordinal(now.date)
    ensures Micros(now) - Micros(start) == n * MicrosPerDay
  {
    DateTime(FromOrdinal(Ordinal(now.date) - n), now.hour, now.minute, now.second, now.micro)
  }

  /** The non-NULL start times of the rows: what MIN(start_time) ranges over. */
  function StartTimes(rows: seq<JobRow>): (ts: seq<string>)
    ensures forall t :: t in ts <==> exists r :: r in rows && r.startTime == Some(t)
  {
    if |rows| == 0 then []
    else
      var init := rows[..|rows| - 1];
      var last := rows[|rows| - 1];
      assert rows == init + [last];
      StartTimes(init) + (if last.startTime.Some? then [last.startTime.value] else [])
  }

  /** The date in the complete-history line: the least start time as a date, or "unknown date" when
      there is no start time or the least one is empty. */
  function EarliestLabel(rows: seq<JobRow>): string
  {
    var m := MinText(StartTimes(rows));
    if m.None? || m.value == "" then "unknown date" else FormatPbsDate(Some(m.value))
  }

  /** The 'all' period names the date of the least start time as text, not the earliest instant;
      it reads "unknown date" exactly when no row has a start time or some row's start time is
      empty (the empty text sorts first). */
  lemma EarliestLabelSpec(rows: seq<JobRow>)
    ensures EarliestLabel(rows) == "unknown date" <==>
      (forall r :: r in rows ==> r.startTime.None?) || (exists r :: r in rows && r.startTime == Some(""))
    ensures EarliestLabel(rows) != "unknown date" ==>
      exists r :: r in rows && r.startTime.Some? && EarliestLabel(rows) == FormatPbsDate(r.startTime) &&
        forall q :: q in rows && q.startTime.Some? ==> LexLe(r.startTime.value, q.startTime.value)
  {
    var ts := StartTimes(rows);
    var m := MinText(ts);
    if m.Some? && m.value != "" {
      assert |FormatPbsDate(Some(m.value))| == 10 || FormatPbsDate(Some(m.value)) == "N/A";
      assert !exists r :: r in rows && r.startTime == Some("");
      var r :| r in rows && r.startTime == Some(m.value);
      forall q | q in rows && q.startTime.Some? ensures LexLe(m.value, q.startTime.value) {
        assert q.startTime.value in ts;
      }
    } else if m.Some? {
      assert exists r :: r in rows && r.startTime == Some(m.value);
    } else {
      assert |ts| == 0;
    }
  }

  /** The period line, or the error computing it raises. */
  function Period(w: Window, matching: seq<JobRow>, now: DateTime): Result<string, StatsError>
    requires now.Valid()
  {
    match w
    case AllTime => Success("Complete history (since " + EarliestLabel(matching) + ")")
    case LastDays(n) =>
      if 1 <= Ordinal(now.date) - n <= MaxOrdinal then
        Success("Last " + DecimalString(n) + " days (since " + IsoDate(WindowStart(n, now).date) + ")")
      else Failure(DateOutOfRange)
  }

  /** A numeric period fails exactly when the start date leaves years 1 to 9999; otherwise it names
      the date n days before today. */
  lemma PeriodLastDays(n: int, matching: seq<JobRow>, now: DateTime)
    requires now.Valid()
    ensures Period(LastDays(n), matching, now).Success? <==>
      exists d :: ValidDate(d) && Ordinal(d) + n == Ordinal(now.date)
    ensures Period(LastDays(n), matching, now).Success? ==>
      exists d :: ValidDate(d) && Ordinal(d) + n == Ordinal(now.date) &&
        Period(LastDays(n), matching, now).value == "Last " + DecimalString(n) + " days (since " + IsoDate(d) + ")"
  {
    if 1 <= Ordinal(now.date) - n <= MaxOrdinal {
      var d := WindowStart(n, now).date;
      assert ValidDate(d) && Ordinal(d) + n == Ordinal(now.date);
    } else {
      forall d | ValidDate(d) ensures Ordinal(d) + n != Ordinal(now.date) {
        OrdinalInRange(d);
      }
    }
  }

  // ---------------------------------------------------------------------------------------------
  // The day window

  /** Whether a group is reported: always for the whole history; for n days, when its start time
      parses and lies at most n days before now. */
  predicate Keep(w: Window, now: DateTime, startTime: Option<string>)
    requires now.Valid()
  {
    match w
    case AllTime => true
    case LastDays(n) =>
      var d := ParsePbsDate(startTime);
      d.Some? && Micros(now) - Micros(d.value) <= n * MicrosPerDay
  }

  /** A group is kept by a numeric window exactly when its start time parses to an instant no earlier
      than the period's start; a start time that does not parse is never kept. */
  lemma KeepSinceStart(n: int, now: DateTime, startTime: Option<string>)
    requires now.Valid() && 1 <= Ordinal(now.date) - n <= MaxOrdinal
    ensures Keep(LastDays(n), now, startTime) <==>
      ParsePbsDate(startTime).Some? && Micros(WindowStart(n, now)) <= Micros(ParsePbsDate(startTime).value)
  {
  }

  /** For the zero-padded text of an instant `t`, the window compares `t` itself with now. */
  lemma KeepRendered(n: int, now: DateTime, w: nat, t: DateTime)
    requires now.Valid() && w < 7 && t.Valid() && t.micro == 0
    ensures Keep(LastDays(n), now, Some(PbsText(w, t))) <==> Micros(now) - Micros(t) <= n * MicrosPerDay
  {
    ParsePbsTextRoundTrip(w, t);
  }

  /** A wider window keeps everything a narrower one keeps. */
  lemma KeepMonotone(n: int, m: int, now: DateTime, startTime: Option<string>)
    requires now.Valid() && n <= m && Keep(LastDays(n), now, startTime)
    ensures Keep(LastDays(m), now, startTime)
  {
  }

  // ---------------------------------------------------------------------------------------------
  // The results

  /** One entry of the results list. */
  datatype SummaryRow = SummaryRow(user: string, machine: string, jobs: nat, lastRun: string)

  function Summary(g: GroupRow): SummaryRow
  {
    SummaryRow(g.user, g.machine, g.jobCount, FormatPbsDate(g.startTime))
  }

  /** The results list: the kept groups in fetch order. */
  function Summaries(fetched: seq<GroupRow>, w: Window, now: DateTime): seq<SummaryRow>
    requires now.Valid()
  {
    if |fetched| == 0 then []
    else
      var g := fetched[|fetched| - 1];
      Summaries(fetched[..|fetched| - 1], w, now) + (if Keep(w, now, g.startTime) then [Summary(g)] else [])
  }

  function SumJobs(rs: seq<SummaryRow>): nat
  {
    if |rs| == 0 then 0 else SumJobs(rs[..|rs| - 1]) + rs[|rs| - 1].jobs
  }

  /** The dict get_job_stats returns. */
  datatype Stats = Stats(period: string, totalJobs: nat, results: seq<SummaryRow>)

  /** get_job_stats over the jobs table, with `fetched` the grouped query's answer. */
  function StatsOf(table: seq<JobRow>, days: DaysArg, user: Option<string>, machine: Option<string>,
                   now: DateTime, fetched: seq<GroupRow>): Result<Stats, StatsError>
    requires now.Valid()
  {
    match ResolveWindow(days)
    case Failure(e) => Failure(e)
    case Success(w) =>
      match Period(w, Matching(table, WhereConditions(user, machine)), now)
      case Failure(e) => Failure(e)
      case Success(p) =>
        var rs := Summaries(fetched, w, now);
        Success(Stats(p, SumJobs(rs), rs))
  }

  /** The loop over c.fetchall(): keep the groups inside the window and add up their counts. */
  method Summarize(fetched: seq<GroupRow>, window: Window, now: DateTime) returns (results: seq<SummaryRow>, total: nat)
    requires now.Valid()
    ensures results == Summaries(fetched, window, now)
    ensures total == SumJobs(results)
  {
    results, total := [], 0;
    for i := 0 to |fetched|
      invariant results == Summaries(fetched[..i], window, now)
      invariant total == SumJobs(results)
    {
      var g := fetched[i];
      assert fetched[..i + 1][..i] == fetched[..i];
      if Keep(window, now, g.startTime) {
        total := total + g.jobCount;
        assert (results + [Summary(g)])[..|results|] == results;
        results := results + [Summary(g)];
      }
    }
    assert fetched[..|fetched|] == fetched;
  }

  /** get_job_stats: builds the conditions, resolves the days argument and the period, then walks the
      fetched groups, keeping those inside the window and adding up their counts. */
  method GetJobStats(table: seq<JobRow>, days: DaysArg, user: Option<string>, machine: Option<string>,
                     now: DateTime, fetched: seq<GroupRow>) returns (r: Result<Stats, StatsError>)
    requires now.Valid()
    requires IsGroupedQuery(Matching(table, WhereConditions(user, machine)), fetched)
    ensures r == StatsOf(table, days, user, machine, now, fetched)
  {
    var conditions: seq<Condition> := [];
    if Given(user) {
      conditions := conditions + [UserIs(user.value)];
    }
    if Given(machine) {
      conditions := conditions + [MachineIs(machine.value)];
    }
    conditions := conditions + [BothNotNull];
    assert conditions == WhereConditions(user, machine);
    var resolved := ResolveWindow(days);
    if resolved.Failure? {
      return Failure(resolved.error);
    }
    var window := resolved.value;
    var period := Period(window, Matching(table, conditions), now);
    if period.Failure? {
      return Failure(period.error);
    }
    var results, total := Summarize(fetched, window, now);
    return Success(Stats(period.value, total, results));
  }

  // ---------------------------------------------------------------------------------------------
  // What the report promises

  /** The grouped query over the rows the WHERE clause selects has an answer. */
  lemma MatchingIsGroupable(table: seq<JobRow>, user: Option<string>, machine: Option<string>)
    ensures IsGroupedQuery(Matching(table, WhereConditions(user, machine)), GroupBy(Matching(table, WhereConditions(user, machine))))
  {
    var m := Matching(table, WhereConditions(user, machine));
    forall r | r in m ensures r.user.Some? && r.machine.Some? {
      WhereMeaning(user, machine, r);
    }
    GroupedQueryRealizable(m);
  }

  predicate DistinctSummaries(rs: seq<SummaryRow>)
  {
    forall i, j :: 0 <= i < j < |rs| ==> (rs[i].user, rs[i].machine) != (rs[j].user, rs[j].machine)
  }

  predicate NonIncreasingJobs(rs: seq<SummaryRow>)
  {
    forall i, j :: 0 <= i < j < |rs| ==> rs[i].jobs >= rs[j].jobs
  }

  /** The results are the summaries of exactly the kept groups. */
  lemma {:induction false} SummariesMembers(fetched: seq<GroupRow>, w: Window, now: DateTime)
    requires now.Valid()
    ensures forall s :: s in Summaries(fetched, w, now) <==>
      exists g :: g in fetched && Keep(w, now, g.startTime) && s == Summary(g)
  {
    if |fetched| > 0 {
      var init := fetched[..|fetched| - 1];
      SummariesMembers(init, w, now);
      assert fetched == init + [fetched[|fetched| - 1]];
    }
  }

  /** Filtering keeps the groups distinct and in the query's order. */
  lemma {:induction false} SummariesOrdered(fetched: seq<GroupRow>, w: Window, now: DateTime)
    requires now.Valid() && DistinctGroups(fetched) && NonIncreasing(fetched)
    ensures DistinctSummaries(Summaries(fetched, w, now)) && NonIncreasingJobs(Summaries(fetched, w, now))
  {
    if |fetched| > 0 {
      var init := fetched[..|fetched| - 1];
      var g := fetched[|fetched| - 1];
      assert forall i :: 0 <= i < |init| ==> init[i] == fetched[i];
      SummariesOrdered(init, w, now);
      SummariesMembers(init, w, now);
      var before := Summaries(init, w, now);
      if Keep(w, now, g.startTime) {
        forall i | 0 <= i < |before|
          ensures (before[i].user, before[i].machine) != (g.user, g.machine) && before[i].jobs >= g.jobCount
        {
          assert before[i] in before;
          var h :| h in init && Keep(w, now, h.startTime) && before[i] == Summary(h);
          var k :| 0 <= k < |init| && init[k] == h;
          assert fetched[k] == h;
        }
      } else {
        assert Summaries(fetched, w, now) == before;
      }
    }
  }

  function SumCounts(gs: seq<GroupRow>): nat
  {
    if |gs| == 0 then 0 else SumCounts(gs[..|gs| - 1]) + gs[|gs| - 1].jobCount
  }

  /** The total is at most the fetched counts' sum, and equal to it over the whole history. */
  lemma {:induction false} SumJobsOfSummaries(fetched: seq<GroupRow>, w: Window, now: DateTime)
    requires now.Valid()
    ensures SumJobs(Summaries(fetched, w, now)) <= SumCounts(fetched)
    ensures w == AllTime ==> SumJobs(Summaries(fetched, w, now)) == SumCounts(fetched)
    ensures w == AllTime ==> |Summaries(fetched, w, now)| == |fetched|
  {
    if |fetched| > 0 {
      var init := fetched[..|fetched| - 1];
      var g := fetched[|fetched| - 1];
      SumJobsOfSummaries(init, w, now);
      var before := Summaries(init, w, now);
      if Keep(w, now, g.startTime) {
        assert (before + [Summary(g)])[..|before|] == before;
      } else {
        assert Summaries(fetched, w, now) == before;
      }
    }
  }

  /** The number of rows that fall in one of the groups. */
  function Hits(rows: seq<JobRow>, gs: seq<GroupRow>): (n: nat)
    ensures n <= |rows|
    ensures (forall r :: r in rows ==> Covered(r, gs)) ==> n == |rows|
    ensures |gs| == 0 ==> n == 0
  {
    if |rows| == 0 then 0
    else
      var init := rows[..|rows| - 1];
      var last := rows[|rows| - 1];
      assert rows == init + [last];
      Hits(init, gs) + (if Covered(last, gs) then 1 else 0)
  }

  lemma {:induction false} HitsSnoc(rows: seq<JobRow>, gs: seq<GroupRow>, g: GroupRow)
    requires forall h :: h in gs ==> (h.user, h.machine) != (g.user, g.machine)
    ensures Hits(rows, gs + [g]) == Hits(rows, gs) + CountIn(rows, g.user, g.machine)
  {
    if |rows| > 0 {
      var init := rows[..|rows| - 1];
      var r := rows[|rows| - 1];
      HitsSnoc(init, gs, g);
      assert Covered(r, gs + [g]) <==> Covered(r, gs) || InGroup(r, g.user, g.machine) by {
        if Covered(r, gs + [g]) {
          var h :| h in gs + [g] && InGroup(r, h.user, h.machine);
          assert h in gs || h == g;
        }
        if InGroup(r, g.user, g.machine) {
          assert g in gs + [g];
        }
      }
    }
  }

  /** Over distinct groups with their true counts, the counts add up to the rows they cover. */
  lemma {:induction false} SumCountsHits(rows: seq<JobRow>, gs: seq<GroupRow>)
    requires DistinctGroups(gs) && TrueCounts(rows, gs)
    ensures SumCounts(gs) == Hits(rows, gs)
  {
    if |gs| > 0 {
      var init := gs[..|gs| - 1];
      var g := gs[|gs| - 1];
      assert gs == init + [g];
      assert forall i :: 0 <= i < |init| ==> init[i] == gs[i];
      assert g in gs && forall h :: h in init ==> h in gs;
      SumCountsHits(rows, init);
      forall h | h in init ensures (h.user, h.machine) != (g.user, g.machine) {
        var k :| 0 <= k < |init| && init[k] == h;
      }
      HitsSnoc(rows, init, g);
      assert SumCounts(gs) == SumCounts(init) + g.jobCount;
      assert g.jobCount == CountIn(rows, g.user, g.machine);
    }
  }

  /** A successful report's results are the summaries of the fetched groups the resolved window
      keeps, and its total is their job counts' sum. */
  lemma StatsOfParts(table: seq<JobRow>, days: DaysArg, user: Option<string>, machine: Option<string>,
                     now: DateTime, fetched: seq<GroupRow>)
    requires now.Valid()
    ensures StatsOf(table, days, user, machine, now, fetched).Success? <==>
      && ResolveWindow(days).Success?
      && Period(ResolveWindow(days).value, Matching(table, WhereConditions(user, machine)), now).Success?
    ensures StatsOf(table, days, user, machine, now, fetched).Success? ==>
      && StatsOf(table, days, user, machine, now, fetched).value.results == Summaries(fetched, ResolveWindow(days).value, now)
      && StatsOf(table, days, user, machine, now, fetched).value.totalJobs ==
           SumJobs(StatsOf(table, days, user, machine, now, fetched).value.results)
  {
  }

  /** Every result is a (user, machine) pair the filters allow, with the pair's number of job rows
      and the date of one of its rows' start times. */
  lemma ResultsMatchFilters(table: seq<JobRow>, user: Option<string>, machine: Option<string>,
                            w: Window, now: DateTime, fetched: seq<GroupRow>)
    requires now.Valid()
    requires IsGroupedQuery(Matching(table, WhereConditions(user, machine)), fetched)
    ensures forall s :: s in Summaries(fetched, w, now) ==>
      && (Given(user) ==> s.user == user.value)
      && (Given(machine) ==> s.machine == machine.value)
      && s.jobs == CountIn(Matching(table, WhereConditions(user, machine)), s.user, s.machine) && s.jobs > 0
      && exists r :: r in Matching(table, WhereConditions(user, machine)) && InGroup(r, s.user, s.machine) &&
           s.lastRun == FormatPbsDate(r.startTime)
  {
    var m := Matching(table, WhereConditions(user, machine));
    SummariesMembers(fetched, w, now);
    forall s | s in Summaries(fetched, w, now)
      ensures && (Given(user) ==> s.user == user.value)
              && (Given(machine) ==> s.machine == machine.value)
              && s.jobs == CountIn(m, s.user, s.machine) && s.jobs > 0
              && exists r :: r in m && InGroup(r, s.user, s.machine) && s.lastRun == FormatPbsDate(r.startTime)
    {
      var g :| g in fetched && Keep(w, now, g.startTime) && s == Summary(g);
      var r :| r in m && InGroup(r, g.user, g.machine) && r.startTime == g.startTime;
      WhereMeaning(user, machine, r);
    }
  }

  /** The results hold each pair once, by falling job count. */
  lemma ResultsOrdered(matching: seq<JobRow>, w: Window, now: DateTime, fetched: seq<GroupRow>)
    requires now.Valid() && IsGroupedQuery(matching, fetched)
    ensures DistinctSummaries(Summaries(fetched, w, now)) && NonIncreasingJobs(Summaries(fetched, w, now))
  {
    SummariesOrdered(fetched, w, now);
  }

  /** A fetched group is reported exactly when the window keeps its start time. */
  lemma ResultsFollowWindow(matching: seq<JobRow>, w: Window, now: DateTime, fetched: seq<GroupRow>)
    requires now.Valid() && IsGroupedQuery(matching, fetched)
    ensures forall g :: g in fetched ==> (Summary(g) in Summaries(fetched, w, now) <==> Keep(w, now, g.startTime))
  {
    SummariesMembers(fetched, w, now);
    forall g | g in fetched && Summary(g) in Summaries(fetched, w, now) ensures Keep(w, now, g.startTime) {
      var h :| h in fetched && Keep(w, now, h.startTime) && Summary(g) == Summary(h);
      var i :| 0 <= i < |fetched| && fetched[i] == g;
      var j :| 0 <= j < |fetched| && fetched[j] == h;
      assert i == j;
    }
  }

  /** total_jobs never exceeds the number of matching job rows, and over the whole history it is
      that number. */
  lemma TotalCountsMatchingRows(matching: seq<JobRow>, w: Window, now: DateTime, fetched: seq<GroupRow>)
    requires now.Valid()
    requires DistinctGroups(fetched) && TrueCounts(matching, fetched) && CoversAll(matching, fetched)
    ensures SumJobs(Summaries(fetched, w, now)) <= |matching|
    ensures w == AllTime ==> SumJobs(Summaries(fetched, w, now)) == |matching|
  {
    SumJobsOfSummaries(fetched, w, now);
    SumCountsHits(matching, fetched);
    CoversAllMeans(matching, fetched);
  }

  /** Over the whole history every matching row's (user, machine) pair is reported. */
  lemma AllTimeReportsEveryGroup(matching: seq<JobRow>, now: DateTime, fetched: seq<GroupRow>)
    requires now.Valid() && CoversAll(matching, fetched)
    ensures forall r :: r in matching ==>
      exists s :: s in Summaries(fetched, AllTime, now) && InGroup(r, s.user, s.machine)
  {
    CoversAllMeans(matching, fetched);
    SummariesMembers(fetched, AllTime, now);
    forall r | r in matching
      ensures exists s :: s in Summaries(fetched, AllTime, now) && InGroup(r, s.user, s.machine)
    {
      var g :| g in fetched && InGroup(r, g.user, g.machine);
      assert Summary(g) in Summaries(fetched, AllTime, now);
    }
  }

  /** get_job_stats fails only on a days text int() refuses, or on a window reaching outside years
      1 to 9999. */
  lemma StatsErrors(table: seq<JobRow>, days: DaysArg, user: Option<string>, machine: Option<string>,
                    now: DateTime, fetched: seq<GroupRow>)
    requires now.Valid()
    ensures StatsOf(table, days, user, machine, now, fetched) == Failure(DaysNotAnInteger) <==>
      days.DaysStr? && days.s != "all" && days.s != "" && PyInt(days.s).None?
    ensures StatsOf(table, days, user, machine, now, fetched) == Failure(DateOutOfRange) <==>
      ResolveWindow(days).Success? && ResolveWindow(days).value.LastDays? &&
      !(1 <= Ordinal(now.date) - ResolveWindow(days).value.days <= MaxOrdinal)
    ensures StatsOf(table, days, user, machine, now, fetched).Failure? ==>
      StatsOf(table, days, user, machine, now, fetched).error in {DaysNotAnInteger, DateOutOfRange}
  {
  }
}
