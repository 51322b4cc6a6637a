/** The collector's normalisation and append step (bin/pbs_monitor.py, collect_data): one poll turns
    the decoded pbsnodes and qstat documents into node rows and job rows stamped with the poll's
    timestamp and appends them to the two tables. */
module Collector {
  import opened Wrappers
  import opened Text
  import opened Schema

  /** The exceptions a poll can raise once the documents are decoded: an AttributeError on a value
      that is not a dict or not a str, or sqlite3's refusal to bind a list or dict. */
  datatype PollError = NotAnObject(what: string) | NotText(field: string) | CannotBind(field: string)

  /** An attribute of a decoded job object, as job_info.get(k) returns it. */
  function Attr(info: Json, k: string): Option<Json>
    requires info.JObject?
  {
    Lookup(DictOf(info.members), k)
  }

  /** The user column: the owner's text before its first '@', or "" when the job has no owner. */
  function OwnerUser(info: Json): (r: Result<string, PollError>)
    requires info.JObject?
    ensures r.Failure? <==> Attr(info, "Job_Owner").Some? && !Attr(info, "Job_Owner").value.JString?
    ensures r.Success? ==> '@' !in r.value
    ensures r.Success? && Attr(info, "Job_Owner").None? ==> r.value == ""
    ensures r.Success? && Attr(info, "Job_Owner").Some? ==>
      var owner := Attr(info, "Job_Owner").value.s;
      r.value <= owner && (|r.value| < |owner| ==> owner[|r.value|] == '@')
  {
    match Attr(info, "Job_Owner")
    case None => Success("")
    case Some(JString(s)) => Success(BeforeFirst(s, '@'))
    case Some(_) => Failure(NotText("Job_Owner"))
  }

  /** The machine column: the execution host's text before its first '/', or NULL when the job has
      no execution host or a falsy one. */
  function ExecMachine(info: Json): (r: Result<Option<string>, PollError>)
    requires info.JObject?
    ensures r.Failure? <==>
      Attr(info, "exec_host").Some? && Truthy(Attr(info, "exec_host").value) && !Attr(info, "exec_host").value.JString?
    ensures r.Success? ==> (r.value.None? <==> Attr(info, "exec_host").None? || !Truthy(Attr(info, "exec_host").value))
    ensures r.Success? && r.value.Some? ==>
      var host := Attr(info, "exec_host").value.s;
      '/' !in r.value.value && r.value.value <= host && (|r.value.value| < |host| ==> host[|r.value.value|] == '/')
  {
    match Attr(info, "exec_host")
    case None => Success(None)
    case Some(v) =>
      if !Truthy(v) then Success(None)
      else if v.JString? then Success(Some(BeforeFirst(v.s, '/')))
      else Failure(NotText("exec_host"))
  }

  /** The start_time column: the stime text as it is, "" when the job has none, NULL for a JSON null. */
  function StartTime(info: Json): (r: Result<Option<string>, PollError>)
    requires info.JObject?
    ensures r.Failure? <==>
      Attr(info, "stime").Some? && !Attr(info, "stime").value.JString? && Attr(info, "stime").value != JNull
    ensures r.Success? ==> (r.value.None? <==> Attr(info, "stime") == Some(JNull))
    ensures r.Success? && r.value.Some? ==>
      (Attr(info, "stime").None? && r.value.value == "") || Attr(info, "stime") == Some(JString(r.value.value))
  {
    match Attr(info, "stime")
    case None => Success(Some(""))
    case Some(JString(s)) => Success(Some(s))
    case Some(JNull) => Success(None)
    case Some(_) => Failure(CannotBind("stime"))
  }

  /** Whether an attribute that must be text (or absent) is. */
  predicate TextOrAbsent(v: Option<Json>)
  {
    v.None? || v.value.JString?
  }

  /** The job row for one entry of the Jobs object, or the exception normalising it raises. */
  function NormalizeJob(ts: string, jobId: string, info: Json): (r: Result<JobRow, PollError>)
    ensures !info.JObject? ==> r.Failure?
    ensures r.Success? ==>
      && r.value.timestamp == ts && r.value.jobId == jobId && r.value.dataJson == Serialized(info)
      && r.value.user.Some?
  {
    if !info.JObject? then Failure(NotAnObject("job"))
    else
      match OwnerUser(info)
      case Failure(e) => Failure(e)
      case Success(user) =>
        match ExecMachine(info)
        case Failure(e) => Failure(e)
        case Success(machine) =>
          match StartTime(info)
          case Failure(e) => Failure(e)
          case Success(stime) => Success(JobRow(ts, jobId, Some(user), machine, stime, Serialized(info)))
  }

  /** Which attribute values make normalising a job raise: a job that is not an object, an owner
      that is not text, a truthy exec_host that is not text, or an stime SQLite cannot store. */
  lemma NormalizeJobSucceeds(ts: string, jobId: string, info: Json)
    ensures NormalizeJob(ts, jobId, info).Success? <==>
      && info.JObject?
      && TextOrAbsent(Attr(info, "Job_Owner"))
      && (Attr(info, "exec_host").Some? && Truthy(Attr(info, "exec_host").value) ==> Attr(info, "exec_host").value.JString?)
      && (TextOrAbsent(Attr(info, "stime")) || Attr(info, "stime") == Some(JNull))
  {
  }

  /** What a job row holds: the poll's timestamp, the job id, the owner before its first '@', the
      execution host before its first '/' or NULL, stime verbatim and the job's own attributes. */
  lemma NormalizeJobSpec(ts: string, jobId: string, info: Json)
    requires NormalizeJob(ts, jobId, info).Success?
    ensures info.JObject?
    ensures
      var row := NormalizeJob(ts, jobId, info).value;
      && row.timestamp == ts && row.jobId == jobId && row.dataJson == Serialized(info)
      // user: the owner text before its first '@', never NULL and never holding '@'
      && row.user.Some? && '@' !in row.user.value
      && (Attr(info, "Job_Owner").None? ==> row.user.value == "")
      && (Attr(info, "Job_Owner").Some? ==>
            var owner := Attr(info, "Job_Owner").value.s;
            row.user.value <= owner && (|row.user.value| < |owner| ==> owner[|row.user.value|] == '@'))
      // machine: NULL exactly when exec_host is missing or falsy, else the host before the first '/'
      && (row.machine.None? <==> Attr(info, "exec_host").None? || !Truthy(Attr(info, "exec_host").value))
      && (row.machine.Some? ==>
            var host := Attr(info, "exec_host").value.s;
            && '/' !in row.machine.value && row.machine.value <= host
            && (|row.machine.value| < |host| ==> host[|row.machine.value|] == '/'))
      // start_time: stime verbatim, "" when absent
      && (Attr(info, "stime").None? ==> row.startTime == Some(""))
      && (Attr(info, "stime").Some? && Attr(info, "stime").value.JString? ==>
            row.startTime == Some(Attr(info, "stime").value.s))
      && (Attr(info, "stime") == Some(JNull) ==> row.startTime.None?)
  {
  }

  /** One node row per entry of the nodes dict, in its order. */
  function NodeRows(ts: string, nodesData: Dict): (rows: seq<NodeRow>)
    ensures |rows| == |nodesData|
    ensures forall i :: 0 <= i < |rows| ==>
      rows[i] == NodeRow(ts, nodesData[i].0, Serialized(nodesData[i].1))
  {
    if |nodesData| == 0 then []
    else
      var last := nodesData[|nodesData| - 1];
      NodeRows(ts, nodesData[..|nodesData| - 1]) + [NodeRow(ts, last.0, Serialized(last.1))]
  }

  /** A loop that turns each element into a value or raises: the values in order, or the exception
      of the first element that raises. */
  function MapUntilFailure<T, U, E>(f: T -> Result<U, E>, xs: seq<T>): Result<seq<U>, E>
  {
    if |xs| == 0 then Success([])
    else
      match MapUntilFailure(f, xs[..|xs| - 1])
      case Failure(e) => Failure(e)
      case Success(us) =>
        match f(xs[|xs| - 1])
        case Failure(e) => Failure(e)
        case Success(u) => Success(us + [u])
  }

  lemma {:induction false} MapSucceeds<T, U, E>(f: T -> Result<U, E>, xs: seq<T>)
    ensures MapUntilFailure(f, xs).Success? <==> forall i :: 0 <= i < |xs| ==> f(xs[i]).Success?
  {
    if |xs| > 0 {
      var init := xs[..|xs| - 1];
      MapSucceeds(f, init);
      assert forall i :: 0 <= i < |init| ==> xs[i] == init[i];
    }
  }

  lemma {:induction false} MapValues<T, U, E>(f: T -> Result<U, E>, xs: seq<T>)
    requires MapUntilFailure(f, xs).Success?
    ensures |MapUntilFailure(f, xs).value| == |xs|
    ensures forall i :: 0 <= i < |xs| ==> f(xs[i]) == Success(MapUntilFailure(f, xs).value[i])
  {
    if |xs| > 0 {
      var init := xs[..|xs| - 1];
      MapValues(f, init);
      assert forall i :: 0 <= i < |init| ==> xs[i] == init[i];
    }
  }

  /** Once a prefix raises, the whole loop raises the same exception. */
  lemma {:induction false} MapFailureSticks<T, U, E>(f: T -> Result<U, E>, xs: seq<T>, k: nat)
    requires k <= |xs| && MapUntilFailure(f, xs[..k]).Failure?
    ensures MapUntilFailure(f, xs) == MapUntilFailure(f, xs[..k])
    decreases |xs| - k
  {
    if k < |xs| {
      assert xs[..k + 1][..k] == xs[..k];
      MapFailureSticks(f, xs, k + 1);
    } else {
      assert xs[..k] == xs;
    }
  }

  /** The job rows for the entries of the Jobs dict in order, or the first entry's exception. */
  function JobRows(ts: string, entries: Dict): Result<seq<JobRow>, PollError>
  {
    MapUntilFailure((e: (string, Json)) => NormalizeJob(ts, e.0, e.1), entries)
  }

  /** The poll of the jobs fails exactly when some entry does not normalise. */
  lemma JobRowsSucceeds(ts: string, entries: Dict)
    ensures JobRows(ts, entries).Success? <==>
      forall i :: 0 <= i < |entries| ==> NormalizeJob(ts, entries[i].0, entries[i].1).Success?
  {
    MapSucceeds((e: (string, Json)) => NormalizeJob(ts, e.0, e.1), entries);
  }

  /** On success the rows are the entries' normalisations, one per entry and in order. */
  lemma JobRowsSpec(ts: string, entries: Dict)
    requires JobRows(ts, entries).Success?
    ensures |JobRows(ts, entries).value| == |entries|
    ensures forall i :: 0 <= i < |entries| ==>
      NormalizeJob(ts, entries[i].0, entries[i].1) == Success(JobRows(ts, entries).value[i])
  {
    MapValues((e: (string, Json)) => NormalizeJob(ts, e.0, e.1), entries);
  }

  /** Entry `k` is the first job that raises: the entries before it all normalise. */
  predicate FailsAt(ts: string, entries: Dict, k: int)
  {
    && 0 <= k < |entries|
    && JobRows(ts, entries[..k]).Success?
    && NormalizeJob(ts, entries[k].0, entries[k].1).Failure?
  }

  /** Every entry before a prefix that normalises normalises itself. */
  lemma PrefixNormalises(ts: string, entries: Dict, n: int, i: int)
    requires 0 <= i < n <= |entries| && JobRows(ts, entries[..n]).Success?
    ensures NormalizeJob(ts, entries[i].0, entries[i].1).Success?
  {
    JobRowsSucceeds(ts, entries[..n]);
    assert entries[..n][i] == entries[i];
  }

  /** The first entry that raises is unique, and its exception is the one the whole loop raises. */
  lemma FirstFailure(ts: string, entries: Dict, k: int, k': int)
    requires FailsAt(ts, entries, k)
    ensures JobRows(ts, entries) == Failure(NormalizeJob(ts, entries[k].0, entries[k].1).error)
    ensures FailsAt(ts, entries, k') ==> k' == k
  {
    assert entries[..k + 1][..k] == entries[..k];
    MapFailureSticks((e: (string, Json)) => NormalizeJob(ts, e.0, e.1), entries, k + 1);
    if FailsAt(ts, entries, k') {
      if k < k' { PrefixNormalises(ts, entries, k', k); }
      if k' < k { PrefixNormalises(ts, entries, k, k'); }
    }
  }

  /** The jobs dict: the `Jobs` member of the qstat document, or an empty dict when it has none. */
  function JobEntries(jobsDoc: Json): (r: Result<Dict, PollError>)
    ensures r.Failure? <==>
      || !jobsDoc.JObject?
      || (Lookup(DictOf(jobsDoc.members), "Jobs").Some? && !Lookup(DictOf(jobsDoc.members), "Jobs").value.JObject?)
    ensures r.Success? ==> DistinctKeys(r.value)
    ensures r.Success? && Lookup(DictOf(jobsDoc.members), "Jobs").None? ==> r.value == []
    ensures r.Success? && Lookup(DictOf(jobsDoc.members), "Jobs").Some? ==>
      forall k :: HasKey(r.value, k) <==> HasKey(Lookup(DictOf(jobsDoc.members), "Jobs").value.members, k)
  {
    if !jobsDoc.JObject? then Failure(NotAnObject("qstat output"))
    else
      match Lookup(DictOf(jobsDoc.members), "Jobs")
      case None => Success([])
      case Some(JObject(ms)) => Success(DictOf(ms))
      case Some(_) => Failure(NotAnObject("Jobs"))
  }

  /** What one poll appends to (nodes, jobs), or the exception that aborts it. */
  function PollRows(ts: string, nodesDoc: Json, jobsDoc: Json): (r: Result<(seq<NodeRow>, seq<JobRow>), PollError>)
    ensures !nodesDoc.JObject? || JobEntries(jobsDoc).Failure? ==> r.Failure?
    ensures r.Success? ==>
      && |r.value.0| == |DictOf(nodesDoc.members)|
      && |r.value.1| == |JobEntries(jobsDoc).value|
  {
    if !nodesDoc.JObject? then Failure(NotAnObject("pbsnodes output"))
    else
      match JobEntries(jobsDoc)
      case Failure(e) => Failure(e)
      case Success(entries) =>
        match JobRows(ts, entries)
        case Failure(e) => Failure(e)
        case Success(js) =>
          JobRowsSpec(ts, entries);
          Success((NodeRows(ts, DictOf(nodesDoc.members)), js))
  }

  /** The number of node rows for node `name`. */
  function CountNodes(rows: seq<NodeRow>, name: string): nat
  {
    if |rows| == 0 then 0
    else CountNodes(rows[..|rows| - 1], name) + (if rows[|rows| - 1].nodeName == name then 1 else 0)
  }

  /** The number of job rows for job `id`. */
  function CountJobs(rows: seq<JobRow>, id: string): nat
  {
    if |rows| == 0 then 0
    else CountJobs(rows[..|rows| - 1], id) + (if rows[|rows| - 1].jobId == id then 1 else 0)
  }

  lemma {:induction false} CountJobsAppend(a: seq<JobRow>, b: seq<JobRow>, id: string)
    ensures CountJobs(a + b, id) == CountJobs(a, id) + CountJobs(b, id)
  {
    if |b| > 0 {
      assert (a + b)[..|a + b| - 1] == a + b[..|b| - 1];
      assert (a + b)[|a + b| - 1] == b[|b| - 1];
      CountJobsAppend(a, b[..|b| - 1], id);
    } else {
      assert a + b == a;
    }
  }

  /** Whether the qstat document lists job `id` under its Jobs object. */
  predicate ListsJob(jobsDoc: Json, id: string)
  {
    && jobsDoc.JObject?
    && match Lookup(DictOf(jobsDoc.members), "Jobs")
       case Some(JObject(ms)) => HasKey(ms, id)
       case _ => false
  }

  lemma HasKeySnoc(d: Dict, x: string)
    requires |d| > 0
    ensures HasKey(d, x) <==> HasKey(d[..|d| - 1], x) || d[|d| - 1].0 == x
  {
    if HasKey(d, x) && d[|d| - 1].0 != x {
      var i :| 0 <= i < |d| && d[i].0 == x;
      assert d[..|d| - 1][i].0 == x;
    }
    if HasKey(d[..|d| - 1], x) {
      var i :| 0 <= i < |d| - 1 && d[..|d| - 1][i].0 == x;
      assert d[i].0 == x;
    }
  }

  /** Each node of the dict gets exactly one row. */
  lemma {:induction false} NodeRowsPerKey(ts: string, d: Dict, k: string)
    requires DistinctKeys(d)
    ensures CountNodes(NodeRows(ts, d), k) == if HasKey(d, k) then 1 else 0
  {
    if |d| > 0 {
      var init := d[..|d| - 1];
      var rows := NodeRows(ts, d);
      assert rows[..|rows| - 1] == NodeRows(ts, init);
      NodeRowsPerKey(ts, init, k);
      HasKeySnoc(d, k);
    }
  }

  /** Each entry of the Jobs dict gets exactly one row. */
  lemma {:induction false} JobRowsPerKey(ts: string, entries: Dict, k: string)
    requires DistinctKeys(entries) && JobRows(ts, entries).Success?
    ensures CountJobs(JobRows(ts, entries).value, k) == if HasKey(entries, k) then 1 else 0
  {
    if |entries| > 0 {
      var init := entries[..|entries| - 1];
      var last := entries[|entries| - 1];
      var rows := JobRows(ts, entries).value;
      NormalizeJobSpec(ts, last.0, last.1);
      assert rows == JobRows(ts, init).value + [NormalizeJob(ts, last.0, last.1).value];
      assert rows[..|rows| - 1] == JobRows(ts, init).value;
      JobRowsPerKey(ts, init, k);
      HasKeySnoc(entries, k);
    }
  }

  /** A successful poll writes exactly one node row per node of the pbsnodes document and exactly one
      job row per job of its Jobs object (none when Jobs is missing). */
  lemma PollRowsPerKey(ts: string, nodesDoc: Json, jobsDoc: Json, k: string)
    requires PollRows(ts, nodesDoc, jobsDoc).Success?
    ensures CountNodes(PollRows(ts, nodesDoc, jobsDoc).value.0, k) == if HasKey(nodesDoc.members, k) then 1 else 0
    ensures CountJobs(PollRows(ts, nodesDoc, jobsDoc).value.1, k) == if ListsJob(jobsDoc, k) then 1 else 0
  {
    NodeRowsPerKey(ts, DictOf(nodesDoc.members), k);
    JobRowsPerKey(ts, JobEntries(jobsDoc).value, k);
  }

  /** A successful poll's node rows carry its timestamp and, for each node, the attributes the
      decoded document holds for it (the last of repeated keys). */
  lemma PollNodeRows(ts: string, nodesDoc: Json, jobsDoc: Json)
    requires PollRows(ts, nodesDoc, jobsDoc).Success?
    ensures forall r :: r in PollRows(ts, nodesDoc, jobsDoc).value.0 ==>
      r.timestamp == ts && LastValue(nodesDoc.members, r.nodeName) == Some(r.dataJson.value)
  {
    var d := DictOf(nodesDoc.members);
    var rows := PollRows(ts, nodesDoc, jobsDoc).value.0;
    forall r | r in rows
      ensures r.timestamp == ts && LastValue(nodesDoc.members, r.nodeName) == Some(r.dataJson.value)
    {
      var i :| 0 <= i < |rows| && rows[i] == r;
      LookupAt(d, i);
      LookupDictOf(nodesDoc.members, d[i].0);
    }
  }

  /** A successful poll's job rows carry its timestamp, a job id listed under Jobs with that job's
      attributes, and a non-NULL user holding no '@'. */
  lemma PollJobRows(ts: string, nodesDoc: Json, jobsDoc: Json)
    requires PollRows(ts, nodesDoc, jobsDoc).Success?
    ensures forall r :: r in PollRows(ts, nodesDoc, jobsDoc).value.1 ==>
      && r.timestamp == ts && ListsJob(jobsDoc, r.jobId)
      && Lookup(JobEntries(jobsDoc).value, r.jobId) == Some(r.dataJson.value)
      && r.user.Some? && '@' !in r.user.value
  {
    var entries := JobEntries(jobsDoc).value;
    var rows := PollRows(ts, nodesDoc, jobsDoc).value.1;
    JobRowsSpec(ts, entries);
    forall r | r in rows
      ensures && r.timestamp == ts && ListsJob(jobsDoc, r.jobId)
              && Lookup(entries, r.jobId) == Some(r.dataJson.value)
              && r.user.Some? && '@' !in r.user.value
    {
      var i :| 0 <= i < |rows| && rows[i] == r;
      NormalizeJobSpec(ts, entries[i].0, entries[i].1);
      LookupAt(entries, i);
      assert HasKey(entries, entries[i].0);
    }
  }

  /** Whether a poll succeeds depends on the documents only, not on its timestamp. */
  lemma PollSuccessIgnoresTimestamp(ts1: string, ts2: string, nodesDoc: Json, jobsDoc: Json)
    ensures PollRows(ts1, nodesDoc, jobsDoc).Success? <==> PollRows(ts2, nodesDoc, jobsDoc).Success?
  {
    if nodesDoc.JObject? && JobEntries(jobsDoc).Success? {
      var entries := JobEntries(jobsDoc).value;
      JobRowsSucceeds(ts1, entries);
      JobRowsSucceeds(ts2, entries);
      forall i | 0 <= i < |entries|
        ensures NormalizeJob(ts1, entries[i].0, entries[i].1).Success? <==>
                NormalizeJob(ts2, entries[i].0, entries[i].1).Success?
      {
        NormalizeJobSucceeds(ts1, entries[i].0, entries[i].1);
        NormalizeJobSucceeds(ts2, entries[i].0, entries[i].1);
      }
    }
  }

  /** Polls are not deduplicated: two successful polls of the same documents leave two rows for every
      listed job, one per snapshot. */
  lemma NoDeduplication(ts1: string, ts2: string, nodesDoc: Json, jobsDoc: Json, k: string)
    requires PollRows(ts1, nodesDoc, jobsDoc).Success?
    ensures PollRows(ts2, nodesDoc, jobsDoc).Success?
    ensures CountJobs(PollRows(ts1, nodesDoc, jobsDoc).value.1 + PollRows(ts2, nodesDoc, jobsDoc).value.1, k)
      == if ListsJob(jobsDoc, k) then 2 else 0
  {
    PollSuccessIgnoresTimestamp(ts1, ts2, nodesDoc, jobsDoc);
    PollRowsPerKey(ts1, nodesDoc, jobsDoc, k);
    PollRowsPerKey(ts2, nodesDoc, jobsDoc, k);
    CountJobsAppend(PollRows(ts1, nodesDoc, jobsDoc).value.1, PollRows(ts2, nodesDoc, jobsDoc).value.1, k);
  }

  /** The database: the two tables of init_db as sequences of rows, appended to by each poll. */
  class Store {
    var nodes: seq<NodeRow>
    var jobs: seq<JobRow>

    /** init_db on a new database file: both tables exist and are empty. */
    constructor ()
      ensures nodes == [] && jobs == []
    {
      nodes := [];
      jobs := [];
    }

    /** The loop over the nodes dict: one INSERT INTO nodes per entry. */
    method InsertNodes(timestamp: string, nodesData: Dict)
      modifies this
      ensures nodes == old(nodes) + NodeRows(timestamp, nodesData)
      ensures jobs == old(jobs)
    {
      for i := 0 to |nodesData|
        invariant nodes == old(nodes) + NodeRows(timestamp, nodesData[..i])
        invariant jobs == old(jobs)
      {
        var (node, info) := nodesData[i];
        assert nodesData[..i + 1][..i] == nodesData[..i];
        nodes := nodes + [NodeRow(timestamp, node, Serialized(info))];
      }
      assert nodesData[..|nodesData|] == nodesData;
    }

    /** The loop over the Jobs dict: normalise each entry and INSERT INTO jobs, stopping at the first
        entry that raises. */
    method InsertJobs(timestamp: string, entries: Dict) returns (outcome: Outcome<PollError>)
      modifies this
      ensures nodes == old(nodes)
      ensures JobRows(timestamp, entries).Success? ==>
        outcome == Pass && jobs == old(jobs) + JobRows(timestamp, entries).value
      ensures JobRows(timestamp, entries).Failure? ==>
        && outcome == Fail(JobRows(timestamp, entries).error)
        && exists k :: FailsAt(timestamp, entries, k) && jobs == old(jobs) + JobRows(timestamp, entries[..k]).value
    {
      for k := 0 to |entries|
        invariant nodes == old(nodes)
        invariant JobRows(timestamp, entries[..k]).Success?
        invariant jobs == old(jobs) + JobRows(timestamp, entries[..k]).value
      {
        var (jobId, jobInfo) := entries[k];
        assert entries[..k + 1][..k] == entries[..k];
        var row := NormalizeJob(timestamp, jobId, jobInfo);
        if row.Failure? {
          MapFailureSticks((e: (string, Json)) => NormalizeJob(timestamp, e.0, e.1), entries, k + 1);
          assert FailsAt(timestamp, entries, k);
          return Fail(row.error);
        }
        jobs := jobs + [row.value];
      }
      assert entries[..|entries|] == entries;
      return Pass;
    }

    /** collect_data once the documents are decoded. The inserts are committed only at the end, so an
        exception part-way leaves both tables as they were. */
    method Poll(timestamp: string, nodesDoc: Json, jobsDoc: Json) returns (outcome: Outcome<PollError>)
      modifies this
      ensures PollRows(timestamp, nodesDoc, jobsDoc).Success? ==>
        && outcome == Pass
        && nodes == old(nodes) + PollRows(timestamp, nodesDoc, jobsDoc).value.0
        && jobs == old(jobs) + PollRows(timestamp, nodesDoc, jobsDoc).value.1
      ensures PollRows(timestamp, nodesDoc, jobsDoc).Failure? ==>
        && outcome == Fail(PollRows(timestamp, nodesDoc, jobsDoc).error)
        && nodes == old(nodes) && jobs == old(jobs)
    {
      var savedNodes, savedJobs := nodes, jobs;
      if !nodesDoc.JObject? {
        return Fail(NotAnObject("pbsnodes output"));
      }
      InsertNodes(timestamp, DictOf(nodesDoc.members));
      var jobsData := JobEntries(jobsDoc);
      if jobsData.Failure? {
        nodes := savedNodes;
        return Fail(jobsData.error);
      }
      outcome := InsertJobs(timestamp, jobsData.value);
      if outcome.Fail? {
        nodes, jobs := savedNodes, savedJobs;
      }
    }
  }
}
