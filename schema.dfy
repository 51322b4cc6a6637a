/** The two tables init_db creates (bin/pbs_monitor.py) as record types, and the decoded JSON the
    collector reads from the scheduler's commands. */
module Schema {
  import opened Wrappers

  /** A value json.loads returns. Objects keep their members in document order, duplicates included;
      DictOf turns them into the dict Python builds. */
  datatype Json =
    | JNull
    | JBool(b: bool)
    | JNumber(n: real)
    | JString(s: string)
    | JArray(items: seq<Json>)
    | JObject(members: seq<(string, Json)>)

  /** Python truthiness of a decoded value. */
  predicate Truthy(v: Json)
  {
    match v
    case JNull => false
    case JBool(b) => b
    case JNumber(n) => n != 0.0
    case JString(s) => s != ""
    case JArray(items) => items != []
    case JObject(members) => members != []
  }

  /** A Python dict: entries in insertion order, each key once. */
  type Dict = seq<(string, Json)>

  predicate DistinctKeys(d: Dict)
  {
    forall i, j :: 0 <= i < j < |d| ==> d[i].0 != d[j].0
  }

  predicate HasKey(d: seq<(string, Json)>, k: string)
  {
    exists i :: 0 <= i < |d| && d[i].0 == k
  }

  lemma HasKeyCons(h: (string, Json), t: seq<(string, Json)>, x: string)
    ensures HasKey([h] + t, x) <==> h.0 == x || HasKey(t, x)
  {
    var s := [h] + t;
    if HasKey(t, x) {
      var i :| 0 <= i < |t| && t[i].0 == x;
      assert s[i + 1].0 == x;
    }
    if HasKey(s, x) && h.0 != x {
      var i :| 0 <= i < |s| && s[i].0 == x;
      assert t[i - 1].0 == x;
    }
    assert s[0] == h;
  }

  /** dict.get(k): the entry for `k`, or None. */
  function Lookup(d: Dict, k: string): (r: Option<Json>)
    ensures r.None? <==> !HasKey(d, k)
    ensures r.Some? ==> (k, r.value) in d
  {
    if |d| == 0 then None
    else if d[0].0 == k then Some(d[0].1)
    else
      var r := Lookup(d[1..], k);
      assert HasKey(d, k) ==> HasKey(d[1..], k) by {
        if HasKey(d, k) {
          var i :| 0 <= i < |d| && d[i].0 == k;
          assert d[1..][i - 1].0 == k;
        }
      }
      r
  }

  /** d[k] = v: a new key goes to the end, an existing key keeps its place and takes the new value. */
  function Assign(d: Dict, k: string, v: Json): (r: Dict)
    ensures DistinctKeys(d) ==> DistinctKeys(r)
    ensures forall x :: HasKey(r, x) <==> HasKey(d, x) || x == k
    ensures DistinctKeys(d) ==> forall x :: Lookup(r, x) == if x == k then Some(v) else Lookup(d, x)
    ensures |r| == if HasKey(d, k) then |d| else |d| + 1
  {
    if |d| == 0 then
      var r := [(k, v)];
      assert r[0].0 == k;
      r
    else if d[0].0 == k then
      var r := [(k, v)] + d[1..];
      assert forall x :: HasKey(r, x) ==> HasKey(d, x) by {
        forall x | HasKey(r, x) ensures HasKey(d, x) {
          var i :| 0 <= i < |r| && r[i].0 == x;
          assert d[i].0 == x;
        }
      }
      assert r[0].0 == k;
      assert forall x :: HasKey(d, x) ==> HasKey(r, x) by {
        forall x | HasKey(d, x) ensures HasKey(r, x) {
          var i :| 0 <= i < |d| && d[i].0 == x;
          assert r[i].0 == x;
        }
      }
      r
    else
      var rest := Assign(d[1..], k, v);
      var r := [d[0]] + rest;
      assert d == [d[0]] + d[1..];
      assert forall x :: HasKey(r, x) <==> HasKey(d, x) || x == k by {
        forall x ensures HasKey(r, x) <==> HasKey(d, x) || x == k {
          HasKeyCons(d[0], rest, x);
          HasKeyCons(d[0], d[1..], x);
        }
      }
      if DistinctKeys(d) then
        assert !HasKey(d[1..], d[0].0);
        assert !HasKey(rest, d[0].0);
        assert forall j :: 0 < j < |r| ==> r[j].0 != r[0].0 by {
          forall j | 0 < j < |r| ensures r[j].0 != r[0].0 {
            assert rest[j - 1] == r[j];
          }
        }
        r
      else r
  }

  /** Where d[k] = v puts its entry: a new key goes to the end; an existing key keeps its place, and
      no other key moves. */
  lemma {:induction false} AssignOrder(d: Dict, k: string, v: Json)
    ensures !HasKey(d, k) ==> Assign(d, k, v) == d + [(k, v)]
    ensures HasKey(d, k) ==> |Assign(d, k, v)| == |d| && forall i :: 0 <= i < |d| ==> Assign(d, k, v)[i].0 == d[i].0
  {
    if |d| > 0 && d[0].0 != k {
      AssignOrder(d[1..], k, v);
      HasKeyCons(d[0], d[1..], k);
      assert d == [d[0]] + d[1..];
      if HasKey(d, k) {
        forall i | 0 < i < |d| ensures Assign(d, k, v)[i].0 == d[i].0 {
          assert d[i] == d[1..][i - 1];
        }
      }
    }
  }

  /** In a dict, looking up an entry's key finds that entry's value. */
  lemma LookupAt(d: Dict, i: nat)
    requires DistinctKeys(d) && i < |d|
    ensures Lookup(d, d[i].0) == Some(d[i].1)
  {
    assert HasKey(d, d[i].0);
    var v := Lookup(d, d[i].0).value;
    var j :| 0 <= j < |d| && d[j] == (d[i].0, v);
    assert j == i;
  }

  /** The dict json.loads builds from an object's members: each member assigned in turn, in
      document order, as Assign describes. */
  function DictOf(members: seq<(string, Json)>): (d: Dict)
    ensures DistinctKeys(d)
    ensures forall k :: HasKey(d, k) <==> HasKey(members, k)
  {
    if |members| == 0 then []
    else
      var init := members[..|members| - 1];
      var last := members[|members| - 1];
      var d := Assign(DictOf(init), last.0, last.1);
      assert forall k :: HasKey(members, k) <==> HasKey(init, k) || k == last.0 by {
        forall k ensures HasKey(members, k) <==> HasKey(init, k) || k == last.0 {
          if HasKey(members, k) && k != last.0 {
            var i :| 0 <= i < |members| && members[i].0 == k;
            assert init[i].0 == k;
          }
          if HasKey(init, k) {
            var i :| 0 <= i < |init| && init[i].0 == k;
            assert members[i].0 == k;
          }
        }
      }
      d
  }

  /** The value of the last member named `k`: what the decoded dict holds for `k`. */
  function LastValue(members: seq<(string, Json)>, k: string): Option<Json>
  {
    if |members| == 0 then None
    else if members[|members| - 1].0 == k then Some(members[|members| - 1].1)
    else LastValue(members[..|members| - 1], k)
  }

  /** json.loads keeps the last of duplicated keys. */
  lemma {:induction false} LookupDictOf(members: seq<(string, Json)>, k: string)
    ensures Lookup(DictOf(members), k) == LastValue(members, k)
  {
    if |members| > 0 {
      LookupDictOf(members[..|members| - 1], k);
    }
  }

  /** json.dumps of a decoded value; the text itself is not modelled, only the decoded value it was given, duplicate members included. */
  datatype Blob = Serialized(value: Json)

  /** A row of table nodes (timestamp TEXT, node_name TEXT, data_json TEXT). */
  datatype NodeRow = NodeRow(timestamp: string, nodeName: string, dataJson: Blob)

  /** A row of table jobs (timestamp TEXT, job_id TEXT, user TEXT, machine TEXT, start_time TEXT,
      data_json TEXT); None in the three nullable columns the report reads is SQL NULL. */
  datatype JobRow = JobRow(
    timestamp: string, jobId: string, user: Option<string>, machine: Option<string>,
    startTime: Option<string>, dataJson: Blob)
}
