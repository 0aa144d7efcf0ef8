/** The two tables with all jobs in them, the repository's statements on them, and
    the proof that on each single job they are the statements of JobState, and
    leave every other job alone. */
module Repository {
  import opened JobState
  import opened JobProtocol
  import opened Wrappers

  type JobId = nat

  datatype Row = Row(job: JobId, origin: string, destination: string, date: string,
                     status: RowStatus, fare: Option<string>, error: Option<string>, stamped: bool)

  datatype JobRow = JobRow(job: Job, summary: Option<string>)

  /** What CreateJob is given for one row. */
  datatype Pair = Pair(origin: string, destination: string, date: string)

  /** A row as a query returns it, with its generated id. */
  datatype Result = Result(id: nat, row: Row)

  /** The id of a row is its position: ids are handed out in increasing order. */
  datatype Tables = Tables(jobs: map<JobId, JobRow>, rows: seq<Row>)

  // ---------------------------------------------------------------- one job's view

  /** The ids of job j's rows among the first n, in order. */
  function IdsIn(rows: seq<Row>, j: JobId, n: nat): (ids: seq<nat>)
    requires n <= |rows|
    ensures forall i :: 0 <= i < |ids| ==> ids[i] < n && rows[ids[i]].job == j
  {
    if n == 0 then [] else IdsIn(rows, j, n - 1) + if rows[n - 1].job == j then [n - 1] else []
  }

  function IdsOf(rows: seq<Row>, j: JobId): seq<nat> { IdsIn(rows, j, |rows|) }

  function RowsOf(rows: seq<Row>, j: JobId): seq<RowStatus> {
    var ids := IdsOf(rows, j);
    seq(|ids|, i requires 0 <= i < |ids| => rows[ids[i]].status)
  }

  function View(t: Tables, j: JobId): JobView
    requires j in t.jobs
  {
    JobView(t.jobs[j].job, RowsOf(t.rows, j))
  }

  /** All of job j's rows, each once, in increasing order. */
  lemma {:induction false} IdsExact(rows: seq<Row>, j: JobId, n: nat)
    requires n <= |rows|
    ensures forall i, k :: 0 <= i < k < |IdsIn(rows, j, n)| ==> IdsIn(rows, j, n)[i] < IdsIn(rows, j, n)[k]
    ensures forall id: nat :: id in IdsIn(rows, j, n) <==> id < n && rows[id].job == j
  {
    if n > 0 { IdsExact(rows, j, n - 1); }
  }

  /** The ids depend on the job column alone. */
  lemma {:induction false} IdsSame(rows: seq<Row>, next: seq<Row>, j: JobId, n: nat)
    requires n <= |rows| && n <= |next|
    requires forall k :: 0 <= k < n ==> (rows[k].job == j <==> next[k].job == j)
    ensures IdsIn(next, j, n) == IdsIn(rows, j, n)
  {
    if n > 0 { IdsSame(rows, next, j, n - 1); }
  }

  lemma RowsUpdate(rows: seq<Row>, j: JobId, i: nat, r: Row)
    requires i < |IdsOf(rows, j)| && r.job == j
    ensures RowsOf(rows[IdsOf(rows, j)[i] := r], j) == RowsOf(rows, j)[i := r.status]
  {
    var ids := IdsOf(rows, j);
    var next := rows[ids[i] := r];
    IdsSame(rows, next, j, |rows|);
    IdsExact(rows, j, |rows|);
    forall k | 0 <= k < |ids| && k != i ensures next[ids[k]] == rows[ids[k]] {
      assert k < i || i < k;
    }
  }

  lemma OtherRowsUpdate(rows: seq<Row>, j: JobId, k: nat, r: Row)
    requires k < |rows| && rows[k].job != j && r.job != j
    ensures RowsOf(rows[k := r], j) == RowsOf(rows, j)
  {
    IdsSame(rows, rows[k := r], j, |rows|);
  }

  // ---------------------------------------------------------------- statements

  /** UPDATE search_job_results ... WHERE id. */
  function SetRow(t: Tables, id: nat, st: RowStatus, fare: Option<string>, error: Option<string>): Tables {
    if id < |t.rows| then
      t.(rows := t.rows[id := t.rows[id].(status := st, fare := fare, error := error, stamped := true)])
    else t
  }

  function SetJob(t: Tables, j: JobId, job: Job): Tables {
    if j in t.jobs then t.(jobs := t.jobs[j := t.jobs[j].(job := job)]) else t
  }

  function FreshRow(j: JobId, p: Pair): Row {
    Row(j, p.origin, p.destination, p.date, RowPending, None, None, false)
  }

  function FreshRows(j: JobId, pairs: seq<Pair>): seq<Row> {
    seq(|pairs|, k requires 0 <= k < |pairs| => FreshRow(j, pairs[k]))
  }

  predicate Claimable(rows: seq<Row>, j: JobId, locked: set<nat>, k: nat) {
    k < |rows| && rows[k].job == j && rows[k].status.RowPending? && k !in locked
  }

  /** The first pending row of job j that nobody holds a lock on, from position i on. */
  function UnlockedFrom(rows: seq<Row>, j: JobId, locked: set<nat>, i: nat): (k: Option<nat>)
    requires i <= |rows|
    ensures k.Some? ==> i <= k.value && Claimable(rows, j, locked, k.value)
    ensures forall x :: i <= x < (if k.Some? then k.value else |rows|) ==> !Claimable(rows, j, locked, x)
    decreases |rows| - i
  {
    if i == |rows| then None
    else if Claimable(rows, j, locked, i) then Some(i)
    else UnlockedFrom(rows, j, locked, i + 1)
  }

  function FirstUnlocked(rows: seq<Row>, j: JobId, locked: set<nat>): Option<nat> {
    UnlockedFrom(rows, j, locked, 0)
  }

  /** Main result: writing the i-th row of job j through its id is WriteRow on that
      job; every other job looks the same. */
  lemma SetRowViews(t: Tables, j: JobId, i: nat, st: RowStatus, fare: Option<string>, error: Option<string>)
    requires j in t.jobs && i < |IdsOf(t.rows, j)|
    ensures |IdsOf(t.rows, j)| == |View(t, j).rows|
    ensures var u := SetRow(t, IdsOf(t.rows, j)[i], st, fare, error);
      && u.jobs == t.jobs
      && View(u, j) == WriteRow(View(t, j), i, st)
      && forall k :: k in t.jobs && k != j ==> View(u, k) == View(t, k)
  {
    var id := IdsOf(t.rows, j)[i];
    var r := t.rows[id].(status := st, fare := fare, error := error, stamped := true);
    RowsUpdate(t.rows, j, i, r);
    forall k | k in t.jobs && k != j ensures RowsOf(t.rows[id := r], k) == RowsOf(t.rows, k) {
      OtherRowsUpdate(t.rows, k, id, r);
    }
  }

  /** Claiming a pending row in the shared table is claiming a row of its job. */
  lemma ClaimViews(rows: seq<Row>, j: JobId, k: nat) returns (i: nat)
    requires k < |rows| && rows[k].job == j && rows[k].status.RowPending?
    ensures i < |RowsOf(rows, j)| && RowsOf(rows, j)[i].RowPending?
    ensures RowsOf(rows[k := rows[k].(status := RowClaimed, stamped := true)], j) == ClaimRow(RowsOf(rows, j), i)
  {
    var ids := IdsOf(rows, j);
    IdsExact(rows, j, |rows|);
    assert k in ids;
    i :| 0 <= i < |ids| && ids[i] == k;
    RowsUpdate(rows, j, i, rows[k].(status := RowClaimed, stamped := true));
  }

  /** SELECT ... WHERE job_id AND status = 'pending' ORDER BY id, on the first n rows. */
  function PendingIn(rows: seq<Row>, j: JobId, n: nat): seq<Result>
    requires n <= |rows|
  {
    if n == 0 then []
    else
      PendingIn(rows, j, n - 1) +
      if rows[n - 1].job == j && rows[n - 1].status.RowPending? then [Result(n - 1, rows[n - 1])] else []
  }

  function PendingOf(rows: seq<Row>, j: JobId): seq<Result> { PendingIn(rows, j, |rows|) }

  /** Exactly the pending rows of the job, in increasing id order. */
  lemma {:induction false} PendingInExact(rows: seq<Row>, j: JobId, n: nat)
    requires n <= |rows|
    ensures forall i, k :: 0 <= i < k < |PendingIn(rows, j, n)| ==>
      PendingIn(rows, j, n)[i].id < PendingIn(rows, j, n)[k].id
    ensures forall p :: p in PendingIn(rows, j, n) <==>
      p.id < n && p.row == rows[p.id] && p.row.job == j && p.row.status.RowPending?
  {
    if n > 0 { PendingInExact(rows, j, n - 1); }
  }

  lemma PendingExact(rows: seq<Row>, j: JobId)
    ensures forall i, k :: 0 <= i < k < |PendingOf(rows, j)| ==> PendingOf(rows, j)[i].id < PendingOf(rows, j)[k].id
    ensures forall p :: p in PendingOf(rows, j) <==>
      p.id < |rows| && p.row == rows[p.id] && p.row.job == j && p.row.status.RowPending?
  {
    PendingInExact(rows, j, |rows|);
  }

  // ---------------------------------------------------------------- a new job's rows

  /** Rows refer to existing jobs. */
  predicate ForeignKeys(t: Tables) {
    forall k :: 0 <= k < |t.rows| ==> t.rows[k].job in t.jobs
  }

  /** The ids of a new job, n of its rows among the rows. */
  lemma {:induction false} FreshIdsIn(before: seq<Row>, j: JobId, pairs: seq<Pair>, n: nat)
    requires n <= |before| + |pairs| && forall k :: 0 <= k < |before| ==> before[k].job != j
    ensures IdsIn(before + FreshRows(j, pairs), j, n)
            == if n <= |before| then [] else seq(n - |before|, k => |before| + k)
  {
    if n > 0 {
      FreshIdsIn(before, j, pairs, n - 1);
      assert n > |before| ==> (before + FreshRows(j, pairs))[n - 1].job == j;
    }
  }

  lemma FreshViews(before: seq<Row>, j: JobId, pairs: seq<Pair>)
    requires forall k :: 0 <= k < |before| ==> before[k].job != j
    ensures IdsOf(before + FreshRows(j, pairs), j) == seq(|pairs|, k => |before| + k)
    ensures RowsOf(before + FreshRows(j, pairs), j) == seq(|pairs|, _ => RowPending)
  {
    var rows := before + FreshRows(j, pairs);
    FreshIdsIn(before, j, pairs, |before| + |pairs|);
    assert |rows| == |before| + |pairs|;
    forall k | 0 <= k < |pairs| ensures IdsOf(rows, j)[k] == |before| + k && rows[|before| + k].status.RowPending? {}
  }

  lemma {:induction false} IdsBefore(before: seq<Row>, j: JobId, pairs: seq<Pair>, k: JobId, n: nat)
    requires k != j && n <= |pairs|
    ensures IdsIn(before + FreshRows(j, pairs), k, |before| + n) == IdsOf(before, k)
  {
    if n == 0 {
      IdsSame(before, before + FreshRows(j, pairs), k, |before|);
    } else {
      IdsBefore(before, j, pairs, k, n - 1);
      assert (before + FreshRows(j, pairs))[|before| + n - 1].job == j;
    }
  }

  /** A new job's rows do not show in the other jobs. */
  lemma OthersBefore(before: seq<Row>, j: JobId, pairs: seq<Pair>, k: JobId)
    requires k != j
    ensures RowsOf(before + FreshRows(j, pairs), k) == RowsOf(before, k)
  {
    IdsBefore(before, j, pairs, k, |pairs|);
  }

  lemma {:induction false} FreshPendingIn(before: seq<Row>, j: JobId, pairs: seq<Pair>, n: nat)
    requires n <= |before| + |pairs| && forall k :: 0 <= k < |before| ==> before[k].job != j
    ensures PendingIn(before + FreshRows(j, pairs), j, n)
            == if n <= |before| then []
               else seq(n - |before|, k requires 0 <= k < n - |before| => Result(|before| + k, FreshRow(j, pairs[k])))
  {
    if n > 0 {
      FreshPendingIn(before, j, pairs, n - 1);
      assert n > |before| ==> (before + FreshRows(j, pairs))[n - 1] == FreshRow(j, pairs[n - 1 - |before|]);
    }
  }

  /** Reading back a job just created returns its rows in the order of the pairs. */
  lemma FreshPending(before: seq<Row>, j: JobId, pairs: seq<Pair>)
    requires forall k :: 0 <= k < |before| ==> before[k].job != j
    ensures PendingOf(before + FreshRows(j, pairs), j)
            == seq(|pairs|, k requires 0 <= k < |pairs| => Result(|before| + k, FreshRow(j, pairs[k])))
  {
    FreshPendingIn(before, j, pairs, |before| + |pairs|);
  }

  /** What a finish call that nobody disturbs leaves of the job, whether it
      finalised it, and whether it returned without an error. */
  function FinishCall(v: JobView, f0: Fault, f1: Fault, f2: Fault): (JobView, bool, bool) {
    if !f0.NoFault? then (v, false, false)
    else if Remaining(v) > 0 then (v, false, true)
    else if !f1.NoFault? then (v, false, false)
    else if v.job.completed + v.job.failed < v.job.total then (v, false, true)
    else
      var w := Ran(f2, v, Finish(v, Verdict(v.job.total, v.job.failed)));
      (w, f2.NoFault? && Live(v.job.status), f2.NoFault?)
  }

  /** Main result: a finish call reports true exactly when its update has taken effect and
      was answered; it fails exactly at a statement that it runs and that fails; and it
      leaves the job alone unless every row is terminal and the counters pass the guard. */
  lemma FinishCallExactly(v: JobView, f0: Fault, f1: Fault, f2: Fault)
    ensures var (w, done, ok) := FinishCall(v, f0, f1, f2);
      var passes := f0.NoFault? && Remaining(v) == 0 && f1.NoFault? && v.job.completed + v.job.failed >= v.job.total;
      && (done <==> f2.NoFault? && Live(v.job.status) && !Live(w.job.status))
      && (ok <==> f0.NoFault? && (Remaining(v) == 0 ==> f1.NoFault? && (passes ==> f2.NoFault?)))
      && (Live(v.job.status) && !Live(w.job.status) <==> passes && !f2.Lost? && Live(v.job.status))
      && (w != v ==> w == v.(job := v.job.(stamped := true,
                       status := if v.job.failed == v.job.total then JobStatus.Failed else JobStatus.Complete)))
  {
  }

  /** No other job has changed. */
  predicate OthersSame(t: Tables, u: Tables, j: JobId) {
    u.jobs.Keys == t.jobs.Keys && forall k :: k in t.jobs && k != j ==> View(u, k) == View(t, k)
  }

  lemma OthersChain(t: Tables, u: Tables, w: Tables, j: JobId)
    requires OthersSame(t, u, j) && OthersSame(u, w, j)
    ensures OthersSame(t, w, j)
  {
  }

  // ---------------------------------------------------------------- the repository

  class PostgresRepository {
    var jobs: map<JobId, JobRow>
    var rows: seq<Row>

    function Contents(): Tables
      reads this
    {
      Tables(jobs, rows)
    }

    constructor ()
      ensures Contents() == Tables(map[], [])
    {
      jobs, rows := map[], [];
    }

    /** One transaction: the job and its rows, in the order of `pairs`; a taken id
        violates the primary key and rolls it back. */
    method CreateJob(id: JobId, total: nat, pairs: seq<Pair>, f: Fault) returns (ok: bool)
      modifies this
      ensures ok <==> f.NoFault? && id !in old(jobs)
      ensures f.Lost? || id in old(jobs) ==> Contents() == old(Contents())
      ensures !f.Lost? && id !in old(jobs) ==>
        && jobs == old(jobs)[id := JobRow(Job(Pending, total, 0, 0, false), None)]
        && rows == old(rows) + FreshRows(id, pairs)
    {
      if f.Lost? || id in jobs {
        return false;
      }
      jobs := jobs[id := JobRow(Job(Pending, total, 0, 0, false), None)];
      rows := rows + FreshRows(id, pairs);
      ok := f.NoFault?;
    }

    /** The pending rows of the job, in id order; nothing when the query or the scan
        of a row fails. */
    method GetPendingResults(id: JobId, f: Fault) returns (out: seq<Result>, ok: bool)
      ensures ok == f.NoFault?
      ensures out == if ok then PendingOf(rows, id) else []
    {
      out, ok := [], f.NoFault?;
      if !ok {
        return;
      }
      for x := 0 to |rows|
        invariant out == PendingIn(rows, id, x)
      {
        if rows[x].job == id && rows[x].status.RowPending? {
          out := out + [Result(x, rows[x])];
        }
      }
    }

    /** Atomically claims the first pending row of the job that no other statement has
        locked, and returns it as it is then; None when there is none, or when the
        statement fails. */
    method ClaimNextResult(id: JobId, locked: set<nat>, f: Fault)
      returns (claimed: Option<Result>, ok: bool, ghost i: nat)
      modifies this`rows
      ensures ok == f.NoFault?
      ensures f.Lost? || FirstUnlocked(old(rows), id, locked).None? ==> rows == old(rows)
      ensures !f.Lost? && FirstUnlocked(old(rows), id, locked).Some? ==>
        var k := FirstUnlocked(old(rows), id, locked).value;
        rows == old(rows)[k := old(rows)[k].(status := RowClaimed, stamped := true)]
      ensures claimed ==
        if ok && FirstUnlocked(old(rows), id, locked).Some?
        then
          var k := FirstUnlocked(old(rows), id, locked).value;
          Some(Result(k, rows[k]))
        else None
      ensures id in jobs && rows != old(rows) ==>
        var was := old(View(Contents(), id)).rows;
        i < |was| && was[i].RowPending? && View(Contents(), id).rows == ClaimRow(was, i)
      ensures OthersSame(old(Contents()), Contents(), id)
    {
      claimed, ok, i := None, f.NoFault?, 0;
      if f.Lost? {
        return;
      }
      var first := FirstUnlocked(rows, id, locked);
      if first.None? {
        return;
      }
      var k, r := first.value, rows[first.value].(status := RowClaimed, stamped := true);
      i := ClaimViews(rows, id, k);
      forall j | j in jobs && j != id ensures RowsOf(rows[k := r], j) == RowsOf(rows, j) {
        OtherRowsUpdate(rows, j, k, r);
      }
      rows := rows[k := r];
      if ok { claimed := Some(Result(k, r)); }
    }

    method UpdateResult(id: nat, st: RowStatus, fare: Option<string>, error: Option<string>, f: Fault)
      returns (ok: bool)
      modifies this`rows
      ensures ok == f.NoFault?
      ensures Contents() == if f.Lost? then old(Contents()) else SetRow(old(Contents()), id, st, fare, error)
    {
      if !f.Lost? && id < |rows| {
        rows := rows[id := rows[id].(status := st, fare := fare, error := error, stamped := true)];
      }
      ok := f.NoFault?;
    }

    /** Keeps whatever fare the row had. */
    method MarkResultDeadLetter(id: nat, error: string, f: Fault) returns (ok: bool)
      modifies this`rows
      ensures ok == f.NoFault?
      ensures Contents() == if f.Lost? || id >= |old(rows)| then old(Contents())
                            else SetRow(old(Contents()), id, RowDeadLetter, old(rows)[id].fare, Some(error))
    {
      if !f.Lost? && id < |rows| {
        rows := rows[id := rows[id].(status := RowDeadLetter, error := Some(error), stamped := true)];
      }
      ok := f.NoFault?;
    }

    /** Recomputes the counters of one job from its rows. */
    method UpdateJobProgress(id: JobId, f: Fault) returns (ok: bool)
      modifies this`jobs
      ensures ok == f.NoFault?
      ensures id in old(jobs) ==>
        var v := old(View(Contents(), id));
        Contents() == SetJob(old(Contents()), id, Ran(f, v, Recount(v)).job)
      ensures OthersSame(old(Contents()), Contents(), id)
      ensures id !in old(jobs) ==> Contents() == old(Contents())
    {
      if !f.Lost? && id in jobs {
        var mine := RowsOf(rows, id);
        var job := jobs[id].job.(completed := Done(mine), failed := Bad(mine));
        jobs := jobs[id := jobs[id].(job := job)];
      } else if id in jobs {
        assert jobs[id := jobs[id].(job := jobs[id].job)] == jobs;
      }
      ok := f.NoFault?;
    }

    method CountRemaining(id: JobId) returns (n: nat)
      ensures n == Count(RowsOf(rows, id), Outstanding)
    {
      n := Count(RowsOf(rows, id), Outstanding);
    }

    /** The guarded UPDATE; true when a row was affected. */
    method FinishUpdate(id: JobId, st: JobStatus, f: Fault) returns (affected: bool)
      modifies this`jobs
      ensures affected <==> !f.Lost? && id in old(jobs) && Live(old(jobs)[id].job.status)
      ensures id in old(jobs) ==>
        var v := old(View(Contents(), id));
        Contents() == SetJob(old(Contents()), id, Ran(f, v, Finish(v, st)).job)
      ensures OthersSame(old(Contents()), Contents(), id)
      ensures id !in old(jobs) ==> Contents() == old(Contents())
    {
      affected := !f.Lost? && id in jobs && Live(jobs[id].job.status);
      if affected {
        jobs := jobs[id := jobs[id].(job := jobs[id].job.(status := st, stamped := true))];
      } else if id in jobs {
        assert jobs[id := jobs[id].(job := jobs[id].job)] == jobs;
      }
    }

    /** Three statements; a missing job is an error of the second. */
    method MarkJobCompleteIfDone(id: JobId, f0: Fault, f1: Fault, f2: Fault) returns (done: bool, ok: bool)
      modifies this`jobs
      ensures id in old(jobs) ==>
        var after := FinishCall(old(View(Contents(), id)), f0, f1, f2);
        Contents() == SetJob(old(Contents()), id, after.0.job) && done == after.1 && ok == after.2
      ensures OthersSame(old(Contents()), Contents(), id)
      ensures id !in old(jobs) ==> Contents() == old(Contents()) && !done
      ensures id !in old(jobs) ==> (ok <==> f0.NoFault? && Count(RowsOf(rows, id), Outstanding) > 0)
    {
      if id in jobs { assert jobs[id := jobs[id].(job := jobs[id].job)] == jobs; }
      if !f0.NoFault? {
        return false, false;
      }
      var remaining := CountRemaining(id);
      if remaining > 0 {
        return false, true;
      }
      if !f1.NoFault? || id !in jobs {
        return false, false;
      }
      var job := jobs[id].job;
      if job.completed + job.failed < job.total {
        return false, true;
      }
      var affected := FinishUpdate(id, Verdict(job.total, job.failed), f2);
      return affected && f2.NoFault?, f2.NoFault?;
    }

    /** MarkJobStatus, which also replaces the error summary. */
    method MarkJobStatus(id: JobId, st: JobStatus, summary: Option<string>, f: Fault) returns (ok: bool)
      modifies this`jobs
      ensures ok == f.NoFault?
      ensures f.Lost? || id !in old(jobs) ==> Contents() == old(Contents())
      ensures !f.Lost? && id in old(jobs) ==>
        jobs == old(jobs)[id := JobRow(SetStatus(old(View(Contents(), id)), st).job, summary)]
    {
      if !f.Lost? && id in jobs {
        var stamped := st == JobStatus.Complete || st == JobStatus.Failed;
        jobs := jobs[id := JobRow(jobs[id].job.(status := st, stamped := stamped), summary)];
      }
      ok := f.NoFault?;
    }
  }
}
