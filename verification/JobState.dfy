/** One search job as the database holds it: the parent row of `search_jobs` and
    the ordered statuses of its rows in `search_job_results`.  Every function here
    is the effect of one SQL statement of the repository on that job. */
module JobState {

  datatype RowStatus = RowPending | RowClaimed | RowComplete | RowFailed | RowDeadLetter

  datatype JobStatus = Pending | Running | Complete | Failed

  /** `stamped` is true when completed_at is not NULL. */
  datatype Job = Job(status: JobStatus, total: nat, completed: nat, failed: nat, stamped: bool)

  datatype JobView = JobView(job: Job, rows: seq<RowStatus>)

  predicate Terminal(r: RowStatus) {
    r.RowComplete? || r.RowFailed? || r.RowDeadLetter?
  }

  /** Counted in failed_pairs. */
  predicate Unsuccessful(r: RowStatus) {
    r.RowFailed? || r.RowDeadLetter?
  }

  predicate Successful(r: RowStatus) {
    r.RowComplete?
  }

  /** Counted by the first statement of the finish sequence. */
  predicate Outstanding(r: RowStatus) {
    r.RowPending? || r.RowClaimed?
  }

  /** The statuses the guarded finish update accepts. */
  predicate Live(st: JobStatus) {
    st.Pending? || st.Running?
  }

  predicate AllTerminal(rows: seq<RowStatus>) {
    forall i :: 0 <= i < |rows| ==> Terminal(rows[i])
  }

  predicate AllUnsuccessful(rows: seq<RowStatus>) {
    forall i :: 0 <= i < |rows| ==> Unsuccessful(rows[i])
  }

  /** COUNT(*) FILTER (WHERE p). */
  function Count<T>(xs: seq<T>, p: T -> bool): (n: nat)
    ensures n <= |xs|
  {
    if xs == [] then 0 else (if p(xs[0]) then 1 else 0) + Count(xs[1..], p)
  }

  function Done(rows: seq<RowStatus>): nat { Count(rows, Terminal) }
  function Bad(rows: seq<RowStatus>): nat { Count(rows, Unsuccessful) }
  function Good(rows: seq<RowStatus>): nat { Count(rows, Successful) }

  // ---------------------------------------------------------------- statements

  /** The transaction of CreateJob: the job and its n rows. */
  function NewJob(n: nat): JobView {
    JobView(Job(Pending, n, 0, 0, false), seq(n, _ => RowPending))
  }

  /** UpdateResult and MarkResultDeadLetter. */
  function WriteRow(v: JobView, i: nat, st: RowStatus): JobView
    requires i < |v.rows|
  {
    v.(rows := v.rows[i := st])
  }

  /** UpdateJobProgress. */
  function Recount(v: JobView): JobView {
    v.(job := v.job.(completed := Done(v.rows), failed := Bad(v.rows)))
  }

  /** First statement of MarkJobCompleteIfDone. */
  function Remaining(v: JobView): nat {
    Count(v.rows, Outstanding)
  }

  /** The status MarkJobCompleteIfDone decides on. */
  function Verdict(total: nat, failed: nat): JobStatus {
    if failed == total then Failed else Complete
  }

  /** The guarded UPDATE that ends MarkJobCompleteIfDone. */
  function Finish(v: JobView, st: JobStatus): JobView {
    if Live(v.job.status) then v.(job := v.job.(status := st, stamped := true)) else v
  }

  /** MarkJobStatus, unconditional. */
  function SetStatus(v: JobView, st: JobStatus): JobView {
    v.(job := v.job.(status := st, stamped := st.Complete? || st.Failed?))
  }

  /** ClaimNextResult, on the pending row that it picks. */
  function ClaimRow(rows: seq<RowStatus>, i: nat): seq<RowStatus>
    requires i < |rows| && rows[i].RowPending?
  {
    rows[i := RowClaimed]
  }

  // ---------------------------------------------------------------- counting

  lemma {:induction false} CountUpdate<T>(xs: seq<T>, i: nat, x: T, p: T -> bool)
    requires i < |xs|
    ensures Count(xs[i := x], p) == Count(xs, p) - (if p(xs[i]) then 1 else 0) + (if p(x) then 1 else 0)
  {
    if i == 0 {
      assert xs[0 := x][1..] == xs[1..];
    } else {
      assert xs[i := x][1..] == xs[1..][i - 1 := x];
      CountUpdate(xs[1..], i - 1, x, p);
    }
  }

  lemma {:induction false} CountAll<T>(xs: seq<T>, p: T -> bool)
    ensures Count(xs, p) == |xs| <==> forall i :: 0 <= i < |xs| ==> p(xs[i])
  {
    if xs != [] {
      CountAll(xs[1..], p);
      assert forall i :: 0 <= i < |xs| - 1 ==> xs[1..][i] == xs[i + 1];
      if forall i :: 0 <= i < |xs| ==> p(xs[i]) {
        assert forall i :: 0 <= i < |xs[1..]| ==> p(xs[1..][i]);
      }
      if Count(xs, p) == |xs| {
        forall i | 0 <= i < |xs| ensures p(xs[i]) {
          if i > 0 { assert xs[i] == xs[1..][i - 1]; }
        }
      }
    }
  }

  lemma {:induction false} CountNone<T>(xs: seq<T>, p: T -> bool)
    ensures Count(xs, p) == 0 <==> forall i :: 0 <= i < |xs| ==> !p(xs[i])
  {
    if xs != [] {
      CountNone(xs[1..], p);
      assert forall i :: 0 <= i < |xs| - 1 ==> xs[1..][i] == xs[i + 1];
      if forall i :: 0 <= i < |xs| ==> !p(xs[i]) {
        assert forall i :: 0 <= i < |xs[1..]| ==> !p(xs[1..][i]);
      }
      if Count(xs, p) == 0 {
        forall i | 0 <= i < |xs| ensures !p(xs[i]) {
          if i > 0 { assert xs[i] == xs[1..][i - 1]; }
        }
      }
    }
  }

  lemma {:induction false} CountMonotone<T>(xs: seq<T>, ys: seq<T>, p: T -> bool)
    requires |xs| == |ys|
    requires forall i :: 0 <= i < |xs| && p(xs[i]) ==> p(ys[i])
    ensures Count(xs, p) <= Count(ys, p)
  {
    if xs != [] { CountMonotone(xs[1..], ys[1..], p); }
  }

  /** The rows split into finished-well, finished-badly and outstanding. */
  lemma {:induction false} CountsPartition(rows: seq<RowStatus>)
    ensures Done(rows) == Good(rows) + Bad(rows)
    ensures Done(rows) + Count(rows, Outstanding) == |rows|
  {
    if rows != [] { CountsPartition(rows[1..]); }
  }

  /** A claim changes none of the counts, nor whether a row is terminal. */
  lemma ClaimCountsNothing(rows: seq<RowStatus>, i: nat)
    requires i < |rows| && rows[i].RowPending?
    ensures var out := ClaimRow(rows, i);
      && Done(out) == Done(rows) && Bad(out) == Bad(rows) && Good(out) == Good(rows)
      && Count(out, Outstanding) == Count(rows, Outstanding)
      && (forall k :: 0 <= k < |rows| ==> (Terminal(out[k]) <==> Terminal(rows[k])))
  {
    CountUpdate(rows, i, RowClaimed, Terminal);
    CountUpdate(rows, i, RowClaimed, Unsuccessful);
    CountUpdate(rows, i, RowClaimed, Successful);
    CountUpdate(rows, i, RowClaimed, Outstanding);
  }

  /** The finish sequence's first statement answers exactly "are all rows terminal". */
  lemma NoneRemaining(v: JobView)
    ensures Remaining(v) == 0 <==> AllTerminal(v.rows)
    ensures Remaining(v) == 0 <==> Done(v.rows) == |v.rows|
  {
    CountsPartition(v.rows);
    CountAll(v.rows, Terminal);
  }
}
