/** Is the status a finish call decides the right one, although the counters it
    read may be older than the rows? */
module FinalStatus {
  import opened JobState
  import opened JobProtocol
  import opened Wrappers
  import opened Safety

  /** Which event makes a finish update take effect, and what it writes. */
  lemma FiringAttempt(s: St, e: Event)
    requires Step(s, e).Some? && Fired(s, Step(s, e).value)
    ensures e.Work? && e.a < |s.workers| && s.workers[e.a].Finishing? && Live(s.v.job.status)
    ensures Step(s, e).value.v.rows == s.v.rows
    ensures Step(s, e).value.v.job.status == Verdict(s.workers[e.a].total, s.workers[e.a].failed)
  {
  }

  // ------------------------------------------------- rows written at most once

  /** c and f were counted at some earlier moment: since then rows only joined. */
  predicate Counted(rows: seq<RowStatus>, c: nat, f: nat) {
    f <= c && f <= Bad(rows) && c - f <= Good(rows)
  }

  predicate OnceInv(s: St) {
    && Inv(s)
    && Counted(s.v.rows, s.v.job.completed, s.v.job.failed)
    && forall a :: 0 <= a < |s.workers| && s.workers[a].Finishing? ==>
         Counted(s.v.rows, s.workers[a].completed, s.workers[a].failed)
  }

  /** Written rows keep their status. */
  predicate RowsFrozen(xs: seq<RowStatus>, ys: seq<RowStatus>) {
    |xs| == |ys| && forall i :: 0 <= i < |xs| && Terminal(xs[i]) ==> ys[i] == xs[i]
  }

  lemma FrozenCounts(xs: seq<RowStatus>, ys: seq<RowStatus>)
    requires RowsFrozen(xs, ys)
    ensures Bad(xs) <= Bad(ys) && Good(xs) <= Good(ys)
  {
    CountMonotone(xs, ys, Unsuccessful);
    CountMonotone(xs, ys, Successful);
  }

  lemma StepFreezes(s: St, e: Event)
    requires Admits(WriteOnce, s, e) && Step(s, e).Some?
    ensures RowsFrozen(s.v.rows, Step(s, e).value.v.rows)
  {
  }

  /** Finishing attempts after a step either were finishing before, or have just
      read the job's counters. */
  lemma FinishingOrigin(s: St, e: Event, b: nat)
    requires Step(s, e).Some? && b < |Step(s, e).value.workers|
    requires Step(s, e).value.workers[b].Finishing?
    ensures b < |s.workers|
    ensures var pc := Step(s, e).value.workers[b];
      s.workers[b] == pc || (pc.completed == s.v.job.completed && pc.failed == s.v.job.failed)
  {
  }

  lemma StepKeepsOnce(s: St, e: Event)
    requires OnceInv(s) && Admits(WriteOnce, s, e) && Step(s, e).Some?
    ensures OnceInv(Step(s, e).value)
  {
    var t := Step(s, e).value;
    StepKeepsInv(s, e);
    StepFreezes(s, e);
    FrozenCounts(s.v.rows, t.v.rows);
    CountsPartition(s.v.rows);
    CountersOrigin(s, e);
    forall b | 0 <= b < |t.workers| && t.workers[b].Finishing?
      ensures Counted(t.v.rows, t.workers[b].completed, t.workers[b].failed)
    {
      FinishingOrigin(s, e, b);
    }
  }

  lemma {:induction false} RunKeepsOnce(s: St, es: Events)
    requires OnceInv(s) && Run(WriteOnce, s, es).Some?
    ensures OnceInv(Run(WriteOnce, s, es).value)
    ensures RowsFrozen(s.v.rows, Run(WriteOnce, s, es).value.v.rows)
  {
    if es.Then? {
      RunKeepsOnce(s, es.before);
      var m := Run(WriteOnce, s, es.before).value;
      StepKeepsOnce(m, es.e);
      StepFreezes(m, es.e);
    }
  }

  lemma ReachedOnce(n: nat, acked: bool, es: Events, s: St)
    requires Reaches(WriteOnce, n, acked, es, s)
    ensures OnceInv(s)
  {
    InitHolds(n, acked);
    RunKeepsOnce(Init(n, acked), es);
  }

  /** Main result: with each row written once, a job finalised as failed has only
      unsuccessful rows, then and ever after. */
  lemma {:induction false} FailedIsSound(n: nat, acked: bool, es: Events, s: St, e: Event, t: St, later: Events, u: St)
    requires Reaches(WriteOnce, n, acked, es, s)
    requires Admits(WriteOnce, s, e) && Step(s, e) == Some(t) && Fired(s, t)
    requires t.v.job.status.Failed? && Run(WriteOnce, t, later) == Some(u)
    ensures AllUnsuccessful(u.v.rows)
  {
    ReachedOnce(n, acked, es, s);
    FiringAttempt(s, e);
    CountAll(s.v.rows, Unsuccessful);
    assert AllUnsuccessful(s.v.rows);
    StepKeepsOnce(s, e);
    RunKeepsOnce(t, later);
  }

  /** The status is the one the rows deserve. */
  predicate Deserved(v: JobView) {
    v.job.status.Failed? <==> AllUnsuccessful(v.rows)
  }

  /** Main result: with each row written once, the decided status is right if and
      only if the finaliser read completed_pairs = total_pairs, or some row is not
      a failure.  The wrong answers are exactly the jobs whose rows all failed and
      whose counters were stale. */
  lemma VerdictExact(n: nat, acked: bool, es: Events, s: St, e: Event)
    requires Reaches(WriteOnce, n, acked, es, s)
    requires Step(s, e).Some? && Fired(s, Step(s, e).value)
    ensures e.Work? && e.a < |s.workers| && s.workers[e.a].Finishing?
    ensures Deserved(Step(s, e).value.v)
            <==> s.workers[e.a].completed == s.workers[e.a].total || !AllUnsuccessful(s.v.rows)
  {
    ReachedOnce(n, acked, es, s);
    FiringAttempt(s, e);
    assert KnowsDone(s.v, s.workers[e.a]);
    CountAll(s.v.rows, Unsuccessful);
    CountsPartition(s.v.rows);
  }

  // ------------------------------------------------- one attempt at a time

  predicate Single(s: St) {
    forall a, b :: 0 <= a < b < |s.workers| ==> !Active(s.workers[a]) || !Active(s.workers[b])
  }

  lemma WorkIsActive(s: St, a: nat, f: Fault)
    requires a < |s.workers| && WorkStep(s, a, f).Some?
    ensures Active(s.workers[a])
  {
  }

  lemma StepKeepsSingle(s: St, e: Event)
    requires Single(s) && Step(s, e).Some? && (e.Start? ==> NoneActive(s))
    ensures Single(Step(s, e).value)
  {
    if e.Work? {
      WorkFrame(s, e.a, e.f);
      WorkIsActive(s, e.a, e.f);
    }
  }

  /** Nobody else is running beside the attempt that takes a statement. */
  lemma OthersRest(s: St, a: nat, f: Fault, b: nat)
    requires Single(s) && a < |s.workers| && WorkStep(s, a, f).Some? && b < |s.workers| && b != a
    ensures !Active(s.workers[b])
    ensures WorkStep(s, a, f).value.workers == s.workers[a := WorkStep(s, a, f).value.workers[a]]
  {
    WorkFrame(s, a, f);
    WorkIsActive(s, a, f);
    assert a < b || b < a;
  }

  /** Events that are no statement of an attempt change no counts and no counters. */
  lemma OthersCount(s: St, e: Event)
    requires Step(s, e).Some? && !e.Work?
    ensures var t := Step(s, e).value;
      && Done(t.v.rows) == Done(s.v.rows) && Bad(t.v.rows) == Bad(s.v.rows)
      && t.v.job.completed == s.v.job.completed && t.v.job.failed == s.v.job.failed
      && RowsFrozen(s.v.rows, t.v.rows)
  {
    if e.Claim? { ClaimCountsNothing(s.v.rows, e.i); }
  }

  // ------------------------------------------------- without faults

  /** Between its recount and its finish update, the only running attempt sees
      counters that match the rows. */
  predicate Fresh(v: JobView, pc: Pc) {
    && (pc.CountingRemaining? || pc.ReadingCounters? ==>
          v.job.completed == Done(v.rows) && v.job.failed == Bad(v.rows))
    && (pc.Finishing? ==> pc.completed == Done(v.rows) && pc.failed == Bad(v.rows))
  }

  predicate SoloInv(s: St) {
    Inv(s) && Single(s) && forall a :: 0 <= a < |s.workers| ==> Fresh(s.v, s.workers[a])
  }

  lemma WorkKeepsFresh(s: St, a: nat)
    requires a < |s.workers| && Fresh(s.v, s.workers[a]) && WorkStep(s, a, NoFault).Some?
    ensures Fresh(WorkStep(s, a, NoFault).value.v, WorkStep(s, a, NoFault).value.workers[a])
  {
  }

  lemma StepKeepsSolo(s: St, e: Event)
    requires SoloInv(s) && Admits(OneAtATime, s, e) && Step(s, e).Some?
    ensures SoloInv(Step(s, e).value)
  {
    var t := Step(s, e).value;
    StepKeepsInv(s, e);
    StepKeepsSingle(s, e);
    forall b | 0 <= b < |t.workers| ensures Fresh(t.v, t.workers[b]) {
      if !e.Work? {
        OthersKeepFresh(s, e, b);
      } else if b == e.a {
        WorkKeepsFresh(s, b);
      } else {
        OthersRest(s, e.a, e.f, b);
      }
    }
  }

  lemma OthersKeepFresh(s: St, e: Event, b: nat)
    requires SoloInv(s) && !e.Work? && Step(s, e).Some? && b < |Step(s, e).value.workers|
    ensures Fresh(Step(s, e).value.v, Step(s, e).value.workers[b])
  {
    OthersCount(s, e);
    if InFinish(Step(s, e).value.workers[b]) { OthersFinish(s, e, b); }
    if b < |s.workers| { assert Fresh(s.v, s.workers[b]); }
  }

  /** Only a statement of its own takes an attempt to or through its finish call. */
  lemma OthersFinish(s: St, e: Event, b: nat)
    requires !e.Work? && Step(s, e).Some? && b < |Step(s, e).value.workers|
    requires InFinish(Step(s, e).value.workers[b])
    ensures b < |s.workers| && s.workers[b] == Step(s, e).value.workers[b]
  {
  }

  lemma {:induction false} RunKeepsSolo(s: St, es: Events)
    requires SoloInv(s) && Run(OneAtATime, s, es).Some?
    ensures SoloInv(Run(OneAtATime, s, es).value)
  {
    if es.Then? {
      RunKeepsSolo(s, es.before);
      var m := Run(OneAtATime, s, es.before).value;
      StepKeepsSolo(m, es.e);
    }
  }

  /** Main result: with one attempt at a time, and no fault or crash in it, the
      decided status is always right, however often rows are rewritten. */
  lemma SoloVerdictExact(n: nat, acked: bool, es: Events, s: St, e: Event)
    requires Reaches(OneAtATime, n, acked, es, s)
    requires Admits(OneAtATime, s, e) && Step(s, e).Some? && Fired(s, Step(s, e).value)
    ensures Deserved(Step(s, e).value.v)
  {
    InitHolds(n, acked);
    RunKeepsSolo(Init(n, acked), es);
    FiringAttempt(s, e);
    assert Fresh(s.v, s.workers[e.a]);
    CountAll(s.v.rows, Unsuccessful);
  }

  // ------------------------------------------------- with rows written once

  /** An attempt on its way to the finish update has stored its row, or has counted
      all rows since it wrote it. */
  predicate Vouched(v: JobView, a: nat, pc: Pc) {
    InFinish(pc) ==>
      if pc.o.Stored? then Item(a) < |v.rows| && v.rows[Item(a)].RowComplete?
      else
        && (pc.CountingRemaining? || pc.ReadingCounters? ==> v.job.completed == Done(v.rows))
        && (pc.Finishing? ==> pc.completed == Done(v.rows))
  }

  predicate WriterInv(s: St) {
    OnceInv(s) && Single(s) && forall a :: 0 <= a < |s.workers| ==> Vouched(s.v, a, s.workers[a])
  }

  lemma WorkKeepsVouched(s: St, a: nat, f: Fault)
    requires a < |s.workers| && Vouched(s.v, a, s.workers[a]) && WorkStep(s, a, f).Some?
    ensures Vouched(WorkStep(s, a, f).value.v, a, WorkStep(s, a, f).value.workers[a])
  {
  }

  lemma StepKeepsWriter(s: St, e: Event)
    requires WriterInv(s) && Admits(OneWriter, s, e) && Step(s, e).Some?
    ensures WriterInv(Step(s, e).value)
  {
    var t := Step(s, e).value;
    StepKeepsOnce(s, e);
    StepKeepsSingle(s, e);
    forall b | 0 <= b < |t.workers| ensures Vouched(t.v, b, t.workers[b]) {
      if !e.Work? {
        OthersKeepVouched(s, e, b);
      } else if b == e.a {
        WorkKeepsVouched(s, b, e.f);
      } else {
        OthersRest(s, e.a, e.f, b);
      }
    }
  }

  lemma OthersKeepVouched(s: St, e: Event, b: nat)
    requires WriterInv(s) && !e.Work? && Step(s, e).Some? && b < |Step(s, e).value.workers|
    ensures Vouched(Step(s, e).value.v, b, Step(s, e).value.workers[b])
  {
    if InFinish(Step(s, e).value.workers[b]) {
      OthersCount(s, e);
      OthersFinish(s, e, b);
      assert Vouched(s.v, b, s.workers[b]);
    }
  }

  lemma {:induction false} RunKeepsWriter(s: St, es: Events)
    requires WriterInv(s) && Run(OneWriter, s, es).Some?
    ensures WriterInv(Run(OneWriter, s, es).value) && Run(WriteOnce, s, es) == Run(OneWriter, s, es)
  {
    if es.Then? {
      RunKeepsWriter(s, es.before);
      StepKeepsWriter(Run(OneWriter, s, es.before).value, es.e);
    }
  }

  /** Main result: with one attempt at a time and each row written once, the decided
      status is always right, under every fault and every crash. */
  lemma WriterVerdictExact(n: nat, acked: bool, es: Events, s: St, e: Event)
    requires Reaches(OneWriter, n, acked, es, s)
    requires Step(s, e).Some? && Fired(s, Step(s, e).value)
    ensures Deserved(Step(s, e).value.v)
  {
    InitHolds(n, acked);
    RunKeepsWriter(Init(n, acked), es);
    VerdictExact(n, acked, es, s, e);
    FiringAttempt(s, e);
    assert Vouched(s.v, e.a, s.workers[e.a]) && KnowsDone(s.v, s.workers[e.a]);
    NoneRemaining(s.v);
  }
}
