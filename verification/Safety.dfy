/** What holds in every interleaving, with every fault, crash, redelivery and claim. */
module Safety {
  import opened JobState
  import opened JobProtocol
  import opened Wrappers

  /** What an attempt past a read of the finish sequence still knows. */
  predicate KnowsDone(v: JobView, pc: Pc) {
    && (pc.ReadingCounters? || pc.Finishing? ==> AllTerminal(v.rows))
    && (pc.Finishing? ==>
          pc.total == v.job.total && pc.failed <= pc.completed <= pc.total <= pc.completed + pc.failed)
  }

  /** The guard of the finish update, although completed already includes failed. */
  predicate Enough(v: JobView) {
    v.job.completed + v.job.failed >= v.job.total
  }

  predicate CountersOk(v: JobView) {
    && v.job.total == |v.rows|
    && v.job.failed <= v.job.completed <= Done(v.rows)
  }

  /** The job's status against the history of status writes. */
  predicate StatusOk(s: St) {
    var st := s.v.job.status;
    && (s.v.job.stamped <==> !Live(st))
    && s.firesBefore <= 1 && s.firesAfter <= 1
    && (Fires(s) > 0 ==> |s.v.rows| >= 1 && AllTerminal(s.v.rows))
    && (s.wrote.Nothing? ==> s.firesAfter == 0 && (!Live(st) <==> s.firesBefore == 1))
    && (s.wrote.WroteRunning? ==> !st.Pending? && (!Live(st) <==> s.firesAfter == 1))
    && (s.wrote.WroteFailed? ==> st.Failed? && s.firesAfter == 0)
    && (!s.sub.Returned? ==> s.wrote.Nothing?)
  }

  /** What holds even when counters are written later than they were counted. */
  predicate Base(s: St) {
    && CountersOk(s.v)
    && StatusOk(s)
    && (s.workers == [] || |s.workers| == MAX_ATTEMPTS * |s.v.rows|)
    && (s.sub.ReadingBack? || s.sub.Enqueuing? ==> s.workers == [])
    && forall a :: 0 <= a < |s.workers| ==> KnowsDone(s.v, s.workers[a])
  }

  /** Once all rows are terminal a recount is final: what an attempt has read of the
      counters is still there, or they are complete. */
  predicate Linked(s: St) {
    && (Fires(s) > 0 ==> Enough(s.v))
    && forall a :: 0 <= a < |s.workers| ==> ReadIsThere(s.v.job, s.workers[a])
  }

  predicate ReadIsThere(job: Job, pc: Pc) {
    pc.Finishing? ==> job.completed == job.total || (job.completed == pc.completed && job.failed == pc.failed)
  }

  predicate Inv(s: St) { Base(s) && Linked(s) }

  /** Nothing a step does takes a row out of a terminal status. */
  predicate RowsAdvance(xs: seq<RowStatus>, ys: seq<RowStatus>) {
    |xs| == |ys| && forall i :: 0 <= i < |xs| && Terminal(xs[i]) ==> Terminal(ys[i])
  }

  lemma InitHolds(n: nat, acked: bool)
    ensures Inv(Init(n, acked))
  {
  }

  lemma StepAdvancesRows(s: St, e: Event)
    requires Step(s, e).Some?
    ensures RowsAdvance(s.v.rows, Step(s, e).value.v.rows)
    ensures Done(s.v.rows) <= Done(Step(s, e).value.v.rows)
  {
    CountMonotone(s.v.rows, Step(s, e).value.v.rows, Terminal);
  }

  lemma WorkKeepsCounters(s: St, a: nat, f: Fault)
    requires Base(s) && a < |s.workers| && WorkStep(s, a, f).Some?
    ensures CountersOk(WorkStep(s, a, f).value.v)
  {
    StepAdvancesRows(s, Work(a, f));
    CountsPartition(s.v.rows);
  }

  /** The job's counters after a step are the old ones or a fresh count. */
  lemma CountersOrigin(s: St, e: Event)
    requires Step(s, e).Some?
    ensures var t := Step(s, e).value;
      || (t.v.job.completed == s.v.job.completed && t.v.job.failed == s.v.job.failed)
      || (t.v.job.completed == Done(s.v.rows) && t.v.job.failed == Bad(s.v.rows))
  {
  }

  /** What a statement of an attempt does to the status and its history. */
  lemma OnlyFinishDecides(s: St, a: nat, f: Fault)
    requires a < |s.workers| && WorkStep(s, a, f).Some?
    ensures var t := WorkStep(s, a, f).value;
      && t.sub == s.sub && t.wrote == s.wrote
      && if s.workers[a].Finishing? && !f.Lost? && Live(s.v.job.status)
         then t == Goto(FireFinish(s, Verdict(s.workers[a].total, s.workers[a].failed)), a, t.workers[a])
         else t.v.job.status == s.v.job.status && t.v.job.stamped == s.v.job.stamped
              && t.firesBefore == s.firesBefore && t.firesAfter == s.firesAfter
  {
  }

  lemma WorkKeepsStatus(s: St, a: nat, f: Fault)
    requires Base(s) && a < |s.workers| && WorkStep(s, a, f).Some?
    ensures StatusOk(WorkStep(s, a, f).value)
  {
    StepAdvancesRows(s, Work(a, f));
    NoneRemaining(s.v);
    OnlyFinishDecides(s, a, f);
    assert KnowsDone(s.v, s.workers[a]);
  }

  lemma WorkKeepsKnowledge(s: St, a: nat, f: Fault)
    requires Base(s) && a < |s.workers| && WorkStep(s, a, f).Some?
    ensures KnowsDone(WorkStep(s, a, f).value.v, WorkStep(s, a, f).value.workers[a])
  {
    NoneRemaining(s.v);
  }

  /** A statement of one attempt moves that attempt alone, and not the submitter. */
  lemma WorkFrame(s: St, a: nat, f: Fault)
    requires a < |s.workers| && WorkStep(s, a, f).Some?
    ensures var t := WorkStep(s, a, f).value;
      && t.workers == s.workers[a := t.workers[a]]
      && t.sub == s.sub && t.wrote == s.wrote
      && t.v.job.total == s.v.job.total
      && RowsAdvance(s.v.rows, t.v.rows)
  {
  }

  lemma WorkKeepsBase(s: St, a: nat, f: Fault)
    requires Base(s) && a < |s.workers| && WorkStep(s, a, f).Some?
    ensures Base(WorkStep(s, a, f).value)
  {
    var t := WorkStep(s, a, f).value;
    WorkKeepsCounters(s, a, f);
    WorkKeepsStatus(s, a, f);
    WorkKeepsKnowledge(s, a, f);
    WorkFrame(s, a, f);
    forall b | 0 <= b < |t.workers| ensures KnowsDone(t.v, t.workers[b]) {
      assert KnowsDone(s.v, s.workers[b]);
    }
  }

  lemma SubmitKeepsBase(s: St, f: Fault)
    requires Base(s) && SubmitStep(s, f).Some?
    ensures Base(SubmitStep(s, f).value)
  {
  }

  lemma StepKeepsBase(s: St, e: Event)
    requires Base(s) && Step(s, e).Some?
    ensures Base(Step(s, e).value)
  {
    if e.Work? {
      WorkKeepsBase(s, e.a, e.f);
    } else if e.Claim? {
      StepAdvancesRows(s, e);
    } else if e.Submit? {
      SubmitKeepsBase(s, e.f);
    } else {
      assert Step(s, e).value == s.(workers := Step(s, e).value.workers);
    }
  }

  lemma WorkReads(s: St, a: nat, f: Fault)
    requires Inv(s) && a < |s.workers| && WorkStep(s, a, f).Some?
    ensures ReadIsThere(WorkStep(s, a, f).value.v.job, WorkStep(s, a, f).value.workers[a])
  {
  }

  lemma WorkKeepsLinked(s: St, a: nat, f: Fault)
    requires Inv(s) && a < |s.workers| && WorkStep(s, a, f).Some?
    ensures Linked(WorkStep(s, a, f).value)
  {
    var t := WorkStep(s, a, f).value;
    NoneRemaining(s.v);
    CountersOrigin(s, Work(a, f));
    OnlyFinishDecides(s, a, f);
    WorkFrame(s, a, f);
    WorkReads(s, a, f);
    assert KnowsDone(s.v, s.workers[a]) && ReadIsThere(s.v.job, s.workers[a]);
    forall b | 0 <= b < |t.workers| ensures ReadIsThere(t.v.job, t.workers[b]) {
      assert KnowsDone(s.v, s.workers[b]) && ReadIsThere(s.v.job, s.workers[b]);
    }
  }

  lemma WorkKeepsInv(s: St, a: nat, f: Fault)
    requires Inv(s) && a < |s.workers| && WorkStep(s, a, f).Some?
    ensures Inv(WorkStep(s, a, f).value)
  {
    WorkKeepsBase(s, a, f);
    WorkKeepsLinked(s, a, f);
  }

  /** Events that are no statement of an attempt neither fire nor count. */
  lemma OthersDecideNothing(s: St, e: Event)
    requires Base(s) && Step(s, e).Some? && !e.Work?
    ensures var t := Step(s, e).value;
      && t.v.job.(status := s.v.job.status, stamped := s.v.job.stamped) == s.v.job
      && Fires(t) == Fires(s)
      && forall b :: 0 <= b < |t.workers| && t.workers[b].Finishing? ==> b < |s.workers| && s.workers[b] == t.workers[b]
  {
  }

  lemma StepKeepsInv(s: St, e: Event)
    requires Inv(s) && Step(s, e).Some?
    ensures Inv(Step(s, e).value)
  {
    StepKeepsBase(s, e);
    if e.Work? {
      WorkKeepsLinked(s, e.a, e.f);
    } else {
      OthersDecideNothing(s, e);
      assert forall b :: 0 <= b < |s.workers| ==> ReadIsThere(s.v.job, s.workers[b]);
    }
  }

  // ---------------------------------------------------------------- whole runs

  lemma {:induction false} RunKeepsInv(r: Regime, s: St, es: Events)
    requires Inv(s) && Run(r, s, es).Some?
    ensures Inv(Run(r, s, es).value)
  {
    if es.Then? {
      RunKeepsInv(r, s, es.before);
      var m := Run(r, s, es.before).value;
      StepKeepsInv(m, es.e);
    }
  }

  lemma ReachedInv(r: Regime, n: nat, acked: bool, es: Events, s: St)
    requires Reaches(r, n, acked, es, s)
    ensures Inv(s)
  {
    InitHolds(n, acked);
    RunKeepsInv(r, Init(n, acked), es);
  }

  lemma StepAdvances(s: St, e: Event)
    requires Inv(s) && Step(s, e).Some?
    ensures var t := Step(s, e).value;
      && RowsAdvance(s.v.rows, t.v.rows)
      && s.v.job.completed <= t.v.job.completed && s.v.job.total == t.v.job.total
  {
    StepAdvancesRows(s, e);
  }

  /** Terminal rows stay terminal to the end of every run, so the progress counter
      never goes back. */
  lemma {:induction false} RunAdvances(r: Regime, s: St, es: Events)
    requires Inv(s) && Run(r, s, es).Some?
    ensures RowsAdvance(s.v.rows, Run(r, s, es).value.v.rows)
    ensures s.v.job.completed <= Run(r, s, es).value.v.job.completed
    ensures s.v.job.total == Run(r, s, es).value.v.job.total
  {
    if es.Then? {
      RunAdvances(r, s, es.before);
      RunKeepsInv(r, s, es.before);
      StepAdvances(Run(r, s, es.before).value, es.e);
    }
  }

  lemma FiredOverTerminal(s: St, e: Event)
    requires Inv(s) && Step(s, e).Some? && Fired(s, Step(s, e).value)
    ensures AllTerminal(s.v.rows)
  {
  }

  /** Main result: when the guarded finish update takes effect, every row of the
      job is terminal, although the remaining rows were counted two statements
      earlier; and they stay terminal. */
  lemma {:induction false} NeverFinalisedEarly(n: nat, acked: bool, es: Events, s: St, e: Event, t: St,
                                               later: Events, u: St)
    requires Reaches(Anything, n, acked, es, s)
    requires Step(s, e) == Some(t) && Fired(s, t)
    requires Run(Anything, t, later) == Some(u)
    ensures |s.v.rows| == n && |u.v.rows| == n
    ensures forall i :: 0 <= i < n ==> Terminal(s.v.rows[i]) && Terminal(u.v.rows[i])
  {
    InitHolds(n, acked);
    RunAdvances(Anything, Init(n, acked), es);
    ReachedInv(Anything, n, acked, es, s);
    StepKeepsInv(s, e);
    FiredOverTerminal(s, e);
    StepAdvancesRows(s, e);
    RunAdvances(Anything, t, later);
  }

  /** A job shown complete or failed, not failed by Submit itself, has no open row. */
  lemma FinalMeansDone(n: nat, acked: bool, es: Events, s: St)
    requires Reaches(Anything, n, acked, es, s)
    requires !Live(s.v.job.status) && !s.wrote.WroteFailed?
    ensures AllTerminal(s.v.rows)
  {
    ReachedInv(Anything, n, acked, es, s);
  }

  /** Main result: 0 <= failed <= completed <= total in every reachable state, and
      completed never decreases afterwards. */
  lemma CountersSound(n: nat, acked: bool, es: Events, s: St, later: Events)
    requires Reaches(Anything, n, acked, es, s)
    requires Run(Anything, s, later).Some?
    ensures s.v.job.failed <= s.v.job.completed <= s.v.job.total == n
    ensures s.v.job.completed <= Run(Anything, s, later).value.v.job.completed
  {
    ReachedInv(Anything, n, acked, es, s);
    RunAdvances(Anything, Init(n, acked), es) by { InitHolds(n, acked); }
    RunAdvances(Anything, s, later);
  }

  lemma StepDecided(s: St, e: Event)
    requires Inv(s) && Step(s, e).Some?
    requires s.sub.Returned? && !Live(s.v.job.status)
    ensures var t := Step(s, e).value;
      t.sub == s.sub && t.wrote == s.wrote && t.v.job.status == s.v.job.status && Fires(t) == Fires(s)
  {
  }

  lemma {:induction false} StaysDecided(s: St, es: Events)
    requires Inv(s) && Run(Anything, s, es).Some?
    requires s.sub.Returned? && !Live(s.v.job.status)
    ensures Run(Anything, s, es).value.v.job.status == s.v.job.status
    ensures Fires(Run(Anything, s, es).value) == Fires(s)
    ensures Run(Anything, s, es).value.sub.Returned?
  {
    if es.Then? {
      StaysDecided(s, es.before);
      RunKeepsInv(Anything, s, es.before);
      var m := Run(Anything, s, es.before).value;
      StepDecided(m, es.e);
    }
  }

  /** Once Submit has returned, a final status is final for good, and no finish
      call takes effect again. */
  lemma {:induction false} DecidedForever(n: nat, acked: bool, es: Events, s: St, later: Events, u: St)
    requires Reaches(Anything, n, acked, es, s) && Run(Anything, s, later) == Some(u)
    requires s.sub.Returned? && !Live(s.v.job.status)
    ensures u.v.job.status == s.v.job.status && Fires(u) == Fires(s)
  {
    ReachedInv(Anything, n, acked, es, s);
    StaysDecided(s, later);
  }

  /** A job that Submit marked failed after an error is never changed by an attempt. */
  lemma MarkedFailedForever(n: nat, acked: bool, es: Events, s: St, later: Events)
    requires Reaches(Anything, n, acked, es, s)
    requires s.wrote.WroteFailed? && Run(Anything, s, later).Some?
    ensures Run(Anything, s, later).value.v.job.status.Failed?
    ensures Fires(Run(Anything, s, later).value) == Fires(s)
  {
    ReachedInv(Anything, n, acked, es, s);
    StaysDecided(s, later);
  }

  /** Main result: the finish update takes effect at most once before Submit's
      status write and at most once after it; exactly when it has taken effect in
      the current phase is the job final (unless Submit failed it). */
  lemma FinalisedOncePerPhase(n: nat, acked: bool, es: Events, s: St)
    requires Reaches(Anything, n, acked, es, s)
    ensures s.firesBefore <= 1 && s.firesAfter <= 1
    ensures s.wrote.Nothing? ==> (Fires(s) == 1 <==> !Live(s.v.job.status))
    ensures s.wrote.WroteRunning? ==> (s.firesAfter == 1 <==> !Live(s.v.job.status))
    ensures s.v.job.stamped <==> !Live(s.v.job.status)
  {
    ReachedInv(Anything, n, acked, es, s);
  }
}
