/** Is the finalisation of a job whose rows are all written ever lost? */
module Liveness {
  import opened JobState
  import opened JobProtocol
  import opened Wrappers
  import opened Safety

  /** Attempt pc will carry out the finish update if it goes on. */
  predicate WillFinish(v: JobView, pc: Pc) {
    || pc.Recounting?
    || ((pc.CountingRemaining? || pc.ReadingCounters?) && Enough(v))
    || pc.Finishing?
  }

  /** Submit's write of `running` came after a finish update. */
  predicate LateRunning(s: St) {
    s.wrote.WroteRunning? && s.firesBefore == 1
  }

  predicate Owed(s: St) {
    |s.v.rows| >= 1 && AllTerminal(s.v.rows) && Live(s.v.job.status) && !LateRunning(s)
  }

  predicate Hope(s: St) {
    Owed(s) ==> exists a :: 0 <= a < |s.workers| && WillFinish(s.v, s.workers[a])
  }

  /** All rows terminal, the next count will say so. */
  lemma DoneIsTotal(s: St)
    requires Base(s) && AllTerminal(s.v.rows)
    ensures Done(s.v.rows) == s.v.job.total && Remaining(s.v) == 0
  {
    NoneRemaining(s.v);
  }

  /** One more statement of an attempt that will finish. */
  lemma StillFinishes(s: St, a: nat)
    requires Inv(s) && AllTerminal(s.v.rows) && a < |s.workers| && WillFinish(s.v, s.workers[a])
    requires Live(s.v.job.status)
    ensures WorkStep(s, a, NoFault).Some?
    ensures var t := WorkStep(s, a, NoFault).value;
      && t.v.rows == s.v.rows && t.workers == s.workers[a := t.workers[a]]
      && if s.workers[a].Finishing? then !Live(t.v.job.status)
         else WillFinish(t.v, t.workers[a]) && t.v.job.status == s.v.job.status
  {
    DoneIsTotal(s);
  }

  lemma WorkKeepsHope(s: St, a: nat, f: Fault)
    requires Inv(s) && Hope(s) && a < |s.workers| && WorkStep(s, a, f).Some? && Intact(s, Work(a, f))
    ensures Hope(WorkStep(s, a, f).value)
  {
    var t := WorkStep(s, a, f).value;
    if Owed(t) {
      WorkFrame(s, a, f);
      if s.workers[a].Writing? && f.NoFault? {
        assert WillFinish(t.v, t.workers[a]);
      } else {
        assert t.v.rows == s.v.rows && Owed(s);
        DoneIsTotal(s);
        CountersOrigin(s, Work(a, f));
        var b :| 0 <= b < |s.workers| && WillFinish(s.v, s.workers[b]);
        if b == a { StillFinishes(s, a); }
        assert WillFinish(t.v, t.workers[b]);
      }
    }
  }

  /** Events that are no statement of an attempt leave what attempts will do alone. */
  lemma OthersKeepHope(s: St, e: Event)
    requires Inv(s) && Hope(s) && !e.Work? && Step(s, e).Some? && Intact(s, e)
    ensures Hope(Step(s, e).value)
  {
    var t := Step(s, e).value;
    if Owed(t) {
      assert e.Claim? ==> !Terminal(t.v.rows[e.i]);
      assert t.v.rows == s.v.rows && t.v.job.total == s.v.job.total;
      assert t.v.job.completed == s.v.job.completed && t.v.job.failed == s.v.job.failed;
      assert Owed(s);
      var b :| 0 <= b < |s.workers| && WillFinish(s.v, s.workers[b]);
      assert t.workers[b] == s.workers[b];
    }
  }

  lemma StepKeepsHope(s: St, e: Event)
    requires Inv(s) && Hope(s) && Admits(Healthy, s, e) && Step(s, e).Some?
    ensures Hope(Step(s, e).value)
  {
    if Completes(s, e) {
      if e.Work? { WorkKeepsHope(s, e.a, e.f); } else { OthersKeepHope(s, e); }
    }
  }

  lemma {:induction false} RunKeepsHope(s: St, es: Events)
    requires Inv(s) && Hope(s) && Run(Healthy, s, es).Some?
    ensures Inv(Run(Healthy, s, es).value) && Hope(Run(Healthy, s, es).value)
  {
    if es.Then? {
      RunKeepsHope(s, es.before);
      var m := Run(Healthy, s, es.before).value;
      StepKeepsHope(m, es.e);
      StepKeepsInv(m, es.e);
    }
  }

  /** The statements an attempt still has up to its finish update. */
  function Rest(pc: Pc): nat {
    match pc
    case Recounting(_) => 4
    case CountingRemaining(_) => 3
    case ReadingCounters(_) => 2
    case Finishing(_, _, _, _) => 1
    case _ => 0
  }

  /** The next k statements of attempt a, or fewer, leave the job final. */
  predicate FinishesWithin(s: St, a: nat, k: nat)
    decreases k
  {
    || !Live(s.v.job.status)
    || (k > 0 && a < |s.workers| && WorkStep(s, a, NoFault).Some?
        && FinishesWithin(WorkStep(s, a, NoFault).value, a, k - 1))
  }

  lemma {:induction false} FinishesLater(s: St, a: nat, j: nat, k: nat)
    requires FinishesWithin(s, a, j) && j <= k
    ensures FinishesWithin(s, a, k)
    decreases k
  {
    if Live(s.v.job.status) { FinishesLater(WorkStep(s, a, NoFault).value, a, j - 1, k - 1); }
  }

  /** Attempt a alone, run on, finalises the job within four statements. */
  lemma {:induction false} FinishesAlone(s: St, a: nat)
    requires Inv(s) && a < |s.workers| && AllTerminal(s.v.rows) && Live(s.v.job.status)
    requires WillFinish(s.v, s.workers[a])
    ensures FinishesWithin(s, a, Rest(s.workers[a]))
    decreases Rest(s.workers[a])
  {
    var t := WorkStep(s, a, NoFault).value;
    StillFinishes(s, a);
    WorkKeepsInv(s, a, NoFault);
    if !s.workers[a].Finishing? { FinishesAlone(t, a); }
    assert Rest(t.workers[a]) == Rest(s.workers[a]) - 1;
  }

  /** Main result: whatever Submit, redeliveries and claims do, and whatever errors
      and crashes there are while some row is still open: if no statement after a row
      write is lost once all rows are terminal, a job with rows, all terminal, that
      is still pending or running has an attempt that, run on alone, finalises it
      within four statements, unless Submit wrote `running` after a finish update. */
  lemma NoLostFinalisation(n: nat, acked: bool, es: Events, s: St)
    requires Reaches(Healthy, n, acked, es, s)
    requires n >= 1 && AllTerminal(s.v.rows) && Live(s.v.job.status) && !LateRunning(s)
    ensures exists a :: 0 <= a < |s.workers| && FinishesWithin(s, a, 4)
  {
    InitHolds(n, acked);
    RunKeepsHope(Init(n, acked), es);
    RunAdvances(Healthy, Init(n, acked), es);
    assert Owed(s);
    var a :| 0 <= a < |s.workers| && WillFinish(s.v, s.workers[a]);
    FinishesAlone(s, a);
    FinishesLater(s, a, Rest(s.workers[a]), 4);
  }
}
