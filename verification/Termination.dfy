/** Every run is short: a bound on the steps of one job. */
module Termination {
  import opened JobState
  import opened JobProtocol
  import opened Wrappers
  import opened Safety
  import opened Quiescence

  /** Steps left in an attempt, counting a queued one's start. */
  function Left(pc: Pc): nat {
    match pc
    case Queued => 11
    case Requeued => 11
    case Acquiring => 10
    case Entering => 9
    case Fetching => 8
    case Writing(_) => 7
    case Recounting(_) => 6
    case CountingRemaining(_) => 5
    case ReadingCounters(_) => 4
    case Finishing(_, _, _, _) => 3
    case Leaving(_) => 2
    case Releasing(_) => 1
    case _ => 0
  }

  function Sum(ws: seq<Pc>): nat {
    if ws == [] then 0 else Left(ws[0]) + Sum(ws[1..])
  }

  const ATTEMPT_STEPS := 11

  /** Steps left in Submit; those before the enqueue also pay for the attempts. */
  function SubmitLeft(s: St): nat {
    var all := ATTEMPT_STEPS * MAX_ATTEMPTS * |s.v.rows|;
    match s.sub
    case ReadingBack => all + 3
    case Enqueuing(_) => all + 2
    case MarkingRunning => 1
    case MarkingFailed => 1
    case Returned(_) => 0
  }

  function Measure(s: St): nat { SubmitLeft(s) + Sum(s.workers) }

  /** Number of productive events. */
  function ProductiveSteps(es: Events): nat {
    match es
    case NoEvents => 0
    case Then(before, e) => ProductiveSteps(before) + if Productive(e) then 1 else 0
  }

  function Snoozes(es: Events): nat {
    match es
    case NoEvents => 0
    case Then(before, e) => Snoozes(before) + if e.Snooze? then 1 else 0
  }

  lemma {:induction false} SumUpdate(ws: seq<Pc>, a: nat, pc: Pc)
    requires a < |ws|
    ensures Sum(ws[a := pc]) == Sum(ws) - Left(ws[a]) + Left(pc)
  {
    if a == 0 {
      assert ws[0 := pc][1..] == ws[1..];
    } else {
      assert ws[a := pc][1..] == ws[1..][a - 1 := pc];
      SumUpdate(ws[1..], a - 1, pc);
    }
  }

  lemma {:induction false} SumBelow(ws: seq<Pc>, us: seq<Pc>)
    requires |ws| == |us| && forall a :: 0 <= a < |ws| ==> Left(ws[a]) <= Left(us[a])
    ensures Sum(ws) <= Sum(us)
  {
    if ws != [] { SumBelow(ws[1..], us[1..]); }
  }

  lemma {:induction false} SumAtMost(ws: seq<Pc>)
    ensures Sum(ws) <= ATTEMPT_STEPS * |ws|
  {
    if ws != [] { SumAtMost(ws[1..]); }
  }

  lemma WorkUsesUp(s: St, a: nat, f: Fault)
    requires a < |s.workers| && WorkStep(s, a, f).Some?
    ensures Measure(WorkStep(s, a, f).value) < Measure(s)
  {
    var t := WorkStep(s, a, f).value;
    WorkFrame(s, a, f);
    SumUpdate(s.workers, a, t.workers[a]);
    WorkGoesOn(s, a, f);
  }

  lemma WorkGoesOn(s: St, a: nat, f: Fault)
    requires a < |s.workers| && WorkStep(s, a, f).Some?
    ensures Left(WorkStep(s, a, f).value.workers[a]) < Left(s.workers[a])
  {
  }

  lemma SubmitUsesUp(s: St, f: Fault)
    requires Inv(s) && SubmitStep(s, f).Some?
    ensures Measure(SubmitStep(s, f).value) < Measure(s)
  {
    SumAtMost(SubmitStep(s, f).value.workers);
  }

  lemma AttemptMoves(s: St, e: Event)
    requires Step(s, e).Some? && (e.Start? || e.Snooze? || e.WaitFails? || e.Fetch? || e.Requeue?)
    ensures e.Snooze? ==> Measure(Step(s, e).value) == Measure(s) + 1
    ensures e.Requeue? ==> Measure(Step(s, e).value) == Measure(s)
    ensures Productive(e) ==> Measure(Step(s, e).value) < Measure(s)
  {
    SumUpdate(s.workers, e.a, Step(s, e).value.workers[e.a]);
  }

  /** Every productive event uses up at least one step; only a snooze gives one back. */
  lemma StepUsesUp(s: St, e: Event)
    requires Inv(s) && Step(s, e).Some?
    ensures Productive(e) ==> Measure(Step(s, e).value) < Measure(s)
    ensures e.Snooze? ==> Measure(Step(s, e).value) == Measure(s) + 1
    ensures e.Crash? || e.Claim? || e.Requeue? ==> Measure(Step(s, e).value) <= Measure(s)
  {
    var t := Step(s, e).value;
    if e.Submit? {
      SubmitUsesUp(s, e.f);
    } else if e.Crash? {
      SumBelow(t.workers, s.workers);
    } else if e.Work? {
      WorkUsesUp(s, e.a, e.f);
    } else if !e.Claim? {
      AttemptMoves(s, e);
    }
  }

  lemma {:induction false} RunUsesUp(r: Regime, s: St, es: Events)
    requires Inv(s) && Run(r, s, es).Some?
    ensures ProductiveSteps(es) + Measure(Run(r, s, es).value) <= Measure(s) + Snoozes(es)
  {
    if es.Then? {
      RunUsesUp(r, s, es.before);
      RunKeepsInv(r, s, es.before);
      var m := Run(r, s, es.before).value;
      StepUsesUp(m, es.e);
    }
  }

  lemma InitMeasure(n: nat, acked: bool)
    ensures Measure(Init(n, acked)) <= 55 * n + 3
  {
    assert |Init(n, acked).v.rows| == n;
  }

  /** Main result: whatever faults, crashes and redeliveries happen, a job of n
      rows takes at most 55 n + 3 steps, plus one for each snooze. */
  lemma RunsAreBounded(n: nat, acked: bool, es: Events, s: St)
    requires Reaches(Anything, n, acked, es, s)
    ensures ProductiveSteps(es) <= 55 * n + 3 + Snoozes(es)
  {
    InitHolds(n, acked);
    InitMeasure(n, acked);
    RunUsesUp(Anything, Init(n, acked), es);
  }

  /** What can happen can also happen without a fault. */
  lemma FaultFree(s: St, e: Event) returns (g: Event)
    requires Productive(e) && Step(s, e).Some?
    ensures Productive(g) && Step(s, g).Some? && Intact(s, g)
  {
    g := if e.Work? then Work(e.a, NoFault) else e;
  }

  lemma CarryOn(s: St, es: Events) returns (longer: Events)
    requires Inv(s) && Run(Quiet, s, es).Some?
    ensures SettledBy(s, longer)
    decreases Measure(Run(Quiet, s, es).value)
  {
    var t := Run(Quiet, s, es).value;
    if Stuck(t) {
      longer := es;
    } else {
      RunKeepsInv(Quiet, s, es);
      var e :| Productive(e) && Step(t, e).Some?;
      var g := FaultFree(t, e);
      StepUsesUp(t, g);
      longer := CarryOn(s, Then(es, g));
    }
  }

  ghost predicate SettledBy(s: St, later: Events) {
    Run(Quiet, s, later).Some? && Stuck(Run(Quiet, s, later).value)
  }

  /** Main result: whatever has happened, the run can be carried on, without losing a
      statement, until nothing is left to do; by the bound above, carrying it on in
      any way without snoozes gets there. */
  lemma SettlesEventually(n: nat, acked: bool, es: Events, s: St)
    requires Reaches(Anything, n, acked, es, s)
    ensures exists later :: SettledBy(s, later)
  {
    ReachedInv(Anything, n, acked, es, s);
    var later := CarryOn(s, NoEvents);
    assert SettledBy(s, later);
  }
}
