/** One worker process serving any number of jobs through one rate limiter: the
    jobs of JobProtocol side by side, sharing the semaphore and the inflight
    counter of RateLimiter. */
module Fleet {
  import opened JobState
  import opened JobProtocol
  import opened Wrappers
  import opened Safety
  import opened Liveness
  import opened Quiescence

  /** `permits` are the semaphore's permits taken, `inflight` the atomic counter. */
  datatype Fleet = Fleet(jobs: seq<St>, max: nat, permits: int, inflight: int)

  datatype FleetEvent =
    | NewJob(n: nat, acked: bool)
    | On(j: nat, e: Event)
    | ProcessDies

  function Empty(max: nat): Fleet { Fleet([], max, 0, 0) }

  /** Between sem.Acquire and sem.Release. */
  predicate Holds(pc: Pc) {
    Active(pc) && !pc.Acquiring?
  }

  /** Between inflight.Add(1) and inflight.Add(-1). */
  predicate InFlight(pc: Pc) {
    Holds(pc) && !pc.Entering? && !pc.Releasing?
  }

  function PcAt(s: St, e: Event): Option<Pc> {
    if e.Work? && e.a < |s.workers| then Some(s.workers[e.a]) else None
  }

  /** What the event does to the semaphore and to the counter. */
  function PermitDelta(s: St, e: Event): int {
    match PcAt(s, e)
    case Some(Acquiring) => 1
    case Some(Releasing(_)) => -1
    case _ => 0
  }

  function InflightDelta(s: St, e: Event): int {
    match PcAt(s, e)
    case Some(Entering) => 1
    case Some(Leaving(_)) => -1
    case _ => 0
  }

  function Below(n: nat): (r: set<nat>)
    ensures forall i: nat :: i in r <==> i < n
  {
    if n == 0 then {} else Below(n - 1) + {n - 1}
  }

  /** The process dies, and with it all attempts of the job. */
  function Dies(s: St): Event { Crash(Below(|s.workers|)) }

  /** The semaphore grants a permit only while one is free; when the process dies
      all its attempts die, and with them the limiter. */
  function FleetStep(f: Fleet, fe: FleetEvent): Option<Fleet> {
    match fe
    case NewJob(n, acked) => Some(f.(jobs := f.jobs + [Init(n, acked)]))
    case On(j, e) =>
      if j >= |f.jobs| || e.Crash? || Step(f.jobs[j], e).None? then None
      else if PermitDelta(f.jobs[j], e) == 1 && f.permits >= f.max then None
      else Some(f.(jobs := f.jobs[j := Step(f.jobs[j], e).value],
                   permits := f.permits + PermitDelta(f.jobs[j], e),
                   inflight := f.inflight + InflightDelta(f.jobs[j], e)))
    case ProcessDies =>
      Some(f.(jobs := seq(|f.jobs|, j requires 0 <= j < |f.jobs| => Step(f.jobs[j], Dies(f.jobs[j])).value),
              permits := 0, inflight := 0))
  }

  datatype FleetEvents = NoFleetEvents | ThenFleet(before: FleetEvents, fe: FleetEvent)

  function FleetRun(f: Fleet, fes: FleetEvents): Option<Fleet> {
    match fes
    case NoFleetEvents => Some(f)
    case ThenFleet(before, fe) =>
      var m := FleetRun(f, before);
      if m.None? then None else FleetStep(m.value, fe)
  }

  // ------------------------------------------------- slot accounting

  /** Total over all jobs of the attempts at a pc satisfying p. */
  function Total(jobs: seq<St>, p: Pc -> bool): nat {
    if jobs == [] then 0 else Count(jobs[0].workers, p) + Total(jobs[1..], p)
  }

  lemma {:induction false} TotalUpdate(jobs: seq<St>, j: nat, s: St, p: Pc -> bool)
    requires j < |jobs|
    ensures Total(jobs[j := s], p) == Total(jobs, p) - Count(jobs[j].workers, p) + Count(s.workers, p)
  {
    if j == 0 {
      assert jobs[0 := s][1..] == jobs[1..];
    } else {
      assert jobs[j := s][1..] == jobs[1..][j - 1 := s];
      TotalUpdate(jobs[1..], j - 1, s, p);
    }
  }

  lemma {:induction false} TotalAppend(jobs: seq<St>, s: St, p: Pc -> bool)
    ensures Total(jobs + [s], p) == Total(jobs, p) + Count(s.workers, p)
  {
    if jobs == [] {
      assert ([s])[1..] == [];
    } else {
      assert (jobs + [s])[1..] == jobs[1..] + [s];
      TotalAppend(jobs[1..], s, p);
    }
  }

  lemma {:induction false} TotalZero(jobs: seq<St>, p: Pc -> bool)
    ensures Total(jobs, p) == 0 <==> forall j :: 0 <= j < |jobs| ==> Count(jobs[j].workers, p) == 0
  {
    if jobs != [] {
      TotalZero(jobs[1..], p);
      if Total(jobs, p) == 0 {
        forall j | 0 <= j < |jobs| ensures Count(jobs[j].workers, p) == 0 {
          if j > 0 { assert jobs[j] == jobs[1..][j - 1]; }
        }
      } else if Total(jobs[1..], p) != 0 {
        var j :| 0 <= j < |jobs[1..]| && Count(jobs[1..][j].workers, p) != 0;
        assert Count(jobs[j + 1].workers, p) != 0;
      }
    }
  }

  lemma {:induction false} TotalMonotone(jobs: seq<St>)
    ensures Total(jobs, InFlight) <= Total(jobs, Holds)
  {
    if jobs != [] {
      InFlightHolds(jobs[0].workers);
      TotalMonotone(jobs[1..]);
    }
  }

  lemma {:induction false} InFlightHolds(ws: seq<Pc>)
    ensures Count(ws, InFlight) <= Count(ws, Holds)
  {
    if ws != [] { InFlightHolds(ws[1..]); }
  }

  /** The limiter's two numbers count exactly the attempts in the two ranges. */
  predicate Accounted(f: Fleet) {
    && f.permits == Total(f.jobs, Holds) <= f.max
    && f.inflight == Total(f.jobs, InFlight)
  }

  predicate FleetInv(f: Fleet) {
    Accounted(f) && forall j :: 0 <= j < |f.jobs| ==> Inv(f.jobs[j])
  }

  function Bit(b: bool): nat { if b then 1 else 0 }

  lemma WorkDeltas(s: St, a: nat, f: Fault)
    requires a < |s.workers| && WorkStep(s, a, f).Some?
    ensures var pc := WorkStep(s, a, f).value.workers[a];
      && Bit(Holds(pc)) == Bit(Holds(s.workers[a])) + PermitDelta(s, Work(a, f))
      && Bit(InFlight(pc)) == Bit(InFlight(s.workers[a])) + InflightDelta(s, Work(a, f))
  {
  }

  /** A step of one job changes its share of the limiter by the step's deltas. */
  lemma StepDeltas(s: St, e: Event)
    requires Inv(s) && Step(s, e).Some? && !e.Crash?
    ensures Count(Step(s, e).value.workers, Holds) == Count(s.workers, Holds) + PermitDelta(s, e)
    ensures Count(Step(s, e).value.workers, InFlight) == Count(s.workers, InFlight) + InflightDelta(s, e)
  {
    if e.Submit? {
      SubmitDeltas(s, e.f);
    } else if !e.Claim? {
      AttemptDeltas(s, e);
    }
  }

  lemma SubmitDeltas(s: St, f: Fault)
    requires Inv(s) && SubmitStep(s, f).Some?
    ensures Count(SubmitStep(s, f).value.workers, Holds) == Count(s.workers, Holds)
    ensures Count(SubmitStep(s, f).value.workers, InFlight) == Count(s.workers, InFlight)
  {
    var t := SubmitStep(s, f).value;
    if t.workers != s.workers {
      CountNone(t.workers, Holds);
      CountNone(t.workers, InFlight);
    }
  }

  lemma AttemptDeltas(s: St, e: Event)
    requires Step(s, e).Some? && (e.Start? || e.Snooze? || e.WaitFails? || e.Requeue? || e.Fetch? || e.Work?)
    ensures Count(Step(s, e).value.workers, Holds) == Count(s.workers, Holds) + PermitDelta(s, e)
    ensures Count(Step(s, e).value.workers, InFlight) == Count(s.workers, InFlight) + InflightDelta(s, e)
  {
    var t := Step(s, e).value;
    if e.Work? {
      WorkFrame(s, e.a, e.f);
      WorkDeltas(s, e.a, e.f);
    }
    CountUpdate(s.workers, e.a, t.workers[e.a], Holds);
    CountUpdate(s.workers, e.a, t.workers[e.a], InFlight);
  }

  lemma NewJobKeepsInv(f: Fleet, n: nat, acked: bool)
    requires FleetInv(f)
    ensures FleetInv(f.(jobs := f.jobs + [Init(n, acked)]))
  {
    InitHolds(n, acked);
    IdleJobKeepsInv(f, Init(n, acked));
  }

  lemma IdleJobKeepsInv(f: Fleet, s: St)
    requires FleetInv(f) && Inv(s) && s.workers == []
    ensures FleetInv(f.(jobs := f.jobs + [s]))
  {
    TotalAppend(f.jobs, s, Holds);
    TotalAppend(f.jobs, s, InFlight);
    var jobs := f.jobs + [s];
    forall j | 0 <= j < |jobs| ensures Inv(jobs[j]) { assert jobs[j] == if j < |f.jobs| then f.jobs[j] else s; }
  }

  lemma OnKeepsInv(f: Fleet, j: nat, e: Event)
    requires FleetInv(f) && FleetStep(f, On(j, e)).Some?
    ensures FleetInv(FleetStep(f, On(j, e)).value)
  {
    var s, t := f.jobs[j], Step(f.jobs[j], e).value;
    StepKeepsInv(s, e);
    StepDeltas(s, e);
    TotalUpdate(f.jobs, j, t, Holds);
    TotalUpdate(f.jobs, j, t, InFlight);
  }

  lemma JobDies(s: St)
    requires Inv(s)
    ensures var t := Step(s, Dies(s)).value;
      Inv(t) && Count(t.workers, Holds) == 0 && Count(t.workers, InFlight) == 0
  {
    var t := Step(s, Dies(s)).value;
    StepKeepsInv(s, Dies(s));
    CountNone(t.workers, Holds);
    CountNone(t.workers, InFlight);
  }

  lemma DeathKeepsInv(f: Fleet)
    requires FleetInv(f)
    ensures FleetInv(FleetStep(f, ProcessDies).value)
  {
    var g := FleetStep(f, ProcessDies).value;
    forall j | 0 <= j < |g.jobs|
      ensures Inv(g.jobs[j]) && Count(g.jobs[j].workers, Holds) == 0 && Count(g.jobs[j].workers, InFlight) == 0
    {
      JobDies(f.jobs[j]);
    }
    TotalZero(g.jobs, Holds);
    TotalZero(g.jobs, InFlight);
  }

  lemma FleetStepKeepsInv(f: Fleet, fe: FleetEvent)
    requires FleetInv(f) && FleetStep(f, fe).Some?
    ensures FleetInv(FleetStep(f, fe).value)
  {
    match fe {
      case NewJob(n, acked) => NewJobKeepsInv(f, n, acked);
      case On(j, e) => OnKeepsInv(f, j, e);
      case ProcessDies => DeathKeepsInv(f);
    }
  }

  lemma {:induction false} FleetRunKeepsInv(f: Fleet, fes: FleetEvents)
    requires FleetInv(f) && FleetRun(f, fes).Some?
    ensures FleetInv(FleetRun(f, fes).value)
    ensures FleetRun(f, fes).value.max == f.max
  {
    if fes.ThenFleet? {
      FleetRunKeepsInv(f, fes.before);
      FleetStepKeepsInv(FleetRun(f, fes.before).value, fes.fe);
    }
  }

  predicate HoldsNothing(s: St) {
    forall a :: 0 <= a < |s.workers| ==> !Holds(s.workers[a])
  }

  /** Main result: over every interleaving of every job's attempts, with crashes,
      0 <= inflight <= permits <= max; the permits are exactly the attempts between
      acquire and release, so each of them gives back its own once, and when no
      attempt is in that range both are 0. */
  lemma SlotsAccounted(max: nat, fes: FleetEvents, f: Fleet)
    requires FleetRun(Empty(max), fes) == Some(f)
    ensures 0 <= f.inflight <= f.permits <= max
    ensures f.permits == Total(f.jobs, Holds) && f.inflight == Total(f.jobs, InFlight)
    ensures f.permits == 0 <==> forall j :: 0 <= j < |f.jobs| ==> HoldsNothing(f.jobs[j])
  {
    FleetRunKeepsInv(Empty(max), fes);
    TotalMonotone(f.jobs);
    TotalZero(f.jobs, Holds);
    forall j | 0 <= j < |f.jobs|
      ensures Count(f.jobs[j].workers, Holds) == 0 <==> HoldsNothing(f.jobs[j])
    {
      CountNone(f.jobs[j].workers, Holds);
    }
  }

  // ------------------------------------------------- the limiter never blocks for good

  /** No job can take a productive step. */
  ghost predicate FleetStuck(f: Fleet) {
    forall j, e :: 0 <= j < |f.jobs| && Productive(e) ==> FleetStep(f, On(j, e)).None?
  }

  lemma StuckHoldsNothing(f: Fleet, j: nat)
    requires FleetInv(f) && FleetStuck(f) && j < |f.jobs|
    ensures HoldsNothing(f.jobs[j])
  {
    forall a: nat | a < |f.jobs[j].workers| ensures !Holds(f.jobs[j].workers[a]) {
      assert Inv(f.jobs[j]);
      assert FleetStep(f, On(j, Work(a, NoFault))).None?;
      assert FleetStep(f, On(j, Fetch(a, Fares))).None?;
    }
  }

  /** When no job of the process can go on, that is never because the limiter ran
      out of permits: each job, taken alone, is stuck too. */
  lemma LimiterNeverStarves(max: nat, fes: FleetEvents, f: Fleet, j: nat)
    requires max > 0 && FleetRun(Empty(max), fes) == Some(f)
    requires FleetStuck(f) && j < |f.jobs|
    ensures Stuck(f.jobs[j])
    ensures f.permits == 0 && f.inflight == 0
  {
    FleetRunKeepsInv(Empty(max), fes);
    forall k | 0 <= k < |f.jobs| ensures Count(f.jobs[k].workers, Holds) == 0 {
      StuckHoldsNothing(f, k);
      CountNone(f.jobs[k].workers, Holds);
    }
    TotalZero(f.jobs, Holds);
    TotalMonotone(f.jobs);
    forall e | Productive(e) ensures Step(f.jobs[j], e).None? {
      assert FleetStep(f, On(j, e)).None?;
    }
  }

  // ------------------------------------------------- one job's share of a run

  /** No job loses a statement after a row write. */
  predicate QuietEvent(f: Fleet, fe: FleetEvent) {
    match fe
    case NewJob(_, _) => true
    case On(j, e) => j < |f.jobs| ==> Intact(f.jobs[j], e)
    case ProcessDies => forall j :: 0 <= j < |f.jobs| ==> Intact(f.jobs[j], Dies(f.jobs[j]))
  }

  predicate QuietRun(f: Fleet, fes: FleetEvents) {
    match fes
    case NoFleetEvents => true
    case ThenFleet(before, fe) =>
      QuietRun(f, before) && FleetRun(f, before).Some? && QuietEvent(FleetRun(f, before).value, fe)
  }

  /** An event of the process is one of job j, or none. */
  lemma Share(f: Fleet, fe: FleetEvent, j: nat, s0: St, es: Events) returns (es': Events)
    requires FleetStep(f, fe).Some? && QuietEvent(f, fe) && j < |f.jobs|
    requires Run(Quiet, s0, es) == Some(f.jobs[j])
    ensures j < |FleetStep(f, fe).value.jobs|
    ensures Run(Quiet, s0, es') == Some(FleetStep(f, fe).value.jobs[j])
  {
    match fe {
      case NewJob(_, _) => es' := es;
      case On(k, e) => es' := if k == j then Then(es, e) else es;
      case ProcessDies => es' := Then(es, Dies(f.jobs[j]));
    }
  }

  /** What job j goes through while the process runs is a run of its own. */
  lemma {:induction false} Project(f: Fleet, fes: FleetEvents, g: Fleet, j: nat) returns (es: Events)
    requires FleetRun(f, fes) == Some(g) && QuietRun(f, fes) && j < |f.jobs|
    ensures j < |g.jobs| && Run(Quiet, f.jobs[j], es) == Some(g.jobs[j])
  {
    if fes == NoFleetEvents {
      es := NoEvents;
    } else {
      var m := FleetRun(f, fes.before).value;
      es := Project(f, fes.before, m, j);
      es := Share(m, fes.fe, j, f.jobs[j], es);
    }
  }

  /** Every job of the process is a job reached by a run of its own. */
  lemma {:induction false} Born(max: nat, fes: FleetEvents, f: Fleet, j: nat)
    returns (n: nat, acked: bool, es: Events)
    requires FleetRun(Empty(max), fes) == Some(f) && QuietRun(Empty(max), fes) && j < |f.jobs|
    ensures Reaches(Quiet, n, acked, es, f.jobs[j])
  {
    var m := FleetRun(Empty(max), fes.before).value;
    if j < |m.jobs| {
      n, acked, es := Born(max, fes.before, m, j);
      es := Share(m, fes.fe, j, Init(n, acked), es);
    } else {
      n, acked, es := fes.fe.n, fes.fe.acked, NoEvents;
    }
  }

  /** What becomes of a job, s right before `running` was written, u when all is over. */
  predicate Settled(s: St, u: St) {
    && |u.workers| == |s.workers|
    && (Live(s.v.job.status) ==> (!Live(u.v.job.status) <==> |u.v.rows| >= 1 && AllTerminal(u.v.rows)))
    && (!Live(s.v.job.status) ==>
          (!Live(u.v.job.status) <==>
             exists a :: 0 <= a < |s.workers| && !Over(s.workers[a]) && u.workers[a].Succeeded?))
    && forall i :: 0 <= i < |u.v.rows| ==> (Terminal(u.v.rows[i]) <==> !Exhausted(u, i))
  }

  /** Two runs of the process one after the other. */
  function Join(fes: FleetEvents, later: FleetEvents): FleetEvents {
    match later
    case NoFleetEvents => fes
    case ThenFleet(before, fe) => ThenFleet(Join(fes, before), fe)
  }

  lemma {:induction false} JoinRuns(f: Fleet, fes: FleetEvents, g: Fleet, later: FleetEvents)
    requires FleetRun(f, fes) == Some(g)
    ensures FleetRun(f, Join(fes, later)) == FleetRun(g, later)
  {
    if later.ThenFleet? { JoinRuns(f, fes, g, later.before); }
  }

  /** Main result: in a process that serves any jobs through one limiter, whatever
      crashes before row writes, when no job can go on: a row is terminal exactly when
      not every attempt of its item ended in an error or a crash; a job that was not
      final when its `running` was written is final exactly when it has a row and all
      are terminal; and one that was final then is final exactly when some attempt
      that had not returned from its finish call by then has ended in success. */
  lemma ProcessSettles(max: nat, fes: FleetEvents, f: Fleet, j: nat, fault: Fault, g: Fleet,
                       later: FleetEvents, h: Fleet)
    requires max > 0 && FleetRun(Empty(max), fes) == Some(f) && QuietRun(Empty(max), fes)
    requires j < |f.jobs| && f.jobs[j].sub.MarkingRunning? && !fault.Lost?
    requires FleetStep(f, On(j, Submit(fault))) == Some(g)
    requires FleetRun(g, later) == Some(h) && QuietRun(g, later) && FleetStuck(h)
    ensures j < |h.jobs| && Settled(f.jobs[j], h.jobs[j])
  {
    var n, acked, es := Born(max, fes, f, j);
    var es' := Project(g, later, h, j);
    var all := Join(ThenFleet(fes, On(j, Submit(fault))), later);
    JoinRuns(Empty(max), ThenFleet(fes, On(j, Submit(fault))), g, later);
    LimiterNeverStarves(max, all, h, j);
    var s, t, u := f.jobs[j], g.jobs[j], h.jobs[j];
    StuckJob(n, acked, es, s, fault, t, es', u);
    ReachedQuiet(n, acked, es, s);
    StepKeepsQuiet(s, Submit(fault));
    RunKeepsQuiet(t, es');
    forall i | 0 <= i < |u.v.rows| ensures Terminal(u.v.rows[i]) <==> !Exhausted(u, i) {
      SettledRow(u, i);
    }
  }
}
