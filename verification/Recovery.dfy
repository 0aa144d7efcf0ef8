/** Which unfinished jobs can still be finished, under all faults, crashes,
    redeliveries and claims. */
module Recovery {
  import opened JobState
  import opened JobProtocol
  import opened Wrappers
  import opened Safety
  import opened Liveness
  import opened Quiescence

  /** Some run from here leaves the job final. */
  ghost predicate Finalisable(s: St) {
    exists later :: Finalises(s, later)
  }

  predicate Finalises(s: St, later: Events) {
    Run(Anything, s, later).Some? && !Live(Run(Anything, s, later).value.v.job.status)
  }

  /** The queue may still start the attempt, now or after earlier ones of its item. */
  predicate Startable(s: St, a: nat) {
    && a < |s.workers|
    && (s.workers[a].Requeued?
        || (s.workers[a].Queued? && forall b :: 0 <= b < a && Item(b) == Item(a) ==> !s.workers[b].Succeeded?))
  }

  /** The attempt's row write is still ahead. */
  predicate CanWrite(s: St, a: nat) {
    && a < |s.workers|
    && (Startable(s, a) || s.workers[a].Acquiring? || s.workers[a].Entering?
        || s.workers[a].Fetching? || s.workers[a].Writing?)
  }

  /** The attempt may still finalise the job, all rows being terminal. */
  predicate Could(s: St, a: nat) {
    CanWrite(s, a) || (a < |s.workers| && WillFinish(s.v, s.workers[a]))
  }

  /** Submit may still mark the job failed. */
  predicate SubmitMayFail(s: St) {
    s.sub.MarkingFailed? || s.sub.ReadingBack? || (s.sub.Enqueuing? && true in s.sub.sent)
  }

  /** The items are with the queue, or there will be none. */
  predicate ItemsOut(s: St) {
    !s.sub.ReadingBack? && (s.sub.Enqueuing? ==> true !in s.sub.sent)
  }

  /** Some attempt may still write row i. */
  predicate Writable(s: St, i: nat) {
    exists a :: 0 <= a < |s.workers| && Item(a) == i && CanWrite(s, a)
  }

  /** Every open row has an attempt that may still write it; without open rows, some
      attempt may still finalise the job. */
  predicate Completable(s: St) {
    if AllTerminal(s.v.rows) then exists a :: 0 <= a < |s.workers| && Could(s, a)
    else forall i :: 0 <= i < |s.v.rows| && !Terminal(s.v.rows[i]) ==> Writable(s, i)
  }

  // ------------------------------------------------- what can be finished

  /** The number of statements up to the row write. */
  function Ahead(pc: Pc): nat {
    match pc
    case Queued => 5
    case Requeued => 5
    case Acquiring => 4
    case Entering => 3
    case Fetching => 2
    case Writing(_) => 1
    case _ => 0
  }

  /** The first attempt in the queue of the item can start. */
  lemma {:induction false} FirstQueued(s: St, a: nat) returns (b: nat)
    requires Startable(s, a)
    ensures b <= a && Item(b) == Item(a) && CanStart(s, b)
  {
    if c: nat :| c < a && Item(c) == Item(a) && Waiting(s.workers[c]) && !s.workers[a].Requeued? {
      b := FirstQueued(s, c);
    } else {
      b := a;
    }
  }

  /** What the attempt is about to write, or may write. */
  function Chosen(pc: Pc): Outcome { if pc.Writing? then pc.o else Stored }

  /** The next statement towards the row write. */
  lemma Approach(s: St, a: nat, o: Outcome) returns (e: Event, pc: Pc)
    requires a < |s.workers| && Ahead(s.workers[a]) > 1 && (Waiting(s.workers[a]) ==> CanStart(s, a))
    ensures Step(s, e) == Some(Goto(s, a, pc)) && Ahead(pc) == Ahead(s.workers[a]) - 1 && !Waiting(pc)
    ensures (e.Work? ==> e.a == a) && (pc.Writing? ==> pc.o == o)
  {
    match s.workers[a] {
      case Queued => e, pc := Start(a), Acquiring;
      case Requeued => e, pc := Start(a), Acquiring;
      case Acquiring => e, pc := Work(a, NoFault), Entering;
      case Entering => e, pc := Work(a, NoFault), Fetching;
      case Fetching => e, pc := Fetch(a, if o.Stored? then Fares else UnknownError), Writing(o);
    }
  }

  /** The attempt alone, run on until it has written its row with outcome o. */
  lemma {:induction false} DriveToWrite(s0: St, es: Events, s: St, a: nat, o: Outcome) returns (es': Events, t: St)
    requires Run(Anything, s0, es) == Some(s) && Inv(s) && a < |s.workers|
    requires Ahead(s.workers[a]) > 0 && (Waiting(s.workers[a]) ==> CanStart(s, a))
    requires s.workers[a].Writing? ==> s.workers[a].o == o
    ensures Run(Anything, s0, es') == Some(t) && Inv(t) && Item(a) < |s.v.rows|
    ensures t == Goto(s.(v := WriteRow(s.v, Item(a), RowOf(o))), a, Recounting(o))
    decreases Ahead(s.workers[a])
  {
    if s.workers[a].Writing? {
      es', t := Then(es, Work(a, NoFault)), WorkStep(s, a, NoFault).value;
      WorkKeepsInv(s, a, NoFault);
    } else {
      var e, pc := Approach(s, a, o);
      StepKeepsInv(s, e);
      es', t := DriveToWrite(s0, Then(es, e), Goto(s, a, pc), a, o);
      assert s.workers[a := pc][a := Recounting(o)] == s.workers[a := Recounting(o)];
    }
  }

  lemma {:induction false} DriveToFinish(s0: St, es: Events, s: St, a: nat, k: nat) returns (es': Events)
    requires Run(Anything, s0, es) == Some(s) && FinishesWithin(s, a, k)
    ensures Finalises(s0, es')
    decreases k
  {
    if !Live(s.v.job.status) {
      es' := es;
    } else {
      es' := DriveToFinish(s0, Then(es, Work(a, NoFault)), WorkStep(s, a, NoFault).value, a, k - 1);
    }
  }

  /** All rows terminal: one attempt is enough. */
  lemma FinishBy(s0: St, es: Events, s: St, a: nat) returns (es': Events)
    requires Run(Anything, s0, es) == Some(s) && Inv(s) && Live(s.v.job.status) && AllTerminal(s.v.rows)
    requires Could(s, a)
    ensures Finalises(s0, es')
  {
    if WillFinish(s.v, s.workers[a]) {
      FinishesAlone(s, a);
      es' := DriveToFinish(s0, es, s, a, Rest(s.workers[a]));
    } else {
      var b := a;
      if Waiting(s.workers[a]) { b := FirstQueued(s, a); }
      var t;
      es', t := DriveToWrite(s0, es, s, b, Chosen(s.workers[b]));
      FinishesAlone(t, b);
      es' := DriveToFinish(s0, es', t, b, Rest(t.workers[b]));
    }
  }

  /** An attempt of another item may write its row as before. */
  lemma StillWritable(s: St, t: St, a: nat, i: nat)
    requires a < |s.workers| == |t.workers| && t.workers == s.workers[a := t.workers[a]]
    requires Writable(s, i) && i != Item(a)
    ensures Writable(t, i)
  {
    var b :| 0 <= b < |s.workers| && Item(b) == i && CanWrite(s, b);
    assert CanWrite(t, b);
  }

  lemma FewerOpen(v: JobView, i: nat, st: RowStatus)
    requires i < |v.rows| && !Terminal(v.rows[i]) && Terminal(st)
    ensures Remaining(WriteRow(v, i, st)) < Remaining(v)
  {
    CountUpdate(v.rows, i, st, Outstanding);
  }

  /** The open rows one after the other; who writes the last one finishes. */
  lemma {:induction false} WriteAll(s0: St, es: Events, s: St) returns (es': Events)
    requires Run(Anything, s0, es) == Some(s) && Inv(s) && Live(s.v.job.status)
    requires !AllTerminal(s.v.rows) && Completable(s)
    ensures Finalises(s0, es')
    decreases Remaining(s.v)
  {
    var i :| 0 <= i < |s.v.rows| && !Terminal(s.v.rows[i]);
    assert Writable(s, i);
    var a :| 0 <= a < |s.workers| && Item(a) == i && CanWrite(s, a);
    if Waiting(s.workers[a]) { a := FirstQueued(s, a); }
    var t;
    es', t := DriveToWrite(s0, es, s, a, Chosen(s.workers[a]));
    if AllTerminal(t.v.rows) {
      es' := FinishBy(s0, es', t, a);
    } else {
      FewerOpen(s.v, i, RowOf(Chosen(s.workers[a])));
      forall k | 0 <= k < |t.v.rows| && !Terminal(t.v.rows[k]) ensures Writable(t, k) {
        StillWritable(s, t, a, k);
      }
      es' := WriteAll(s0, es', t);
    }
  }

  /** Submit's way to mark the job failed. */
  lemma FailBy(s: St) returns (es: Events)
    requires SubmitMayFail(s)
    ensures Finalises(s, es)
  {
    es := NoEvents;
    var t := s;
    if !s.sub.MarkingFailed? {
      es, t := Then(es, Submit(Lost)), SubmitStep(s, Lost).value;
      assert Run(Anything, s, es) == Some(t);
    }
    es := Then(es, Submit(NoFault));
  }

  // ------------------------------------------------- what cannot

  /** Row i is open, and nobody will write it. */
  predicate Barren(s: St, i: nat) {
    i < |s.v.rows| && !Terminal(s.v.rows[i]) && !Writable(s, i)
  }

  predicate Doomed(s: St) {
    && Inv(s) && Live(s.v.job.status) && !SubmitMayFail(s)
    && !Completable(s)
  }

  /** No attempt gets a chance to write that it did not have. */
  lemma NoNewWriter(s: St, e: Event, b: nat)
    requires Base(s) && Step(s, e).Some? && ItemsOut(s) && CanWrite(Step(s, e).value, b)
    ensures CanWrite(s, b)
  {
    var t := Step(s, e).value;
    assert b < |s.workers|;
    if e.Work? {
      WorkWriters(s, e.a, e.f, b);
    } else if t.workers[b].Queued? {
      SucceededStays(s, e, b);
    }
  }

  lemma WorkWriters(s: St, a: nat, f: Fault, b: nat)
    requires a < |s.workers| && WorkStep(s, a, f).Some? && CanWrite(WorkStep(s, a, f).value, b)
    ensures CanWrite(s, b)
  {
    var t := WorkStep(s, a, f).value;
    WorkFrame(s, a, f);
    if b == a {
      assert !Waiting(t.workers[b]) && !Waiting(s.workers[b]);
    } else if t.workers[b].Queued? {
      forall c | 0 <= c < b && Item(c) == Item(b) ensures !s.workers[c].Succeeded? {
        assert !t.workers[c].Succeeded?;
        NotSucceeded(s, a, f);
      }
    }
  }

  lemma NotSucceeded(s: St, a: nat, f: Fault)
    requires a < |s.workers| && WorkStep(s, a, f).Some?
    ensures !s.workers[a].Succeeded?
  {
  }

  lemma SucceededStays(s: St, e: Event, b: nat)
    requires Base(s) && Step(s, e).Some? && !e.Work? && ItemsOut(s) && Startable(Step(s, e).value, b)
    requires Step(s, e).value.workers[b].Queued?
    ensures b < |s.workers| && (s.workers[b].Queued? ==> Startable(s, b))
  {
    var t := Step(s, e).value;
    forall c | 0 <= c < b && c < |s.workers| && Item(c) == Item(b) ensures !s.workers[c].Succeeded? {
      assert !t.workers[c].Succeeded?;
    }
  }

  lemma StepKeepsBarren(s: St, e: Event, i: nat)
    requires Base(s) && Step(s, e).Some? && ItemsOut(s) && Barren(s, i)
    ensures Barren(Step(s, e).value, i)
  {
    var t := Step(s, e).value;
    if b :| 0 <= b < |t.workers| && Item(b) == i && CanWrite(t, b) {
      NoNewWriter(s, e, b);
      assert Writable(s, i);
    }
    assert e.Work? && s.workers[e.a].Writing? ==> CanWrite(s, e.a);
  }

  /** With all rows terminal and nobody left who could finalise, nobody ever can. */
  lemma StepKeepsHopeless(s: St, e: Event)
    requires Base(s) && Live(s.v.job.status) && Step(s, e).Some? && !SubmitMayFail(s) && AllTerminal(s.v.rows)
    requires forall a :: 0 <= a < |s.workers| ==> !Could(s, a)
    ensures var t := Step(s, e).value;
      && t.v.rows == s.v.rows && t.v.job.(status := s.v.job.status) == s.v.job && Live(t.v.job.status)
      && forall a :: 0 <= a < |t.workers| ==> !Could(t, a)
  {
    var t := Step(s, e).value;
    if e.Work? {
      assert !Could(s, e.a);
      DoneIsTotal(s);
      WorkFrame(s, e.a, e.f);
    }
    forall b | 0 <= b < |t.workers| ensures !Could(t, b) {
      if CanWrite(t, b) { NoNewWriter(s, e, b); }
      assert b < |s.workers| ==> !Could(s, b);
    }
  }

  lemma StepKeepsLive(s: St, e: Event)
    requires Base(s) && Live(s.v.job.status) && Step(s, e).Some? && !SubmitMayFail(s) && !AllTerminal(s.v.rows)
    ensures Live(Step(s, e).value.v.job.status)
  {
    if e.Work? { assert KnowsDone(s.v, s.workers[e.a]); }
  }

  lemma StaysUnfailed(s: St, e: Event)
    requires Base(s) && Step(s, e).Some? && !SubmitMayFail(s)
    ensures !SubmitMayFail(Step(s, e).value)
  {
  }

  lemma StepKeepsDoomed(s: St, e: Event)
    requires Doomed(s) && Step(s, e).Some?
    ensures Doomed(Step(s, e).value)
  {
    var t := Step(s, e).value;
    StepKeepsInv(s, e);
    StaysUnfailed(s, e);
    if AllTerminal(s.v.rows) {
      StepKeepsHopeless(s, e);
    } else {
      var i :| 0 <= i < |s.v.rows| && !Terminal(s.v.rows[i]) && !Writable(s, i);
      StepKeepsBarren(s, e, i);
      StepKeepsLive(s, e);
      assert Barren(t, i);
    }
  }

  lemma {:induction false} RunKeepsDoomed(s: St, es: Events)
    requires Doomed(s) && Run(Anything, s, es).Some?
    ensures Doomed(Run(Anything, s, es).value)
  {
    if es.Then? {
      RunKeepsDoomed(s, es.before);
      StepKeepsDoomed(Run(Anything, s, es.before).value, es.e);
    }
  }

  // ------------------------------------------------- exactly

  lemma FinalisableIff(s: St)
    requires Inv(s) && Live(s.v.job.status)
    ensures Finalisable(s) <==> SubmitMayFail(s) || Completable(s)
  {
    if SubmitMayFail(s) {
      var es := FailBy(s);
    } else if Completable(s) {
      if AllTerminal(s.v.rows) {
        var a :| 0 <= a < |s.workers| && Could(s, a);
        var es := FinishBy(s, NoEvents, s, a);
      } else {
        var es := WriteAll(s, NoEvents, s);
      }
    } else {
      forall later | Run(Anything, s, later).Some? ensures !Finalises(s, later) {
        RunKeepsDoomed(s, later);
      }
    }
  }

  /** Main result: a pending or running job, whatever has happened to it, can still
      become final if and only if Submit may still mark it failed, or every open row
      has an attempt whose row write is ahead, or there is no open row and some
      attempt has its row write or its recompute ahead, is about to run the finish
      update, or is in front of it with counters that pass the guard. */
  lemma FinalisableExactly(n: nat, acked: bool, es: Events, s: St)
    requires Reaches(Anything, n, acked, es, s) && Live(s.v.job.status)
    ensures Finalisable(s) <==> SubmitMayFail(s) || Completable(s)
  {
    ReachedInv(Anything, n, acked, es, s);
    FinalisableIff(s);
  }

  lemma StartableMoves(s: St, a: nat)
    requires Startable(s, a)
    ensures !Stuck(s)
  {
    var b := FirstQueued(s, a);
    assert Productive(Start(b)) && Step(s, Start(b)).Some?;
  }

  /** A job left unfinished when nothing more can happen stays unfinished. */
  lemma StuckForGood(s: St)
    requires Inv(s) && Stuck(s) && Live(s.v.job.status)
    ensures !Finalisable(s)
  {
    FinalisableIff(s);
    assert Step(s, Submit(NoFault)).None?;
    forall a | 0 <= a < |s.workers| ensures !Could(s, a) {
      StuckAttempt(s, a);
      if Startable(s, a) { StartableMoves(s, a); }
    }
    assert forall a :: CanWrite(s, a) ==> Could(s, a);
  }
}
