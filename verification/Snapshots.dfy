/** UpdateJobProgress once more, in two events: it counts the rows when it starts and
    writes the counters when it gets the lock on the job, and others may come in
    between.  What of the protocol's guarantees survives? */
module Snapshots {
  import opened JobState
  import opened JobProtocol
  import opened Wrappers
  import opened Safety
  import opened Liveness
  import opened Quiescence
  import opened Recovery
  import opened FinalStatus

  /** What an attempt has counted, and the number of the count. */
  datatype Counts = Counts(completed: nat, failed: nat, at: nat)

  /** The job, the counts taken so far, how many there were, and the number of the one
      that the job shows. */
  datatype Snap = Snap(s: St, held: map<nat, Counts>, clock: nat, shown: nat)

  datatype SnapEvent =
    | Other(e: Event)                    // any event of the protocol but a recount
    | CountRows(a: nat)
    | StoreCounts(a: nat, f: Fault)

  function SnapInit(n: nat, acked: bool): Snap { Snap(Init(n, acked), map[], 0, 0) }

  predicate AtRecount(s: St, a: nat) { a < |s.workers| && s.workers[a].Recounting? }

  /** As the recount of attempt a, but with counts taken earlier. */
  function StoreStep(s: St, a: nat, f: Fault, c: Counts): St
    requires AtRecount(s, a)
  {
    var w := WorkStep(s, a, f).value;
    if f.Lost? then w else w.(v := w.v.(job := w.v.job.(completed := c.completed, failed := c.failed)))
  }

  function SnapStep(x: Snap, e: SnapEvent): Option<Snap> {
    match e
    case Other(e) =>
      if (e.Work? && AtRecount(x.s, e.a)) || Step(x.s, e).None? then None
      else Some(x.(s := Step(x.s, e).value))
    case CountRows(a) =>
      if !AtRecount(x.s, a) || a in x.held then None
      else
        var c := Counts(Done(x.s.v.rows), Bad(x.s.v.rows), x.clock + 1);
        Some(x.(held := x.held[a := c], clock := x.clock + 1))
    case StoreCounts(a, f) =>
      if !AtRecount(x.s, a) || a !in x.held then None
      else
        Some(x.(s := StoreStep(x.s, a, f, x.held[a]), held := x.held - {a},
                shown := if f.Lost? then x.shown else x.held[a].at))
  }

  datatype SnapEvents = NoSnapEvents | ThenSnap(before: SnapEvents, e: SnapEvent)

  function SnapRun(x: Snap, es: SnapEvents): Option<Snap> {
    match es
    case NoSnapEvents => Some(x)
    case ThenSnap(before, e) =>
      var m := SnapRun(x, before);
      if m.None? then None else SnapStep(m.value, e)
  }

  predicate SnapReaches(n: nat, acked: bool, es: SnapEvents, x: Snap) {
    SnapRun(SnapInit(n, acked), es) == Some(x)
  }

  // ------------------------------------------------- the protocol is a special case

  /** A count stored at once is a recount. */
  lemma AtOnce(x: Snap, a: nat, f: Fault)
    requires AtRecount(x.s, a) && a !in x.held
    ensures SnapStep(x, CountRows(a)).Some?
    ensures var y := SnapStep(x, CountRows(a)).value;
      && SnapStep(y, StoreCounts(a, f)).Some?
      && SnapStep(y, StoreCounts(a, f)).value.s == WorkStep(x.s, a, f).value
      && SnapStep(y, StoreCounts(a, f)).value.held == x.held
  {
  }

  /** Every run of the protocol is one of these runs. */
  lemma {:induction false} Embed(r: Regime, n: nat, acked: bool, es: Events, s: St) returns (fs: SnapEvents, x: Snap)
    requires Reaches(r, n, acked, es, s)
    ensures SnapReaches(n, acked, fs, x) && x.s == s && x.held == map[]
  {
    if es == NoEvents {
      fs, x := NoSnapEvents, SnapInit(n, acked);
    } else {
      var gs, y := Embed(r, n, acked, es.before, Run(r, Init(n, acked), es.before).value);
      fs, x := EmbedStep(SnapInit(n, acked), gs, y, es.e);
    }
  }

  lemma EmbedStep(x0: Snap, es: SnapEvents, x: Snap, e: Event) returns (fs: SnapEvents, y: Snap)
    requires SnapRun(x0, es) == Some(x) && x.held == map[] && Step(x.s, e).Some?
    ensures SnapRun(x0, fs) == Some(y) && y.held == map[] && y.s == Step(x.s, e).value
  {
    if e.Work? && AtRecount(x.s, e.a) {
      AtOnce(x, e.a, e.f);
      var m := SnapStep(x, CountRows(e.a)).value;
      fs, y := ThenSnap(ThenSnap(es, CountRows(e.a)), StoreCounts(e.a, e.f)), SnapStep(m, StoreCounts(e.a, e.f)).value;
    } else {
      fs, y := ThenSnap(es, Other(e)), x.(s := Step(x.s, e).value);
    }
  }

  // ------------------------------------------------- what survives

  /** Counts are sound for the rows at any later time. */
  predicate CountOk(x: Snap, a: nat, c: Counts) {
    && a < |x.s.workers| && Ahead(x.s.workers[a]) == 0
    && c.failed <= c.completed <= Done(x.s.v.rows) && c.at <= x.clock
  }

  predicate SnapInv(x: Snap) {
    Base(x.s) && x.shown <= x.clock && forall a :: a in x.held ==> CountOk(x, a, x.held[a])
  }

  lemma StoreKeepsBase(s: St, a: nat, f: Fault, c: Counts)
    requires Base(s) && AtRecount(s, a) && c.failed <= c.completed <= Done(s.v.rows)
    ensures Base(StoreStep(s, a, f, c)) && StoreStep(s, a, f, c).v.rows == s.v.rows
    ensures StoreStep(s, a, f, c).workers == WorkStep(s, a, f).value.workers
  {
    WorkKeepsBase(s, a, f);
  }

  /** No attempt gets its row write back. */
  lemma NotAhead(s: St, e: Event, a: nat)
    requires Base(s) && Step(s, e).Some? && a < |s.workers| && Ahead(s.workers[a]) == 0
    ensures a < |Step(s, e).value.workers| && Ahead(Step(s, e).value.workers[a]) == 0
  {
    if e.Work? { WorkFrame(s, e.a, e.f); }
    WorkersStay(s, e);
  }

  lemma SnapStepKeepsInv(x: Snap, e: SnapEvent)
    requires SnapInv(x) && SnapStep(x, e).Some?
    ensures SnapInv(SnapStep(x, e).value)
    ensures RowsAdvance(x.s.v.rows, SnapStep(x, e).value.s.v.rows)
  {
    var y := SnapStep(x, e).value;
    match e {
      case Other(e) =>
        StepKeepsBase(x.s, e);
        StepAdvancesRows(x.s, e);
        forall a | a in y.held ensures CountOk(y, a, y.held[a]) {
          assert CountOk(x, a, x.held[a]);
          NotAhead(x.s, e, a);
        }
      case CountRows(a) =>
        CountsPartition(x.s.v.rows);
        forall b | b in y.held && b != a ensures CountOk(y, b, y.held[b]) { assert CountOk(x, b, x.held[b]); }
      case StoreCounts(a, f) =>
        assert CountOk(x, a, x.held[a]);
        StoreKeepsBase(x.s, a, f, x.held[a]);
        forall b | b in y.held ensures CountOk(y, b, y.held[b]) {
          assert CountOk(x, b, x.held[b]);
          NotAhead(x.s, Work(a, f), b);
        }
    }
  }

  lemma {:induction false} SnapRunKeepsInv(x: Snap, es: SnapEvents)
    requires SnapInv(x) && SnapRun(x, es).Some?
    ensures SnapInv(SnapRun(x, es).value)
    ensures RowsAdvance(x.s.v.rows, SnapRun(x, es).value.s.v.rows)
  {
    if es.ThenSnap? {
      SnapRunKeepsInv(x, es.before);
      SnapStepKeepsInv(SnapRun(x, es.before).value, es.e);
    }
  }

  lemma SnapReachedInv(n: nat, acked: bool, es: SnapEvents, x: Snap)
    requires SnapReaches(n, acked, es, x)
    ensures SnapInv(x) && |x.s.v.rows| == n
  {
    InitHolds(n, acked);
    SnapRunKeepsInv(SnapInit(n, acked), es);
  }

  /** The guarded update takes effect only in an attempt at its finish update. */
  lemma SnapFires(x: Snap, e: SnapEvent)
    requires SnapInv(x) && SnapStep(x, e).Some? && Fired(x.s, SnapStep(x, e).value.s)
    ensures AllTerminal(x.s.v.rows)
  {
    if e.Other? && e.e.Work? { assert KnowsDone(x.s.v, x.s.workers[e.e.a]); }
  }

  /** Main result: with counters written later than counted, these survive in every run:
      0 <= failed <= completed <= total, the finish update takes effect at most once on
      each side of Submit's status write and only over terminal rows, which stay so. */
  lemma StillSound(n: nat, acked: bool, es: SnapEvents, x: Snap, e: SnapEvent, y: Snap, later: SnapEvents, z: Snap)
    requires SnapReaches(n, acked, es, x) && SnapStep(x, e) == Some(y) && SnapRun(y, later) == Some(z)
    ensures x.s.v.job.failed <= x.s.v.job.completed <= x.s.v.job.total == n
    ensures x.s.firesBefore <= 1 && x.s.firesAfter <= 1
    ensures Fired(x.s, y.s) ==> AllTerminal(x.s.v.rows) && AllTerminal(z.s.v.rows)
  {
    SnapReachedInv(n, acked, es, x);
    SnapStepKeepsInv(x, e);
    SnapRunKeepsInv(y, later);
    if Fired(x.s, y.s) { SnapFires(x, e); }
  }

  // ------------------------------------------------- progress that goes back

  /** Of two counts the later one has at least as many rows done; so has every count
      not older than the one the job shows. */
  predicate InOrder(x: Snap) {
    && (forall a, b :: a in x.held && b in x.held && x.held[a].at <= x.held[b].at ==>
          x.held[a].completed <= x.held[b].completed)
    && (forall a :: a in x.held && x.shown <= x.held[a].at ==> x.s.v.job.completed <= x.held[a].completed)
  }

  lemma StepInOrder(x: Snap, e: SnapEvent)
    requires SnapInv(x) && InOrder(x) && SnapStep(x, e).Some?
    ensures InOrder(SnapStep(x, e).value)
  {
    match e {
      case Other(_) =>
        OthersKeepCounters(x, e);
        SameOrder(x, SnapStep(x, e).value);
      case CountRows(a) => NewestCount(x, a);
      case StoreCounts(a, f) => StoredCount(x, a, f);
    }
  }

  lemma SameOrder(x: Snap, y: Snap)
    requires InOrder(x) && y.held == x.held && y.shown == x.shown && y.s.v.job.completed == x.s.v.job.completed
    ensures InOrder(y)
  {
  }

  /** A stored count is in order with those still held. */
  lemma StoredCount(x: Snap, a: nat, f: Fault)
    requires InOrder(x) && SnapStep(x, StoreCounts(a, f)).Some?
    ensures InOrder(SnapStep(x, StoreCounts(a, f)).value)
  {
    var y := SnapStep(x, StoreCounts(a, f)).value;
    assert y.s.v.job.completed == if f.Lost? then x.s.v.job.completed else x.held[a].completed;
    forall b | b in y.held && y.shown <= y.held[b].at ensures y.s.v.job.completed <= y.held[b].completed {
      assert b in x.held && y.held[b] == x.held[b];
    }
    forall b, c | b in y.held && c in y.held && y.held[b].at <= y.held[c].at
      ensures y.held[b].completed <= y.held[c].completed
    {
      assert y.held[b] == x.held[b] && y.held[c] == x.held[c];
    }
  }

  /** A new count has at least as many rows done as any other and as the job shows. */
  lemma NewestCount(x: Snap, a: nat)
    requires SnapInv(x) && InOrder(x) && SnapStep(x, CountRows(a)).Some?
    ensures InOrder(SnapStep(x, CountRows(a)).value)
  {
    forall b | b in x.held ensures x.held[b].at <= x.clock && x.held[b].completed <= Done(x.s.v.rows) {
      assert CountOk(x, b, x.held[b]);
    }
  }

  /** Events of the protocol other than recounts leave the counters alone. */
  lemma OthersKeepCounters(x: Snap, e: SnapEvent)
    requires e.Other? && SnapStep(x, e).Some?
    ensures var y := SnapStep(x, e).value;
      y.s.v.job.completed == x.s.v.job.completed && y.s.v.job.failed == x.s.v.job.failed
      && y.s.v.job.total == x.s.v.job.total
  {
  }

  lemma {:induction false} RunInOrder(x: Snap, es: SnapEvents)
    requires SnapInv(x) && InOrder(x) && SnapRun(x, es).Some?
    ensures InOrder(SnapRun(x, es).value)
  {
    if es.ThenSnap? {
      RunInOrder(x, es.before);
      SnapRunKeepsInv(x, es.before);
      StepInOrder(SnapRun(x, es.before).value, es.e);
    }
  }

  /** An event that takes completed back stores a count with fewer rows than the job
      shows, and a later count has been stored before it. */
  lemma OnlyOutOfOrder(n: nat, acked: bool, es: SnapEvents, x: Snap, e: SnapEvent, y: Snap)
    requires SnapReaches(n, acked, es, x) && SnapStep(x, e) == Some(y)
    ensures y.s.v.job.completed < x.s.v.job.completed <==>
      e.StoreCounts? && !e.f.Lost? && x.held[e.a].completed < x.s.v.job.completed
    ensures y.s.v.job.completed < x.s.v.job.completed ==> x.held[e.a].at < x.shown
  {
    ReachedOrder(n, acked, es, x);
    GoesBackStep(x, e);
  }

  lemma ReachedOrder(n: nat, acked: bool, es: SnapEvents, x: Snap)
    requires SnapReaches(n, acked, es, x)
    ensures SnapInv(x) && InOrder(x)
  {
    SnapInitHolds(n, acked);
    RunInOrder(SnapInit(n, acked), es);
    SnapRunKeepsInv(SnapInit(n, acked), es);
  }

  lemma GoesBackStep(x: Snap, e: SnapEvent)
    requires SnapInv(x) && InOrder(x) && SnapStep(x, e).Some?
    ensures var y := SnapStep(x, e).value;
      && (y.s.v.job.completed < x.s.v.job.completed <==>
            e.StoreCounts? && !e.f.Lost? && x.held[e.a].completed < x.s.v.job.completed)
      && (y.s.v.job.completed < x.s.v.job.completed ==> x.held[e.a].at < x.shown)
  {
    if e.Other? { OthersKeepCounters(x, e); }
  }

  /** Counts are stored in the order in which they were taken. */
  predicate Ordered(x: Snap, es: SnapEvents) {
    match es
    case NoSnapEvents => true
    case ThenSnap(before, e) =>
      && Ordered(x, before) && SnapRun(x, before).Some?
      && var m := SnapRun(x, before).value;
         e.StoreCounts? && e.a in m.held ==> m.shown <= m.held[e.a].at
  }

  /** So progress never goes back when counts are stored in order. */
  lemma {:induction false} OrderedAdvances(n: nat, acked: bool, es: SnapEvents, x: Snap, later: SnapEvents)
    requires SnapReaches(n, acked, es, x) && SnapRun(x, later).Some? && Ordered(x, later)
    ensures x.s.v.job.completed <= SnapRun(x, later).value.s.v.job.completed
  {
    if later.ThenSnap? {
      OrderedAdvances(n, acked, es, x, later.before);
      var m := SnapRun(x, later.before).value;
      var fs := Joined(SnapInit(n, acked), es, x, later.before, m);
      OnlyOutOfOrder(n, acked, fs, m, later.e, SnapRun(x, later).value);
    }
  }

  lemma {:induction false} Joined(x0: Snap, es: SnapEvents, x: Snap, later: SnapEvents, m: Snap)
    returns (fs: SnapEvents)
    requires SnapRun(x0, es) == Some(x) && SnapRun(x, later) == Some(m)
    ensures SnapRun(x0, fs) == Some(m)
  {
    if later == NoSnapEvents {
      fs := es;
    } else {
      var gs := Joined(x0, es, x, later.before, SnapRun(x, later.before).value);
      fs := ThenSnap(gs, later.e);
    }
  }

  // ------------------------------------------------- which jobs can be finished

  ghost predicate SnapFinalisable(x: Snap) {
    exists later :: SnapFinalises(x, later)
  }

  predicate SnapFinalises(x: Snap, later: SnapEvents) {
    SnapRun(x, later).Some? && !Live(SnapRun(x, later).value.s.v.job.status)
  }

  /** The counts, stored, pass the guard of the finish update. */
  predicate Passes(x: Snap, a: nat) {
    a in x.held && x.held[a].completed + x.held[a].failed >= x.s.v.job.total
  }

  /** Attempt a can finalise the job, alone, its recount in two events. */
  predicate WillSnap(x: Snap, a: nat) {
    && a < |x.s.workers|
    && match x.s.workers[a]
       case Recounting(o) => a !in x.held || Passes(x, a) || (o.Stored? && Enough(x.s.v))
       case CountingRemaining(_) => Enough(x.s.v)
       case ReadingCounters(_) => Enough(x.s.v)
       case Finishing(_, _, _, _) => true
       case _ => false
  }

  predicate CouldSnap(x: Snap, a: nat) { CanWrite(x.s, a) || WillSnap(x, a) }

  predicate SnapCompletable(x: Snap) {
    if AllTerminal(x.s.v.rows) then exists a :: 0 <= a < |x.s.workers| && CouldSnap(x, a)
    else forall i :: 0 <= i < |x.s.v.rows| && !Terminal(x.s.v.rows[i]) ==> Writable(x.s, i)
  }

  function SnapRest(x: Snap, a: nat): nat
    requires a < |x.s.workers|
  {
    match x.s.workers[a]
    case Recounting(_) => if a in x.held then 4 else 5
    case CountingRemaining(_) => 3
    case ReadingCounters(_) => 2
    case Finishing(_, _, _, _) => 1
    case _ => 0
  }

  /** The next event of an attempt that can finalise the job: a count that would not
      pass is better lost. */
  function NextOn(x: Snap, a: nat): SnapEvent
    requires a < |x.s.workers|
  {
    if !x.s.workers[a].Recounting? then Other(Work(a, NoFault))
    else if a !in x.held then CountRows(a)
    else StoreCounts(a, if Passes(x, a) then NoFault else Lost)
  }

  lemma GoesOn(x: Snap, a: nat)
    requires SnapInv(x) && AllTerminal(x.s.v.rows) && Live(x.s.v.job.status) && WillSnap(x, a)
    ensures SnapStep(x, NextOn(x, a)).Some?
    ensures var y := SnapStep(x, NextOn(x, a)).value;
      Live(y.s.v.job.status) ==>
        AllTerminal(y.s.v.rows) && WillSnap(y, a) && SnapRest(y, a) < SnapRest(x, a)
  {
    DoneIsTotal(x.s);
  }

  lemma {:induction false} SnapDrive(x0: Snap, es: SnapEvents, x: Snap, a: nat) returns (es': SnapEvents)
    requires SnapRun(x0, es) == Some(x) && SnapInv(x) && AllTerminal(x.s.v.rows)
    requires WillSnap(x, a) && Live(x.s.v.job.status)
    ensures SnapFinalises(x0, es')
    decreases SnapRest(x, a)
  {
    GoesOn(x, a);
    SnapStepKeepsInv(x, NextOn(x, a));
    var y := SnapStep(x, NextOn(x, a)).value;
    es' := ThenSnap(es, NextOn(x, a));
    if Live(y.s.v.job.status) { es' := SnapDrive(x0, es', y, a); }
  }

  /** The attempt alone, run on until it has written its row. */
  lemma {:induction false} SnapDriveToWrite(x0: Snap, es: SnapEvents, x: Snap, a: nat, o: Outcome)
    returns (es': SnapEvents, y: Snap)
    requires SnapRun(x0, es) == Some(x) && SnapInv(x) && a < |x.s.workers|
    requires Ahead(x.s.workers[a]) > 0 && (Waiting(x.s.workers[a]) ==> CanStart(x.s, a))
    requires x.s.workers[a].Writing? ==> x.s.workers[a].o == o
    ensures SnapRun(x0, es') == Some(y) && SnapInv(y) && Item(a) < |x.s.v.rows| && a !in y.held && y.held == x.held
    ensures y.s == Goto(x.s.(v := WriteRow(x.s.v, Item(a), RowOf(o))), a, Recounting(o))
    decreases Ahead(x.s.workers[a])
  {
    assert a !in x.held;
    if x.s.workers[a].Writing? {
      es', y := ThenSnap(es, Other(Work(a, NoFault))), x.(s := WorkStep(x.s, a, NoFault).value);
      SnapStepKeepsInv(x, Other(Work(a, NoFault)));
    } else {
      var e, pc := Approach(x.s, a, o);
      SnapStepKeepsInv(x, Other(e));
      es', y := SnapDriveToWrite(x0, ThenSnap(es, Other(e)), x.(s := Goto(x.s, a, pc)), a, o);
      assert x.s.workers[a := pc][a := Recounting(o)] == x.s.workers[a := Recounting(o)];
    }
  }

  lemma SnapFinishBy(x0: Snap, es: SnapEvents, x: Snap, a: nat) returns (es': SnapEvents)
    requires SnapRun(x0, es) == Some(x) && SnapInv(x) && Live(x.s.v.job.status) && AllTerminal(x.s.v.rows)
    requires CouldSnap(x, a)
    ensures SnapFinalises(x0, es')
  {
    if WillSnap(x, a) {
      es' := SnapDrive(x0, es, x, a);
    } else {
      var b := a;
      if Waiting(x.s.workers[a]) { b := FirstQueued(x.s, a); }
      var fs, y := SnapDriveToWrite(x0, es, x, b, Chosen(x.s.workers[b]));
      es' := SnapDrive(x0, fs, y, b);
    }
  }

  lemma {:induction false} SnapWriteAll(x0: Snap, es: SnapEvents, x: Snap) returns (es': SnapEvents)
    requires SnapRun(x0, es) == Some(x) && SnapInv(x) && Live(x.s.v.job.status)
    requires !AllTerminal(x.s.v.rows) && SnapCompletable(x)
    ensures SnapFinalises(x0, es')
    decreases Remaining(x.s.v)
  {
    var i :| 0 <= i < |x.s.v.rows| && !Terminal(x.s.v.rows[i]);
    assert Writable(x.s, i);
    var a :| 0 <= a < |x.s.workers| && Item(a) == i && CanWrite(x.s, a);
    if Waiting(x.s.workers[a]) { a := FirstQueued(x.s, a); }
    var fs, y := SnapDriveToWrite(x0, es, x, a, Chosen(x.s.workers[a]));
    if AllTerminal(y.s.v.rows) {
      es' := SnapDrive(x0, fs, y, a);
    } else {
      FewerOpen(x.s.v, i, RowOf(Chosen(x.s.workers[a])));
      forall k | 0 <= k < |y.s.v.rows| && !Terminal(y.s.v.rows[k]) ensures Writable(y.s, k) {
        StillWritable(x.s, y.s, a, k);
      }
      es' := SnapWriteAll(x0, fs, y);
    }
  }

  lemma SnapFailBy(x: Snap) returns (es: SnapEvents)
    requires SubmitMayFail(x.s)
    ensures SnapFinalises(x, es)
  {
    es := NoSnapEvents;
    var y := x;
    if !x.s.sub.MarkingFailed? {
      es, y := ThenSnap(es, Other(Submit(Lost))), x.(s := SubmitStep(x.s, Lost).value);
      assert SnapRun(x, es) == Some(y);
    }
    es := ThenSnap(es, Other(Submit(NoFault)));
  }

  // ------------------------------------------------- and which cannot

  predicate SnapDoomed(x: Snap) {
    SnapInv(x) && Live(x.s.v.job.status) && !SubmitMayFail(x.s) && !SnapCompletable(x)
  }

  predicate NoneCould(x: Snap) {
    forall a :: 0 <= a < |x.s.workers| ==> !CouldSnap(x, a)
  }

  lemma OtherKeepsHopeless(x: Snap, e: Event)
    requires SnapInv(x) && SnapStep(x, Other(e)).Some? && AllTerminal(x.s.v.rows)
    requires Live(x.s.v.job.status) && !SubmitMayFail(x.s) && NoneCould(x)
    ensures var y := SnapStep(x, Other(e)).value;
      AllTerminal(y.s.v.rows) && Live(y.s.v.job.status) && NoneCould(y)
  {
    var y := SnapStep(x, Other(e)).value;
    StepAdvancesRows(x.s, e);
    OthersKeepCounters(x, Other(e));
    if e.Work? {
      assert !CouldSnap(x, e.a);
      WorkFrame(x.s, e.a, e.f);
    }
    forall b | 0 <= b < |y.s.workers| ensures !CouldSnap(y, b) {
      if CanWrite(y.s, b) { NoNewWriter(x.s, e, b); }
      assert b < |x.s.workers| ==> !CouldSnap(x, b);
    }
  }

  lemma StoreKeepsHopeless(x: Snap, a: nat, f: Fault)
    requires SnapInv(x) && SnapStep(x, StoreCounts(a, f)).Some? && AllTerminal(x.s.v.rows)
    requires Live(x.s.v.job.status) && !SubmitMayFail(x.s) && NoneCould(x)
    ensures var y := SnapStep(x, StoreCounts(a, f)).value;
      AllTerminal(y.s.v.rows) && Live(y.s.v.job.status) && NoneCould(y)
  {
    var y := SnapStep(x, StoreCounts(a, f)).value;
    assert !CouldSnap(x, a) && CountOk(x, a, x.held[a]);
    StoreKeepsBase(x.s, a, f, x.held[a]);
    WorkFrame(x.s, a, f);
    forall b | 0 <= b < |y.s.workers| ensures !CouldSnap(y, b) {
      if CanWrite(y.s, b) {
        assert CanWrite(WorkStep(x.s, a, f).value, b);
        NoNewWriter(x.s, Work(a, f), b);
      }
      assert !CouldSnap(x, b);
    }
  }

  lemma SnapKeepsBarren(x: Snap, e: SnapEvent, i: nat)
    requires SnapInv(x) && SnapStep(x, e).Some? && !SubmitMayFail(x.s) && Barren(x.s, i)
    ensures Barren(SnapStep(x, e).value.s, i)
  {
    match e {
      case Other(e) => StepKeepsBarren(x.s, e, i);
      case CountRows(_) =>
      case StoreCounts(a, f) =>
        var y := SnapStep(x, e).value;
        StepKeepsBarren(x.s, Work(a, f), i);
        var w := WorkStep(x.s, a, f).value;
        assert forall b :: CanWrite(y.s, b) ==> CanWrite(w, b);
    }
  }

  lemma SnapStaysLive(x: Snap, e: SnapEvent)
    requires SnapInv(x) && SnapStep(x, e).Some? && !SubmitMayFail(x.s)
    requires Live(x.s.v.job.status) && !AllTerminal(x.s.v.rows)
    ensures Live(SnapStep(x, e).value.s.v.job.status)
  {
    if e.Other? { StepKeepsLive(x.s, e.e); }
  }

  lemma SnapUnfailed(x: Snap, e: SnapEvent)
    requires SnapInv(x) && SnapStep(x, e).Some? && !SubmitMayFail(x.s)
    ensures !SubmitMayFail(SnapStep(x, e).value.s)
  {
    if e.Other? { StaysUnfailed(x.s, e.e); }
  }

  lemma SnapStepKeepsDoomed(x: Snap, e: SnapEvent)
    requires SnapDoomed(x) && SnapStep(x, e).Some?
    ensures SnapDoomed(SnapStep(x, e).value)
  {
    var y := SnapStep(x, e).value;
    SnapStepKeepsInv(x, e);
    SnapUnfailed(x, e);
    if AllTerminal(x.s.v.rows) {
      assert NoneCould(x);
      assert e.CountRows? ==> CouldSnap(x, e.a);
      match e {
        case Other(e) => OtherKeepsHopeless(x, e);
        case CountRows(a) =>
        case StoreCounts(a, f) => StoreKeepsHopeless(x, a, f);
      }
    } else {
      var i :| 0 <= i < |x.s.v.rows| && !Terminal(x.s.v.rows[i]) && !Writable(x.s, i);
      SnapKeepsBarren(x, e, i);
      SnapStaysLive(x, e);
      assert Barren(y.s, i);
    }
  }

  lemma {:induction false} SnapRunKeepsDoomed(x: Snap, es: SnapEvents)
    requires SnapDoomed(x) && SnapRun(x, es).Some?
    ensures SnapDoomed(SnapRun(x, es).value)
  {
    if es.ThenSnap? {
      SnapRunKeepsDoomed(x, es.before);
      SnapStepKeepsDoomed(SnapRun(x, es.before).value, es.e);
    }
  }

  lemma SnapFinalisableIff(x: Snap)
    requires SnapInv(x) && Live(x.s.v.job.status)
    ensures SnapFinalisable(x) <==> SubmitMayFail(x.s) || SnapCompletable(x)
  {
    if SubmitMayFail(x.s) {
      var es := SnapFailBy(x);
    } else if SnapCompletable(x) {
      if AllTerminal(x.s.v.rows) {
        var a :| 0 <= a < |x.s.workers| && CouldSnap(x, a);
        var es := SnapFinishBy(x, NoSnapEvents, x, a);
      } else {
        var es := SnapWriteAll(x, NoSnapEvents, x);
      }
    } else {
      forall later | SnapRun(x, later).Some? ensures !SnapFinalises(x, later) {
        SnapRunKeepsDoomed(x, later);
      }
    }
  }

  /** Main result: with counters written later than counted, an unfinished job can still
      become final if and only if Submit may still mark it failed, or every open row
      has an attempt whose row write is ahead, or there is no open row and some attempt
      has its row write or its count ahead, holds counts that pass the guard, may lose
      them in front of counters that do, is in front of such counters already, or is
      about to run the finish update. */
  lemma SnapFinalisableExactly(n: nat, acked: bool, es: SnapEvents, x: Snap)
    requires SnapReaches(n, acked, es, x) && Live(x.s.v.job.status)
    ensures SnapFinalisable(x) <==> SubmitMayFail(x.s) || SnapCompletable(x)
  {
    SnapReachedInv(n, acked, es, x);
    SnapFinalisableIff(x);
  }

  // ------------------------------------------------- no lost finalisation, in order

  /** Attempt a will finalise the job, whatever is stored in order meanwhile. */
  predicate Surely(x: Snap, a: nat) {
    && a < |x.s.workers|
    && var job := x.s.v.job;
       match x.s.workers[a]
       case Recounting(_) => a in x.held ==> x.held[a].completed == job.total && x.shown <= x.held[a].at
       case CountingRemaining(_) => job.completed == job.total
       case ReadingCounters(_) => job.completed == job.total
       case Finishing(_, _, _, _) => true
       case _ => false
  }

  predicate SnapHope(x: Snap) {
    Owed(x.s) ==> exists a :: 0 <= a < |x.s.workers| && Surely(x, a)
  }

  /** Once all rows are terminal nothing after a row write is lost, and counts are
      stored in the order in which they were taken. */
  predicate KeepsOrder(x: Snap, e: SnapEvent) {
    match e
    case Other(e) => Completes(x.s, e) ==> Intact(x.s, e)
    case CountRows(_) => true
    case StoreCounts(a, f) => AllTerminal(x.s.v.rows) && a in x.held ==> f.NoFault? && x.shown <= x.held[a].at
  }

  predicate RunKeepsOrder(x: Snap, es: SnapEvents) {
    match es
    case NoSnapEvents => true
    case ThenSnap(before, e) =>
      RunKeepsOrder(x, before) && SnapRun(x, before).Some? && KeepsOrder(SnapRun(x, before).value, e)
  }

  lemma WorkKeepsSnapHope(x: Snap, a: nat, f: Fault)
    requires SnapInv(x) && SnapHope(x) && SnapStep(x, Other(Work(a, f))).Some? && KeepsOrder(x, Other(Work(a, f)))
    ensures SnapHope(SnapStep(x, Other(Work(a, f))).value)
  {
    var y := SnapStep(x, Other(Work(a, f))).value;
    if Owed(y.s) {
      WorkFrame(x.s, a, f);
      OthersKeepCounters(x, Other(Work(a, f)));
      if x.s.workers[a].Writing? && f.NoFault? {
        assert a !in x.held;
        assert Surely(y, a);
      } else {
        assert y.s.v.rows == x.s.v.rows && Owed(x.s);
        DoneIsTotal(x.s);
        var b :| 0 <= b < |x.s.workers| && Surely(x, b);
        assert Surely(y, b);
      }
    }
  }

  lemma OtherKeepsSnapHope(x: Snap, e: Event)
    requires SnapInv(x) && SnapHope(x) && !e.Work? && SnapStep(x, Other(e)).Some? && KeepsOrder(x, Other(e))
    ensures SnapHope(SnapStep(x, Other(e)).value)
  {
    var y := SnapStep(x, Other(e)).value;
    if Owed(y.s) {
      assert e.Claim? ==> !Terminal(y.s.v.rows[e.i]);
      OthersKeepCounters(x, Other(e));
      assert y.s.v.rows == x.s.v.rows && Owed(x.s);
      var b :| 0 <= b < |x.s.workers| && Surely(x, b);
      assert y.s.workers[b] == x.s.workers[b];
      assert Surely(y, b);
    }
  }

  lemma CountKeepsSnapHope(x: Snap, a: nat)
    requires SnapInv(x) && SnapHope(x) && SnapStep(x, CountRows(a)).Some?
    ensures SnapHope(SnapStep(x, CountRows(a)).value)
  {
    var y := SnapStep(x, CountRows(a)).value;
    if Owed(y.s) {
      DoneIsTotal(x.s);
      var b :| 0 <= b < |x.s.workers| && Surely(x, b);
      assert Surely(y, b);
    }
  }

  lemma StoreKeepsSnapHope(x: Snap, a: nat, f: Fault)
    requires SnapInv(x) && InOrder(x) && SnapHope(x) && SnapStep(x, StoreCounts(a, f)).Some?
    requires KeepsOrder(x, StoreCounts(a, f))
    ensures SnapHope(SnapStep(x, StoreCounts(a, f)).value)
  {
    var y := SnapStep(x, StoreCounts(a, f)).value;
    if Owed(y.s) {
      assert CountOk(x, a, x.held[a]);
      StoreKeepsBase(x.s, a, f, x.held[a]);
      DoneIsTotal(x.s);
      WorkFrame(x.s, a, f);
      assert Owed(x.s);
      var b :| 0 <= b < |x.s.workers| && Surely(x, b);
      if x.held[a].completed == x.s.v.job.total {
        assert Surely(y, a);
      } else {
        assert b != a;
        assert b in x.held && x.s.workers[b].Recounting? ==> x.held[a].at <= x.held[b].at;
        assert Surely(y, b);
      }
    }
  }

  lemma StepKeepsSnapHope(x: Snap, e: SnapEvent)
    requires SnapInv(x) && InOrder(x) && SnapHope(x) && SnapStep(x, e).Some? && KeepsOrder(x, e)
    ensures SnapHope(SnapStep(x, e).value)
  {
    match e {
      case Other(e) => if e.Work? { WorkKeepsSnapHope(x, e.a, e.f); } else { OtherKeepsSnapHope(x, e); }
      case CountRows(a) => CountKeepsSnapHope(x, a);
      case StoreCounts(a, f) => StoreKeepsSnapHope(x, a, f);
    }
  }

  lemma {:induction false} RunKeepsSnapHope(x: Snap, es: SnapEvents)
    requires SnapInv(x) && InOrder(x) && SnapHope(x) && SnapRun(x, es).Some? && RunKeepsOrder(x, es)
    ensures SnapHope(SnapRun(x, es).value)
  {
    if es.ThenSnap? {
      RunKeepsSnapHope(x, es.before);
      SnapRunKeepsInv(x, es.before);
      RunInOrder(x, es.before);
      StepKeepsSnapHope(SnapRun(x, es.before).value, es.e);
    }
  }

  /** The next event of attempt a alone, without a fault. */
  function OwnEvent(x: Snap, a: nat): SnapEvent {
    if !AtRecount(x.s, a) then Other(Work(a, NoFault))
    else if a !in x.held then CountRows(a)
    else StoreCounts(a, NoFault)
  }

  /** The next k events of attempt a, or fewer, leave the job final. */
  predicate SnapFinishesWithin(x: Snap, a: nat, k: nat)
    decreases k
  {
    || !Live(x.s.v.job.status)
    || (k > 0 && SnapStep(x, OwnEvent(x, a)).Some?
        && SnapFinishesWithin(SnapStep(x, OwnEvent(x, a)).value, a, k - 1))
  }

  lemma {:induction false} SnapFinishesLater(x: Snap, a: nat, j: nat, k: nat)
    requires SnapFinishesWithin(x, a, j) && j <= k
    ensures SnapFinishesWithin(x, a, k)
    decreases k
  {
    if Live(x.s.v.job.status) { SnapFinishesLater(SnapStep(x, OwnEvent(x, a)).value, a, j - 1, k - 1); }
  }

  lemma SurelyGoesOn(x: Snap, a: nat)
    requires SnapInv(x) && AllTerminal(x.s.v.rows) && Live(x.s.v.job.status) && Surely(x, a)
    ensures SnapStep(x, OwnEvent(x, a)).Some?
    ensures var y := SnapStep(x, OwnEvent(x, a)).value;
      Live(y.s.v.job.status) ==>
        AllTerminal(y.s.v.rows) && Surely(y, a) && SnapRest(y, a) < SnapRest(x, a)
  {
    DoneIsTotal(x.s);
  }

  /** Attempt a alone, run on without a fault, finalises the job within five events. */
  lemma {:induction false} SurelyFinishes(x: Snap, a: nat)
    requires SnapInv(x) && AllTerminal(x.s.v.rows) && Live(x.s.v.job.status) && Surely(x, a)
    ensures SnapFinishesWithin(x, a, SnapRest(x, a))
    decreases SnapRest(x, a)
  {
    SurelyGoesOn(x, a);
    SnapStepKeepsInv(x, OwnEvent(x, a));
    var y := SnapStep(x, OwnEvent(x, a)).value;
    if Live(y.s.v.job.status) {
      SurelyFinishes(y, a);
      SnapFinishesLater(y, a, SnapRest(y, a), SnapRest(x, a) - 1);
    }
  }

  lemma SnapInitHolds(n: nat, acked: bool)
    ensures SnapInv(SnapInit(n, acked)) && InOrder(SnapInit(n, acked)) && SnapHope(SnapInit(n, acked))
  {
    InitHolds(n, acked);
    var rows := Init(n, acked).v.rows;
    assert |rows| == n && (n > 0 ==> !Terminal(rows[0]));
  }

  lemma OrderedHope(n: nat, acked: bool, es: SnapEvents, x: Snap)
    requires SnapReaches(n, acked, es, x) && RunKeepsOrder(SnapInit(n, acked), es)
    ensures SnapInv(x) && SnapHope(x) && |x.s.v.rows| == n
  {
    SnapInitHolds(n, acked);
    SnapReachedInv(n, acked, es, x);
    RunKeepsSnapHope(SnapInit(n, acked), es);
  }

  /** Main result: when, once all rows are terminal, counts are stored in the order in
      which they were taken and nothing after a row write is lost, no finalisation is
      lost: a job with rows, all terminal, that is still pending or running has an
      attempt that, run on alone and without a fault, finalises it within five events,
      unless `running` was written late. */
  lemma OrderKeepsFinalisation(n: nat, acked: bool, es: SnapEvents, x: Snap)
    requires SnapReaches(n, acked, es, x) && RunKeepsOrder(SnapInit(n, acked), es)
    requires n >= 1 && AllTerminal(x.s.v.rows) && Live(x.s.v.job.status) && !LateRunning(x.s)
    ensures exists a :: 0 <= a < |x.s.workers| && SnapFinishesWithin(x, a, 5)
  {
    OrderedHope(n, acked, es, x);
    assert Owed(x.s);
    var a :| 0 <= a < |x.s.workers| && Surely(x, a);
    SurelyFinishes(x, a);
    SnapFinishesLater(x, a, SnapRest(x, a), 5);
  }

  // ------------------------------------------------- nothing more can happen

  /** Main result: when counts are stored in order and nothing is lost once all rows are
      terminal, a job to which nothing can happen any more is final if and only if
      Submit marked it failed, or it has a row and all rows are terminal; unless
      `running` was written late. */
  lemma SnapStuckInTime(n: nat, acked: bool, es: SnapEvents, x: Snap)
    requires SnapReaches(n, acked, es, x) && RunKeepsOrder(SnapInit(n, acked), es)
    requires Stuck(x.s) && !LateRunning(x.s)
    ensures !Live(x.s.v.job.status) <==> x.s.wrote.WroteFailed? || (n >= 1 && AllTerminal(x.s.v.rows))
  {
    OrderedHope(n, acked, es, x);
    SnapSettled(x);
  }

  lemma SnapSettled(x: Snap)
    requires Base(x.s) && SnapHope(x) && Stuck(x.s) && !LateRunning(x.s)
    ensures !Live(x.s.v.job.status)
            <==> x.s.wrote.WroteFailed? || (|x.s.v.rows| >= 1 && AllTerminal(x.s.v.rows))
  {
    if Owed(x.s) {
      var a :| 0 <= a < |x.s.workers| && Surely(x, a);
      StuckAttempt(x.s, a);
    }
  }

  /** No attempt loses a statement after its row write. */
  predicate SnapIntact(x: Snap, e: SnapEvent) {
    (e.Other? ==> Intact(x.s, e.e)) && (e.StoreCounts? ==> e.f.NoFault?)
  }

  predicate SnapQuiet(x: Snap, es: SnapEvents) {
    match es
    case NoSnapEvents => true
    case ThenSnap(before, e) =>
      SnapQuiet(x, before) && SnapRun(x, before).Some? && SnapIntact(SnapRun(x, before).value, e)
  }

  lemma SnapKeepsWritten(x: Snap, e: SnapEvent)
    requires SnapInv(x) && RowsWritten(x.s) && SnapIntact(x, e) && SnapStep(x, e).Some?
    ensures RowsWritten(SnapStep(x, e).value.s)
  {
    var y := SnapStep(x, e).value;
    SnapStepKeepsInv(x, e);
    forall i | 0 <= i < |y.s.v.rows| ensures Terminal(y.s.v.rows[i]) <==> RowWritten(y.s, i) {
      match e {
        case Other(e) => StepKeepsWritten(x.s, e, i);
        case CountRows(_) =>
        case StoreCounts(a, f) =>
          StepKeepsWritten(x.s, Work(a, f), i);
          SameWriters(WorkStep(x.s, a, f).value, y.s, i);
      }
    }
  }

  lemma SameWriters(s: St, t: St, i: nat)
    requires s.workers == t.workers
    ensures RowWritten(s, i) <==> RowWritten(t, i)
  {
  }

  lemma {:induction false} SnapRunKeepsWritten(x: Snap, es: SnapEvents)
    requires SnapInv(x) && RowsWritten(x.s) && SnapRun(x, es).Some? && SnapQuiet(x, es)
    ensures RowsWritten(SnapRun(x, es).value.s)
  {
    if es.ThenSnap? {
      SnapRunKeepsWritten(x, es.before);
      SnapRunKeepsInv(x, es.before);
      SnapKeepsWritten(SnapRun(x, es.before).value, es.e);
    }
  }

  /** Main result: what is left of the rows is the same when counters are written later
      than counted, in whatever order. */
  lemma SnapStuckRows(n: nat, acked: bool, es: SnapEvents, x: Snap, i: nat)
    requires SnapReaches(n, acked, es, x) && SnapQuiet(SnapInit(n, acked), es) && Stuck(x.s) && i < n
    ensures |x.s.v.rows| == n
    ensures Outstanding(x.s.v.rows[i]) <==> Exhausted(x.s, i)
    ensures Terminal(x.s.v.rows[i]) <==> !Exhausted(x.s, i)
  {
    SnapReachedInv(n, acked, es, x);
    SnapReachedWritten(n, acked, es, x);
    SettledRow(x.s, i);
  }

  lemma SnapReachedWritten(n: nat, acked: bool, es: SnapEvents, x: Snap)
    requires SnapReaches(n, acked, es, x) && SnapQuiet(SnapInit(n, acked), es)
    ensures RowsWritten(x.s)
  {
    InitQuiet(n, acked);
    SnapRunKeepsWritten(SnapInit(n, acked), es);
  }

  // ------------------------------------------------- the decided status

  /** Every row is written while it is not yet terminal. */
  predicate RunWritesOnce(x: Snap, es: SnapEvents) {
    match es
    case NoSnapEvents => true
    case ThenSnap(before, e) =>
      && RunWritesOnce(x, before) && SnapRun(x, before).Some?
      && (e.Other? ==> FreshWrite(SnapRun(x, before).value.s, e.e))
  }

  /** All counts about, held, shown or read, were taken at some earlier moment. */
  predicate SnapOnce(x: Snap) {
    && SnapInv(x)
    && Counted(x.s.v.rows, x.s.v.job.completed, x.s.v.job.failed)
    && (forall a :: a in x.held ==> Counted(x.s.v.rows, x.held[a].completed, x.held[a].failed))
    && forall a :: 0 <= a < |x.s.workers| && x.s.workers[a].Finishing? ==>
         Counted(x.s.v.rows, x.s.workers[a].completed, x.s.workers[a].failed)
  }

  lemma CountedStays(xs: seq<RowStatus>, ys: seq<RowStatus>, c: nat, f: nat)
    requires RowsFrozen(xs, ys) && Counted(xs, c, f)
    ensures Counted(ys, c, f)
  {
    FrozenCounts(xs, ys);
  }

  lemma OtherKeepsOnce(x: Snap, e: Event)
    requires SnapOnce(x) && SnapStep(x, Other(e)).Some? && FreshWrite(x.s, e)
    ensures SnapOnce(SnapStep(x, Other(e)).value)
  {
    var y := SnapStep(x, Other(e)).value;
    SnapStepKeepsInv(x, Other(e));
    StepFreezes(x.s, e);
    OthersKeepCounters(x, Other(e));
    CountedStays(x.s.v.rows, y.s.v.rows, x.s.v.job.completed, x.s.v.job.failed);
    forall a | a in y.held ensures Counted(y.s.v.rows, y.held[a].completed, y.held[a].failed) {
      CountedStays(x.s.v.rows, y.s.v.rows, x.held[a].completed, x.held[a].failed);
    }
    forall a | 0 <= a < |y.s.workers| && y.s.workers[a].Finishing?
      ensures Counted(y.s.v.rows, y.s.workers[a].completed, y.s.workers[a].failed)
    {
      FinishingOrigin(x.s, e, a);
      CountedStays(x.s.v.rows, y.s.v.rows, y.s.workers[a].completed, y.s.workers[a].failed);
    }
  }

  lemma StoreKeepsOnce(x: Snap, a: nat, f: Fault)
    requires SnapOnce(x) && SnapStep(x, StoreCounts(a, f)).Some?
    ensures SnapOnce(SnapStep(x, StoreCounts(a, f)).value)
  {
    var y := SnapStep(x, StoreCounts(a, f)).value;
    SnapStepKeepsInv(x, StoreCounts(a, f));
    assert CountOk(x, a, x.held[a]);
    StoreKeepsBase(x.s, a, f, x.held[a]);
    WorkFrame(x.s, a, f);
    assert !y.s.workers[a].Finishing?;
  }

  lemma SnapStepKeepsOnce(x: Snap, e: SnapEvent)
    requires SnapOnce(x) && SnapStep(x, e).Some? && (e.Other? ==> FreshWrite(x.s, e.e))
    ensures SnapOnce(SnapStep(x, e).value)
  {
    match e {
      case Other(e) => OtherKeepsOnce(x, e);
      case CountRows(a) =>
        SnapStepKeepsInv(x, e);
        CountsPartition(x.s.v.rows);
      case StoreCounts(a, f) => StoreKeepsOnce(x, a, f);
    }
  }

  lemma {:induction false} SnapRunKeepsOnce(x: Snap, es: SnapEvents)
    requires SnapOnce(x) && SnapRun(x, es).Some? && RunWritesOnce(x, es)
    ensures SnapOnce(SnapRun(x, es).value)
  {
    if es.ThenSnap? {
      SnapRunKeepsOnce(x, es.before);
      SnapStepKeepsOnce(SnapRun(x, es.before).value, es.e);
    }
  }

  /** Main result: the condition for a right status is the same when counters are written
      later than counted: with each row written once, the decided status is right if and
      only if the finaliser read completed_pairs = total_pairs, or some row is not a
      failure; and `failed` is always right. */
  lemma SnapVerdictExact(n: nat, acked: bool, es: SnapEvents, x: Snap, e: SnapEvent, y: Snap)
    requires SnapReaches(n, acked, es, x) && RunWritesOnce(SnapInit(n, acked), es)
    requires SnapStep(x, e) == Some(y) && Fired(x.s, y.s)
    ensures e.Other? && e.e.Work? && e.e.a < |x.s.workers| && x.s.workers[e.e.a].Finishing?
    ensures Deserved(y.s.v)
            <==> x.s.workers[e.e.a].completed == x.s.workers[e.e.a].total || !AllUnsuccessful(x.s.v.rows)
    ensures y.s.v.job.status.Failed? ==> Deserved(y.s.v)
  {
    SnapReachedOnce(n, acked, es, x);
    OnceVerdict(x, e);
  }

  lemma SnapInitOnce(n: nat, acked: bool)
    ensures SnapOnce(SnapInit(n, acked))
  {
    InitHolds(n, acked);
  }

  lemma SnapReachedOnce(n: nat, acked: bool, es: SnapEvents, x: Snap)
    requires SnapReaches(n, acked, es, x) && RunWritesOnce(SnapInit(n, acked), es)
    ensures SnapOnce(x)
  {
    SnapInitOnce(n, acked);
    SnapRunKeepsOnce(SnapInit(n, acked), es);
  }

  lemma OnceVerdict(x: Snap, e: SnapEvent)
    requires SnapOnce(x) && SnapStep(x, e).Some? && Fired(x.s, SnapStep(x, e).value.s)
    ensures e.Other? && e.e.Work? && e.e.a < |x.s.workers| && x.s.workers[e.e.a].Finishing?
    ensures var v := SnapStep(x, e).value.s.v;
      && (Deserved(v)
          <==> x.s.workers[e.e.a].completed == x.s.workers[e.e.a].total || !AllUnsuccessful(x.s.v.rows))
      && (v.job.status.Failed? ==> Deserved(v))
  {
    FiringAttempt(x.s, e.e);
    assert KnowsDone(x.s.v, x.s.workers[e.e.a]);
    CountAll(x.s.v.rows, Unsuccessful);
    CountsPartition(x.s.v.rows);
  }
}
