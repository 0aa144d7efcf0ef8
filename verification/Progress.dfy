/** Progress that goes back: counters written in another order than they were counted.
    Which jobs can it still happen to? */
module Progress {
  import opened JobState
  import opened JobProtocol
  import opened Wrappers
  import opened Safety
  import opened Quiescence
  import opened Recovery
  import opened Snapshots

  /** After the events `later` the event e lowers completed_pairs. */
  predicate GoesBack(x: Snap, later: SnapEvents, e: SnapEvent) {
    && SnapRun(x, later).Some?
    && var m := SnapRun(x, later).value;
       SnapStep(m, e).Some? && SnapStep(m, e).value.s.v.job.completed < m.s.v.job.completed
  }

  ghost predicate MayGoBack(x: Snap) {
    exists later, e :: GoesBack(x, later, e)
  }

  /** The attempt has counted and not yet written. */
  predicate Holder(x: Snap, a: nat) { AtRecount(x.s, a) && a in x.held }

  /** The attempt may still count. */
  predicate MayCount(x: Snap, a: nat) { (AtRecount(x.s, a) && a !in x.held) || CanWrite(x.s, a) }

  /** The attempt may still write a row that is open. */
  predicate MayClose(x: Snap, b: nat) {
    CanWrite(x.s, b) && Item(b) < |x.s.v.rows| && !Terminal(x.s.v.rows[Item(b)])
  }

  /** The attempt holds fewer rows than the job shows. */
  predicate HoldsOld(x: Snap, a: nat) {
    Holder(x, a) && x.held[a].completed < x.s.v.job.completed
  }

  /** Attempt b may still write counters with more rows than those of attempt a, and
      before a does. */
  predicate Overtakes(x: Snap, b: nat, a: nat) {
    && a != b
    && if Holder(x, a) then
         || (Holder(x, b) && x.held[a].completed < x.held[b].completed)
         || (MayCount(x, b) && x.held[a].completed < Done(x.s.v.rows))
         || MayClose(x, b)
       else
         MayCount(x, a) && MayClose(x, b) && (AtRecount(x.s, a) || Item(a) != Item(b))
  }

  predicate CountsAtRisk(x: Snap) {
    || (exists a :: 0 <= a < |x.s.workers| && HoldsOld(x, a))
    || (exists a, b :: 0 <= a < |x.s.workers| && 0 <= b < |x.s.workers| && Overtakes(x, b, a))
  }

  // ------------------------------------------------- when it can happen

  lemma WriteOld(x0: Snap, es: SnapEvents, x: Snap, a: nat)
    requires SnapRun(x0, es) == Some(x) && HoldsOld(x, a)
    ensures GoesBack(x0, es, StoreCounts(a, NoFault))
  {
  }

  /** b writes its counters first. */
  lemma WriteNewer(x0: Snap, es: SnapEvents, x: Snap, a: nat, b: nat) returns (later: SnapEvents, e: SnapEvent)
    requires SnapRun(x0, es) == Some(x) && a != b && Holder(x, a) && Holder(x, b)
    requires x.held[a].completed < x.held[b].completed
    ensures GoesBack(x0, later, e)
  {
    later, e := ThenSnap(es, StoreCounts(b, NoFault)), StoreCounts(a, NoFault);
    var y := SnapStep(x, StoreCounts(b, NoFault)).value;
    WorkFrame(x.s, b, NoFault);
    assert HoldsOld(y, a);
    WriteOld(x0, later, y, a);
  }

  /** b counts, and then writes first. */
  lemma CountNewer(x0: Snap, es: SnapEvents, x: Snap, a: nat, b: nat) returns (later: SnapEvents, e: SnapEvent)
    requires SnapRun(x0, es) == Some(x) && Holder(x, a) && AtRecount(x.s, b) && b !in x.held
    requires x.held[a].completed < Done(x.s.v.rows)
    ensures GoesBack(x0, later, e)
  {
    var y := SnapStep(x, CountRows(b)).value;
    later, e := WriteNewer(x0, ThenSnap(es, CountRows(b)), y, a, b);
  }

  /** An attempt of b's item, b itself or one before it, writes the row. */
  lemma RowByItem(x0: Snap, es: SnapEvents, x: Snap, b: nat) returns (es': SnapEvents, y: Snap, c: nat)
    requires SnapRun(x0, es) == Some(x) && SnapInv(x) && CanWrite(x.s, b)
    ensures SnapRun(x0, es') == Some(y) && SnapInv(y) && y.held == x.held && y.s.sub == x.s.sub
    ensures c < |x.s.workers| && Item(c) == Item(b) < |x.s.v.rows| && CanWrite(x.s, c) && c !in y.held
    ensures exists o :: y.s.v == WriteRow(x.s.v, Item(b), RowOf(o)) && y.s.workers == x.s.workers[c := Recounting(o)]
  {
    c := b;
    if Waiting(x.s.workers[b]) { c := FirstQueued(x.s, b); }
    es', y := SnapDriveToWrite(x0, es, x, c, Chosen(x.s.workers[c]));
  }

  /** Writing a row takes none away from the count, and adds an open one. */
  lemma DoneAfter(v: JobView, i: nat, st: RowStatus)
    requires i < |v.rows| && Terminal(st)
    ensures Done(WriteRow(v, i, st).rows) == Done(v.rows) + if Terminal(v.rows[i]) then 0 else 1
  {
    CountUpdate(v.rows, i, st, Terminal);
  }

  /** a holds its count; b may count more, because there is more or because it may still
      close a row. */
  lemma OvertakeHolder(x0: Snap, es: SnapEvents, x: Snap, a: nat, b: nat) returns (later: SnapEvents, e: SnapEvent)
    requires SnapRun(x0, es) == Some(x) && SnapInv(x) && Holder(x, a) && Overtakes(x, b, a)
    ensures GoesBack(x0, later, e)
  {
    assert CountOk(x, a, x.held[a]);
    if Holder(x, b) && x.held[a].completed < x.held[b].completed {
      later, e := WriteNewer(x0, es, x, a, b);
    } else if AtRecount(x.s, b) {
      later, e := CountNewer(x0, es, x, a, b);
    } else {
      var fs, y, c := RowByItem(x0, es, x, b);
      var o :| y.s.v == WriteRow(x.s.v, Item(b), RowOf(o)) && y.s.workers == x.s.workers[c := Recounting(o)];
      DoneAfter(x.s.v, Item(b), RowOf(o));
      later, e := CountNewer(x0, fs, y, a, c);
    }
  }

  /** a counts now, and is overtaken then. */
  lemma OvertakeCounter(x0: Snap, es: SnapEvents, x: Snap, a: nat, b: nat) returns (later: SnapEvents, e: SnapEvent)
    requires SnapRun(x0, es) == Some(x) && SnapInv(x) && AtRecount(x.s, a) && a !in x.held && MayClose(x, b)
    ensures GoesBack(x0, later, e)
  {
    var y := SnapStep(x, CountRows(a)).value;
    SnapStepKeepsInv(x, CountRows(a));
    assert MayClose(y, b) && Overtakes(y, b, a);
    later, e := OvertakeHolder(x0, ThenSnap(es, CountRows(a)), y, a, b);
  }

  /** An attempt of another item may close its row as before. */
  lemma StillCloses(x: Snap, y: Snap, c: nat, b: nat, i: nat, o: Outcome)
    requires MayClose(x, b) && c < |x.s.workers| && Item(c) == i != Item(b) && i < |x.s.v.rows|
    requires y.s.v == WriteRow(x.s.v, i, RowOf(o)) && y.s.workers == x.s.workers[c := Recounting(o)]
    ensures MayClose(y, b)
  {
  }

  lemma Overtake(x0: Snap, es: SnapEvents, x: Snap, a: nat, b: nat) returns (later: SnapEvents, e: SnapEvent)
    requires SnapRun(x0, es) == Some(x) && SnapInv(x) && Overtakes(x, b, a)
    ensures GoesBack(x0, later, e)
  {
    if Holder(x, a) {
      later, e := OvertakeHolder(x0, es, x, a, b);
    } else if AtRecount(x.s, a) {
      later, e := OvertakeCounter(x0, es, x, a, b);
    } else {
      var fs, y, c := RowByItem(x0, es, x, a);
      var o :| y.s.v == WriteRow(x.s.v, Item(a), RowOf(o)) && y.s.workers == x.s.workers[c := Recounting(o)];
      StillCloses(x, y, c, b, Item(a), o);
      later, e := OvertakeCounter(x0, fs, y, c, b);
    }
  }

  // ------------------------------------------------- when it cannot

  predicate Safe(x: Snap) {
    SnapInv(x) && ItemsOut(x.s) && !CountsAtRisk(x)
  }

  lemma NotAtRisk(x: Snap, a: nat, b: nat)
    requires Safe(x) && a < |x.s.workers| && b < |x.s.workers|
    ensures !Overtakes(x, b, a) && !HoldsOld(x, a)
  {
  }

  /** What the other events of the protocol do to holders, counters-to-be and counts. */
  lemma OtherShrinks(x: Snap, e: Event, a: nat)
    requires SnapInv(x) && ItemsOut(x.s) && SnapStep(x, Other(e)).Some?
    ensures var y := SnapStep(x, Other(e)).value;
      && (Holder(y, a) ==> Holder(x, a))
      && (MayCount(y, a) ==> MayCount(x, a))
      && (MayClose(y, a) ==> MayClose(x, a))
  {
    var y := SnapStep(x, Other(e)).value;
    StepAdvancesRows(x.s, e);
    if CanWrite(y.s, a) { NoNewWriter(x.s, e, a); }
    if a in x.held { assert CountOk(x, a, x.held[a]); }
    if AtRecount(y.s, a) && !AtRecount(x.s, a) { BecomesRecount(x.s, e, a); }
  }

  lemma BecomesRecount(s: St, e: Event, a: nat)
    requires Base(s) && Step(s, e).Some? && AtRecount(Step(s, e).value, a) && !AtRecount(s, a)
    ensures e == Work(a, NoFault) && a < |s.workers| && s.workers[a].Writing?
    ensures Item(a) < |s.v.rows| ==> Terminal(Step(s, e).value.v.rows[Item(a)])
  {
    if e.Work? { WorkFrame(s, e.a, e.f); }
  }

  /** More rows are done only after the write of an open row. */
  lemma DoneGrows(s: St, e: Event)
    requires Step(s, e).Some? && Done(Step(s, e).value.v.rows) != Done(s.v.rows)
    ensures e.Work? && e.a < |s.workers| && s.workers[e.a].Writing?
    ensures Item(e.a) < |s.v.rows| && !Terminal(s.v.rows[Item(e.a)])
  {
    if e.Claim? { ClaimCountsNothing(s.v.rows, e.i); }
    if e.Work? && s.workers[e.a].Writing? {
      CountUpdate(s.v.rows, Item(e.a), RowOf(s.workers[e.a].o), Terminal);
    }
  }

  lemma OtherStaysSafe(x: Snap, e: Event, a: nat, b: nat)
    requires Safe(x) && SnapStep(x, Other(e)).Some?
    requires a < |SnapStep(x, Other(e)).value.s.workers| && b < |SnapStep(x, Other(e)).value.s.workers|
    ensures !Overtakes(SnapStep(x, Other(e)).value, b, a) && !HoldsOld(SnapStep(x, Other(e)).value, a)
  {
    var y := SnapStep(x, Other(e)).value;
    OthersKeepCounters(x, Other(e));
    OtherShrinks(x, e, a);
    OtherShrinks(x, e, b);
    if a < |x.s.workers| && b < |x.s.workers| {
      NotAtRisk(x, a, b);
      if Done(y.s.v.rows) != Done(x.s.v.rows) {
        DoneGrows(x.s, e);
        NotAtRisk(x, a, e.a);
      }
      if AtRecount(y.s, a) && !AtRecount(x.s, a) { BecomesRecount(x.s, e, a); }
    }
  }

  lemma CountStaysSafe(x: Snap, c: nat, a: nat, b: nat)
    requires Safe(x) && SnapStep(x, CountRows(c)).Some? && a < |x.s.workers| && b < |x.s.workers|
    ensures !Overtakes(SnapStep(x, CountRows(c)).value, b, a) && !HoldsOld(SnapStep(x, CountRows(c)).value, a)
  {
    NotAtRisk(x, a, b);
    NotAtRisk(x, c, b);
    NotAtRisk(x, a, c);
    if a in x.held { assert CountOk(x, a, x.held[a]); }
    if b in x.held { assert CountOk(x, b, x.held[b]); }
  }

  lemma StoreStaysSafe(x: Snap, c: nat, f: Fault, a: nat, b: nat)
    requires Safe(x) && SnapStep(x, StoreCounts(c, f)).Some? && a < |x.s.workers| && b < |x.s.workers|
    ensures !Overtakes(SnapStep(x, StoreCounts(c, f)).value, b, a) && !HoldsOld(SnapStep(x, StoreCounts(c, f)).value, a)
  {
    var y := SnapStep(x, StoreCounts(c, f)).value;
    assert CountOk(x, c, x.held[c]);
    StoreKeepsBase(x.s, c, f, x.held[c]);
    WorkFrame(x.s, c, f);
    NotAtRisk(x, a, b);
    NotAtRisk(x, a, c);
    forall d | d == a || d == b ensures CanWrite(y.s, d) ==> CanWrite(x.s, d) {
      if CanWrite(y.s, d) {
        assert CanWrite(WorkStep(x.s, c, f).value, d);
        NoNewWriter(x.s, Work(c, f), d);
      }
    }
  }

  lemma ItemsStayOut(x: Snap, e: SnapEvent)
    requires ItemsOut(x.s) && SnapStep(x, e).Some?
    ensures ItemsOut(SnapStep(x, e).value.s)
  {
  }

  lemma SizesStay(x: Snap, e: SnapEvent)
    requires SnapStep(x, e).Some? && !e.Other?
    ensures |SnapStep(x, e).value.s.workers| == |x.s.workers|
  {
  }

  lemma StepStaysSafe(x: Snap, e: SnapEvent)
    requires Safe(x) && SnapStep(x, e).Some?
    ensures Safe(SnapStep(x, e).value)
  {
    var y := SnapStep(x, e).value;
    SnapStepKeepsInv(x, e);
    ItemsStayOut(x, e);
    forall a, b | 0 <= a < |y.s.workers| && 0 <= b < |y.s.workers| ensures !Overtakes(y, b, a) {
      PairStaysSafe(x, e, a, b);
    }
    forall a | 0 <= a < |y.s.workers| ensures !HoldsOld(y, a) { PairStaysSafe(x, e, a, a); }
  }

  lemma PairStaysSafe(x: Snap, e: SnapEvent, a: nat, b: nat)
    requires Safe(x) && SnapStep(x, e).Some?
    requires a < |SnapStep(x, e).value.s.workers| && b < |SnapStep(x, e).value.s.workers|
    ensures !Overtakes(SnapStep(x, e).value, b, a) && !HoldsOld(SnapStep(x, e).value, a)
  {
    if !e.Other? { SizesStay(x, e); }
    match e {
      case Other(e) => OtherStaysSafe(x, e, a, b);
      case CountRows(c) => CountStaysSafe(x, c, a, b);
      case StoreCounts(c, f) => StoreStaysSafe(x, c, f, a, b);
    }
  }

  lemma SafeStep(x: Snap, e: SnapEvent)
    requires Safe(x) && SnapStep(x, e).Some?
    ensures x.s.v.job.completed <= SnapStep(x, e).value.s.v.job.completed
  {
    if e.Other? { OthersKeepCounters(x, e); }
    if e.StoreCounts? { NotAtRisk(x, e.a, e.a); }
  }

  // ------------------------------------------------- before the items are with the queue

  /** Row i will get an item when all goes well. */
  predicate Sendable(s: St, i: nat) {
    || (s.sub.ReadingBack? && i < |s.v.rows| && s.v.rows[i].RowPending?)
    || (s.sub.Enqueuing? && i < |s.sub.sent| && s.sub.sent[i])
  }

  predicate TwoSendable(s: St) {
    exists i, j :: 0 <= i < j < |s.v.rows| && Sendable(s, i) && Sendable(s, j)
  }

  /** Before the items are out no row is terminal. */
  predicate EarlyOk(s: St) {
    s.sub.ReadingBack? || s.sub.Enqueuing? ==>
      && (forall i :: 0 <= i < |s.v.rows| ==> !Terminal(s.v.rows[i]))
      && (s.sub.Enqueuing? ==> |s.sub.sent| == |s.v.rows|)
  }

  lemma StepEarlyOk(x: Snap, e: SnapEvent)
    requires SnapInv(x) && EarlyOk(x.s) && SnapStep(x, e).Some?
    ensures EarlyOk(SnapStep(x, e).value.s)
  {
  }

  lemma {:induction false} RunEarlyOk(x: Snap, es: SnapEvents)
    requires SnapInv(x) && EarlyOk(x.s) && SnapRun(x, es).Some?
    ensures EarlyOk(SnapRun(x, es).value.s)
  {
    if es.ThenSnap? {
      RunEarlyOk(x, es.before);
      SnapRunKeepsInv(x, es.before);
      StepEarlyOk(SnapRun(x, es.before).value, es.e);
    }
  }

  lemma InitEarlyOk(n: nat, acked: bool)
    ensures SnapInv(SnapInit(n, acked)) && EarlyOk(SnapInit(n, acked).s)
  {
    InitHolds(n, acked);
  }

  lemma ReachedEarlyOk(n: nat, acked: bool, es: SnapEvents, x: Snap)
    requires SnapReaches(n, acked, es, x)
    ensures SnapInv(x) && EarlyOk(x.s)
  {
    InitEarlyOk(n, acked);
    RunEarlyOk(SnapInit(n, acked), es);
    SnapRunKeepsInv(SnapInit(n, acked), es);
  }

  /** Two items about to be sent are sent, and one overtakes the other. */
  lemma SendBoth(x0: Snap, es: SnapEvents, x: Snap, i: nat, j: nat) returns (later: SnapEvents, e: SnapEvent)
    requires SnapRun(x0, es) == Some(x) && SnapInv(x) && EarlyOk(x.s)
    requires x.s.sub.Enqueuing? && i < j < |x.s.v.rows| && Sendable(x.s, i) && Sendable(x.s, j)
    ensures GoesBack(x0, later, e)
  {
    var y := SnapStep(x, Other(Submit(NoFault))).value;
    SnapStepKeepsInv(x, Other(Submit(NoFault)));
    var a, b := MAX_ATTEMPTS * i, MAX_ATTEMPTS * j;
    FirstOfItem(i, |x.s.v.rows|);
    FirstOfItem(j, |x.s.v.rows|);
    assert y.s.workers[a].Queued? && y.s.workers[b].Queued?;
    assert forall c :: 0 <= c < |y.s.workers| ==> !y.s.workers[c].Succeeded?;
    assert Overtakes(y, b, a);
    later, e := Overtake(x0, ThenSnap(es, Other(Submit(NoFault))), y, a, b);
  }

  lemma FirstOfItem(i: nat, n: nat)
    requires i < n
    ensures MAX_ATTEMPTS * i < MAX_ATTEMPTS * n && Item(MAX_ATTEMPTS * i) == i
  {
  }

  lemma ReadBackFirst(x: Snap, i: nat, j: nat) returns (later: SnapEvents, e: SnapEvent)
    requires SnapInv(x) && EarlyOk(x.s) && i < j < |x.s.v.rows| && Sendable(x.s, i) && Sendable(x.s, j)
    ensures GoesBack(x, later, e)
  {
    if x.s.sub.Enqueuing? {
      later, e := SendBoth(x, NoSnapEvents, x, i, j);
    } else {
      var es := ThenSnap(NoSnapEvents, Other(Submit(NoFault)));
      var y := SnapStep(x, Other(Submit(NoFault))).value;
      assert SnapRun(x, es) == Some(y);
      SnapStepKeepsInv(x, Other(Submit(NoFault)));
      StepEarlyOk(x, Other(Submit(NoFault)));
      later, e := SendBoth(x, es, y, i, j);
    }
  }

  /** With one item at most nothing goes back. */
  predicate SafeSoFar(x: Snap) {
    SnapInv(x) && EarlyOk(x.s) && if ItemsOut(x.s) then !CountsAtRisk(x) else !TwoSendable(x.s)
  }

  lemma EarlyStep(x: Snap, e: SnapEvent)
    requires SafeSoFar(x) && !ItemsOut(x.s) && SnapStep(x, e).Some?
    ensures SafeSoFar(SnapStep(x, e).value) && SnapStep(x, e).value.s.v.job.completed == x.s.v.job.completed
  {
    var y := SnapStep(x, e).value;
    SnapStepKeepsInv(x, e);
    StepEarlyOk(x, e);
    assert x.s.workers == [] && e.Other?;
    OthersKeepCounters(x, e);
    if !ItemsOut(y.s) {
      forall i, j | 0 <= i < j < |y.s.v.rows| && Sendable(y.s, i) && Sendable(y.s, j) ensures false {
        assert Sendable(x.s, i) && Sendable(x.s, j);
      }
    } else {
      JustSent(x, e);
    }
  }

  /** Right after the items are sent all attempts are of one item. */
  lemma JustSent(x: Snap, e: SnapEvent)
    requires SafeSoFar(x) && !ItemsOut(x.s) && SnapStep(x, e).Some? && ItemsOut(SnapStep(x, e).value.s)
    ensures !CountsAtRisk(SnapStep(x, e).value)
  {
    var y := SnapStep(x, e).value;
    assert x.s.workers == [] && e.Other?;
    forall a | 0 <= a < |y.s.workers| ensures !AtRecount(y.s, a) {}
    forall a, b | 0 <= a < |y.s.workers| && 0 <= b < |y.s.workers| && CanWrite(y.s, a) && CanWrite(y.s, b)
      ensures Item(a) == Item(b)
    {
      SentMeans(x, e, a);
      SentMeans(x, e, b);
    }
  }

  lemma SentMeans(x: Snap, e: SnapEvent, a: nat)
    requires SnapInv(x) && EarlyOk(x.s) && !ItemsOut(x.s) && SnapStep(x, e).Some?
    requires CanWrite(SnapStep(x, e).value.s, a)
    ensures Item(a) < |x.s.v.rows| && Sendable(x.s, Item(a))
  {
    assert x.s.workers == [] && e.Other?;
  }

  lemma SoFarStep(x: Snap, e: SnapEvent)
    requires SafeSoFar(x) && SnapStep(x, e).Some?
    ensures SafeSoFar(SnapStep(x, e).value) && x.s.v.job.completed <= SnapStep(x, e).value.s.v.job.completed
  {
    if ItemsOut(x.s) {
      StepStaysSafe(x, e);
      StepEarlyOk(x, e);
      SafeStep(x, e);
    } else {
      EarlyStep(x, e);
    }
  }

  lemma {:induction false} RunSafeSoFar(x: Snap, es: SnapEvents)
    requires SafeSoFar(x) && SnapRun(x, es).Some?
    ensures SafeSoFar(SnapRun(x, es).value)
  {
    if es.ThenSnap? {
      RunSafeSoFar(x, es.before);
      SoFarStep(SnapRun(x, es.before).value, es.e);
    }
  }

  // ------------------------------------------------- exactly

  lemma MayGoBackIff(x: Snap)
    requires SnapInv(x) && EarlyOk(x.s)
    ensures MayGoBack(x) <==> if ItemsOut(x.s) then CountsAtRisk(x) else TwoSendable(x.s)
  {
    if SafeSoFar(x) {
      forall later, e | SnapRun(x, later).Some? ensures !GoesBack(x, later, e) {
        RunSafeSoFar(x, later);
        var m := SnapRun(x, later).value;
        if SnapStep(m, e).Some? { SoFarStep(m, e); }
      }
    } else if !ItemsOut(x.s) {
      var i, j :| 0 <= i < j < |x.s.v.rows| && Sendable(x.s, i) && Sendable(x.s, j);
      var later, e := ReadBackFirst(x, i, j);
    } else if a :| 0 <= a < |x.s.workers| && HoldsOld(x, a) {
      WriteOld(x, NoSnapEvents, x, a);
    } else {
      var a, b :| 0 <= a < |x.s.workers| && 0 <= b < |x.s.workers| && Overtakes(x, b, a);
      var later, e := Overtake(x, NoSnapEvents, x, a, b);
    }
  }

  /** Main result: in every reachable state, progress can still go back if and only if,
      before the items are with the queue, two rows are to get one; and afterwards, if
      some attempt holds a count with fewer rows than the job shows, or some attempt may
      still write counters with more rows than those that another one holds or may come
      to hold, and before it: because it holds more, because it may count and there is
      more, or because it may still close an open row (not the other one's own). */
  lemma {:induction false} MayGoBackExactly(n: nat, acked: bool, es: SnapEvents, x: Snap)
    requires SnapReaches(n, acked, es, x)
    ensures MayGoBack(x) <==> if ItemsOut(x.s) then CountsAtRisk(x) else TwoSendable(x.s)
  {
    ReachedEarlyOk(n, acked, es, x);
    MayGoBackIff(x);
  }
}
