/** Will the status of a final job stay the right one?  Rows of a final job can still
    be rewritten, by a retry or a redelivery. */
module LastingStatus {
  import opened JobState
  import opened JobProtocol
  import opened Wrappers
  import opened Safety
  import opened FinalStatus
  import opened Recovery

  /** Whatever happens from now on, the status is the one the rows deserve. */
  ghost predicate RightForGood(s: St) {
    forall later :: Run(Anything, s, later).Some? ==> Deserved(Run(Anything, s, later).value.v)
  }

  function Other(o: Outcome): Outcome { if o.Stored? then DeadLettered else Stored }

  /** The attempt may still write its row with outcome o. */
  predicate MayWrite(s: St, a: nat, o: Outcome) {
    CanWrite(s, a) && s.workers[a] != Writing(Other(o))
  }

  predicate RowMayGet(s: St, i: nat, o: Outcome) {
    exists a :: 0 <= a < |s.workers| && Item(a) == i && MayWrite(s, a, o)
  }

  /** The row has outcome o; `failed` counts as dead-lettered. */
  predicate Is(r: RowStatus, o: Outcome) {
    if o.Stored? then Successful(r) else Unsuccessful(r)
  }

  // ------------------------------------------------- rows that stay as they are

  /** Row i has outcome o, and no attempt may write the other one. */
  predicate Settled(s: St, i: nat, o: Outcome) {
    i < |s.v.rows| && Is(s.v.rows[i], o) && !RowMayGet(s, i, Other(o))
  }

  lemma StepKeepsSettled(s: St, e: Event, i: nat, o: Outcome)
    requires Inv(s) && Step(s, e).Some? && s.sub.Returned? && Settled(s, i, o)
    ensures Settled(Step(s, e).value, i, o)
  {
    var t := Step(s, e).value;
    if b :| 0 <= b < |t.workers| && Item(b) == i && MayWrite(t, b, Other(o)) {
      NoNewWriter(s, e, b);
      StillOther(s, e, b, o);
      assert RowMayGet(s, i, Other(o));
    }
    RowStays(s, e, i, o);
  }

  /** An attempt that may write an outcome after a step could before. */
  lemma StillOther(s: St, e: Event, b: nat, o: Outcome)
    requires Inv(s) && Step(s, e).Some? && s.sub.Returned?
    requires CanWrite(s, b) && MayWrite(Step(s, e).value, b, Other(o))
    ensures MayWrite(s, b, Other(o))
  {
    if e.Work? { WorkFrame(s, e.a, e.f); }
  }

  lemma RowStays(s: St, e: Event, i: nat, o: Outcome)
    requires Step(s, e).Some? && Settled(s, i, o)
    ensures |Step(s, e).value.v.rows| == |s.v.rows| && Is(Step(s, e).value.v.rows[i], o)
  {
    if e.Work? && s.workers[e.a].Writing? && Item(e.a) == i {
      assert !MayWrite(s, e.a, Other(o));
    }
  }

  lemma {:induction false} RunKeepsSettled(s: St, es: Events, i: nat, o: Outcome)
    requires Inv(s) && Run(Anything, s, es).Some? && s.sub.Returned? && Settled(s, i, o)
    ensures Settled(Run(Anything, s, es).value, i, o)
  {
    if es.Then? {
      RunKeepsSettled(s, es.before, i, o);
      RunKeepsInv(Anything, s, es.before);
      StaysReturned(s, es.before);
      StepKeepsSettled(Run(Anything, s, es.before).value, es.e, i, o);
    }
  }

  lemma {:induction false} StaysReturned(s: St, es: Events)
    requires s.sub.Returned? && Run(Anything, s, es).Some?
    ensures Run(Anything, s, es).value.sub == s.sub
  {
    if es.Then? {
      StaysReturned(s, es.before);
      OnlySubmitReturns(Run(Anything, s, es.before).value, es.e);
    }
  }

  lemma OnlySubmitReturns(s: St, e: Event)
    requires s.sub.Returned? && Step(s, e).Some?
    ensures Step(s, e).value.sub == s.sub
  {
  }

  // ------------------------------------------------- rows that may change

  /** The attempt is run on, alone, until it has written the row with outcome o. */
  lemma WriteBy(s0: St, es: Events, s: St, a: nat, o: Outcome) returns (es': Events, t: St, b: nat)
    requires Run(Anything, s0, es) == Some(s) && Inv(s) && MayWrite(s, a, o)
    ensures Run(Anything, s0, es') == Some(t) && Inv(t) && t.sub == s.sub
    ensures b < |s.workers| && Item(b) == Item(a) < |s.v.rows|
    ensures t.v == WriteRow(s.v, Item(a), RowOf(o)) && t.workers == s.workers[b := Recounting(o)]
  {
    b := a;
    if Waiting(s.workers[a]) { b := FirstQueued(s, a); }
    es', t := DriveToWrite(s0, es, s, b, o);
  }

  /** An attempt of another row is not affected. */
  lemma StillMayGet(s: St, t: St, b: nat, i: nat, o: Outcome)
    requires b < |s.workers| == |t.workers| && t.workers == s.workers[b := t.workers[b]]
    requires RowMayGet(s, i, o) && i != Item(b)
    ensures RowMayGet(t, i, o)
  {
    var a :| 0 <= a < |s.workers| && Item(a) == i && MayWrite(s, a, o);
    assert MayWrite(t, a, o);
  }

  /** The complete rows one after the other become dead letters. */
  lemma {:induction false} SinkAll(s0: St, es: Events, s: St) returns (es': Events, t: St)
    requires Run(Anything, s0, es) == Some(s) && Inv(s) && AllTerminal(s.v.rows)
    requires forall i :: 0 <= i < |s.v.rows| && Successful(s.v.rows[i]) ==> RowMayGet(s, i, DeadLettered)
    ensures Run(Anything, s0, es') == Some(t) && AllUnsuccessful(t.v.rows)
    decreases Good(s.v.rows)
  {
    if i :| 0 <= i < |s.v.rows| && Successful(s.v.rows[i]) {
      assert RowMayGet(s, i, DeadLettered);
      var a :| 0 <= a < |s.workers| && Item(a) == i && MayWrite(s, a, DeadLettered);
      var fs, m, b := WriteBy(s0, es, s, a, DeadLettered);
      CountUpdate(s.v.rows, i, RowDeadLetter, Successful);
      forall k | 0 <= k < |m.v.rows| && Successful(m.v.rows[k]) ensures RowMayGet(m, k, DeadLettered) {
        StillMayGet(s, m, b, k, DeadLettered);
      }
      es', t := SinkAll(s0, fs, m);
    } else {
      es', t := es, s;
    }
  }

  // ------------------------------------------------- exactly

  lemma StatusStays(s: St, later: Events)
    requires Inv(s) && s.sub.Returned? && !Live(s.v.job.status) && Run(Anything, s, later).Some?
    ensures Run(Anything, s, later).value.v.job.status == s.v.job.status
  {
    StaysDecided(s, later);
  }

  /** No attempt may store a row any more. */
  predicate NoneMayStore(s: St) {
    forall a :: 0 <= a < |s.workers| ==> !MayWrite(s, a, Stored)
  }

  lemma FailedIff(s: St)
    requires Inv(s) && s.sub.Returned? && s.v.job.status.Failed?
    ensures RightForGood(s) <==> AllUnsuccessful(s.v.rows) && NoneMayStore(s)
  {
    if AllUnsuccessful(s.v.rows) && NoneMayStore(s) {
      forall later | Run(Anything, s, later).Some? ensures Deserved(Run(Anything, s, later).value.v) {
        StaysFailed(s, later);
      }
    } else if !AllUnsuccessful(s.v.rows) {
      assert Run(Anything, s, NoEvents) == Some(s);
    } else {
      var a :| 0 <= a < |s.workers| && MayWrite(s, a, Stored);
      var es, t, b := WriteBy(s, NoEvents, s, a, Stored);
      StatusStays(s, es);
      assert Successful(t.v.rows[Item(a)]);
      assert !Deserved(t.v);
    }
  }

  lemma StaysFailed(s: St, later: Events)
    requires Inv(s) && s.sub.Returned? && s.v.job.status.Failed? && Run(Anything, s, later).Some?
    requires AllUnsuccessful(s.v.rows) && NoneMayStore(s)
    ensures Deserved(Run(Anything, s, later).value.v)
  {
    var u := Run(Anything, s, later).value;
    StatusStays(s, later);
    RunAdvances(Anything, s, later);
    forall i | 0 <= i < |u.v.rows| ensures Unsuccessful(u.v.rows[i]) {
      assert Settled(s, i, DeadLettered);
      RunKeepsSettled(s, later, i, DeadLettered);
    }
  }

  lemma CompleteIff(s: St)
    requires Inv(s) && s.sub.Returned? && s.v.job.status.Complete?
    ensures RightForGood(s) <==> exists i :: 0 <= i < |s.v.rows| && Settled(s, i, Stored)
  {
    if i :| 0 <= i < |s.v.rows| && Settled(s, i, Stored) {
      forall later | Run(Anything, s, later).Some? ensures Deserved(Run(Anything, s, later).value.v) {
        StatusStays(s, later);
        RunKeepsSettled(s, later, i, Stored);
      }
    } else {
      forall i | 0 <= i < |s.v.rows| && Successful(s.v.rows[i]) ensures RowMayGet(s, i, DeadLettered) {
        assert !Settled(s, i, Stored);
      }
      var es, t := SinkAll(s, NoEvents, s);
      StatusStays(s, es);
      assert !Deserved(t.v);
    }
  }

  /** Main result: the status of a final job, Submit having returned, is right and stays
      right, whatever happens, if and only if: for `failed`, every row
      is unsuccessful now and no attempt may still store its row; for `complete`, some
      row is complete and has no attempt that may still dead-letter it. */
  lemma RightForGoodExactly(n: nat, acked: bool, es: Events, s: St)
    requires Reaches(Anything, n, acked, es, s)
    requires s.sub.Returned? && !Live(s.v.job.status)
    ensures s.v.job.status.Failed? ==> (RightForGood(s) <==> AllUnsuccessful(s.v.rows) && NoneMayStore(s))
    ensures s.v.job.status.Complete? ==>
      (RightForGood(s) <==>
         exists i :: 0 <= i < |s.v.rows| && s.v.rows[i].RowComplete? && !RowMayGet(s, i, DeadLettered))
  {
    ReachedInv(Anything, n, acked, es, s);
    if s.v.job.status.Failed? {
      FailedIff(s);
    } else {
      CompleteIff(s);
      SettledMeans(s);
    }
  }

  lemma SettledMeans(s: St)
    ensures (exists i :: 0 <= i < |s.v.rows| && Settled(s, i, Stored))
            <==> exists i :: 0 <= i < |s.v.rows| && s.v.rows[i].RowComplete? && !RowMayGet(s, i, DeadLettered)
  {
    if i :| 0 <= i < |s.v.rows| && s.v.rows[i].RowComplete? && !RowMayGet(s, i, DeadLettered) {
      assert Settled(s, i, Stored);
    }
  }
}
