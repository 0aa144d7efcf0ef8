/** Concrete runs showing that each hypothesis of the liveness and exactness
    results is needed. */
module Witnesses {
  import opened JobState
  import opened JobProtocol
  import opened Wrappers
  import opened Safety
  import opened Liveness
  import opened Quiescence
  import opened Recovery
  import opened FinalStatus
  import opened LastingStatus
  import opened Snapshots
  import opened Progress

  /** A job whose items are enqueued and whose Submit is about to write `running`. */
  function Enqueued(n: nat): St {
    St(NewJob(n), MarkingRunning, seq(MAX_ATTEMPTS * n, _ => Queued), Nothing, 0, 0)
  }

  lemma Enqueue(r: Regime, n: nat) returns (es: Events)
    ensures Reaches(r, n, true, es, Enqueued(n))
  {
    es := Then(Then(NoEvents, Submit(NoFault)), Submit(NoFault));
    var sent := PendingNow(NewJob(n).rows);
    assert Run(r, Init(n, true), es.before) == Some(Init(n, true).(sub := Enqueuing(sent)));
    AllSent(n);
  }

  /** One more event of a run. */
  lemma Next(r: Regime, n: nat, es: Events, s: St, e: Event) returns (es': Events, t: St)
    requires Reaches(r, n, true, es, s)
    requires Admits(r, s, e) && Step(s, e).Some?
    ensures es' == Then(es, e) && t == Step(s, e).value && Reaches(r, n, true, es', t)
  {
    es', t := Then(es, e), Step(s, e).value;
  }

  /** Attempt a from its start to the provider's answer. */
  lemma Begin(r: Regime, n: nat, es: Events, s: St, a: nat, res: ProviderResult) returns (es': Events, t: St)
    requires Reaches(r, n, true, es, s)
    requires CanStart(s, a) && Admits(r, s, Start(a))
    ensures t == Goto(s, a, AfterFetch(res)) && Reaches(r, n, true, es', t)
  {
    es', t := Next(r, n, es, s, Start(a));
    es', t := Next(r, n, es', t, Work(a, NoFault));
    es', t := Next(r, n, es', t, Work(a, NoFault));
    es', t := Next(r, n, es', t, Fetch(a, res));
    assert t.workers == s.workers[a := AfterFetch(res)];
  }

  /** The deferred release of attempt a. */
  lemma End(r: Regime, n: nat, es: Events, s: St, a: nat) returns (es': Events, t: St)
    requires Reaches(r, n, true, es, s) && a < |s.workers| && s.workers[a].Leaving?
    ensures t == Goto(s, a, if s.workers[a].ok then Succeeded else Errored)
    ensures Reaches(r, n, true, es', t)
  {
    var ok := s.workers[a].ok;
    LeavingSteps(s, a, ok);
    var fs, m := Next(r, n, es, s, Work(a, NoFault));
    LeavingSteps(m, a, ok);
    es', t := Next(r, n, fs, m, Work(a, NoFault));
    assert s.workers[a := Releasing(ok)][a := t.workers[a]] == s.workers[a := t.workers[a]];
  }

  lemma LeavingSteps(s: St, a: nat, ok: bool)
    requires a < |s.workers|
    ensures s.workers[a] == Leaving(ok) ==> WorkStep(s, a, NoFault) == Some(Goto(s, a, Releasing(ok)))
    ensures s.workers[a] == Releasing(ok) ==>
      WorkStep(s, a, NoFault) == Some(Goto(s, a, if ok then Succeeded else Errored))
  {
  }

  /** Submit done, nothing else started. */
  lemma Submitted(r: Regime, n: nat) returns (es: Events, s: St)
    ensures Reaches(r, n, true, es, s)
    ensures s == Enqueued(n).(v := SetStatus(NewJob(n), JobStatus.Running), sub := Returned(true),
                              wrote := WroteRunning)
  {
    es := Enqueue(r, n);
    es, s := Next(r, n, es, Enqueued(n), Submit(NoFault));
  }

  /** An attempt that ends in a retryable provider error. */
  lemma Retry(r: Regime, n: nat, es: Events, s: St, a: nat) returns (es': Events, t: St)
    requires Reaches(r, n, true, es, s)
    requires CanStart(s, a) && Admits(r, s, Start(a))
    ensures t == Goto(s, a, Errored) && Reaches(r, n, true, es', t)
  {
    es', t := Begin(r, n, es, s, a, RateLimited);
    es', t := End(r, n, es', t, a);
    assert t.workers == s.workers[a := Errored];
  }

  /** The first k attempts of the only item, all retryable errors. */
  lemma {:induction false} Retries(r: Regime, k: nat) returns (es: Events, s: St)
    requires k <= MAX_ATTEMPTS
    ensures Reaches(r, 1, true, es, s)
    ensures s == St(JobView(Job(JobStatus.Running, 1, 0, 0, false), [RowPending]), Returned(true),
                    seq(MAX_ATTEMPTS, a => if a < k then Errored else Queued), WroteRunning, 0, 0)
  {
    if k == 0 {
      es, s := Submitted(r, 1);
      assert s.v.rows == [RowPending];
      assert s.workers == seq(MAX_ATTEMPTS, a => if a < k then Errored else Queued);
    } else {
      var t;
      es, t := Retries(r, k - 1);
      es, s := Retry(r, 1, es, t, k - 1);
      assert s.workers == seq(MAX_ATTEMPTS, a => if a < k then Errored else Queued);
    }
  }

  /** The row write and the counter recompute of attempt a. */
  lemma Write(r: Regime, n: nat, es: Events, s: St, a: nat, o: Outcome) returns (es': Events, t: St)
    requires Reaches(r, n, true, es, s) && a < |s.workers| && s.workers[a] == Writing(o)
    requires Item(a) < |s.v.rows| && s.v.rows[Item(a)].RowPending?
    ensures t == Goto(s.(v := WriteRow(s.v, Item(a), RowOf(o))), a, Recounting(o)) && Reaches(r, n, true, es', t)
  {
    es', t := Next(r, n, es, s, Work(a, NoFault));
  }

  lemma Recompute(r: Regime, n: nat, es: Events, s: St, a: nat, o: Outcome) returns (es': Events, t: St)
    requires Reaches(r, n, true, es, s) && a < |s.workers| && s.workers[a] == Recounting(o)
    ensures t == Goto(s.(v := Recount(s.v)), a, CountingRemaining(o)) && Reaches(r, n, true, es', t)
  {
    es', t := Next(r, n, es, s, Work(a, NoFault));
  }

  /** The whole finish sequence of attempt a, undisturbed. */
  lemma FinishCall(r: Regime, n: nat, es: Events, s: St, a: nat, o: Outcome) returns (es': Events, t: St)
    requires Reaches(r, n, true, es, s) && a < |s.workers| && s.workers[a] == CountingRemaining(o)
    requires Remaining(s.v) == 0 && Live(s.v.job.status)
    ensures var j := s.v.job;
      t == Goto(if j.completed + j.failed < j.total then s else FireFinish(s, Verdict(j.total, j.failed)), a,
                Leaving(true))
    ensures Reaches(r, n, true, es', t)
  {
    var j := s.v.job;
    es', t := Next(r, n, es, s, Work(a, NoFault));
    es', t := Next(r, n, es', t, Work(a, NoFault));
    if j.completed + j.failed >= j.total {
      es', t := Next(r, n, es', t, Work(a, NoFault));
    }
    assert t.workers == s.workers[a := Leaving(true)];
  }

  /** The job is running, every row is terminal, nothing is left to do, and nothing
      that can still happen finalises the job. */
  ghost predicate StuckUnfinished(s: St) {
    && s.sub == Returned(true) && |s.v.rows| >= 1 && AllTerminal(s.v.rows) && s.v.job.status.Running?
    && Stuck(s) && !Finalisable(s)
  }

  lemma Unfinished(r: Regime, n: nat, es: Events, s: St)
    requires Reaches(r, n, true, es, s) && Stuck(s) && Live(s.v.job.status)
    ensures !Finalisable(s)
  {
    ReachedInv(r, n, true, es, s);
    StuckForGood(s);
  }

  /** One row, stored and counted while Submit has not yet written `running`. */
  lemma StoredEarly() returns (es: Events, s: St)
    ensures Reaches(Calm, 1, true, es, s)
    ensures s == St(JobView(Job(Pending, 1, 1, 0, false), [RowComplete]), MarkingRunning,
                    [CountingRemaining(Stored), Queued, Queued, Queued, Queued], Nothing, 0, 0)
  {
    es := Enqueue(Calm, 1);
    es, s := Begin(Calm, 1, es, Enqueued(1), 0, Fares);
    es, s := Write(Calm, 1, es, s, 0, Stored);
    assert s.v.rows == [RowComplete];
    es, s := Recompute(Calm, 1, es, s, 0, Stored);
    assert s.workers == [CountingRemaining(Stored), Queued, Queued, Queued, Queued];
  }

  lemma CountTwo(x: RowStatus, y: RowStatus, p: RowStatus -> bool)
    ensures Count([x, y], p) == (if p(x) then 1 else 0) + (if p(y) then 1 else 0)
  {
    assert [x, y][1..] == [y];
  }

  /** After a success the other attempts of the only item never start. */
  lemma SucceededIsStuck(s: St)
    requires s.sub.Returned? && s.workers == [Succeeded, Queued, Queued, Queued, Queued]
    ensures Stuck(s)
  {
    forall e | Productive(e) ensures Step(s, e).None? {
      if e.Start? && e.a < |s.workers| { assert Item(0) == Item(e.a) && s.workers[0].Succeeded?; }
    }
  }

  lemma NothingMoves(s: St)
    requires s.sub.Returned? && forall a :: 0 <= a < |s.workers| ==> !Active(s.workers[a]) && !Startable(s, a)
    ensures Stuck(s)
  {
    forall e | Productive(e) ensures Step(s, e).None? {
      if e.Start? && e.a < |s.workers| { assert !Startable(s, e.a); }
    }
  }

  lemma EndedIsStuck(s: St)
    requires s.sub.Returned? && forall a :: 0 <= a < |s.workers| ==> s.workers[a].Errored? || s.workers[a].Crashed?
    ensures Stuck(s)
  {
  }

  /** Two attempts whose provider calls failed for good. */
  lemma BothFetched() returns (es: Events, s: St)
    ensures Reaches(Calm, 2, true, es, s)
    ensures |s.workers| == 10 && s.workers[0] == Writing(DeadLettered) == s.workers[5]
    ensures s.v == JobView(Job(JobStatus.Running, 2, 0, 0, false), [RowPending, RowPending])
  {
    es, s := Submitted(Calm, 2);
    assert s.v.rows == [RowPending, RowPending];
    es, s := Begin(Calm, 2, es, s, 0, UnknownError);
    es, s := Begin(Calm, 2, es, s, 5, AuthFailed);
  }

  /** Two dead-lettered rows of which the first attempt has counted one. */
  lemma CountedOne() returns (es: Events, s: St)
    ensures Reaches(Calm, 2, true, es, s)
    ensures |s.workers| == 10 && s.workers[0] == CountingRemaining(DeadLettered)
    ensures s.v == JobView(Job(JobStatus.Running, 2, 1, 1, false), [RowDeadLetter, RowDeadLetter])
  {
    es, s := BothFetched();
    es, s := Write(Calm, 2, es, s, 0, DeadLettered);
    assert s.v.rows == [RowDeadLetter, RowPending];
    CountTwo(RowDeadLetter, RowPending, Terminal);
    CountTwo(RowDeadLetter, RowPending, Unsuccessful);
    es, s := Recompute(Calm, 2, es, s, 0, DeadLettered);
    assert s.v.job.completed == 1 && s.v.job.failed == 1;
    es, s := Write(Calm, 2, es, s, 5, DeadLettered);
    assert s.v.rows == [RowDeadLetter, RowDeadLetter];
  }

  /** One row: the attempt finalises the job, then Submit writes `running` over it,
      and the job stays running for good although its only row is complete. */
  lemma RunningOverFinal() returns (es: Events, s: St)
    ensures Reaches(Calm, 1, true, es, s) && StuckUnfinished(s) && LateRunning(s)
  {
    es, s := StoredEarly();
    es, s := FinishCall(Calm, 1, es, s, 0, Stored);
    assert s.v == JobView(Job(JobStatus.Complete, 1, 1, 0, true), [RowComplete]);
    es, s := Next(Calm, 1, es, s, Submit(NoFault));
    es, s := End(Calm, 1, es, s, 0);
    SucceededIsStuck(s);
    Unfinished(Calm, 1, es, s);
  }

  /** One row written, its counter recompute lost on the way. */
  lemma StoredUncounted() returns (es: Events, s: St)
    ensures Reaches(WriteOnce, 1, true, es, s)
    ensures s == St(JobView(Job(JobStatus.Running, 1, 0, 0, false), [RowComplete]), Returned(true),
                    [CountingRemaining(Stored), Queued, Queued, Queued, Queued], WroteRunning, 0, 0)
  {
    es, s := Submitted(WriteOnce, 1);
    es, s := Begin(WriteOnce, 1, es, s, 0, Fares);
    es, s := Write(WriteOnce, 1, es, s, 0, Stored);
    assert s.v.rows == [RowComplete];
    es, s := Next(WriteOnce, 1, es, s, Work(0, Lost));
    assert s.workers == [CountingRemaining(Stored), Queued, Queued, Queued, Queued];
  }

  /** One row, its counter recompute lost: the finish call reads old counters and
      gives up, and nobody comes back. */
  lemma LostRecount() returns (es: Events, s: St)
    ensures Reaches(WriteOnce, 1, true, es, s) && StuckUnfinished(s)
  {
    es, s := StoredUncounted();
    es, s := FinishCall(WriteOnce, 1, es, s, 0, Stored);
    es, s := End(WriteOnce, 1, es, s, 0);
    SucceededIsStuck(s);
    Unfinished(WriteOnce, 1, es, s);
  }

  lemma Unlost(r: Regime, n: nat, es: Events, s: St, a: nat)
    requires Reaches(r, n, true, es, s) && AllTerminal(s.v.rows) && Live(s.v.job.status)
    requires a < |s.workers| && s.workers[a].Recounting?
    ensures Finalisable(s)
  {
    ReachedInv(r, n, true, es, s);
    FinalisableIff(s);
    assert Could(s, a);
  }

  /** One row, four retries, and the last attempt has written it: the job can still be
      finalised, until the process crashes. */
  lemma WrittenLast() returns (es: Events, s: St)
    ensures Reaches(Anything, 1, true, es, s)
    ensures s == St(JobView(Job(JobStatus.Running, 1, 0, 0, false), [RowComplete]), Returned(true),
                    [Errored, Errored, Errored, Errored, Recounting(Stored)], WroteRunning, 0, 0)
    ensures Finalisable(s)
  {
    es, s := Retries(Anything, 4);
    es, s := Begin(Anything, 1, es, s, 4, Fares);
    es, s := Write(Anything, 1, es, s, 4, Stored);
    assert s.v.rows == [RowComplete];
    assert s.workers == [Errored, Errored, Errored, Errored, Recounting(Stored)];
    Unlost(Anything, 1, es, s, 4);
  }

  /** One row: four retries, then the last attempt crashes after its row write. */
  lemma CrashAfterWrite() returns (es: Events, s: St)
    ensures Reaches(Anything, 1, true, es, s) && StuckUnfinished(s)
  {
    es, s := WrittenLast();
    es, s := Next(Anything, 1, es, s, Crash({4}));
    assert s.workers == [Errored, Errored, Errored, Errored, Crashed];
    EndedIsStuck(s);
    Unfinished(Anything, 1, es, s);
  }

  /** Two rows, both dead-lettered, finalised as complete: the first attempt counts
      one failure, the second writes its row, and 1 + 1 reaches the total of 2. */
  lemma StaleCounters() returns (es: Events, s: St)
    ensures Reaches(Calm, 2, true, es, s)
    ensures |s.v.rows| == 2 && AllUnsuccessful(s.v.rows) && s.v.job.status.Complete?
  {
    es, s := CountedOne();
    es, s := FinishCall(Calm, 2, es, s, 0, DeadLettered);
  }

  /** A job without pairs stays running for good. */
  lemma NoPairs() returns (es: Events, s: St)
    ensures Reaches(Calm, 0, true, es, s)
    ensures s.sub == Returned(true) && s.v.job.status.Running? && Stuck(s) && !Finalisable(s)
  {
    es, s := Submitted(Calm, 0);
    Unfinished(Calm, 0, es, s);
  }

  /** One item, five retryable errors: its row stays pending and its job running. */
  lemma Discarded() returns (es: Events, s: St)
    ensures Reaches(Calm, 1, true, es, s)
    ensures s.sub == Returned(true) && s.v.rows == [RowPending] && s.v.job.status.Running?
    ensures Stuck(s) && !Finalisable(s)
  {
    es, s := Retries(Calm, 5);
    EndedIsStuck(s);
    Unfinished(Calm, 1, es, s);
  }

  /** A redelivered attempt about to store the row that the first one dead-lettered. */
  lemma Redelivered() returns (es: Events, s: St)
    ensures Reaches(Healthy, 1, true, es, s)
    ensures s == St(JobView(Job(JobStatus.Running, 1, 1, 1, false), [RowDeadLetter]), Returned(true),
                    [CountingRemaining(DeadLettered), Writing(Stored), Queued, Queued, Queued], WroteRunning, 0, 0)
  {
    es, s := Submitted(Healthy, 1);
    es, s := Begin(Healthy, 1, es, s, 0, UnknownError);
    es, s := Begin(Healthy, 1, es, s, 1, Fares);
    assert s.v.rows == [RowPending];
    es, s := Write(Healthy, 1, es, s, 0, DeadLettered);
    assert s.v.rows == [RowDeadLetter];
    es, s := Recompute(Healthy, 1, es, s, 0, DeadLettered);
    assert s.workers == [CountingRemaining(DeadLettered), Writing(Stored), Queued, Queued, Queued];
  }

  /** The status of a failed job with an attempt that may still store a row is not right
      for good. */
  lemma NotForGood(r: Regime, n: nat, es: Events, s: St, a: nat)
    requires Reaches(r, n, true, es, s) && s.sub.Returned? && s.v.job.status.Failed?
    requires MayWrite(s, a, Stored)
    ensures !RightForGood(s)
  {
    ReachedInv(r, n, true, es, s);
    FailedIff(s);
  }

  /** One row, written twice: the job is finalised as failed, rightly but not for good;
      then a redelivered attempt stores the row after all. */
  lemma FailedThenStored() returns (fs: Events, m: St, es: Events, s: St)
    ensures Reaches(Healthy, 1, true, fs, m) && Deserved(m.v) && !RightForGood(m)
    ensures Reaches(Healthy, 1, true, es, s) && !Deserved(s.v)
    ensures m.v.job.status.Failed? && s.v.job.status.Failed? && s.v.rows == [RowComplete] && s.firesAfter == 1
  {
    fs, m := Redelivered();
    fs, m := FinishCall(Healthy, 1, fs, m, 0, DeadLettered);
    assert m.v.job.status.Failed? && m.workers[1] == Writing(Stored);
    NotForGood(Healthy, 1, fs, m, 1);
    es, s := Next(Healthy, 1, fs, m, Work(1, NoFault));
    assert s.v.rows[0] == RowComplete;
  }

  /** One dead-lettered and counted row. */
  lemma FailureCounted() returns (es: Events, s: St)
    ensures Reaches(Anything, 1, true, es, s)
    ensures s == St(JobView(Job(JobStatus.Running, 1, 1, 1, false), [RowDeadLetter]), Returned(true),
                    [CountingRemaining(DeadLettered), Queued, Queued, Queued, Queued], WroteRunning, 0, 0)
  {
    es, s := Submitted(Anything, 1);
    es, s := Begin(Anything, 1, es, s, 0, UnknownError);
    assert s.v.rows == [RowPending];
    es, s := Write(Anything, 1, es, s, 0, DeadLettered);
    assert s.v.rows == [RowDeadLetter];
    es, s := Recompute(Anything, 1, es, s, 0, DeadLettered);
    assert s.workers == [CountingRemaining(DeadLettered), Queued, Queued, Queued, Queued];
  }

  /** And the finish update coming. */
  lemma AboutToFail() returns (es: Events, s: St)
    ensures Reaches(Anything, 1, true, es, s)
    ensures s == St(JobView(Job(JobStatus.Running, 1, 1, 1, false), [RowDeadLetter]), Returned(true),
                    [Finishing(DeadLettered, 1, 1, 1), Queued, Queued, Queued, Queued], WroteRunning, 0, 0)
  {
    es, s := FailureCounted();
    es, s := Next(Anything, 1, es, s, Work(0, NoFault));
    es, s := Next(Anything, 1, es, s, Work(0, NoFault));
    assert s.workers == [Finishing(DeadLettered, 1, 1, 1), Queued, Queued, Queued, Queued];
  }

  /** The finish update takes effect but its answer is lost: the attempt has failed. */
  lemma FailedUnanswered() returns (es: Events, s: St)
    ensures Reaches(Anything, 1, true, es, s)
    ensures s == St(JobView(Job(JobStatus.Failed, 1, 1, 1, true), [RowDeadLetter]), Returned(true),
                    [Errored, Queued, Queued, Queued, Queued], WroteRunning, 0, 1)
  {
    es, s := AboutToFail();
    es, s := Next(Anything, 1, es, s, Work(0, Applied));
    es, s := End(Anything, 1, es, s, 0);
    assert s.workers == [Errored, Queued, Queued, Queued, Queued];
  }

  /** One row and no redelivery: the job is finalised as failed, but the attempt gets an
      error back; so the queue retries, and the retry stores the row. */
  lemma FailedThenRetried() returns (fs: Events, m: St, es: Events, s: St)
    ensures Reaches(Anything, 1, true, fs, m) && Deserved(m.v) && !RightForGood(m)
    ensures m.workers == [Errored, Queued, Queued, Queued, Queued] && m.v.job.status.Failed?
    ensures Reaches(Anything, 1, true, es, s) && !Deserved(s.v)
    ensures s.v.job.status.Failed? && s.v.rows == [RowComplete]
  {
    fs, m := FailedUnanswered();
    NotForGood(Anything, 1, fs, m, 1);
    es, s := Begin(Anything, 1, fs, m, 1, Fares);
    es, s := Next(Anything, 1, es, s, Work(1, NoFault));
    assert s.v.rows[0] == RowComplete;
  }

  // ------------------------------------------------- counters stored out of order

  /** One more event of a run with recounts in two events. */
  lemma SnapNext(n: nat, es: SnapEvents, x: Snap, e: SnapEvent) returns (es': SnapEvents, y: Snap)
    requires SnapReaches(n, true, es, x) && SnapStep(x, e).Some?
    ensures es' == ThenSnap(es, e) && y == SnapStep(x, e).value && SnapReaches(n, true, es', y)
  {
    es', y := ThenSnap(es, e), SnapStep(x, e).value;
  }

  /** Two items; the first attempts of each are at p and q, no other has started. */
  function Two(p: Pc, q: Pc): seq<Pc> {
    [p, Queued, Queued, Queued, Queued, q, Queued, Queued, Queued, Queued]
  }

  function TwoRows(p: Pc, q: Pc, r: RowStatus, t: RowStatus, completed: nat): St {
    St(JobView(Job(JobStatus.Running, 2, completed, 0, false), [r, t]), Returned(true), Two(p, q), WroteRunning, 0, 0)
  }

  /** Both attempts have their fares. */
  lemma BothStoring() returns (es: SnapEvents, x: Snap)
    ensures SnapReaches(2, true, es, x)
    ensures x.s == TwoRows(Writing(Stored), Writing(Stored), RowPending, RowPending, 0) && x.held == map[]
  {
    var fs, s := Submitted(Calm, 2);
    assert s.v.rows == [RowPending, RowPending];
    fs, s := Begin(Calm, 2, fs, s, 0, Fares);
    fs, s := Begin(Calm, 2, fs, s, 5, Fares);
    assert s.workers == Two(Writing(Stored), Writing(Stored));
    es, x := Embed(Calm, 2, true, fs, s);
  }

  /** The first row is written and counted. */
  lemma OneCounted() returns (es: SnapEvents, x: Snap)
    ensures SnapReaches(2, true, es, x)
    ensures x.s == TwoRows(Recounting(Stored), Writing(Stored), RowComplete, RowPending, 0)
    ensures x.held.Keys == {0} && x.held[0].completed == 1 && x.held[0].failed == 0
  {
    es, x := BothStoring();
    es, x := SnapNext(2, es, x, Other(Work(0, NoFault)));
    assert x.s.v.rows == [RowComplete, RowPending] && x.s.workers == Two(Recounting(Stored), Writing(Stored));
    CountTwo(RowComplete, RowPending, Terminal);
    CountTwo(RowComplete, RowPending, Unsuccessful);
    es, x := SnapNext(2, es, x, CountRows(0));
  }

  /** Then the second row, while the first count is still held. */
  lemma BothCounted() returns (es: SnapEvents, x: Snap)
    ensures SnapReaches(2, true, es, x)
    ensures x.s == TwoRows(Recounting(Stored), Recounting(Stored), RowComplete, RowComplete, 0)
    ensures x.held.Keys == {0, 5} && x.held[0].completed == 1 && x.held[0].failed == 0
    ensures x.held[5].completed == 2 && x.held[5].failed == 0
  {
    es, x := OneCounted();
    es, x := SnapNext(2, es, x, Other(Work(5, NoFault)));
    assert x.s.v.rows == [RowComplete, RowComplete] && x.s.workers == Two(Recounting(Stored), Recounting(Stored));
    CountTwo(RowComplete, RowComplete, Terminal);
    CountTwo(RowComplete, RowComplete, Unsuccessful);
    es, x := SnapNext(2, es, x, CountRows(5));
  }

  /** A finish call that gives up, and the release. */
  lemma GivesUp(es: SnapEvents, x: Snap, a: nat) returns (es': SnapEvents, y: Snap)
    requires SnapReaches(2, true, es, x) && a < |x.s.workers| && x.s.workers[a] == CountingRemaining(Stored)
    requires Remaining(x.s.v) == 0 && !Enough(x.s.v)
    ensures SnapReaches(2, true, es', y) && y.s == Goto(x.s, a, Succeeded)
  {
    es', y := SnapNext(2, es, x, Other(Work(a, NoFault)));
    es', y := SnapNext(2, es', y, Other(Work(a, NoFault)));
    es', y := SnapNext(2, es', y, Other(Work(a, NoFault)));
    es', y := SnapNext(2, es', y, Other(Work(a, NoFault)));
    assert y.s.workers == x.s.workers[a := Succeeded];
  }

  /** Two rows, no fault, no crash, no redelivery: the second count is stored first, the
      first one over it.  Progress goes back from 2 to 1, both finish calls give up, and
      the job stays running for good with all its rows complete. */
  lemma StoredOutOfOrder() returns (fs: SnapEvents, y: Snap, es: SnapEvents, x: Snap)
    ensures SnapReaches(2, true, fs, y) && y.s.v.job.completed == 2 && HoldsOld(y, 0)
    ensures SnapReaches(2, true, es, x) && x.s.v.job.completed == 1
    ensures x.s.sub == Returned(true) && x.s.v.rows == [RowComplete, RowComplete] && x.s.v.job.status.Running?
    ensures Stuck(x.s) && !SnapFinalisable(x)
  {
    fs, y := BothCounted();
    fs, y := SnapNext(2, fs, y, StoreCounts(5, NoFault));
    assert y.s.workers == Two(Recounting(Stored), CountingRemaining(Stored));
    es, x := SnapNext(2, fs, y, StoreCounts(0, NoFault));
    assert x.s == TwoRows(CountingRemaining(Stored), CountingRemaining(Stored), RowComplete, RowComplete, 1);
    CountTwo(RowComplete, RowComplete, Outstanding);
    es, x := GivesUp(es, x, 0);
    es, x := GivesUp(es, x, 5);
    assert x.s == TwoRows(Succeeded, Succeeded, RowComplete, RowComplete, 1);
    BothSucceeded(es, x);
  }

  predicate BothDone(s: St) {
    s == TwoRows(Succeeded, Succeeded, RowComplete, RowComplete, 1)
  }

  /** The other attempts of a succeeded item never start. */
  lemma NoneStarts(s: St, a: nat)
    requires BothDone(s) && a < 10
    ensures !Startable(s, a) && (s.workers[a].Queued? || s.workers[a].Succeeded?)
  {
    var b := if a < 5 then 0 else 5;
    assert Item(b) == Item(a) && s.workers[b].Succeeded?;
  }

  lemma BothDoneIsStuck(s: St)
    requires BothDone(s)
    ensures Stuck(s)
  {
    forall a | 0 <= a < |s.workers| ensures !Active(s.workers[a]) && !Startable(s, a) { NoneStarts(s, a); }
    NothingMoves(s);
  }

  lemma BothSucceeded(es: SnapEvents, x: Snap)
    requires SnapReaches(2, true, es, x) && BothDone(x.s)
    ensures Stuck(x.s) && !SnapFinalisable(x)
  {
    BothDoneIsStuck(x.s);
    SnapReachedInv(2, true, es, x);
    forall a | 0 <= a < |x.s.workers| ensures !CouldSnap(x, a) { NoneStarts(x.s, a); }
    SnapFinalisableIff(x);
  }
}
