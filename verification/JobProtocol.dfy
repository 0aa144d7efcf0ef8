/** The protocol around one search job: the submitter, the queue items (one a row,
    five attempts each) and the attempts, interleaved one statement at a time.

    An attempt has a program counter over the statements of Work.  Every
    statement can succeed, fail without effect, or fail after taking effect. */
module JobProtocol {
  import opened JobState
  import opened Wrappers

  const MAX_ATTEMPTS := 5

  /** What the provider call comes to. */
  datatype ProviderResult =
    | Fares | MarshalFailed
    | AuthFailed | InvalidInput | RateLimited | ProviderDown | UnknownError

  /** What an attempt writes into its row. */
  datatype Outcome = Stored | DeadLettered

  datatype Fault = NoFault | Lost | Applied

  datatype Pc =
    | Queued                       // not started
    | Requeued                     // to be started whatever becomes of the earlier attempts
    | Acquiring                    // inside Wait, before the semaphore
    | Entering                     // permit held, inflight not yet counted up
    | Fetching                     // provider call
    | Writing(o: Outcome)          // UpdateResult or MarkResultDeadLetter
    | Recounting(o: Outcome)       // UpdateJobProgress
    | CountingRemaining(o: Outcome)  // MarkJobCompleteIfDone, first statement
    | ReadingCounters(o: Outcome)    // second statement
    | Finishing(o: Outcome, total: nat, completed: nat, failed: nat)  // third
    | Leaving(ok: bool)            // deferred Release: inflight.Add(-1)
    | Releasing(ok: bool)          // sem.Release(1)
    | Succeeded | Errored | Crashed
    | Absent                       // no item: the row was claimed before the read-back

  /** `sent` are the rows that were pending when Submit read them back. */
  datatype SubmitPc = ReadingBack | Enqueuing(sent: seq<bool>) | MarkingRunning | MarkingFailed | Returned(ok: bool)

  /** Which status, if any, Submit has written. */
  datatype Wrote = Nothing | WroteRunning | WroteFailed

  /** `workers[a]` is attempt a % 5 of the item for row a / 5.  The last three
      fields are history: Submit's status write, and how many finish updates took
      effect before it and after it. */
  datatype St = St(v: JobView, sub: SubmitPc, workers: seq<Pc>,
                   wrote: Wrote, firesBefore: nat, firesAfter: nat)

  datatype Event =
    | Submit(f: Fault)
    | Start(a: nat)
    | Snooze(a: nat)
    | WaitFails(a: nat)
    | Fetch(a: nat, r: ProviderResult)
    | Work(a: nat, f: Fault)
    | Crash(dead: set<nat>)   // a process dies, and with it the attempts it was running
    | Requeue(a: nat)         // the queue gives up waiting for the running attempt
    | Claim(i: nat)           // of any pending row: SKIP LOCKED passes over locked ones

  /** Right after CreateJob's transaction: `acked` is false when the commit took
      effect but its acknowledgement was lost, so Submit has returned an error. */
  function Init(n: nat, acked: bool): St {
    St(NewJob(n), if acked then ReadingBack else Returned(false), [], Nothing, 0, 0)
  }

  predicate Active(pc: Pc) {
    !Waiting(pc) && !pc.Succeeded? && !pc.Errored? && !pc.Crashed? && !pc.Absent?
  }

  predicate Waiting(pc: Pc) { pc.Queued? || pc.Requeued? }

  function Item(a: nat): nat { a / MAX_ATTEMPTS }

  function RowOf(o: Outcome): RowStatus {
    match o
    case Stored => RowComplete
    case DeadLettered => RowDeadLetter
  }

  /** Work after the provider call, with handleError's switch. */
  function AfterFetch(r: ProviderResult): Pc {
    match r
    case Fares => Writing(Stored)
    case MarshalFailed => Leaving(false)
    case AuthFailed => Writing(DeadLettered)
    case InvalidInput => Writing(DeadLettered)
    case RateLimited => Leaving(false)
    case ProviderDown => Leaving(false)
    case UnknownError => Writing(DeadLettered)
  }

  /** A repository error after the row write is only logged on the success path,
      and returned to the queue on the dead-letter path. */
  function AfterError(o: Outcome): Pc { Leaving(o.Stored?) }

  function Ran(f: Fault, v: JobView, w: JobView): JobView { if f.Lost? then v else w }

  function CountFire(s: St): St {
    if s.wrote.Nothing? then s.(firesBefore := s.firesBefore + 1)
    else s.(firesAfter := s.firesAfter + 1)
  }

  /** The guarded UPDATE, with its history. */
  function FireFinish(s: St, st: JobStatus): St {
    var t := s.(v := Finish(s.v, st));
    if Live(s.v.job.status) then CountFire(t) else t
  }

  /** GetPendingResults. */
  function PendingNow(rows: seq<RowStatus>): seq<bool> {
    seq(|rows|, i requires 0 <= i < |rows| => rows[i].RowPending?)
  }

  /** EnqueueBatch: one item a row read back, with its attempts. */
  function Items(sent: seq<bool>, n: nat): seq<Pc> {
    seq(MAX_ATTEMPTS * n, a => if 0 <= a && Item(a) < |sent| && sent[Item(a)] then Queued else Absent)
  }

  /** An empty batch cannot fail; otherwise an error is Submit's. */
  function SubmitStep(s: St, f: Fault): Option<St> {
    match s.sub
    case ReadingBack =>
      Some(s.(sub := if f.NoFault? then Enqueuing(PendingNow(s.v.rows)) else MarkingFailed))
    case Enqueuing(sent) =>
      var s' := if f.Lost? then s else s.(workers := Items(sent, |s.v.rows|));
      Some(s'.(sub := if f.NoFault? || true !in sent then MarkingRunning else MarkingFailed))
    case MarkingRunning =>
      var s' := if f.Lost? then s else s.(v := SetStatus(s.v, JobStatus.Running), wrote := WroteRunning);
      Some(s'.(sub := Returned(f.NoFault?)))
    case MarkingFailed =>
      var s' := if f.Lost? then s else s.(v := SetStatus(s.v, JobStatus.Failed), wrote := WroteFailed);
      Some(s'.(sub := Returned(false)))
    case Returned(_) => None
  }

  /** The next statement of attempt a. */
  function WorkStep(s: St, a: nat, f: Fault): Option<St>
    requires a < |s.workers|
  {
    match s.workers[a]
    case Acquiring => Some(Goto(s, a, Entering))
    case Entering => Some(Goto(s, a, Fetching))
    case Writing(o) =>
      if Item(a) >= |s.v.rows| then None
      else
        var t := s.(v := Ran(f, s.v, WriteRow(s.v, Item(a), RowOf(o))));
        Some(Goto(t, a, if f.NoFault? then Recounting(o) else Leaving(false)))
    case Recounting(o) =>
      var t := s.(v := Ran(f, s.v, Recount(s.v)));
      Some(Goto(t, a, if f.NoFault? || o.Stored? then CountingRemaining(o) else AfterError(o)))
    case CountingRemaining(o) =>
      Some(Goto(s, a,
        if !f.NoFault? then AfterError(o)
        else if Remaining(s.v) > 0 then Leaving(true)
        else ReadingCounters(o)))
    case ReadingCounters(o) =>
      var j := s.v.job;
      Some(Goto(s, a,
        if !f.NoFault? then AfterError(o)
        else if j.completed + j.failed < j.total then Leaving(true)
        else Finishing(o, j.total, j.completed, j.failed)))
    case Finishing(o, t, c, b) =>
      var s' := if f.Lost? then s else FireFinish(s, Verdict(t, b));
      Some(Goto(s', a, if f.NoFault? then Leaving(true) else AfterError(o)))
    case Leaving(ok) => Some(Goto(s, a, Releasing(ok)))
    case Releasing(ok) => Some(Goto(s, a, if ok then Succeeded else Errored))
    case _ => None
  }

  function Goto(s: St, a: nat, pc: Pc): St
    requires a < |s.workers|
  {
    s.(workers := s.workers[a := pc])
  }

  /** The next attempt of its item, none having succeeded. */
  predicate IsNext(s: St, a: nat) {
    && a < |s.workers| && s.workers[a].Queued?
    && forall b :: 0 <= b < a && Item(b) == Item(a) ==> !Waiting(s.workers[b]) && !s.workers[b].Succeeded?
  }

  /** Attempts of an item start in order, and none after one has succeeded; but an
      attempt once requeued, while an earlier one was running, starts in any case. */
  predicate CanStart(s: St, a: nat) {
    IsNext(s, a) || (a < |s.workers| && s.workers[a].Requeued?)
  }

  function AfterCrash(ws: seq<Pc>, dead: set<nat>): seq<Pc> {
    seq(|ws|, a requires 0 <= a < |ws| => if a in dead && Active(ws[a]) then Crashed else ws[a])
  }

  /** None when the event is not possible in s. */
  function Step(s: St, e: Event): Option<St> {
    match e
    case Submit(f) => SubmitStep(s, f)
    case Start(a) => if CanStart(s, a) then Some(Goto(s, a, Acquiring)) else None
    case Snooze(a) => if a < |s.workers| && s.workers[a].Acquiring? then Some(Goto(s, a, Requeued)) else None
    case Requeue(a) => if IsNext(s, a) then Some(Goto(s, a, Requeued)) else None
    case WaitFails(a) => if a < |s.workers| && s.workers[a].Acquiring? then Some(Goto(s, a, Errored)) else None
    case Fetch(a, r) => if a < |s.workers| && s.workers[a].Fetching? then Some(Goto(s, a, AfterFetch(r))) else None
    case Work(a, f) => if a < |s.workers| then WorkStep(s, a, f) else None
    case Crash(dead) => Some(s.(workers := AfterCrash(s.workers, dead)))
    case Claim(i) =>
      if i < |s.v.rows| && s.v.rows[i].RowPending? then Some(s.(v := s.v.(rows := ClaimRow(s.v.rows, i)))) else None
  }

  /** An event that is neither a snooze nor one of the environment's. */
  predicate Productive(e: Event) {
    !e.Snooze? && !e.Crash? && !e.Claim? && !e.Requeue?
  }

  // ---------------------------------------------------------------- regimes

  /** The finish call of the attempt is still to be carried out, but not its row write. */
  predicate InFinish(pc: Pc) {
    pc.Recounting? || pc.CountingRemaining? || pc.ReadingCounters? || pc.Finishing?
  }

  /** The attempt has returned from its finish call. */
  predicate Over(pc: Pc) {
    (pc.Leaving? && pc.ok) || (pc.Releasing? && pc.ok) || pc.Succeeded?
  }

  /** The attempt has written its row. */
  predicate Past(pc: Pc) { InFinish(pc) || Over(pc) }

  /** No attempt loses a statement after its row write: none crashes past its row
      write, and there is no repository error but one that keeps a row write from
      taking effect. */
  predicate Intact(s: St, e: Event) {
    && (e.Crash? ==>
          forall a :: 0 <= a < |s.workers| && a in e.dead && Past(s.workers[a]) ==> !Active(s.workers[a]))
    && (e.Work? ==> e.f.NoFault? || (e.f.Lost? && e.a < |s.workers| && s.workers[e.a].Writing?))
  }

  /** The event leaves every row terminal. */
  predicate Completes(s: St, e: Event) {
    Step(s, e).Some? && AllTerminal(Step(s, e).value.v.rows)
  }

  /** The attempt has ended without success. */
  predicate GaveUp(pc: Pc) { pc.Errored? || pc.Crashed? }

  predicate NoneActive(s: St) {
    forall b :: 0 <= b < |s.workers| ==> !Active(s.workers[b])
  }

  predicate FreshWrite(s: St, e: Event) {
    e.Work? && e.a < |s.workers| && s.workers[e.a].Writing? && Item(e.a) < |s.v.rows|
    ==> !Terminal(s.v.rows[Item(e.a)])
  }

  /** Hypotheses on a run, each a condition on the event about to happen. */
  datatype Regime =
    | Anything       // all interleavings, faults, crashes, redeliveries and claims
    | Healthy        // once every row is terminal, no statement after a row write is lost
    | Quiet          // no statement after a row write is lost
    | Calm           // as Quiet, and no redelivery while an attempt of the item still runs
    | WriteOnce      // a row is written only while it is not yet terminal
    | OneAtATime     // no fault or crash in an attempt, and at most one attempt runs at any time
    | OneWriter      // WriteOnce, and at most one attempt runs at any time

  predicate Admits(r: Regime, s: St, e: Event) {
    match r
    case Anything => true
    case Healthy => Completes(s, e) ==> Intact(s, e)
    case Quiet => Intact(s, e)
    case Calm =>
      && Intact(s, e)
      && (e.Start? ==>
            forall b :: 0 <= b < e.a && b < |s.workers| && Item(b) == Item(e.a) ==> GaveUp(s.workers[b]))
    case WriteOnce => FreshWrite(s, e)
    case OneAtATime => !e.Crash? && (e.Work? ==> e.f.NoFault?) && (e.Start? ==> NoneActive(s))
    case OneWriter => FreshWrite(s, e) && (e.Start? ==> NoneActive(s))
  }

  /** A finite run, the latest event outermost. */
  datatype Events = NoEvents | Then(before: Events, e: Event)

  /** The state after the events, None if one of them is impossible or not admitted. */
  function Run(r: Regime, s: St, es: Events): Option<St> {
    match es
    case NoEvents => Some(s)
    case Then(before, e) =>
      var m := Run(r, s, before);
      if m.None? || !Admits(r, m.value, e) then None else Step(m.value, e)
  }

  /** s is reached by the events es from a freshly created job of n rows. */
  predicate Reaches(r: Regime, n: nat, acked: bool, es: Events, s: St) {
    Run(r, Init(n, acked), es) == Some(s)
  }

  /** Of a new job all rows are read back, and all get their items. */
  lemma AllSent(n: nat)
    ensures var sent := PendingNow(NewJob(n).rows);
      && (true in sent <==> n > 0)
      && Items(sent, n) == seq(MAX_ATTEMPTS * n, _ => Queued)
  {
    var sent := PendingNow(NewJob(n).rows);
    if n > 0 { assert sent[0]; }
    forall a | 0 <= a < MAX_ATTEMPTS * n ensures Item(a) < |sent| && sent[Item(a)] {}
  }

  function Fires(s: St): nat { s.firesBefore + s.firesAfter }

  /** The finish update took effect in this step. */
  predicate Fired(s: St, t: St) { Fires(t) > Fires(s) }
}
