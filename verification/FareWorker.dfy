/** The rate limiter and the queue handler in their own, sequential form.  One call
    of Work is exactly one schedule of the protocol: the run it returns takes the
    attempt from Wait to its end, and leaves the job as the tables show it. */
module FareWorker {
  import opened JobState
  import opened JobProtocol
  import opened Wrappers
  import opened Repository
  import opened Schedules

  /** How the two blocking calls of Wait come out: the token bucket first. */
  datatype WaitOutcome = Granted | Cancelled | Refused

  class RateLimiter {
    const maxInflight: nat
    var permits: nat
    var inflight: int

    constructor (maxConcurrent: nat)
      ensures maxInflight == maxConcurrent && permits == 0 && inflight == 0
    {
      maxInflight := maxConcurrent;
      permits, inflight := 0, 0;
    }

    /** The semaphore grants a permit only while one is free. */
    method Wait(w: WaitOutcome) returns (ok: bool)
      requires w.Granted? ==> permits < maxInflight
      modifies this`permits, this`inflight
      ensures ok == w.Granted?
      ensures ok ==> permits == old(permits) + 1 && inflight == old(inflight) + 1
      ensures !ok ==> permits == old(permits) && inflight == old(inflight)
    {
      if !w.Granted? {
        return false;
      }
      permits := permits + 1;
      inflight := inflight + 1;
      ok := true;
    }

    method Release()
      requires permits > 0
      modifies this`permits, this`inflight
      ensures permits == old(permits) - 1 && inflight == old(inflight) - 1
    {
      inflight := inflight - 1;
      permits := permits - 1;
    }
  }

  datatype Args = Args(resultId: nat, jobId: JobId, origin: string, destination: string, date: string)

  /** nil, an error, or JobSnooze(0). */
  datatype WorkResult = Done | Retry | Snoozed

  /** How the calls of one attempt come out: the wait, the provider's answer, and the
      repository statements in order, the last three those of the finish call. */
  datatype Course = Course(wait: WaitOutcome, answer: ProviderResult,
                           write: Fault, recount: Fault, remaining: Fault, read: Fault, finish: Fault)

  /** What attempt a does next when its calls come out as in x. */
  function NextEvent(pc: Pc, a: nat, x: Course): Option<Event> {
    match pc
    case Acquiring =>
      (match x.wait
       case Granted => Some(Work(a, NoFault))
       case Cancelled => Some(Snooze(a))
       case Refused => Some(WaitFails(a)))
    case Fetching => Some(Fetch(a, x.answer))
    case Writing(_) => Some(Work(a, x.write))
    case Recounting(_) => Some(Work(a, x.recount))
    case CountingRemaining(_) => Some(Work(a, x.remaining))
    case ReadingCounters(_) => Some(Work(a, x.read))
    case Finishing(_, _, _, _) => Some(Work(a, x.finish))
    case _ => if Active(pc) then Some(Work(a, NoFault)) else None
  }

  function AttemptScript(a: nat, x: Course): Script {
    (s: St) => if a < |s.workers| then NextEvent(s.workers[a], a, x) else None
  }

  /** The tables show job j in the state s, and row a / 5 of it has the id. */
  predicate Shows(t: Tables, j: JobId, s: St, a: nat, id: nat) {
    && j in t.jobs && View(t, j) == s.v && id < |t.rows|
    && a < |s.workers| && Item(a) < |IdsOf(t.rows, j)| && IdsOf(t.rows, j)[Item(a)] == id
  }

  function Ended(r: WorkResult): Pc {
    match r
    case Done => Succeeded
    case Retry => Errored
    case Snoozed => Requeued
  }

  /** handleError's reasons. */
  function Reason(r: ProviderResult): string {
    match r
    case AuthFailed => "auth_failed"
    case InvalidInput => "invalid_input"
    case _ => "unknown_error"
  }

  /** The row after an attempt whose provider call came to r. */
  function RowAfter(row: Row, r: ProviderResult, fare: Option<string>): Row {
    match AfterFetch(r)
    case Writing(Stored) => row.(status := RowComplete, fare := fare, error := None, stamped := true)
    case Writing(DeadLettered) => row.(status := RowDeadLetter, error := Some(Reason(r)), stamped := true)
    case _ => row
  }

  /** One statement of the attempt. */
  lemma Statement(t: St, a: nat, x: Course, f: Fault) returns (es: Events, u: St)
    requires a < |t.workers| && NextEvent(t.workers[a], a, x) == Some(Work(a, f)) && WorkStep(t, a, f).Some?
    ensures Schedule(AttemptScript(a, x), t, es, u) && u == WorkStep(t, a, f).value
  {
    es, u := Proceed(AttemptScript(a, x), t, NoEvents, t);
  }

  /** The finish call, undisturbed, is one to three statements of the attempt. */
  lemma FinishCallSteps(t: St, a: nat, o: Outcome, x: Course) returns (es: Events, u: St)
    requires a < |t.workers| && t.workers[a] == CountingRemaining(o)
    ensures Schedule(AttemptScript(a, x), t, es, u) && |u.workers| == |t.workers|
    ensures u.v == FinishCall(t.v, x.remaining, x.read, x.finish).0
    ensures u.workers[a] == Leaving(FinishCall(t.v, x.remaining, x.read, x.finish).2 || o.Stored?)
  {
    es, u := Statement(t, a, x, x.remaining);
    if x.remaining.NoFault? && Remaining(t.v) == 0 {
      var fs, w := ReadAndFinish(u, a, o, x);
      es, u := Chain(AttemptScript(a, x), t, es, u, fs, w);
    }
  }

  /** The last two statements of the finish call. */
  lemma ReadAndFinish(t: St, a: nat, o: Outcome, x: Course) returns (es: Events, u: St)
    requires a < |t.workers| && t.workers[a] == ReadingCounters(o) && Remaining(t.v) == 0
    ensures Schedule(AttemptScript(a, x), t, es, u) && |u.workers| == |t.workers|
    ensures u.v == FinishCall(t.v, NoFault, x.read, x.finish).0
    ensures u.workers[a] == Leaving(FinishCall(t.v, NoFault, x.read, x.finish).2 || o.Stored?)
  {
    es, u := Statement(t, a, x, x.read);
    if u.workers[a].Finishing? {
      var fs, w := Statement(u, a, x, x.finish);
      es, u := Chain(AttemptScript(a, x), t, es, u, fs, w);
    }
  }

  class Worker {
    const repo: PostgresRepository
    const limiter: RateLimiter

    constructor (repo: PostgresRepository, limiter: RateLimiter)
      ensures this.repo == repo && this.limiter == limiter
    {
      this.repo, this.limiter := repo, limiter;
    }

    /** UpdateJobProgress as the attempt's next statement. */
    method Recompute(args: Args, o: Outcome, x: Course, ghost t: St, ghost a: nat)
      returns (ok: bool, ghost es: Events, ghost u: St)
      requires a < |t.workers| && t.workers[a] == Recounting(o)
      requires args.jobId in repo.jobs && View(repo.Contents(), args.jobId) == t.v
      modifies repo`jobs
      ensures Schedule(AttemptScript(a, x), t, es, u) && |u.workers| == |t.workers| && ok == x.recount.NoFault?
      ensures args.jobId in repo.jobs && View(repo.Contents(), args.jobId) == u.v
      ensures OthersSame(old(repo.Contents()), repo.Contents(), args.jobId)
      ensures u.workers[a] == if ok || o.Stored? then CountingRemaining(o) else Leaving(false)
    {
      es, u := Statement(t, a, x, x.recount);
      ok := repo.UpdateJobProgress(args.jobId, x.recount);
    }

    /** MarkJobCompleteIfDone as the attempt's next statements. */
    method Finish(args: Args, o: Outcome, x: Course, ghost t: St, ghost a: nat)
      returns (ok: bool, ghost es: Events, ghost u: St)
      requires a < |t.workers| && t.workers[a] == CountingRemaining(o)
      requires args.jobId in repo.jobs && View(repo.Contents(), args.jobId) == t.v
      modifies repo`jobs
      ensures Schedule(AttemptScript(a, x), t, es, u) && |u.workers| == |t.workers|
      ensures args.jobId in repo.jobs && View(repo.Contents(), args.jobId) == u.v
      ensures OthersSame(old(repo.Contents()), repo.Contents(), args.jobId)
      ensures u.workers[a] == Leaving(ok || o.Stored?)
    {
      var _, finished := repo.MarkJobCompleteIfDone(args.jobId, x.remaining, x.read, x.finish);
      ok := finished;
      es, u := FinishCallSteps(t, a, o, x);
    }

    /** The statements after the provider call on the success path; errors after
        the row write are only logged. */
    method Store(args: Args, fare: Option<string>, x: Course, ghost t: St, ghost a: nat)
      returns (ok: bool, ghost es: Events, ghost u: St)
      requires Shows(repo.Contents(), args.jobId, t, a, args.resultId) && t.workers[a] == Writing(Stored)
      modifies repo
      ensures Schedule(AttemptScript(a, x), t, es, u) && |u.workers| == |t.workers|
      ensures args.jobId in repo.jobs && View(repo.Contents(), args.jobId) == u.v
      ensures OthersSame(old(repo.Contents()), repo.Contents(), args.jobId)
      ensures repo.rows == if x.write.Lost? then old(repo.rows)
        else SetRow(old(repo.Contents()), args.resultId, RowComplete, fare, None).rows
      ensures u.workers[a] == Leaving(ok)
    {
      ghost var sc, t0 := AttemptScript(a, x), repo.Contents();
      SetRowViews(t0, args.jobId, Item(a), RowComplete, fare, None);
      es, u := Statement(t, a, x, x.write);
      ok := repo.UpdateResult(args.resultId, RowComplete, fare, None, x.write);
      ghost var t1 := repo.Contents();
      assert OthersSame(t0, t1, args.jobId) && View(t1, args.jobId) == u.v;
      if !ok {
        return false, es, u;
      }
      ghost var fs, w;
      var recounted, finished;
      recounted, fs, w := Recompute(args, Stored, x, u, a);
      es, u := Chain(sc, t, es, u, fs, w);
      ghost var t2 := repo.Contents();
      OthersChain(t0, t1, t2, args.jobId);
      finished, fs, w := Finish(args, Stored, x, u, a);
      es, u := Chain(sc, t, es, u, fs, w);
      OthersChain(t0, t2, repo.Contents(), args.jobId);
      ok := true;
    }

    /** markDeadLetter: every repository error is returned, so the queue retries. */
    method MarkDeadLetter(args: Args, reason: string, x: Course, ghost t: St, ghost a: nat)
      returns (ok: bool, ghost es: Events, ghost u: St)
      requires Shows(repo.Contents(), args.jobId, t, a, args.resultId) && t.workers[a] == Writing(DeadLettered)
      modifies repo
      ensures Schedule(AttemptScript(a, x), t, es, u) && |u.workers| == |t.workers|
      ensures args.jobId in repo.jobs && View(repo.Contents(), args.jobId) == u.v
      ensures OthersSame(old(repo.Contents()), repo.Contents(), args.jobId)
      ensures repo.rows == if x.write.Lost? then old(repo.rows)
        else SetRow(old(repo.Contents()), args.resultId, RowDeadLetter,
                    old(repo.rows)[args.resultId].fare, Some(reason)).rows
      ensures u.workers[a] == Leaving(ok)
    {
      ghost var sc, t0 := AttemptScript(a, x), repo.Contents();
      SetRowViews(t0, args.jobId, Item(a), RowDeadLetter, repo.rows[args.resultId].fare, Some(reason));
      es, u := Statement(t, a, x, x.write);
      ok := repo.MarkResultDeadLetter(args.resultId, reason, x.write);
      ghost var t1 := repo.Contents();
      assert OthersSame(t0, t1, args.jobId) && View(t1, args.jobId) == u.v;
      if !ok {
        return false, es, u;
      }
      ghost var fs, w;
      ok, fs, w := Recompute(args, DeadLettered, x, u, a);
      es, u := Chain(sc, t, es, u, fs, w);
      ghost var t2 := repo.Contents();
      OthersChain(t0, t1, t2, args.jobId);
      if !ok {
        return false, es, u;
      }
      ok, fs, w := Finish(args, DeadLettered, x, u, a);
      es, u := Chain(sc, t, es, u, fs, w);
      OthersChain(t0, t2, repo.Contents(), args.jobId);
    }

    /** handleError, and the success path beside it. */
    method Answered(args: Args, fare: Option<string>, x: Course, ghost t: St, ghost a: nat)
      returns (ok: bool, ghost es: Events, ghost u: St)
      requires Shows(repo.Contents(), args.jobId, t, a, args.resultId) && t.workers[a] == AfterFetch(x.answer)
      modifies repo
      ensures Schedule(AttemptScript(a, x), t, es, u) && |u.workers| == |t.workers|
      ensures args.jobId in repo.jobs && View(repo.Contents(), args.jobId) == u.v
      ensures OthersSame(old(repo.Contents()), repo.Contents(), args.jobId)
      ensures repo.rows == if x.write.Lost? then old(repo.rows)
        else old(repo.rows)[args.resultId := RowAfter(old(repo.rows)[args.resultId], x.answer, fare)]
      ensures u.workers[a] == Leaving(ok)
    {
      ok, es, u := false, NoEvents, t;
      match x.answer {
        case Fares =>
          ok, es, u := Store(args, fare, x, t, a);
        case AuthFailed =>
          ok, es, u := MarkDeadLetter(args, "auth_failed", x, t, a);
        case InvalidInput =>
          ok, es, u := MarkDeadLetter(args, "invalid_input", x, t, a);
        case UnknownError =>
          ok, es, u := MarkDeadLetter(args, "unknown_error", x, t, a);
        case _ =>
      }
    }

    /** The queue handler, its calls coming out as in `x`; `fare` are the encoded
        fares.  es is the one whole run of the attempt that `x` allows, so the
        result and the new state of the job are determined. */
    method Work(args: Args, fare: Option<string>, x: Course, ghost s: St, ghost a: nat)
      returns (r: WorkResult, ghost es: Events, ghost t: St)
      requires Shows(repo.Contents(), args.jobId, s, a, args.resultId)
      requires s.workers[a] == Acquiring
      requires x.wait.Granted? ==> limiter.permits < limiter.maxInflight
      modifies repo, limiter`permits, limiter`inflight
      ensures Schedule(AttemptScript(a, x), s, es, t) && AttemptScript(a, x)(t).None?
      ensures a < |t.workers| && t.workers[a] == Ended(r)
      ensures r.Done? <==> t.workers[a].Succeeded?
      ensures r.Retry? <==> t.workers[a].Errored?
      ensures r.Snoozed? <==> t.workers[a].Requeued?
      ensures args.jobId in repo.jobs && View(repo.Contents(), args.jobId) == t.v
      ensures OthersSame(old(repo.Contents()), repo.Contents(), args.jobId)
      ensures repo.rows == if !x.wait.Granted? || x.write.Lost? then old(repo.rows)
        else old(repo.rows)[args.resultId := RowAfter(old(repo.rows)[args.resultId], x.answer, fare)]
      ensures limiter.permits == old(limiter.permits) && limiter.inflight == old(limiter.inflight)
    {
      es, t := NoEvents, s;
      var granted := limiter.Wait(x.wait);
      if !granted {
        es, t := TurnedAway(s, a, x);
        r := if x.wait.Cancelled? then Snoozed else Retry;
        return;
      }
      ghost var sc, fs, u := AttemptScript(a, x), NoEvents, s;
      es, t := Entered(s, a, x);
      var ok;
      ok, fs, u := Answered(args, fare, x, t, a);
      es, t := Chain(sc, s, es, t, fs, u);
      limiter.Release();
      fs, u := Departed(t, a, ok, x);
      es, t := Chain(sc, s, es, t, fs, u);
      r := if ok then Done else Retry;
    }
  }

  /** From the semaphore to the provider's answer. */
  lemma Entered(s: St, a: nat, x: Course) returns (es: Events, t: St)
    requires a < |s.workers| && s.workers[a] == Acquiring && x.wait.Granted?
    ensures Schedule(AttemptScript(a, x), s, es, t) && t == Goto(s, a, AfterFetch(x.answer))
  {
    es, t := Proceed(AttemptScript(a, x), s, NoEvents, s);
    es, t := Proceed(AttemptScript(a, x), s, es, t);
    es, t := Proceed(AttemptScript(a, x), s, es, t);
    assert t.workers == s.workers[a := AfterFetch(x.answer)];
  }

  /** Wait failed. */
  lemma TurnedAway(s: St, a: nat, x: Course) returns (es: Events, t: St)
    requires a < |s.workers| && s.workers[a] == Acquiring && !x.wait.Granted?
    ensures Schedule(AttemptScript(a, x), s, es, t) && AttemptScript(a, x)(t).None?
    ensures t == Goto(s, a, if x.wait.Cancelled? then Requeued else Errored)
  {
    es, t := Proceed(AttemptScript(a, x), s, NoEvents, s);
  }

  /** The two halves of Release. */
  lemma ReleaseSteps(t: St, a: nat, ok: bool)
    requires a < |t.workers|
    ensures t.workers[a] == Leaving(ok) ==> WorkStep(t, a, NoFault) == Some(Goto(t, a, Releasing(ok)))
    ensures t.workers[a] == Releasing(ok) ==>
      WorkStep(t, a, NoFault) == Some(Goto(t, a, Ended(if ok then Done else Retry)))
  {
  }

  lemma ScriptEnds(t: St, a: nat, x: Course, r: WorkResult)
    requires a < |t.workers| && t.workers[a] == Ended(r)
    ensures AttemptScript(a, x)(t).None?
  {
  }

  /** The deferred release, which ends the attempt. */
  lemma Departed(t: St, a: nat, ok: bool, x: Course) returns (es: Events, u: St)
    requires a < |t.workers| && t.workers[a] == Leaving(ok)
    ensures Schedule(AttemptScript(a, x), t, es, u) && AttemptScript(a, x)(u).None?
    ensures u.v == t.v && |u.workers| == |t.workers| && u.workers[a] == Ended(if ok then Done else Retry)
  {
    ReleaseSteps(t, a, ok);
    var m;
    es, m := Statement(t, a, x, NoFault);
    ReleaseSteps(m, a, ok);
    var fs, w := Statement(m, a, x, NoFault);
    es, u := Chain(AttemptScript(a, x), t, es, m, fs, w);
    ScriptEnds(u, a, x, if ok then Done else Retry);
  }

  // ---------------------------------------------------------------- what a call decides

  /** The row that the attempt writes, by the provider's answer: stored, dead-lettered
      with the reason, or left as it is for a retry. */
  lemma RowAfterExactly(row: Row, fare: Option<string>)
    ensures RowAfter(row, Fares, fare) == row.(status := RowComplete, fare := fare, error := None, stamped := true)
    ensures RowAfter(row, AuthFailed, fare)
            == row.(status := RowDeadLetter, error := Some("auth_failed"), stamped := true)
    ensures RowAfter(row, InvalidInput, fare)
            == row.(status := RowDeadLetter, error := Some("invalid_input"), stamped := true)
    ensures RowAfter(row, UnknownError, fare)
            == row.(status := RowDeadLetter, error := Some("unknown_error"), stamped := true)
    ensures RowAfter(row, RateLimited, fare) == RowAfter(row, ProviderDown, fare) == row
    ensures RowAfter(row, MarshalFailed, fare) == row
  {
  }

  /** Counters fresh, the finish call fails exactly at a statement that fails; on
      terminal rows it goes through all three. */
  lemma FreshFinishCall(v: JobView, x: Course)
    requires v.job.total == |v.rows| && v.job.completed == JobState.Done(v.rows)
    ensures FinishCall(v, x.remaining, x.read, x.finish).2 <==>
      x.remaining.NoFault? && (!AllTerminal(v.rows) || (x.read.NoFault? && x.finish.NoFault?))
    ensures x.remaining.NoFault? && x.read.NoFault? && x.finish.NoFault? && AllTerminal(v.rows) ==>
      FinishCall(v, x.remaining, x.read, x.finish).0
      == Finish(v, if v.job.failed == v.job.total then Failed else Complete)
  {
    NoneRemaining(v);
  }

  /** Attempt a alone, from its row write to its release: stored or dead-lettered. */
  lemma WritesAlone(t: St, a: nat, o: Outcome, x: Course) returns (es: Events, u: St)
    requires a < |t.workers| && t.workers[a] == Writing(o) && Item(a) < |t.v.rows| && t.v.job.total == |t.v.rows|
    ensures Schedule(AttemptScript(a, x), t, es, u) && |u.workers| == |t.workers|
    ensures u.v.rows == if x.write.Lost? then t.v.rows else t.v.rows[Item(a) := RowOf(o)]
    ensures o.Stored? ==> u.workers[a] == Leaving(x.write.NoFault?)
    ensures o.DeadLettered? ==>
      u.workers[a] == Leaving(x.write.NoFault? && x.recount.NoFault? && x.remaining.NoFault?
                              && (!AllTerminal(u.v.rows) || (x.read.NoFault? && x.finish.NoFault?)))
  {
    es, u := Statement(t, a, x, x.write);
    if x.write.NoFault? {
      var fs, w := Statement(u, a, x, x.recount);
      es, u := Chain(AttemptScript(a, x), t, es, u, fs, w);
      if u.workers[a].CountingRemaining? {
        if x.recount.NoFault? { FreshFinishCall(u.v, x); }
        fs, w := FinishCallSteps(u, a, o, x);
        FinishKeepsRows(u.v, x);
        es, u := Chain(AttemptScript(a, x), t, es, u, fs, w);
      }
    }
  }

  lemma FinishKeepsRows(v: JobView, x: Course)
    ensures FinishCall(v, x.remaining, x.read, x.finish).0.rows == v.rows
  {
  }

  /** The whole run of an attempt whose wait was granted. */
  lemma WholeCall(s: St, a: nat, x: Course) returns (es: Events, t: St)
    requires a < |s.workers| && s.workers[a] == Acquiring && x.wait.Granted?
    requires Item(a) < |s.v.rows| && s.v.job.total == |s.v.rows|
    ensures Schedule(AttemptScript(a, x), s, es, t) && AttemptScript(a, x)(t).None? && a < |t.workers|
    ensures x.answer.RateLimited? || x.answer.ProviderDown? || x.answer.MarshalFailed? ==>
      t.workers[a].Errored? && t.v == s.v
    ensures x.answer.Fares? ==>
      && t.v.rows == (if x.write.Lost? then s.v.rows else s.v.rows[Item(a) := RowComplete])
      && t.workers[a] == if x.write.NoFault? then Succeeded else Errored
    ensures x.answer.AuthFailed? || x.answer.InvalidInput? || x.answer.UnknownError? ==>
      && t.v.rows == (if x.write.Lost? then s.v.rows else s.v.rows[Item(a) := RowDeadLetter])
      && t.workers[a] ==
         if x.write.NoFault? && x.recount.NoFault? && x.remaining.NoFault?
            && (!AllTerminal(t.v.rows) || (x.read.NoFault? && x.finish.NoFault?)) then Succeeded else Errored
  {
    var sc := AttemptScript(a, x);
    es, t := Entered(s, a, x);
    var ok := false;
    if x.answer.Fares? || x.answer.AuthFailed? || x.answer.InvalidInput? || x.answer.UnknownError? {
      var fs, u := WritesAlone(t, a, if x.answer.Fares? then Stored else DeadLettered, x);
      ok := u.workers[a].ok;
      es, t := Chain(sc, s, es, t, fs, u);
    }
    var fs, u := Departed(t, a, ok, x);
    es, t := Chain(sc, s, es, t, fs, u);
  }

  /** Main result: what the one whole run of an attempt decides, whatever comes of its
      calls.  A cancelled wait snoozes and a refused one errs; a retryable answer errs
      and leaves the job as it was; fares complete the row, and only an error of the row
      write makes the attempt fail; any other answer dead-letters the row, and every
      error of a statement makes the attempt fail. */
  lemma WorkDecides(s: St, a: nat, x: Course, es: Events, t: St)
    requires a < |s.workers| && s.workers[a] == Acquiring
    requires Item(a) < |s.v.rows| && s.v.job.total == |s.v.rows|
    requires Schedule(AttemptScript(a, x), s, es, t) && AttemptScript(a, x)(t).None?
    ensures a < |t.workers|
    ensures !x.wait.Granted? ==> t.v == s.v && t.workers[a] == if x.wait.Cancelled? then Requeued else Errored
    ensures x.wait.Granted? && (x.answer.RateLimited? || x.answer.ProviderDown? || x.answer.MarshalFailed?) ==>
      t.workers[a].Errored? && t.v == s.v
    ensures x.wait.Granted? && x.answer.Fares? ==>
      && t.v.rows == (if x.write.Lost? then s.v.rows else s.v.rows[Item(a) := RowComplete])
      && t.workers[a] == if x.write.NoFault? then Succeeded else Errored
    ensures x.wait.Granted? && (x.answer.AuthFailed? || x.answer.InvalidInput? || x.answer.UnknownError?) ==>
      && t.v.rows == (if x.write.Lost? then s.v.rows else s.v.rows[Item(a) := RowDeadLetter])
      && t.workers[a] ==
         if x.write.NoFault? && x.recount.NoFault? && x.remaining.NoFault?
            && (!AllTerminal(t.v.rows) || (x.read.NoFault? && x.finish.NoFault?)) then Succeeded else Errored
  {
    var fs, u;
    if x.wait.Granted? {
      fs, u := WholeCall(s, a, x);
    } else {
      fs, u := TurnedAway(s, a, x);
    }
    OneSchedule(AttemptScript(a, x), s, es, t, fs, u);
  }

  /** No error anywhere: the row is written, the counters are the counts, and the job is
      finalised if that was the last row. */
  predicate Undisturbed(x: Course) {
    && x.wait.Granted? && x.write.NoFault? && x.recount.NoFault?
    && x.remaining.NoFault? && x.read.NoFault? && x.finish.NoFault?
  }

  function AfterUndisturbed(v: JobView, i: nat, st: RowStatus): JobView
    requires i < |v.rows|
  {
    var w := Recount(WriteRow(v, i, st));
    if !AllTerminal(w.rows) then w
    else Finish(w, if AllUnsuccessful(w.rows) then Failed else Complete)
  }

  lemma UndisturbedWrite(t: St, a: nat, o: Outcome, x: Course) returns (es: Events, u: St)
    requires a < |t.workers| && t.workers[a] == Writing(o) && Item(a) < |t.v.rows| && t.v.job.total == |t.v.rows|
    requires Undisturbed(x)
    ensures Schedule(AttemptScript(a, x), t, es, u) && |u.workers| == |t.workers|
    ensures u.workers[a] == Leaving(true) && u.v == AfterUndisturbed(t.v, Item(a), RowOf(o))
  {
    es, u := Statement(t, a, x, NoFault);
    var fs, w := Statement(u, a, x, NoFault);
    es, u := Chain(AttemptScript(a, x), t, es, u, fs, w);
    FreshFinishCall(u.v, x);
    NoneRemaining(u.v);
    CountAll(u.v.rows, Unsuccessful);
    fs, w := FinishCallSteps(u, a, o, x);
    es, u := Chain(AttemptScript(a, x), t, es, u, fs, w);
  }

  /** Main result: an attempt alone with no error leaves the job with its row written,
      its counters right, and, after the last row, its status right. */
  lemma WorkUndisturbed(s: St, a: nat, x: Course, es: Events, t: St)
    requires a < |s.workers| && s.workers[a] == Acquiring && Undisturbed(x)
    requires Item(a) < |s.v.rows| && s.v.job.total == |s.v.rows|
    requires Schedule(AttemptScript(a, x), s, es, t) && AttemptScript(a, x)(t).None?
    ensures a < |t.workers|
    ensures x.answer.Fares? ==> t.v == AfterUndisturbed(s.v, Item(a), RowComplete) && t.workers[a].Succeeded?
    ensures x.answer.AuthFailed? || x.answer.InvalidInput? || x.answer.UnknownError? ==>
      t.v == AfterUndisturbed(s.v, Item(a), RowDeadLetter) && t.workers[a].Succeeded?
  {
    if x.answer.Fares? || x.answer.AuthFailed? || x.answer.InvalidInput? || x.answer.UnknownError? {
      var sc := AttemptScript(a, x);
      var gs, u := Entered(s, a, x);
      var hs, w := UndisturbedWrite(u, a, if x.answer.Fares? then Stored else DeadLettered, x);
      gs, u := Chain(sc, s, gs, u, hs, w);
      hs, w := Departed(u, a, true, x);
      gs, u := Chain(sc, s, gs, u, hs, w);
      OneSchedule(sc, s, es, t, gs, u);
    } else {
      WorkDecides(s, a, x, es, t);
    }
  }
}
