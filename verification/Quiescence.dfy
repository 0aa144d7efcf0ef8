/** What a job looks like when nothing more can happen to it. */
module Quiescence {
  import opened JobState
  import opened JobProtocol
  import opened Wrappers
  import opened Safety
  import opened Liveness

  /** Nothing but a claim or a crash can happen any more. */
  ghost predicate Stuck(s: St) {
    forall e :: Productive(e) ==> Step(s, e).None?
  }

  // ------------------------------------------------- rows and their writers

  predicate RowWritten(s: St, i: nat) {
    exists a :: 0 <= a < |s.workers| && Item(a) == i && Past(s.workers[a])
  }

  /** A row is terminal exactly when an attempt past its row write has written it. */
  predicate RowsWritten(s: St) {
    forall i :: 0 <= i < |s.v.rows| ==> (Terminal(s.v.rows[i]) <==> RowWritten(s, i))
  }

  predicate QuietInv(s: St) { Inv(s) && Hope(s) && RowsWritten(s) }

  /** The event is the row write of attempt a, and it takes effect. */
  predicate Writes(s: St, e: Event, a: nat) {
    e == Work(a, NoFault) && a < |s.workers| && s.workers[a].Writing?
  }

  lemma WorkPast(s: St, a: nat, f: Fault)
    requires Intact(s, Work(a, f)) && a < |s.workers| && WorkStep(s, a, f).Some?
    ensures var pc := WorkStep(s, a, f).value.workers[a];
      && (Past(pc) <==> Past(s.workers[a]) || Writes(s, Work(a, f), a))
      && (Over(s.workers[a]) ==> Over(pc))
  {
  }

  /** An attempt is past its row write after a step exactly when it was before, or
      the step is the write; nothing undoes a finish call. */
  lemma StepPast(s: St, e: Event, b: nat)
    requires Base(s) && Intact(s, e) && Step(s, e).Some? && b < |Step(s, e).value.workers|
    ensures Past(Step(s, e).value.workers[b]) <==> b < |s.workers| && (Past(s.workers[b]) || Writes(s, e, b))
    ensures b < |s.workers| && Over(s.workers[b]) ==> Over(Step(s, e).value.workers[b])
  {
    if e.Work? {
      WorkPast(s, e.a, e.f);
      WorkFrame(s, e.a, e.f);
    }
  }

  lemma WorkersStay(s: St, e: Event)
    requires Base(s) && Step(s, e).Some?
    ensures |s.workers| <= |Step(s, e).value.workers|
    ensures s.sub.MarkingRunning? || s.sub.Returned? ==> |s.workers| == |Step(s, e).value.workers|
  {
  }

  lemma StepWrites(s: St, e: Event, i: nat)
    requires Base(s) && Intact(s, e) && Step(s, e).Some? && i < |s.v.rows|
    ensures |Step(s, e).value.v.rows| == |s.v.rows|
    ensures Terminal(Step(s, e).value.v.rows[i])
            <==> Terminal(s.v.rows[i]) || (e.Work? && Writes(s, e, e.a) && Item(e.a) == i)
  {
  }

  lemma StepKeepsWritten(s: St, e: Event, i: nat)
    requires Base(s) && RowsWritten(s) && Intact(s, e) && Step(s, e).Some? && i < |s.v.rows|
    ensures |Step(s, e).value.v.rows| == |s.v.rows|
    ensures Terminal(Step(s, e).value.v.rows[i]) <==> RowWritten(Step(s, e).value, i)
  {
    var t := Step(s, e).value;
    StepWrites(s, e, i);
    WorkersStay(s, e);
    if RowWritten(s, i) {
      var a :| 0 <= a < |s.workers| && Item(a) == i && Past(s.workers[a]);
      StepPast(s, e, a);
      assert Past(t.workers[a]);
    }
    if e.Work? && Writes(s, e, e.a) && Item(e.a) == i {
      StepPast(s, e, e.a);
      assert Past(t.workers[e.a]);
    }
    if RowWritten(t, i) {
      var a :| 0 <= a < |t.workers| && Item(a) == i && Past(t.workers[a]);
      StepPast(s, e, a);
    }
  }

  lemma StepKeepsQuiet(s: St, e: Event)
    requires QuietInv(s) && Intact(s, e) && Step(s, e).Some?
    ensures QuietInv(Step(s, e).value)
  {
    var t := Step(s, e).value;
    StepKeepsInv(s, e);
    StepKeepsHope(s, e);
    StepAdvancesRows(s, e);
    forall i | 0 <= i < |t.v.rows| ensures Terminal(t.v.rows[i]) <==> RowWritten(t, i) {
      StepKeepsWritten(s, e, i);
    }
  }

  lemma {:induction false} RunKeepsQuiet(s: St, es: Events)
    requires QuietInv(s) && Run(Quiet, s, es).Some?
    ensures QuietInv(Run(Quiet, s, es).value)
  {
    if es.Then? {
      RunKeepsQuiet(s, es.before);
      StepKeepsQuiet(Run(Quiet, s, es.before).value, es.e);
    }
  }

  lemma InitQuiet(n: nat, acked: bool)
    ensures QuietInv(Init(n, acked)) && |Init(n, acked).v.rows| == n
  {
    InitHolds(n, acked);
  }

  lemma ReachedQuiet(n: nat, acked: bool, es: Events, s: St)
    requires Reaches(Quiet, n, acked, es, s)
    ensures QuietInv(s) && |s.v.rows| == n
  {
    InitQuiet(n, acked);
    RunKeepsQuiet(Init(n, acked), es);
    RunAdvances(Quiet, Init(n, acked), es);
  }

  // ------------------------------------------------- rows at the end

  /** Every attempt the queue allows for row i ended in an error or a crash; or the
      row was claimed so early that it has no item. */
  predicate Exhausted(s: St, i: nat) {
    forall a :: 0 <= a < |s.workers| && Item(a) == i ==> GaveUp(s.workers[a]) || s.workers[a].Absent?
  }

  lemma StuckAttempt(s: St, a: nat)
    requires Base(s) && Stuck(s) && a < |s.workers|
    ensures !Active(s.workers[a])
  {
    assert Step(s, Work(a, NoFault)).None?;
    assert Step(s, Fetch(a, Fares)).None?;
  }

  /** Without a success the queue uses up all attempts of an item. */
  lemma {:induction false} StuckErrors(s: St, i: nat, a: nat)
    requires Base(s) && Stuck(s) && a < |s.workers| && Item(a) == i
    requires forall b :: 0 <= b < |s.workers| && Item(b) == i ==> !s.workers[b].Succeeded?
    ensures GaveUp(s.workers[a]) || s.workers[a].Absent?
  {
    forall b | 0 <= b < a && Item(b) == i ensures !Waiting(s.workers[b]) {
      StuckErrors(s, i, b);
    }
    StuckAttempt(s, a);
    assert Step(s, Start(a)).None?;
  }

  lemma SettledRow(s: St, i: nat)
    requires Base(s) && RowsWritten(s) && Stuck(s) && i < |s.v.rows|
    ensures Terminal(s.v.rows[i]) <==> !Exhausted(s, i)
  {
    assert RowWritten(s, i) <==> Terminal(s.v.rows[i]);
    if RowWritten(s, i) {
      var a :| 0 <= a < |s.workers| && Item(a) == i && Past(s.workers[a]);
      assert !GaveUp(s.workers[a]) && !s.workers[a].Absent?;
    } else {
      forall a | 0 <= a < |s.workers| && Item(a) == i ensures GaveUp(s.workers[a]) || s.workers[a].Absent? {
        StuckErrors(s, i, a);
      }
    }
  }

  predicate NoClaims(es: Events) {
    match es
    case NoEvents => true
    case Then(before, e) => NoClaims(before) && !e.Claim?
  }

  /** Nobody has claimed: every row has its item. */
  predicate Unclaimed(s: St) {
    && (forall i :: 0 <= i < |s.v.rows| ==> !s.v.rows[i].RowClaimed?)
    && (s.sub.ReadingBack? ==> forall i :: 0 <= i < |s.v.rows| ==> s.v.rows[i].RowPending?)
    && (s.sub.Enqueuing? ==> s.sub.sent == seq(|s.v.rows|, _ => true))
    && (forall a :: 0 <= a < |s.workers| ==> !s.workers[a].Absent?)
  }

  lemma SubmitUnclaimed(s: St, f: Fault)
    requires Base(s) && Unclaimed(s) && SubmitStep(s, f).Some?
    ensures Unclaimed(SubmitStep(s, f).value)
  {
  }

  lemma StepUnclaimed(s: St, e: Event)
    requires Base(s) && Unclaimed(s) && !e.Claim? && Step(s, e).Some?
    ensures Unclaimed(Step(s, e).value)
  {
    if e.Submit? {
      SubmitUnclaimed(s, e.f);
    } else if e.Work? {
      WorkFrame(s, e.a, e.f);
    }
  }

  lemma {:induction false} RunUnclaimed(r: Regime, s: St, es: Events)
    requires Inv(s) && Unclaimed(s) && Run(r, s, es).Some? && NoClaims(es)
    ensures Unclaimed(Run(r, s, es).value)
  {
    if es.Then? {
      RunUnclaimed(r, s, es.before);
      RunKeepsInv(r, s, es.before);
      StepUnclaimed(Run(r, s, es.before).value, es.e);
    }
  }

  /** Main result: with redeliveries, claims, crashes and lost row writes, as long as
      no statement after a row write is lost: once nothing can happen any more, a row
      is open exactly when every attempt of its item ended in an error or a crash
      before its row write (or it has no item, claimed before Submit's read-back), and
      terminal otherwise.  If nobody claims, every row has its item, and open rows are
      pending. */
  lemma StuckRows(n: nat, acked: bool, es: Events, s: St, i: nat)
    requires Reaches(Quiet, n, acked, es, s) && Stuck(s) && i < n
    ensures |s.v.rows| == n
    ensures Outstanding(s.v.rows[i]) <==> Exhausted(s, i)
    ensures Terminal(s.v.rows[i]) <==> !Exhausted(s, i)
    ensures NoClaims(es) ==>
      (s.v.rows[i].RowPending? <==> forall a :: 0 <= a < |s.workers| && Item(a) == i ==> GaveUp(s.workers[a]))
  {
    ReachedQuiet(n, acked, es, s);
    SettledRow(s, i);
    if NoClaims(es) {
      InitHolds(n, acked);
      RunUnclaimed(Quiet, Init(n, acked), es);
    }
  }

  // ------------------------------------------------- the job at the end

  lemma SettledJob(s: St)
    requires QuietInv(s) && Stuck(s) && !LateRunning(s)
    ensures !Live(s.v.job.status) <==> s.wrote.WroteFailed? || (|s.v.rows| >= 1 && AllTerminal(s.v.rows))
  {
    if Owed(s) {
      var a :| 0 <= a < |s.workers| && WillFinish(s.v, s.workers[a]);
      StuckAttempt(s, a);
    }
  }

  /** Some attempt that had not returned from its finish call in s has in t. */
  predicate Finisher(s: St, t: St)
    requires |s.workers| == |t.workers|
  {
    exists a :: 0 <= a < |s.workers| && !Over(s.workers[a]) && Over(t.workers[a])
  }

  /** t is right after a `running` write over a final status, m is later. */
  predicate SinceWrite(t: St, m: St) {
    && Inv(m) && m.sub.Returned? && m.wrote.WroteRunning? && |m.workers| == |t.workers|
    && AllTerminal(m.v.rows) && Enough(m.v)
    && (forall b :: 0 <= b < |t.workers| && Over(t.workers[b]) ==> Over(m.workers[b]))
    && (!Live(m.v.job.status) <==> Finisher(t, m))
  }

  /** A finish call that ends leaves the job final; nothing else does. */
  lemma StatementSince(m: St, a: nat, f: Fault)
    requires Inv(m) && a < |m.workers| && WorkStep(m, a, f).Some? && Intact(m, Work(a, f))
    requires AllTerminal(m.v.rows) && Enough(m.v)
    ensures var m' := WorkStep(m, a, f).value;
      && Enough(m'.v)
      && (!Live(m'.v.job.status) <==>
            !Live(m.v.job.status) || (!Over(m.workers[a]) && Over(m'.workers[a])))
  {
    DoneIsTotal(m);
  }

  lemma StepSince(t: St, m: St, e: Event)
    requires SinceWrite(t, m) && Intact(m, e) && Step(m, e).Some?
    ensures SinceWrite(t, Step(m, e).value)
  {
    var m' := Step(m, e).value;
    StepKeepsInv(m, e);
    StepAdvancesRows(m, e);
    WorkersStay(m, e);
    forall b | 0 <= b < |m.workers| && Over(m.workers[b]) ensures Over(m'.workers[b]) {
      StepPast(m, e, b);
    }
    if e.Work? {
      StatementSince(m, e.a, e.f);
      WorkFrame(m, e.a, e.f);
    } else {
      OthersSince(m, e);
    }
    if b :| 0 <= b < |m.workers| && !Over(t.workers[b]) && Over(m.workers[b]) { assert Over(m'.workers[b]); }
    if b :| 0 <= b < |m.workers| && !Over(t.workers[b]) && Over(m'.workers[b]) {
      assert !Over(m.workers[b]) ==> e.Work? && b == e.a;
      assert Over(m.workers[b]) ==> Finisher(t, m);
    }
  }

  lemma OthersSince(m: St, e: Event)
    requires !e.Work? && m.sub.Returned? && Step(m, e).Some?
    ensures var m' := Step(m, e).value;
      && m'.v.job == m.v.job && m'.sub == m.sub && m'.wrote == m.wrote
      && forall b :: 0 <= b < |m.workers| && Over(m'.workers[b]) ==> Over(m.workers[b])
  {
  }

  lemma {:induction false} RunSince(t: St, es: Events)
    requires SinceWrite(t, t) && Run(Quiet, t, es).Some?
    ensures SinceWrite(t, Run(Quiet, t, es).value)
  {
    if es.Then? {
      RunSince(t, es.before);
      StepSince(t, Run(Quiet, t, es.before).value, es.e);
    }
  }

  lemma StepKeepsWrote(s: St, e: Event)
    requires s.sub.Returned? && Inv(s) && Step(s, e).Some?
    ensures var t := Step(s, e).value;
      t.sub == s.sub && t.wrote == s.wrote && (s.wrote.WroteRunning? ==> t.firesBefore == s.firesBefore)
  {
  }

  lemma {:induction false} RunKeepsWrote(r: Regime, t: St, es: Events)
    requires t.sub.Returned? && Inv(t) && Run(r, t, es).Some?
    ensures var u := Run(r, t, es).value;
      && Inv(u) && u.sub == t.sub && u.wrote == t.wrote && |u.workers| == |t.workers|
      && (t.wrote.WroteRunning? ==> u.firesBefore == t.firesBefore)
  {
    if es.Then? {
      RunKeepsWrote(r, t, es.before);
      var m := Run(r, t, es.before).value;
      StepKeepsInv(m, es.e);
      StepKeepsWrote(m, es.e);
      WorkersStay(m, es.e);
    }
  }

  /** Submit, in state s, writes `running`, its answer lost or not; t is right after. */
  predicate WritesRunning(s: St, t: St, f: Fault) {
    s.sub.MarkingRunning? && !f.Lost? && SubmitStep(s, f) == Some(t)
  }

  lemma RunningWritten(s: St, t: St, f: Fault)
    requires QuietInv(s) && WritesRunning(s, t, f)
    ensures QuietInv(t) && t.sub.Returned? && t.wrote.WroteRunning? && t.workers == s.workers
    ensures t.firesBefore == (if Live(s.v.job.status) then 0 else 1)
    ensures !Live(s.v.job.status) ==> AllTerminal(s.v.rows) && SinceWrite(t, t)
  {
    StepKeepsQuiet(s, Submit(f));
  }

  /** Main result: a job whose `running` has been written, when nothing can happen any
      more.  If it was not final at the write, it is final if and only if it has a row
      and all rows are terminal.  If it was, it is final if and only if some attempt
      that had not returned from its finish call at the write has ended in success. */
  lemma StuckJob(n: nat, acked: bool, es: Events, s: St, f: Fault, t: St, later: Events, u: St)
    requires Reaches(Quiet, n, acked, es, s) && WritesRunning(s, t, f)
    requires Run(Quiet, t, later) == Some(u) && Stuck(u)
    ensures |u.workers| == |s.workers| && |u.v.rows| == n
    ensures Live(s.v.job.status) ==> (!Live(u.v.job.status) <==> n >= 1 && AllTerminal(u.v.rows))
    ensures !Live(s.v.job.status) ==>
      (!Live(u.v.job.status) <==>
         exists a :: 0 <= a < |s.workers| && !Over(s.workers[a]) && u.workers[a].Succeeded?)
    ensures u.v.job.status.Running? <==> Live(u.v.job.status)
  {
    ReachedQuiet(n, acked, es, s);
    RunningWritten(s, t, f);
    RunKeepsQuiet(t, later);
    RunKeepsWrote(Quiet, t, later);
    RunAdvances(Quiet, t, later);
    forall a | 0 <= a < |u.workers| ensures Over(u.workers[a]) <==> u.workers[a].Succeeded? {
      StuckAttempt(u, a);
    }
    if Live(s.v.job.status) {
      SettledJob(u);
    } else {
      RunSince(t, later);
    }
  }

  /** Main result: without a `running` write over a final status, whatever came of
      Submit's statements, a job to which nothing can happen any more is final if and
      only if Submit marked it failed, or it has a row and all rows are terminal. */
  lemma StuckInTime(n: nat, acked: bool, es: Events, s: St)
    requires Reaches(Quiet, n, acked, es, s) && Stuck(s) && !LateRunning(s)
    ensures !Live(s.v.job.status) <==> s.wrote.WroteFailed? || (n >= 1 && AllTerminal(s.v.rows))
  {
    ReachedQuiet(n, acked, es, s);
    SettledJob(s);
  }

  // ------------------------------------------------- calm runs

  /** No attempt of an item starts before the earlier ones have given up. */
  predicate InTurn(ws: seq<Pc>) {
    forall a, b :: 0 <= a < b < |ws| && Item(a) == Item(b) && !Waiting(ws[b]) && !ws[b].Absent? ==> GaveUp(ws[a])
  }

  predicate CalmInv(s: St) {
    QuietInv(s) && InTurn(s.workers)
  }

  lemma CalmIsQuiet(s: St, e: Event)
    requires Admits(Calm, s, e)
    ensures Intact(s, e)
  {
  }

  lemma StepKeepsTurns(s: St, e: Event)
    requires InTurn(s.workers) && Admits(Calm, s, e) && Step(s, e).Some?
    ensures InTurn(Step(s, e).value.workers)
  {
    var t := Step(s, e).value;
    if !e.Submit? && !e.Crash? && !e.Claim? {
      assert e.a < |s.workers| && t.workers == s.workers[e.a := t.workers[e.a]] by {
        if e.Work? { WorkFrame(s, e.a, e.f); }
      }
      assert e.Start? || e.Requeue? || Active(s.workers[e.a]);
    }
  }

  lemma {:induction false} RunKeepsCalm(s: St, es: Events)
    requires CalmInv(s) && Run(Calm, s, es).Some?
    ensures CalmInv(Run(Calm, s, es).value) && Run(Quiet, s, es) == Run(Calm, s, es)
  {
    if es.Then? {
      RunKeepsCalm(s, es.before);
      var m := Run(Calm, s, es.before).value;
      CalmIsQuiet(m, es.e);
      StepKeepsQuiet(m, es.e);
      StepKeepsTurns(m, es.e);
    }
  }

  lemma ReachedCalm(n: nat, acked: bool, es: Events, s: St)
    requires Reaches(Calm, n, acked, es, s)
    ensures CalmInv(s) && Reaches(Quiet, n, acked, es, s)
  {
    InitQuiet(n, acked);
    RunKeepsCalm(Init(n, acked), es);
  }

  lemma {:induction false} RunKeepsPast(t: St, es: Events, a: nat)
    requires Inv(t) && Run(Quiet, t, es).Some? && a < |t.workers| && Past(t.workers[a])
    ensures var u := Run(Quiet, t, es).value;
      Inv(u) && a < |u.workers| && Past(u.workers[a])
  {
    if es.Then? {
      RunKeepsPast(t, es.before, a);
      var m := Run(Quiet, t, es.before).value;
      StepKeepsInv(m, es.e);
      WorkersStay(m, es.e);
      StepPast(m, es.e, a);
    }
  }

  /** Main result: in a calm run the attempts at the write decide.  A job that was
      final when `running` was written ends final again if and only if some attempt
      was then inside its finish call or about to enter it. */
  lemma {:induction false} LateRunningExactly(n: nat, acked: bool, es: Events, s: St, f: Fault, t: St,
                                              later: Events, u: St)
    requires Reaches(Calm, n, acked, es, s) && WritesRunning(s, t, f) && !Live(s.v.job.status)
    requires Run(Calm, t, later) == Some(u) && Stuck(u)
    ensures !Live(u.v.job.status) <==> exists a :: 0 <= a < |s.workers| && InFinish(s.workers[a])
  {
    ReachedCalm(n, acked, es, s);
    RunningWritten(s, t, f);
    RunKeepsCalm(t, later);
    StuckJob(n, acked, es, s, f, t, later, u);
    if a :| 0 <= a < |s.workers| && InFinish(s.workers[a]) {
      FinishSucceeds(t, later, u, a);
      assert !Over(s.workers[a]) && u.workers[a].Succeeded?;
    }
    if a :| 0 <= a < |s.workers| && !Over(s.workers[a]) && u.workers[a].Succeeded? {
      if !InFinish(s.workers[a]) { NoSecondWriter(s, t, later, u, a); }
    }
  }

  lemma FinishSucceeds(t: St, later: Events, u: St, a: nat)
    requires Inv(t) && Run(Quiet, t, later) == Some(u) && Stuck(u)
    requires a < |t.workers| && InFinish(t.workers[a])
    ensures a < |u.workers| && u.workers[a].Succeeded?
  {
    RunKeepsPast(t, later, a);
    StuckAttempt(u, a);
  }

  /** In a calm run nobody succeeds with a row that another attempt has written. */
  lemma NoSecondWriter(s: St, t: St, later: Events, u: St, a: nat)
    requires CalmInv(s) && AllTerminal(s.v.rows) && Inv(t) && t.workers == s.workers
    requires Run(Quiet, t, later) == Some(u) && InTurn(u.workers)
    requires a < |s.workers| == |u.workers| && !Past(s.workers[a])
    ensures !u.workers[a].Succeeded?
  {
    var b := WriterOf(s, a);
    RunKeepsPast(t, later, b);
    OneSucceeds(u.workers, a, b);
  }

  lemma WriterOf(s: St, a: nat) returns (b: nat)
    requires QuietInv(s) && AllTerminal(s.v.rows) && a < |s.workers|
    ensures b < |s.workers| && Item(b) == Item(a) && Past(s.workers[b])
  {
    var i := Item(a);
    assert i < |s.v.rows|;
    assert Terminal(s.v.rows[i]) && RowWritten(s, i);
    b :| 0 <= b < |s.workers| && Item(b) == i && Past(s.workers[b]);
  }

  lemma OneSucceeds(ws: seq<Pc>, a: nat, b: nat)
    requires InTurn(ws) && a < |ws| && b < |ws| && a != b && Item(a) == Item(b)
    requires Past(ws[b])
    ensures !ws[a].Succeeded?
  {
    assert a < b || b < a;
  }

  lemma CalmWritesOnce(s: St, e: Event)
    requires CalmInv(s) && Admits(Calm, s, e)
    ensures Admits(WriteOnce, s, e)
  {
    if e.Work? && e.a < |s.workers| && s.workers[e.a].Writing? && Item(e.a) < |s.v.rows| {
      forall b | 0 <= b < |s.workers| && Item(b) == Item(e.a) ensures !Past(s.workers[b]) {
        assert e.a < b ==> Waiting(s.workers[b]) || s.workers[b].Absent?;
      }
    }
  }

  lemma {:induction false} CalmRunKeepsOnce(s: St, es: Events)
    requires CalmInv(s) && Run(Calm, s, es).Some?
    ensures Run(WriteOnce, s, es) == Run(Calm, s, es)
  {
    if es.Then? {
      CalmRunKeepsOnce(s, es.before);
      RunKeepsCalm(s, es.before);
      CalmWritesOnce(Run(Calm, s, es.before).value, es.e);
    }
  }

  /** A calm run writes every row at most once, so the exactness results of
      FinalStatus apply to it. */
  lemma CalmRunWritesOnce(n: nat, acked: bool, es: Events, s: St)
    requires Reaches(Calm, n, acked, es, s)
    ensures Reaches(WriteOnce, n, acked, es, s)
  {
    InitQuiet(n, acked);
    CalmRunKeepsOnce(Init(n, acked), es);
  }
}
