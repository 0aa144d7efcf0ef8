/** The migration runner: check a version, apply and record it in one transaction,
    go on to the next; any number of runners at once, crashing anywhere. */
module Migrations {
  import opened Wrappers

  const SUFFIX := ".up.sql"

  predicate IsUp(name: string) { |name| > 7 && name[|name| - 7..] == SUFFIX }

  function Version(name: string): string
    requires |name| >= 7
  {
    name[..|name| - 7]
  }

  predicate Distinct(xs: seq<string>) {
    forall i, j :: 0 <= i < j < |xs| ==> xs[i] != xs[j]
  }

  /** The versions of the up migrations of a directory, in the order listed. */
  function Versions(names: seq<string>): seq<string> {
    if names == [] then []
    else
      var n := names[|names| - 1];
      Versions(names[..|names| - 1]) + if IsUp(n) then [Version(n)] else []
  }

  lemma {:induction false} VersionsExact(names: seq<string>)
    requires Distinct(names)
    ensures Distinct(Versions(names))
    ensures forall v :: v in Versions(names) <==> |v| > 0 && v + ".up.sql" in names
  {
    if names != [] {
      var k := |names| - 1;
      var n := names[k];
      VersionsExact(names[..k]);
      assert names == names[..k] + [n];
      if IsUp(n) { assert n == Version(n) + SUFFIX; }
      forall v ensures v in Versions(names) <==> |v| > 0 && v + SUFFIX in names {
        if v + SUFFIX == n { assert n[|n| - 7..] == SUFFIX && Version(n) == v; }
      }
    }
  }

  /** How a transaction ends: an error in it rolls it back; the answer to a commit
      can be lost. */
  datatype Tx = Commits | RollsBack | CommitsSilently

  // ---------------------------------------------------------------- one runner

  /** Those of the first i versions of the plan that the table lacks, in order. */
  function Missing(plan: seq<string>, table: seq<string>, i: nat): seq<string>
    requires i <= |plan|
  {
    if i == 0 then []
    else Missing(plan, table, i - 1) + if plan[i - 1] in table then [] else [plan[i - 1]]
  }

  /** One round of the loop: whether the check of the version was answered, and how
      its transaction would end. */
  datatype Turn = Turn(checked: bool, tx: Tx)

  /** The run cannot get past this version. */
  predicate Stops(turn: Turn, version: string, table: seq<string>) {
    !turn.checked || (version !in table && !turn.tx.Commits?)
  }

  /** What a run that stops at a missing version still records. */
  function Partial(turn: Turn, version: string): seq<string> {
    if turn.checked && turn.tx.CommitsSilently? then [version] else []
  }

  /** i is the first version the run cannot get past; the missing ones before it are
      recorded, and it too if only the answer to its commit was lost. */
  predicate StopsAt(plan: seq<string>, turns: seq<Turn>, was: seq<string>, now: seq<string>, i: nat)
    requires |turns| == |plan|
  {
    && i < |plan| && Stops(turns[i], plan[i], was)
    && (forall k :: 0 <= k < i ==> !Stops(turns[k], plan[k], was))
    && now == was + Missing(plan, was, i) + if plan[i] in was then [] else Partial(turns[i], plan[i])
  }

  /** An undisturbed run over the plan. */
  predicate Migrated(plan: seq<string>, turns: seq<Turn>, was: seq<string>, now: seq<string>, ok: bool)
    requires |turns| == |plan|
  {
    if ok then now == was + Missing(plan, was, |plan|) && forall k :: 0 <= k < |plan| ==> !Stops(turns[k], plan[k], was)
    else exists i :: 0 <= i < |plan| && StopsAt(plan, turns, was, now, i)
  }

  /** The run has got past the first i versions. */
  predicate PastFirst(plan: seq<string>, turns: seq<Turn>, was: seq<string>, now: seq<string>, i: nat)
    requires |turns| == |plan| && i <= |plan|
  {
    now == was + Missing(plan, was, i) && forall k :: 0 <= k < i ==> !Stops(turns[k], plan[k], was)
  }

  class SchemaMigrations {
    /** The recorded versions, in commit order. */
    var applied: seq<string>

    constructor ()
      ensures applied == []
    {
      applied := [];
    }

    /** Body, record and commit in one transaction; version is the primary key. */
    method Apply(version: string, tx: Tx) returns (ok: bool)
      modifies this
      ensures ok <==> tx.Commits? && version !in old(applied)
      ensures applied == if tx.RollsBack? || version in old(applied) then old(applied) else old(applied) + [version]
    {
      if tx.RollsBack? || version in applied {
        return false;
      }
      applied := applied + [version];
      ok := tx.Commits?;
    }

    /** Undisturbed, a run stops at the first version it cannot check or, if it is
        missing, cannot apply, with the missing ones before it recorded in plan
        order; if there is none it records them all. */
    method Migrate(plan: seq<string>, turns: seq<Turn>) returns (ok: bool)
      requires Distinct(plan) && |turns| == |plan|
      modifies this
      ensures Migrated(plan, turns, old(applied), applied, ok)
      ensures ok <==> forall k :: 0 <= k < |plan| ==>
        turns[k].checked && (plan[k] in old(applied) || turns[k].tx.Commits?)
    {
      ghost var was := applied;
      for i := 0 to |plan|
        invariant PastFirst(plan, turns, was, applied, i)
      {
        Round(plan, turns, was, applied, i);
        if !turns[i].checked {
          return false;
        }
        if plan[i] !in applied {
          var done := Apply(plan[i], turns[i].tx);
          if !done {
            return false;
          }
        }
      }
      ok := true;
    }

    /** The application's migrations, then the queue's: as one list. */
    method RunRiverMigrations(plan: seq<string>, riverPlan: seq<string>, turns: seq<Turn>, riverTurns: seq<Turn>)
      returns (ok: bool)
      requires Distinct(plan + riverPlan) && |turns| == |plan| && |riverTurns| == |riverPlan|
      modifies this
      ensures Migrated(plan + riverPlan, turns + riverTurns, old(applied), applied, ok)
    {
      ghost var was := applied;
      DistinctParts(plan, riverPlan);
      ok := Migrate(plan, turns);
      ghost var mid := applied;
      if ok {
        ok := Migrate(riverPlan, riverTurns);
      }
      MigratedParts(plan, riverPlan, turns, riverTurns, was, mid, applied, ok);
    }
  }

  lemma {:induction false} MissingAreNew(plan: seq<string>, table: seq<string>, i: nat, v: string)
    requires i <= |plan| && v in Missing(plan, table, i)
    ensures exists k :: 0 <= k < i && plan[k] == v
  {
    if i > 0 && v != plan[i - 1] { MissingAreNew(plan, table, i - 1, v); }
  }

  lemma MissingNext(plan: seq<string>, was: seq<string>, i: nat)
    requires i < |plan|
    ensures was + Missing(plan, was, i + 1)
            == if plan[i] in was then was + Missing(plan, was, i) else was + Missing(plan, was, i) + [plan[i]]
  {
    if plan[i] !in was {
      assert was + (Missing(plan, was, i) + [plan[i]]) == was + Missing(plan, was, i) + [plan[i]];
    }
  }

  /** One round of the loop: where it stops the run is over, otherwise it has got past
      one more version. */
  lemma Round(plan: seq<string>, turns: seq<Turn>, was: seq<string>, now: seq<string>, i: nat)
    requires Distinct(plan) && |turns| == |plan| && i < |plan| && PastFirst(plan, turns, was, now, i)
    ensures !turns[i].checked ==> Migrated(plan, turns, was, now, false)
    ensures turns[i].checked && plan[i] in now ==> PastFirst(plan, turns, was, now, i + 1)
    ensures turns[i].checked && plan[i] !in now ==>
      match turns[i].tx
      case Commits => PastFirst(plan, turns, was, now + [plan[i]], i + 1)
      case RollsBack => Migrated(plan, turns, was, now, false)
      case CommitsSilently => Migrated(plan, turns, was, now + [plan[i]], false)
  {
    NotYet(plan, was, i);
    MissingNext(plan, was, i);
    if Stops(turns[i], plan[i], was) {
      var more := if plan[i] in was then [] else Partial(turns[i], plan[i]);
      assert more == [] ==> now + more == now;
      assert StopsAt(plan, turns, was, now + more, i);
    }
  }

  /** The versions before the i-th do not include it. */
  lemma NotYet(plan: seq<string>, was: seq<string>, i: nat)
    requires Distinct(plan) && i < |plan|
    ensures plan[i] in was + Missing(plan, was, i) <==> plan[i] in was
  {
    if plan[i] in Missing(plan, was, i) { MissingAreNew(plan, was, i, plan[i]); }
  }

  lemma DistinctParts(plan: seq<string>, more: seq<string>)
    requires Distinct(plan + more)
    ensures Distinct(plan) && Distinct(more)
    ensures forall i, k :: 0 <= i < |plan| && 0 <= k < |more| ==> plan[i] != more[k]
  {
    var both := plan + more;
    forall i, j | 0 <= i < j < |plan| ensures plan[i] != plan[j] { assert both[i] == plan[i] && both[j] == plan[j]; }
    forall i, j | 0 <= i < j < |more| ensures more[i] != more[j] {
      assert both[|plan| + i] == more[i] && both[|plan| + j] == more[j];
    }
    forall i, k | 0 <= i < |plan| && 0 <= k < |more| ensures plan[i] != more[k] {
      assert both[i] == plan[i] && both[|plan| + k] == more[k];
    }
  }

  /** What the first list recorded does not matter to the second. */
  lemma SameTable(plan: seq<string>, more: seq<string>, was: seq<string>, k: nat)
    requires Distinct(plan + more) && k < |more|
    ensures more[k] in was + Missing(plan, was, |plan|) <==> more[k] in was
  {
    DistinctParts(plan, more);
    if more[k] in Missing(plan, was, |plan|) { MissingAreNew(plan, was, |plan|, more[k]); }
  }

  lemma {:induction false} MissingFirst(plan: seq<string>, more: seq<string>, table: seq<string>, i: nat)
    requires i <= |plan|
    ensures Missing(plan + more, table, i) == Missing(plan, table, i)
  {
    if i > 0 { MissingFirst(plan, more, table, i - 1); }
  }

  lemma {:induction false} MissingThen(plan: seq<string>, more: seq<string>, table: seq<string>, k: nat)
    requires k <= |more|
    ensures Missing(plan + more, table, |plan| + k) == Missing(plan, table, |plan|) + Missing(more, table, k)
  {
    if k == 0 {
      MissingFirst(plan, more, table, |plan|);
    } else {
      MissingThen(plan, more, table, k - 1);
      assert (plan + more)[|plan| + k - 1] == more[k - 1];
    }
  }

  lemma {:induction false} MissingSame(plan: seq<string>, more: seq<string>, was: seq<string>, k: nat)
    requires Distinct(plan + more) && k <= |more|
    ensures Missing(more, was + Missing(plan, was, |plan|), k) == Missing(more, was, k)
  {
    if k > 0 {
      MissingSame(plan, more, was, k - 1);
      SameTable(plan, more, was, k - 1);
    }
  }

  lemma StopsEarlier(plan: seq<string>, more: seq<string>, turns: seq<Turn>, moreTurns: seq<Turn>,
                     was: seq<string>, now: seq<string>, i: nat)
    requires |turns| == |plan| && |moreTurns| == |more| && StopsAt(plan, turns, was, now, i)
    ensures StopsAt(plan + more, turns + moreTurns, was, now, i)
  {
    var both, all := plan + more, turns + moreTurns;
    MissingFirst(plan, more, was, i);
    assert both[i] == plan[i] && all[i] == turns[i];
    forall k | 0 <= k < i ensures !Stops(all[k], both[k], was) { assert !Stops(turns[k], plan[k], was); }
  }

  /** The first list is done, and the second gets as far as version i. */
  lemma NothingStops(plan: seq<string>, more: seq<string>, turns: seq<Turn>, moreTurns: seq<Turn>,
                     was: seq<string>, mid: seq<string>, i: nat)
    requires Distinct(plan + more) && |turns| == |plan| && |moreTurns| == |more| && i <= |more|
    requires Migrated(plan, turns, was, mid, true)
    requires forall k :: 0 <= k < i ==> !Stops(moreTurns[k], more[k], mid)
    ensures forall k :: 0 <= k < |plan| + i ==> !Stops((turns + moreTurns)[k], (plan + more)[k], was)
  {
    var both, all := plan + more, turns + moreTurns;
    forall k | 0 <= k < |plan| + i ensures !Stops(all[k], both[k], was) {
      if k < |plan| {
        assert !Stops(turns[k], plan[k], was);
      } else {
        SameTable(plan, more, was, k - |plan|);
        assert !Stops(moreTurns[k - |plan|], more[k - |plan|], mid);
      }
    }
  }

  lemma StopsLater(plan: seq<string>, more: seq<string>, turns: seq<Turn>, moreTurns: seq<Turn>,
                   was: seq<string>, mid: seq<string>, now: seq<string>, i: nat)
    requires Distinct(plan + more) && |turns| == |plan| && |moreTurns| == |more|
    requires Migrated(plan, turns, was, mid, true) && StopsAt(more, moreTurns, mid, now, i)
    ensures StopsAt(plan + more, turns + moreTurns, was, now, |plan| + i)
  {
    var both, all := plan + more, turns + moreTurns;
    NothingStops(plan, more, turns, moreTurns, was, mid, i);
    SameTable(plan, more, was, i);
    MissingThen(plan, more, was, i);
    MissingSame(plan, more, was, i);
    assert both[|plan| + i] == more[i] && all[|plan| + i] == moreTurns[i];
    assert was + Missing(plan, was, |plan|) + Missing(more, was, i) == was + Missing(both, was, |plan| + i);
  }

  lemma BothDone(plan: seq<string>, more: seq<string>, turns: seq<Turn>, moreTurns: seq<Turn>,
                 was: seq<string>, mid: seq<string>, now: seq<string>)
    requires Distinct(plan + more) && |turns| == |plan| && |moreTurns| == |more|
    requires Migrated(plan, turns, was, mid, true) && Migrated(more, moreTurns, mid, now, true)
    ensures Migrated(plan + more, turns + moreTurns, was, now, true)
  {
    NothingStops(plan, more, turns, moreTurns, was, mid, |more|);
    MissingThen(plan, more, was, |more|);
    MissingSame(plan, more, was, |more|);
    assert was + Missing(plan, was, |plan|) + Missing(more, was, |more|)
           == was + Missing(plan + more, was, |plan + more|);
  }

  /** A run over two lists in turn is a run over their concatenation. */
  lemma MigratedParts(plan: seq<string>, more: seq<string>, turns: seq<Turn>, moreTurns: seq<Turn>,
                      was: seq<string>, mid: seq<string>, now: seq<string>, ok: bool)
    requires Distinct(plan + more) && |turns| == |plan| && |moreTurns| == |more|
    requires if Migrated(plan, turns, was, mid, true) then Migrated(more, moreTurns, mid, now, ok)
             else Migrated(plan, turns, was, mid, false) && now == mid && !ok
    ensures Migrated(plan + more, turns + moreTurns, was, now, ok)
  {
    if !Migrated(plan, turns, was, mid, true) {
      var i :| 0 <= i < |plan| && StopsAt(plan, turns, was, mid, i);
      StopsEarlier(plan, more, turns, moreTurns, was, now, i);
    } else if ok {
      BothDone(plan, more, turns, moreTurns, was, mid, now);
    } else {
      var i :| 0 <= i < |more| && StopsAt(more, moreTurns, mid, now, i);
      StopsLater(plan, more, turns, moreTurns, was, mid, now, i);
    }
  }

  /** On a prefix of the plan, what is missing of the first i versions completes them. */
  lemma {:induction false} MissingCompletes(plan: seq<string>, was: seq<string>, i: nat)
    requires Distinct(plan) && was <= plan && i <= |plan|
    ensures was + Missing(plan, was, i) == if i < |was| then was else plan[..i]
  {
    if i == 0 {
      assert was + [] == was;
      assert plan[..0] == [];
    } else {
      var k := i - 1;
      MissingCompletes(plan, was, k);
      InPrefix(plan, was, k);
      OneMore(plan, was, k);
    }
  }

  lemma OneMore(plan: seq<string>, was: seq<string>, i: nat)
    requires was <= plan && i < |plan| && (plan[i] in was <==> i < |was|)
    requires was + Missing(plan, was, i) == if i < |was| then was else plan[..i]
    ensures was + Missing(plan, was, i + 1) == if i + 1 < |was| then was else plan[..i + 1]
  {
    MissingNext(plan, was, i);
    assert plan[..i + 1] == plan[..i] + [plan[i]];
    assert i + 1 == |was| ==> plan[..i + 1] == was;
  }

  lemma PrefixLacks(plan: seq<string>, was: seq<string>, i: nat)
    requires Distinct(plan) && was <= plan && |was| <= i < |plan|
    ensures plan[i] !in was
  {
    forall k | 0 <= k < |was| ensures was[k] != plan[i] { assert was[k] == plan[k]; }
  }

  /** A run that starts on a prefix of the plan, as AlwaysAPrefix says every run does,
      ends on a prefix, and on the whole plan when it succeeds; so a run after
      completion changes nothing. */
  lemma KeepsPrefix(plan: seq<string>, turns: seq<Turn>, was: seq<string>, now: seq<string>, ok: bool)
    requires Distinct(plan) && |turns| == |plan| && was <= plan && Migrated(plan, turns, was, now, ok)
    ensures was <= now <= plan && (ok ==> now == plan)
  {
    if ok {
      MissingCompletes(plan, was, |plan|);
      assert plan[..|plan|] == plan;
    } else {
      var i :| 0 <= i < |plan| && StopsAt(plan, turns, was, now, i);
      StopsOnPrefix(plan, turns, was, now, i);
    }
  }

  lemma StopsOnPrefix(plan: seq<string>, turns: seq<Turn>, was: seq<string>, now: seq<string>, i: nat)
    requires Distinct(plan) && |turns| == |plan| && was <= plan && StopsAt(plan, turns, was, now, i)
    ensures now == was || (|was| <= i && (now == plan[..i] || now == plan[..i + 1]))
  {
    MissingCompletes(plan, was, i);
    InPrefix(plan, was, i);
    StopsAfter(plan, turns, was, now, i);
  }

  lemma InPrefix(plan: seq<string>, was: seq<string>, i: nat)
    requires Distinct(plan) && was <= plan && i < |plan|
    ensures plan[i] in was <==> i < |was|
  {
    if i < |was| { assert plan[i] == was[i]; } else { PrefixLacks(plan, was, i); }
  }

  lemma StopsAfter(plan: seq<string>, turns: seq<Turn>, was: seq<string>, now: seq<string>, i: nat)
    requires |turns| == |plan| && StopsAt(plan, turns, was, now, i) && (plan[i] in was <==> i < |was|)
    requires was + Missing(plan, was, i) == if i < |was| then was else plan[..i]
    ensures now == was || (|was| <= i && (now == plan[..i] || now == plan[..i + 1]))
  {
    var pre := was + Missing(plan, was, i);
    assert pre + [] == pre;
    assert plan[..i + 1] == plan[..i] + [plan[i]];
  }

  // ---------------------------------------------------------------- many runners

  datatype Runner = Checking(i: nat) | Applying(i: nat) | Stopped | Finished

  datatype World = World(applied: seq<string>, runners: seq<Runner>)

  datatype Event = Start | Check(r: nat) | Commit(r: nat, tx: Tx) | Crash(r: nat)

  function Step(plan: seq<string>, w: World, e: Event): Option<World> {
    match e
    case Start => Some(w.(runners := w.runners + [Checking(0)]))
    case Check(r) =>
      if r >= |w.runners| || !w.runners[r].Checking? then None
      else
        var i := w.runners[r].i;
        Some(w.(runners := w.runners[r :=
          if i >= |plan| then Finished
          else if plan[i] in w.applied then Checking(i + 1)
          else Applying(i)]))
    case Commit(r, tx) =>
      if r >= |w.runners| || !w.runners[r].Applying? || w.runners[r].i >= |plan| then None
      else
        var i := w.runners[r].i;
        if tx.RollsBack? || plan[i] in w.applied then Some(w.(runners := w.runners[r := Stopped]))
        else Some(World(w.applied + [plan[i]], w.runners[r := if tx.Commits? then Checking(i + 1) else Stopped]))
    case Crash(r) =>
      if r >= |w.runners| then None else Some(w.(runners := w.runners[r := Stopped]))
  }

  datatype Events = NoEvents | Then(before: Events, e: Event)

  function Run(plan: seq<string>, w: World, es: Events): Option<World> {
    match es
    case NoEvents => Some(w)
    case Then(before, e) =>
      var m := Run(plan, w, before);
      if m.None? then None else Step(plan, m.value, e)
  }

  /** A runner at version i has seen all earlier ones in the table. */
  predicate Inv(plan: seq<string>, w: World) {
    && w.applied <= plan
    && forall r :: 0 <= r < |w.runners| ==>
         && (w.runners[r].Checking? || w.runners[r].Applying? ==> w.runners[r].i <= |w.applied|)
         && (w.runners[r].Finished? ==> w.applied == plan)
  }

  lemma StepKeepsInv(plan: seq<string>, w: World, e: Event)
    requires Distinct(plan) && Inv(plan, w) && Step(plan, w, e).Some?
    ensures Inv(plan, Step(plan, w, e).value)
    ensures w.applied <= Step(plan, w, e).value.applied
  {
    if e.Check? && w.runners[e.r].i < |plan| && plan[w.runners[e.r].i] in w.applied {
      var i := w.runners[e.r].i;
      var k :| 0 <= k < |w.applied| && w.applied[k] == plan[i];
      assert plan[k] == plan[i];
    }
    if e.Commit? {
      var i := w.runners[e.r].i;
      if i < |w.applied| { assert w.applied[i] == plan[i]; }
    }
  }

  lemma {:induction false} RunKeepsInv(plan: seq<string>, w: World, es: Events)
    requires Distinct(plan) && Inv(plan, w) && Run(plan, w, es).Some?
    ensures Inv(plan, Run(plan, w, es).value)
    ensures w.applied <= Run(plan, w, es).value.applied
  {
    if es.Then? {
      RunKeepsInv(plan, w, es.before);
      StepKeepsInv(plan, Run(plan, w, es.before).value, es.e);
    }
  }

  /** Main result: from an empty table, with any runners crashing and restarting, the
      recorded versions are always a prefix of the plan: each at most once, in
      order, none skipped; and they only grow. */
  lemma AlwaysAPrefix(plan: seq<string>, es: Events, w: World, later: Events)
    requires Distinct(plan) && Run(plan, World([], []), es) == Some(w)
    requires Run(plan, w, later).Some?
    ensures w.applied <= Run(plan, w, later).value.applied <= plan
    ensures Distinct(w.applied)
  {
    RunKeepsInv(plan, World([], []), es);
    RunKeepsInv(plan, w, later);
  }

  /** Main result: once some runner has finished, all versions are recorded, and no
      run changes the table again. */
  lemma FinishedForGood(plan: seq<string>, es: Events, w: World, r: nat, later: Events)
    requires Distinct(plan) && Run(plan, World([], []), es) == Some(w)
    requires r < |w.runners| && w.runners[r].Finished? && Run(plan, w, later).Some?
    ensures w.applied == plan == Run(plan, w, later).value.applied
  {
    RunKeepsInv(plan, World([], []), es);
    RunKeepsInv(plan, w, later);
  }

  predicate Completes(plan: seq<string>, w: World, later: Events) {
    && Run(plan, w, later).Some?
    && var u := Run(plan, w, later).value;
       u.applied == plan && exists r :: 0 <= r < |u.runners| && u.runners[r].Finished?
  }

  /** One runner alone, from version i on, without a fault. */
  lemma {:induction false} DriveRunner(plan: seq<string>, w0: World, es: Events, w: World, r: nat, i: nat)
    returns (later: Events)
    requires Distinct(plan) && Run(plan, w0, es) == Some(w) && Inv(plan, w)
    requires r < |w.runners| && w.runners[r] == Checking(i) && i <= |plan|
    ensures Completes(plan, w0, later)
    decreases |plan| - i
  {
    var m := Step(plan, w, Check(r)).value;
    StepKeepsInv(plan, w, Check(r));
    var fs := Then(es, Check(r));
    assert Run(plan, w0, fs) == Some(m);
    if i == |plan| {
      assert m.runners[r].Finished?;
      later := fs;
    } else if plan[i] in w.applied {
      later := DriveRunner(plan, w0, fs, m, r, i + 1);
    } else {
      var u := Step(plan, m, Commit(r, Commits)).value;
      StepKeepsInv(plan, m, Commit(r, Commits));
      later := DriveRunner(plan, w0, Then(fs, Commit(r, Commits)), u, r, i + 1);
    }
  }

  /** Main result: whatever crashes and errors there have been, a new runner that is left
      alone finishes, with all versions recorded. */
  lemma NewRunnerFinishes(plan: seq<string>, es: Events, w: World)
    requires Distinct(plan) && Run(plan, World([], []), es) == Some(w)
    ensures exists later :: Completes(plan, w, later)
  {
    RunKeepsInv(plan, World([], []), es);
    var m := Step(plan, w, Start).value;
    StepKeepsInv(plan, w, Start);
    assert Run(plan, w, Then(NoEvents, Start)) == Some(m);
    var later := DriveRunner(plan, w, Then(NoEvents, Start), m, |w.runners|, 0);
  }
}
