/** Runs of one part of the system alone: a script says what that part does next in
    each state, so what it does in a whole call is determined. */
module Schedules {
  import opened JobProtocol
  import opened Wrappers

  /** The next event of the part, None when its call is over. */
  type Script = St -> Option<Event>

  predicate Scripted(sc: Script, s: St, es: Events) {
    match es
    case NoEvents => true
    case Then(before, e) =>
      Scripted(sc, s, before) && Run(Anything, s, before).Some? && sc(Run(Anything, s, before).value) == Some(e)
  }

  /** s is followed by the events es of the script up to t. */
  predicate Schedule(sc: Script, s: St, es: Events, t: St) {
    Run(Anything, s, es) == Some(t) && Scripted(sc, s, es)
  }

  /** One more event of the script. */
  lemma Proceed(sc: Script, s: St, es: Events, t: St) returns (es': Events, t': St)
    requires Schedule(sc, s, es, t) && sc(t).Some? && Step(t, sc(t).value).Some?
    ensures Schedule(sc, s, es', t') && t' == Step(t, sc(t).value).value
  {
    es', t' := Then(es, sc(t).value), Step(t, sc(t).value).value;
  }

  /** Two stretches of the script, one after the other. */
  lemma {:induction false} Chain(sc: Script, s: St, es: Events, t: St, fs: Events, u: St) returns (gs: Events, w: St)
    requires Schedule(sc, s, es, t) && Schedule(sc, t, fs, u)
    ensures Schedule(sc, s, gs, w) && w == u
  {
    w := u;
    if fs == NoEvents {
      gs := es;
    } else {
      var hs, m := Chain(sc, s, es, t, fs.before, Run(Anything, t, fs.before).value);
      gs := Then(hs, fs.e);
    }
  }

  function Length(es: Events): nat {
    match es
    case NoEvents => 0
    case Then(before, _) => 1 + Length(before)
  }

  lemma {:induction false} SameLength(sc: Script, s: St, es: Events, t: St, fs: Events, u: St)
    requires Schedule(sc, s, es, t) && Schedule(sc, s, fs, u) && Length(es) == Length(fs)
    ensures es == fs
  {
    if es.Then? {
      SameLength(sc, s, es.before, Run(Anything, s, es.before).value, fs.before, Run(Anything, s, fs.before).value);
    }
  }

  lemma {:induction false} NoneLonger(sc: Script, s: St, es: Events, t: St, fs: Events, u: St)
    requires Schedule(sc, s, es, t) && sc(t).None? && Schedule(sc, s, fs, u)
    ensures Length(fs) <= Length(es)
  {
    if Length(fs) > Length(es) {
      var m := Run(Anything, s, fs.before).value;
      NoneLonger(sc, s, es, t, fs.before, m);
      SameLength(sc, s, es, t, fs.before, m);
      assert false;
    }
  }

  /** A script has one whole run: two schedules to the end of the call are the same,
      so a contract that names one says exactly what the call does. */
  lemma {:induction false} OneSchedule(sc: Script, s: St, es: Events, t: St, fs: Events, u: St)
    requires Schedule(sc, s, es, t) && sc(t).None?
    requires Schedule(sc, s, fs, u) && sc(u).None?
    ensures es == fs && t == u
  {
    NoneLonger(sc, s, es, t, fs, u);
    NoneLonger(sc, s, fs, u, es, t);
    SameLength(sc, s, es, t, fs, u);
  }
}
