/** Magic-link tokens and the sessions they are exchanged for: Issue, Consume,
    Callback, logout and expiry interleaved in any way. */
module SingleUse {
  import opened Wrappers

  /** Milliseconds. */
  const TOKEN_TTL := 900_000
  const SESSION_TTL := 2_592_000_000

  datatype Value = TokenFor(email: string) | Session(email: string, createdAt: int)

  datatype Entry = Entry(value: Value, expiry: int)

  type Keyspace = map<string, Entry>

  /** The hash is a parameter; collision-free where it matters. */
  type Hash = string -> string

  predicate Injective(hash: Hash, toks: set<string>) {
    forall a, b :: a in toks && b in toks && hash(a) == hash(b) ==> a == b
  }

  function TokenKey(hash: Hash, tok: string): string { "authtoken:" + hash(tok) }

  function SessionKey(sid: string): string { "session:" + sid }

  lemma KeysApart(hash: Hash, tok: string, sid: string)
    ensures TokenKey(hash, tok) != SessionKey(sid)
  {
    assert TokenKey(hash, tok)[0] == 'a' && SessionKey(sid)[0] == 's';
  }

  lemma TokenKeysApart(hash: Hash, toks: set<string>, a: string, b: string)
    requires Injective(hash, toks) && a in toks && b in toks && TokenKey(hash, a) == TokenKey(hash, b)
    ensures a == b
  {
    assert TokenKey(hash, a)[10..] == hash(a) && TokenKey(hash, b)[10..] == hash(b);
  }

  lemma SessionKeysApart(a: string, b: string)
    requires SessionKey(a) == SessionKey(b)
    ensures a == b
  {
    assert SessionKey(a)[8..] == a && SessionKey(b)[8..] == b;
  }

  // ---------------------------------------------------------------- Redis commands

  predicate Alive(items: Keyspace, now: int, key: string) {
    key in items && now <= items[key].expiry
  }

  /** The consume script: read and delete as one command. */
  function Taken(items: Keyspace, now: int, key: string): Keyspace {
    if Alive(items, now, key) then items - {key} else items
  }

  /** What the script's caller makes of the answer: an empty email is not found. */
  function EmailAt(items: Keyspace, now: int, key: string): Option<string> {
    if Alive(items, now, key) && items[key].value.email != "" then Some(items[key].value.email) else None
  }

  // ---------------------------------------------------------------- the machine

  datatype Issued = Issued(email: string, at: int)

  /** A callback whose token was accepted. */
  datatype Use = Use(tok: string, email: string, at: int)

  /** A session created by the callback `use`. */
  datatype Opened = Opened(sid: string, use: nat, at: int)

  /** `pending` are the accepted callbacks that have not created their session yet. */
  datatype Auth = Auth(now: int, items: Keyspace, issued: map<string, Issued>,
                       uses: seq<Use>, pending: set<nat>, openings: seq<Opened>)

  datatype Event =
    | Tick(dt: nat)
    | Issue(tok: string, email: string)
    | Consume(tok: string, answered: bool)   // the script runs; its answer may be lost
    | Create(use: nat, sid: string)
    | Abandon(use: nat)
    | Logout(sid: string)

  function Start(now: int): Auth { Auth(now, map[], map[], [], {}, []) }

  predicate SidTaken(openings: seq<Opened>, sid: string) {
    exists i :: 0 <= i < |openings| && openings[i].sid == sid
  }

  function Step(hash: Hash, s: Auth, e: Event): Option<Auth> {
    match e
    case Tick(dt) => Some(s.(now := s.now + dt))
    case Issue(tok, email) =>
      if tok in s.issued then None   // random tokens do not repeat
      else Some(s.(items := s.items[TokenKey(hash, tok) := Entry(TokenFor(email), s.now + TOKEN_TTL)],
                   issued := s.issued[tok := Issued(email, s.now)]))
    case Consume(tok, answered) =>
      var key := TokenKey(hash, tok);
      var t := s.(items := Taken(s.items, s.now, key));
      (match if answered then EmailAt(s.items, s.now, key) else None
       case None => Some(t)
       case Some(email) => Some(t.(uses := s.uses + [Use(tok, email, s.now)], pending := s.pending + {|s.uses|})))
    case Create(use, sid) =>
      if use !in s.pending || use >= |s.uses| || SidTaken(s.openings, sid) then None
      else Some(s.(items := s.items[SessionKey(sid) := Entry(Session(s.uses[use].email, s.now), s.now + SESSION_TTL)],
                   pending := s.pending - {use},
                   openings := s.openings + [Opened(sid, use, s.now)]))
    case Abandon(use) => Some(s.(pending := s.pending - {use}))
    case Logout(sid) => Some(s.(items := s.items - {SessionKey(sid)}))
  }

  datatype Events = NoEvents | Then(before: Events, e: Event)

  function Run(hash: Hash, s: Auth, es: Events): Option<Auth> {
    match es
    case NoEvents => Some(s)
    case Then(before, e) =>
      var m := Run(hash, s, before);
      if m.None? then None else Step(hash, m.value, e)
  }

  // ---------------------------------------------------------------- invariants

  /** The collision-free tokens of a run: issued ones and those presented. */
  predicate Presented(toks: set<string>, e: Event) {
    (e.Issue? ==> e.tok in toks) && (e.Consume? ==> e.tok in toks)
  }

  predicate AllPresented(toks: set<string>, es: Events) {
    match es
    case NoEvents => true
    case Then(before, e) => AllPresented(toks, before) && Presented(toks, e)
  }

  predicate UseOk(s: Auth, u: Use) {
    && u.tok in s.issued && u.email == s.issued[u.tok].email
    && s.issued[u.tok].at <= u.at <= s.issued[u.tok].at + 900_000 && u.at <= s.now
  }

  /** A token is stored as issued, until it is used. */
  predicate TokensOk(hash: Hash, toks: set<string>, s: Auth) {
    && s.issued.Keys <= toks
    && (forall tok :: tok in s.issued ==> s.issued[tok].at <= s.now)
    && (forall tok :: tok in toks && TokenKey(hash, tok) in s.items ==>
          && tok in s.issued
          && s.items[TokenKey(hash, tok)] == Entry(TokenFor(s.issued[tok].email), s.issued[tok].at + TOKEN_TTL)
          && forall i :: 0 <= i < |s.uses| ==> s.uses[i].tok != tok)
  }

  predicate UsesOk(s: Auth) {
    && (forall i :: 0 <= i < |s.uses| ==> UseOk(s, s.uses[i]))
    && (forall i, j :: 0 <= i < j < |s.uses| ==> s.uses[i].tok != s.uses[j].tok)
    && (forall u :: u in s.pending ==> u < |s.uses|)
  }

  predicate OpenedOk(s: Auth) {
    && (forall i :: 0 <= i < |s.openings| ==> s.openings[i].use < |s.uses| && s.openings[i].use !in s.pending)
    && (forall i, j :: 0 <= i < j < |s.openings| ==>
          s.openings[i].use != s.openings[j].use && s.openings[i].sid != s.openings[j].sid)
  }

  /** Session sid was opened by the callback that used a token for this email. */
  predicate Genuine(s: Auth, sid: string, entry: Entry) {
    exists i :: 0 <= i < |s.openings| && s.openings[i].sid == sid && s.openings[i].use < |s.uses|
      && entry == Entry(Session(s.uses[s.openings[i].use].email, s.openings[i].at), s.openings[i].at + SESSION_TTL)
  }

  predicate SessionsOk(s: Auth) {
    forall key :: key in s.items && "session:" <= key ==> Genuine(s, key[8..], s.items[key])
  }

  predicate Inv(hash: Hash, toks: set<string>, s: Auth) {
    TokensOk(hash, toks, s) && UsesOk(s) && OpenedOk(s) && SessionsOk(s)
  }

  lemma GenuineStays(s: Auth, t: Auth, sid: string, entry: Entry)
    requires Genuine(s, sid, entry) && s.openings <= t.openings && s.uses <= t.uses
    ensures Genuine(t, sid, entry)
  {
    var i :| 0 <= i < |s.openings| && s.openings[i].sid == sid && s.openings[i].use < |s.uses|
      && entry == Entry(Session(s.uses[s.openings[i].use].email, s.openings[i].at), s.openings[i].at + SESSION_TTL);
    assert t.openings[i] == s.openings[i] && t.uses[s.openings[i].use] == s.uses[s.openings[i].use];
  }

  lemma StepKeepsTokens(hash: Hash, toks: set<string>, s: Auth, e: Event)
    requires Injective(hash, toks) && Presented(toks, e) && Inv(hash, toks, s) && Step(hash, s, e).Some?
    ensures TokensOk(hash, toks, Step(hash, s, e).value)
  {
    var t := Step(hash, s, e).value;
    forall tok | tok in toks && TokenKey(hash, tok) in t.items
      ensures tok in t.issued
      ensures t.items[TokenKey(hash, tok)] == Entry(TokenFor(t.issued[tok].email), t.issued[tok].at + TOKEN_TTL)
      ensures forall i :: 0 <= i < |t.uses| ==> t.uses[i].tok != tok
    {
      if (e.Issue? || e.Consume?) && TokenKey(hash, tok) == TokenKey(hash, e.tok) {
        TokenKeysApart(hash, toks, tok, e.tok);
      }
      if e.Create? || e.Logout? { KeysApart(hash, tok, e.sid); }
    }
  }

  lemma StepKeepsUses(hash: Hash, toks: set<string>, s: Auth, e: Event)
    requires Presented(toks, e) && Inv(hash, toks, s) && Step(hash, s, e).Some?
    ensures UsesOk(Step(hash, s, e).value) && OpenedOk(Step(hash, s, e).value)
    ensures s.uses <= Step(hash, s, e).value.uses && s.openings <= Step(hash, s, e).value.openings
  {
    var t := Step(hash, s, e).value;
    forall i | 0 <= i < |s.uses| ensures UseOk(t, s.uses[i]) {
      assert UseOk(s, s.uses[i]);
    }
  }

  lemma StepKeepsSessions(hash: Hash, toks: set<string>, s: Auth, e: Event)
    requires Presented(toks, e) && Inv(hash, toks, s) && Step(hash, s, e).Some?
    ensures SessionsOk(Step(hash, s, e).value)
  {
    var t := Step(hash, s, e).value;
    StepKeepsUses(hash, toks, s, e);
    forall key | key in t.items && "session:" <= key ensures Genuine(t, key[8..], t.items[key]) {
      assert key == SessionKey(key[8..]);
      if e.Create? && key == SessionKey(e.sid) {
        SessionKeysApart(key[8..], e.sid);
        assert t.openings[|s.openings|] == Opened(e.sid, e.use, s.now);
      } else {
        if e.Issue? { KeysApart(hash, e.tok, key[8..]); }
        assert key in s.items && t.items[key] == s.items[key];
        GenuineStays(s, t, key[8..], s.items[key]);
      }
    }
  }

  lemma {:induction false} RunKeepsInv(hash: Hash, toks: set<string>, s: Auth, es: Events)
    requires Injective(hash, toks) && AllPresented(toks, es) && Inv(hash, toks, s) && Run(hash, s, es).Some?
    ensures Inv(hash, toks, Run(hash, s, es).value)
    ensures s.uses <= Run(hash, s, es).value.uses && s.openings <= Run(hash, s, es).value.openings
  {
    if es.Then? {
      RunKeepsInv(hash, toks, s, es.before);
      var m := Run(hash, s, es.before).value;
      StepKeepsTokens(hash, toks, m, es.e);
      StepKeepsUses(hash, toks, m, es.e);
      StepKeepsSessions(hash, toks, m, es.e);
    }
  }

  // ---------------------------------------------------------------- results

  /** As many different tokens as uses. */
  lemma {:induction false} DistinctUses(uses: seq<Use>, issued: set<string>)
    requires forall i, j :: 0 <= i < j < |uses| ==> uses[i].tok != uses[j].tok
    requires forall i :: 0 <= i < |uses| ==> uses[i].tok in issued
    ensures |uses| <= |issued|
  {
    if uses != [] {
      var n := |uses| - 1;
      DistinctUses(uses[..n], issued - {uses[n].tok});
    }
  }

  lemma {:induction false} DistinctIndices(openings: seq<Opened>, n: nat, avail: set<nat>)
    requires forall i, j :: 0 <= i < j < |openings| ==> openings[i].use != openings[j].use
    requires forall i :: 0 <= i < |openings| ==> openings[i].use in avail
    ensures |openings| <= |avail|
  {
    if openings != [] {
      var k := |openings| - 1;
      DistinctIndices(openings[..k], n, avail - {openings[k].use});
    }
  }

  lemma {:induction false} Below(n: nat) returns (s: set<nat>)
    ensures |s| == n && forall i: nat :: i in s <==> i < n
  {
    if n == 0 {
      s := {};
    } else {
      var t := Below(n - 1);
      s := t + {n - 1};
    }
  }

  /** Main result: over any interleaving, no token opens two sessions; each session
      goes back to a token used within 15 minutes of its issue, and carries the
      email of that token; so sessions created <= tokens used <= tokens issued. */
  lemma SingleUseHolds(hash: Hash, toks: set<string>, now: int, es: Events, s: Auth)
    requires Injective(hash, toks) && AllPresented(toks, es)
    requires Run(hash, Start(now), es) == Some(s)
    ensures forall i :: 0 <= i < |s.openings| ==> s.openings[i].use < |s.uses| && UseOk(s, s.uses[s.openings[i].use])
    ensures forall i, j :: 0 <= i < j < |s.openings| ==> s.uses[s.openings[i].use].tok != s.uses[s.openings[j].use].tok
    ensures |s.openings| <= |s.uses| <= |s.issued|
  {
    RunKeepsInv(hash, toks, Start(now), es);
    forall i | 0 <= i < |s.openings| ensures s.openings[i].use < |s.uses| && UseOk(s, s.uses[s.openings[i].use]) {}
    forall i, j | 0 <= i < j < |s.openings| ensures s.uses[s.openings[i].use].tok != s.uses[s.openings[j].use].tok {
      var a, b := s.openings[i].use, s.openings[j].use;
      assert a < b || b < a;
    }
    forall i | 0 <= i < |s.uses| ensures s.uses[i].tok in s.issued.Keys { assert UseOk(s, s.uses[i]); }
    DistinctUses(s.uses, s.issued.Keys);
    var below := Below(|s.uses|);
    DistinctIndices(s.openings, |s.uses|, below);
  }

  /** Opening i is of session sid, by a rightful use of a token for the email that
      the session carries, at most 30 days ago. */
  predicate VouchedFor(s: Auth, sid: string, i: nat)
    requires i < |s.openings| && SessionKey(sid) in s.items
  {
    var o := s.openings[i];
    && o.sid == sid && o.use < |s.uses| && UseOk(s, s.uses[o.use])
    && s.items[SessionKey(sid)].value.email == s.issued[s.uses[o.use].tok].email
    && s.now <= o.at + 2_592_000_000
  }

  /** Main result: every session that Get accepts was opened by using a token issued
      to the email it carries, and is at most 30 days old. */
  lemma SessionsAreGenuine(hash: Hash, toks: set<string>, now: int, es: Events, s: Auth, sid: string)
    requires Injective(hash, toks) && AllPresented(toks, es)
    requires Run(hash, Start(now), es) == Some(s) && Alive(s.items, s.now, SessionKey(sid))
    ensures exists i :: 0 <= i < |s.openings| && VouchedFor(s, sid, i)
  {
    RunKeepsInv(hash, toks, Start(now), es);
    assert SessionKey(sid)[8..] == sid;
    assert Genuine(s, sid, s.items[SessionKey(sid)]);
    var i :| 0 <= i < |s.openings| && s.openings[i].sid == sid && s.openings[i].use < |s.uses|
      && s.items[SessionKey(sid)]
         == Entry(Session(s.uses[s.openings[i].use].email, s.openings[i].at), s.openings[i].at + SESSION_TTL);
    assert VouchedFor(s, sid, i);
  }

  /** Main result: a used token, or one past its 15 minutes, is never accepted again,
      whatever happens in between. */
  lemma NoReplay(hash: Hash, toks: set<string>, now: int, es: Events, s: Auth, tok: string)
    requires Injective(hash, toks) && AllPresented(toks, es) && tok in toks
    requires Run(hash, Start(now), es) == Some(s)
    ensures EmailAt(s.items, s.now, TokenKey(hash, tok)).Some? ==>
      tok in s.issued && s.now <= s.issued[tok].at + 900_000
      && EmailAt(s.items, s.now, TokenKey(hash, tok)).value == s.issued[tok].email
      && forall i :: 0 <= i < |s.uses| ==> s.uses[i].tok != tok
  {
    RunKeepsInv(hash, toks, Start(now), es);
  }

  // ---------------------------------------------------------------- what works

  /** Nobody has presented the token. */
  predicate NeverPresented(es: Events, tok: string) {
    match es
    case NoEvents => true
    case Then(before, e) => NeverPresented(before, tok) && (e.Consume? ==> e.tok != tok)
  }

  /** The token is stored as it was issued. */
  predicate StoredAsIssued(hash: Hash, s: Auth, tok: string) {
    && tok in s.issued && TokenKey(hash, tok) in s.items
    && s.items[TokenKey(hash, tok)] == Entry(TokenFor(s.issued[tok].email), s.issued[tok].at + 900_000)
  }

  lemma StepKeepsStored(hash: Hash, toks: set<string>, s: Auth, e: Event, tok: string)
    requires Injective(hash, toks) && Presented(toks, e) && tok in toks && Step(hash, s, e).Some?
    requires e.Consume? ==> e.tok != tok
    requires tok in s.issued ==> StoredAsIssued(hash, s, tok)
    ensures tok in Step(hash, s, e).value.issued ==> StoredAsIssued(hash, Step(hash, s, e).value, tok)
  {
    if (e.Issue? || e.Consume?) && TokenKey(hash, tok) == TokenKey(hash, e.tok) {
      TokenKeysApart(hash, toks, tok, e.tok);
    }
    if e.Create? || e.Logout? { KeysApart(hash, tok, e.sid); }
  }

  lemma {:induction false} RunKeepsStored(hash: Hash, toks: set<string>, s: Auth, es: Events, tok: string)
    requires Injective(hash, toks) && AllPresented(toks, es) && tok in toks && Run(hash, s, es).Some?
    requires NeverPresented(es, tok) && (tok in s.issued ==> StoredAsIssued(hash, s, tok))
    ensures tok in Run(hash, s, es).value.issued ==> StoredAsIssued(hash, Run(hash, s, es).value, tok)
  {
    if es.Then? {
      RunKeepsStored(hash, toks, s, es.before, tok);
      StepKeepsStored(hash, toks, Run(hash, s, es.before).value, es.e, tok);
    }
  }

  /** Main result, the converse of NoReplay: in every reachable state a token issued to an
      email at most 15 minutes ago, that nobody has presented, is accepted for it. */
  lemma GoodTokenWorks(hash: Hash, toks: set<string>, now: int, es: Events, s: Auth, tok: string)
    requires Injective(hash, toks) && AllPresented(toks, es) && tok in toks
    requires Run(hash, Start(now), es) == Some(s) && NeverPresented(es, tok)
    requires tok in s.issued && s.issued[tok].email != "" && s.now <= s.issued[tok].at + 900_000
    ensures EmailAt(s.items, s.now, TokenKey(hash, tok)) == Some(s.issued[tok].email)
  {
    RunKeepsStored(hash, toks, Start(now), es, tok);
  }

  /** Main result: such a token opens a session, whatever the session id, and at once the
      session is there with the email. */
  lemma GoodLinkLogsIn(hash: Hash, toks: set<string>, now: int, es: Events, s: Auth, tok: string, sid: string)
    requires Injective(hash, toks) && AllPresented(toks, es) && tok in toks
    requires Run(hash, Start(now), es) == Some(s) && NeverPresented(es, tok) && !SidTaken(s.openings, sid)
    requires tok in s.issued && s.issued[tok].email != "" && s.now <= s.issued[tok].at + 900_000
    ensures Run(hash, s, Then(Then(NoEvents, Consume(tok, true)), Create(|s.uses|, sid))).Some?
    ensures var t := Run(hash, s, Then(Then(NoEvents, Consume(tok, true)), Create(|s.uses|, sid))).value;
      && t.uses == s.uses + [Use(tok, s.issued[tok].email, s.now)]
      && t.openings == s.openings + [Opened(sid, |s.uses|, s.now)]
      && Alive(t.items, t.now, SessionKey(sid))
      && t.items[SessionKey(sid)].value == Session(s.issued[tok].email, s.now)
  {
    GoodTokenWorks(hash, toks, now, es, s, tok);
    var m := Step(hash, s, Consume(tok, true)).value;
    assert Run(hash, s, Then(NoEvents, Consume(tok, true))) == Some(m);
    assert |s.uses| in m.pending && |s.uses| < |m.uses|;
  }

  /** Nobody has logged out of the session. */
  predicate NoLogout(es: Events, sid: string) {
    match es
    case NoEvents => true
    case Then(before, e) => NoLogout(before, sid) && (e.Logout? ==> e.sid != sid)
  }

  predicate SessionStored(s: Auth, i: nat)
    requires i < |s.openings|
  {
    var o := s.openings[i];
    && o.use < |s.uses| && SessionKey(o.sid) in s.items
    && s.items[SessionKey(o.sid)] == Entry(Session(s.uses[o.use].email, o.at), o.at + 2_592_000_000)
  }

  /** All sessions of this id are stored as they were opened. */
  predicate SidStored(s: Auth, sid: string) {
    forall i :: 0 <= i < |s.openings| && s.openings[i].sid == sid ==> SessionStored(s, i)
  }

  lemma StepKeepsSession(hash: Hash, s: Auth, e: Event, sid: string)
    requires Step(hash, s, e).Some? && SidStored(s, sid) && (e.Logout? ==> e.sid != sid)
    ensures SidStored(Step(hash, s, e).value, sid)
  {
    var t := Step(hash, s, e).value;
    forall i | 0 <= i < |t.openings| && t.openings[i].sid == sid ensures SessionStored(t, i) {
      if i < |s.openings| {
        assert SessionStored(s, i) && t.openings[i] == s.openings[i];
        if e.Issue? || e.Consume? { KeysApart(hash, e.tok, sid); }
        if (e.Create? || e.Logout?) && SessionKey(e.sid) == SessionKey(sid) { SessionKeysApart(e.sid, sid); }
      }
    }
  }

  lemma {:induction false} RunKeepsSession(hash: Hash, s: Auth, es: Events, sid: string)
    requires Run(hash, s, es).Some? && SidStored(s, sid) && NoLogout(es, sid)
    ensures SidStored(Run(hash, s, es).value, sid)
  {
    if es.Then? {
      RunKeepsSession(hash, s, es.before, sid);
      StepKeepsSession(hash, Run(hash, s, es.before).value, es.e, sid);
    }
  }

  /** Main result, the converse of SessionsAreGenuine: a session opened at most 30 days
      ago, of which nobody has logged out, is accepted with the email of its token. */
  lemma SessionsLast(hash: Hash, now: int, es: Events, s: Auth, i: nat)
    requires Run(hash, Start(now), es) == Some(s) && i < |s.openings| && NoLogout(es, s.openings[i].sid)
    requires s.now <= s.openings[i].at + 2_592_000_000
    ensures Alive(s.items, s.now, SessionKey(s.openings[i].sid)) && s.openings[i].use < |s.uses|
    ensures s.items[SessionKey(s.openings[i].sid)].value
            == Session(s.uses[s.openings[i].use].email, s.openings[i].at)
  {
    RunKeepsSession(hash, Start(now), es, s.openings[i].sid);
    assert SessionStored(s, i);
  }
}
