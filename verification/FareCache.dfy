/** Fare search through a cache with expiry, over a provider that may answer
    differently every time. */
module FareCache {
  import opened Wrappers
  import Calendar

  /** Prices in cents; `detail` stands for the other fields. */
  datatype Fare = Fare(price: int, detail: string, cached: bool)

  datatype Request = Request(origin: string, destination: string, date: string)

  datatype ProviderError = InvalidInput | Auth | RateLimited | ProviderDown | Cancelled | Undecodable

  datatype Answer = Fares(fares: seq<Fare>) | Fails(error: ProviderError)

  predicate IsIata(s: string) {
    |s| == 3 && forall i :: 0 <= i < 3 ==> 'A' <= s[i] <= 'Z'
  }

  predicate ValidRequest(req: Request) {
    IsIata(req.origin) && IsIata(req.destination) && Calendar.MatchesDate(req.date) && Calendar.Parse(req.date).Some?
  }

  function FareKey(req: Request): string {
    "fare:" + req.origin + ":" + req.destination + ":" + req.date
  }

  function Body(req: Request): string { req.origin + ":" + req.destination + ":" + req.date }

  predicate Colon(s: string) { ':' in s }

  /** The body of a key cut at two of its colons. */
  lemma BodyColons(req: Request, i: nat)
    ensures |req.origin| < |Body(req)| && Body(req)[|req.origin|] == ':'
    ensures |req.origin| + 1 + |req.destination| < |Body(req)|
    ensures Body(req)[|req.origin| + 1 + |req.destination|] == ':'
    ensures !Colon(req.origin) && !Colon(req.destination) && !Colon(req.date) && i < |Body(req)| && Body(req)[i] == ':'
      ==> i == |req.origin| || i == |req.origin| + 1 + |req.destination|
  {
    var o, d := |req.origin|, |req.destination|;
    var b := Body(req);
    if i < |b| {
      assert i < o ==> b[i] == req.origin[i];
      assert o < i < o + 1 + d ==> b[i] == req.destination[i - o - 1];
      assert o + 1 + d < i ==> b[i] == req.date[i - o - d - 2];
    }
  }

  lemma BodyParts(req: Request)
    ensures var o, d := |req.origin|, |req.destination|;
      && |Body(req)| == o + d + |req.date| + 2
      && Body(req)[..o] == req.origin && Body(req)[o + 1..o + 1 + d] == req.destination
      && Body(req)[o + d + 2..] == req.date
  {
  }

  lemma KeyBody(a: Request, b: Request)
    ensures FareKey(a) == FareKey(b) <==> Body(a) == Body(b)
  {
    assert FareKey(a) == "fare:" + Body(a) && FareKey(b) == "fare:" + Body(b);
    assert FareKey(a)[5..] == Body(a) && FareKey(b)[5..] == Body(b);
  }

  lemma NoColonsUnique(a: Request, b: Request)
    requires !Colon(a.origin) && !Colon(a.destination) && !Colon(a.date) && FareKey(a) == FareKey(b)
    ensures a == b
  {
    KeyBody(a, b);
    BodyColons(b, 0);
    BodyColons(a, |b.origin|);
    BodyColons(a, |b.origin| + 1 + |b.destination|);
    BodyParts(a);
    BodyParts(b);
  }

  /** A part cut at one of its colons. */
  lemma Cut(s: string) returns (p: string, q: string)
    requires Colon(s)
    ensures s == p + ":" + q
  {
    var i :| 0 <= i < |s| && s[i] == ':';
    p, q := s[..i], s[i + 1..];
  }

  /** The colon of the second part moves into the first. */
  lemma Regroup(o: string, p: string, q: string, rest: string)
    ensures o + ":" + (p + ":" + q) + rest == (o + ":" + p) + ":" + q + rest
  {
  }

  /** Another request with the same key: a colon inside a part becomes a separator. */
  lemma Twin(a: Request) returns (b: Request)
    requires Colon(a.origin) || Colon(a.destination) || Colon(a.date)
    ensures a != b && FareKey(a) == FareKey(b)
  {
    if Colon(a.origin) {
      var p, q := Cut(a.origin);
      b := Request(p, q + ":" + a.destination, a.date);
      Regroup(p, q, a.destination, ":" + a.date);
      assert Body(a) == (p + ":" + q) + ":" + a.destination + (":" + a.date);
      assert Body(b) == p + ":" + (q + ":" + a.destination) + (":" + a.date);
      assert |b.origin| < |a.origin|;
    } else if Colon(a.destination) {
      var p, q := Cut(a.destination);
      b := Request(a.origin + ":" + p, q, a.date);
      Regroup(a.origin, p, q, ":" + a.date);
      assert Body(a) == a.origin + ":" + (p + ":" + q) + (":" + a.date);
      assert Body(b) == (a.origin + ":" + p) + ":" + q + (":" + a.date);
      assert |b.origin| > |a.origin|;
    } else {
      var p, q := Cut(a.date);
      b := Request(a.origin + ":" + a.destination, p, q);
      Regroup(a.origin + ":" + a.destination, p, q, "");
      assert Body(a) == (a.origin + ":" + a.destination) + ":" + (p + ":" + q) + "";
      assert Body(b) == ((a.origin + ":" + a.destination) + ":" + p) + ":" + q + "";
      assert |b.origin| > |a.origin|;
    }
    KeyBody(a, b);
  }

  /** Main result: a request shares its key with a different one exactly when a colon
      occurs in its origin, destination or date. */
  lemma FareKeyShared(a: Request)
    ensures (exists b :: b != a && FareKey(b) == FareKey(a))
            <==> Colon(a.origin) || Colon(a.destination) || Colon(a.date)
  {
    if Colon(a.origin) || Colon(a.destination) || Colon(a.date) {
      var b := Twin(a);
      assert b != a && FareKey(b) == FareKey(a);
    } else {
      forall b | FareKey(b) == FareKey(a) ensures b == a { NoColonsUnique(a, b); }
    }
  }

  /** So valid requests with the same key are the same request. */
  lemma FareKeyInjective(a: Request, b: Request)
    requires ValidRequest(a) && FareKey(a) == FareKey(b)
    ensures a == b
  {
    forall i | 0 <= i < |a.date| ensures a.date[i] != ':' { assert i == 4 || i == 7 || Calendar.IsDigit(a.date[i]); }
    NoColonsUnique(a, b);
  }

  // ---------------------------------------------------------------- fallback

  /** A cheapest fare of the month. */
  predicate Cheapest(best: Fare, month: seq<Fare>) {
    best in month && forall f :: f in month ==> best.price <= f.price
  }

  lemma {:induction false} CheapestExists(month: seq<Fare>) returns (best: Fare)
    requires month != []
    ensures Cheapest(best, month)
  {
    var last := month[|month| - 1];
    if |month| == 1 {
      best := last;
    } else {
      var b := CheapestExists(month[..|month| - 1]);
      best := if last.price < b.price then last else b;
      assert month == month[..|month| - 1] + [last];
    }
  }

  /** What a search that misses the cache may answer. */
  predicate Fetched(exact: Answer, month: Answer, r: Answer) {
    match exact
    case Fails(e) => r == exact
    case Fares(fs) =>
      if fs != [] then r == exact
      else
        match month
        case Fails(e) => r == if e.ProviderDown? then Fares([]) else month
        case Fares(ms) =>
          if ms == [] then r == Fares([])
          else r.Fares? && |r.fares| == 1 && Cheapest(r.fares[0], ms)
  }

  /** The sort is not stable: any cheapest fare may come first. */
  method FetchWithFallback(exact: Answer, month: Answer) returns (r: Answer)
    ensures Fetched(exact, month, r)
    ensures exact.Fails? || exact.fares != [] ==> r == exact
    ensures exact == Fares([]) && month.Fails? ==> r == if month.error.ProviderDown? then Fares([]) else month
    ensures exact == Fares([]) && month == Fares([]) ==> r == Fares([])
    ensures exact == Fares([]) && month.Fares? && month.fares != [] ==>
      && r.Fares? && |r.fares| == 1 && r.fares[0] in month.fares
      && forall f :: f in month.fares ==> r.fares[0].price <= f.price
  {
    if exact.Fails? || |exact.fares| > 0 {
      return exact;
    }
    if month.Fails? {
      if month.error.ProviderDown? {
        return Fares([]);
      }
      return month;
    }
    if |month.fares| == 0 {
      return Fares([]);
    }
    ghost var some := CheapestExists(month.fares);
    var best :| best in month.fares && forall f :: f in month.fares ==> best.price <= f.price;
    r := Fares([best]);
  }

  // ---------------------------------------------------------------- cache

  datatype Entry = Entry(value: seq<Fare>, expiresAt: int)

  datatype Store = Store(now: int, items: map<string, Entry>)

  function Lookup(s: Store, key: string): Option<seq<Fare>> {
    if key in s.items && s.items[key].expiresAt > s.now then Some(s.items[key].value) else None
  }

  function Stored(s: Store, key: string, value: seq<Fare>, ttl: int): Store {
    if ttl <= 0 then s else s.(items := s.items[key := Entry(value, s.now + ttl)])
  }

  function Marked(fares: seq<Fare>): seq<Fare> {
    seq(|fares|, i requires 0 <= i < |fares| => fares[i].(cached := true))
  }

  /** A lookup is answered, fails as a miss does, or finds bytes that do not decode. */
  datatype GetOutcome = Answers | Misses | Garbled

  /** A search that missed: the provider is being asked, or has answered and the fares
      are about to be stored, or the search is over. */
  datatype Flight = Asking(req: Request) | Fetching(req: Request, fares: seq<Fare>, at: int) | Over

  /** A fetch that was put into the cache, when it was fetched and when it was stored. */
  datatype Record = Record(req: Request, fares: seq<Fare>, fetchedAt: int, storedAt: int)

  /** The store, the searches under way, and the fetches stored so far. */
  datatype History = History(store: Store, flights: seq<Flight>, log: seq<Record>)

  /** Searches run side by side over one cache: a lookup, the provider's answer and the
      store are events of their own. */
  datatype Event =
    | Advance(d: nat)
    | Begin(req: Request, get: GetOutcome)
    | Fetch(k: nat, fetched: Answer)
    | Put(k: nat, setFails: bool)

  predicate IsHit(h: History, req: Request, get: GetOutcome) {
    ValidRequest(req) && !get.Misses? && Lookup(h.store, FareKey(req)).Some?
  }

  /** What a hit answers. */
  function HitAnswer(h: History, req: Request, get: GetOutcome): Answer
    requires IsHit(h, req, get)
  {
    if get.Garbled? then Fails(Undecodable) else Fares(Marked(Lookup(h.store, FareKey(req)).value))
  }

  function Fresh(now: int): History { History(Store(now, map[]), [], []) }

  /** Events that are not possible change nothing. */
  function Step(ttl: int, h: History, e: Event): History {
    match e
    case Advance(d) => h.(store := h.store.(now := h.store.now + d))
    case Begin(req, get) =>
      if !ValidRequest(req) || IsHit(h, req, get) then h else h.(flights := h.flights + [Asking(req)])
    case Fetch(k, fetched) =>
      if k >= |h.flights| || !h.flights[k].Asking? then h
      else
        h.(flights := h.flights[k :=
          match fetched
          case Fails(_) => Over
          case Fares(fares) => Fetching(h.flights[k].req, fares, h.store.now)])
    case Put(k, setFails) =>
      if k >= |h.flights| || !h.flights[k].Fetching? then h
      else
        var g := h.(flights := h.flights[k := Over]);
        if setFails || ttl <= 0 then g else Kept(ttl, g, h.flights[k])
  }

  function Kept(ttl: int, h: History, f: Flight): History
    requires f.Fetching?
  {
    h.(store := Stored(h.store, FareKey(f.req), f.fares, ttl),
       log := h.log + [Record(f.req, f.fares, f.at, h.store.now)])
  }

  datatype Events = NoEvents | Then(before: Events, e: Event)

  function Run(ttl: int, h: History, es: Events): History {
    match es
    case NoEvents => h
    case Then(before, e) => Step(ttl, Run(ttl, h, before), e)
  }

  /** Record k is the latest of its request. */
  predicate Latest(log: seq<Record>, k: nat)
    requires k < |log|
  {
    forall j :: k < j < |log| ==> log[j].req != log[k].req
  }

  predicate RecordOk(h: History, r: Record) {
    ValidRequest(r.req) && r.fetchedAt <= r.storedAt <= h.store.now
  }

  /** The entry is the latest stored fetch for the request with this key. */
  predicate Backed(ttl: int, h: History, key: string, k: int) {
    && key in h.store.items && 0 <= k < |h.log| && Latest(h.log, k)
    && FareKey(h.log[k].req) == key && h.store.items[key] == Entry(h.log[k].fares, h.log[k].storedAt + ttl)
  }

  predicate FlightOk(h: History, f: Flight) {
    && (f.Asking? ==> ValidRequest(f.req))
    && (f.Fetching? ==> ValidRequest(f.req) && f.at <= h.store.now)
  }

  ghost predicate Inv(ttl: int, h: History) {
    && (forall k :: 0 <= k < |h.log| ==> RecordOk(h, h.log[k]))
    && (forall k :: 0 <= k < |h.flights| ==> FlightOk(h, h.flights[k]))
    && (forall key :: key in h.store.items ==> exists k :: Backed(ttl, h, key, k))
  }

  lemma PutKeepsInv(ttl: int, h: History, f: Flight)
    requires Inv(ttl, h) && f.Fetching? && FlightOk(h, f) && ttl > 0
    ensures Inv(ttl, Kept(ttl, h, f))
  {
    var g := Kept(ttl, h, f);
    forall key | key in g.store.items ensures exists k :: Backed(ttl, g, key, k) {
      if key == FareKey(f.req) {
        assert Backed(ttl, g, key, |h.log|);
      } else {
        var k :| Backed(ttl, h, key, k);
        OthersBacked(ttl, h, f, key, k);
      }
    }
    forall k | 0 <= k < |g.log| ensures RecordOk(g, g.log[k]) {
      if k < |h.log| { assert RecordOk(h, h.log[k]); }
    }
    forall k | 0 <= k < |g.flights| ensures FlightOk(g, g.flights[k]) { assert FlightOk(h, h.flights[k]); }
  }

  /** A new record is for another request than those behind the other keys. */
  lemma OthersBacked(ttl: int, h: History, f: Flight, key: string, k: int)
    requires f.Fetching? && ttl > 0 && key != FareKey(f.req) && Backed(ttl, h, key, k)
    ensures Backed(ttl, Kept(ttl, h, f), key, k)
  {
    var g := Kept(ttl, h, f);
    assert g.log[k] == h.log[k] && g.log[k].req != f.req;
    forall j | k < j < |g.log| ensures g.log[j].req != g.log[k].req {
      if j < |h.log| { assert g.log[j] == h.log[j]; }
    }
  }

  lemma StepKeepsInv(ttl: int, h: History, e: Event)
    requires Inv(ttl, h)
    ensures Inv(ttl, Step(ttl, h, e))
  {
    var g := Step(ttl, h, e);
    if e.Put? && e.k < |h.flights| && h.flights[e.k].Fetching? {
      var m := h.(flights := h.flights[e.k := Over]);
      FlightsStay(h, e);
      SameStore(ttl, h, m);
      if !e.setFails && ttl > 0 { PutKeepsInv(ttl, m, h.flights[e.k]); }
    } else {
      FlightsStay(h, e);
      assert g.log == h.log && g.store.items == h.store.items && h.store.now <= g.store.now;
      forall k | 0 <= k < |g.flights| ensures FlightOk(g, g.flights[k]) {
        StepFlight(ttl, h, e, k);
      }
      SameStore(ttl, h, g);
    }
  }

  lemma FlightsStay(h: History, e: Event)
    requires forall k :: 0 <= k < |h.flights| ==> FlightOk(h, h.flights[k])
    ensures e.Put? && e.k < |h.flights| ==>
      var m := h.(flights := h.flights[e.k := Over]);
      forall k :: 0 <= k < |m.flights| ==> FlightOk(m, m.flights[k])
  {
  }

  lemma StepFlight(ttl: int, h: History, e: Event, k: nat)
    requires forall k :: 0 <= k < |h.flights| ==> FlightOk(h, h.flights[k])
    requires k < |Step(ttl, h, e).flights|
    ensures FlightOk(Step(ttl, h, e), Step(ttl, h, e).flights[k])
  {
    if k < |h.flights| { assert FlightOk(h, h.flights[k]); }
  }

  /** Entries stay backed while the store and the log stay as they are. */
  lemma SameStore(ttl: int, h: History, g: History)
    requires Inv(ttl, h) && g.log == h.log && g.store.items == h.store.items && h.store.now <= g.store.now
    requires forall k :: 0 <= k < |g.flights| ==> FlightOk(g, g.flights[k])
    ensures Inv(ttl, g)
  {
    forall key | key in g.store.items ensures exists k :: Backed(ttl, g, key, k) {
      var k :| Backed(ttl, h, key, k);
      assert Backed(ttl, g, key, k);
    }
    forall k | 0 <= k < |g.log| ensures RecordOk(g, g.log[k]) { assert RecordOk(h, h.log[k]); }
  }

  lemma {:induction false} RunKeepsInv(ttl: int, h: History, es: Events)
    requires Inv(ttl, h)
    ensures Inv(ttl, Run(ttl, h, es))
  {
    if es.Then? {
      RunKeepsInv(ttl, h, es.before);
      StepKeepsInv(ttl, Run(ttl, h, es.before), es.e);
    }
  }

  /** The answer is the recorded fetch, marked, for the same request and still fresh;
      unless its bytes do not decode. */
  predicate Answering(ttl: int, h: History, req: Request, get: GetOutcome, r: Record)
    requires IsHit(h, req, get)
  {
    && r.req == req && r.fetchedAt <= r.storedAt <= h.store.now < r.storedAt + ttl
    && HitAnswer(h, req, get) == if get.Garbled? then Fails(Undecodable) else Fares(Marked(r.fares))
  }

  /** Main result: after every history of searches side by side, clock advances, provider
      changes and cache failures, a hit is, apart from the mark, the latest stored
      fetch for exactly the same request, stored less than one TTL ago. */
  lemma HitsAreFetches(ttl: int, now: int, es: Events, h: History, req: Request, get: GetOutcome)
    requires h == Run(ttl, Fresh(now), es) && IsHit(h, req, get)
    ensures exists k :: 0 <= k < |h.log| && Latest(h.log, k) && Answering(ttl, h, req, get, h.log[k])
  {
    RunKeepsInv(ttl, Fresh(now), es);
    var k :| Backed(ttl, h, FareKey(req), k);
    assert RecordOk(h, h.log[k]);
    FareKeyInjective(h.log[k].req, req);
    assert Answering(ttl, h, req, get, h.log[k]);
  }

  /** The event puts no older fetch than those of its request already stored. */
  predicate PutsInOrder(h: History, e: Event) {
    e.Put? && !e.setFails && e.k < |h.flights| && h.flights[e.k].Fetching? ==>
      forall j :: 0 <= j < |h.log| && h.log[j].req == h.flights[e.k].req ==> h.log[j].fetchedAt <= h.flights[e.k].at
  }

  predicate RunPutsInOrder(ttl: int, h: History, es: Events) {
    match es
    case NoEvents => true
    case Then(before, e) => RunPutsInOrder(ttl, h, before) && PutsInOrder(Run(ttl, h, before), e)
  }

  /** Of two records of a request the later stored was fetched no earlier. */
  predicate FetchOrder(log: seq<Record>) {
    forall i, j :: 0 <= i < j < |log| && log[i].req == log[j].req ==> log[i].fetchedAt <= log[j].fetchedAt
  }

  lemma {:induction false} RunKeepsOrder(ttl: int, h: History, es: Events)
    requires FetchOrder(h.log) && RunPutsInOrder(ttl, h, es)
    ensures FetchOrder(Run(ttl, h, es).log)
  {
    if es.Then? {
      RunKeepsOrder(ttl, h, es.before);
      StepKeepsOrder(ttl, Run(ttl, h, es.before), es.e);
    }
  }

  lemma StepKeepsOrder(ttl: int, h: History, e: Event)
    requires FetchOrder(h.log) && PutsInOrder(h, e)
    ensures FetchOrder(Step(ttl, h, e).log)
  {
  }

  /** Each latest record is what the cache holds for its request. */
  predicate LogBacked(ttl: int, h: History) {
    forall k :: 0 <= k < |h.log| && Latest(h.log, k) ==> Backed(ttl, h, FareKey(h.log[k].req), k)
  }

  lemma PutKeepsBacked(ttl: int, h: History, f: Flight)
    requires Inv(ttl, h) && LogBacked(ttl, h) && f.Fetching? && FlightOk(h, f) && ttl > 0
    ensures LogBacked(ttl, Kept(ttl, h, f))
  {
    var g := Kept(ttl, h, f);
    forall k | 0 <= k < |g.log| && Latest(g.log, k) ensures Backed(ttl, g, FareKey(g.log[k].req), k) {
      if k < |h.log| {
        assert g.log[k] == h.log[k] && g.log[|h.log|].req == f.req;
        assert RecordOk(h, h.log[k]);
        if FareKey(h.log[k].req) == FareKey(f.req) { FareKeyInjective(h.log[k].req, f.req); }
        EarlierLatest(h.log, g.log, k);
        OthersBacked(ttl, h, f, FareKey(h.log[k].req), k);
      }
    }
  }

  lemma EarlierLatest(log: seq<Record>, more: seq<Record>, k: nat)
    requires log <= more && k < |log| && Latest(more, k)
    ensures Latest(log, k)
  {
    forall j | k < j < |log| ensures log[j].req != log[k].req { assert more[j] == log[j] && more[k] == log[k]; }
  }

  lemma StepKeepsBacked(ttl: int, h: History, e: Event)
    requires Inv(ttl, h) && LogBacked(ttl, h)
    ensures LogBacked(ttl, Step(ttl, h, e))
  {
    if e.Put? && e.k < |h.flights| && h.flights[e.k].Fetching? {
      var m := h.(flights := h.flights[e.k := Over]);
      FlightsStay(h, e);
      SameStore(ttl, h, m);
      BackedSame(ttl, h, m);
      if !e.setFails && ttl > 0 { PutKeepsBacked(ttl, m, h.flights[e.k]); }
    } else {
      BackedSame(ttl, h, Step(ttl, h, e));
    }
  }

  lemma BackedSame(ttl: int, h: History, g: History)
    requires LogBacked(ttl, h) && g.log == h.log && g.store.items == h.store.items
    ensures LogBacked(ttl, g)
  {
    forall k | 0 <= k < |g.log| && Latest(g.log, k) ensures Backed(ttl, g, FareKey(g.log[k].req), k) {
      assert Backed(ttl, h, FareKey(h.log[k].req), k);
    }
  }

  lemma {:induction false} RunKeepsBacked(ttl: int, h: History, es: Events)
    requires Inv(ttl, h) && LogBacked(ttl, h)
    ensures LogBacked(ttl, Run(ttl, h, es))
  {
    if es.Then? {
      RunKeepsBacked(ttl, h, es.before);
      RunKeepsInv(ttl, h, es.before);
      StepKeepsBacked(ttl, Run(ttl, h, es.before), es.e);
    }
  }

  /** Main result, the converse of HitsAreFetches: a request whose latest stored fetch is
      less than one TTL old is a hit, unless the lookup fails, and is answered with it. */
  lemma FreshFetchesHit(ttl: int, now: int, es: Events, h: History, k: nat, get: GetOutcome)
    requires h == Run(ttl, Fresh(now), es) && k < |h.log| && Latest(h.log, k)
    requires h.store.now < h.log[k].storedAt + ttl && !get.Misses?
    ensures IsHit(h, h.log[k].req, get)
    ensures HitAnswer(h, h.log[k].req, get)
            == if get.Garbled? then Fails(Undecodable) else Fares(Marked(h.log[k].fares))
  {
    RunKeepsInv(ttl, Fresh(now), es);
    RunKeepsBacked(ttl, Fresh(now), es);
    assert Backed(ttl, h, FareKey(h.log[k].req), k) && RecordOk(h, h.log[k]);
  }

  /** A marked answer is the fares with the cached flag set and nothing else changed. */
  lemma MarkedExactly(fares: seq<Fare>)
    ensures |Marked(fares)| == |fares|
    ensures forall i :: 0 <= i < |fares| ==>
      && Marked(fares)[i].cached && Marked(fares)[i].price == fares[i].price
      && Marked(fares)[i].detail == fares[i].detail
  {
  }

  /** What counts as a valid request: three capital letters, twice, and a date. */
  lemma ValidRequestExactly(req: Request)
    ensures ValidRequest(req) <==>
      && |req.origin| == 3 && (forall i :: 0 <= i < 3 ==> 'A' <= req.origin[i] <= 'Z')
      && |req.destination| == 3 && (forall i :: 0 <= i < 3 ==> 'A' <= req.destination[i] <= 'Z')
      && Calendar.Parse(req.date).Some?
  {
  }

  /** Main result: when the puts of each request come in the order of its fetches, a hit
      is the latest fetch among the stored ones of its request. */
  lemma HitsAreNewest(ttl: int, now: int, es: Events, h: History, req: Request, get: GetOutcome)
    requires h == Run(ttl, Fresh(now), es) && IsHit(h, req, get) && RunPutsInOrder(ttl, Fresh(now), es)
    ensures exists k :: 0 <= k < |h.log| && Answering(ttl, h, req, get, h.log[k]) && Newest(h.log, k)
  {
    HitsAreFetches(ttl, now, es, h, req, get);
    var k :| 0 <= k < |h.log| && Latest(h.log, k) && Answering(ttl, h, req, get, h.log[k]);
    RunKeepsOrder(ttl, Fresh(now), es);
    LatestIsNewest(h.log, k);
  }

  lemma LatestIsNewest(log: seq<Record>, k: nat)
    requires k < |log| && Latest(log, k) && FetchOrder(log)
    ensures Newest(log, k)
  {
    forall j | 0 <= j < |log| && log[j].req == log[k].req ensures log[j].fetchedAt <= log[k].fetchedAt {
      assert j <= k;
    }
  }

  /** No stored fetch of the request is newer. */
  predicate Newest(log: seq<Record>, k: nat)
    requires k < |log|
  {
    forall j :: 0 <= j < |log| && log[j].req == log[k].req ==> log[j].fetchedAt <= log[k].fetchedAt
  }

  /** Two searches for the same request have missed; the first has been answered first. */
  lemma BothAnswered(ttl: int, now: int, req: Request, first: seq<Fare>, second: seq<Fare>) returns (es: Events)
    requires ValidRequest(req)
    ensures Run(ttl, Fresh(now), es)
            == History(Store(now + 1, map[]), [Fetching(req, first, now), Fetching(req, second, now + 1)], [])
  {
    es := Then(NoEvents, Begin(req, Answers));
    assert Run(ttl, Fresh(now), es) == Fresh(now).(flights := [Asking(req)]);
    es := Then(es, Begin(req, Answers));
    assert Run(ttl, Fresh(now), es) == Fresh(now).(flights := [Asking(req), Asking(req)]);
    es := Then(es, Fetch(0, Fares(first)));
    assert Run(ttl, Fresh(now), es) == Fresh(now).(flights := [Fetching(req, first, now), Asking(req)]);
    es := Then(es, Advance(1));
    es := Then(es, Fetch(1, Fares(second)));
  }

  /** Latest stored is not latest fetched: with searches side by side an older fetch can
      take the place of a newer one, for every valid request and any two answers. */
  lemma OlderOverNewer(ttl: int, now: int, req: Request, first: seq<Fare>, second: seq<Fare>)
    returns (es: Events, h: History)
    requires ValidRequest(req) && ttl > 0
    ensures h == Run(ttl, Fresh(now), es)
    ensures h.log == [Record(req, second, now + 1, now + 1), Record(req, first, now, now + 1)]
    ensures IsHit(h, req, Answers) && HitAnswer(h, req, Answers) == Fares(Marked(first))
  {
    es := BothAnswered(ttl, now, req, first, second);
    var h0 := Run(ttl, Fresh(now), es);
    var h1 := Step(ttl, h0, Put(1, false));
    assert h1.flights[0] == Fetching(req, first, now);
    es := Then(Then(es, Put(1, false)), Put(0, false));
    h := Step(ttl, h1, Put(0, false));
  }

  /** One search with nothing in between; its number is the next. */
  function SearchAlone(ttl: int, h: History, req: Request, get: GetOutcome, fetched: Answer, setFails: bool): History {
    var k := |h.flights|;
    Step(ttl, Step(ttl, Step(ttl, h, Begin(req, get)), Fetch(k, fetched)), Put(k, setFails))
  }

  /** What one search answers whose fetch, if it comes to one, gives `fetched`. */
  function AnswerOf(h: History, req: Request, get: GetOutcome, fetched: Answer): Answer {
    if !ValidRequest(req) then Fails(InvalidInput)
    else if IsHit(h, req, get) then HitAnswer(h, req, get)
    else fetched
  }

  /** What a search alone leaves behind. */
  lemma SearchLeaves(ttl: int, h: History, req: Request, get: GetOutcome, fetched: Answer, setFails: bool)
    ensures var g := SearchAlone(ttl, h, req, get, fetched, setFails);
      if !ValidRequest(req) || IsHit(h, req, get) then g == h
      else
        var m := h.(flights := h.flights + [Over]);
        g == if fetched.Fails? || setFails || ttl <= 0 then m
             else Kept(ttl, m, Fetching(req, fetched.fares, h.store.now))
  {
    if ValidRequest(req) && !IsHit(h, req, get) {
      var k, fs := |h.flights|, h.flights;
      assert (fs + [Asking(req)])[k := Over] == fs + [Over];
      if fetched.Fares? {
        var f := Fetching(req, fetched.fares, h.store.now);
        assert (fs + [Asking(req)])[k := f] == fs + [f];
        assert (fs + [f])[k := Over] == fs + [Over];
      }
    }
  }

  // ---------------------------------------------------------------- the classes

  class InMemoryCache {
    var now: int
    var items: map<string, Entry>

    function Contents(): Store
      reads this
    {
      Store(now, items)
    }

    constructor (now: int)
      ensures Contents() == Store(now, map[])
    {
      this.now, items := now, map[];
    }

    method Get(key: string) returns (value: Option<seq<Fare>>)
      ensures value == Lookup(Contents(), key)
    {
      if key !in items {
        return None;
      }
      if items[key].expiresAt > now {
        return Some(items[key].value);
      }
      value := None;
    }

    method Set(key: string, value: seq<Fare>, ttl: int)
      modifies this`items
      ensures Contents() == Stored(old(Contents()), key, value, ttl)
    {
      if ttl <= 0 {
        return;
      }
      items := items[key := Entry(value, now + ttl)];
    }

    method Advance(d: nat)
      modifies this`now
      ensures Contents() == old(Contents()).(now := old(now) + d)
    {
      now := now + d;
    }
  }

  class Travelpayouts {
    const cache: InMemoryCache
    const ttl: int
    ghost var flights: seq<Flight>
    ghost var log: seq<Record>

    constructor (cache: InMemoryCache, ttl: int)
      ensures this.cache == cache && this.ttl == ttl && log == [] && flights == []
    {
      this.cache, this.ttl, flights, log := cache, ttl, [], [];
    }

    ghost function Past(): History
      reads this, cache
    {
      History(cache.Contents(), flights, log)
    }

    /** One search, no other in between.  `exact` and `month` are the provider's answers
        should they be asked; the returned `fetched` is what the fetch, if there is
        one, made of them. */
    method Search(req: Request, exact: Answer, month: Answer, get: GetOutcome, setFails: bool)
      returns (r: Answer, ghost fetched: Answer)
      modifies this, cache`items
      ensures !ValidRequest(req) || IsHit(old(Past()), req, get) || Fetched(exact, month, fetched)
      ensures r == AnswerOf(old(Past()), req, get, fetched)
      ensures r == Fails(InvalidInput) <== !ValidRequest(req)
      ensures ValidRequest(req) && !IsHit(old(Past()), req, get) ==> r == fetched && Fetched(exact, month, r)
      ensures Past() == SearchAlone(ttl, old(Past()), req, get, fetched, setFails)
    {
      fetched := exact;
      if !ValidRequest(req) {
        return Fails(InvalidInput), fetched;
      }
      var key := FareKey(req);
      if !get.Misses? {
        var value := cache.Get(key);
        if value.Some? {
          if get.Garbled? {
            return Fails(Undecodable), fetched;
          }
          var out: seq<Fare> := value.value;
          for i := 0 to |out|
            invariant |out| == |value.value|
            invariant forall k :: 0 <= k < |out| ==>
              out[k] == if k < i then value.value[k].(cached := true) else value.value[k]
          {
            out := out[i := out[i].(cached := true)];
          }
          assert out == Marked(value.value);
          return Fares(out), fetched;
        }
      }
      var fares := FetchWithFallback(exact, month);
      fetched := fares;
      SearchLeaves(ttl, Past(), req, get, fetched, setFails);
      flights := flights + [Over];
      if fares.Fails? {
        return fares, fetched;
      }
      if !setFails {
        if ttl > 0 { log := log + [Record(req, fares.fares, cache.now, cache.now)]; }
        cache.Set(key, fares.fares, ttl);
      }
      r := fares;
    }
  }
}
