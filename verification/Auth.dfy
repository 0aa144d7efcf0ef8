/** The token and session stores over Redis, and the callback, in their own,
    sequential form; each call is one schedule of the machines of RateWindow and
    SingleUse. */
module Auth {
  import opened Wrappers
  import R = RateWindow
  import S = SingleUse

  /** A command succeeds, is lost, or takes effect without its answer arriving. */
  datatype Fault = NoFault | Lost | Applied

  /** Counters live under `authrate:`, tokens and sessions under their own prefixes. */
  class Redis {
    var now: int
    var counters: map<string, R.Key>
    var items: S.Keyspace

    constructor (now: int)
      ensures this.now == now && counters == map[] && items == map[]
    {
      this.now, counters, items := now, map[], map[];
    }

    function CounterOf(key: string): Option<R.Key>
      reads this
    {
      if key in counters then Some(counters[key]) else None
    }

    method Incr(key: string, f: Fault) returns (n: Option<nat>)
      modifies this`counters
      ensures f.Lost? ==> counters == old(counters)
      ensures !f.Lost? ==>
        && key in counters && counters == old(counters)[key := counters[key]]
        && counters[key] == (if key in old(counters)
                                && (old(counters)[key].expiry.Some? ==> now <= old(counters)[key].expiry.value)
                             then old(counters)[key].(count := old(counters)[key].count + 1) else R.Key(1, None))
      ensures n == if f.NoFault? then Some(counters[key].count) else None
    {
      if f.Lost? {
        return None;
      }
      if key in counters && (counters[key].expiry.Some? ==> now <= counters[key].expiry.value) {
        counters := counters[key := counters[key].(count := counters[key].count + 1)];
      } else {
        counters := counters[key := R.Key(1, None)];
      }
      n := if f.NoFault? then Some(counters[key].count) else None;
    }

    method Expire(key: string, ttl: int, f: Fault) returns (ok: bool)
      modifies this`counters
      ensures ok == f.NoFault?
      ensures counters == if f.Lost? || key !in old(counters)
                             || (old(counters)[key].expiry.Some? && now > old(counters)[key].expiry.value)
                          then old(counters)
                          else old(counters)[key := old(counters)[key].(expiry := Some(now + ttl))]
    {
      if !f.Lost? && key in counters && (counters[key].expiry.Some? ==> now <= counters[key].expiry.value) {
        counters := counters[key := counters[key].(expiry := Some(now + ttl))];
      }
      ok := f.NoFault?;
    }

    method Set(key: string, v: S.Value, ttl: int, f: Fault) returns (ok: bool)
      modifies this`items
      ensures ok == f.NoFault?
      ensures items == if f.Lost? then old(items) else old(items)[key := S.Entry(v, now + ttl)]
    {
      if !f.Lost? {
        items := items[key := S.Entry(v, now + ttl)];
      }
      ok := f.NoFault?;
    }

    /** GET and DEL in one script. */
    method Take(key: string, f: Fault) returns (v: Option<S.Value>, ok: bool)
      modifies this`items
      ensures ok == f.NoFault?
      ensures items == if f.Lost? then old(items) else S.Taken(old(items), now, key)
      ensures v == if f.NoFault? && S.Alive(old(items), now, key) then Some(old(items)[key].value) else None
    {
      v := if f.NoFault? && S.Alive(items, now, key) then Some(items[key].value) else None;
      if !f.Lost? && S.Alive(items, now, key) {
        items := items - {key};
      }
      ok := f.NoFault?;
    }

    method Del(key: string)
      modifies this`items
      ensures items == old(items) - {key}
    {
      items := items - {key};
    }
  }

  datatype IssueResult = IssuedToken(token: string) | RateLimited | IssueFails

  datatype IssueFaults = IssueFaults(incr: Fault, expire: Fault, store: Fault)

  datatype ConsumeResult = Consumed(email: string) | NotFound | ConsumeFails

  function RateKey(email: string): string { "authrate:" + email }

  /** The count an INCR gets. */
  function NextCount(c: R.Counter): nat {
    if R.Present(c) then c.key.value.count + 1 else 1
  }

  /** The commands of one Issue on the email's counter: INCR, and EXPIRE by the caller
      that saw 1. */
  function IssueEvents(c: R.Counter, f: IssueFaults): R.Events {
    if f.incr.Lost? then R.NoEvents
    else
      var incr := R.Then(R.NoEvents, R.Incr(f.incr.NoFault?));
      if f.incr.NoFault? && NextCount(c) == 1 then R.Then(incr, R.Event.Expire(!f.expire.Lost?)) else incr
  }

  /** The call got an answer to INCR, and to EXPIRE if it had to set one. */
  predicate Admitted(c: R.Counter, f: IssueFaults) {
    f.incr.NoFault? && (NextCount(c) == 1 ==> f.expire.NoFault?)
  }

  /** The events of one Callback: the consume script, and, once it has answered with
      an email, the session. */
  function CallbackEvents(hash: S.Hash, s: S.Auth, token: string, sid: string, f: Fault, g: Fault): S.Events {
    if token == "" || f.Lost? then S.NoEvents
    else
      var consume := S.Then(S.NoEvents, S.Event.Consume(token, f.NoFault?));
      if !f.NoFault? || S.EmailAt(s.items, s.now, S.TokenKey(hash, token)).None? then consume
      else S.Then(consume, if g.Lost? then S.Abandon(|s.uses|) else S.Event.Create(|s.uses|, sid))
  }

  /** One more event of the counter machine. */
  lemma CounterStep(c: R.Counter, es: R.Events, d: R.Counter, e: R.Event) returns (es': R.Events, d': R.Counter)
    requires R.Run(c, es) == Some(d) && R.Step(d, e).Some?
    ensures es' == R.Then(es, e) && R.Run(c, es') == Some(d') && d' == R.Step(d, e).value
  {
    es', d' := R.Then(es, e), R.Step(d, e).value;
  }

  /** One more event of the token machine. */
  lemma TokenStep(hash: S.Hash, s: S.Auth, es: S.Events, t: S.Auth, e: S.Event) returns (es': S.Events, t': S.Auth)
    requires S.Run(hash, s, es) == Some(t) && S.Step(hash, t, e).Some?
    ensures es' == S.Then(es, e) && S.Run(hash, s, es') == Some(t') && t' == S.Step(hash, t, e).value
  {
    es', t' := S.Then(es, e), S.Step(hash, t, e).value;
  }

  class TokenStore {
    const redis: Redis
    const limit: nat
    const hash: S.Hash

    constructor (redis: Redis, limit: nat, hash: S.Hash)
      ensures this.redis == redis && this.limit == limit && this.hash == hash
    {
      this.redis, this.limit, this.hash := redis, limit, hash;
    }

    /** `token` is the fresh random token.  The counter takes exactly the steps of
        IssueEvents; the token is stored, as the token machine's Issue stores it,
        exactly when the call got past the counter and the limit. */
    method Issue(email: string, token: string, f: IssueFaults, ghost c: R.Counter, ghost s: S.Auth)
      returns (r: IssueResult, ghost es: R.Events, ghost d: R.Counter)
      requires c.now == redis.now && c.key == redis.CounterOf(RateKey(email))
      requires c.key.Some? ==> c.key.value.count >= 1
      requires s.now == redis.now && s.items == redis.items && token !in s.issued
      modifies redis`counters, redis`items
      ensures es == IssueEvents(c, f) && R.Run(c, es) == Some(d) && d.now == c.now && d.owed == c.owed
      ensures redis.CounterOf(RateKey(email)) == d.key
      ensures forall k :: k != RateKey(email) ==> redis.CounterOf(k) == old(redis.CounterOf(k))
      ensures f.incr.NoFault? ==>
        |d.hits| == |c.hits| + 1 && (R.Passes(d.hits[|c.hits|], limit) <==> NextCount(c) <= limit)
      ensures r.RateLimited? <==> Admitted(c, f) && limit > 0 && !R.Passes(d.hits[|c.hits|], limit)
      ensures r.IssueFails? <==>
        || !f.incr.NoFault?
        || (d.hits[|c.hits|].count == 1 && !f.expire.NoFault?)
        || (!r.RateLimited? && !f.store.NoFault?)
      ensures r.IssuedToken? <==> Admitted(c, f) && !r.RateLimited? && f.store.NoFault?
      ensures r.IssuedToken? ==> r.token == token
      ensures redis.items == if Admitted(c, f) && !r.RateLimited? && !f.store.Lost?
        then S.Step(hash, s, S.Event.Issue(token, email)).value.items else old(redis.items)
    {
      es, d := R.NoEvents, c;
      var n := redis.Incr(RateKey(email), f.incr);
      if !f.incr.Lost? {
        es, d := CounterStep(c, es, d, R.Incr(f.incr.NoFault?));
      }
      if n.None? {
        return IssueFails, es, d;
      }
      if n.value == 1 {
        var ok := redis.Expire(RateKey(email), R.DAY, f.expire);
        es, d := CounterStep(c, es, d, R.Event.Expire(!f.expire.Lost?));
        if !ok {
          return IssueFails, es, d;
        }
      }
      if limit > 0 && n.value > limit {
        return RateLimited, es, d;
      }
      var stored := redis.Set(S.TokenKey(hash, token), S.TokenFor(email), S.TOKEN_TTL, f.store);
      r := if stored then IssuedToken(token) else IssueFails;
    }

    method Consume(token: string, f: Fault) returns (r: ConsumeResult)
      modifies redis`items
      ensures redis.items == if f.Lost? then old(redis.items)
        else S.Taken(old(redis.items), redis.now, S.TokenKey(hash, token))
      ensures !f.NoFault? <==> r.ConsumeFails?
      ensures f.NoFault? ==>
        r == match S.EmailAt(old(redis.items), redis.now, S.TokenKey(hash, token))
             case None => NotFound
             case Some(email) => Consumed(email)
    {
      var v, ok := redis.Take(S.TokenKey(hash, token), f);
      if !ok {
        return ConsumeFails;
      }
      if v.None? || v.value.email == "" {
        return NotFound;
      }
      r := Consumed(v.value.email);
    }
  }

  class SessionStore {
    const redis: Redis

    constructor (redis: Redis)
      ensures this.redis == redis
    {
      this.redis := redis;
    }

    /** `sid` is the fresh random session id. */
    method Create(email: string, sid: string, f: Fault) returns (ok: bool)
      modifies redis`items
      ensures ok == f.NoFault?
      ensures redis.items == if f.Lost? then old(redis.items)
        else old(redis.items)[S.SessionKey(sid) := S.Entry(S.Session(email, redis.now), redis.now + S.SESSION_TTL)]
    {
      ok := redis.Set(S.SessionKey(sid), S.Session(email, redis.now), S.SESSION_TTL, f);
    }

    method Get(sid: string) returns (session: Option<S.Value>)
      ensures session == if S.Alive(redis.items, redis.now, S.SessionKey(sid))
                         then Some(redis.items[S.SessionKey(sid)].value) else None
    {
      session := if S.Alive(redis.items, redis.now, S.SessionKey(sid))
        then Some(redis.items[S.SessionKey(sid)].value) else None;
    }

    method Delete(sid: string)
      modifies redis`items
      ensures redis.items == old(redis.items) - {S.SessionKey(sid)}
    {
      redis.Del(S.SessionKey(sid));
    }
  }

  datatype CallbackResult = LoggedIn(sid: string, email: string) | MissingToken | InvalidLink | Internal

  class AuthHandlers {
    const redis: Redis
    const tokens: TokenStore
    const sessions: SessionStore

    constructor (tokens: TokenStore, sessions: SessionStore)
      requires tokens.redis == sessions.redis
      ensures this.tokens == tokens && this.sessions == sessions && redis == tokens.redis
    {
      this.tokens, this.sessions, this.redis := tokens, sessions, tokens.redis;
    }

    /** One callback is a schedule of the token machine: it logs in exactly when its
        consume is answered with an email and its session is stored. */
    method Callback(token: string, sid: string, f: Fault, g: Fault, ghost s: S.Auth)
      returns (r: CallbackResult, ghost es: S.Events, ghost t: S.Auth)
      requires tokens.redis == redis && sessions.redis == redis
      requires s.now == redis.now && s.items == redis.items && !S.SidTaken(s.openings, sid) && |s.uses| !in s.pending
      modifies redis`items
      ensures es == CallbackEvents(tokens.hash, s, token, sid, f, g)
      ensures S.Run(tokens.hash, s, es) == Some(t) && t.items == redis.items && t.pending == s.pending
      ensures r.MissingToken? <==> token == ""
      ensures r.InvalidLink? <==>
        token != "" && f.NoFault? && S.EmailAt(s.items, s.now, S.TokenKey(tokens.hash, token)).None?
      ensures r.LoggedIn? <==>
        && token != "" && f.NoFault? && g.NoFault?
        && S.EmailAt(s.items, s.now, S.TokenKey(tokens.hash, token)).Some?
      ensures r.LoggedIn? ==>
        && r.sid == sid && S.EmailAt(s.items, s.now, S.TokenKey(tokens.hash, token)) == Some(r.email)
        && t.uses == s.uses + [S.Use(token, r.email, s.now)]
        && t.openings == s.openings + [S.Opened(sid, |s.uses|, s.now)]
    {
      es, t := S.NoEvents, s;
      if token == "" {
        return MissingToken, es, t;
      }
      var c := tokens.Consume(token, f);
      if !f.Lost? {
        es, t := TokenStep(tokens.hash, s, es, t, S.Event.Consume(token, f.NoFault?));
      }
      if !c.Consumed? {
        return if c.NotFound? then InvalidLink else Internal, es, t;
      }
      var ok := sessions.Create(c.email, sid, g);
      ghost var e := if g.Lost? then S.Abandon(|s.uses|) else S.Event.Create(|s.uses|, sid);
      es, t := TokenStep(tokens.hash, s, es, t, e);
      r := if ok then LoggedIn(sid, c.email) else Internal;
    }
  }
}
