/** The per-email counter behind magic links: INCR, then EXPIRE by the caller that
    saw 1, any number of callers interleaved, the clock advancing in between. */
module RateWindow {
  import opened Wrappers

  /** Milliseconds of the rate-limit window. */
  const DAY := 86_400_000

  /** The counter key; without an expiry it stays for good. */
  datatype Key = Key(count: nat, expiry: Option<int>)

  /** One INCR: when, in which lifetime of the key, what it returned, and whether the
      answer arrived. */
  datatype Hit = Hit(time: int, life: nat, count: nat, acked: bool)

  /** `owed` callers saw 1 and have not run their EXPIRE yet; `life` numbers the
      key's lifetimes and `born` is when the latest began. */
  datatype Counter = Counter(now: int, key: Option<Key>, owed: nat, life: nat, born: int, hits: seq<Hit>)

  datatype Event =
    | Tick(dt: nat)
    | Incr(acked: bool)
    | Expire(applied: bool)   // the EXPIRE of a caller that saw 1; may be lost

  function Start(now: int): Counter { Counter(now, None, 0, 0, now, []) }

  /** Redis drops a key once its time is over. */
  predicate Present(c: Counter) {
    c.key.Some? && (c.key.value.expiry.Some? ==> c.now <= c.key.value.expiry.value)
  }

  function Step(c: Counter, e: Event): Option<Counter> {
    match e
    case Tick(dt) => Some(c.(now := c.now + dt))
    case Incr(acked) =>
      if Present(c) then
        var n := c.key.value.count + 1;
        Some(c.(key := Some(c.key.value.(count := n)), hits := c.hits + [Hit(c.now, c.life, n, acked)]))
      else
        Some(c.(key := Some(Key(1, None)), owed := c.owed + if acked then 1 else 0,
                life := c.life + 1, born := c.now, hits := c.hits + [Hit(c.now, c.life + 1, 1, acked)]))
    case Expire(applied) =>
      if c.owed == 0 then None
      else if applied && Present(c) then
        Some(c.(owed := c.owed - 1, key := Some(c.key.value.(expiry := Some(c.now + DAY)))))
      else Some(c.(owed := c.owed - 1))
  }

  datatype Events = NoEvents | Then(before: Events, e: Event)

  function Run(c: Counter, es: Events): Option<Counter> {
    match es
    case NoEvents => Some(c)
    case Then(before, e) =>
      var m := Run(c, before);
      if m.None? then None else Step(m.value, e)
  }

  /** The call got past the limit. */
  predicate Passes(h: Hit, limit: nat) { h.acked && h.count <= limit }

  /** How many calls pass in the 24 hours from lo, the end excluded. */
  function PassesIn(hits: seq<Hit>, lo: int, limit: nat): nat {
    if hits == [] then 0
    else
      var h := hits[|hits| - 1];
      PassesIn(hits[..|hits| - 1], lo, limit) + if lo <= h.time < lo + 86_400_000 && Passes(h, limit) then 1 else 0
  }

  // ---------------------------------------------------------------- the log

  /** INCRs of a lifetime. */
  function OfLife(hits: seq<Hit>, life: nat): nat {
    if hits == [] then 0
    else OfLife(hits[..|hits| - 1], life) + if hits[|hits| - 1].life == life then 1 else 0
  }

  /** INCRs of a lifetime with a count between c and limit. */
  function Between(hits: seq<Hit>, life: nat, c: nat, limit: nat): nat {
    if hits == [] then 0
    else
      var h := hits[|hits| - 1];
      Between(hits[..|hits| - 1], life, c, limit) + if h.life == life && c <= h.count <= limit then 1 else 0
  }

  /** The counter counts. */
  predicate Counted(hits: seq<Hit>) {
    hits != [] ==>
      Counted(hits[..|hits| - 1]) && hits[|hits| - 1].count == OfLife(hits, hits[|hits| - 1].life)
  }

  /** Time and lifetimes go forward, and a lifetime in between takes over a day. */
  predicate Spaced(hits: seq<Hit>) {
    forall i, j :: 0 <= i < j < |hits| ==>
      && hits[i].time <= hits[j].time
      && hits[i].life <= hits[j].life
      && (hits[i].life + 2 <= hits[j].life ==> hits[i].time + DAY < hits[j].time)
      && (hits[i].life < hits[j].life && hits[i].count == 1 ==> hits[i].time + DAY < hits[j].time)
  }

  /** What the present state says about an earlier hit. */
  predicate HitOk(c: Counter, h: Hit) {
    && h.time <= c.now && h.life <= c.life
    && (h.life < c.life ==> h.time <= c.born)
    && (h.life == c.life ==> c.born <= h.time && (h.count == 1 ==> h.time == c.born))
    && (h.life + 2 <= c.life ==> h.time + DAY < c.born)
    && (h.life < c.life && h.count == 1 ==> h.time + DAY < c.born)
  }

  predicate Inv(c: Counter) {
    && c.born <= c.now
    && c.owed <= 1
    && (c.owed == 1 ==> c.key.Some? && c.key.value.expiry.None?)
    && (c.key.None? ==> c.hits == [] && c.life == 0)
    && (c.key.Some? ==> 1 <= c.key.value.count == OfLife(c.hits, c.life))
    && (c.key.Some? && c.key.value.expiry.Some? ==> c.born + DAY <= c.key.value.expiry.value)
    && (forall i :: 0 <= i < |c.hits| ==> HitOk(c, c.hits[i]))
    && Counted(c.hits) && Spaced(c.hits)
  }

  lemma {:induction false} FutureLife(hits: seq<Hit>, life: nat)
    requires forall i :: 0 <= i < |hits| ==> hits[i].life < life
    ensures OfLife(hits, life) == 0
  {
    if hits != [] { FutureLife(hits[..|hits| - 1], life); }
  }

  lemma IncrHits(c: Counter, acked: bool)
    requires Inv(c)
    ensures var d := Step(c, Incr(acked)).value;
      forall i :: 0 <= i < |d.hits| ==> HitOk(d, d.hits[i])
  {
    var d := Step(c, Incr(acked)).value;
    forall i | 0 <= i < |d.hits| ensures HitOk(d, d.hits[i]) {
      if i < |c.hits| { assert HitOk(c, c.hits[i]); }
    }
  }

  lemma IncrCounts(c: Counter, acked: bool)
    requires Inv(c)
    ensures var d := Step(c, Incr(acked)).value;
      Counted(d.hits) && d.key.value.count == OfLife(d.hits, d.life)
  {
    var d := Step(c, Incr(acked)).value;
    assert d.hits[..|c.hits|] == c.hits;
    if !Present(c) {
      forall i | 0 <= i < |c.hits| ensures c.hits[i].life < c.life + 1 { assert HitOk(c, c.hits[i]); }
      FutureLife(c.hits, c.life + 1);
    }
  }

  lemma SpacedSnoc(hits: seq<Hit>, h: Hit)
    requires Spaced(hits)
    requires forall i :: 0 <= i < |hits| ==>
      && hits[i].time <= h.time && hits[i].life <= h.life
      && (hits[i].life + 2 <= h.life ==> hits[i].time + DAY < h.time)
      && (hits[i].life < h.life && hits[i].count == 1 ==> hits[i].time + DAY < h.time)
    ensures Spaced(hits + [h])
  {
  }

  lemma IncrKeepsInv(c: Counter, acked: bool)
    requires Inv(c)
    ensures Inv(Step(c, Incr(acked)).value)
  {
    IncrHits(c, acked);
    IncrCounts(c, acked);
    IncrSpaced(c, acked);
    IncrKey(c, acked);
  }

  lemma IncrSpaced(c: Counter, acked: bool)
    requires Inv(c)
    ensures Spaced(Step(c, Incr(acked)).value.hits)
  {
    var d := Step(c, Incr(acked)).value;
    IncrHits(c, acked);
    forall i | 0 <= i < |c.hits| ensures c.hits[i] == d.hits[i] && HitOk(d, c.hits[i]) {
      assert HitOk(d, d.hits[i]);
    }
    SpacedSnoc(c.hits, d.hits[|c.hits|]);
  }

  lemma IncrKey(c: Counter, acked: bool)
    requires Inv(c)
    ensures var d := Step(c, Incr(acked)).value;
      && d.key.Some? && d.key.value.count >= 1 && d.born <= d.now && d.owed <= 1
      && (d.owed == 1 ==> d.key.value.expiry.None?)
      && (d.key.value.expiry.Some? ==> d.born + DAY <= d.key.value.expiry.value)
  {
  }

  lemma StepKeepsInv(c: Counter, e: Event)
    requires Inv(c) && Step(c, e).Some?
    ensures Inv(Step(c, e).value)
  {
    if e.Incr? { IncrKeepsInv(c, e.acked); }
  }

  lemma {:induction false} RunKeepsInv(c: Counter, es: Events)
    requires Inv(c) && Run(c, es).Some?
    ensures Inv(Run(c, es).value)
  {
    if es.Then? {
      RunKeepsInv(c, es.before);
      StepKeepsInv(Run(c, es.before).value, es.e);
    }
  }

  // ---------------------------------------------------------------- the bounds

  /** The counts of a lifetime are 1, 2, ... without gaps. */
  lemma {:induction false} BetweenExact(hits: seq<Hit>, life: nat, c: nat, limit: nat)
    requires Counted(hits) && 1 <= c
    ensures var top := if OfLife(hits, life) < limit then OfLife(hits, life) else limit;
      Between(hits, life, c, limit) == if top < c then 0 else top - c + 1
  {
    if hits != [] { BetweenExact(hits[..|hits| - 1], life, c, limit); }
  }

  lemma {:induction false} WithinTwoLives(hits: seq<Hit>, lo: int, limit: nat, a: nat, c: nat)
    requires forall i :: 0 <= i < |hits| && lo <= hits[i].time < lo + DAY ==>
      (hits[i].life == a && c <= hits[i].count) || (hits[i].life == a + 1 && 1 <= hits[i].count)
    ensures PassesIn(hits, lo, limit) <= Between(hits, a, c, limit) + Between(hits, a + 1, 1, limit)
  {
    if hits != [] { WithinTwoLives(hits[..|hits| - 1], lo, limit, a, c); }
  }

  lemma {:induction false} WithinOneLife(hits: seq<Hit>, lo: int, limit: nat, a: nat)
    requires forall i :: 0 <= i < |hits| && lo <= hits[i].time < lo + DAY ==> hits[i].life == a && 1 <= hits[i].count
    ensures PassesIn(hits, lo, limit) <= Between(hits, a, 1, limit)
  {
    if hits != [] { WithinOneLife(hits[..|hits| - 1], lo, limit, a); }
  }

  lemma {:induction false} CountsPositive(hits: seq<Hit>, i: nat)
    requires Counted(hits) && i < |hits|
    ensures hits[i].count >= 1
  {
    if i < |hits| - 1 { CountsPositive(hits[..|hits| - 1], i); }
  }

  /** How many calls of a lifetime pass. */
  function PassesOfLife(hits: seq<Hit>, life: nat, limit: nat): nat {
    if hits == [] then 0
    else
      var h := hits[|hits| - 1];
      PassesOfLife(hits[..|hits| - 1], life, limit) + if h.life == life && Passes(h, limit) then 1 else 0
  }

  /** Every INCR of the lifetime was answered. */
  predicate Answered(hits: seq<Hit>, life: nat) {
    forall i :: 0 <= i < |hits| && hits[i].life == life ==> hits[i].acked
  }

  lemma {:induction false} PassesBetween(hits: seq<Hit>, life: nat, limit: nat)
    requires forall i :: 0 <= i < |hits| ==> hits[i].count >= 1
    ensures PassesOfLife(hits, life, limit) <= Between(hits, life, 1, limit)
    ensures Answered(hits, life) ==> PassesOfLife(hits, life, limit) == Between(hits, life, 1, limit)
  {
    if hits != [] { PassesBetween(hits[..|hits| - 1], life, limit); }
  }

  /** In a lifetime of the counter at most limit calls pass; when all INCRs are
      answered, the first limit of them do. */
  lemma LifetimeCap(now: int, es: Events, c: Counter, life: nat, limit: nat)
    requires Run(Start(now), es) == Some(c)
    ensures PassesOfLife(c.hits, life, limit) <= limit
    ensures Answered(c.hits, life) ==>
      PassesOfLife(c.hits, life, limit) == if OfLife(c.hits, life) < limit then OfLife(c.hits, life) else limit
  {
    RunKeepsInv(Start(now), es);
    forall i: nat | i < |c.hits| ensures c.hits[i].count >= 1 { CountsPositive(c.hits, i); }
    BetweenExact(c.hits, life, 1, limit);
    PassesBetween(c.hits, life, limit);
  }

  /** Main result: in no 24 hours do more than 2 limit - 1 calls pass, whatever the
      interleaving, the delays before EXPIRE, and the EXPIREs that are lost. */
  lemma WindowCap(now: int, es: Events, c: Counter, lo: int, limit: nat)
    requires limit >= 1 && Run(Start(now), es) == Some(c)
    ensures PassesIn(c.hits, lo, limit) <= 2 * limit - 1
  {
    RunKeepsInv(Start(now), es);
    var hits := c.hits;
    forall i: nat | i < |hits| ensures hits[i].count >= 1 { CountsPositive(hits, i); }
    if i :| 0 <= i < |hits| && lo <= hits[i].time < lo + DAY {
      var f := FirstIn(hits, lo, i);
      WindowFrom(hits, lo, f, limit);
    } else {
      WithinOneLife(hits, lo, limit, 0);
      BetweenExact(hits, 0, 1, limit);
    }
  }

  /** The window whose first hit is f. */
  lemma WindowFrom(hits: seq<Hit>, lo: int, f: nat, limit: nat)
    requires limit >= 1 && Counted(hits) && Spaced(hits)
    requires f < |hits| && lo <= hits[f].time < lo + DAY
    requires forall k :: 0 <= k < f ==> !(lo <= hits[k].time < lo + DAY)
    requires forall i :: 0 <= i < |hits| ==> hits[i].count >= 1
    ensures PassesIn(hits, lo, limit) <= 2 * limit - 1
  {
    var a := hits[f].life;
    BetweenExact(hits, a, 1, limit);
    BetweenExact(hits, a, 2, limit);
    BetweenExact(hits, a + 1, 1, limit);
    if j :| f <= j < |hits| && lo <= hits[j].time < lo + DAY && hits[j].life > a {
      TwoLives(hits, lo, f, j);
      WithinTwoLives(hits, lo, limit, a, 2);
    } else {
      OneLife(hits, lo, f);
      WithinOneLife(hits, lo, limit, a);
    }
  }

  /** When no hit of a later lifetime falls in the window, all are of the first's. */
  lemma OneLife(hits: seq<Hit>, lo: int, f: nat)
    requires Spaced(hits) && f < |hits|
    requires forall k :: 0 <= k < f ==> !(lo <= hits[k].time < lo + DAY)
    requires forall j :: f <= j < |hits| && lo <= hits[j].time < lo + DAY ==> hits[j].life <= hits[f].life
    ensures forall i :: 0 <= i < |hits| && lo <= hits[i].time < lo + DAY ==> hits[i].life == hits[f].life
  {
    forall i | f < i < |hits| ensures hits[i].life >= hits[f].life { SpacedAt(hits, f, i); }
  }

  lemma SpacedAt(hits: seq<Hit>, i: nat, j: nat)
    requires Spaced(hits) && i < j < |hits|
    ensures hits[i].time <= hits[j].time && hits[i].life <= hits[j].life
    ensures hits[i].life + 2 <= hits[j].life ==> hits[i].time + DAY < hits[j].time
    ensures hits[i].life < hits[j].life && hits[i].count == 1 ==> hits[i].time + DAY < hits[j].time
  {
  }

  /** When hits of two lifetimes fall in the window, the first call of the earlier
      one does not, and no third lifetime does. */
  lemma TwoLives(hits: seq<Hit>, lo: int, f: nat, j: nat)
    requires Counted(hits) && Spaced(hits) && f <= j < |hits|
    requires lo <= hits[f].time && hits[j].time < lo + DAY && hits[f].life < hits[j].life
    requires forall k :: 0 <= k < f ==> !(lo <= hits[k].time < lo + DAY)
    requires forall i :: 0 <= i < |hits| ==> hits[i].count >= 1
    ensures forall i :: 0 <= i < |hits| && lo <= hits[i].time < lo + DAY ==>
      (hits[i].life == hits[f].life && 2 <= hits[i].count) || (hits[i].life == hits[f].life + 1 && 1 <= hits[i].count)
  {
    forall i | 0 <= i < |hits| && lo <= hits[i].time < lo + DAY
      ensures (hits[i].life == hits[f].life && 2 <= hits[i].count)
              || (hits[i].life == hits[f].life + 1 && 1 <= hits[i].count)
    {
      if f < i { SpacedAt(hits, f, i); }
      if i < j { SpacedAt(hits, i, j); }
      if j < i { SpacedAt(hits, j, i); }
    }
  }

  lemma {:induction false} FirstIn(hits: seq<Hit>, lo: int, i: nat) returns (f: nat)
    requires i < |hits| && lo <= hits[i].time < lo + DAY
    ensures f < |hits| && lo <= hits[f].time < lo + DAY
    ensures forall k :: 0 <= k < f ==> !(lo <= hits[k].time < lo + DAY)
    decreases i
  {
    if k :| 0 <= k < i && lo <= hits[k].time < lo + DAY {
      f := FirstIn(hits, lo, k);
    } else {
      f := i;
    }
  }

  // ---------------------------------------------------------------- the bound is reached

  lemma PassesSnoc(hits: seq<Hit>, h: Hit, lo: int, limit: nat)
    ensures PassesIn(hits + [h], lo, limit)
            == PassesIn(hits, lo, limit) + if lo <= h.time < lo + DAY && Passes(h, limit) then 1 else 0
  {
    assert (hits + [h])[..|hits|] == hits;
  }

  /** k more answered INCRs on a present key. */
  lemma {:induction false} IncrMany(c0: Counter, es: Events, c: Counter, k: nat, lo: int, limit: nat)
    returns (es': Events, d: Counter)
    requires Run(c0, es) == Some(c) && Present(c)
    requires lo <= c.now < lo + DAY && c.key.value.count + k <= limit
    ensures Run(c0, es') == Some(d) && d.now == c.now && d.owed == c.owed
    ensures d.key == Some(c.key.value.(count := c.key.value.count + k))
    ensures PassesIn(d.hits, lo, limit) == PassesIn(c.hits, lo, limit) + k
  {
    if k == 0 {
      es', d := es, c;
    } else {
      var fs, m := IncrMany(c0, es, c, k - 1, lo, limit);
      d := IncrOnce(m, lo, limit);
      es' := Then(fs, Incr(true));
    }
  }

  /** One answered INCR below the limit passes. */
  lemma IncrOnce(c: Counter, lo: int, limit: nat) returns (d: Counter)
    requires Present(c) && lo <= c.now < lo + DAY && c.key.value.count < limit
    ensures Step(c, Incr(true)) == Some(d) && d.now == c.now && d.owed == c.owed && Present(d)
    ensures d.key == Some(c.key.value.(count := c.key.value.count + 1))
    ensures PassesIn(d.hits, lo, limit) == PassesIn(c.hits, lo, limit) + 1
  {
    d := Step(c, Incr(true)).value;
    PassesSnoc(c.hits, Hit(c.now, c.life, c.key.value.count + 1, true), lo, limit);
  }

  /** Main result: for every limit the bound is reached, by one call, a pause until
      just before the key runs out, limit - 1 calls, and limit calls right after. */
  lemma WindowCapReached(now: int, limit: nat) returns (es: Events, c: Counter, lo: int)
    requires limit >= 1
    ensures Run(Start(now), es) == Some(c)
    ensures PassesIn(c.hits, lo, limit) == 2 * limit - 1
  {
    lo := now + DAY;
    es, c := Opened(now);
    assert PassesIn(c.hits, lo, limit) == 0 by { PassesSnoc([], c.hits[0], lo, limit); }
    es, c := IncrMany(Start(now), es, c, limit - 1, lo, limit);
    es, c := Then(es, Tick(1)), Step(c, Tick(1)).value;
    var d := Step(c, Incr(true)).value;
    PassesSnoc(c.hits, d.hits[|c.hits|], lo, limit);
    es, c := Then(es, Incr(true)), d;
    es, c := IncrMany(Start(now), es, c, limit - 1, lo, limit);
  }

  /** The first call, its EXPIRE, and a day's wait. */
  lemma Opened(now: int) returns (es: Events, c: Counter)
    ensures Run(Start(now), es) == Some(c)
    ensures c == Counter(now + DAY, Some(Key(1, Some(now + DAY))), 0, 1, now, [Hit(now, 1, 1, true)])
  {
    var c1 := Step(Start(now), Incr(true)).value;
    var c2 := Step(c1, Expire(true)).value;
    es := Then(NoEvents, Incr(true));
    assert Run(Start(now), es) == Some(c1);
    es := Then(es, Expire(true));
    assert Run(Start(now), es) == Some(c2);
    es := Then(es, Tick(DAY));
    c := Step(c2, Tick(DAY)).value;
  }

  /** No 24 hours of any run let more than `limit` calls pass. */
  ghost predicate RollingCap(limit: nat) {
    forall now, es, lo :: Run(Start(now), es).Some? ==> PassesIn(Run(Start(now), es).value.hits, lo, limit) <= limit
  }

  /** Main result: the counter is the rolling cap it is meant to be exactly for a
      limit of one. */
  lemma RollingCapExactly(limit: nat)
    requires limit >= 1
    ensures RollingCap(limit) <==> limit == 1
  {
    var es, c, lo := WindowCapReached(0, limit);
    if limit == 1 {
      forall now, es, lo | Run(Start(now), es).Some?
        ensures PassesIn(Run(Start(now), es).value.hits, lo, limit) <= limit
      {
        WindowCap(now, es, Run(Start(now), es).value, lo, limit);
      }
    } else {
      assert Run(Start(0), es).Some? && PassesIn(Run(Start(0), es).value.hits, lo, limit) > limit;
    }
  }

  // ---------------------------------------------------------------- lost EXPIREs

  /** The key will never go away, and is at the limit. */
  predicate Locked(c: Counter, limit: nat) {
    c.key.Some? && c.key.value.expiry.None? && c.owed == 0 && c.key.value.count >= limit
  }

  lemma {:induction false} LockedForGood(c: Counter, es: Events, limit: nat, lo: int)
    requires Locked(c, limit) && Run(c, es).Some?
    ensures Locked(Run(c, es).value, limit)
    ensures PassesIn(Run(c, es).value.hits, lo, limit) == PassesIn(c.hits, lo, limit)
  {
    if es.Then? {
      LockedForGood(c, es.before, limit, lo);
      var m := Run(c, es.before).value;
      if es.e.Incr? { PassesSnoc(m.hits, Step(m, es.e).value.hits[|m.hits|], lo, limit); }
    }
  }

  /** A later call can still pass. */
  ghost predicate CanPass(c: Counter, limit: nat) {
    exists es, lo :: Run(c, es).Some? && PassesIn(Run(c, es).value.hits, lo, limit) > PassesIn(c.hits, lo, limit)
  }

  /** From a state reached by es, one answered INCR that gets count `n` passes. */
  lemma OneMore(c: Counter, es: Events, d: Counter, limit: nat)
    requires Run(c, es) == Some(d) && d.hits == c.hits && limit >= 1
    requires !Present(d) || d.key.value.count < limit
    ensures CanPass(c, limit)
  {
    var f := Step(d, Incr(true)).value;
    PassesSnoc(d.hits, f.hits[|d.hits|], d.now, limit);
    assert Run(c, Then(es, Incr(true))) == Some(f);
    assert PassesIn(f.hits, d.now, limit) > PassesIn(c.hits, d.now, limit);
  }

  lemma WaitsOut(c: Counter, es: Events, d: Counter, limit: nat)
    requires Run(c, es) == Some(d) && d.hits == c.hits && limit >= 1
    requires d.key.Some? && d.key.value.expiry.Some?
    ensures CanPass(c, limit)
  {
    if Present(d) {
      var dt := d.key.value.expiry.value - d.now + 1;
      OneMore(c, Then(es, Tick(dt)), d.(now := d.now + dt), limit);
    } else {
      OneMore(c, es, d, limit);
    }
  }

  lemma {:induction false} ExpiryWithinADay(now: int, es: Events, c: Counter)
    requires Run(Start(now), es) == Some(c) && c.key.Some? && c.key.value.expiry.Some?
    ensures c.key.value.expiry.value <= c.now + 86_400_000
  {
    var m := Run(Start(now), es.before).value;
    if es.e.Tick? || (es.e.Incr? && Present(m)) || (es.e.Expire? && c.key == m.key) {
      ExpiryWithinADay(now, es.before, m);
    }
  }

  /** Main result: once a counter has its expiry it is gone 24 hours later, whatever
      calls come in between. */
  lemma {:induction false} GoneAfterADay(now: int, es: Events, c: Counter, later: Events, d: Counter)
    requires Run(Start(now), es) == Some(c) && c.key.Some? && c.key.value.expiry.Some? && c.owed == 0
    requires Run(c, later) == Some(d) && d.now > c.now + 86_400_000
    ensures !Present(d) || d.life > c.life
  {
    RunKeepsInv(Start(now), es);
    ExpiryWithinADay(now, es, c);
    SameLife(c, later, d);
  }

  /** While a lifetime with an expiry goes on, its expiry stays. */
  lemma {:induction false} SameLife(c: Counter, later: Events, d: Counter)
    requires Inv(c) && c.owed == 0 && c.key.Some? && c.key.value.expiry.Some? && Run(c, later) == Some(d)
    ensures d.life > c.life ||
      (d.life == c.life && d.owed == 0 && d.key.Some? && d.key.value.expiry == c.key.value.expiry)
  {
    if later.Then? { SameLife(c, later.before, Run(c, later.before).value); }
  }

  /** Main result: an email is locked out for good exactly when its key has reached
      the limit, has no expiry, and nobody will set one any more. */
  lemma LockoutExactly(now: int, es: Events, c: Counter, limit: nat)
    requires Run(Start(now), es) == Some(c) && limit >= 1
    ensures !CanPass(c, limit) <==> Locked(c, limit)
  {
    RunKeepsInv(Start(now), es);
    if Locked(c, limit) {
      forall es, lo | Run(c, es).Some?
        ensures PassesIn(Run(c, es).value.hits, lo, limit) == PassesIn(c.hits, lo, limit)
      {
        LockedForGood(c, es, limit, lo);
      }
    } else if c.owed > 0 {
      WaitsOut(c, Then(NoEvents, Expire(true)), Step(c, Expire(true)).value, limit);
    } else if c.key.Some? && c.key.value.expiry.Some? {
      WaitsOut(c, NoEvents, c, limit);
    } else {
      OneMore(c, NoEvents, c, limit);
    }
  }
}
