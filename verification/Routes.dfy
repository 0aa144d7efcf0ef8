/** Pairs of airports, kept when a route or a hub links them. */
module Routes {
  import opened Geo

  type RouteGraph = map<string, set<string>>

  predicate Has(g: RouteGraph, from: string, to: string) {
    from in g && to in g[from]
  }

  /** A route in either direction. */
  predicate Linked(g: RouteGraph, a: string, b: string) {
    Has(g, a, b) || Has(g, b, a)
  }

  predicate ViaHub(g: RouteGraph, hub: string, a: string, b: string) {
    hub != a && hub != b && Linked(g, a, hub) && Linked(g, hub, b)
  }

  predicate Reachable(g: RouteGraph, hubs: set<string>, a: string, b: string) {
    Linked(g, a, b) || exists h :: h in hubs && ViaHub(g, h, a, b)
  }

  datatype AirportPair = AirportPair(origin: Airport, destination: Airport)

  function CodePair(p: AirportPair): (string, string) { (p.origin.iata, p.destination.iata) }

  // ---------------------------------------------------------------- all pairs

  function PairsFrom(o: Airport, ds: seq<Airport>): seq<AirportPair> {
    if ds == [] then []
    else
      var d := ds[|ds| - 1];
      PairsFrom(o, ds[..|ds| - 1]) + if o.iata == d.iata then [] else [AirportPair(o, d)]
  }

  function AllPairs(os: seq<Airport>, ds: seq<Airport>): seq<AirportPair> {
    if os == [] then [] else AllPairs(os[..|os| - 1], ds) + PairsFrom(os[|os| - 1], ds)
  }

  predicate DistinctPairs(ps: seq<AirportPair>) {
    forall i, j :: 0 <= i < j < |ps| ==> CodePair(ps[i]) != CodePair(ps[j])
  }

  lemma {:induction false} PairsFromExact(o: Airport, ds: seq<Airport>)
    requires DistinctCodes(ds)
    ensures DistinctPairs(PairsFrom(o, ds))
    ensures forall p :: p in PairsFrom(o, ds) <==> p.origin == o && p.destination in ds && p.destination.iata != o.iata
  {
    if ds != [] {
      var n := |ds| - 1;
      PairsFromExact(o, ds[..n]);
      assert ds == ds[..n] + [ds[n]];
      forall p | p in PairsFrom(o, ds[..n]) ensures CodePair(p) != (o.iata, ds[n].iata) {
        assert p.destination in ds[..n];
      }
    }
  }

  /** No pair of codes twice, and exactly the pairs of different codes. */
  lemma {:induction false} AllPairsExact(os: seq<Airport>, ds: seq<Airport>)
    requires DistinctCodes(os) && DistinctCodes(ds)
    ensures DistinctPairs(AllPairs(os, ds))
    ensures forall p :: p in AllPairs(os, ds) <==>
      p.origin in os && p.destination in ds && p.origin.iata != p.destination.iata
  {
    if os != [] {
      var n := |os| - 1;
      AllPairsExact(os[..n], ds);
      PairsFromExact(os[n], ds);
      assert os == os[..n] + [os[n]];
      forall p, q | p in AllPairs(os[..n], ds) && q in PairsFrom(os[n], ds) ensures CodePair(p) != CodePair(q) {
        assert p.origin in os[..n];
      }
    }
  }

  method GenerateAllPairs(origins: seq<Airport>, destinations: seq<Airport>) returns (result: seq<AirportPair>)
    ensures result == AllPairs(origins, destinations)
  {
    result := [];
    for i := 0 to |origins|
      invariant result == AllPairs(origins[..i], destinations)
    {
      var o := origins[i];
      ghost var before := result;
      for k := 0 to |destinations|
        invariant result == before + PairsFrom(o, destinations[..k])
      {
        var d := destinations[k];
        assert destinations[..k + 1][..k] == destinations[..k];
        if o.iata != d.iata {
          result := result + [AirportPair(o, d)];
        }
      }
      assert destinations[..|destinations|] == destinations;
      assert origins[..i + 1][..i] == origins[..i];
    }
    assert origins[..|origins|] == origins;
  }

  // ---------------------------------------------------------------- filters

  function Keep(ps: seq<AirportPair>, f: AirportPair -> bool): seq<AirportPair> {
    if ps == [] then []
    else Keep(ps[..|ps| - 1], f) + if f(ps[|ps| - 1]) then [ps[|ps| - 1]] else []
  }

  lemma {:induction false} KeepExact(ps: seq<AirportPair>, f: AirportPair -> bool)
    requires DistinctPairs(ps)
    ensures DistinctPairs(Keep(ps, f))
    ensures forall p :: p in Keep(ps, f) <==> p in ps && f(p)
  {
    if ps != [] {
      var n := |ps| - 1;
      KeepExact(ps[..n], f);
      assert ps == ps[..n] + [ps[n]];
      forall p | p in Keep(ps[..n], f) ensures CodePair(p) != CodePair(ps[n]) {
        var i :| 0 <= i < n && ps[i] == p;
      }
    }
  }

  /** The two filters' conditions on a pair. */
  function ByRoute(g: RouteGraph): AirportPair -> bool {
    (p: AirportPair) => Linked(g, p.origin.iata, p.destination.iata)
  }

  function ByHub(g: RouteGraph, hubs: set<string>): AirportPair -> bool {
    (p: AirportPair) => Reachable(g, hubs, p.origin.iata, p.destination.iata)
  }

  method FilterByRoutes(pairs: seq<AirportPair>, g: RouteGraph) returns (result: seq<AirportPair>)
    ensures result == Keep(pairs, ByRoute(g))
  {
    ghost var f := ByRoute(g);
    result := [];
    for i := 0 to |pairs|
      invariant result == Keep(pairs[..i], f)
    {
      var p := pairs[i];
      assert pairs[..i + 1][..i] == pairs[..i];
      if Has(g, p.origin.iata, p.destination.iata) || Has(g, p.destination.iata, p.origin.iata) {
        result := result + [p];
      }
    }
    assert pairs[..|pairs|] == pairs;
  }

  /** The hubs come up in any order: a map is iterated. */
  method ReachableViaHub(from: string, to: string, g: RouteGraph, hubs: set<string>) returns (found: bool)
    ensures found <==> exists h :: h in hubs && ViaHub(g, h, from, to)
  {
    var rest := hubs;
    while rest != {}
      invariant rest <= hubs
      invariant forall h :: h in hubs - rest ==> !ViaHub(g, h, from, to)
      decreases |rest|
    {
      var hub :| hub in rest;
      rest := rest - {hub};
      if hub != from && hub != to {
        if (Has(g, from, hub) || Has(g, hub, from)) && (Has(g, hub, to) || Has(g, to, hub)) {
          assert ViaHub(g, hub, from, to);
          return true;
        }
      }
    }
    found := false;
  }

  function HubSet(hubs: seq<string>): set<string> { set h | h in hubs }

  method FilterByRoutesWithHubs(pairs: seq<AirportPair>, g: RouteGraph, hubs: seq<string>)
    returns (result: seq<AirportPair>)
    ensures result == Keep(pairs, ByHub(g, HubSet(hubs)))
  {
    ghost var f := ByHub(g, HubSet(hubs));
    if |hubs| == 0 {
      result := FilterByRoutes(pairs, g);
      KeepSame(pairs, ByRoute(g), f);
      return;
    }
    var hubSet: set<string> := {};
    for i := 0 to |hubs|
      invariant hubSet == HubSet(hubs[..i])
    {
      hubSet := hubSet + {hubs[i]};
      assert hubs[..i + 1] == hubs[..i] + [hubs[i]];
    }
    assert hubs[..|hubs|] == hubs;
    result := [];
    for i := 0 to |pairs|
      invariant result == Keep(pairs[..i], f)
    {
      var p := pairs[i];
      assert pairs[..i + 1][..i] == pairs[..i];
      if Has(g, p.origin.iata, p.destination.iata) || Has(g, p.destination.iata, p.origin.iata) {
        result := result + [p];
      } else {
        var found := ReachableViaHub(p.origin.iata, p.destination.iata, g, hubSet);
        if found {
          result := result + [p];
        }
      }
    }
    assert pairs[..|pairs|] == pairs;
  }

  lemma {:induction false} KeepSame(ps: seq<AirportPair>, f: AirportPair -> bool, h: AirportPair -> bool)
    requires forall p :: p in ps ==> f(p) == h(p)
    ensures Keep(ps, f) == Keep(ps, h)
  {
    if ps != [] {
      assert ps[|ps| - 1] in ps;
      KeepSame(ps[..|ps| - 1], f, h);
    }
  }
}
