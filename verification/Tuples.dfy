/** From a search request to its (origin, destination, date) tuples. */
module Tuples {
  import opened Calendar
  import opened Geo
  import opened Routes
  import opened Wrappers

  datatype Request = Request(originCenter: Point, originRadius: real, destCenter: Point, destRadius: real,
                             departFrom: string, departTo: string)

  datatype TupleError = BadField(name: string) | NoAirports | NoRoutes | BadCircle | BadRange

  datatype GeneratedPair = GeneratedPair(origin: string, destination: string, date: string)

  datatype Generated = Tuples(tuples: seq<GeneratedPair>) | Fails(error: TupleError)

  const MAX_RADIUS := 20000.0

  /** The checks of validateRequest, in order; None when all pass. */
  function ValidateRequest(req: Request): Option<TupleError> {
    if !(-90.0 <= req.originCenter.lat <= 90.0) then Some(BadField("origin_lat"))
    else if !(-180.0 <= req.originCenter.lng <= 180.0) then Some(BadField("origin_lng"))
    else if !(-90.0 <= req.destCenter.lat <= 90.0) then Some(BadField("dest_lat"))
    else if !(-180.0 <= req.destCenter.lng <= 180.0) then Some(BadField("dest_lng"))
    else if req.originRadius <= 0.0 || req.originRadius > MAX_RADIUS then Some(BadField("origin_r"))
    else if req.destRadius <= 0.0 || req.destRadius > MAX_RADIUS then Some(BadField("dest_r"))
    else if !MatchesDate(req.departFrom) then Some(BadField("depart_from"))
    else if !MatchesDate(req.departTo) then Some(BadField("depart_to"))
    else if Parse(req.departFrom).None? then Some(BadField("depart_from"))
    else if Parse(req.departTo).None? then Some(BadField("depart_to"))
    else None
  }

  // ---------------------------------------------------------------- product with dates

  function Dated(p: AirportPair, dates: seq<string>): seq<GeneratedPair> {
    seq(|dates|, i requires 0 <= i < |dates| => GeneratedPair(p.origin.iata, p.destination.iata, dates[i]))
  }

  function Product(ps: seq<AirportPair>, dates: seq<string>): seq<GeneratedPair> {
    if ps == [] then [] else Product(ps[..|ps| - 1], dates) + Dated(ps[|ps| - 1], dates)
  }

  /** Some pair of ps has these codes. */
  predicate HasCodes(ps: seq<AirportPair>, o: string, d: string) {
    exists p :: p in ps && CodePair(p) == (o, d)
  }

  /** No tuple twice, one for each pair and date, and no other. */
  lemma {:induction false} ProductExact(ps: seq<AirportPair>, dates: seq<string>)
    requires DistinctPairs(ps) && NoDuplicates(dates)
    ensures |Product(ps, dates)| == |ps| * |dates|
    ensures NoDuplicates(Product(ps, dates))
    ensures forall t :: t in Product(ps, dates) <==> HasCodes(ps, t.origin, t.destination) && t.date in dates
  {
    if ps != [] {
      var n := |ps| - 1;
      var before, p := ps[..n], ps[n];
      ProductExact(before, dates);
      assert ps == before + [p];
      forall t ensures t in Product(ps, dates) <==> HasCodes(ps, t.origin, t.destination) && t.date in dates {
        HasCodesAfter(before, p, t.origin, t.destination);
        DatedHas(p, dates, t);
      }
      forall t, u | t in Product(before, dates) && u in Dated(p, dates) ensures t != u {
        var q :| q in before && CodePair(q) == (t.origin, t.destination);
        var i :| 0 <= i < n && ps[i] == q;
      }
      assert (n + 1) * |dates| == n * |dates| + |dates|;
    }
  }

  lemma HasCodesAfter(ps: seq<AirportPair>, p: AirportPair, o: string, d: string)
    ensures HasCodes(ps + [p], o, d) <==> HasCodes(ps, o, d) || CodePair(p) == (o, d)
  {
    if HasCodes(ps, o, d) {
      var q :| q in ps && CodePair(q) == (o, d);
      assert q in ps + [p];
    }
    assert p in ps + [p];
  }

  lemma DatedHas(p: AirportPair, dates: seq<string>, t: GeneratedPair)
    ensures t in Dated(p, dates) <==> CodePair(p) == (t.origin, t.destination) && t.date in dates
  {
    if CodePair(p) == (t.origin, t.destination) && t.date in dates {
      var i :| 0 <= i < |dates| && dates[i] == t.date;
      assert Dated(p, dates)[i] == t;
    }
  }

  // ---------------------------------------------------------------- the whole pipeline

  /** What the tuples depend on: the two airport lists' circles, the graph, the hubs. */
  datatype World = World(airports: seq<Airport>, graph: RouteGraph, hubs: seq<string>, dist: Metric)

  predicate OriginCode(w: World, req: Request, c: string) {
    Offered(w.airports, Inside(req.originCenter, req.originRadius, w.dist), c)
  }

  predicate DestCode(w: World, req: Request, c: string) {
    Offered(w.airports, Inside(req.destCenter, req.destRadius, w.dist), c)
  }

  predicate Wanted(w: World, req: Request, o: string, d: string) {
    OriginCode(w, req, o) && DestCode(w, req, d) && o != d && Reachable(w.graph, HubSet(w.hubs), o, d)
  }

  /** Some airport with the code lies in the circle. */
  predicate InSomeCircle(w: World, center: Point, radius: real, c: string) {
    exists a :: a in w.airports && a.iata == c && Near(w, center, radius, a)
  }

  predicate Near(w: World, center: Point, radius: real, a: Airport) {
    && -90.0 <= a.location.lat <= 90.0 && -180.0 <= a.location.lng <= 180.0
    && w.dist(center, a.location) <= radius
  }

  /** The graph has a flight one way or the other. */
  predicate Flown(w: World, a: string, b: string) {
    (a in w.graph && b in w.graph[a]) || (b in w.graph && a in w.graph[b])
  }

  /** Main result: what a wanted pair of codes is, from the airports, the graph and the
      hubs alone. */
  lemma WantedExactly(w: World, req: Request, o: string, d: string)
    ensures Wanted(w, req, o, d) <==>
      && InSomeCircle(w, req.originCenter, req.originRadius, o)
      && InSomeCircle(w, req.destCenter, req.destRadius, d)
      && o != d
      && (Flown(w, o, d)
          || exists h :: h in w.hubs && h != o && h != d && Flown(w, o, h) && Flown(w, h, d))
  {
    CircleExactly(w, req.originCenter, req.originRadius, o);
    CircleExactly(w, req.destCenter, req.destRadius, d);
    assert forall h :: h in HubSet(w.hubs) <==> h in w.hubs;
    assert forall h :: ViaHub(w.graph, h, o, d) <==> h != o && h != d && Flown(w, o, h) && Flown(w, h, d);
  }

  lemma CircleExactly(w: World, center: Point, radius: real, c: string)
    ensures Offered(w.airports, Inside(center, radius, w.dist), c) <==> InSomeCircle(w, center, radius, c)
  {
    if Offered(w.airports, Inside(center, radius, w.dist), c) {
      var a :| a in w.airports && Inside(center, radius, w.dist)(a) && a.iata == c;
      assert Near(w, center, radius, a);
    }
    if InSomeCircle(w, center, radius, c) {
      var a :| a in w.airports && a.iata == c && Near(w, center, radius, a);
      assert Inside(center, radius, w.dist)(a);
    }
  }

  function Pairs(w: World, req: Request): seq<AirportPair> {
    Keep(AllPairs(FirstOfEach(w.airports, Inside(req.originCenter, req.originRadius, w.dist)),
                  FirstOfEach(w.airports, Inside(req.destCenter, req.destRadius, w.dist))),
         ByHub(w.graph, HubSet(w.hubs)))
  }

  lemma PairsExact(w: World, req: Request)
    ensures DistinctPairs(Pairs(w, req))
    ensures forall o, d :: HasCodes(Pairs(w, req), o, d) <==> Wanted(w, req, o, d)
  {
    var fo := Inside(req.originCenter, req.originRadius, w.dist);
    var fd := Inside(req.destCenter, req.destRadius, w.dist);
    var os, ds := FirstOfEach(w.airports, fo), FirstOfEach(w.airports, fd);
    FirstOfEachExact(w.airports, fo);
    FirstOfEachExact(w.airports, fd);
    AllPairsExact(os, ds);
    KeepExact(AllPairs(os, ds), ByHub(w.graph, HubSet(w.hubs)));
    forall o, d ensures HasCodes(Pairs(w, req), o, d) <==> Wanted(w, req, o, d) {
      if HasCodes(Pairs(w, req), o, d) {
        var p :| p in Pairs(w, req) && CodePair(p) == (o, d);
        assert o in Codes(os) && d in Codes(ds);
      }
      if Wanted(w, req, o, d) {
        assert o in Codes(os) && d in Codes(ds);
        var a :| a in os && a.iata == o;
        var b :| b in ds && b.iata == d;
        assert AirportPair(a, b) in Pairs(w, req);
      }
    }
  }

  /** The tuples are exactly the wanted code pairs on the days of the range, each
      once, and as many as pairs times days. */
  ghost predicate ExactTuples(ts: seq<GeneratedPair>, w: World, req: Request, a: Date, b: Date) {
    && NoDuplicates(ts)
    && |ts| == |Pairs(w, req)| * (DayNum(b) - DayNum(a) + 1)
    && forall t :: t in ts <==> Wanted(w, req, t.origin, t.destination) && InRange(t.date, a, b)
  }

  lemma TuplesExact(w: World, req: Request, dates: seq<string>, a: Date, b: Date)
    requires Valid(a) && Valid(b) && a.y <= 9999 && b.y <= 9999 && !Before(b, a) && ExactRange(dates, a, b)
    ensures ExactTuples(Product(Pairs(w, req), dates), w, req, a, b)
  {
    PairsExact(w, req);
    RangeIsExact(dates, a, b);
    ProductExact(Pairs(w, req), dates);
  }

  /** When GenerateTuples fails, and how; the loads of airports and routes are
      parameters, None when they fail. */
  function TupleFailure(req: Request, airports: Option<seq<Airport>>, graph: Option<RouteGraph>): Option<TupleError> {
    if ValidateRequest(req).Some? then ValidateRequest(req)
    else if airports.None? then Some(NoAirports)
    else if graph.None? then Some(NoRoutes)
    else if Before(Parse(req.departTo).value, Parse(req.departFrom).value) then Some(BadRange)
    else None
  }

  /** Main result: GenerateTuples fails on an invalid request with its error, otherwise
      on a failed load, otherwise on a range that ends before it begins. */
  lemma TupleFailureExactly(req: Request, airports: Option<seq<Airport>>, graph: Option<RouteGraph>)
    ensures ValidateRequest(req).Some? ==> TupleFailure(req, airports, graph) == ValidateRequest(req)
    ensures ValidateRequest(req).None? && airports.None? ==> TupleFailure(req, airports, graph) == Some(NoAirports)
    ensures ValidateRequest(req).None? && airports.Some? && graph.None? ==>
      TupleFailure(req, airports, graph) == Some(NoRoutes)
    ensures ValidateRequest(req).None? && airports.Some? && graph.Some? ==>
      TupleFailure(req, airports, graph)
      == if DayNum(Parse(req.departTo).value) < DayNum(Parse(req.departFrom).value) then Some(BadRange) else None
  {
    if ValidateRequest(req).None? { ValidDates(req); }
  }

  lemma ValidDates(req: Request)
    requires ValidateRequest(req).None?
    ensures Parse(req.departFrom).Some? && Parse(req.departTo).Some?
    ensures var a, b := Parse(req.departFrom).value, Parse(req.departTo).value;
      && Valid(a) && Valid(b) && a.y <= 9999 && b.y <= 9999
      && (Before(b, a) <==> DayNum(b) < DayNum(a))
  {
    FormatParse(req.departFrom);
    FormatParse(req.departTo);
    OrderIsDayNum(Parse(req.departTo).value, Parse(req.departFrom).value);
  }

  /** A valid request has its circles on the globe. */
  lemma ValidCircles(req: Request)
    requires ValidateRequest(req).None?
    ensures req.originRadius > 0.0 && req.destRadius > 0.0
    ensures ValidPoint(req.originCenter) && ValidPoint(req.destCenter)
  {
  }

  /** Main result: a request is valid exactly when both points are on the globe, both
      radii are above 0 and at most 20000 km, and both dates are dates; otherwise the
      first field that is not is named. */
  lemma ValidExactly(req: Request)
    ensures ValidateRequest(req).None? <==>
      && -90.0 <= req.originCenter.lat <= 90.0 && -180.0 <= req.originCenter.lng <= 180.0
      && -90.0 <= req.destCenter.lat <= 90.0 && -180.0 <= req.destCenter.lng <= 180.0
      && 0.0 < req.originRadius <= 20000.0 && 0.0 < req.destRadius <= 20000.0
      && Parse(req.departFrom).Some? && Parse(req.departTo).Some?
    ensures ValidateRequest(req) == Some(BadField("origin_lat")) <==> !(-90.0 <= req.originCenter.lat <= 90.0)
    ensures ValidateRequest(req) == Some(BadField("origin_lng")) ==> !(-180.0 <= req.originCenter.lng <= 180.0)
    ensures ValidateRequest(req) == Some(BadField("dest_lat")) ==> !(-90.0 <= req.destCenter.lat <= 90.0)
    ensures ValidateRequest(req) == Some(BadField("dest_lng")) ==> !(-180.0 <= req.destCenter.lng <= 180.0)
    ensures ValidateRequest(req) == Some(BadField("origin_r")) ==> !(0.0 < req.originRadius <= 20000.0)
    ensures ValidateRequest(req) == Some(BadField("dest_r")) ==> !(0.0 < req.destRadius <= 20000.0)
    ensures ValidateRequest(req) == Some(BadField("depart_from")) ==> Parse(req.departFrom).None?
    ensures ValidateRequest(req) == Some(BadField("depart_to")) ==> Parse(req.departTo).None?
    ensures ValidateRequest(req).Some? ==>
      ValidateRequest(req).value in [BadField("origin_lat"), BadField("origin_lng"), BadField("dest_lat"),
                                     BadField("dest_lng"), BadField("origin_r"), BadField("dest_r"),
                                     BadField("depart_from"), BadField("depart_to")]
  {
  }

  /** The two closing loops of GenerateTuples. */
  method PairsTimesDates(pairs: seq<AirportPair>, dates: seq<string>) returns (out: seq<GeneratedPair>)
    ensures out == Product(pairs, dates)
  {
    out := [];
    for i := 0 to |pairs|
      invariant out == Product(pairs[..i], dates)
    {
      var p := pairs[i];
      ghost var before := out;
      for k := 0 to |dates|
        invariant out == before + Dated(p, dates)[..k]
      {
        out := out + [GeneratedPair(p.origin.iata, p.destination.iata, dates[k])];
      }
      assert Dated(p, dates)[..|dates|] == Dated(p, dates);
      assert pairs[..i + 1][..i] == pairs[..i];
    }
    assert pairs[..|pairs|] == pairs;
  }

  /** Main result: fails exactly on an invalid request, a failed load or an inverted
      range (circles of a valid request always resolve), and otherwise returns
      exactly the wanted tuples, whatever order the hub set is iterated in. */
  method GenerateTuples(req: Request, airports: Option<seq<Airport>>, graph: Option<RouteGraph>,
                        hubs: seq<string>, dist: Metric)
    returns (r: Generated)
    ensures r.Fails? <==> TupleFailure(req, airports, graph).Some?
    ensures r.Fails? ==> r.error == TupleFailure(req, airports, graph).value
    ensures r.Tuples? ==> ExactTuples(r.tuples, World(airports.value, graph.value, hubs, dist), req,
                                      Parse(req.departFrom).value, Parse(req.departTo).value)
  {
    var invalid := ValidateRequest(req);
    if invalid.Some? {
      return Fails(invalid.value);
    }
    if airports.None? {
      return Fails(NoAirports);
    }
    if graph.None? {
      return Fails(NoRoutes);
    }
    ValidCircles(req);
    var origins := ResolveAirports(req.originCenter, req.originRadius, airports.value, dist);
    if origins.InvalidCoordinates? {
      return Fails(BadCircle);
    }
    var destinations := ResolveAirports(req.destCenter, req.destRadius, airports.value, dist);
    if destinations.InvalidCoordinates? {
      return Fails(BadCircle);
    }
    ValidDates(req);
    var all := GenerateAllPairs(origins.airports, destinations.airports);
    var pairs := FilterByRoutesWithHubs(all, graph.value, hubs);
    var range := ExpandDateRange(req.departFrom, req.departTo);
    if range.RangeFails? {
      return Fails(BadRange);
    }
    var dates := range.dates;
    var out := PairsTimesDates(pairs, dates);
    ghost var w := World(airports.value, graph.value, hubs, dist);
    assert pairs == Pairs(w, req);
    TuplesExact(w, req, dates, Parse(req.departFrom).value, Parse(req.departTo).value);
    r := Generated.Tuples(out);
  }
}
