/** Which airports lie in a circle.  The great-circle distance is a parameter. */
module Geo {

  datatype Point = Point(lat: real, lng: real)

  datatype Airport = Airport(iata: string, name: string, location: Point)

  type Metric = (Point, Point) -> real

  predicate ValidPoint(p: Point) {
    -90.0 <= p.lat <= 90.0 && -180.0 <= p.lng <= 180.0
  }

  predicate InCircle(center: Point, radius: real, dist: Metric, a: Airport) {
    && -90.0 <= a.location.lat <= 90.0 && -180.0 <= a.location.lng <= 180.0
    && dist(center, a.location) <= radius
  }

  function Inside(center: Point, radius: real, dist: Metric): Airport -> bool {
    (a: Airport) => InCircle(center, radius, dist, a)
  }

  datatype Resolved = Airports(airports: seq<Airport>) | InvalidCoordinates

  function Codes(xs: seq<Airport>): set<string> {
    set x | x in xs :: x.iata
  }

  /** The airports satisfying p, without those whose code came up before. */
  function FirstOfEach(xs: seq<Airport>, p: Airport -> bool): seq<Airport> {
    if xs == [] then []
    else
      var out := FirstOfEach(xs[..|xs| - 1], p);
      var x := xs[|xs| - 1];
      if p(x) && x.iata !in Codes(out) then out + [x] else out
  }

  predicate DistinctCodes(xs: seq<Airport>) {
    forall i, j :: 0 <= i < j < |xs| ==> xs[i].iata != xs[j].iata
  }

  lemma CodesAfter(out: seq<Airport>, x: Airport, c: string)
    ensures c in Codes(out + [x]) <==> c in Codes(out) || c == x.iata
    ensures forall i :: 0 <= i < |out| ==> out[i].iata in Codes(out)
  {
    if c in Codes(out) {
      var a :| a in out && a.iata == c;
      assert a in out + [x];
    }
    assert x in out + [x];
  }

  lemma {:induction false} FirstOfEachDistinct(xs: seq<Airport>, p: Airport -> bool)
    ensures DistinctCodes(FirstOfEach(xs, p))
  {
    if xs != [] {
      var out := FirstOfEach(xs[..|xs| - 1], p);
      FirstOfEachDistinct(xs[..|xs| - 1], p);
      CodesAfter(out, xs[|xs| - 1], "");
    }
  }

  /** Some airport with the code satisfies p. */
  predicate Offered(xs: seq<Airport>, p: Airport -> bool, c: string) {
    exists a :: a in xs && p(a) && a.iata == c
  }

  lemma {:induction false} FirstOfEachCodes(xs: seq<Airport>, p: Airport -> bool, c: string)
    ensures c in Codes(FirstOfEach(xs, p)) <==> Offered(xs, p, c)
  {
    if xs != [] {
      var n := |xs| - 1;
      FirstOfEachCodes(xs[..n], p, c);
      CodesAfter(FirstOfEach(xs[..n], p), xs[n], c);
      assert xs == xs[..n] + [xs[n]];
      if Offered(xs[..n], p, c) {
        var a :| a in xs[..n] && p(a) && a.iata == c;
        assert a in xs;
      }
      assert p(xs[n]) && xs[n].iata == c ==> Offered(xs, p, c);
    }
  }

  /** xs[i] satisfies p and is the first with its code to do so. */
  predicate First(xs: seq<Airport>, p: Airport -> bool, i: int) {
    0 <= i < |xs| && p(xs[i]) && forall j :: 0 <= j < i && p(xs[j]) ==> xs[j].iata != xs[i].iata
  }

  lemma {:induction false} FirstOfEachFirst(xs: seq<Airport>, p: Airport -> bool, a: Airport)
    requires a in FirstOfEach(xs, p)
    ensures exists i :: First(xs, p, i) && xs[i] == a
  {
    var n := |xs| - 1;
    var rest := xs[..n];
    if a in FirstOfEach(rest, p) {
      FirstOfEachFirst(rest, p, a);
      var i :| First(rest, p, i) && rest[i] == a;
      assert First(xs, p, i) && xs[i] == a by {
        forall j | 0 <= j < i && p(xs[j]) ensures xs[j].iata != xs[i].iata { assert rest[j] == xs[j]; }
      }
    } else {
      FirstOfEachCodes(rest, p, a.iata);
      assert First(xs, p, n) by {
        forall j | 0 <= j < n && p(xs[j]) ensures xs[j].iata != a.iata { assert xs[j] in rest; }
      }
    }
  }

  /** No code twice; a code is there exactly when some airport with it satisfies p;
      the airport kept is the first of them. */
  lemma FirstOfEachExact(xs: seq<Airport>, p: Airport -> bool)
    ensures DistinctCodes(FirstOfEach(xs, p))
    ensures forall c :: c in Codes(FirstOfEach(xs, p)) <==> Offered(xs, p, c)
    ensures forall a :: a in FirstOfEach(xs, p) ==> exists i :: First(xs, p, i) && xs[i] == a
  {
    FirstOfEachDistinct(xs, p);
    forall c ensures c in Codes(FirstOfEach(xs, p)) <==> Offered(xs, p, c) { FirstOfEachCodes(xs, p, c); }
    forall a | a in FirstOfEach(xs, p) ensures exists i :: First(xs, p, i) && xs[i] == a { FirstOfEachFirst(xs, p, a); }
  }

  method ResolveAirports(center: Point, radius: real, airports: seq<Airport>, dist: Metric) returns (r: Resolved)
    ensures radius <= 0.0 ==> r == Airports([])
    ensures radius > 0.0 && !(-90.0 <= center.lat <= 90.0 && -180.0 <= center.lng <= 180.0) ==> r == InvalidCoordinates
    ensures radius > 0.0 && -90.0 <= center.lat <= 90.0 && -180.0 <= center.lng <= 180.0 ==>
      r == Airports(FirstOfEach(airports, Inside(center, radius, dist)))
  {
    if radius <= 0.0 {
      return Airports([]);
    }
    if !ValidPoint(center) {
      return InvalidCoordinates;
    }
    ghost var p := Inside(center, radius, dist);
    var result: seq<Airport> := [];
    var seen: set<string> := {};
    for i := 0 to |airports|
      invariant result == FirstOfEach(airports[..i], p)
      invariant seen == Codes(result)
    {
      var a := airports[i];
      assert airports[..i + 1][..i] == airports[..i] && airports[..i + 1][i] == a;
      if ValidPoint(a.location) {
        var d := dist(center, a.location);
        if d <= radius {
          if a.iata !in seen {
            forall c ensures c in Codes(result + [a]) <==> c in seen || c == a.iata {
              CodesAfter(result, a, c);
            }
            seen := seen + {a.iata};
            result := result + [a];
          }
        }
      }
    }
    assert airports[..|airports|] == airports;
    r := Airports(result);
  }
}
