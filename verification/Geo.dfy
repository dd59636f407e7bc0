/**
 * Polygon bounds, ray casting and the bounds prefilter of the location filter,
 * over exact real coordinates.
 */
module Geo {
  import opened Prelude

  /** A `(lat, lon)` pair. */
  datatype Point = Point(lat: real, lon: real)

  datatype Bounds = Bounds(minLat: real, maxLat: real, minLon: real, maxLon: real)

  const EPSILON: real := 0.000000001

  function Min(a: real, b: real): real {
    if a <= b then a else b
  }

  function Max(a: real, b: real): real {
    if a <= b then b else a
  }

  function Abs(a: real): real {
    if a < 0.0 then -a else a
  }

  predicate BoundsContains(b: Bounds, p: Point) {
    b.minLat <= p.lat <= b.maxLat && b.minLon <= p.lon <= b.maxLon
  }

  /** The smallest box that holds every point. */
  ghost predicate IsBoundingBox(b: Bounds, points: seq<Point>) {
    && (forall i :: 0 <= i < |points| ==> BoundsContains(b, points[i]))
    && (exists i :: 0 <= i < |points| && points[i].lat == b.minLat)
    && (exists i :: 0 <= i < |points| && points[i].lat == b.maxLat)
    && (exists i :: 0 <= i < |points| && points[i].lon == b.minLon)
    && (exists i :: 0 <= i < |points| && points[i].lon == b.maxLon)
  }

  method PolygonBounds(points: seq<Point>) returns (r: Option<Bounds>)
    ensures r.None? <==> points == []
    ensures r.Some? ==> IsBoundingBox(r.value, points)
  {
    if points == [] {
      return None;
    }
    var b := Bounds(points[0].lat, points[0].lat, points[0].lon, points[0].lon);
    for i := 1 to |points|
      invariant IsBoundingBox(b, points[..i])
    {
      var p := points[i];
      var wider := Bounds(Min(b.minLat, p.lat), Max(b.maxLat, p.lat), Min(b.minLon, p.lon), Max(b.maxLon, p.lon));
      WidenBox(b, points[..i], p, wider);
      assert points[..i + 1] == points[..i] + [p];
      b := wider;
    }
    assert points[..|points|] == points;
    return Some(b);
  }

  lemma WidenBox(b: Bounds, points: seq<Point>, p: Point, wider: Bounds)
    requires IsBoundingBox(b, points)
    requires wider == Bounds(Min(b.minLat, p.lat), Max(b.maxLat, p.lat), Min(b.minLon, p.lon), Max(b.maxLon, p.lon))
    ensures IsBoundingBox(wider, points + [p])
  {
    var all := points + [p];
    assert forall i :: 0 <= i < |points| ==> all[i] == points[i];
    assert all[|points|] == p;
    var a :| 0 <= a < |points| && points[a].lat == b.minLat;
    var c :| 0 <= c < |points| && points[c].lat == b.maxLat;
    var d :| 0 <= d < |points| && points[d].lon == b.minLon;
    var e :| 0 <= e < |points| && points[e].lon == b.maxLon;
    assert all[a].lat == b.minLat && all[c].lat == b.maxLat && all[d].lon == b.minLon && all[e].lon == b.maxLon;
  }

  // ---------- ray casting ----------

  function Cross(p: Point, a: Point, b: Point): real {
    (p.lat - a.lat) * (b.lon - a.lon) - (p.lon - a.lon) * (b.lat - a.lat)
  }

  predicate PointOnSegment(p: Point, a: Point, b: Point) {
    && Abs(Cross(p, a, b)) <= EPSILON
    && Min(a.lat, b.lat) - EPSILON <= p.lat <= Max(a.lat, b.lat) + EPSILON
    && Min(a.lon, b.lon) - EPSILON <= p.lon <= Max(a.lon, b.lon) + EPSILON
  }

  /** Whether the edge passes from one side of the point's latitude to the other. */
  predicate Straddles(p: Point, previous: Point, current: Point) {
    (current.lat > p.lat) != (previous.lat > p.lat)
  }

  function Intercept(p: Point, previous: Point, current: Point): real
    requires previous.lat != current.lat
  {
    (previous.lon - current.lon) * (p.lat - current.lat) / (previous.lat - current.lat) + current.lon
  }

  predicate Crosses(p: Point, previous: Point, current: Point) {
    Straddles(p, previous, current) && p.lon <= Intercept(p, previous, current)
  }

  /** The vertex before `i`, cyclically. */
  function Before(poly: seq<Point>, i: nat): Point
    requires i < |poly|
  {
    if i == 0 then poly[|poly| - 1] else poly[i - 1]
  }

  ghost predicate Touches(p: Point, poly: seq<Point>) {
    exists i :: 0 <= i < |poly| && PointOnSegment(p, Before(poly, i), poly[i])
  }

  ghost predicate NoTouch(p: Point, poly: seq<Point>, n: nat)
    requires n <= |poly|
  {
    forall i :: 0 <= i < n ==> !PointOnSegment(p, Before(poly, i), poly[i])
  }

  /** The number of edges, among those ending at the first `n` vertices, that the ray crosses. */
  ghost function Crossings(p: Point, poly: seq<Point>, n: nat): nat
    requires n <= |poly|
  {
    if n == 0 then 0
    else Crossings(p, poly, n - 1) + (if Crosses(p, Before(poly, n - 1), poly[n - 1]) then 1 else 0)
  }

  ghost predicate OddCrossings(p: Point, poly: seq<Point>, n: nat)
    requires n <= |poly|
  {
    Crossings(p, poly, n) % 2 == 1
  }

  lemma RayStep(p: Point, poly: seq<Point>, i: nat)
    requires i < |poly| && NoTouch(p, poly, i)
    ensures OddCrossings(p, poly, i + 1) == (OddCrossings(p, poly, i) != Crosses(p, Before(poly, i), poly[i]))
    ensures PointOnSegment(p, Before(poly, i), poly[i]) ==> Touches(p, poly)
    ensures !PointOnSegment(p, Before(poly, i), poly[i]) ==> NoTouch(p, poly, i + 1)
  {
  }

  /** Inside: on the boundary within tolerance, or an odd number of crossings. */
  ghost predicate Inside(p: Point, poly: seq<Point>) {
    |poly| >= 3 && (Touches(p, poly) || Crossings(p, poly, |poly|) % 2 == 1)
  }

  method PointInPolygon(p: Point, poly: seq<Point>) returns (r: bool)
    ensures r == Inside(p, poly)
  {
    if |poly| < 3 {
      return false;
    }
    var inside := false;
    var previous := poly[|poly| - 1];
    for i := 0 to |poly|
      invariant i < |poly| ==> previous == Before(poly, i)
      invariant NoTouch(p, poly, i) && inside == OddCrossings(p, poly, i)
    {
      var current := poly[i];
      RayStep(p, poly, i);
      if PointOnSegment(p, previous, current) {
        return true;
      }
      if Crosses(p, previous, current) {
        inside := !inside;
      }
      previous := current;
    }
    return inside;
  }

  // ---------- the bounding box as a prefilter ----------

  ghost function Straddlings(p: Point, poly: seq<Point>, n: nat): nat
    requires n <= |poly|
  {
    if n == 0 then 0
    else Straddlings(p, poly, n - 1) + (if Straddles(p, Before(poly, n - 1), poly[n - 1]) then 1 else 0)
  }

  /** A chain changes sides once per straddling edge, so a closed one does so an even number of times. */
  lemma {:induction false} SidesChange(p: Point, poly: seq<Point>, n: nat)
    requires 1 <= n <= |poly|
    ensures (Straddlings(p, poly, n) % 2 == 1) <==> ((poly[|poly| - 1].lat > p.lat) != (poly[n - 1].lat > p.lat))
  {
    if n > 1 {
      SidesChange(p, poly, n - 1);
    }
  }

  lemma QuotientIs(n: real, w: real, z: real)
    requires w != 0.0 && z * w == n
    ensures n / w == z
  {
    var r := n / w;
    assert (r - z) * w == 0.0;
  }

  lemma ProductQuotient(d: real, n: real, w: real)
    requires w != 0.0
    ensures d * n / w == d * (n / w)
  {
    var t := n / w;
    assert t * w == n;
    assert (d * t) * w == d * (t * w);
    QuotientIs(d * n, w, d * t);
  }

  lemma ProductSign(t: real, w: real)
    ensures (t < 0.0 && w > 0.0) || (t > 0.0 && w < 0.0) ==> t * w < 0.0
    ensures (t < 0.0 && w < 0.0) || (t > 0.0 && w > 0.0) ==> t * w > 0.0
  {
  }

  lemma FractionBetween(n: real, w: real)
    requires w != 0.0 && (0.0 <= n <= w || w <= n <= 0.0)
    ensures 0.0 <= n / w <= 1.0
  {
    var t := n / w;
    assert t * w == n;
    ProductSign(t, w);
    ProductSign(t - 1.0, w);
    assert (t - 1.0) * w == t * w - w;
  }

  lemma PartOf(d: real, t: real)
    requires 0.0 <= t <= 1.0
    ensures Min(0.0, d) <= d * t <= Max(0.0, d)
  {
    if d >= 0.0 {
      assert d * (1.0 - t) >= 0.0;
    } else {
      assert (-d) * (1.0 - t) >= 0.0;
    }
  }

  /** Between two latitudes the intercept lies between the two longitudes. */
  lemma InterceptBetween(p: Point, a: Point, b: Point)
    requires Straddles(p, a, b)
    ensures Min(a.lon, b.lon) <= Intercept(p, a, b) <= Max(a.lon, b.lon)
  {
    var n, w, d := p.lat - b.lat, a.lat - b.lat, a.lon - b.lon;
    FractionBetween(n, w);
    ProductQuotient(d, n, w);
    PartOf(d, n / w);
    assert Intercept(p, a, b) == d * (n / w) + b.lon;
    assert Min(a.lon, b.lon) == Min(0.0, d) + b.lon && Max(a.lon, b.lon) == Max(0.0, d) + b.lon;
  }

  /** Left of every vertex the ray crosses exactly the straddling edges. */
  lemma {:induction false} LeftOfBox(p: Point, poly: seq<Point>, n: nat)
    requires n <= |poly|
    requires forall i :: 0 <= i < |poly| ==> p.lon < poly[i].lon
    ensures Crossings(p, poly, n) == Straddlings(p, poly, n)
  {
    if n > 0 {
      LeftOfBox(p, poly, n - 1);
      if Straddles(p, Before(poly, n - 1), poly[n - 1]) {
        InterceptBetween(p, Before(poly, n - 1), poly[n - 1]);
      }
    }
  }

  /** Above, below or right of every vertex the ray crosses nothing. */
  lemma {:induction false} NoCrossing(p: Point, poly: seq<Point>, n: nat)
    requires n <= |poly|
    requires || (forall i :: 0 <= i < |poly| ==> p.lat < poly[i].lat)
             || (forall i :: 0 <= i < |poly| ==> p.lat > poly[i].lat)
             || (forall i :: 0 <= i < |poly| ==> p.lon > poly[i].lon)
    ensures Crossings(p, poly, n) == 0
  {
    if n > 0 {
      NoCrossing(p, poly, n - 1);
      if Straddles(p, Before(poly, n - 1), poly[n - 1]) {
        InterceptBetween(p, Before(poly, n - 1), poly[n - 1]);
      }
    }
  }

  lemma {:induction false} EvenOutsideBox(p: Point, poly: seq<Point>, b: Bounds)
    requires poly != [] && IsBoundingBox(b, poly) && !BoundsContains(b, p)
    ensures Crossings(p, poly, |poly|) % 2 == 0
  {
    if p.lon < b.minLon {
      forall i | 0 <= i < |poly| ensures p.lon < poly[i].lon {
        assert BoundsContains(b, poly[i]);
      }
      LeftEvenCrossings(p, poly);
    } else {
      assert forall i :: 0 <= i < |poly| ==> BoundsContains(b, poly[i]);
      NoCrossing(p, poly, |poly|);
    }
  }

  /** Outside the bounding box, only the tolerance of the boundary test can make a point inside. */
  lemma OutsideBox(p: Point, poly: seq<Point>, b: Bounds)
    requires |poly| >= 3 && IsBoundingBox(b, poly) && !BoundsContains(b, p)
    ensures Inside(p, poly) <==> Touches(p, poly)
  {
    EvenOutsideBox(p, poly, b);
  }

  lemma {:induction false} LeftEvenCrossings(p: Point, poly: seq<Point>)
    requires poly != [] && forall i :: 0 <= i < |poly| ==> p.lon < poly[i].lon
    ensures Crossings(p, poly, |poly|) % 2 == 0
  {
    LeftOfBox(p, poly, |poly|);
    SidesChange(p, poly, |poly|);
  }

  /** The box widened by the tolerance. */
  function Widened(b: Bounds): Bounds {
    Bounds(b.minLat - EPSILON, b.maxLat + EPSILON, b.minLon - EPSILON, b.maxLon + EPSILON)
  }

  lemma InsideImpliesNearBox(p: Point, poly: seq<Point>, b: Bounds)
    ensures IsBoundingBox(b, poly) && Inside(p, poly) ==> BoundsContains(Widened(b), p)
  {
    if IsBoundingBox(b, poly) && Inside(p, poly) && !BoundsContains(b, p) {
      OutsideBox(p, poly, b);
      var i :| 0 <= i < |poly| && PointOnSegment(p, Before(poly, i), poly[i]);
      assert BoundsContains(b, Before(poly, i)) && BoundsContains(b, poly[i]);
    }
  }

  /** The location filter's test of one polygon. */
  method PolygonMatches(center: Point, poly: seq<Point>) returns (r: bool)
    ensures r ==> Inside(center, poly)
    ensures r != Inside(center, poly) <==>
      (exists b :: IsBoundingBox(b, poly) && !BoundsContains(b, center) && |poly| >= 3 && Touches(center, poly))
  {
    var bounds := PolygonBounds(poly);
    if bounds.None? {
      return false;
    }
    var contained := BoundsContains(bounds.value, center);
    if contained {
      r := PointInPolygon(center, poly);
      forall b | IsBoundingBox(b, poly) ensures b == bounds.value {
        BoxUnique(b, bounds.value, poly);
      }
    } else {
      r := false;
      if |poly| >= 3 {
        OutsideBox(center, poly, bounds.value);
      }
    }
  }

  lemma TouchingIsInside(p: Point, poly: seq<Point>, i: nat)
    requires |poly| >= 3 && i < |poly| && PointOnSegment(p, Before(poly, i), poly[i])
    ensures Inside(p, poly)
  {
  }

  lemma UnitEdgeReaches(p: Point)
    requires p == Point(0.0, 1.0000000005)
    ensures PointOnSegment(p, Point(0.0, 0.0), Point(0.0, 1.0))
  {
  }

  lemma UnitTriangleBox(poly: seq<Point>)
    requires poly == [Point(0.0, 0.0), Point(0.0, 1.0), Point(1.0, 0.0)]
    ensures IsBoundingBox(Bounds(0.0, 1.0, 0.0, 1.0), poly)
  {
    assert poly[0] == Point(0.0, 0.0) && poly[1] == Point(0.0, 1.0) && poly[2] == Point(1.0, 0.0);
  }

  lemma BeyondBox(p: Point, b: Bounds)
    requires p.lon > b.maxLon
    ensures !BoundsContains(b, p)
  {
  }

  /** A point beyond the box but within the tolerance of an edge: inside, and lost to the box test. */
  lemma PrefilterLosesEdgePoint(poly: seq<Point>, p: Point, b: Bounds)
    requires poly == [Point(0.0, 0.0), Point(0.0, 1.0), Point(1.0, 0.0)] && p == Point(0.0, 1.0000000005)
    requires b == Bounds(0.0, 1.0, 0.0, 1.0)
    ensures IsBoundingBox(b, poly) && !BoundsContains(b, p) && Inside(p, poly)
  {
    assert IsBoundingBox(b, poly) by {
      UnitTriangleBox(poly);
    }
    assert !BoundsContains(b, p) by {
      BeyondBox(p, b);
    }
    assert Inside(p, poly) by {
      UnitEdgeReaches(p);
      assert Before(poly, 1) == Point(0.0, 0.0);
      TouchingIsInside(p, poly, 1);
    }
  }

  lemma BoxUnique(b: Bounds, c: Bounds, poly: seq<Point>)
    requires IsBoundingBox(b, poly) && IsBoundingBox(c, poly)
    ensures b == c
  {
  }

  // ---------- symmetry of the verdict ----------

  lemma InterceptSymmetric(p: Point, a: Point, b: Point)
    requires a.lat != b.lat
    ensures Intercept(p, a, b) == Intercept(p, b, a)
  {
    var w, d := a.lat - b.lat, a.lon - b.lon;
    var n := p.lat - b.lat;
    var t := n / w;
    assert t * w == n;
    ProductQuotient(d, n, w);
    assert (1.0 - t) * (-w) == n - w;
    QuotientIs(n - w, -w, 1.0 - t);
    ProductQuotient(-d, n - w, -w);
    assert p.lat - a.lat == n - w && b.lat - a.lat == -w && b.lon - a.lon == -d;
    assert (-d) * (1.0 - t) + a.lon == d * t + b.lon;
  }

  lemma EdgeSymmetric(p: Point, a: Point, b: Point)
    ensures PointOnSegment(p, a, b) == PointOnSegment(p, b, a)
    ensures Crosses(p, a, b) == Crosses(p, b, a)
  {
    assert Cross(p, a, b) == -Cross(p, b, a);
    if Straddles(p, a, b) {
      InterceptSymmetric(p, a, b);
    }
  }

  function Bit(b: bool): nat {
    if b then 1 else 0
  }

  function RotateOne(poly: seq<Point>): seq<Point>
    requires poly != []
  {
    poly[1..] + [poly[0]]
  }

  lemma {:induction false} RotatedCount(p: Point, poly: seq<Point>, n: nat)
    requires 2 <= |poly| && n < |poly|
    ensures Crossings(p, RotateOne(poly), n) + Bit(Crosses(p, Before(poly, 0), poly[0])) == Crossings(p, poly, n + 1)
  {
    var rot := RotateOne(poly);
    if n > 0 {
      RotatedCount(p, poly, n - 1);
      assert rot[n - 1] == poly[n] && Before(rot, n - 1) == Before(poly, n);
    }
  }

  lemma RotatedEdges(poly: seq<Point>)
    requires 2 <= |poly|
    ensures var rot, n := RotateOne(poly), |poly|;
      && |rot| == n && rot[n - 1] == poly[0] && Before(rot, n - 1) == Before(poly, 0)
      && forall i :: 0 <= i < n - 1 ==> rot[i] == poly[i + 1] && Before(rot, i) == Before(poly, i + 1)
  {
  }

  lemma RotatedTouch(p: Point, poly: seq<Point>)
    requires 2 <= |poly|
    ensures Touches(p, RotateOne(poly)) <==> Touches(p, poly)
  {
    var rot, n := RotateOne(poly), |poly|;
    RotatedEdges(poly);
    if Touches(p, poly) {
      var i :| 0 <= i < n && PointOnSegment(p, Before(poly, i), poly[i]);
      var j := if i == 0 then n - 1 else i - 1;
      assert PointOnSegment(p, Before(rot, j), rot[j]);
    }
    if Touches(p, rot) {
      var i :| 0 <= i < n && PointOnSegment(p, Before(rot, i), rot[i]);
      var j := if i == n - 1 then 0 else i + 1;
      assert PointOnSegment(p, Before(poly, j), poly[j]);
    }
  }

  lemma {:induction false} RotatedCrossings(p: Point, poly: seq<Point>)
    requires 2 <= |poly|
    ensures Crossings(p, RotateOne(poly), |poly|) == Crossings(p, poly, |poly|)
  {
    var rot, n := RotateOne(poly), |poly|;
    RotatedCount(p, poly, n - 1);
    RotatedEdges(poly);
    assert Crossings(p, rot, n) == Crossings(p, rot, n - 1) + Bit(Crosses(p, Before(rot, n - 1), rot[n - 1]));
  }

  lemma RotateOneInvariant(p: Point, poly: seq<Point>)
    requires 2 <= |poly|
    ensures Inside(p, RotateOne(poly)) == Inside(p, poly)
  {
    RotatedEdges(poly);
    RotatedTouch(p, poly);
    RotatedCrossings(p, poly);
  }

  /** The verdict does not depend on the vertex the list starts from. */
  lemma {:induction false} RotationInvariant(p: Point, poly: seq<Point>, k: nat)
    requires k <= |poly|
    ensures Inside(p, poly[k..] + poly[..k]) == Inside(p, poly)
  {
    if k == 0 {
      assert poly[0..] + poly[..0] == poly;
    } else if |poly| == 1 {
      assert poly[k..] + poly[..k] == poly;
    } else {
      RotationInvariant(p, poly, k - 1);
      var rot := poly[k - 1..] + poly[..k - 1];
      RotateOneInvariant(p, rot);
      RotateFurther(poly, k);
    }
  }

  lemma RotateFurther(poly: seq<Point>, k: nat)
    requires 1 <= k <= |poly|
    ensures RotateOne(poly[k - 1..] + poly[..k - 1]) == poly[k..] + poly[..k]
  {
  }

  function Reversed(poly: seq<Point>): seq<Point> {
    seq(|poly|, i requires 0 <= i < |poly| => poly[|poly| - 1 - i])
  }

  lemma {:induction false} ReversedCount(p: Point, poly: seq<Point>, k: nat)
    requires 1 <= k <= |poly|
    ensures Crossings(p, Reversed(poly), k) + Crossings(p, poly, |poly| - k + 1)
         == Crossings(p, poly, |poly|) + Crossings(p, poly, 1)
  {
    var rev, n := Reversed(poly), |poly|;
    if k == 1 {
      EdgeSymmetric(p, Before(poly, 0), poly[0]);
      assert Crossings(p, rev, 0) == 0 && Crossings(p, poly, 0) == 0;
    } else {
      ReversedCount(p, poly, k - 1);
      assert Before(rev, k - 1) == poly[n - k + 1] && rev[k - 1] == Before(poly, n - k + 1);
      EdgeSymmetric(p, Before(poly, n - k + 1), poly[n - k + 1]);
    }
  }

  lemma ReversedTouch(p: Point, poly: seq<Point>)
    requires Touches(p, poly)
    ensures Touches(p, Reversed(poly))
  {
    var rev, n := Reversed(poly), |poly|;
    var i :| 0 <= i < n && PointOnSegment(p, Before(poly, i), poly[i]);
    EdgeSymmetric(p, Before(poly, i), poly[i]);
    var j := if i == 0 then 0 else n - i;
    assert Before(rev, j) == poly[i] && rev[j] == Before(poly, i);
  }

  lemma ReversedTouchIff(p: Point, poly: seq<Point>)
    ensures Touches(p, Reversed(poly)) <==> Touches(p, poly)
  {
    assert Reversed(Reversed(poly)) == poly;
    if Touches(p, poly) {
      ReversedTouch(p, poly);
    } else if Touches(p, Reversed(poly)) {
      ReversedTouch(p, Reversed(poly));
    }
  }

  /** The verdict does not depend on the direction in which the vertices are listed. */
  lemma ReversalInvariant(p: Point, poly: seq<Point>)
    ensures Inside(p, Reversed(poly)) == Inside(p, poly)
  {
    ReversedTouchIff(p, poly);
    if poly != [] {
      ReversedCount(p, poly, |poly|);
    }
  }
}
