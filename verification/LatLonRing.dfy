/**
 * Validation of a parsed LAT...LON polygon: closing the ring and rejecting
 * self-intersections, over exact real coordinates.
 */
module LatLonRing {
  import opened Prelude
  import opened Geo

  /** Sign of the turn at `b`; longitude is x, latitude is y. */
  function Orientation(a: Point, b: Point, c: Point): real {
    (b.lat - a.lat) * (c.lon - b.lon) - (b.lon - a.lon) * (c.lat - b.lat)
  }

  predicate SegmentsIntersect(a: Point, b: Point, c: Point, d: Point) {
    && Orientation(a, b, c) * Orientation(a, b, d) < 0.0
    && Orientation(c, d, a) * Orientation(c, d, b) < 0.0
  }

  // ---------- what the sign test means ----------

  function Cross(ux: real, uy: real, vx: real, vy: real): real {
    ux * vy - uy * vx
  }

  function Det(a: Point, b: Point, c: Point, d: Point): real {
    Cross(b.lon - a.lon, b.lat - a.lat, d.lon - c.lon, d.lat - c.lat)
  }

  function Between(x: real, y: real, s: real): real {
    x + s * (y - x)
  }

  function Along(a: Point, b: Point, s: real): Point {
    Point(Between(a.lat, b.lat, s), Between(a.lon, b.lon, s))
  }

  ghost predicate MeetAt(a: Point, b: Point, c: Point, d: Point, s: real, t: real) {
    0.0 < s < 1.0 && 0.0 < t < 1.0 && Along(a, b, s) == Along(c, d, t)
  }

  /** Two segments cross at a point interior to both, and are not parallel. */
  ghost predicate ProperCrossing(a: Point, b: Point, c: Point, d: Point) {
    Det(a, b, c, d) != 0.0 && exists s, t :: MeetAt(a, b, c, d, s, t)
  }

  /** The four orientations in terms of two of them and the determinant. */
  lemma OrientationShift(a: Point, b: Point, c: Point, d: Point)
    ensures Orientation(a, b, d) == Orientation(a, b, c) - Det(a, b, c, d)
    ensures Orientation(c, d, b) == Orientation(c, d, a) + Det(a, b, c, d)
  {
  }

  lemma InUnitInterval(p: real, d: real)
    requires d != 0.0
    ensures p * (p - d) < 0.0 <==> 0.0 < p / d < 1.0
  {
    var t := p / d;
    assert t * d == p;
    ProductSign(t, d);
    ProductSign(t - 1.0, d);
    assert (t - 1.0) * d == p - d;
    ProductSign(p, p - d);
  }

  /** Cramer's rule, one direction: a solution of s*u - t*v == w has the ratios of determinants. */
  lemma CramerForward(ux: real, uy: real, vx: real, vy: real, wx: real, wy: real, s: real, t: real)
    requires s * ux - t * vx == wx && s * uy - t * vy == wy
    ensures s * (ux * vy - uy * vx) == -(vx * wy - vy * wx)
    ensures t * (ux * vy - uy * vx) == uy * wx - ux * wy
  {
    assert vx * (s * uy - t * vy) - vy * (s * ux - t * vx) == s * (vx * uy - vy * ux);
    assert uy * (s * ux - t * vx) - ux * (s * uy - t * vy) == t * (ux * vy - uy * vx);
  }

  /** The other direction. */
  lemma CramerBackward(ux: real, uy: real, vx: real, vy: real, wx: real, wy: real, s: real, t: real)
    requires ux * vy - uy * vx != 0.0
    requires s * (ux * vy - uy * vx) == -(vx * wy - vy * wx)
    requires t * (ux * vy - uy * vx) == uy * wx - ux * wy
    ensures s * ux - t * vx == wx && s * uy - t * vy == wy
  {
    var det := ux * vy - uy * vx;
    assert det * (wx - (s * ux - t * vx)) == det * wx - (s * det) * ux + (t * det) * vx;
    assert det * (wy - (s * uy - t * vy)) == det * wy - (s * det) * uy + (t * det) * vy;
    assert det * wx + (vx * wy - vy * wx) * ux + (uy * wx - ux * wy) * vx == 0.0;
    assert det * wy + (vx * wy - vy * wx) * uy + (uy * wx - ux * wy) * vy == 0.0;
    ZeroFactor(det, wx - (s * ux - t * vx));
    ZeroFactor(det, wy - (s * uy - t * vy));
  }

  predicate Solves(ux: real, uy: real, vx: real, vy: real, wx: real, wy: real, s: real, t: real) {
    s * ux - t * vx == wx && s * uy - t * vy == wy
  }

  /** Two linear equations and their solution. */
  lemma Cramer(ux: real, uy: real, vx: real, vy: real, wx: real, wy: real, s: real, t: real)
    requires Cross(ux, uy, vx, vy) != 0.0
    ensures Solves(ux, uy, vx, vy, wx, wy, s, t) <==>
      s * Cross(ux, uy, vx, vy) == -Cross(vx, vy, wx, wy) && t * Cross(ux, uy, vx, vy) == -Cross(ux, uy, wx, wy)
  {
    if Solves(ux, uy, vx, vy, wx, wy, s, t) {
      CramerForward(ux, uy, vx, vy, wx, wy, s, t);
    }
    if s * Cross(ux, uy, vx, vy) == -Cross(vx, vy, wx, wy) && t * Cross(ux, uy, vx, vy) == -Cross(ux, uy, wx, wy) {
      CramerBackward(ux, uy, vx, vy, wx, wy, s, t);
    }
  }

  lemma Turn(u: real, v: real, x: real, y: real)
    ensures u * (x - v) - v * (y - u) == u * x - v * y
  {
    assert u * (x - v) == u * x - u * v;
    assert v * (y - u) == v * y - v * u;
  }

  lemma Negated(u: real, x: real)
    ensures u * -x == -(u * x)
  {
  }

  /** Orientations relative to `a`. */
  lemma OrientationsAt(a: Point, b: Point, c: Point, d: Point)
    ensures Orientation(a, b, c) == -Cross(b.lon - a.lon, b.lat - a.lat, c.lon - a.lon, c.lat - a.lat)
    ensures Orientation(c, d, a) == Cross(d.lon - c.lon, d.lat - c.lat, c.lon - a.lon, c.lat - a.lat)
  {
    assert c.lon - b.lon == (c.lon - a.lon) - (b.lon - a.lon) && c.lat - b.lat == (c.lat - a.lat) - (b.lat - a.lat);
    assert a.lon - d.lon == (a.lon - c.lon) - (d.lon - c.lon) && a.lat - d.lat == (a.lat - c.lat) - (d.lat - c.lat);
    assert a.lon - c.lon == -(c.lon - a.lon) && a.lat - c.lat == -(c.lat - a.lat);
    Turn(b.lat - a.lat, b.lon - a.lon, c.lon - a.lon, c.lat - a.lat);
    Turn(d.lat - c.lat, d.lon - c.lon, a.lon - c.lon, a.lat - c.lat);
    Negated(d.lat - c.lat, c.lon - a.lon);
    Negated(d.lon - c.lon, c.lat - a.lat);
  }

  lemma Balance(x: real, p: real, y: real, q: real)
    ensures x + p == y + q <==> p - q == y - x
  {
  }

  lemma BetweenEqual(a: real, b: real, c: real, d: real, s: real, t: real)
    ensures Between(a, b, s) == Between(c, d, t) <==> s * (b - a) - t * (d - c) == c - a
  {
    var p, q := s * (b - a), t * (d - c);
    assert Between(a, b, s) == a + p && Between(c, d, t) == c + q;
    Balance(a, p, c, q);
  }

  lemma AlongEqual(a: Point, b: Point, c: Point, d: Point, s: real, t: real)
    ensures Along(a, b, s) == Along(c, d, t)
       <==> Solves(b.lon - a.lon, b.lat - a.lat, d.lon - c.lon, d.lat - c.lat, c.lon - a.lon, c.lat - a.lat, s, t)
  {
    BetweenEqual(a.lon, b.lon, c.lon, d.lon, s, t);
    BetweenEqual(a.lat, b.lat, c.lat, d.lat, s, t);
  }

  /** The lines meet where the orientations say. */
  lemma LinesMeet(a: Point, b: Point, c: Point, d: Point, s: real, t: real)
    requires Det(a, b, c, d) != 0.0
    ensures Along(a, b, s) == Along(c, d, t) <==>
      s * Det(a, b, c, d) == -Orientation(c, d, a) && t * Det(a, b, c, d) == Orientation(a, b, c)
  {
    AlongEqual(a, b, c, d, s, t);
    OrientationsAt(a, b, c, d);
    Cramer(b.lon - a.lon, b.lat - a.lat, d.lon - c.lon, d.lat - c.lat, c.lon - a.lon, c.lat - a.lat, s, t);
  }

  lemma ZeroFactor(d: real, x: real)
    requires d != 0.0 && d * x == 0.0
    ensures x == 0.0
  {
  }

  lemma SameProduct(d: real, x: real, y: real)
    requires d != 0.0 && x * d == y * d
    ensures x == y
  {
    assert d * (x - y) == x * d - y * d;
    ZeroFactor(d, x - y);
  }

  /** When the meeting parameters solve s*det == m and t*det == p, there is one candidate to look at. */
  lemma MeetingIsUnique(a: Point, b: Point, c: Point, d: Point, det: real, m: real, p: real, s: real, t: real)
    requires det != 0.0 && s * det == m && t * det == p
    requires forall s', t' :: Along(a, b, s') == Along(c, d, t') <==> s' * det == m && t' * det == p
    ensures (exists s', t' :: MeetAt(a, b, c, d, s', t')) <==> 0.0 < s < 1.0 && 0.0 < t < 1.0
  {
    if s', t' :| MeetAt(a, b, c, d, s', t') {
      assert s' * det == m && t' * det == p;
      SameProduct(det, s', s);
      SameProduct(det, t', t);
    } else {
      assert !MeetAt(a, b, c, d, s, t);
    }
  }

  lemma RatiosDecide(a: Point, b: Point, c: Point, d: Point, det: real, p: real, q: real)
    requires det != 0.0
    requires forall s, t :: Along(a, b, s) == Along(c, d, t) <==> s * det == -q && t * det == p
    ensures (exists s, t :: MeetAt(a, b, c, d, s, t)) <==> 0.0 < -q / det < 1.0 && 0.0 < p / det < 1.0
  {
    var s, t := -q / det, p / det;
    assert s * det == -q && t * det == p;
    MeetingIsUnique(a, b, c, d, det, -q, p, s, t);
  }

  lemma CrossingRatios(a: Point, b: Point, c: Point, d: Point, det: real, p: real, q: real)
    requires det == Det(a, b, c, d) != 0.0 && p == Orientation(a, b, c) && q == Orientation(c, d, a)
    ensures ProperCrossing(a, b, c, d) <==> 0.0 < -q / det < 1.0 && 0.0 < p / det < 1.0
  {
    forall s, t ensures Along(a, b, s) == Along(c, d, t) <==> s * det == -q && t * det == p {
      LinesMeet(a, b, c, d, s, t);
    }
    RatiosDecide(a, b, c, d, det, p, q);
  }

  /** The sign test accepts exactly the pairs of segments that properly cross. */
  lemma IntersectMeansCrossing(a: Point, b: Point, c: Point, d: Point)
    ensures SegmentsIntersect(a, b, c, d) <==> ProperCrossing(a, b, c, d)
  {
    var det, p, q := Det(a, b, c, d), Orientation(a, b, c), Orientation(c, d, a);
    OrientationShift(a, b, c, d);
    if det == 0.0 {
      assert p * p >= 0.0;
    } else {
      InUnitInterval(p, det);
      InUnitInterval(-q, det);
      assert (-q) * (-q - det) == q * (q + det);
      CrossingRatios(a, b, c, d, det, p, q);
    }
  }

  // ---------- the scan over pairs of segments ----------

  /** Pairs of segment indices the scan tests. */
  predicate Tested(i: nat, j: nat, segments: nat) {
    i < j < segments && j != i + 1 && !(i == 0 && j == segments - 1)
  }

  ghost predicate PairCrosses(points: seq<Point>, i: nat, j: nat)
    requires i + 1 < |points| && j + 1 < |points|
  {
    SegmentsIntersect(points[i], points[i + 1], points[j], points[j + 1])
  }

  function Segments(points: seq<Point>): nat {
    if points == [] then 0 else |points| - 1
  }

  ghost predicate SelfIntersects(points: seq<Point>) {
    exists i: nat, j: nat :: Tested(i, j, Segments(points)) && PairCrosses(points, i, j)
  }

  method HasSelfIntersection(points: seq<Point>) returns (r: bool)
    ensures r == SelfIntersects(points)
  {
    var segments := Segments(points);
    for first := 0 to segments
      invariant forall i: nat, j: nat :: i < first && Tested(i, j, segments) ==> !PairCrosses(points, i, j)
    {
      for second := first + 1 to segments
        invariant forall i: nat, j: nat :: i < first && Tested(i, j, segments) ==> !PairCrosses(points, i, j)
        invariant forall j: nat :: j < second && Tested(first, j, segments) ==> !PairCrosses(points, first, j)
      {
        if second == first + 1 || (first == 0 && second == segments - 1) {
          continue;
        }
        if SegmentsIntersect(points[first], points[first + 1], points[second], points[second + 1]) {
          assert Tested(first, second, segments) && PairCrosses(points, first, second);
          return true;
        }
      }
    }
    return false;
  }

  // ---------- the ring ----------

  function Succ(i: nat, n: nat): nat {
    if i + 1 == n then 0 else i + 1
  }

  predicate CyclicallyApart(i: nat, j: nat, n: nat) {
    i < n && j < n && i != j && j != Succ(i, n) && i != Succ(j, n)
  }

  ghost predicate EdgesCross(ring: seq<Point>, i: nat, j: nat)
    requires i < |ring| && j < |ring|
  {
    SegmentsIntersect(ring[i], ring[Succ(i, |ring|)], ring[j], ring[Succ(j, |ring|)])
  }

  /** Two edges of the ring with no common vertex position cross. */
  ghost predicate RingCrosses(ring: seq<Point>) {
    exists i: nat, j: nat :: CyclicallyApart(i, j, |ring|) && EdgesCross(ring, i, j)
  }

  function Close(ring: seq<Point>): seq<Point>
    requires ring != []
  {
    ring + [ring[0]]
  }

  lemma IntersectSymmetric(a: Point, b: Point, c: Point, d: Point)
    ensures SegmentsIntersect(a, b, c, d) == SegmentsIntersect(c, d, a, b)
    ensures SegmentsIntersect(a, b, c, d) == SegmentsIntersect(b, a, c, d)
  {
    assert Orientation(b, a, c) == -Orientation(a, b, c);
    assert Orientation(b, a, d) == -Orientation(a, b, d);
  }

  /** On a closed list the scan finds exactly the crossings between cyclically non-adjacent edges. */
  lemma ScanIsCyclic(ring: seq<Point>)
    requires ring != []
    ensures SelfIntersects(Close(ring)) <==> RingCrosses(ring)
  {
    var points, n := Close(ring), |ring|;
    if SelfIntersects(points) {
      var i: nat, j: nat :| Tested(i, j, Segments(points)) && PairCrosses(points, i, j);
      assert CyclicallyApart(i, j, n) && EdgesCross(ring, i, j);
    }
    if RingCrosses(ring) {
      var i: nat, j: nat :| CyclicallyApart(i, j, n) && EdgesCross(ring, i, j);
      IntersectSymmetric(ring[i], ring[Succ(i, n)], ring[j], ring[Succ(j, n)]);
      var lo, hi := if i < j then i else j, if i < j then j else i;
      assert Tested(lo, hi, Segments(points)) && PairCrosses(points, lo, hi);
    }
  }

  function Pred(i: nat, n: nat): nat
    requires i < n
  {
    if i == 0 then n - 1 else i - 1
  }

  /** Rotating by one moves every edge back by one. */
  lemma EdgesShift(ring: seq<Point>, i: nat, j: nat)
    requires i < |ring| && j < |ring|
    ensures EdgesCross(RotateOne(ring), i, j) == EdgesCross(ring, Succ(i, |ring|), Succ(j, |ring|))
    ensures CyclicallyApart(i, j, |ring|) == CyclicallyApart(Succ(i, |ring|), Succ(j, |ring|), |ring|)
  {
    var rot, n := RotateOne(ring), |ring|;
    assert forall k :: 0 <= k < n ==> rot[k] == ring[Succ(k, n)];
  }

  lemma RotateOnceKeepsCrossing(ring: seq<Point>)
    requires ring != []
    ensures RingCrosses(RotateOne(ring)) <==> RingCrosses(ring)
  {
    var rot, n := RotateOne(ring), |ring|;
    if RingCrosses(rot) {
      var i: nat, j: nat :| CyclicallyApart(i, j, n) && EdgesCross(rot, i, j);
      EdgesShift(ring, i, j);
    }
    if RingCrosses(ring) {
      var i: nat, j: nat :| CyclicallyApart(i, j, n) && EdgesCross(ring, i, j);
      EdgesShift(ring, Pred(i, n), Pred(j, n));
    }
  }

  /** The verdict does not depend on the start vertex. */
  lemma {:induction false} RotationKeepsCrossing(ring: seq<Point>, k: nat)
    requires k <= |ring| && ring != []
    ensures RingCrosses(ring[k..] + ring[..k]) <==> RingCrosses(ring)
  {
    if k == 0 {
      assert ring[0..] + ring[..0] == ring;
    } else {
      RotationKeepsCrossing(ring, k - 1);
      RotateOnceKeepsCrossing(ring[k - 1..] + ring[..k - 1]);
      RotateFurther(ring, k);
    }
  }

  lemma ReversalKeepsOneWay(ring: seq<Point>)
    requires RingCrosses(ring)
    ensures RingCrosses(Reversed(ring))
  {
    var rev, n := Reversed(ring), |ring|;
    var i: nat, j: nat :| CyclicallyApart(i, j, n) && EdgesCross(ring, i, j);
    // Edge i runs from i to Succ(i); reversed it is the edge that ends where edge i began.
    var i', j' := if i == n - 1 then n - 1 else n - 2 - i, if j == n - 1 then n - 1 else n - 2 - j;
    assert rev[i'] == ring[Succ(i, n)] && rev[Succ(i', n)] == ring[i];
    assert rev[j'] == ring[Succ(j, n)] && rev[Succ(j', n)] == ring[j];
    var a, b, c, d := ring[i], ring[Succ(i, n)], ring[j], ring[Succ(j, n)];
    IntersectSymmetric(a, b, c, d);
    IntersectSymmetric(c, d, b, a);
    IntersectSymmetric(d, c, b, a);
    assert CyclicallyApart(i', j', n) && EdgesCross(rev, i', j');
  }

  /** The verdict does not depend on the direction of the ring. */
  lemma ReversalKeepsCrossing(ring: seq<Point>)
    ensures RingCrosses(Reversed(ring)) <==> RingCrosses(ring)
  {
    if RingCrosses(ring) {
      ReversalKeepsOneWay(ring);
    }
    if RingCrosses(Reversed(ring)) {
      ReversalKeepsOneWay(Reversed(ring));
      assert Reversed(Reversed(ring)) == ring;
    }
  }

  // ---------- validation ----------

  datatype PolygonError = InvalidCoordinateCount | GeometryInvalid

  ghost predicate IsClosed(points: seq<Point>) {
    points != [] && points[0] == points[|points| - 1]
  }

  function Closed(points: seq<Point>): seq<Point>
    requires points != []
  {
    if points[0] != points[|points| - 1] then points + [points[0]] else points
  }

  /** A list of at most three segments has no pair to test, so the length guard changes nothing. */
  lemma ShortNeverIntersects(points: seq<Point>)
    requires |points| <= 4
    ensures !SelfIntersects(points)
  {
  }

  method ValidatePolygon(points: seq<Point>) returns (r: Result<seq<Point>, PolygonError>)
    ensures r == Err(InvalidCoordinateCount) <==> |points| < 3
    ensures r == Err(GeometryInvalid) <==> |points| >= 3 && SelfIntersects(Closed(points))
    ensures r.Ok? ==> r.value == Closed(points) && IsClosed(r.value) && !SelfIntersects(r.value)
  {
    if |points| < 3 {
      return Err(InvalidCoordinateCount);
    }
    var ring := points;
    if points[0] != points[|points| - 1] {
      ring := ring + [points[0]];
    }
    if |ring| > 4 {
      var crosses := HasSelfIntersection(ring);
      if crosses {
        return Err(GeometryInvalid);
      }
    } else {
      ShortNeverIntersects(ring);
    }
    return Ok(ring);
  }
}
