/**
 * What the ray casting verdict means off the edges: a triangle's interior is
 * where its three sides agree, and a polygon's is that of two parts it is cut
 * into. Orientations only: no intercepts and no counting.
 */
module GeoInterior {
  import opened Geo

  /** Twice the signed area of the triangle `a`, `b`, `p`: on which side of the line from `a` to `b` the point lies. */
  function Orientation(a: Point, b: Point, p: Point): real {
    (b.lon - a.lon) * (p.lat - a.lat) - (b.lat - a.lat) * (p.lon - a.lon)
  }

  /** The point a part `t` of the way from `a` to `b`. */
  function Along(a: Point, b: Point, t: real): Point {
    Point(a.lat + t * (b.lat - a.lat), a.lon + t * (b.lon - a.lon))
  }

  // ---------- edges ----------

  /** Every point of an edge touches it. */
  lemma EdgePointsTouch(a: Point, b: Point, t: real)
    requires 0.0 <= t <= 1.0
    ensures PointOnSegment(Along(a, b, t), a, b)
  {
    var p := Along(a, b, t);
    var u, v := b.lat - a.lat, b.lon - a.lon;
    PartOf(u, t);
    PartOf(v, t);
    assert u * t == t * u && v * t == t * v;
    assert Cross(p, a, b) == (t * u) * v - (t * v) * u == 0.0;
  }

  /** The tolerance: a touching point spans hardly any area with the edge and hardly leaves its box. */
  lemma TouchMeans(p: Point, a: Point, b: Point)
    ensures PointOnSegment(p, a, b) <==>
      && -0.000000001 <= Orientation(a, b, p) <= 0.000000001
      && (a.lat - 0.000000001 <= p.lat || b.lat - 0.000000001 <= p.lat)
      && (p.lat <= a.lat + 0.000000001 || p.lat <= b.lat + 0.000000001)
      && (a.lon - 0.000000001 <= p.lon || b.lon - 0.000000001 <= p.lon)
      && (p.lon <= a.lon + 0.000000001 || p.lon <= b.lon + 0.000000001)
  {
    assert Cross(p, a, b) == Orientation(a, b, p);
  }

  lemma QuotientBound(x: real, m: real, w: real)
    requires w != 0.0
    ensures x <= m / w <==> (if w > 0.0 then x * w <= m else x * w >= m)
  {
    var q := m / w;
    assert q * w == m;
    assert (x - q) * w == x * w - m;
    ProductSign(x - q, w);
  }

  lemma OrientationFromEnd(a: Point, b: Point, p: Point)
    ensures Orientation(a, b, p) == (a.lat - b.lat) * (p.lon - b.lon) - (a.lon - b.lon) * (p.lat - b.lat)
  {
  }

  /** The ray meets an edge exactly when the edge straddles the latitude and passes right of the point. */
  lemma CrossesBySide(p: Point, a: Point, b: Point)
    ensures Crosses(p, a, b) <==>
      Straddles(p, a, b) && (if b.lat > a.lat then Orientation(a, b, p) >= 0.0 else Orientation(a, b, p) <= 0.0)
  {
    OrientationFromEnd(a, b, p);
    if Straddles(p, a, b) {
      var m, w, x := (a.lon - b.lon) * (p.lat - b.lat), a.lat - b.lat, p.lon - b.lon;
      QuotientBound(x, m, w);
      assert Intercept(p, a, b) == m / w + b.lon;
    }
  }

  /** A point on the line of an edge that straddles its latitude touches the edge. */
  lemma OnStraddlingLine(p: Point, a: Point, b: Point)
    requires Straddles(p, a, b) && Orientation(a, b, p) == 0.0
    ensures PointOnSegment(p, a, b)
  {
    var n, w := p.lat - a.lat, b.lat - a.lat;
    FractionBetween(n, w);
    var t := n / w;
    assert t * w == n;
    assert ((b.lon - a.lon) * t - (p.lon - a.lon)) * w == Orientation(a, b, p) by {
      assert (b.lon - a.lon) * t * w == (b.lon - a.lon) * n;
    }
    assert p == Along(a, b, t);
    EdgePointsTouch(a, b, t);
  }

  /** A point level with both ends of an edge and between them touches it. */
  lemma OnLevelEdge(p: Point, a: Point, b: Point)
    requires p.lat == a.lat == b.lat && (a.lon <= p.lon <= b.lon || b.lon <= p.lon <= a.lon)
    ensures PointOnSegment(p, a, b)
  {
  }

  // ---------- triangles ----------

  ghost predicate SameSign(x: real, y: real, z: real) {
    (x > 0.0 && y > 0.0 && z > 0.0) || (x < 0.0 && y < 0.0 && z < 0.0)
  }

  lemma OrientationAround(a: Point, b: Point, p: Point)
    ensures Orientation(a, b, p)
         == (a.lon - p.lon) * (b.lat - p.lat) - (b.lon - p.lon) * (a.lat - p.lat)
  {
  }

  lemma Balance(x: real, u: real, y: real, v: real, z: real, w: real)
    ensures (y * w - z * v) * u + (z * u - x * w) * v + (x * v - y * u) * w == 0.0
  {
  }

  /** The orientations, weighed by the heights of the opposite vertices, balance; and they add up to the whole. */
  lemma Weighed(a: Point, b: Point, c: Point, p: Point)
    ensures Orientation(b, c, p) * (a.lat - p.lat) + Orientation(c, a, p) * (b.lat - p.lat)
            + Orientation(a, b, p) * (c.lat - p.lat) == 0.0
    ensures Orientation(a, b, p) + Orientation(b, c, p) + Orientation(c, a, p) == Orientation(a, b, c)
  {
    OrientationAround(a, b, p);
    OrientationAround(b, c, p);
    OrientationAround(c, a, p);
    Balance(a.lon - p.lon, a.lat - p.lat, b.lon - p.lon, b.lat - p.lat, c.lon - p.lon, c.lat - p.lat);
  }

  ghost predicate TouchesNone(p: Point, a: Point, b: Point, c: Point) {
    !PointOnSegment(p, a, b) && !PointOnSegment(p, b, c) && !PointOnSegment(p, c, a)
  }

  /** An odd number of the three edges is met. */
  ghost predicate OddOfThree(p: Point, a: Point, b: Point, c: Point) {
    (Crosses(p, a, b) != Crosses(p, b, c)) != Crosses(p, c, a)
  }

  lemma SignOfProduct(x: real, y: real)
    ensures x > 0.0 && y > 0.0 ==> x * y > 0.0
    ensures x > 0.0 && y < 0.0 ==> x * y < 0.0
    ensures x < 0.0 && y > 0.0 ==> x * y < 0.0
    ensures x < 0.0 && y < 0.0 ==> x * y > 0.0
    ensures x == 0.0 || y == 0.0 ==> x * y == 0.0
  {
  }

  /** Weights of one sign balance only against heights of both signs, or none. */
  lemma NoBalance(x: real, y: real, z: real, u: real, v: real, w: real)
    requires SameSign(x, y, z) && y * u + z * v + x * w == 0.0
    ensures u > 0.0 && v >= 0.0 ==> w < 0.0
    ensures u < 0.0 && v <= 0.0 ==> w > 0.0
    ensures u == 0.0 && v == 0.0 ==> w == 0.0
    ensures u == 0.0 ==> !(v > 0.0 && w > 0.0) && !(v < 0.0 && w <= 0.0)
  {
    SignOfProduct(y, u);
    SignOfProduct(z, v);
    SignOfProduct(x, w);
  }

  /** No vertex, or every vertex, is above the point's latitude. */
  lemma AllOnOneSide(p: Point, a: Point, b: Point, c: Point)
    requires (a.lat > p.lat) == (b.lat > p.lat) && (b.lat > p.lat) == (c.lat > p.lat)
    ensures !OddOfThree(p, a, b, c)
    ensures !SameSign(Orientation(a, b, p), Orientation(b, c, p), Orientation(c, a, p))
  {
    Weighed(a, b, c, p);
    var x, y, z := Orientation(a, b, p), Orientation(b, c, p), Orientation(c, a, p);
    if SameSign(x, y, z) {
      NoBalance(x, y, z, a.lat - p.lat, b.lat - p.lat, c.lat - p.lat);
      assert false;
    }
  }

  /** One vertex alone, `a`, above the point's latitude or not: two edges meet there, and decide. */
  lemma OneApart(p: Point, a: Point, b: Point, c: Point)
    requires TouchesNone(p, a, b, c)
    requires (b.lat > p.lat) == (c.lat > p.lat) && (a.lat > p.lat) != (b.lat > p.lat)
    ensures OddOfThree(p, a, b, c)
       <==> SameSign(Orientation(a, b, p), Orientation(b, c, p), Orientation(c, a, p))
  {
    CrossesBySide(p, a, b);
    CrossesBySide(p, b, c);
    CrossesBySide(p, c, a);
    var x, y, z := Orientation(a, b, p), Orientation(b, c, p), Orientation(c, a, p);
    if x == 0.0 {
      OnStraddlingLine(p, a, b);
    }
    if z == 0.0 {
      OnStraddlingLine(p, c, a);
    }
    assert OddOfThree(p, a, b, c) <==> (x > 0.0 && z > 0.0) || (x < 0.0 && z < 0.0);
    if (x > 0.0 && z > 0.0) || (x < 0.0 && z < 0.0) {
      ThirdSide(p, a, b, c);
    }
  }

  /** Where the two sides that meet at `a` agree, the third agrees with them. */
  lemma ThirdSide(p: Point, a: Point, b: Point, c: Point)
    requires !PointOnSegment(p, b, c)
    requires (b.lat > p.lat) == (c.lat > p.lat) && (a.lat > p.lat) != (b.lat > p.lat)
    requires var x, z := Orientation(a, b, p), Orientation(c, a, p); (x > 0.0 && z > 0.0) || (x < 0.0 && z < 0.0)
    ensures SameSign(Orientation(a, b, p), Orientation(b, c, p), Orientation(c, a, p))
  {
    var x, y, z := Orientation(a, b, p), Orientation(b, c, p), Orientation(c, a, p);
    var u, v, w := a.lat - p.lat, b.lat - p.lat, c.lat - p.lat;
    Weighed(a, b, c, p);
    if v == 0.0 && w == 0.0 {
      LevelBase(p, a, b, c);
      assert false;
    }
    ThirdSign(x, y, z, u, v, w);
  }

  lemma ThirdSign(x: real, y: real, z: real, u: real, v: real, w: real)
    requires y * u + z * v + x * w == 0.0 && !(v == 0.0 && w == 0.0)
    requires (x > 0.0 && z > 0.0) || (x < 0.0 && z < 0.0)
    requires (u > 0.0 && v <= 0.0 && w <= 0.0) || (u <= 0.0 && v > 0.0 && w > 0.0)
    ensures SameSign(x, y, z)
  {
    SignOfProduct(z, v);
    SignOfProduct(x, w);
    SignOfProduct(y, u);
  }

  /** With `b` and `c` level with the point, agreeing sides at `a` put it between them. */
  lemma LevelBase(p: Point, a: Point, b: Point, c: Point)
    requires b.lat == p.lat == c.lat && a.lat != p.lat
    requires var x, z := Orientation(a, b, p), Orientation(c, a, p); (x > 0.0 && z > 0.0) || (x < 0.0 && z < 0.0)
    ensures PointOnSegment(p, b, c)
  {
    var u := a.lat - p.lat;
    OrientationAround(a, b, p);
    OrientationAround(c, a, p);
    assert Orientation(a, b, p) == -(b.lon - p.lon) * u;
    assert Orientation(c, a, p) == (c.lon - p.lon) * u;
    SignOfProduct(-(b.lon - p.lon), u);
    SignOfProduct(c.lon - p.lon, u);
    assert b.lon <= p.lon <= c.lon || c.lon <= p.lon <= b.lon;
    OnLevelEdge(p, b, c);
  }

  lemma TriangleOdd(p: Point, a: Point, b: Point, c: Point)
    requires TouchesNone(p, a, b, c)
    ensures OddOfThree(p, a, b, c)
       <==> SameSign(Orientation(a, b, p), Orientation(b, c, p), Orientation(c, a, p))
  {
    if (a.lat > p.lat) == (b.lat > p.lat) {
      if (b.lat > p.lat) == (c.lat > p.lat) {
        AllOnOneSide(p, a, b, c);
      } else {
        OneApart(p, c, a, b);
      }
    } else if (b.lat > p.lat) == (c.lat > p.lat) {
      OneApart(p, a, b, c);
    } else {
      OneApart(p, b, c, a);
    }
  }

  lemma TriangleEdges(p: Point, a: Point, b: Point, c: Point)
    ensures Touches(p, [a, b, c]) <==> !TouchesNone(p, a, b, c)
    ensures OddCrossings(p, [a, b, c], 3) <==> OddOfThree(p, a, b, c)
  {
    var t := [a, b, c];
    assert Before(t, 0) == c && Before(t, 1) == a && Before(t, 2) == b;
    assert t[0] == a && t[1] == b && t[2] == c;
    assert Crossings(p, t, 3) == Crossings(p, t, 2) + Bit(Crosses(p, b, c));
    assert Crossings(p, t, 2) == Crossings(p, t, 1) + Bit(Crosses(p, a, b));
    assert Crossings(p, t, 1) == Crossings(p, t, 0) + Bit(Crosses(p, c, a));
  }

  /** Off its edges, a point is inside a triangle exactly when it lies on one side of all three. */
  lemma TriangleInside(p: Point, a: Point, b: Point, c: Point)
    requires !Touches(p, [a, b, c])
    ensures Inside(p, [a, b, c])
       <==> SameSign(Orientation(a, b, p), Orientation(b, c, p), Orientation(c, a, p))
  {
    TriangleEdges(p, a, b, c);
    TriangleOdd(p, a, b, c);
  }

  // ---------- cutting a polygon in two ----------

  /** A property of edges. */
  type Edges = (Point, Point) -> bool

  function MetBy(p: Point): Edges {
    (a, b) => Crosses(p, a, b)
  }

  function TouchedBy(p: Point): Edges {
    (a, b) => PointOnSegment(p, a, b)
  }

  /** How many edges of an open chain have the property. */
  ghost function Met(f: Edges, s: seq<Point>): nat {
    if |s| < 2 then 0 else Met(f, s[..|s| - 1]) + Bit(f(s[|s| - 2], s[|s| - 1]))
  }

  /** The same with the closing edge. */
  ghost function MetAround(f: Edges, poly: seq<Point>): nat
    requires poly != []
  {
    Bit(f(poly[|poly| - 1], poly[0])) + Met(f, poly)
  }

  lemma {:induction false} CrossingsMet(p: Point, poly: seq<Point>, n: nat)
    requires 1 <= n <= |poly|
    ensures Crossings(p, poly, n) == Bit(MetBy(p)(poly[|poly| - 1], poly[0])) + Met(MetBy(p), poly[..n])
  {
    if n > 1 {
      CrossingsMet(p, poly, n - 1);
      assert poly[..n][..n - 1] == poly[..n - 1];
    } else {
      assert Crossings(p, poly, 0) == 0;
    }
  }

  lemma {:induction false} TouchesMet(p: Point, poly: seq<Point>, n: nat)
    requires 1 <= n <= |poly|
    ensures !NoTouch(p, poly, n)
       <==> Bit(TouchedBy(p)(poly[|poly| - 1], poly[0])) + Met(TouchedBy(p), poly[..n]) > 0
  {
    if n > 1 {
      TouchesMet(p, poly, n - 1);
      assert poly[..n][..n - 1] == poly[..n - 1];
    }
  }

  /** Touching is having a touched edge, inside off the edges is an odd number of met ones. */
  lemma InsideMet(p: Point, poly: seq<Point>)
    requires poly != []
    ensures Touches(p, poly) <==> MetAround(TouchedBy(p), poly) > 0
    ensures |poly| >= 3 && !Touches(p, poly) ==> (Inside(p, poly) <==> MetAround(MetBy(p), poly) % 2 == 1)
  {
    assert poly[..|poly|] == poly;
    CrossingsMet(p, poly, |poly|);
    TouchesMet(p, poly, |poly|);
  }

  lemma {:induction false} MetSplit(f: Edges, s: seq<Point>, k: nat)
    requires k < |s|
    ensures Met(f, s) == Met(f, s[..k + 1]) + Met(f, s[k..])
    decreases |s|
  {
    if k == |s| - 1 {
      assert s[..k + 1] == s;
    } else {
      var t := s[..|s| - 1];
      MetSplit(f, t, k);
      assert t[..k + 1] == s[..k + 1] && t[k..] == s[k..][..|s[k..]| - 1];
      assert s[k..][|s[k..]| - 2] == s[|s| - 2] && s[k..][|s[k..]| - 1] == s[|s| - 1];
    }
  }

  /** Two chains joined by an edge. */
  lemma {:induction false} MetJoined(f: Edges, a: seq<Point>, b: seq<Point>)
    requires a != [] && b != []
    ensures Met(f, a + b) == Met(f, a) + Bit(f(a[|a| - 1], b[0])) + Met(f, b)
  {
    var s, k := a + b, |a| - 1;
    MetSplit(f, s, k);
    assert s[..k + 1] == a && s[k..] == [a[k]] + b;
    MetSplit(f, [a[k]] + b, 1);
    assert ([a[k]] + b)[..2] == [a[k], b[0]] && ([a[k]] + b)[1..] == b;
    assert [a[k], b[0]][..1] == [a[k]];
  }

  ghost predicate Diagonal(poly: seq<Point>, i: nat, j: nat) {
    i + 1 < j < |poly| && !(i == 0 && j == |poly| - 1)
  }

  /** The part from `i` to `j`, and the rest. */
  function Cap(poly: seq<Point>, i: nat, j: nat): seq<Point>
    requires i < j < |poly|
  {
    poly[i..j + 1]
  }

  function Rest(poly: seq<Point>, i: nat, j: nat): seq<Point>
    requires i < j < |poly|
  {
    poly[..i + 1] + poly[j..]
  }

  lemma {:induction false} MetThree(f: Edges, poly: seq<Point>, i: nat, j: nat)
    requires i < j < |poly|
    ensures Met(f, poly) == Met(f, poly[..i + 1]) + Met(f, Cap(poly, i, j)) + Met(f, poly[j..])
  {
    MetSplit(f, poly, i);
    MetSplit(f, poly[i..], j - i);
    assert poly[i..][..j - i + 1] == Cap(poly, i, j) && poly[i..][j - i..] == poly[j..];
  }

  /** Each edge of the polygon is in one part, and the diagonal in both. */
  lemma PartsMet(f: Edges, poly: seq<Point>, i: nat, j: nat)
    requires Diagonal(poly, i, j) && f(poly[j], poly[i]) == f(poly[i], poly[j])
    ensures MetAround(f, Cap(poly, i, j)) + MetAround(f, Rest(poly, i, j))
         == MetAround(f, poly) + 2 * Bit(f(poly[i], poly[j]))
  {
    MetThree(f, poly, i, j);
    MetJoined(f, poly[..i + 1], poly[j..]);
  }

  ghost predicate OddMet(p: Point, poly: seq<Point>) {
    poly != [] && MetAround(MetBy(p), poly) % 2 == 1
  }

  ghost predicate Untouched(p: Point, poly: seq<Point>) {
    poly != [] && MetAround(TouchedBy(p), poly) == 0
  }

  lemma InsideIsOddMet(p: Point, poly: seq<Point>)
    requires |poly| >= 3
    ensures Untouched(p, poly) <==> !Touches(p, poly)
    ensures Untouched(p, poly) ==> Inside(p, poly) == OddMet(p, poly)
  {
    InsideMet(p, poly);
  }

  lemma CutParts(p: Point, poly: seq<Point>, i: nat, j: nat)
    requires Diagonal(poly, i, j) && Untouched(p, poly) && !TouchedBy(p)(poly[i], poly[j])
    ensures Untouched(p, Cap(poly, i, j)) && Untouched(p, Rest(poly, i, j))
    ensures OddMet(p, poly) <==> OddMet(p, Cap(poly, i, j)) != OddMet(p, Rest(poly, i, j))
  {
    EdgeSymmetric(p, poly[i], poly[j]);
    var cap, rest := Cap(poly, i, j), Rest(poly, i, j);
    PartsMet(MetBy(p), poly, i, j);
    OddSum(MetAround(MetBy(p), cap), MetAround(MetBy(p), rest), MetAround(MetBy(p), poly),
           Bit(MetBy(p)(poly[i], poly[j])));
    PartsMet(TouchedBy(p), poly, i, j);
  }

  lemma OddSum(x: nat, y: nat, z: nat, b: nat)
    requires x + y == z + 2 * b
    ensures z % 2 == 1 <==> (x % 2 == 1) != (y % 2 == 1)
  {
  }

  /** Off its edges and the diagonal, a point is inside a polygon exactly when it is inside one of the two parts. */
  lemma DiagonalCut(p: Point, poly: seq<Point>, i: nat, j: nat)
    requires Diagonal(poly, i, j) && !Touches(p, poly) && !PointOnSegment(p, poly[i], poly[j])
    ensures !Touches(p, Cap(poly, i, j)) && !Touches(p, Rest(poly, i, j))
    ensures Inside(p, poly) <==> Inside(p, Cap(poly, i, j)) != Inside(p, Rest(poly, i, j))
  {
    InsideIsOddMet(p, poly);
    assert !TouchedBy(p)(poly[i], poly[j]);
    CutParts(p, poly, i, j);
    InsideIsOddMet(p, Cap(poly, i, j));
    InsideIsOddMet(p, Rest(poly, i, j));
  }

  // ---------- every polygon ----------

  /** The point lies strictly within the triangle: on one side of all its edges. */
  ghost predicate Within(p: Point, a: Point, b: Point, c: Point) {
    SameSign(Orientation(a, b, p), Orientation(b, c, p), Orientation(c, a, p))
  }

  /** A property of triangles. */
  type Triangles = (Point, Point, Point) -> bool

  ghost function HeldBy(p: Point): (r: Triangles)
    ensures forall a, b, c :: r(a, b, c) == Within(p, a, b, c)
  {
    (a: Point, b: Point, c: Point) => Within(p, a, b, c)
  }

  /** How many triangles of the fan from the first vertex, up to vertex `n`, have the property. */
  ghost function FanCount(f: Triangles, poly: seq<Point>, n: nat): nat
    requires n <= |poly|
  {
    if n < 3 then 0 else FanCount(f, poly, n - 1) + Bit(f(poly[0], poly[n - 2], poly[n - 1]))
  }

  /** The point touches no edge and no line from the first vertex. */
  ghost predicate OffFan(p: Point, poly: seq<Point>) {
    !Touches(p, poly) && forall k :: 0 < k < |poly| ==> !PointOnSegment(p, poly[0], poly[k])
  }

  /** Cutting off the last vertex. */
  lemma CutEar(p: Point, poly: seq<Point>)
    requires |poly| >= 4 && OffFan(p, poly)
    ensures var n, cap := |poly|, poly[..|poly| - 1];
      && OffFan(p, cap)
      && (Inside(p, poly) <==> Inside(p, cap) != Within(p, poly[0], poly[n - 2], poly[n - 1]))
  {
    var n, cap := |poly|, poly[..|poly| - 1];
    var ear := [poly[0], poly[n - 2], poly[n - 1]];
    assert Cap(poly, 0, n - 2) == cap && Rest(poly, 0, n - 2) == ear;
    DiagonalCut(p, poly, 0, n - 2);
    TriangleInside(p, ear[0], ear[1], ear[2]);
  }

  ghost predicate OddFan(p: Point, poly: seq<Point>) {
    FanCount(HeldBy(p), poly, |poly|) % 2 == 1
  }

  lemma TriangleFan(p: Point, poly: seq<Point>)
    requires |poly| == 3 && !Touches(p, poly)
    ensures Inside(p, poly) <==> OddFan(p, poly)
  {
    assert poly == [poly[0], poly[1], poly[2]];
    TriangleInside(p, poly[0], poly[1], poly[2]);
    assert FanCount(HeldBy(p), poly, 2) == 0;
  }

  lemma {:induction false} FanPrefix(f: Triangles, poly: seq<Point>, part: seq<Point>, n: nat)
    requires n <= |part| && part <= poly
    ensures FanCount(f, part, n) == FanCount(f, poly, n)
  {
    if n >= 3 {
      FanPrefix(f, poly, part, n - 1);
      assert part[0] == poly[0] && part[n - 2] == poly[n - 2] && part[n - 1] == poly[n - 1];
    }
  }

  lemma {:induction false} FanStep(f: Triangles, poly: seq<Point>)
    requires |poly| >= 4
    ensures FanCount(f, poly, |poly|)
         == FanCount(f, poly[..|poly| - 1], |poly| - 1) + Bit(f(poly[0], poly[|poly| - 2], poly[|poly| - 1]))
  {
    FanPrefix(f, poly, poly[..|poly| - 1], |poly| - 1);
  }

  lemma OddSuccessor(x: nat, y: nat, b: bool)
    requires y == x + Bit(b)
    ensures y % 2 == 1 <==> (x % 2 == 1) != b
  {
  }

  /** Off those lines, a point is inside any polygon exactly when an odd number of its fan's triangles hold it. */
  lemma InsideIsOddFan(p: Point, poly: seq<Point>)
    requires |poly| >= 3 && OffFan(p, poly)
    ensures Inside(p, poly) <==> OddFan(p, poly)
    decreases |poly|, 1
  {
    if |poly| == 3 {
      TriangleFan(p, poly);
    } else {
      InsideIsOddFanStep(p, poly);
    }
  }

  lemma InsideIsOddFanStep(p: Point, poly: seq<Point>)
    requires |poly| >= 4 && OffFan(p, poly)
    ensures Inside(p, poly) <==> OddFan(p, poly)
    decreases |poly|, 0
  {
    assert OffFan(p, poly[..|poly| - 1]) && (Inside(p, poly) <==>
      Inside(p, poly[..|poly| - 1]) != Within(p, poly[0], poly[|poly| - 2], poly[|poly| - 1])) by {
      CutEar(p, poly);
    }
    var n, part := |poly|, poly[..|poly| - 1];
    var held := HeldBy(p)(poly[0], poly[n - 2], poly[n - 1]);
    assert OddFan(p, poly) <==> OddFan(p, part) != held by {
      FanStep(HeldBy(p), poly);
      OddSuccessor(FanCount(HeldBy(p), part, n - 1), FanCount(HeldBy(p), poly, n), held);
    }
    InsideIsOddFan(p, part);
  }

  /** A point in the box of a triangle but beyond its long side is outside. */
  lemma BeyondLongSide(a: Point, b: Point, c: Point, p: Point)
    requires a == Point(0.0, 0.0) && b == Point(0.0, 10.0) && c == Point(10.0, 0.0) && p == Point(6.0, 6.0)
    ensures BoundsContains(Bounds(0.0, 10.0, 0.0, 10.0), p) && !Inside(p, [a, b, c])
  {
    TouchMeans(p, a, b);
    TouchMeans(p, b, c);
    TouchMeans(p, c, a);
    TriangleEdges(p, a, b, c);
    TriangleInside(p, a, b, c);
  }
}
