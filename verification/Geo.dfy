/** Geographic zones: projection, containment, crossings, and the adjacency derived from them. */
module Geo {
  import opened Options

  datatype LatLng = LatLng(lat: real, lng: real)

  datatype Point = Point(x: real, y: real)

  type Ring = seq<LatLng>

  /** The projection origin and the cosine of its latitude (positive between the poles). */
  datatype Center = Center(lat: real, lng: real, cos: real)

  const METERS_PER_DEG := 111320.0

  function ProjectToMeters(center: Center, p: LatLng): Point {
    Point((p.lng - center.lng) * METERS_PER_DEG * center.cos, (center.lat - p.lat) * METERS_PER_DEG)
  }

  // ---- Containment ---------------------------------------------------------------

  /** The edge that ends at vertex `i` starts at the vertex before it, the last one for `i == 0`. */
  function Previous(ring: Ring, i: nat): LatLng
    requires i < |ring|
  {
    if i == 0 then ring[|ring| - 1] else ring[i - 1]
  }

  predicate Straddles(a: LatLng, b: LatLng, lng: real) {
    (a.lng > lng) != (b.lng > lng)
  }

  /** Latitude at which the edge from `b` to `a` meets the meridian `lng`. */
  function CrossingLat(a: LatLng, b: LatLng, lng: real): real
    requires Straddles(a, b, lng)
  {
    ((b.lat - a.lat) * (lng - a.lng)) / (b.lng - a.lng) + a.lat
  }

  datatype Side = Below | On | Above

  /** Where `p` lies on its meridian relative to a straddling edge. */
  function SideOf(a: LatLng, b: LatLng, p: LatLng): Side
    requires Straddles(a, b, p.lng)
  {
    var c := CrossingLat(a, b, p.lng);
    if p.lat < c then Below else if p.lat == c then On else Above
  }

  /** Among the edges ending at the first `n` vertices, those that straddle the meridian with `p` on `side`. */
  function Count(ring: Ring, n: nat, p: LatLng, side: Side): nat
    requires n <= |ring|
  {
    if n == 0 then 0
    else
      var a, b := ring[n - 1], Previous(ring, n - 1);
      Count(ring, n - 1, p, side) + (if Straddles(a, b, p.lng) && SideOf(a, b, p) == side then 1 else 0)
  }

  /** Ray casting: an odd number of edges above the point. */
  function Inside(ring: Ring, p: LatLng): bool {
    Count(ring, |ring|, p, Below) % 2 == 1
  }

  method PointInPolygon(p: LatLng, ring: Ring) returns (inside: bool)
    ensures inside == Inside(ring, p)
  {
    inside := false;
    var j := |ring| - 1;
    for i := 0 to |ring|
      invariant j == if i == 0 then |ring| - 1 else i - 1
      invariant inside == (Count(ring, i, p, Below) % 2 == 1)
    {
      var a, b := ring[i], ring[j];
      if (a.lng > p.lng) != (b.lng > p.lng) && p.lat < CrossingLat(a, b, p.lng) {
        inside := !inside;
      }
      j := i;
    }
  }

  function Straddling(ring: Ring, n: nat, lng: real): nat
    requires n <= |ring|
  {
    if n == 0 then 0
    else Straddling(ring, n - 1, lng) + (if Straddles(ring[n - 1], Previous(ring, n - 1), lng) then 1 else 0)
  }

  lemma {:induction false} SidesPartition(ring: Ring, n: nat, p: LatLng)
    requires n <= |ring|
    ensures Count(ring, n, p, Below) + Count(ring, n, p, On) + Count(ring, n, p, Above) == Straddling(ring, n, p.lng)
  {
    if n > 0 {
      SidesPartition(ring, n - 1, p);
    }
  }

  lemma {:induction false} StraddlingParity(ring: Ring, n: nat, lng: real)
    requires 0 < n <= |ring|
    ensures Straddling(ring, n, lng) % 2
         == (if (ring[|ring| - 1].lng > lng) != (ring[n - 1].lng > lng) then 1 else 0)
  {
    if n > 1 {
      StraddlingParity(ring, n - 1, lng);
    } else {
      assert Straddling(ring, 0, lng) == 0;
    }
  }

  /** A closed ring crosses any meridian an even number of times. */
  lemma RingsCrossEvenly(ring: Ring, lng: real)
    ensures Straddling(ring, |ring|, lng) % 2 == 0
  {
    if ring != [] {
      StraddlingParity(ring, |ring|, lng);
    }
  }

  /** The same point and ring on the local metre plane, northing in the place of latitude (it points south). */
  function InMeters(center: Center, p: LatLng): LatLng {
    var q := ProjectToMeters(center, p);
    LatLng(q.y, q.x)
  }

  function RingInMeters(center: Center, ring: Ring): (meters: Ring)
    ensures |meters| == |ring| && forall k :: 0 <= k < |ring| ==> meters[k] == InMeters(center, ring[k])
  {
    seq(|ring|, k requires 0 <= k < |ring| => InMeters(center, ring[k]))
  }

  lemma EastingOrder(center: Center, a: LatLng, lng: real)
    requires center.cos > 0.0
    ensures InMeters(center, a).lng > (lng - center.lng) * METERS_PER_DEG * center.cos <==> a.lng > lng
  {
    var scale := METERS_PER_DEG * center.cos;
    assert (a.lng - center.lng) * METERS_PER_DEG * center.cos == (a.lng - center.lng) * scale;
    assert (lng - center.lng) * METERS_PER_DEG * center.cos == (lng - center.lng) * scale;
    if a.lng > lng {
      Stretches(scale, a.lng - center.lng, lng - center.lng);
    } else if a.lng < lng {
      Stretches(scale, lng - center.lng, a.lng - center.lng);
    }
  }

  lemma Stretches(scale: real, a: real, b: real)
    requires scale > 0.0 && a > b
    ensures a * scale > b * scale
  {
  }

  lemma QuotientIs(n: real, d: real, q: real)
    requires d != 0.0 && q * d == n
    ensures n / d == q
  {
  }

  /** An affine map with factors `k` (east) and `-m` (north) carries the crossing point along. */
  lemma CrossingScales(k: real, m: real, rise: real, run: real, part: real)
    requires k > 0.0 && run != 0.0
    ensures run * k != 0.0
    ensures ((-m * rise) * (part * k)) / (run * k) == -m * ((rise * part) / run)
  {
    var q := (rise * part) / run;
    assert q * run == rise * part;
    assert (-m * q) * (run * k) == -m * (q * run) * k == (-m * rise) * (part * k);
    QuotientIs((-m * rise) * (part * k), run * k, -m * q);
  }

  lemma DifferencesScale(center: Center, a: LatLng, b: LatLng)
    ensures InMeters(center, b).lat - InMeters(center, a).lat == -METERS_PER_DEG * (b.lat - a.lat)
    ensures InMeters(center, b).lng - InMeters(center, a).lng == (b.lng - a.lng) * (METERS_PER_DEG * center.cos)
  {
  }

  lemma CrossingIsCarried(center: Center, a: LatLng, b: LatLng, p: LatLng)
    requires center.cos > 0.0 && Straddles(a, b, p.lng)
    requires Straddles(InMeters(center, a), InMeters(center, b), InMeters(center, p).lng)
    ensures CrossingLat(InMeters(center, a), InMeters(center, b), InMeters(center, p).lng)
         == (center.lat - CrossingLat(a, b, p.lng)) * METERS_PER_DEG
  {
    DifferencesScale(center, a, b);
    DifferencesScale(center, a, p);
    CrossingScales(METERS_PER_DEG * center.cos, METERS_PER_DEG, b.lat - a.lat, b.lng - a.lng, p.lng - a.lng);
  }

  /** Projection keeps which edges straddle and exchanges the two sides, since metres count southwards. */
  lemma ProjectionFlipsSides(center: Center, a: LatLng, b: LatLng, p: LatLng)
    requires center.cos > 0.0
    ensures var a', b', p' := InMeters(center, a), InMeters(center, b), InMeters(center, p);
            && (Straddles(a', b', p'.lng) <==> Straddles(a, b, p.lng))
            && (Straddles(a, b, p.lng) ==>
                  SideOf(a', b', p') == match SideOf(a, b, p) case Below => Above case On => On case Above => Below)
  {
    EastingOrder(center, a, p.lng);
    EastingOrder(center, b, p.lng);
    if Straddles(a, b, p.lng) {
      CrossingIsCarried(center, a, b, p);
    }
  }

  lemma {:induction false} ProjectionFlipsCounts(center: Center, ring: Ring, n: nat, p: LatLng)
    requires center.cos > 0.0 && n <= |ring|
    ensures Count(RingInMeters(center, ring), n, InMeters(center, p), Below) == Count(ring, n, p, Above)
  {
    if n > 0 {
      ProjectionFlipsCounts(center, ring, n - 1, p);
      ProjectionFlipsSides(center, ring[n - 1], Previous(ring, n - 1), p);
      assert Previous(RingInMeters(center, ring), n - 1) == InMeters(center, Previous(ring, n - 1));
    }
  }

  /**
   * Degree space or metre space: the answer is the same exactly when an even number of straddling edges
   * pass through the point itself, in particular for every point that lies on none.
   */
  lemma ContainmentIsAffine(center: Center, ring: Ring, p: LatLng)
    requires center.cos > 0.0
    ensures (Inside(RingInMeters(center, ring), InMeters(center, p)) == Inside(ring, p))
       <==> Count(ring, |ring|, p, On) % 2 == 0
  {
    ProjectionFlipsCounts(center, ring, |ring|, p);
    SidesPartition(ring, |ring|, p);
    RingsCrossEvenly(ring, p.lng);
    SameParity(Count(ring, |ring|, p, Below), Count(ring, |ring|, p, On), Count(ring, |ring|, p, Above));
  }

  lemma SameParity(below: nat, on: nat, above: nat)
    requires (below + on + above) % 2 == 0
    ensures ((above % 2 == 1) == (below % 2 == 1)) <==> on % 2 == 0
  {
  }

  // ---- Crossing segments -------------------------------------------------------------

  function Ccw(a: Point, b: Point, c: Point): real {
    (b.x - a.x) * (c.y - a.y) - (b.y - a.y) * (c.x - a.x)
  }

  predicate Opposite(d: real, e: real) {
    (d > 0.0 && e < 0.0) || (d < 0.0 && e > 0.0)
  }

  predicate SegmentsIntersect(a1: Point, a2: Point, b1: Point, b2: Point) {
    Opposite(Ccw(b1, b2, a1), Ccw(b1, b2, a2)) && Opposite(Ccw(a1, a2, b1), Ccw(a1, a2, b2))
  }

  lemma CcwReverses(a: Point, b: Point, c: Point)
    ensures Ccw(b, a, c) == -Ccw(a, b, c)
  {
  }

  /** Exchanging the segments or reversing either of them changes nothing. */
  lemma IntersectionIsSymmetric(a1: Point, a2: Point, b1: Point, b2: Point)
    ensures SegmentsIntersect(b1, b2, a1, a2) == SegmentsIntersect(a1, a2, b1, b2)
    ensures SegmentsIntersect(a2, a1, b1, b2) == SegmentsIntersect(a1, a2, b1, b2)
    ensures SegmentsIntersect(a1, a2, b2, b1) == SegmentsIntersect(a1, a2, b1, b2)
  {
    CcwReverses(a1, a2, b1);
    CcwReverses(a1, a2, b2);
    CcwReverses(b1, b2, a1);
    CcwReverses(b1, b2, a2);
  }

  function InDegrees(p: LatLng): Point {
    Point(p.lng, p.lat)
  }

  lemma CcwScales(center: Center, a: LatLng, b: LatLng, c: LatLng)
    ensures Ccw(ProjectToMeters(center, a), ProjectToMeters(center, b), ProjectToMeters(center, c))
         == -(METERS_PER_DEG * METERS_PER_DEG * center.cos) * Ccw(InDegrees(a), InDegrees(b), InDegrees(c))
  {
    var k, m := METERS_PER_DEG * center.cos, METERS_PER_DEG;
    var a', b', c' := ProjectToMeters(center, a), ProjectToMeters(center, b), ProjectToMeters(center, c);
    assert b'.x - a'.x == (b.lng - a.lng) * k && c'.x - a'.x == (c.lng - a.lng) * k;
    assert b'.y - a'.y == -m * (b.lat - a.lat) && c'.y - a'.y == -m * (c.lat - a.lat);
    CrossScales(k, m, b.lng - a.lng, c.lat - a.lat, b.lat - a.lat, c.lng - a.lng);
  }

  lemma CrossScales(k: real, m: real, u: real, v: real, s: real, t: real)
    ensures (u * k) * (-m * v) - (-m * s) * (t * k) == -(m * k) * (u * v - s * t)
  {
  }

  /** Projection keeps whether two segments cross. */
  lemma ProjectionKeepsCrossings(center: Center, a1: LatLng, a2: LatLng, b1: LatLng, b2: LatLng)
    requires center.cos > 0.0
    ensures SegmentsIntersect(ProjectToMeters(center, a1), ProjectToMeters(center, a2),
                              ProjectToMeters(center, b1), ProjectToMeters(center, b2))
         == SegmentsIntersect(InDegrees(a1), InDegrees(a2), InDegrees(b1), InDegrees(b2))
  {
    CcwScales(center, b1, b2, a1);
    CcwScales(center, b1, b2, a2);
    CcwScales(center, a1, a2, b1);
    CcwScales(center, a1, a2, b2);
    var factor := -(METERS_PER_DEG * METERS_PER_DEG * center.cos);
    assert factor < 0.0;
    OppositeScales(factor, Ccw(InDegrees(b1), InDegrees(b2), InDegrees(a1)), Ccw(InDegrees(b1), InDegrees(b2), InDegrees(a2)));
    OppositeScales(factor, Ccw(InDegrees(a1), InDegrees(a2), InDegrees(b1)), Ccw(InDegrees(a1), InDegrees(a2), InDegrees(b2)));
  }

  lemma OppositeScales(factor: real, d: real, e: real)
    requires factor < 0.0
    ensures Opposite(factor * d, factor * e) == Opposite(d, e)
  {
    SignFlips(factor, d);
    SignFlips(factor, e);
  }

  lemma SignFlips(factor: real, d: real)
    requires factor < 0.0
    ensures (factor * d > 0.0 <==> d < 0.0) && (factor * d < 0.0 <==> d > 0.0)
  {
  }

  /** The point a fraction `s` of the way from `a` to `b`. */
  function Along(a: Point, b: Point, s: real): Point {
    Point(a.x + s * (b.x - a.x), a.y + s * (b.y - a.y))
  }

  /** The segments meet in one point interior to both, and are not parallel. */
  ghost predicate CrossProperly(a1: Point, a2: Point, b1: Point, b2: Point) {
    exists s, t :: 0.0 < s < 1.0 && 0.0 < t < 1.0 && Along(a1, a2, s) == Along(b1, b2, t)
                   && Ccw(b1, b2, a1) != 0.0 && Ccw(a1, a2, b1) != 0.0
  }

  /** `Ccw` with the third point moving along a segment. */
  lemma CcwIsAffine(a: Point, b: Point, c: Point, d: Point, s: real)
    ensures Ccw(a, b, Along(c, d, s)) == (1.0 - s) * Ccw(a, b, c) + s * Ccw(a, b, d)
  {
    var ux, uy := b.x - a.x, b.y - a.y;
    assert Along(c, d, s).x - a.x == (1.0 - s) * (c.x - a.x) + s * (d.x - a.x);
    assert Along(c, d, s).y - a.y == (1.0 - s) * (c.y - a.y) + s * (d.y - a.y);
    Bilinear(ux, uy, c.x - a.x, c.y - a.y, d.x - a.x, d.y - a.y, s);
  }

  lemma Bilinear(ux: real, uy: real, cx: real, cy: real, dx: real, dy: real, s: real)
    ensures ux * ((1.0 - s) * cy + s * dy) - uy * ((1.0 - s) * cx + s * dx)
         == (1.0 - s) * (ux * cy - uy * cx) + s * (ux * dy - uy * dx)
  {
  }

  lemma CcwOfOwnPoint(a: Point, b: Point, t: real)
    ensures Ccw(a, b, Along(a, b, t)) == 0.0
  {
    assert Along(a, b, t).x - a.x == t * (b.x - a.x) && Along(a, b, t).y - a.y == t * (b.y - a.y);
  }

  lemma OppositeAt(d: real, e: real, s: real)
    requires (1.0 - s) * d + s * e == 0.0 && 0.0 < s < 1.0 && d != 0.0
    ensures Opposite(d, e)
  {
    assert s * e == -((1.0 - s) * d);
    if d > 0.0 {
      assert (1.0 - s) * d > 0.0;
    } else {
      assert (1.0 - s) * d < 0.0;
    }
  }

  /** A proper crossing is always reported. */
  lemma CrossingsAreFound(a1: Point, a2: Point, b1: Point, b2: Point)
    requires CrossProperly(a1, a2, b1, b2)
    ensures SegmentsIntersect(a1, a2, b1, b2)
  {
    var s, t :| 0.0 < s < 1.0 && 0.0 < t < 1.0 && Along(a1, a2, s) == Along(b1, b2, t)
                && Ccw(b1, b2, a1) != 0.0 && Ccw(a1, a2, b1) != 0.0;
    CcwIsAffine(b1, b2, a1, a2, s);
    CcwOfOwnPoint(b1, b2, t);
    OppositeAt(Ccw(b1, b2, a1), Ccw(b1, b2, a2), s);
    CcwIsAffine(a1, a2, b1, b2, t);
    CcwOfOwnPoint(a1, a2, s);
    OppositeAt(Ccw(a1, a2, b1), Ccw(a1, a2, b2), t);
  }

  lemma Cramer(ux: real, uy: real, vx: real, vy: real, wx: real, wy: real)
    ensures (wx * vy - wy * vx) * ux == (ux * vy - uy * vx) * wx + (wx * uy - wy * ux) * vx
    ensures (wx * vy - wy * vx) * uy == (ux * vy - uy * vx) * wy + (wx * uy - wy * ux) * vy
  {
  }

  lemma Cancels(a: real, b: real, c: real)
    requires c != 0.0 && a * c == b * c
    ensures a == b
  {
  }

  lemma Fraction(d: real, e: real)
    requires Opposite(d, e)
    ensures d - e != 0.0 && 0.0 < d / (d - e) < 1.0 && (d / (d - e)) * (d - e) == d
  {
    var q := d / (d - e);
    assert q * (d - e) == d;
    if d > 0.0 {
      assert q > 0.0 && q < 1.0;
    } else {
      assert q > 0.0 && q < 1.0;
    }
  }

  lemma MeetsAt(u: real, v: real, w: real, s: real, t: real, c: real, p: real, q: real)
    requires c != 0.0 && s * c == p && t * c == q && p * u == c * w + q * v
    ensures s * u == w + t * v
  {
    assert (s * u) * c == (s * c) * u;
    assert (w + t * v) * c == c * w + (t * c) * v;
    Cancels(s * u, w + t * v, c);
  }

  /** Only proper crossings are reported: the two tests mean that the segments meet in a point interior to both. */
  lemma OnlyCrossingsAreFound(a1: Point, a2: Point, b1: Point, b2: Point)
    requires SegmentsIntersect(a1, a2, b1, b2)
    ensures CrossProperly(a1, a2, b1, b2)
  {
    var d1, d2, d3, d4 := Ccw(b1, b2, a1), Ccw(b1, b2, a2), Ccw(a1, a2, b1), Ccw(a1, a2, b2);
    Fraction(d1, d2);
    Fraction(d3, d4);
    var s, t := d1 / (d1 - d2), d3 / (d3 - d4);
    var ux, uy, vx, vy, wx, wy := a2.x - a1.x, a2.y - a1.y, b2.x - b1.x, b2.y - b1.y, b1.x - a1.x, b1.y - a1.y;
    var c := ux * vy - uy * vx;
    Turns(a1, a2, b1, b2);
    Cramer(ux, uy, vx, vy, wx, wy);
    MeetsAt(ux, vx, wx, s, t, c, wx * vy - wy * vx, wx * uy - wy * ux);
    MeetsAt(uy, vy, wy, s, t, c, wx * vy - wy * vx, wx * uy - wy * ux);
    assert Along(a1, a2, s) == Along(b1, b2, t);
  }

  /** The four orientation tests in terms of the direction vectors and the offset between the segments. */
  lemma Turns(a1: Point, a2: Point, b1: Point, b2: Point)
    ensures var ux, uy, vx, vy, wx, wy := a2.x - a1.x, a2.y - a1.y, b2.x - b1.x, b2.y - b1.y, b1.x - a1.x, b1.y - a1.y;
            && Ccw(b1, b2, a1) == wx * vy - wy * vx
            && Ccw(b1, b2, a1) - Ccw(b1, b2, a2) == ux * vy - uy * vx
            && Ccw(a1, a2, b1) == -(wx * uy - wy * ux)
            && Ccw(a1, a2, b1) - Ccw(a1, a2, b2) == -(ux * vy - uy * vx)
  {
  }

  /** The orientation tests decide exactly whether two segments cross in a point interior to both. */
  lemma IntersectionMeansCrossing(a1: Point, a2: Point, b1: Point, b2: Point)
    ensures SegmentsIntersect(a1, a2, b1, b2) <==> CrossProperly(a1, a2, b1, b2)
  {
    if SegmentsIntersect(a1, a2, b1, b2) {
      OnlyCrossingsAreFound(a1, a2, b1, b2);
    }
    if CrossProperly(a1, a2, b1, b2) {
      CrossingsAreFound(a1, a2, b1, b2);
    }
  }

  // ---- Self-intersection of a ring -----------------------------------------------------

  function Corner(points: seq<Point>, i: nat): Point
    requires points != []
  {
    points[i % |points|]
  }

  /** Edges `i < j` of the ring share no vertex and cross. */
  predicate EdgesCross(points: seq<Point>, i: nat, j: nat)
    requires points != []
  {
    && i < j < |points| && j != i + 1 && !(i == 0 && j == |points| - 1)
    && SegmentsIntersect(Corner(points, i), Corner(points, i + 1), Corner(points, j), Corner(points, j + 1))
  }

  ghost predicate SelfIntersecting(points: seq<Point>) {
    points != [] && exists i: nat, j: nat :: EdgesCross(points, i, j)
  }

  method RingSelfIntersects(points: seq<Point>) returns (crosses: bool)
    ensures crosses == SelfIntersecting(points)
  {
    for i := 0 to |points|
      invariant forall g: nat, h: nat :: g < i ==> !EdgesCross(points, g, h)
    {
      for j := i + 1 to |points|
        invariant forall h: nat :: h < j ==> !EdgesCross(points, i, h)
      {
        if EdgesCross(points, i, j) {
          return true;
        }
      }
    }
    return false;
  }

  function NextIndex(n: nat, i: nat): nat {
    if i + 1 == n then 0 else i + 1
  }

  /** Two edges without a vertex in common meet in a point interior to both. */
  ghost predicate MeetApart(points: seq<Point>, i: nat, j: nat) {
    var n := |points|;
    && i < n && j < n && {i, NextIndex(n, i)} !! {j, NextIndex(n, j)}
    && CrossProperly(points[i], points[NextIndex(n, i)], points[j], points[NextIndex(n, j)])
  }

  lemma CornersAre(points: seq<Point>, i: nat)
    requires i < |points|
    ensures Corner(points, i) == points[i] && Corner(points, i + 1) == points[NextIndex(|points|, i)]
  {
  }

  lemma EdgesCrossMeans(points: seq<Point>, i: nat, j: nat)
    requires points != []
    ensures EdgesCross(points, i, j) <==> i < j && MeetApart(points, i, j)
  {
    if i < j < |points| {
      CornersAre(points, i);
      CornersAre(points, j);
      IntersectionMeansCrossing(points[i], points[NextIndex(|points|, i)], points[j], points[NextIndex(|points|, j)]);
    }
  }

  lemma MeetingIsSymmetric(points: seq<Point>, i: nat, j: nat)
    requires MeetApart(points, i, j)
    ensures MeetApart(points, j, i)
  {
    var a, b, c, d := points[i], points[NextIndex(|points|, i)], points[j], points[NextIndex(|points|, j)];
    IntersectionMeansCrossing(a, b, c, d);
    IntersectionMeansCrossing(c, d, a, b);
    IntersectionIsSymmetric(a, b, c, d);
  }

  /** The check is exact: a ring intersects itself when two edges without a common vertex cross. */
  lemma SelfIntersectionMeansCrossing(points: seq<Point>)
    ensures SelfIntersecting(points) <==> exists i, j :: MeetApart(points, i, j)
  {
    if SelfIntersecting(points) {
      var i: nat, j: nat :| EdgesCross(points, i, j);
      EdgesCrossMeans(points, i, j);
    }
    if i, j :| MeetApart(points, i, j) {
      if j < i {
        MeetingIsSymmetric(points, i, j);
        EdgesCrossMeans(points, j, i);
      } else {
        EdgesCrossMeans(points, i, j);
      }
    }
  }

  function DegreePoints(ring: Ring): (points: seq<Point>)
    ensures |points| == |ring| && forall k :: 0 <= k < |ring| ==> points[k] == InDegrees(ring[k])
  {
    seq(|ring|, k requires 0 <= k < |ring| => InDegrees(ring[k]))
  }

  function MeterPoints(center: Center, ring: Ring): (points: seq<Point>)
    ensures |points| == |ring| && forall k :: 0 <= k < |ring| ==> points[k] == ProjectToMeters(center, ring[k])
  {
    seq(|ring|, k requires 0 <= k < |ring| => ProjectToMeters(center, ring[k]))
  }

  /** Checking in degree space is as good as checking in metre space. */
  lemma SelfIntersectionIsAffine(center: Center, ring: Ring)
    requires center.cos > 0.0
    ensures SelfIntersecting(DegreePoints(ring)) == SelfIntersecting(MeterPoints(center, ring))
  {
    if ring != [] {
      var n := |ring|;
      forall i: nat, j: nat
        ensures EdgesCross(DegreePoints(ring), i, j) == EdgesCross(MeterPoints(center, ring), i, j)
      {
        ProjectionKeepsCrossings(center, ring[i % n], ring[(i + 1) % n], ring[j % n], ring[(j + 1) % n]);
      }
    }
  }

  // ---- Distances (squared) ---------------------------------------------------------------

  function Square(r: real): (s: real)
    ensures s >= 0.0
  {
    r * r
  }

  function Dist2(p: Point, q: Point): real {
    Square(p.x - q.x) + Square(p.y - q.y)
  }

  function Clamp(t: real): (c: real)
    ensures 0.0 <= c <= 1.0
  {
    if t < 0.0 then 0.0 else if t > 1.0 then 1.0 else t
  }

  /** For an offset `w` from the start of a segment `d`: where the nearest point lies, between 0 and 1. */
  function NearestT(wx: real, wy: real, dx: real, dy: real): (t: real)
    ensures 0.0 <= t <= 1.0
  {
    var length2 := dx * dx + dy * dy;
    if length2 == 0.0 then 0.0 else Clamp((wx * dx + wy * dy) / length2)
  }

  function NearestParameter(p: Point, a: Point, b: Point): (t: real)
    ensures 0.0 <= t <= 1.0
  {
    NearestT(p.x - a.x, p.y - a.y, b.x - a.x, b.y - a.y)
  }

  function PointToSegment2(p: Point, a: Point, b: Point): real {
    Dist2(p, Along(a, b, NearestParameter(p, a, b)))
  }

  /** The clamped projection is the nearest point of the segment. */
  lemma NearestIsNearest(p: Point, a: Point, b: Point, u: real)
    requires 0.0 <= u <= 1.0
    ensures PointToSegment2(p, a, b) <= Dist2(p, Along(a, b, u))
  {
    OffsetDistance(p, a, b, u);
    OffsetDistance(p, a, b, NearestParameter(p, a, b));
    NearestOffset(p.x - a.x, p.y - a.y, b.x - a.x, b.y - a.y, u);
  }

  /** Squared distance between an offset `w` and the point `u * d`. */
  function Offset2(wx: real, wy: real, dx: real, dy: real, u: real): real {
    Square(wx - u * dx) + Square(wy - u * dy)
  }

  function Parabola(length2: real, dot: real, u: real): real {
    u * u * length2 - 2.0 * u * dot
  }

  lemma OffsetDistance(p: Point, a: Point, b: Point, u: real)
    ensures Dist2(p, Along(a, b, u)) == Offset2(p.x - a.x, p.y - a.y, b.x - a.x, b.y - a.y, u)
  {
  }

  lemma OffsetIsParabola(wx: real, wy: real, dx: real, dy: real, u: real)
    ensures Offset2(wx, wy, dx, dy, u)
         == Square(wx) + Square(wy) + Parabola(dx * dx + dy * dy, wx * dx + wy * dy, u)
  {
  }

  lemma NearestOffset(wx: real, wy: real, dx: real, dy: real, u: real)
    requires 0.0 <= u <= 1.0
    ensures Offset2(wx, wy, dx, dy, NearestT(wx, wy, dx, dy)) <= Offset2(wx, wy, dx, dy, u)
  {
    OffsetIsParabola(wx, wy, dx, dy, u);
    OffsetIsParabola(wx, wy, dx, dy, NearestT(wx, wy, dx, dy));
    SumOfSquares(dx, dy, wx, wy);
    LeastOfParabola(dx * dx + dy * dy, wx * dx + wy * dy, u);
  }

  /** A parabola opening upwards is least at its vertex, or at the end of [0, 1] nearest to it. */
  lemma LeastOfParabola(length2: real, dot: real, u: real)
    requires length2 >= 0.0 && 0.0 <= u <= 1.0 && (length2 == 0.0 ==> dot == 0.0)
    ensures Parabola(length2, dot, if length2 == 0.0 then 0.0 else Clamp(dot / length2)) <= Parabola(length2, dot, u)
  {
    if length2 == 0.0 {
      assert Parabola(length2, dot, 0.0) == 0.0;
      assert Parabola(length2, dot, u) == 0.0;
    } else {
      var v := dot / length2;
      assert v * length2 == dot;
      Difference(length2, v, Clamp(v), u);
      ClampIsBest(v, u);
      Multiplies(length2, (u - Clamp(v)) * (u + Clamp(v) - 2.0 * v));
    }
  }

  lemma ClampIsBest(v: real, u: real)
    requires 0.0 <= u <= 1.0
    ensures (u - Clamp(v)) * (u + Clamp(v) - 2.0 * v) >= 0.0
  {
    if v < 0.0 {
      Multiplies(u, u - 2.0 * v);
    } else if v > 1.0 {
      Multiplies(1.0 - u, 2.0 * v - 1.0 - u);
      assert (u - 1.0) * (u + 1.0 - 2.0 * v) == (1.0 - u) * (2.0 * v - 1.0 - u);
    } else {
      SquareIsPositive(u - v);
    }
  }

  lemma SumOfSquares(dx: real, dy: real, wx: real, wy: real)
    ensures dx * dx + dy * dy >= 0.0
    ensures dx * dx + dy * dy == 0.0 ==> wx * dx + wy * dy == 0.0
  {
    SquareIsPositive(dx);
    SquareIsPositive(dy);
    if dx == 0.0 && dy == 0.0 {
      assert wx * dx == 0.0 && wy * dy == 0.0;
    }
  }

  lemma Difference(length2: real, v: real, t: real, u: real)
    ensures Parabola(length2, v * length2, u) - Parabola(length2, v * length2, t)
         == length2 * ((u - t) * (u + t - 2.0 * v))
  {
  }

  lemma Multiplies(a: real, b: real)
    requires a >= 0.0 && b >= 0.0
    ensures a * b >= 0.0 && (a > 0.0 && b > 0.0 ==> a * b > 0.0)
  {
  }

  lemma SquareIsPositive(d: real)
    ensures d * d >= 0.0
    ensures d != 0.0 ==> d * d > 0.0
  {
    if d > 0.0 {
      Multiplies(d, d);
    } else {
      Multiplies(-d, -d);
      assert d * d == (-d) * (-d);
    }
  }

  function Least(a: real, b: real): real {
    if b < a then b else a
  }

  function SegmentDistance2(a1: Point, a2: Point, b1: Point, b2: Point): real {
    if SegmentsIntersect(a1, a2, b1, b2) then 0.0
    else Least(Least(PointToSegment2(a1, b1, b2), PointToSegment2(a2, b1, b2)),
               Least(PointToSegment2(b1, a1, a2), PointToSegment2(b2, a1, a2)))
  }

  /** Distance between edge `i` of one ring and edge `j` of the other. */
  function EdgeDistance2(a: seq<Point>, b: seq<Point>, i: nat, j: nat): (d: real)
    requires a != [] && b != []
    ensures d >= 0.0
  {
    SegmentDistance2(Corner(a, i), Corner(a, i + 1), Corner(b, j), Corner(b, j + 1))
  }

  lemma EdgeDistanceIsSymmetric(a: seq<Point>, b: seq<Point>, i: nat, j: nat)
    requires a != [] && b != []
    ensures EdgeDistance2(a, b, i, j) == EdgeDistance2(b, a, j, i)
  {
    IntersectionIsSymmetric(Corner(a, i), Corner(a, i + 1), Corner(b, j), Corner(b, j + 1));
  }

  /** Some edge of one boundary comes within the tolerance of some edge of the other. */
  ghost predicate Close(a: seq<Point>, b: seq<Point>, tolerance: real) {
    tolerance >= 0.0 && a != [] && b != []
    && exists i, j :: 0 <= i < |a| && 0 <= j < |b| && EdgeDistance2(a, b, i, j) <= tolerance * tolerance
  }

  /** `least` is the smallest of `dist(i, j)` over two rings with `m` and `n` edges. */
  ghost predicate IsLeast(m: nat, n: nat, dist: (nat, nat) -> real, least: real) {
    && (exists i, j :: 0 <= i < m && 0 <= j < n && dist(i, j) == least)
    && forall i, j :: 0 <= i < m && 0 <= j < n ==> least <= dist(i, j)
  }

  method LeastEdgeDistance(m: nat, n: nat, dist: (nat, nat) -> real) returns (least: real)
    requires m > 0 && n > 0 && forall i: nat, j: nat :: dist(i, j) >= 0.0
    ensures IsLeast(m, n, dist, least)
  {
    least := dist(0, 0);
    for i := 0 to m
      invariant exists g, h :: 0 <= g < m && 0 <= h < n && dist(g, h) == least
      invariant forall g, h :: 0 <= g < i && 0 <= h < n ==> least <= dist(g, h)
    {
      for j := 0 to n
        invariant exists g, h :: 0 <= g < m && 0 <= h < n && dist(g, h) == least
        invariant forall g, h :: 0 <= g < i && 0 <= h < n ==> least <= dist(g, h)
        invariant forall h :: 0 <= h < j ==> least <= dist(i, h)
      {
        if dist(i, j) < least {
          least := dist(i, j);
        }
        if least == 0.0 {
          return;
        }
      }
    }
  }

  function EdgeDistances(a: seq<Point>, b: seq<Point>): (dist: (nat, nat) -> real)
    requires a != [] && b != []
    ensures forall i: nat, j: nat :: dist(i, j) >= 0.0
  {
    (i: nat, j: nat) => EdgeDistance2(a, b, i, j)
  }

  method PolygonBoundaryDistance2(a: seq<Point>, b: seq<Point>) returns (least: real)
    requires a != [] && b != []
    ensures IsLeast(|a|, |b|, EdgeDistances(a, b), least)
  {
    least := LeastEdgeDistance(|a|, |b|, EdgeDistances(a, b));
  }

  /** Comparing the least distance with a tolerance decides whether the boundaries are close. */
  lemma LeastDecides(a: seq<Point>, b: seq<Point>, least: real, tolerance: real)
    requires a != [] && b != [] && IsLeast(|a|, |b|, EdgeDistances(a, b), least)
    ensures Close(a, b, tolerance) <==> tolerance >= 0.0 && least <= tolerance * tolerance
  {
    var dist := EdgeDistances(a, b);
    var i, j :| 0 <= i < |a| && 0 <= j < |b| && dist(i, j) == least;
    assert EdgeDistance2(a, b, i, j) == least;
    if Close(a, b, tolerance) {
      var g, h :| 0 <= g < |a| && 0 <= h < |b| && EdgeDistance2(a, b, g, h) <= tolerance * tolerance;
      assert least <= dist(g, h);
    }
  }
}
