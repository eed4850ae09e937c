/** The distance between two segments, and between two boundaries, over all of their points. */
module GeoDistance {
  import opened Geo

  /** A fraction `u` of the way from `x` to `y`. */
  function Between(x: real, y: real, u: real): real {
    (1.0 - u) * x + u * y
  }

  predicate Unit(u: real) {
    0.0 <= u <= 1.0
  }

  predicate Edge(u: real) {
    u == 0.0 || u == 1.0
  }

  lemma Product(a: real, b: real)
    requires a >= 0.0 && b >= 0.0
    ensures a * b >= 0.0
  {
  }

  lemma Ordered(k: real, a: real, b: real)
    requires k >= 0.0 && a <= b
    ensures k * a <= k * b
  {
  }

  // ---- Leaving the unit square --------------------------------------------------------

  /** Between two numbers of the unit interval one stays in it. */
  lemma StaysInside(x: real, y: real, u: real)
    requires Unit(x) && Unit(y) && Unit(u)
    ensures Unit(Between(x, y, u))
  {
    Product(1.0 - u, x);
    Product(u, y);
    Product(1.0 - u, 1.0 - x);
    Product(u, 1.0 - y);
  }

  /** From inside to a target outside: where the boundary is met. */
  function Exit(x: real, y: real): real
    requires 0.0 < x < 1.0 && (y <= 0.0 || y >= 1.0)
  {
    if y <= 0.0 then x / (x - y) else (1.0 - x) / (y - x)
  }

  lemma Fraction(p: real, q: real)
    requires 0.0 < p <= q
    ensures 0.0 < p / q <= 1.0 && (p / q) * q == p
  {
  }

  lemma BetweenIs(x: real, y: real, u: real)
    ensures Between(x, y, u) == x - u * (x - y) == x + u * (y - x)
  {
  }

  /** A step `e` that leads down to 0, and every step before it. */
  lemma Down(x: real, y: real, e: real, u: real)
    requires 0.0 < x < 1.0 && y <= 0.0 && e * (x - y) == x && 0.0 <= u <= e
    ensures Between(x, y, e) == 0.0 && Unit(Between(x, y, u))
  {
    BetweenIs(x, y, e);
    BetweenIs(x, y, u);
    WithinProduct(x - y, u, e);
  }

  /** A step `e` that leads up to 1, and every step before it. */
  lemma Up(x: real, y: real, e: real, u: real)
    requires 0.0 < x < 1.0 && y >= 1.0 && e * (y - x) == 1.0 - x && 0.0 <= u <= e
    ensures Between(x, y, e) == 1.0 && Unit(Between(x, y, u))
  {
    BetweenIs(x, y, e);
    BetweenIs(x, y, u);
    WithinProduct(y - x, u, e);
  }

  lemma InsideBeforeExit(x: real, y: real, u: real)
    requires 0.0 < x < 1.0 && (y <= 0.0 || y >= 1.0) && 0.0 <= u <= Exit(x, y)
    ensures Unit(Between(x, y, u)) && Unit(Exit(x, y)) && Edge(Between(x, y, Exit(x, y)))
  {
    if y <= 0.0 {
      Fraction(x, x - y);
      Down(x, y, Exit(x, y), u);
    } else {
      Fraction(1.0 - x, y - x);
      Up(x, y, Exit(x, y), u);
    }
  }

  lemma ExitIsOnTheEdge(x: real, y: real)
    requires 0.0 < x < 1.0 && (y <= 0.0 || y >= 1.0)
    ensures Unit(Exit(x, y)) && Edge(Between(x, y, Exit(x, y)))
  {
    if y <= 0.0 {
      Fraction(x, x - y);
    } else {
      Fraction(1.0 - x, y - x);
    }
    InsideBeforeExit(x, y, Exit(x, y));
  }

  lemma WithinProduct(k: real, u: real, e: real)
    requires k >= 0.0 && 0.0 <= u <= e
    ensures 0.0 <= u * k <= e * k
  {
  }

  /** On the way from inside the square to a target that is not inside, the square's boundary is met. */
  lemma BoundaryIsMet(s: real, t: real, s': real, t': real) returns (u: real)
    requires 0.0 < s < 1.0 && 0.0 < t < 1.0 && !(0.0 < s' < 1.0 && 0.0 < t' < 1.0)
    ensures Unit(u) && Unit(Between(s, s', u)) && Unit(Between(t, t', u))
    ensures Edge(Between(s, s', u)) || Edge(Between(t, t', u))
  {
    if 0.0 < s' < 1.0 {
      u := Exit(t, t');
      ExitIsOnTheEdge(t, t');
      StaysInside(s, s', u);
    } else if 0.0 < t' < 1.0 {
      u := Exit(s, s');
      ExitIsOnTheEdge(s, s');
      StaysInside(t, t', u);
    } else {
      u := if Exit(s, s') <= Exit(t, t') then Exit(s, s') else Exit(t, t');
      ExitIsOnTheEdge(s, s');
      ExitIsOnTheEdge(t, t');
      InsideBeforeExit(s, s', u);
      InsideBeforeExit(t, t', u);
    }
  }

  // ---- Points of two segments -------------------------------------------------------------

  /** Squared distance between the points at `s` and `t`. */
  function Apart2(a1: Point, a2: Point, b1: Point, b2: Point, s: real, t: real): real {
    Dist2(Along(a1, a2, s), Along(b1, b2, t))
  }

  /** One coordinate of the offset between the points at `s` and `t`. */
  function Offset(a: real, u: real, b: real, v: real, s: real, t: real): real {
    (a + s * u) - (b + t * v)
  }

  lemma OffsetIsAffine(a: real, u: real, b: real, v: real, s: real, t: real, s': real, t': real, w: real)
    ensures Offset(a, u, b, v, Between(s, s', w), Between(t, t', w))
         == Between(Offset(a, u, b, v, s, t), Offset(a, u, b, v, s', t'), w)
  {
    assert Between(s, s', w) * u == (1.0 - w) * (s * u) + w * (s' * u);
    assert Between(t, t', w) * v == (1.0 - w) * (t * v) + w * (t' * v);
  }

  /** A target whose offset is `c` times the current one, for `c` zero or one, is approached by points no further apart. */
  lemma ApproachShrinks(x: real, y: real, x': real, y': real, c: real, w: real)
    requires Edge(c) && x' == c * x && y' == c * y && Unit(w)
    ensures Square(Between(x, x', w)) + Square(Between(y, y', w)) <= Square(x) + Square(y)
  {
    if c == 0.0 {
      Shrinks(x, 1.0 - w);
      Shrinks(y, 1.0 - w);
    } else {
      assert Between(x, x', w) == x && Between(y, y', w) == y;
    }
  }

  lemma Shrinks(x: real, k: real)
    requires Unit(k)
    ensures Square(k * x) <= Square(x)
  {
    assert Square(k * x) == (k * k) * (x * x);
    SquareIsPositive(x);
    assert k * k <= 1.0 by {
      Ordered(k, k, 1.0);
    }
    Ordered(x * x, k * k, 1.0);
  }

  predicate OffsetsScale(a1: Point, a2: Point, b1: Point, b2: Point, s: real, t: real, s': real, t': real, c: real) {
    && Offset(a1.x, a2.x - a1.x, b1.x, b2.x - b1.x, s', t') == c * Offset(a1.x, a2.x - a1.x, b1.x, b2.x - b1.x, s, t)
    && Offset(a1.y, a2.y - a1.y, b1.y, b2.y - b1.y, s', t') == c * Offset(a1.y, a2.y - a1.y, b1.y, b2.y - b1.y, s, t)
  }

  lemma ApartByOffsets(a1: Point, a2: Point, b1: Point, b2: Point, s: real, t: real)
    ensures Apart2(a1, a2, b1, b2, s, t)
         == Square(Offset(a1.x, a2.x - a1.x, b1.x, b2.x - b1.x, s, t)) + Square(Offset(a1.y, a2.y - a1.y, b1.y, b2.y - b1.y, s, t))
  {
  }

  lemma NoFurtherApart(a1: Point, a2: Point, b1: Point, b2: Point, s: real, t: real, s': real, t': real, c: real, w: real)
    requires Edge(c) && Unit(w) && OffsetsScale(a1, a2, b1, b2, s, t, s', t', c)
    ensures Apart2(a1, a2, b1, b2, Between(s, s', w), Between(t, t', w)) <= Apart2(a1, a2, b1, b2, s, t)
  {
    ApartByOffsets(a1, a2, b1, b2, s, t);
    ApartByOffsets(a1, a2, b1, b2, Between(s, s', w), Between(t, t', w));
    OffsetIsAffine(a1.x, a2.x - a1.x, b1.x, b2.x - b1.x, s, t, s', t', w);
    OffsetIsAffine(a1.y, a2.y - a1.y, b1.y, b2.y - b1.y, s, t, s', t', w);
    ApproachShrinks(Offset(a1.x, a2.x - a1.x, b1.x, b2.x - b1.x, s, t), Offset(a1.y, a2.y - a1.y, b1.y, b2.y - b1.y, s, t),
                    Offset(a1.x, a2.x - a1.x, b1.x, b2.x - b1.x, s', t'), Offset(a1.y, a2.y - a1.y, b1.y, b2.y - b1.y, s', t'),
                    c, w);
  }

  // ---- Where to go ------------------------------------------------------------------------------

  lemma AlongEnds(a: Point, b: Point)
    ensures Along(a, b, 0.0) == a && Along(a, b, 1.0) == b
  {
  }

  lemma DistIsSymmetric(p: Point, q: Point)
    ensures Dist2(p, q) == Dist2(q, p)
  {
    assert (p.x - q.x) * (p.x - q.x) == (q.x - p.x) * (q.x - p.x);
    assert (p.y - q.y) * (p.y - q.y) == (q.y - p.y) * (q.y - p.y);
  }

  /** From an end of one segment nothing on the other is nearer than the distance of the segments. */
  lemma EndsAreFar(a1: Point, a2: Point, b1: Point, b2: Point, s: real, t: real)
    requires Unit(s) && Unit(t) && (Edge(s) || Edge(t))
    ensures SegmentDistance2(a1, a2, b1, b2) <= Apart2(a1, a2, b1, b2, s, t)
  {
    AlongEnds(a1, a2);
    AlongEnds(b1, b2);
    DistIsSymmetric(Along(a1, a2, s), Along(b1, b2, t));
    if Edge(s) {
      NearestIsNearest(Along(a1, a2, s), b1, b2, t);
    } else {
      NearestIsNearest(Along(b1, b2, t), a1, a2, s);
    }
  }

  function Cross(ux: real, uy: real, vx: real, vy: real): real {
    ux * vy - uy * vx
  }

  /** The lines meet at these fractions when they are not parallel. */
  lemma LinesMeet(ux: real, uy: real, vx: real, vy: real, wx: real, wy: real) returns (s: real, t: real)
    requires Cross(ux, uy, vx, vy) != 0.0
    ensures wx + s * ux - t * vx == 0.0 && wy + s * uy - t * vy == 0.0
  {
    var k, p, q := Cross(ux, uy, vx, vy), wx * vy - wy * vx, wx * uy - wy * ux;
    s, t := -p / k, -q / k;
    assert s * k == -p && t * k == -q;
    Cramer(ux, uy, vx, vy, wx, wy);
    Solves(k, p, q, s, t, ux, vx, wx);
    Solves(k, p, q, s, t, uy, vy, wy);
  }

  lemma Solves(k: real, p: real, q: real, s: real, t: real, u: real, v: real, w: real)
    requires k != 0.0 && s * k == -p && t * k == -q && p * u == k * w + q * v
    ensures w + s * u - t * v == 0.0
  {
    var r := w + s * u - t * v;
    assert r * k == w * k + (s * k) * u - (t * k) * v;
    assert r * k == 0.0;
  }

  /** Lines that meet inside both segments cross properly. */
  lemma MeetingInsideIntersects(a1: Point, a2: Point, b1: Point, b2: Point, s: real, t: real)
    requires Cross(a2.x - a1.x, a2.y - a1.y, b2.x - b1.x, b2.y - b1.y) != 0.0
    requires 0.0 < s < 1.0 && 0.0 < t < 1.0 && Along(a1, a2, s) == Along(b1, b2, t)
    ensures SegmentsIntersect(a1, a2, b1, b2)
  {
    CcwIsAffine(b1, b2, a1, a2, s);
    CcwOfOwnPoint(b1, b2, t);
    CcwIsAffine(a1, a2, b1, b2, t);
    CcwOfOwnPoint(a1, a2, s);
    Turns(a1, a2, b1, b2);
    NotOnTheLine(Ccw(b1, b2, a1), Ccw(b1, b2, a2), s);
    NotOnTheLine(Ccw(a1, a2, b1), Ccw(a1, a2, b2), t);
    IntersectionMeansCrossing(a1, a2, b1, b2);
  }

  lemma NotOnTheLine(d: real, e: real, s: real)
    requires (1.0 - s) * d + s * e == 0.0 && d - e != 0.0 && 0.0 < s < 1.0
    ensures d != 0.0
  {
    if d == 0.0 {
      NotZero(s, e);
      assert false;
    }
  }

  lemma NotZero(s: real, e: real)
    requires s > 0.0 && e != 0.0
    ensures s * e != 0.0
  {
  }

  /** A target outside the open square, at which the points coincide or are offset as they are now. */
  lemma FindTarget(a1: Point, a2: Point, b1: Point, b2: Point, s: real, t: real) returns (s': real, t': real, c: real)
    requires !SegmentsIntersect(a1, a2, b1, b2)
    ensures !(0.0 < s' < 1.0 && 0.0 < t' < 1.0) && Edge(c) && OffsetsScale(a1, a2, b1, b2, s, t, s', t', c)
  {
    var ux, uy, vx, vy := a2.x - a1.x, a2.y - a1.y, b2.x - b1.x, b2.y - b1.y;
    if Cross(ux, uy, vx, vy) != 0.0 {
      c := 0.0;
      s', t' := MeetingPoint(a1, a2, b1, b2);
    } else {
      c := 1.0;
      s', t' := SlideBoth(ux, uy, vx, vy, s, t);
      Slides(a1.x, ux, b1.x, vx, s, t, s', t');
      Slides(a1.y, uy, b1.y, vy, s, t, s', t');
    }
  }

  lemma MeetingPoint(a1: Point, a2: Point, b1: Point, b2: Point) returns (s: real, t: real)
    requires !SegmentsIntersect(a1, a2, b1, b2)
    requires Cross(a2.x - a1.x, a2.y - a1.y, b2.x - b1.x, b2.y - b1.y) != 0.0
    ensures !(0.0 < s < 1.0 && 0.0 < t < 1.0)
    ensures Offset(a1.x, a2.x - a1.x, b1.x, b2.x - b1.x, s, t) == 0.0 == Offset(a1.y, a2.y - a1.y, b1.y, b2.y - b1.y, s, t)
  {
    s, t := LinesMeet(a2.x - a1.x, a2.y - a1.y, b2.x - b1.x, b2.y - b1.y, a1.x - b1.x, a1.y - b1.y);
    if 0.0 < s < 1.0 && 0.0 < t < 1.0 {
      MeetingInsideIntersects(a1, a2, b1, b2, s, t);
      assert false;
    }
  }

  lemma Slides(a: real, u: real, b: real, v: real, s: real, t: real, s': real, t': real)
    requires s * u - t * v == s' * u - t' * v
    ensures Offset(a, u, b, v, s', t') == 1.0 * Offset(a, u, b, v, s, t)
  {
  }

  /** On parallel lines both points can slide until one is at the start of its segment. */
  lemma SlideBoth(ux: real, uy: real, vx: real, vy: real, s: real, t: real) returns (s': real, t': real)
    requires Cross(ux, uy, vx, vy) == 0.0
    ensures s' == 0.0 || t' == 0.0
    ensures s * ux - t * vx == s' * ux - t' * vx && s * uy - t * vy == s' * uy - t' * vy
  {
    if vx == 0.0 && vy == 0.0 {
      s', t' := s, 0.0;
    } else {
      s' := 0.0;
      t' := SlideTo(ux, uy, vx, vy, s, t);
    }
  }

  /** On parallel lines the first point can slide to its start while the second keeps pace. */
  lemma SlideTo(ux: real, uy: real, vx: real, vy: real, s: real, t: real) returns (t': real)
    requires Cross(ux, uy, vx, vy) == 0.0 && (vx != 0.0 || vy != 0.0)
    ensures s * ux - t * vx == -t' * vx && s * uy - t * vy == -t' * vy
  {
    if vx != 0.0 {
      var k := ux / vx;
      assert k * vx == ux;
      Proportional(k, ux, uy, vx, vy);
      t' := t - s * k;
      assert -t' * vx == s * (k * vx) - t * vx;
      assert -t' * vy == s * (k * vy) - t * vy;
    } else {
      var k := uy / vy;
      assert k * vy == uy;
      Proportional(k, uy, ux, vy, vx);
      t' := t - s * k;
      assert -t' * vx == s * (k * vx) - t * vx;
      assert -t' * vy == s * (k * vy) - t * vy;
    }
  }

  lemma Proportional(k: real, ux: real, uy: real, vx: real, vy: real)
    requires vx != 0.0 && k * vx == ux && ux * vy == uy * vx
    ensures k * vy == uy
  {
    assert (k * vy) * vx == (k * vx) * vy;
    Cancels(k * vy, uy, vx);
  }

  /** No two points of the segments are nearer than their distance. */
  lemma SegmentsAreFar(a1: Point, a2: Point, b1: Point, b2: Point, s: real, t: real)
    requires Unit(s) && Unit(t)
    ensures SegmentDistance2(a1, a2, b1, b2) <= Apart2(a1, a2, b1, b2, s, t)
  {
    if !SegmentsIntersect(a1, a2, b1, b2) {
      if Edge(s) || Edge(t) {
        EndsAreFar(a1, a2, b1, b2, s, t);
      } else {
        var s', t', c := FindTarget(a1, a2, b1, b2, s, t);
        var w := BoundaryIsMet(s, t, s', t');
        EndsAreFar(a1, a2, b1, b2, Between(s, s', w), Between(t, t', w));
        NoFurtherApart(a1, a2, b1, b2, s, t, s', t', c, w);
      }
    }
  }

  ghost predicate Attained(a1: Point, a2: Point, b1: Point, b2: Point, s: real, t: real, d: real) {
    Unit(s) && Unit(t) && Apart2(a1, a2, b1, b2, s, t) == d
  }

  /** Some two points are that near. */
  lemma SegmentDistanceIsAttained(a1: Point, a2: Point, b1: Point, b2: Point) returns (s: real, t: real)
    ensures Attained(a1, a2, b1, b2, s, t, SegmentDistance2(a1, a2, b1, b2))
  {
    AlongEnds(a1, a2);
    AlongEnds(b1, b2);
    if SegmentsIntersect(a1, a2, b1, b2) {
      IntersectionMeansCrossing(a1, a2, b1, b2);
      s, t :| 0.0 < s < 1.0 && 0.0 < t < 1.0 && Along(a1, a2, s) == Along(b1, b2, t);
    } else {
      var d := SegmentDistance2(a1, a2, b1, b2);
      if d == PointToSegment2(a1, b1, b2) {
        s, t := 0.0, NearestParameter(a1, b1, b2);
      } else if d == PointToSegment2(a2, b1, b2) {
        s, t := 1.0, NearestParameter(a2, b1, b2);
      } else if d == PointToSegment2(b1, a1, a2) {
        s, t := NearestParameter(b1, a1, a2), 0.0;
        DistIsSymmetric(b1, Along(a1, a2, s));
      } else {
        s, t := NearestParameter(b2, a1, a2), 1.0;
        DistIsSymmetric(b2, Along(a1, a2, s));
      }
    }
  }

  /** The coded distance of two segments is the least distance over all of their points. */
  lemma SegmentDistanceIsLeast(a1: Point, a2: Point, b1: Point, b2: Point)
    ensures var d := SegmentDistance2(a1, a2, b1, b2);
            && (exists s, t :: Attained(a1, a2, b1, b2, s, t, d))
            && forall s, t :: Unit(s) && Unit(t) ==> d <= Apart2(a1, a2, b1, b2, s, t)
  {
    var s, t := SegmentDistanceIsAttained(a1, a2, b1, b2);
    forall s, t | Unit(s) && Unit(t) ensures SegmentDistance2(a1, a2, b1, b2) <= Apart2(a1, a2, b1, b2, s, t) {
      SegmentsAreFar(a1, a2, b1, b2, s, t);
    }
  }

  // ---- Boundaries ------------------------------------------------------------------------------------

  predicate OnEdge(points: seq<Point>, p: Point, i: int, s: real)
    requires points != []
  {
    0 <= i < |points| && Unit(s) && p == Along(Corner(points, i), Corner(points, i + 1), s)
  }

  ghost predicate OnBoundary(points: seq<Point>, p: Point)
    requires points != []
  {
    exists i, s :: OnEdge(points, p, i, s)
  }

  /** The least edge distance is the distance of the boundaries, over all of their points. */
  lemma LeastIsBoundaryDistance(a: seq<Point>, b: seq<Point>, least: real)
    requires a != [] && b != [] && IsLeast(|a|, |b|, EdgeDistances(a, b), least)
    ensures exists p, q :: OnBoundary(a, p) && OnBoundary(b, q) && Dist2(p, q) == least
    ensures forall p, q :: OnBoundary(a, p) && OnBoundary(b, q) ==> least <= Dist2(p, q)
  {
    var dist := EdgeDistances(a, b);
    var i, j :| 0 <= i < |a| && 0 <= j < |b| && dist(i, j) == least;
    var s, t := SegmentDistanceIsAttained(Corner(a, i), Corner(a, i + 1), Corner(b, j), Corner(b, j + 1));
    var p, q := Along(Corner(a, i), Corner(a, i + 1), s), Along(Corner(b, j), Corner(b, j + 1), t);
    assert OnEdge(a, p, i, s) && OnEdge(b, q, j, t) && EdgeDistance2(a, b, i, j) == least;
    forall p, q | OnBoundary(a, p) && OnBoundary(b, q) ensures least <= Dist2(p, q) {
      var i: int, s :| OnEdge(a, p, i, s);
      var j: int, t :| OnEdge(b, q, j, t);
      SegmentsAreFar(Corner(a, i), Corner(a, i + 1), Corner(b, j), Corner(b, j + 1), s, t);
      assert least <= dist(i, j) == EdgeDistance2(a, b, i, j);
    }
  }

  /** Boundaries are close exactly when two of their points are within the tolerance. */
  lemma CloseMeansNearPoints(a: seq<Point>, b: seq<Point>, tolerance: real)
    requires a != [] && b != []
    ensures Close(a, b, tolerance) <==>
              tolerance >= 0.0 && exists p, q :: OnBoundary(a, p) && OnBoundary(b, q) && Dist2(p, q) <= tolerance * tolerance
  {
    if Close(a, b, tolerance) {
      var i, j :| 0 <= i < |a| && 0 <= j < |b| && EdgeDistance2(a, b, i, j) <= tolerance * tolerance;
      var s, t := SegmentDistanceIsAttained(Corner(a, i), Corner(a, i + 1), Corner(b, j), Corner(b, j + 1));
      var p, q := Along(Corner(a, i), Corner(a, i + 1), s), Along(Corner(b, j), Corner(b, j + 1), t);
      assert OnEdge(a, p, i, s) && OnEdge(b, q, j, t);
      assert OnBoundary(a, p) && OnBoundary(b, q) && Dist2(p, q) == EdgeDistance2(a, b, i, j);
    }
    if tolerance >= 0.0 {
      forall p, q | OnBoundary(a, p) && OnBoundary(b, q) && Dist2(p, q) <= tolerance * tolerance
        ensures Close(a, b, tolerance)
      {
        var i: int, s :| OnEdge(a, p, i, s);
        var j: int, t :| OnEdge(b, q, j, t);
        SegmentsAreFar(Corner(a, i), Corner(a, i + 1), Corner(b, j), Corner(b, j + 1), s, t);
        assert EdgeDistance2(a, b, i, j) <= tolerance * tolerance;
      }
    }
  }
}
