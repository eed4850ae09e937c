/** Shoelace area of a geographic ring. */
module GeoArea {
  import opened Geo

  /** Vertex `k`, the first one again after the last. */
  function End(ring: Ring, k: nat): LatLng
    requires k <= |ring| && ring != []
  {
    if k == |ring| then ring[0] else ring[k]
  }

  /** Twice the signed area of the triangle from `o` to the edge `a`, `b`. */
  function Fan(o: LatLng, a: LatLng, b: LatLng): real {
    (a.lat - o.lat) * (b.lng - o.lng) - (b.lat - o.lat) * (a.lng - o.lng)
  }

  /** The first `n` edges, seen from `o`. */
  function FanSum(ring: Ring, o: LatLng, n: nat): real
    requires n <= |ring| && ring != []
  {
    if n == 0 then 0.0 else FanSum(ring, o, n - 1) + Fan(o, ring[n - 1], End(ring, n))
  }

  function Abs(r: real): real {
    if r < 0.0 then -r else r
  }

  function Area(ring: Ring): real
    requires ring != []
  {
    Abs(FanSum(ring, ring[0], |ring|)) / 2.0
  }

  method RingAreaDeg2(ring: Ring) returns (area: real)
    requires ring != []
    ensures area == Area(ring)
  {
    var sum := 0.0;
    for i := 0 to |ring|
      invariant sum == FanSum(ring, ring[0], i)
    {
      var b := if i + 1 == |ring| then ring[0] else ring[i + 1];
      sum := sum + Fan(ring[0], ring[i], b);
    }
    area := Abs(sum) / 2.0;
  }

  const ZERO := LatLng(0.0, 0.0)

  lemma FanMoves(o: LatLng, a: LatLng, b: LatLng)
    ensures Fan(o, a, b) == Fan(ZERO, a, b) + o.lng * (b.lat - a.lat) - o.lat * (b.lng - a.lng)
  {
  }

  lemma Telescopes(x: real, a: real, b: real, c: real)
    ensures x * (b - a) + x * (c - b) == x * (c - a)
  {
  }

  /** What seeing an open chain of edges from `o` adds: nothing once the chain ends where it started. */
  function Offset(o: LatLng, start: LatLng, end: LatLng): real {
    o.lng * (end.lat - start.lat) - o.lat * (end.lng - start.lng)
  }

  lemma OffsetAdds(o: LatLng, start: LatLng, a: LatLng, b: LatLng)
    ensures Offset(o, start, a) + Fan(o, a, b) == Offset(o, start, b) + Fan(ZERO, a, b)
  {
    FanMoves(o, a, b);
    Telescopes(o.lng, start.lat, a.lat, b.lat);
    Telescopes(o.lat, start.lng, a.lng, b.lng);
  }

  lemma {:induction false} OpenSum(ring: Ring, o: LatLng, n: nat)
    requires n <= |ring| && ring != []
    ensures FanSum(ring, o, n) == FanSum(ring, ZERO, n) + Offset(o, ring[0], End(ring, n))
  {
    if n > 0 {
      OpenSum(ring, o, n - 1);
      OffsetAdds(o, ring[0], ring[n - 1], End(ring, n));
    }
  }

  /** The area does not depend on the point it is computed from: the ring is closed. */
  lemma OriginDoesNotMatter(ring: Ring, o: LatLng, q: LatLng)
    requires ring != []
    ensures FanSum(ring, o, |ring|) == FanSum(ring, q, |ring|)
  {
    OpenSum(ring, o, |ring|);
    OpenSum(ring, q, |ring|);
  }

  lemma {:induction false} ShiftedSum(ring: Ring, shifted: Ring, o: LatLng, n: nat)
    requires ring != [] && shifted == ring[1..] + [ring[0]] && n < |ring|
    ensures FanSum(shifted, o, n) == FanSum(ring, o, n + 1) - FanSum(ring, o, 1)
  {
    if n > 0 {
      ShiftedSum(ring, shifted, o, n - 1);
      assert shifted[n - 1] == ring[n] && End(shifted, n) == End(ring, n + 1);
    }
  }

  /** Nor on the vertex the ring starts with. */
  lemma StartDoesNotMatter(ring: Ring, shifted: Ring)
    requires ring != [] && shifted == ring[1..] + [ring[0]]
    ensures Area(shifted) == Area(ring)
  {
    var n := |ring|;
    if n == 1 {
      assert shifted == ring;
    } else {
      ShiftedSum(ring, shifted, ZERO, n - 1);
      assert shifted[n - 1] == ring[0] && End(shifted, n) == End(ring, 1);
      assert FanSum(ring, ZERO, 1) == FanSum(ring, ZERO, 0) + Fan(ZERO, ring[0], End(ring, 1));
      OriginDoesNotMatter(ring, ZERO, ring[0]);
      OriginDoesNotMatter(shifted, ZERO, shifted[0]);
    }
  }

  /** Square metres per square degree, signed: metres count southwards. */
  function Factor(center: Center): real {
    METERS_PER_DEG * METERS_PER_DEG * center.cos
  }

  lemma FanScales(center: Center, o: LatLng, a: LatLng, b: LatLng)
    ensures Fan(InMeters(center, o), InMeters(center, a), InMeters(center, b)) == -Factor(center) * Fan(o, a, b)
  {
    DifferencesScale(center, o, a);
    DifferencesScale(center, o, b);
    Scaled(METERS_PER_DEG * center.cos, METERS_PER_DEG, a.lat - o.lat, b.lng - o.lng, b.lat - o.lat, a.lng - o.lng);
  }

  lemma Scaled(k: real, m: real, u: real, v: real, s: real, t: real)
    ensures (-m * u) * (v * k) - (-m * s) * (t * k) == -(m * k) * (u * v - s * t)
  {
  }

  lemma ScalesTogether(factor: real, sum: real, fan: real, sum': real, fan': real)
    requires sum' == factor * sum && fan' == factor * fan
    ensures sum' + fan' == factor * (sum + fan)
  {
  }

  /** Edge `k` sweeps `factor` times as much seen from `o'` as its original seen from `o`. */
  predicate EdgeScaled(ring: Ring, meters: Ring, o: LatLng, o': LatLng, factor: real, k: nat)
    requires 0 < k <= |ring| == |meters|
  {
    Fan(o', meters[k - 1], End(meters, k)) == factor * Fan(o, ring[k - 1], End(ring, k))
  }

  lemma EdgesScale(center: Center, ring: Ring, o: LatLng, k: nat)
    requires 0 < k <= |ring|
    ensures EdgeScaled(ring, RingInMeters(center, ring), o, InMeters(center, o), -Factor(center), k)
  {
    FanScales(center, o, ring[k - 1], End(ring, k));
  }

  lemma {:induction false} SumScales(ring: Ring, meters: Ring, o: LatLng, o': LatLng, factor: real, n: nat)
    requires n <= |ring| == |meters| && ring != []
    requires forall k: nat :: 0 < k <= n ==> EdgeScaled(ring, meters, o, o', factor, k)
    ensures FanSum(meters, o', n) == factor * FanSum(ring, o, n)
  {
    if n > 0 {
      SumScales(ring, meters, o, o', factor, n - 1);
      assert EdgeScaled(ring, meters, o, o', factor, n);
      ScalesTogether(factor, FanSum(ring, o, n - 1), Fan(o, ring[n - 1], End(ring, n)),
                     FanSum(meters, o', n - 1), Fan(o', meters[n - 1], End(meters, n)));
    }
  }

  lemma AbsScales(factor: real, r: real)
    requires factor > 0.0
    ensures Abs(-factor * r) == factor * Abs(r)
  {
    if r < 0.0 {
      Multiplies(factor, -r);
    } else {
      Multiplies(factor, r);
    }
  }

  /** The area in square metres is the area in square degrees times one constant, whatever the ring. */
  lemma AreaIsAffine(center: Center, ring: Ring)
    requires ring != [] && center.cos > 0.0
    ensures Area(RingInMeters(center, ring)) == Factor(center) * Area(ring)
  {
    var meters, start, factor := RingInMeters(center, ring), InMeters(center, ring[0]), -Factor(center);
    forall k: nat | 0 < k <= |ring| ensures EdgeScaled(ring, meters, ring[0], start, factor, k) {
      EdgesScale(center, ring, ring[0], k);
    }
    SumScales(ring, meters, ring[0], start, factor, |ring|);
    AbsScales(Factor(center), FanSum(ring, ring[0], |ring|));
  }

  // ---- What the area is ------------------------------------------------------------------

  lemma NothingSwept(o: LatLng, a: LatLng)
    ensures Fan(o, o, a) == 0.0 && Fan(o, a, o) == 0.0
  {
  }

  lemma {:induction false} SumOfPrefix(ring: Ring, v: LatLng, o: LatLng, n: nat)
    requires n < |ring|
    ensures FanSum(ring + [v], o, n) == FanSum(ring, o, n)
  {
    if n > 0 {
      SumOfPrefix(ring, v, o, n - 1);
    }
  }

  /** One more vertex adds the triangle that it makes with the first and the last one, signed by its side. */
  lemma VertexAddsTriangle(ring: Ring, v: LatLng)
    requires |ring| >= 2
    ensures FanSum(ring + [v], ring[0], |ring| + 1) == FanSum(ring, ring[0], |ring|) + Fan(ring[0], ring[|ring| - 1], v)
  {
    var n, longer, o := |ring|, ring + [v], ring[0];
    SumOfPrefix(ring, v, o, n - 1);
    NothingSwept(o, v);
    NothingSwept(o, ring[n - 1]);
    assert FanSum(longer, o, n) == FanSum(longer, o, n - 1) + Fan(o, ring[n - 1], v);
    assert FanSum(longer, o, n + 1) == FanSum(longer, o, n) + Fan(o, v, o);
  }

  lemma SegmentSweepsNothing(a: LatLng, b: LatLng)
    ensures FanSum([a, b], a, 2) == 0.0
  {
    NothingSwept(a, b);
    assert FanSum([a, b], a, 1) == FanSum([a, b], a, 0) + Fan(a, a, b);
  }

  lemma AbsMultiplies(x: real, y: real)
    ensures Abs(x * y) == Abs(x) * Abs(y)
  {
    if x >= 0.0 && y >= 0.0 {
      Multiplies(x, y);
    } else if x >= 0.0 {
      Multiplies(x, -y);
    } else if y >= 0.0 {
      Multiplies(-x, y);
    } else {
      Multiplies(-x, -y);
    }
  }

  /** Half of base times height, for a triangle with a level base. */
  lemma TriangleArea(a: LatLng, b: LatLng, c: LatLng)
    requires a.lat == b.lat
    ensures Area([a, b, c]) == Abs(b.lng - a.lng) * Abs(c.lat - a.lat) / 2.0
  {
    SegmentSweepsNothing(a, b);
    VertexAddsTriangle([a, b], c);
    assert [a, b] + [c] == [a, b, c];
    assert Fan(a, b, c) == -((b.lng - a.lng) * (c.lat - a.lat));
    AbsMultiplies(b.lng - a.lng, c.lat - a.lat);
  }

  /** Width times height, for a rectangle. */
  lemma RectangleArea(south: real, north: real, west: real, east: real)
    requires south <= north && west <= east
    ensures Area([LatLng(south, west), LatLng(south, east), LatLng(north, east), LatLng(north, west)])
         == (north - south) * (east - west)
  {
    var a, b, c, d := LatLng(south, west), LatLng(south, east), LatLng(north, east), LatLng(north, west);
    SegmentSweepsNothing(a, b);
    VertexAddsTriangle([a, b], c);
    assert [a, b] + [c] == [a, b, c];
    VertexAddsTriangle([a, b, c], d);
    assert [a, b, c] + [d] == [a, b, c, d];
    assert Fan(a, b, c) == -((north - south) * (east - west)) && Fan(a, c, d) == -((north - south) * (east - west));
    Multiplies(north - south, east - west);
  }
}
