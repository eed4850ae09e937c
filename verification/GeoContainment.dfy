/** What containment means: by triangles, and through them for every ring. */
module GeoContainment {
  import opened Geo

  /** Positive when `p` lies to the left of the way from `a` to `b`, seen with north up. */
  function TurnAt(a: LatLng, b: LatLng, p: LatLng): real {
    (b.lng - a.lng) * (p.lat - a.lat) - (b.lat - a.lat) * (p.lng - a.lng)
  }

  /** The edge is above the point. */
  predicate IsHit(a: LatLng, b: LatLng, p: LatLng) {
    Straddles(a, b, p.lng) && SideOf(a, b, p) == Below
  }

  function Hit(a: LatLng, b: LatLng, p: LatLng): nat {
    if IsHit(a, b, p) then 1 else 0
  }

  // ---- One edge -----------------------------------------------------------------------------

  lemma Quotient(n: real, d: real, x: real)
    requires d > 0.0
    ensures x < n / d <==> x * d < n
  {
    var q := n / d;
    assert q * d == n;
    if x < q {
      Times(x, q, d);
    } else if q < x {
      Times(q, x, d);
    }
  }

  lemma Times(x: real, y: real, d: real)
    requires x < y && d > 0.0
    ensures x * d < y * d
  {
  }

  lemma NegatedQuotient(n: real, d: real)
    requires d != 0.0
    ensures n / d == (-n) / (-d)
  {
    assert (n / d) * (-d) == -n;
    QuotientIs(-n, -d, n / d);
  }

  /** An eastward edge is above what lies to its right, a westward one above what lies to its left. */
  lemma HitIsASide(a: LatLng, b: LatLng, p: LatLng)
    requires Straddles(a, b, p.lng)
    ensures IsHit(a, b, p) <==> if b.lng > a.lng then TurnAt(a, b, p) < 0.0 else TurnAt(a, b, p) > 0.0
  {
    var n, d, x := (b.lat - a.lat) * (p.lng - a.lng), b.lng - a.lng, p.lat - a.lat;
    if d > 0.0 {
      Quotient(n, d, x);
    } else {
      NegatedQuotient(n, d);
      Quotient(-n, -d, x);
      assert x * (-d) == -(x * d);
    }
    assert d * x == x * d;
  }

  lemma TurnReverses(a: LatLng, b: LatLng, p: LatLng)
    ensures TurnAt(b, a, p) == -TurnAt(a, b, p)
  {
  }

  /** The direction of an edge does not matter. */
  lemma HitReverses(a: LatLng, b: LatLng, p: LatLng)
    ensures Hit(a, b, p) == Hit(b, a, p)
  {
    if Straddles(a, b, p.lng) {
      HitIsASide(a, b, p);
      HitIsASide(b, a, p);
      TurnReverses(a, b, p);
    }
  }

  // ---- One triangle -----------------------------------------------------------------------------

  /** The point is strictly on one side of all three edges, walked around. */
  predicate InTriangle(a: LatLng, b: LatLng, c: LatLng, p: LatLng) {
    || (TurnAt(a, b, p) > 0.0 && TurnAt(b, c, p) > 0.0 && TurnAt(c, a, p) > 0.0)
    || (TurnAt(a, b, p) < 0.0 && TurnAt(b, c, p) < 0.0 && TurnAt(c, a, p) < 0.0)
  }

  predicate OffLines(a: LatLng, b: LatLng, c: LatLng, p: LatLng) {
    TurnAt(a, b, p) != 0.0 && TurnAt(b, c, p) != 0.0 && TurnAt(c, a, p) != 0.0
  }

  lemma CountThree(a: LatLng, b: LatLng, c: LatLng, p: LatLng)
    ensures Count([a, b, c], 3, p, Below) == Hit(a, c, p) + Hit(b, a, p) + Hit(c, b, p)
  {
    var ring := [a, b, c];
    assert Count(ring, 0, p, Below) == 0;
    assert Count(ring, 1, p, Below) == Hit(a, c, p);
    assert Count(ring, 2, p, Below) == Count(ring, 1, p, Below) + Hit(b, a, p);
  }

  /** The turns are weights that balance the corners around the point. */
  lemma TurnsBalance(a: LatLng, b: LatLng, c: LatLng, p: LatLng)
    ensures TurnAt(b, c, p) * (a.lng - p.lng) + TurnAt(c, a, p) * (b.lng - p.lng) + TurnAt(a, b, p) * (c.lng - p.lng) == 0.0
  {
    var ax, ah, bx, bh := a.lng - p.lng, a.lat - p.lat, b.lng - p.lng, b.lat - p.lat;
    var cx, ch := c.lng - p.lng, c.lat - p.lat;
    TurnIs(a, b, p, ax, ah, bx, bh);
    TurnIs(b, c, p, bx, bh, cx, ch);
    TurnIs(c, a, p, cx, ch, ax, ah);
    Cancels(ax, ah, bx, bh, cx, ch);
  }

  lemma TurnIs(a: LatLng, b: LatLng, p: LatLng, ax: real, ah: real, bx: real, bh: real)
    requires ax == a.lng - p.lng && ah == a.lat - p.lat && bx == b.lng - p.lng && bh == b.lat - p.lat
    ensures TurnAt(a, b, p) == ax * bh - bx * ah
  {
    assert b.lng - a.lng == bx - ax && p.lat - a.lat == -ah && b.lat - a.lat == bh - ah && p.lng - a.lng == -ax;
  }

  lemma Cancels(ax: real, ah: real, bx: real, bh: real, cx: real, ch: real)
    ensures (bx * ch - cx * bh) * ax + (cx * ah - ax * ch) * bx + (ax * bh - bx * ah) * cx == 0.0
  {
  }

  lemma Positive(t: real, x: real)
    requires t > 0.0 && x > 0.0
    ensures t * x > 0.0
  {
  }

  lemma Weighs(t: real, x: real)
    ensures t > 0.0 && x > 0.0 ==> t * x > 0.0
    ensures t > 0.0 && x <= 0.0 ==> t * x <= 0.0
    ensures t < 0.0 && x > 0.0 ==> t * x < 0.0
    ensures t < 0.0 && x <= 0.0 ==> t * x >= 0.0
  {
    if t > 0.0 && x > 0.0 {
      Positive(t, x);
    } else if t > 0.0 && x < 0.0 {
      Positive(t, -x);
      assert t * -x == -(t * x);
    } else if t < 0.0 && x > 0.0 {
      Positive(-t, x);
      assert -t * x == -(t * x);
    } else if t < 0.0 && x < 0.0 {
      Positive(-t, -x);
      assert -t * -x == t * x;
    }
  }

  /** Balanced weights: with one corner on one side and two on the other, the third weight goes with equal first ones. */
  lemma ThirdGoesAlong(t: real, s: real, r: real, xu: real, xv: real, xw: real)
    requires t != 0.0 && s != 0.0 && r != 0.0 && (xu > 0.0) != (xv > 0.0) && (xv > 0.0) == (xw > 0.0)
    requires s * xv + r * xu + t * xw == 0.0 && (t > 0.0) == (s > 0.0)
    ensures (r > 0.0) == (t > 0.0)
  {
    Weighs(s, xv);
    Weighs(r, xu);
    Weighs(t, xw);
  }

  lemma CornerHits(u: LatLng, v: LatLng, w: LatLng, p: LatLng)
    requires OffLines(v, u, w, p) && (u.lng > p.lng) != (v.lng > p.lng) && (v.lng > p.lng) == (w.lng > p.lng)
    ensures (Hit(u, v, p) + Hit(w, u, p)) % 2 == 1 <==> (TurnAt(v, u, p) > 0.0) == (TurnAt(u, w, p) > 0.0)
  {
    HitIsASide(v, u, p);
    HitIsASide(u, w, p);
    HitReverses(v, u, p);
    HitReverses(u, w, p);
  }

  /** With one corner east of the meridian and two not, or the other way round: inside exactly between its two edges. */
  lemma CornerDecides(u: LatLng, v: LatLng, w: LatLng, p: LatLng)
    requires OffLines(v, u, w, p) && (u.lng > p.lng) != (v.lng > p.lng) && (v.lng > p.lng) == (w.lng > p.lng)
    ensures (Hit(u, v, p) + Hit(w, u, p)) % 2 == 1 <==> InTriangle(v, u, w, p)
  {
    var t, s, r := TurnAt(v, u, p), TurnAt(u, w, p), TurnAt(w, v, p);
    CornerHits(u, v, w, p);
    TurnsBalance(v, u, w, p);
    if (t > 0.0) == (s > 0.0) {
      ThirdGoesAlong(t, s, r, u.lng - p.lng, v.lng - p.lng, w.lng - p.lng);
    }
  }

  lemma NoneStraddles(a: LatLng, b: LatLng, c: LatLng, p: LatLng)
    requires OffLines(a, b, c, p) && (a.lng > p.lng) == (b.lng > p.lng) == (c.lng > p.lng)
    ensures !InTriangle(a, b, c, p)
  {
    TurnsBalance(a, b, c, p);
    Weighs(TurnAt(b, c, p), a.lng - p.lng);
    Weighs(TurnAt(c, a, p), b.lng - p.lng);
    Weighs(TurnAt(a, b, p), c.lng - p.lng);
  }

  /** Off the lines through its edges, a point is inside a triangle exactly when it is on one side of all edges. */
  lemma TriangleIsExact(a: LatLng, b: LatLng, c: LatLng, p: LatLng)
    requires OffLines(a, b, c, p)
    ensures Inside([a, b, c], p) <==> InTriangle(a, b, c, p)
  {
    CountThree(a, b, c, p);
    HitReverses(a, c, p);
    HitReverses(b, a, p);
    HitReverses(c, b, p);
    if (a.lng > p.lng) == (b.lng > p.lng) {
      if (b.lng > p.lng) == (c.lng > p.lng) {
        NoneStraddles(a, b, c, p);
      } else {
        CornerDecides(c, b, a, p);
      }
    } else if (b.lng > p.lng) == (c.lng > p.lng) {
      CornerDecides(a, c, b, p);
    } else {
      CornerDecides(b, a, c, p);
    }
  }

  // ---- Every ring ---------------------------------------------------------------------------------

  /** Hits of the edges between the first `n` vertices, without the one that closes the ring. */
  function PathHits(ring: Ring, n: nat, p: LatLng): nat
    requires n <= |ring|
  {
    if n <= 1 then 0 else PathHits(ring, n - 1, p) + Hit(ring[n - 1], ring[n - 2], p)
  }

  lemma {:induction false} CountIsPath(ring: Ring, n: nat, p: LatLng)
    requires 0 < n <= |ring|
    ensures Count(ring, n, p, Below) == PathHits(ring, n, p) + Hit(ring[0], ring[|ring| - 1], p)
  {
    if n > 1 {
      CountIsPath(ring, n - 1, p);
    } else {
      assert Count(ring, 0, p, Below) == 0;
    }
  }

  lemma {:induction false} PathOfPrefix(ring: Ring, v: LatLng, n: nat, p: LatLng)
    requires n <= |ring|
    ensures PathHits(ring + [v], n, p) == PathHits(ring, n, p)
  {
    if n > 1 {
      PathOfPrefix(ring, v, n - 1, p);
    }
  }

  lemma CountGrows(ring: Ring, v: LatLng, p: LatLng)
    requires |ring| >= 2
    ensures var first, last := ring[0], ring[|ring| - 1];
            Count(ring + [v], |ring| + 1, p, Below) + Hit(first, last, p)
            == Count(ring, |ring|, p, Below) + Hit(v, last, p) + Hit(first, v, p)
  {
    var n := |ring|;
    CountIsPath(ring, n, p);
    CountIsPath(ring + [v], n + 1, p);
    PathOfPrefix(ring, v, n, p);
  }

  lemma OddSum(whole: nat, part: nat, triangle: nat, twice: nat)
    requires whole + 2 * twice == part + triangle
    ensures whole % 2 == 1 <==> (part % 2 == 1) != (triangle % 2 == 1)
  {
  }

  /** Putting one more vertex into a ring adds a triangle to it, or takes one away. */
  lemma OneMoreVertex(ring: Ring, v: LatLng, p: LatLng)
    requires |ring| >= 2
    ensures Inside(ring + [v], p) <==> Inside(ring, p) != Inside([ring[0], ring[|ring| - 1], v], p)
  {
    var first, last := ring[0], ring[|ring| - 1];
    CountGrows(ring, v, p);
    CountThree(first, last, v, p);
    HitReverses(first, last, p);
    OddSum(Count(ring + [v], |ring| + 1, p, Below), Count(ring, |ring|, p, Below), Count([first, last, v], 3, p, Below),
           Hit(first, last, p));
  }

  /** How many triangles, fanned out from the first vertex over the first `n`, contain the point. */
  function Fan(ring: Ring, n: nat, p: LatLng): nat
    requires n <= |ring|
  {
    if n <= 2 then 0
    else Fan(ring, n - 1, p) + if Inside([ring[0], ring[n - 2], ring[n - 1]], p) then 1 else 0
  }

  lemma PairIsEmpty(pair: Ring, p: LatLng)
    requires |pair| == 2
    ensures !Inside(pair, p)
  {
    HitReverses(pair[0], pair[1], p);
    assert Count(pair, 0, p, Below) == 0;
    assert Count(pair, 1, p, Below) == Hit(pair[0], pair[1], p);
    assert Count(pair, 2, p, Below) == Count(pair, 1, p, Below) + Hit(pair[1], pair[0], p);
  }

  lemma {:induction false} FanIsExact(ring: Ring, n: nat, p: LatLng)
    requires 2 <= n <= |ring|
    ensures Inside(ring[..n], p) <==> Fan(ring, n, p) % 2 == 1
  {
    if n == 2 {
      PairIsEmpty(ring[..2], p);
    } else {
      FanIsExact(ring, n - 1, p);
      assert ring[..n] == ring[..n - 1] + [ring[n - 1]];
      OneMoreVertex(ring[..n - 1], ring[n - 1], p);
    }
  }

  /** How many of those triangles have the point on one side of all their edges. */
  function Covering(ring: Ring, n: nat, p: LatLng): nat
    requires n <= |ring|
  {
    if n <= 2 then 0
    else Covering(ring, n - 1, p) + if InTriangle(ring[0], ring[n - 2], ring[n - 1], p) then 1 else 0
  }

  ghost predicate OffFanLines(ring: Ring, p: LatLng) {
    forall k :: 2 <= k < |ring| ==> OffLines(ring[0], ring[k - 1], ring[k], p)
  }

  lemma {:induction false} FanCovers(ring: Ring, n: nat, p: LatLng)
    requires n <= |ring| && OffFanLines(ring, p)
    ensures Fan(ring, n, p) == Covering(ring, n, p)
  {
    if n > 2 {
      FanCovers(ring, n - 1, p);
      TriangleIsExact(ring[0], ring[n - 2], ring[n - 1], p);
    }
  }

  /**
   * Containment in any ring, convex or not, by orientation alone: off the lines of the triangles fanned out from the
   * first vertex, a point is inside exactly when an odd number of these triangles contain it.
   */
  lemma InsideIsOddCovering(ring: Ring, p: LatLng)
    requires OffFanLines(ring, p)
    ensures Inside(ring, p) <==> Covering(ring, |ring|, p) % 2 == 1
  {
    if |ring| >= 2 {
      FanIsExact(ring, |ring|, p);
      FanCovers(ring, |ring|, p);
      assert ring[..|ring|] == ring;
    } else if |ring| == 1 {
      assert Count(ring, 0, p, Below) == 0;
      assert !Straddles(ring[0], ring[0], p.lng);
    }
  }
}
