/** Zone adjacency derived from polygon geometry, index mixing included. */
module GeoAdjacency {
  import opened Options
  import opened Geo
  import opened GeoDistance

  datatype Zone = Zone(id: string, polygon: Option<Ring>)

  datatype Projected = Projected(id: string, points: seq<Point>)

  /** `Thrown` stands for the TypeError of reading a vertex that is not there. */
  datatype Derived = Thrown | Adjacency(lists: map<string, seq<string>>)

  predicate Usable(zone: Zone) {
    zone.polygon.Some? && |zone.polygon.value| >= 3
  }

  function Polygons(zones: seq<Zone>, center: Center): (polygons: seq<Projected>)
    ensures |polygons| <= |zones|
    ensures forall k :: 0 <= k < |polygons| ==> |polygons[k].points| >= 3
  {
    if zones == [] then []
    else
      var last := zones[|zones| - 1];
      Polygons(zones[..|zones| - 1], center)
      + (if Usable(last) then [Projected(last.id, MeterPoints(center, last.polygon.value))] else [])
  }

  /** A polygon with at least one vertex to start from. */
  predicate Readable(zone: Zone) {
    zone.polygon.Some? && zone.polygon.value != []
  }

  /** One zone contains the other's first vertex. */
  predicate Contained(a: Zone, b: Zone) {
    Readable(a) && Readable(b)
    && (Inside(b.polygon.value, a.polygon.value[0]) || Inside(a.polygon.value, b.polygon.value[0]))
  }

  /** The pair test as coded: containment of two entries of `zones`, distance of two entries of `polygons`. */
  ghost predicate PairLinked(zones: seq<Zone>, polygons: seq<Projected>, tolerance: real, i: nat, j: nat)
    requires i < |polygons| <= |zones| && j < |polygons|
  {
    Contained(zones[i], zones[j]) || Close(polygons[i].points, polygons[j].points, tolerance)
  }

  method TestPair(za: Zone, zb: Zone, a: Projected, b: Projected, tolerance: real) returns (linked: bool)
    requires Readable(za) && Readable(zb) && a.points != [] && b.points != []
    ensures linked <==> Contained(za, zb) || Close(a.points, b.points, tolerance)
  {
    linked := PointInPolygon(za.polygon.value[0], zb.polygon.value);
    if !linked {
      linked := PointInPolygon(zb.polygon.value[0], za.polygon.value);
    }
    if !linked {
      var least := PolygonBoundaryDistance2(a.points, b.points);
      LeastDecides(a.points, b.points, least, tolerance);
      linked := tolerance >= 0.0 && least <= tolerance * tolerance;
    }
  }

  /** In row-major order, the pair `(p, q)` comes before `(i, j)`. */
  predicate Earlier(p: nat, q: nat, i: nat, j: nat) {
    p < q && (p < i || (p == i && q < j))
  }

  type Pairs = set<(nat, nat)>

  /** `pairs` are the linked pairs among those before `(i, j)`. */
  ghost predicate LinkedBefore(zones: seq<Zone>, polygons: seq<Projected>, tolerance: real, i: nat, j: nat, pairs: Pairs)
    requires |polygons| <= |zones|
  {
    forall p: nat, q: nat :: (p, q) in pairs <==>
      p < |polygons| && q < |polygons| && Earlier(p, q, i, j) && PairLinked(zones, polygons, tolerance, p, q)
  }

  ghost predicate Distinct(ids: seq<string>) {
    forall p, q :: 0 <= p < q < |ids| ==> ids[p] != ids[q]
  }

  /** The lists hold every linked pair in both directions, and nothing else. */
  ghost predicate Records(ids: seq<string>, pairs: Pairs, lists: map<string, seq<string>>) {
    && (forall name :: name in lists <==> name in ids)
    && (Distinct(ids) ==>
          forall p: nat, q: nat :: p < |ids| && q < |ids| ==>
            (ids[q] in lists[ids[p]] <==> (p, q) in pairs || (q, p) in pairs))
  }

  function Ids(polygons: seq<Projected>): (ids: seq<string>)
    ensures |ids| == |polygons| && forall k :: 0 <= k < |ids| ==> ids[k] == polygons[k].id
  {
    seq(|polygons|, k requires 0 <= k < |polygons| => polygons[k].id)
  }

  /** Every pair before `(i, j)` could be read. */
  ghost predicate ReadBefore(zones: seq<Zone>, m: nat, i: nat, j: nat)
    requires m <= |zones|
  {
    forall p: nat, q: nat :: p < m && q < m && Earlier(p, q, i, j) ==> Readable(zones[p]) && Readable(zones[q])
  }

  /** There is a list for every polygon; with distinct ids they hold exactly the pairs that pass the test. */
  ghost predicate Listed(zones: seq<Zone>, polygons: seq<Projected>, tolerance: real, lists: map<string, seq<string>>)
    requires |polygons| <= |zones|
  {
    var ids := Ids(polygons);
    && (forall name :: name in lists <==> name in ids)
    && (Distinct(ids) ==>
          forall p: nat, q: nat :: p < |polygons| && q < |polygons| ==>
            (ids[q] in lists[ids[p]] <==>
               (p < q && PairLinked(zones, polygons, tolerance, p, q))
               || (q < p && PairLinked(zones, polygons, tolerance, q, p))))
  }

  /**
   * What the derivation must answer: it throws exactly when a zone at some polygon's position has no vertex to
   * read; otherwise its lists hold exactly the pairs that pass the coded test.
   */
  ghost predicate IsDerived(zones: seq<Zone>, center: Center, tolerance: real, r: Derived) {
    var polygons := Polygons(zones, center);
    && (r.Thrown? <==> |polygons| >= 2 && exists k :: 0 <= k < |polygons| && !Readable(zones[k]))
    && (r.Adjacency? ==> Listed(zones, polygons, tolerance, r.lists))
  }

  method DeriveGeoAdjacency(zones: seq<Zone>, center: Center, tolerance: real) returns (r: Derived)
    ensures IsDerived(zones, center, tolerance, r)
  {
    var polygons := CollectPolygons(zones, center);
    var lists := EmptyLists(polygons);
    ghost var pairs: Pairs := {};
    for i := 0 to |polygons|
      invariant ReadBefore(zones, |polygons|, i, 0) && LinkedBefore(zones, polygons, tolerance, i, 0, pairs)
      invariant Records(Ids(polygons), pairs, lists)
    {
      var thrown;
      thrown, lists, pairs := LinkRow(zones, polygons, tolerance, i, lists, pairs);
      if thrown {
        return Thrown;
      }
    }
    AllRead(zones, |polygons|);
    AllListed(zones, polygons, tolerance, pairs, lists);
    r := Adjacency(lists);
  }

  /** The inner loop: test zone `i` against all later ones. */
  method LinkRow(zones: seq<Zone>, polygons: seq<Projected>, tolerance: real, i: nat, before: map<string, seq<string>>,
                 ghost known: Pairs)
    returns (thrown: bool, lists: map<string, seq<string>>, ghost pairs: Pairs)
    requires i < |polygons| <= |zones| && forall k :: 0 <= k < |polygons| ==> polygons[k].points != []
    requires ReadBefore(zones, |polygons|, i, 0) && LinkedBefore(zones, polygons, tolerance, i, 0, known)
    requires Records(Ids(polygons), known, before)
    ensures if thrown then |polygons| >= 2 && exists k :: 0 <= k < |polygons| && !Readable(zones[k])
            else
              && ReadBefore(zones, |polygons|, i + 1, 0) && LinkedBefore(zones, polygons, tolerance, i + 1, 0, pairs)
              && Records(Ids(polygons), pairs, lists)
  {
    thrown, lists, pairs := false, before, known;
    NextRow(zones, polygons, tolerance, i, pairs);
    for j := i + 1 to |polygons|
      invariant ReadBefore(zones, |polygons|, i, j) && LinkedBefore(zones, polygons, tolerance, i, j, pairs)
      invariant Records(Ids(polygons), pairs, lists)
    {
      if !Readable(zones[i]) || !Readable(zones[j]) {
        return true, lists, pairs;
      }
      var linked := TestPair(zones[i], zones[j], polygons[i], polygons[j], tolerance);
      NextPair(zones, polygons, tolerance, i, j, pairs);
      if linked {
        var a, b := polygons[i].id, polygons[j].id;
        Recorded(Ids(polygons), pairs, lists, i, j);
        lists := lists[a := lists[a] + [b]];
        lists := lists[b := lists[b] + [a]];
        pairs := pairs + {(i, j)};
      }
    }
    RowDone(zones, polygons, tolerance, i, pairs);
  }

  method CollectPolygons(zones: seq<Zone>, center: Center) returns (polygons: seq<Projected>)
    ensures polygons == Polygons(zones, center)
  {
    polygons := [];
    for k := 0 to |zones|
      invariant polygons == Polygons(zones[..k], center)
    {
      assert zones[..k + 1][..k] == zones[..k];
      if zones[k].polygon.Some? && |zones[k].polygon.value| >= 3 {
        polygons := polygons + [Projected(zones[k].id, MeterPoints(center, zones[k].polygon.value))];
      }
    }
    assert zones[..|zones|] == zones;
  }

  method EmptyLists(polygons: seq<Projected>) returns (lists: map<string, seq<string>>)
    ensures Records(Ids(polygons), {}, lists)
  {
    lists := map[];
    ghost var ids := Ids(polygons);
    for k := 0 to |polygons|
      invariant forall name :: name in lists <==> name in ids[..k]
      invariant forall name :: name in lists ==> lists[name] == []
    {
      lists := lists[polygons[k].id := []];
      assert ids[..k + 1] == ids[..k] + [polygons[k].id];
    }
    assert ids[..|polygons|] == ids;
  }

  /** Two positions with the same earlier pairs are interchangeable. */
  lemma SamePosition(zones: seq<Zone>, polygons: seq<Projected>, tolerance: real, i: nat, j: nat, i': nat, j': nat,
                     pairs: Pairs)
    requires |polygons| <= |zones|
    requires forall p: nat, q: nat :: q < |polygons| ==> Earlier(p, q, i, j) == Earlier(p, q, i', j')
    requires ReadBefore(zones, |polygons|, i, j) && LinkedBefore(zones, polygons, tolerance, i, j, pairs)
    ensures ReadBefore(zones, |polygons|, i', j') && LinkedBefore(zones, polygons, tolerance, i', j', pairs)
  {
  }

  lemma NextRow(zones: seq<Zone>, polygons: seq<Projected>, tolerance: real, i: nat, pairs: Pairs)
    requires i < |polygons| <= |zones|
    requires ReadBefore(zones, |polygons|, i, 0) && LinkedBefore(zones, polygons, tolerance, i, 0, pairs)
    ensures ReadBefore(zones, |polygons|, i, i + 1) && LinkedBefore(zones, polygons, tolerance, i, i + 1, pairs)
  {
    SamePosition(zones, polygons, tolerance, i, 0, i, i + 1, pairs);
  }

  lemma RowDone(zones: seq<Zone>, polygons: seq<Projected>, tolerance: real, i: nat, pairs: Pairs)
    requires i < |polygons| <= |zones|
    requires ReadBefore(zones, |polygons|, i, |polygons|) && LinkedBefore(zones, polygons, tolerance, i, |polygons|, pairs)
    ensures ReadBefore(zones, |polygons|, i + 1, 0) && LinkedBefore(zones, polygons, tolerance, i + 1, 0, pairs)
  {
    SamePosition(zones, polygons, tolerance, i, |polygons|, i + 1, 0, pairs);
  }

  lemma NextPair(zones: seq<Zone>, polygons: seq<Projected>, tolerance: real, i: nat, j: nat, pairs: Pairs)
    requires i < j < |polygons| <= |zones| && Readable(zones[i]) && Readable(zones[j])
    requires ReadBefore(zones, |polygons|, i, j) && LinkedBefore(zones, polygons, tolerance, i, j, pairs)
    ensures ReadBefore(zones, |polygons|, i, j + 1)
    ensures LinkedBefore(zones, polygons, tolerance, i, j + 1,
                         if PairLinked(zones, polygons, tolerance, i, j) then pairs + {(i, j)} else pairs)
  {
    forall p: nat, q: nat
      ensures Earlier(p, q, i, j + 1) == (Earlier(p, q, i, j) || (p == i && q == j))
    {
    }
  }

  lemma AllRead(zones: seq<Zone>, m: nat)
    requires m <= |zones| && ReadBefore(zones, m, m, 0)
    ensures m >= 2 ==> forall k :: 0 <= k < m ==> Readable(zones[k])
  {
    if m >= 2 {
      forall k | 0 <= k < m
        ensures Readable(zones[k])
      {
        assert Earlier(if k == 0 then 0 else k - 1, if k == 0 then 1 else k, m, 0);
      }
    }
  }

  lemma Recorded(ids: seq<string>, pairs: Pairs, lists: map<string, seq<string>>, i: nat, j: nat)
    requires i < j < |ids| && Records(ids, pairs, lists)
    ensures ids[i] in lists && ids[j] in lists
    ensures var first := lists[ids[i] := lists[ids[i]] + [ids[j]]];
            Records(ids, pairs + {(i, j)}, first[ids[j] := first[ids[j]] + [ids[i]]])
  {
    var first := lists[ids[i] := lists[ids[i]] + [ids[j]]];
    var after := first[ids[j] := first[ids[j]] + [ids[i]]];
    if Distinct(ids) {
      forall p: nat, q: nat | p < |ids| && q < |ids|
        ensures ids[q] in after[ids[p]] <==> (p, q) in pairs + {(i, j)} || (q, p) in pairs + {(i, j)}
      {
        assert after[ids[p]] == lists[ids[p]] + (if p == i then [ids[j]] else if p == j then [ids[i]] else []);
      }
    }
  }

  lemma AllListed(zones: seq<Zone>, polygons: seq<Projected>, tolerance: real, pairs: Pairs, lists: map<string, seq<string>>)
    requires |polygons| <= |zones|
    requires LinkedBefore(zones, polygons, tolerance, |polygons|, 0, pairs) && Records(Ids(polygons), pairs, lists)
    ensures Listed(zones, polygons, tolerance, lists)
  {
    forall p: nat, q: nat | p < |polygons| && q < |polygons|
      ensures (p, q) in pairs <==> p < q && PairLinked(zones, polygons, tolerance, p, q)
    {
      assert Earlier(p, q, |polygons|, 0) == (p < q);
    }
  }

  // ---- What the lists mean --------------------------------------------------------

  /** The zones with a usable polygon come first, so that both index ranges agree. */
  ghost predicate UsableFirst(zones: seq<Zone>) {
    forall i, j :: 0 <= i < j < |zones| && Usable(zones[j]) ==> Usable(zones[i])
  }

  function MetersOf(zone: Zone, center: Center): seq<Point> {
    if zone.polygon.Some? then MeterPoints(center, zone.polygon.value) else []
  }

  /** The intended relation between two zones. */
  ghost predicate Adjacent(a: Zone, b: Zone, center: Center, tolerance: real) {
    Usable(a) && Usable(b)
    && (Contained(a, b) || Close(MetersOf(a, center), MetersOf(b, center), tolerance))
  }

  lemma AdjacentIsSymmetric(a: Zone, b: Zone, center: Center, tolerance: real)
    ensures Adjacent(a, b, center, tolerance) == Adjacent(b, a, center, tolerance)
  {
    if Usable(a) && Usable(b) {
      CloseIsSymmetric(MetersOf(a, center), MetersOf(b, center), tolerance);
    }
  }

  lemma CloseIsSymmetric(a: seq<Point>, b: seq<Point>, tolerance: real)
    ensures Close(a, b, tolerance) == Close(b, a, tolerance)
  {
    if Close(a, b, tolerance) {
      CloseReverses(a, b, tolerance);
    }
    if Close(b, a, tolerance) {
      CloseReverses(b, a, tolerance);
    }
  }

  lemma CloseReverses(a: seq<Point>, b: seq<Point>, tolerance: real)
    requires Close(a, b, tolerance)
    ensures Close(b, a, tolerance)
  {
    var i, j :| 0 <= i < |a| && 0 <= j < |b| && EdgeDistance2(a, b, i, j) <= tolerance * tolerance;
    EdgeDistanceIsSymmetric(a, b, i, j);
  }

  lemma {:induction false} AlignedWhenUsableFirst(zones: seq<Zone>, center: Center)
    requires UsableFirst(zones)
    ensures var polygons := Polygons(zones, center);
            && (forall k :: 0 <= k < |polygons| ==>
                  Usable(zones[k]) && polygons[k] == Projected(zones[k].id, MetersOf(zones[k], center)))
            && (forall k :: |polygons| <= k < |zones| ==> !Usable(zones[k]))
  {
    if zones != [] {
      var front, last := zones[..|zones| - 1], |zones| - 1;
      AlignedWhenUsableFirst(front, center);
      if Usable(zones[last]) {
        assert forall k :: 0 <= k < last ==> Usable(zones[k]) && front[k] == zones[k];
        assert |Polygons(front, center)| == last;
      }
    }
  }

  /**
   * Whenever the usable zones come first and their ids are distinct, nothing is thrown and the lists
   * are exactly the adjacency relation, which is symmetric; no zone is its own neighbour.
   */
  lemma ListsAreAdjacency(zones: seq<Zone>, center: Center, tolerance: real, lists: map<string, seq<string>>, p: nat, q: nat)
    requires UsableFirst(zones)
    requires var polygons := Polygons(zones, center);
             && p < |polygons| && q < |polygons| && Distinct(Ids(polygons))
             && Listed(zones, polygons, tolerance, lists)
    ensures Readable(zones[p])
    ensures zones[p].id in lists
    ensures zones[q].id in lists[zones[p].id] <==> p != q && Adjacent(zones[p], zones[q], center, tolerance)
    ensures zones[q].id in lists[zones[p].id] <==> zones[q].id in lists && zones[p].id in lists[zones[q].id]
  {
    AlignedWhenUsableFirst(zones, center);
    var polygons := Polygons(zones, center);
    assert polygons[p] == Projected(zones[p].id, MetersOf(zones[p], center));
    assert polygons[q] == Projected(zones[q].id, MetersOf(zones[q], center));
    ListedPair(zones, polygons, center, tolerance, lists, p, q);
    ListedPair(zones, polygons, center, tolerance, lists, q, p);
    AdjacentIsSymmetric(zones[p], zones[q], center, tolerance);
  }

  lemma ListedPair(zones: seq<Zone>, polygons: seq<Projected>, center: Center, tolerance: real, lists: map<string, seq<string>>,
                   p: nat, q: nat)
    requires p < |polygons| <= |zones| && q < |polygons| && Usable(zones[p]) && Usable(zones[q])
    requires polygons[p] == Projected(zones[p].id, MetersOf(zones[p], center))
    requires polygons[q] == Projected(zones[q].id, MetersOf(zones[q], center))
    requires Distinct(Ids(polygons)) && Listed(zones, polygons, tolerance, lists)
    ensures zones[p].id in lists
    ensures zones[q].id in lists[zones[p].id] <==> p != q && Adjacent(zones[p], zones[q], center, tolerance)
  {
    var ids := Ids(polygons);
    assert ids[p] == zones[p].id && ids[q] == zones[q].id && ids[p] in ids;
    AdjacentIsSymmetric(zones[p], zones[q], center, tolerance);
  }

  /** What validation of zones ensures: every stored polygon has at least three vertices. */
  ghost predicate Validated(zones: seq<Zone>) {
    forall z :: z in zones && z.polygon.Some? ==> |z.polygon.value| >= 3
  }

  /** Behind `k` usable zones, there are more than `k` polygons exactly when another zone is usable. */
  lemma {:induction false} UsableAreCounted(zones: seq<Zone>, center: Center, k: nat)
    requires k <= |zones| && forall i :: 0 <= i < k ==> Usable(zones[i])
    ensures |Polygons(zones, center)| >= k
    ensures |Polygons(zones, center)| == k <==> forall i :: k <= i < |zones| ==> !Usable(zones[i])
  {
    if zones != [] {
      var front, last := zones[..|zones| - 1], |zones| - 1;
      assert forall i :: 0 <= i < last ==> front[i] == zones[i];
      UsableAreCounted(front, center, if k <= last then k else last);
    }
  }

  /** As many of the first zones as there are polygons are usable, exactly when the usable zones come first. */
  lemma FirstZonesUsableIff(zones: seq<Zone>, center: Center)
    ensures UsableFirst(zones) <==> forall k :: 0 <= k < |Polygons(zones, center)| ==> Usable(zones[k])
  {
    if UsableFirst(zones) {
      AlignedWhenUsableFirst(zones, center);
    } else if forall k :: 0 <= k < |Polygons(zones, center)| ==> Usable(zones[k]) {
      UsableAreCounted(zones, center, |Polygons(zones, center)|);
    }
  }

  lemma {:induction false} NoPolygonNoneUsable(zones: seq<Zone>, center: Center, p: nat)
    requires |Polygons(zones, center)| == 0 && p < |zones|
    ensures !Usable(zones[p])
  {
    var front := zones[..|zones| - 1];
    if p < |front| {
      assert front[p] == zones[p];
      NoPolygonNoneUsable(front, center, p);
    }
  }

  lemma {:induction false} OnePolygon(zones: seq<Zone>, center: Center, p: nat)
    requires |Polygons(zones, center)| == 1 && p < |zones| && Usable(zones[p])
    ensures Polygons(zones, center)[0].id == zones[p].id
    ensures forall q :: 0 <= q < |zones| && q != p ==> !Usable(zones[q])
  {
    var front, last := zones[..|zones| - 1], |zones| - 1;
    if Usable(zones[last]) {
      forall q | 0 <= q < last ensures !Usable(zones[q]) {
        assert front[q] == zones[q];
        NoPolygonNoneUsable(front, center, q);
      }
    } else {
      assert front[p] == zones[p];
      OnePolygon(front, center, p);
      forall q | 0 <= q < last && q != p ensures !Usable(zones[q]) {
        assert front[q] == zones[q];
      }
    }
  }

  /** The lists are the adjacency relation of the zones that have a polygon. */
  ghost predicate DescribesAdjacency(zones: seq<Zone>, center: Center, tolerance: real, r: Derived) {
    r.Adjacency?
    && forall p: nat, q: nat :: p < |zones| && q < |zones| && Usable(zones[p]) && Usable(zones[q]) ==>
         NeighbourIff(r.lists, zones[p].id, zones[q].id, p != q && Adjacent(zones[p], zones[q], center, tolerance))
  }

  predicate NeighbourIff(lists: map<string, seq<string>>, id: string, other: string, linked: bool) {
    id in lists && (other in lists[id] <==> linked)
  }

  /**
   * For validated zones with distinct ids, whatever the tolerance: the derivation returns the adjacency relation
   * if and only if it does not throw, if and only if fewer than two zones have a polygon or those that do come first.
   */
  lemma AdjacencyIsDerivedIff(zones: seq<Zone>, center: Center, tolerance: real, r: Derived)
    requires Validated(zones) && IsDerived(zones, center, tolerance, r)
    ensures !r.Thrown? <==> |Polygons(zones, center)| < 2 || UsableFirst(zones)
    ensures Distinct(Ids(Polygons(zones, center))) ==> (!r.Thrown? <==> DescribesAdjacency(zones, center, tolerance, r))
  {
    FirstZonesUsableIff(zones, center);
    forall k | 0 <= k < |zones| ensures Readable(zones[k]) <==> Usable(zones[k]) {
      assert zones[k] in zones;
    }
    if r.Adjacency? && Distinct(Ids(Polygons(zones, center))) {
      forall p: nat, q: nat | p < |zones| && q < |zones| && Usable(zones[p]) && Usable(zones[q])
        ensures NeighbourIff(r.lists, zones[p].id, zones[q].id, p != q && Adjacent(zones[p], zones[q], center, tolerance))
      {
        DerivedPair(zones, center, tolerance, r.lists, p, q);
      }
    }
  }

  lemma DerivedPair(zones: seq<Zone>, center: Center, tolerance: real, lists: map<string, seq<string>>, p: nat, q: nat)
    requires |Polygons(zones, center)| < 2 || UsableFirst(zones)
    requires Distinct(Ids(Polygons(zones, center))) && Listed(zones, Polygons(zones, center), tolerance, lists)
    requires p < |zones| && q < |zones| && Usable(zones[p]) && Usable(zones[q])
    ensures NeighbourIff(lists, zones[p].id, zones[q].id, p != q && Adjacent(zones[p], zones[q], center, tolerance))
  {
    if UsableFirst(zones) {
      AlignedWhenUsableFirst(zones, center);
      ListsAreAdjacency(zones, center, tolerance, lists, p, q);
    } else if |Polygons(zones, center)| == 0 {
      NoPolygonNoneUsable(zones, center, p);
      assert false;
    } else {
      OnePolygon(zones, center, p);
      assert Ids(Polygons(zones, center))[0] == zones[p].id;
    }
  }

  lemma TwoPolygons(zones: seq<Zone>, center: Center)
    requires |zones| == 3 && !Usable(zones[0]) && Usable(zones[1]) && Usable(zones[2])
    ensures Polygons(zones, center)
         == [Projected(zones[1].id, MetersOf(zones[1], center)), Projected(zones[2].id, MetersOf(zones[2], center))]
  {
    assert zones[..2] == [zones[0], zones[1]] && zones[..2][..1] == [zones[0]] && [zones[0]][..0] == [];
    assert Polygons([], center) == [] && Polygons([zones[0]], center) == [];
    assert Polygons([zones[0], zones[1]], center) == [Projected(zones[1].id, MetersOf(zones[1], center))];
  }

  /** One zone without a polygon in front of two usable ones makes the derivation throw. */
  lemma UnusableInFrontThrows(center: Center, ring: Ring, tolerance: real, r: Derived)
    requires |ring| >= 3
    ensures var zones := [Zone("a", None), Zone("b", Some(ring)), Zone("c", Some(ring))];
            IsDerived(zones, center, tolerance, r) ==> r == Thrown
  {
    var zones := [Zone("a", None), Zone("b", Some(ring)), Zone("c", Some(ring))];
    TwoPolygons(zones, center);
    assert !Readable(zones[0]);
  }

  // ---- Testing the wrong zone ----------------------------------------------------------

  /** All vertices lie east of the meridian, or none does. */
  predicate OnOneSide(ring: Ring, lng: real) {
    (forall k :: 0 <= k < |ring| ==> ring[k].lng > lng) || (forall k :: 0 <= k < |ring| ==> ring[k].lng <= lng)
  }

  /** A ring on one side of the point's meridian does not contain the point. */
  lemma {:induction false} NothingStraddles(ring: Ring, n: nat, p: LatLng)
    requires n <= |ring| && OnOneSide(ring, p.lng)
    ensures Count(ring, n, p, Below) == 0
  {
    if n > 0 {
      NothingStraddles(ring, n - 1, p);
    }
  }

  lemma Weighted(a: real, b: real, s: real, x: real)
    requires Unit(s) && a <= x && b <= x
    ensures a + s * (b - a) <= x
  {
    Product(1.0 - s, x - a);
    Product(s, x - b);
    assert x - (a + s * (b - a)) == (1.0 - s) * (x - a) + s * (x - b);
  }

  lemma AlongIsWest(a: Point, b: Point, s: real, x: real)
    requires Unit(s) && a.x <= x && b.x <= x
    ensures Along(a, b, s).x <= x
  {
    Weighted(a.x, b.x, s, x);
  }

  lemma AlongIsEast(a: Point, b: Point, s: real, x: real)
    requires Unit(s) && a.x >= x && b.x >= x
    ensures Along(a, b, s).x >= x
  {
    Weighted(-a.x, -b.x, s, -x);
    assert -a.x + s * (-b.x - -a.x) == -(a.x + s * (b.x - a.x));
  }

  lemma FarAcross(p: Point, q: Point, gap: real)
    requires gap >= 0.0 && q.x - p.x >= gap
    ensures Dist2(p, q) >= gap * gap
  {
    var d := q.x - p.x;
    Multiplies(d - gap, d + gap);
    SquareIsPositive(p.y - q.y);
    assert (p.x - q.x) * (p.x - q.x) == d * d;
    assert (d - gap) * (d + gap) == d * d - gap * gap;
  }

  /** Boundaries west of `x` and east of `x + gap` are not close when the gap exceeds the tolerance. */
  lemma SeparatedAreNotClose(a: seq<Point>, b: seq<Point>, x: real, gap: real, tolerance: real)
    requires a != [] && b != [] && 0.0 <= tolerance < gap
    requires forall k :: 0 <= k < |a| ==> a[k].x <= x
    requires forall k :: 0 <= k < |b| ==> b[k].x >= x + gap
    ensures !Close(a, b, tolerance)
  {
    forall i, j | 0 <= i < |a| && 0 <= j < |b| ensures EdgeDistance2(a, b, i, j) > tolerance * tolerance {
      var s, t := SegmentDistanceIsAttained(Corner(a, i), Corner(a, i + 1), Corner(b, j), Corner(b, j + 1));
      var p, q := Along(Corner(a, i), Corner(a, i + 1), s), Along(Corner(b, j), Corner(b, j + 1), t);
      AlongIsWest(Corner(a, i), Corner(a, i + 1), s, x);
      AlongIsEast(Corner(b, j), Corner(b, j + 1), t, x + gap);
      FarAcross(p, q, gap);
      SquaresOrdered(tolerance, gap);
    }
  }

  lemma SquaresOrdered(a: real, b: real)
    requires 0.0 <= a < b
    ensures a * a < b * b
  {
    Multiplies(b - a, b + a);
    assert (b - a) * (b + a) == b * b - a * a;
  }

  /** A zone of one vertex, inside the triangle of the second zone; the third one lies eight degrees further east. */
  function Misaligned(): seq<Zone> {
    [Zone("a", Some([LatLng(0.5, 1.0)])),
     Zone("b", Some([LatLng(0.0, 0.0), LatLng(0.0, 2.0), LatLng(2.0, 1.0)])),
     Zone("c", Some([LatLng(0.0, 10.0), LatLng(0.0, 12.0), LatLng(2.0, 11.0)]))]
  }

  const EQUATOR := Center(0.0, 0.0, 1.0)

  lemma CrossingIs(a: LatLng, b: LatLng, lng: real, lat: real)
    requires Straddles(a, b, lng) && (b.lat - a.lat) * (lng - a.lng) == (lat - a.lat) * (b.lng - a.lng)
    ensures CrossingLat(a, b, lng) == lat
  {
    QuotientIs((b.lat - a.lat) * (lng - a.lng), b.lng - a.lng, lat - a.lat);
  }

  /** A straddling edge counts when its crossing `lat` is above the point. */
  lemma EdgeCounts(ring: Ring, n: nat, p: LatLng, a: LatLng, b: LatLng, lat: real)
    requires 0 < n <= |ring| && ring[n - 1] == a && Previous(ring, n - 1) == b && Straddles(a, b, p.lng)
    requires (b.lat - a.lat) * (p.lng - a.lng) == (lat - a.lat) * (b.lng - a.lng)
    ensures Count(ring, n, p, Below) == Count(ring, n - 1, p, Below) + if p.lat < lat then 1 else 0
  {
    CrossingIs(a, b, p.lng, lat);
  }

  /** Of the triangle's edges one passes west of the point, one south and one north of it. */
  lemma VertexIsInside(ring: Ring, v0: LatLng, v1: LatLng, v2: LatLng, p: LatLng)
    requires ring == [v0, v1, v2] && p == LatLng(0.5, 1.0)
    requires v0 == LatLng(0.0, 0.0) && v1 == LatLng(0.0, 2.0) && v2 == LatLng(2.0, 1.0)
    ensures Inside(ring, p)
  {
    assert Count(ring, 0, p, Below) == 0;
    assert Count(ring, 1, p, Below) == 0 by {
      assert !Straddles(v0, v2, 1.0);
    }
    EdgeCounts(ring, 2, p, v1, v0, 0.0);
    EdgeCounts(ring, 3, p, v2, v1, 2.0);
  }

  lemma NotAdjacent(tolerance: real)
    requires 0.0 <= tolerance <= 500.0
    ensures !Adjacent(Misaligned()[1], Misaligned()[2], EQUATOR, tolerance)
  {
    var b, c := Misaligned()[1], Misaligned()[2];
    NothingStraddles(c.polygon.value, 3, b.polygon.value[0]);
    NothingStraddles(b.polygon.value, 3, c.polygon.value[0]);
    SeparatedAreNotClose(MetersOf(b, EQUATOR), MetersOf(c, EQUATOR), 2.0 * METERS_PER_DEG, 8.0 * METERS_PER_DEG, tolerance);
  }

  /**
   * A first zone with a polygon too short to use shifts the positions: "b" and "c" are listed as neighbours
   * because "a" lies in "b", although they are hundreds of kilometres apart.
   */
  lemma WrongZoneIsTested(tolerance: real, r: Derived)
    requires 0.0 <= tolerance <= 500.0 && IsDerived(Misaligned(), EQUATOR, tolerance, r)
    ensures r.Adjacency? && "b" in r.lists && "c" in r.lists["b"]
    ensures !Adjacent(Misaligned()[1], Misaligned()[2], EQUATOR, tolerance)
  {
    var zones := Misaligned();
    var polygons := Polygons(zones, EQUATOR);
    TwoPolygons(zones, EQUATOR);
    var triangle := zones[1].polygon.value;
    VertexIsInside(triangle, triangle[0], triangle[1], triangle[2], zones[0].polygon.value[0]);
    NotAdjacent(tolerance);
    var ids := Ids(polygons);
    assert ids[0] == "b" && ids[1] == "c" && "b"[0] != "c"[0];
    assert Distinct(ids) && PairLinked(zones, polygons, tolerance, 0, 1);
    assert ids[1] in r.lists[ids[0]];
  }
}
