/** The reader's even-odd test, and what it answers on a ring with holes cut in. */
module EvenOdd {
  import opened Rings
  import opened SignedAreas
  import opened BridgeHoles

  /** Does the edge between `a` and `b` cross the ray that leaves `p` towards the north? */
  predicate Crosses(p: Point, a: Point, b: Point) {
    && (a.lng > p.lng) != (b.lng > p.lng)
    && p.lat < RiseAt(b.lat - a.lat, p.lng - a.lng, b.lng - a.lng) + a.lat
  }

  /** The rise over `run` of a line that rises by `rise` over `d`. */
  function RiseAt(rise: real, run: real, d: real): real
    requires d != 0.0
  {
    rise * run / d
  }

  /** A yes-or-no question about an edge. */
  type EdgeTest = (Point, Point) -> bool

  function CrossingCount(x: EdgeTest, path: seq<Point>): nat {
    if |path| < 2 then 0
    else
      CrossingCount(x, path[..|path| - 1]) + if x(path[|path| - 1], path[|path| - 2]) then 1 else 0
  }

  predicate OddCrossings(x: EdgeTest, path: seq<Point>) {
    CrossingCount(x, path) % 2 == 1
  }

  lemma CrossingStep(x: EdgeTest, path: seq<Point>, i: nat)
    requires i + 1 < |path|
    ensures OddCrossings(x, path[..i + 2]) == (OddCrossings(x, path[..i + 1]) != x(path[i + 1], path[i]))
  {
    assert path[..i + 2][..i + 1] == path[..i + 1];
  }

  /** How many edges of `ring` answer yes. */
  function RingCrossings(x: EdgeTest, ring: Ring): nat {
    if ring == [] then 0 else CrossingCount(x, [ring[|ring| - 1]] + ring)
  }

  function RayFrom(p: Point): EdgeTest {
    (a: Point, b: Point) => Crosses(p, a, b)
  }

  /** Even-odd rule: inside means an odd number of crossings of the ray. */
  predicate Inside(p: Point, ring: Ring) {
    RingCrossings(RayFrom(p), ring) % 2 == 1
  }

  /** `point_in_polygon_f64`: toggles a flag at every crossing edge. */
  method PointInPolygon(p: Point, vertices: Ring) returns (inside: bool)
    ensures inside == Inside(p, vertices)
  {
    inside := false;
    var n := |vertices|;
    if n == 0 {
      return false;
    }
    ghost var walk := [vertices[n - 1]] + vertices;
    var j := n - 1;
    for i := 0 to n
      invariant 0 <= j < n && vertices[j] == walk[i]
      invariant inside == OddCrossings(RayFrom(p), walk[..i + 1])
    {
      CrossingStep(RayFrom(p), walk, i);
      assert walk[i + 1] == vertices[i];
      if Crosses(p, vertices[i], vertices[j]) {
        inside := !inside;
      }
      j := i;
    }
    assert walk[..n + 1] == walk;
  }

  lemma QuotientUnique(x: real, y: real, q: real)
    requires y != 0.0 && q * y == x
    ensures x / y == q
  {
    assert (x / y) * y == x;
    assert (x / y - q) * y == 0.0;
  }

  lemma RiseShifts(rise: real, run: real, d: real)
    requires d != 0.0
    ensures RiseAt(-rise, run - d, -d) == RiseAt(rise, run, d) - rise
  {
    var q := RiseAt(rise, run, d);
    assert q * d == rise * run;
    assert (q - rise) * -d == (-rise) * (run - d);
    QuotientUnique((-rise) * (run - d), -d, q - rise);
  }

  /** The interpolated latitude does not depend on which end the edge is read from. */
  lemma CrossesSymmetric(p: Point, a: Point, b: Point)
    ensures Crosses(p, a, b) == Crosses(p, b, a)
  {
    if a.lng != b.lng {
      var rise, run, d := b.lat - a.lat, p.lng - a.lng, b.lng - a.lng;
      RiseShifts(rise, run, d);
      assert a.lat - b.lat == -rise && p.lng - b.lng == run - d && a.lng - b.lng == -d;
    }
  }

  ghost predicate EvenTest(x: EdgeTest) {
    && (forall a: Point, b: Point :: x(b, a) == x(a, b))
    && (forall a: Point :: !x(a, a))
  }

  lemma RayIsEven(p: Point)
    ensures EvenTest(RayFrom(p))
  {
    forall a: Point, b: Point
      ensures RayFrom(p)(b, a) == RayFrom(p)(a, b)
    {
      CrossesSymmetric(p, a, b);
    }
  }

  /** Crossings as an edge weight. */
  function CrossWeight(x: EdgeTest): EdgeWeight {
    (a: Point, b: Point) => if x(b, a) then 1.0 else 0.0
  }

  lemma {:induction false} PathCrossings(x: EdgeTest, path: seq<Point>)
    ensures PathSum(CrossWeight(x), path) == CrossingCount(x, path) as real
  {
    if |path| >= 2 {
      PathCrossings(x, path[..|path| - 1]);
    }
  }

  lemma CycleCrossings(x: EdgeTest, ring: Ring)
    ensures CycleSum(CrossWeight(x), ring) == RingCrossings(x, ring) as real
  {
    if ring != [] {
      PathCrossings(x, [ring[|ring| - 1]] + ring);
    }
  }

  /** How many of the rings are crossed an odd number of times. */
  function OddRings(x: EdgeTest, rings: seq<SolidRing>): nat {
    if rings == [] then 0
    else OddRings(x, rings[..|rings| - 1]) + RingCrossings(x, rings[|rings| - 1]) % 2
  }

  /** How many of the holes contain `p`. */
  function HolesContaining(p: Point, holes: seq<SolidRing>): nat {
    OddRings(RayFrom(p), holes)
  }

  // --- A symmetric weight over the detours ---

  function BridgesSum(w: EdgeWeight, outer: SolidRing, holes: seq<SolidRing>, outerCcw: bool): real {
    if holes == [] then 0.0
    else
      var hole := OrientHole(holes[|holes| - 1], outerCcw);
      BridgesSum(w, outer, holes[..|holes| - 1], outerCcw)
      + w(outer[FirstNearest(outer, hole[0], |outer|)], hole[0])
  }

  lemma OrientedHoleSum(w: EdgeWeight, hole: SolidRing, outerCcw: bool)
    requires Symmetric(w) && FlatOnLoops(w)
    ensures CycleSum(w, OrientHole(hole, outerCcw)) == CycleSum(w, hole)
  {
    CycleSumOpenRing(w, hole);
    CycleSumReverseSymmetric(w, OpenRing(hole));
  }

  /** Every bridge is walked once in each direction. */
  lemma {:induction false} SymmetricDetours(
    w: EdgeWeight, outer: SolidRing, holes: seq<SolidRing>, outerCcw: bool)
    requires Symmetric(w) && FlatOnLoops(w)
    ensures AllDetoursSum(w, outer, holes, outerCcw)
            == RingSum((h: Ring) => CycleSum(w, h), holes) + 2.0 * BridgesSum(w, outer, holes, outerCcw)
  {
    if holes != [] {
      var last := holes[|holes| - 1];
      var hole := OrientHole(last, outerCcw);
      var at := outer[FirstNearest(outer, hole[0], |outer|)];
      SymmetricDetours(w, outer, holes[..|holes| - 1], outerCcw);
      OrientedHoleSum(w, last, outerCcw);
      assert w(hole[0], at) == w(at, hole[0]);
    }
  }

  // --- Parity ---

  lemma {:induction false} HolesCrossings(x: EdgeTest, holes: seq<SolidRing>) returns (total: nat)
    ensures RingSum((h: Ring) => CycleSum(CrossWeight(x), h), holes) == total as real
    ensures total % 2 == OddRings(x, holes) % 2
  {
    total := 0;
    if holes != [] {
      var before := HolesCrossings(x, holes[..|holes| - 1]);
      CycleCrossings(x, holes[|holes| - 1]);
      total := before + RingCrossings(x, holes[|holes| - 1]);
    }
  }

  lemma {:induction false} BridgeCrossings(x: EdgeTest, outer: SolidRing, holes: seq<SolidRing>, outerCcw: bool)
    returns (count: nat)
    ensures BridgesSum(CrossWeight(x), outer, holes, outerCcw) == count as real
  {
    count := 0;
    if holes != [] {
      var hole := OrientHole(holes[|holes| - 1], outerCcw);
      var at := outer[FirstNearest(outer, hole[0], |outer|)];
      var before := BridgeCrossings(x, outer, holes[..|holes| - 1], outerCcw);
      count := before + if x(hole[0], at) then 1 else 0;
    }
  }

  lemma EvenDifference(ring: nat, outer: nat, total: nat, bridges: nat, odd: nat)
    requires ring == outer + total + 2 * bridges
    requires total % 2 == odd % 2
    ensures (ring % 2 == 1) <==> ((outer % 2 == 1) != (odd % 2 == 1))
  {
    assert ring % 2 == (outer + total) % 2;
  }

  lemma BridgedParity(x: EdgeTest, outer: SolidRing, holes: seq<SolidRing>)
    requires EvenTest(x)
    ensures RingCrossings(x, Bridged(outer, holes)) % 2 == 1
            <==> ((RingCrossings(x, outer) % 2 == 1) != (OddRings(x, holes) % 2 == 1))
  {
    var w, ring := CrossWeight(x), Bridged(outer, holes);
    var open := OpenRing(outer);
    var ccw := SignedArea(open) > 0.0;
    BridgedSum(w, outer, holes);
    SymmetricDetours(w, open, holes, ccw);
    var total := HolesCrossings(x, holes);
    var bridges := BridgeCrossings(x, open, holes, ccw);
    CycleCrossings(x, ring);
    CycleCrossings(x, outer);
    EvenDifference(RingCrossings(x, ring), RingCrossings(x, outer), total, bridges, OddRings(x, holes));
  }

  /** Cutting holes in by bridges makes the even-odd test the exclusive or over all rings. */
  lemma BridgedEvenOdd(p: Point, outer: SolidRing, holes: seq<SolidRing>)
    ensures Inside(p, Bridged(outer, holes))
            <==> (Inside(p, outer) != (HolesContaining(p, holes) % 2 == 1))
  {
    RayIsEven(p);
    BridgedParity(RayFrom(p), outer, holes);
  }

  lemma {:induction false} CountOddRings(x: EdgeTest, rings: seq<SolidRing>)
    ensures OddRings(x, rings) == 0
            <==> forall h :: 0 <= h < |rings| ==> RingCrossings(x, rings[h]) % 2 == 0
    ensures (forall h, k :: 0 <= h < k < |rings| ==>
               RingCrossings(x, rings[h]) % 2 == 0 || RingCrossings(x, rings[k]) % 2 == 0)
            ==> OddRings(x, rings) <= 1
  {
    if rings != [] {
      var front := rings[..|rings| - 1];
      CountOddRings(x, front);
      assert forall h :: 0 <= h < |front| ==> front[h] == rings[h];
    }
  }

  /** No two holes overlap at `p`, and no hole reaches outside the outer ring there. */
  ghost predicate NestedAt(p: Point, outer: Ring, holes: seq<SolidRing>) {
    && (forall h, k :: 0 <= h < k < |holes| ==> !(Inside(p, holes[h]) && Inside(p, holes[k])))
    && (forall h :: 0 <= h < |holes| && Inside(p, holes[h]) ==> Inside(p, outer))
  }

  ghost predicate InNone(p: Point, holes: seq<SolidRing>) {
    forall h :: 0 <= h < |holes| ==> !Inside(p, holes[h])
  }

  lemma NestedHolesCount(p: Point, outer: Ring, holes: seq<SolidRing>)
    requires NestedAt(p, outer, holes)
    ensures HolesContaining(p, holes) % 2 == 1 <==> !InNone(p, holes)
    ensures HolesContaining(p, holes) % 2 == 1 ==> Inside(p, outer)
  {
    var x := RayFrom(p);
    forall h, k | 0 <= h < k < |holes|
      ensures RingCrossings(x, holes[h]) % 2 == 0 || RingCrossings(x, holes[k]) % 2 == 0
    {
      assert !(Inside(p, holes[h]) && Inside(p, holes[k]));
    }
    CountOddRings(x, holes);
  }

  /** With nested disjoint holes the unchanged test means "in the outer ring and in no hole". */
  lemma BridgedMeansOuterMinusHoles(p: Point, outer: SolidRing, holes: seq<SolidRing>)
    requires NestedAt(p, outer, holes)
    ensures Inside(p, Bridged(outer, holes))
            <==> Inside(p, outer) && InNone(p, holes)
  {
    BridgedEvenOdd(p, outer, holes);
    NestedHolesCount(p, outer, holes);
  }
}
