/** Area and centroid of a ring with holes cut in, as the reader computes them. */
module Centroids {
  import opened Rings
  import opened SignedAreas
  import opened BridgeHoles

  // --- polygon_centroid ---

  /** The reader's cross product of an edge; the builder's shoelace term with the other sign. */
  function CrossTerm(a: Point, b: Point): real {
    a.lng * b.lat - b.lng * a.lat
  }

  function LngMoment(a: Point, b: Point): real {
    (a.lng + b.lng) * CrossTerm(a, b)
  }

  function LatMoment(a: Point, b: Point): real {
    (a.lat + b.lat) * CrossTerm(a, b)
  }

  function LatSum(ring: Ring): real {
    if ring == [] then 0.0 else LatSum(ring[..|ring| - 1]) + ring[|ring| - 1].lat
  }

  function LngSum(ring: Ring): real {
    if ring == [] then 0.0 else LngSum(ring[..|ring| - 1]) + ring[|ring| - 1].lng
  }

  function Mean(ring: Ring): Point
    requires ring != []
  {
    Point(LatSum(ring) / |ring| as real, LngSum(ring) / |ring| as real)
  }

  /** Below this doubled area the reader falls back to the mean of the vertices. */
  const DEGENERATE := 0.000000000001

  function TwiceArea(ring: Ring): real {
    CycleSum(CrossTerm, ring)
  }

  function Centroid(ring: Ring): Point {
    if ring == [] then Point(0.0, 0.0)
    else if |ring| < 3 || AbsReal(TwiceArea(ring)) < DEGENERATE then Mean(ring)
    else FromMoments(TwiceArea(ring), CycleSum(LatMoment, ring), CycleSum(LngMoment, ring))
  }

  function FromMoments(a2: real, latMoment: real, lngMoment: real): Point
    requires a2 != 0.0
  {
    var factor := 1.0 / (3.0 * a2);
    Point(latMoment * factor, lngMoment * factor)
  }

  method MeanVertex(verts: Ring) returns (mean: Point)
    requires verts != []
    ensures mean == Mean(verts)
  {
    var lat, lng := 0.0, 0.0;
    for i := 0 to |verts|
      invariant lat == LatSum(verts[..i]) && lng == LngSum(verts[..i])
    {
      assert verts[..i + 1][..i] == verts[..i];
      lat, lng := lat + verts[i].lat, lng + verts[i].lng;
    }
    assert verts[..|verts|] == verts;
    mean := Point(lat / |verts| as real, lng / |verts| as real);
  }

  lemma CloseUpSum(w: EdgeWeight, ring: Ring)
    requires ring != []
    ensures CycleSum(w, ring) == PathSum(w, CloseUp(ring)[..|ring| + 1])
  {
    CycleSumWrapLast(w, ring);
    assert CloseUp(ring)[..|ring| + 1] == ring + [ring[0]];
  }

  /** `polygon_centroid`: accumulates the doubled area and both moments in one pass. */
  method PolygonCentroid(verts: Ring) returns (c: Point)
    ensures c == Centroid(verts)
  {
    var n := |verts|;
    if n == 0 {
      return Point(0.0, 0.0);
    }
    if n < 3 {
      c := MeanVertex(verts);
      return;
    }
    var a2, cx, cy := 0.0, 0.0, 0.0;
    for i := 0 to n
      invariant a2 == PathSum(CrossTerm, CloseUp(verts)[..i + 1])
      invariant cx == PathSum(LngMoment, CloseUp(verts)[..i + 1])
      invariant cy == PathSum(LatMoment, CloseUp(verts)[..i + 1])
    {
      var a, b := verts[i], Next(verts, i);
      PathSumStep(CrossTerm, CloseUp(verts), i);
      PathSumStep(LngMoment, CloseUp(verts), i);
      PathSumStep(LatMoment, CloseUp(verts), i);
      a2 := a2 + CrossTerm(a, b);
      cx := cx + LngMoment(a, b);
      cy := cy + LatMoment(a, b);
    }
    CloseUpSum(CrossTerm, verts);
    CloseUpSum(LngMoment, verts);
    CloseUpSum(LatMoment, verts);
    if AbsReal(a2) < DEGENERATE {
      c := MeanVertex(verts);
      return;
    }
    c := FromMoments(a2, cy, cx);
  }

  // --- Sums over the bridged ring, with the orientation divided out ---

  /** Is the ring counter-clockwise, as the builder decides it? */
  predicate Ccw(ring: Ring) {
    SignedArea(OpenRing(ring)) > 0.0
  }

  /** An edge sum made independent of the direction in which the ring is stored. */
  function OrientedSum(w: EdgeWeight, ring: Ring): real {
    if Ccw(ring) then CycleSum(w, ring) else -CycleSum(w, ring)
  }

  function Oriented(w: EdgeWeight): Ring -> real {
    (ring: Ring) => OrientedSum(w, ring)
  }

  function HolesOrientedSum(w: EdgeWeight, holes: seq<SolidRing>): real {
    RingSum(Oriented(w), holes)
  }

  lemma AntisymmetricIsFlat(w: EdgeWeight)
    requires Antisymmetric(w)
    ensures FlatOnLoops(w)
  {
    forall a: Point ensures w(a, a) == 0.0 {
      assert w(a, a) == -w(a, a);
    }
  }

  lemma OrientedHoleSum(w: EdgeWeight, hole: SolidRing, outerCcw: bool)
    requires Antisymmetric(w)
    ensures CycleSum(w, OrientHole(hole, outerCcw))
            == if outerCcw then -OrientedSum(w, hole) else OrientedSum(w, hole)
  {
    AntisymmetricIsFlat(w);
    CycleSumOpenRing(w, hole);
    CycleSumReverseAntisymmetric(w, OpenRing(hole));
  }

  lemma {:induction false} DetoursOrientedSum(
    w: EdgeWeight, outer: SolidRing, holes: seq<SolidRing>, outerCcw: bool)
    requires Antisymmetric(w)
    ensures AllDetoursSum(w, outer, holes, outerCcw)
            == if outerCcw then -HolesOrientedSum(w, holes) else HolesOrientedSum(w, holes)
  {
    if holes != [] {
      var last := holes[|holes| - 1];
      var hole := OrientHole(last, outerCcw);
      DetoursOrientedSum(w, outer, holes[..|holes| - 1], outerCcw);
      OrientedHoleSum(w, last, outerCcw);
      ThereAndBack(w, outer[FirstNearest(outer, hole[0], |outer|)], hole[0]);
    }
  }

  lemma ThereAndBack(w: EdgeWeight, a: Point, b: Point)
    requires Antisymmetric(w)
    ensures w(a, b) + w(b, a) == 0.0
  {
    assert w(b, a) == -w(a, b);
  }

  /** Bridges cancel and holes count against the outer ring. */
  ghost predicate Splits(w: EdgeWeight, outer: SolidRing, holes: seq<SolidRing>) {
    var sum := CycleSum(w, Bridged(outer, holes));
    (if Ccw(outer) then sum else -sum) == OrientedSum(w, outer) - HolesOrientedSum(w, holes)
  }

  /** Every antisymmetric sum splits so: the area and both moments do. */
  lemma BridgedOrientedSum(w: EdgeWeight, outer: SolidRing, holes: seq<SolidRing>)
    requires Antisymmetric(w)
    ensures Splits(w, outer, holes)
  {
    AntisymmetricIsFlat(w);
    BridgedSum(w, outer, holes);
    DetoursOrientedSum(w, OpenRing(outer), holes, Ccw(outer));
  }

  lemma MulNegates(x: real, y: real)
    ensures x * -y == -(x * y)
  {}

  lemma TermsAntisymmetric()
    ensures Antisymmetric(CrossTerm) && Antisymmetric(LngMoment) && Antisymmetric(LatMoment)
    ensures Antisymmetric(ShoelaceTerm)
  {
    forall a: Point, b: Point
      ensures CrossTerm(b, a) == -CrossTerm(a, b) && ShoelaceTerm(b, a) == -ShoelaceTerm(a, b)
      ensures LngMoment(b, a) == -LngMoment(a, b) && LatMoment(b, a) == -LatMoment(a, b)
    {
      MulNegates(a.lng + b.lng, CrossTerm(a, b));
      MulNegates(a.lat + b.lat, CrossTerm(a, b));
    }
  }

  lemma MomentsSplit(outer: SolidRing, holes: seq<SolidRing>)
    ensures Splits(CrossTerm, outer, holes)
    ensures Splits(LatMoment, outer, holes)
    ensures Splits(LngMoment, outer, holes)
  {
    TermsAntisymmetric();
    BridgedOrientedSum(CrossTerm, outer, holes);
    BridgedOrientedSum(LatMoment, outer, holes);
    BridgedOrientedSum(LngMoment, outer, holes);
  }

  // --- Areas ---

  lemma {:induction false} TwiceAreaNegatesShoelace(path: seq<Point>)
    ensures PathSum(CrossTerm, path) == -PathSum(ShoelaceTerm, path)
  {
    if |path| >= 2 {
      TwiceAreaNegatesShoelace(path[..|path| - 1]);
      var a, b := path[|path| - 2], path[|path| - 1];
      assert CrossTerm(a, b) == -ShoelaceTerm(a, b);
    }
  }

  lemma ShortRingHasNoArea(ring: Ring)
    requires |ring| < 3
    ensures TwiceArea(ring) == 0.0
  {
    TermsAntisymmetric();
    AntisymmetricIsFlat(CrossTerm);
    if |ring| == 1 {
      assert [ring[0]] + ring == [ring[0]] + [ring[0]];
      PathSumAppend(CrossTerm, [ring[0]], ring[0]);
      assert CrossTerm(ring[0], ring[0]) == 0.0;
    } else if |ring| == 2 {
      var a, b := ring[0], ring[1];
      CycleSumWrapLast(CrossTerm, ring);
      assert ring == [a] + [b];
      PathSumAppend(CrossTerm, [a], b);
      assert CrossTerm(b, a) == -CrossTerm(a, b);
    }
  }

  lemma OpenRingCrossesLess(ring: Ring)
    ensures CrossesAntimeridian(OpenRing(ring)) ==> CrossesAntimeridian(ring)
  {
    var open := OpenRing(ring);
    if i: nat :| i < |open| && LongEdge(open[i], Next(open, i)) {
      if IsClosed(ring) {
        assert Next(ring, i) == Next(open, i);
      }
      assert LongEdge(ring[i], Next(ring, i));
    }
  }

  /** Away from the antimeridian the builder's and the reader's areas are one number. */
  lemma AreasAgree(ring: Ring)
    requires !CrossesAntimeridian(ring)
    ensures TwiceArea(ring) == -2.0 * SignedArea(OpenRing(ring))
    ensures SignedArea(OpenRing(ring)) == SignedArea(ring)
  {
    var open := OpenRing(ring);
    OpenRingCrossesLess(ring);
    assert Unwrap(open) == open && Unwrap(ring) == ring;
    TermsAntisymmetric();
    AntisymmetricIsFlat(CrossTerm);
    CycleSumOpenRing(CrossTerm, ring);
    if |ring| < 3 { ShortRingHasNoArea(ring); }
    if |open| < 3 { ShortRingHasNoArea(open); }
    if open != [] { TwiceAreaNegatesShoelace([open[|open| - 1]] + open); }
    if ring != [] { TwiceAreaNegatesShoelace([ring[|ring| - 1]] + ring); }
  }

  function HolesArea(holes: seq<SolidRing>): real {
    RingSum(Area, holes)
  }

  ghost predicate NoneCrosses(outer: Ring, holes: seq<SolidRing>) {
    !CrossesAntimeridian(outer) && forall h :: 0 <= h < |holes| ==> !CrossesAntimeridian(holes[h])
  }

  lemma {:induction false} HolesAreaIsOrientedSum(holes: seq<SolidRing>)
    requires forall h :: 0 <= h < |holes| ==> !CrossesAntimeridian(holes[h])
    ensures HolesOrientedSum(CrossTerm, holes) == -2.0 * HolesArea(holes)
  {
    if holes != [] {
      var last := holes[|holes| - 1];
      HolesAreaIsOrientedSum(holes[..|holes| - 1]);
      AreasAgree(last);
      assert Oriented(CrossTerm)(last) == -2.0 * Area(last);
    }
  }

  /**
   The area the reader sees in a bridged ring, with its sign, is the outer area less the
   areas of the holes.
   */
  lemma BridgedSignedArea(outer: SolidRing, holes: seq<SolidRing>)
    requires NoneCrosses(outer, holes)
    ensures var net := Area(outer) - HolesArea(holes);
            TwiceArea(Bridged(outer, holes)) == if Ccw(outer) then -2.0 * net else 2.0 * net
  {
    MomentsSplit(outer, holes);
    AreasAgree(outer);
    HolesAreaIsOrientedSum(holes);
  }

  /** The reader's area of a bridged ring. */
  lemma BridgedArea(outer: SolidRing, holes: seq<SolidRing>)
    requires NoneCrosses(outer, holes)
    ensures AbsReal(TwiceArea(Bridged(outer, holes))) / 2.0 == AbsReal(Area(outer) - HolesArea(holes))
    ensures Area(outer) >= HolesArea(holes) ==>
              AbsReal(TwiceArea(Bridged(outer, holes))) / 2.0 == Area(outer) - HolesArea(holes)
  {
    BridgedSignedArea(outer, holes);
  }

  // --- Centroids ---

  ghost predicate Solid(ring: Ring) {
    AbsReal(TwiceArea(ring)) >= DEGENERATE
  }

  /** Scaling back by the doubled area recovers the moment. */
  lemma MomentBack(moment: real, a2: real)
    requires a2 != 0.0
    ensures 3.0 * (moment * (1.0 / (3.0 * a2)) * a2) == moment
  {
    var factor := 1.0 / (3.0 * a2);
    assert factor * (3.0 * a2) == 1.0;
    assert 3.0 * (moment * factor * a2) == moment * (factor * (3.0 * a2));
  }

  /** What the reader's centroid means: scaled by the doubled area it is the first moment. */
  lemma CentroidTimesTwiceArea(ring: Ring, c: Point, a2: real)
    requires Solid(ring)
    requires c == Centroid(ring) && a2 == TwiceArea(ring)
    ensures 3.0 * (c.lat * a2) == CycleSum(LatMoment, ring)
    ensures 3.0 * (c.lng * a2) == CycleSum(LngMoment, ring)
  {
    if |ring| < 3 { ShortRingHasNoArea(ring); }
    MomentBack(CycleSum(LatMoment, ring), a2);
    MomentBack(CycleSum(LngMoment, ring), a2);
  }

  /**
   The reader's centroid of a bridged ring balances: scaled by the area, which is the outer
   area less the holes, it is the outer moment less the moments of the holes.  By
   `CentroidTimesTwiceArea` each of those moments is itself a centroid scaled by an area.
   */
  lemma BridgedCentroid(outer: SolidRing, holes: seq<SolidRing>, c: Point, a2: real)
    requires NoneCrosses(outer, holes) && Solid(Bridged(outer, holes))
    requires c == Centroid(Bridged(outer, holes)) && a2 == TwiceArea(Bridged(outer, holes))
    ensures var net := Area(outer) - HolesArea(holes);
            a2 == if Ccw(outer) then -2.0 * net else 2.0 * net
    ensures var lat := OrientedSum(LatMoment, outer) - HolesOrientedSum(LatMoment, holes);
            3.0 * (c.lat * a2) == if Ccw(outer) then lat else -lat
    ensures var lng := OrientedSum(LngMoment, outer) - HolesOrientedSum(LngMoment, holes);
            3.0 * (c.lng * a2) == if Ccw(outer) then lng else -lng
  {
    BridgedSignedArea(outer, holes);
    MomentsSplit(outer, holes);
    CentroidTimesTwiceArea(Bridged(outer, holes), c, a2);
  }
}
