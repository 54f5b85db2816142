/** The builder's shoelace area with its antimeridian unwrapping. */
module SignedAreas {
  import opened Rings

  /** An edge whose longitudes differ by more than half a turn marks an antimeridian crossing. */
  predicate LongEdge(a: Point, b: Point) {
    a.lng - b.lng > 180.0 || b.lng - a.lng > 180.0
  }

  /** The vertex after vertex `i`, going around. */
  function Next(ring: Ring, i: nat): Point
    requires i < |ring|
  {
    if i + 1 == |ring| then ring[0] else ring[i + 1]
  }

  predicate CrossesAntimeridian(ring: Ring) {
    exists i :: 0 <= i < |ring| && LongEdge(ring[i], Next(ring, i))
  }

  /** A vertex as the area loop sees it: in a crossing ring the west is moved a full turn east. */
  function LngAt(p: Point, crosses: bool): Point {
    if crosses && p.lng < 0.0 then Point(p.lat, p.lng + 360.0) else p
  }

  function Unwrap(ring: Ring): (r: Ring)
    ensures |r| == |ring|
    ensures forall i :: 0 <= i < |ring| ==> r[i] == LngAt(ring[i], CrossesAntimeridian(ring))
  {
    var crosses := CrossesAntimeridian(ring);
    seq(|ring|, i requires 0 <= i < |ring| => LngAt(ring[i], crosses))
  }

  function ShoelaceTerm(a: Point, b: Point): real {
    a.lat * b.lng - b.lat * a.lng
  }

  /** Half the shoelace sum; positive for one orientation and negative for the other. */
  function SignedArea(ring: Ring): real {
    if |ring| < 3 then 0.0
    else CycleSum(ShoelaceTerm, Unwrap(ring)) / 2.0
  }

  function AbsReal(x: real): real {
    if x < 0.0 then -x else x
  }

  function Area(ring: Ring): real {
    AbsReal(SignedArea(ring))
  }

  function CloseUp(ring: Ring): (r: Ring)
    requires ring != []
    ensures |r| == |ring| + 1
    ensures forall i :: 0 <= i < |ring| ==> r[i] == ring[i] && r[i + 1] == Next(ring, i)
  {
    ring + [ring[0]]
  }

  lemma ShoelaceCloseUp(ring: Ring)
    requires |ring| >= 3
    ensures SignedArea(ring) == PathSum(ShoelaceTerm, CloseUp(Unwrap(ring))[..|ring| + 1]) / 2.0
  {
    CycleSumWrapLast(ShoelaceTerm, Unwrap(ring));
    assert CloseUp(Unwrap(ring))[..|ring| + 1] == CloseUp(Unwrap(ring));
  }

  /** The scan of `polygon_signed_area` for a crossing edge. */
  method DetectCrossing(vertices: Ring) returns (crosses: bool)
    ensures crosses == CrossesAntimeridian(vertices)
  {
    for i := 0 to |vertices|
      invariant forall k :: 0 <= k < i ==> !LongEdge(vertices[k], Next(vertices, k))
    {
      if LongEdge(vertices[i], Next(vertices, i)) {
        return true;
      }
    }
    return false;
  }

  /** `polygon_signed_area`: unwraps while it adds up the shoelace terms. */
  method PolygonSignedArea(vertices: Ring) returns (area: real)
    ensures area == SignedArea(vertices)
  {
    var n := |vertices|;
    if n < 3 {
      return 0.0;
    }
    var crosses := DetectCrossing(vertices);
    area := 0.0;
    for i := 0 to n
      invariant area == PathSum(ShoelaceTerm, CloseUp(Unwrap(vertices))[..i + 1])
    {
      var a, b := LngAt(vertices[i], crosses), LngAt(Next(vertices, i), crosses);
      PathSumStep(ShoelaceTerm, CloseUp(Unwrap(vertices)), i);
      area := area + ShoelaceTerm(a, b);
    }
    area := area / 2.0;
    ShoelaceCloseUp(vertices);
  }
}
