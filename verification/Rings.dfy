/**
 Points, rings and sums over the edges of a ring.  Everything the reader computes from a
 polygon (even-odd test, shoelace area, centroid moments) is a sum of one weight per edge,
 so the facts about how sums behave are proved here once.
 */
module Rings {

  /** A vertex in degrees.  Coordinates are exact reals. */
  datatype Point = Point(lat: real, lng: real)

  type Ring = seq<Point>

  /** A ring the builder may index at 0. */
  type SolidRing = ring: Ring | ring != [] witness [Point(0.0, 0.0)]

  /** The squared distance between two vertices, in degrees. */
  function DistSq(a: Point, b: Point): real {
    (a.lat - b.lat) * (a.lat - b.lat) + (a.lng - b.lng) * (a.lng - b.lng)
  }

  /** What one directed edge contributes to a sum. */
  type EdgeWeight = (Point, Point) -> real

  /** The sum of `w` over the consecutive pairs of `path`. */
  function PathSum(w: EdgeWeight, path: seq<Point>): real {
    if |path| < 2 then 0.0
    else PathSum(w, path[..|path| - 1]) + w(path[|path| - 2], path[|path| - 1])
  }

  /** The sum of `w` over a ring, the edge from the last vertex to the first included. */
  function CycleSum(w: EdgeWeight, ring: Ring): real {
    if ring == [] then 0.0 else PathSum(w, [ring[|ring| - 1]] + ring)
  }

  ghost predicate Symmetric(w: EdgeWeight) {
    forall a: Point, b: Point :: w(b, a) == w(a, b)
  }

  ghost predicate Antisymmetric(w: EdgeWeight) {
    forall a: Point, b: Point :: w(b, a) == -w(a, b)
  }

  /** A one-vertex edge contributes nothing. */
  ghost predicate FlatOnLoops(w: EdgeWeight) {
    forall a: Point :: w(a, a) == 0.0
  }

  /** Drops the closing vertex of a closed ring. */
  function OpenRing(ring: Ring): (r: Ring)
    ensures ring != [] ==> r != [] && r[0] == ring[0]
  {
    if |ring| > 1 && ring[0] == ring[|ring| - 1] then ring[..|ring| - 1] else ring
  }

  predicate IsClosed(ring: Ring) {
    |ring| > 1 && ring[0] == ring[|ring| - 1]
  }

  function Reverse(s: Ring): (r: Ring)
    ensures |r| == |s|
    ensures forall i :: 0 <= i < |s| ==> r[i] == s[|s| - 1 - i]
  {
    seq(|s|, i requires 0 <= i < |s| => s[|s| - 1 - i])
  }

  lemma {:induction false} PathSumConcat(w: EdgeWeight, a: seq<Point>, b: seq<Point>)
    requires a != [] && b != []
    ensures PathSum(w, a + b) == PathSum(w, a) + w(a[|a| - 1], b[0]) + PathSum(w, b)
  {
    var n := |b|;
    assert (a + b)[..|a| + n - 1] == a + b[..n - 1];
    if n == 1 {
      assert a + b[..0] == a;
    } else {
      PathSumConcat(w, a, b[..n - 1]);
    }
  }

  lemma PathSumAppend(w: EdgeWeight, path: seq<Point>, p: Point)
    requires path != []
    ensures PathSum(w, path + [p]) == PathSum(w, path) + w(path[|path| - 1], p)
  {
    assert (path + [p])[..|path|] == path;
  }

  /** One more vertex adds one more edge. */
  lemma PathSumStep(w: EdgeWeight, path: seq<Point>, i: nat)
    requires i + 1 < |path|
    ensures PathSum(w, path[..i + 2]) == PathSum(w, path[..i + 1]) + w(path[i], path[i + 1])
  {
    assert path[..i + 2][..i + 1] == path[..i + 1];
  }

  /** The wrap-around edge may be walked last instead of first. */
  lemma CycleSumWrapLast(w: EdgeWeight, ring: Ring)
    requires ring != []
    ensures CycleSum(w, ring) == PathSum(w, ring + [ring[0]])
    ensures CycleSum(w, ring) == PathSum(w, ring) + w(ring[|ring| - 1], ring[0])
  {
    PathSumConcat(w, [ring[|ring| - 1]], ring);
    PathSumConcat(w, ring, [ring[0]]);
  }

  /** Walking a path backwards keeps the sum of a symmetric weight. */
  lemma {:induction false} PathSumReverseSymmetric(w: EdgeWeight, path: seq<Point>)
    requires Symmetric(w)
    ensures PathSum(w, Reverse(path)) == PathSum(w, path)
  {
    var n := |path|;
    if n >= 2 {
      var front, last := path[..n - 1], path[n - 1];
      assert Reverse(path) == [last] + Reverse(front);
      PathSumConcat(w, [last], Reverse(front));
      PathSumReverseSymmetric(w, front);
    }
  }

  /** Walking a path backwards negates the sum of an antisymmetric weight. */
  lemma {:induction false} PathSumReverseAntisymmetric(w: EdgeWeight, path: seq<Point>)
    requires Antisymmetric(w)
    ensures PathSum(w, Reverse(path)) == -PathSum(w, path)
  {
    var n := |path|;
    if n >= 2 {
      var front, last := path[..n - 1], path[n - 1];
      assert Reverse(path) == [last] + Reverse(front);
      PathSumConcat(w, [last], Reverse(front));
      PathSumReverseAntisymmetric(w, front);
    }
  }

  lemma CycleSumReverseSymmetric(w: EdgeWeight, ring: Ring)
    requires Symmetric(w)
    ensures CycleSum(w, Reverse(ring)) == CycleSum(w, ring)
  {
    if ring != [] {
      var back := Reverse(ring);
      CycleSumWrapLast(w, ring);
      assert [back[|back| - 1]] + back == Reverse(ring + [ring[0]]);
      PathSumReverseSymmetric(w, ring + [ring[0]]);
    }
  }

  lemma CycleSumReverseAntisymmetric(w: EdgeWeight, ring: Ring)
    requires Antisymmetric(w)
    ensures CycleSum(w, Reverse(ring)) == -CycleSum(w, ring)
  {
    if ring != [] {
      var back := Reverse(ring);
      CycleSumWrapLast(w, ring);
      assert [back[|back| - 1]] + back == Reverse(ring + [ring[0]]);
      PathSumReverseAntisymmetric(w, ring + [ring[0]]);
    }
  }

  /** Opening a closed ring changes no sum whose weight vanishes on a one-vertex edge. */
  lemma CycleSumOpenRing(w: EdgeWeight, ring: Ring)
    requires FlatOnLoops(w)
    ensures CycleSum(w, OpenRing(ring)) == CycleSum(w, ring)
  {
    if IsClosed(ring) {
      var open := ring[..|ring| - 1];
      CycleSumWrapLast(w, open);
      CycleSumWrapLast(w, ring);
      assert ring == open + [open[0]];
      assert w(ring[0], ring[0]) == 0.0;
    }
  }

  /** The sum of `f` over several rings. */
  function RingSum(f: Ring -> real, rings: seq<SolidRing>): real {
    if rings == [] then 0.0 else RingSum(f, rings[..|rings| - 1]) + f(rings[|rings| - 1])
  }
}
