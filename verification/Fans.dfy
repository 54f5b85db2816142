/**
 A ring as a fan of triangles from its first vertex.  Sums over edges split along the fan, because
 every diagonal is walked once in each direction; what a sum means for triangles it then means for
 every ring.
 */
module Fans {
  import opened EvenOdd
  import opened Rings

  /** The triangle of the first vertex and the edge from vertex `i` to the next. */
  function Triangle(ring: Ring, i: nat): Ring
    requires i + 1 < |ring|
  {
    [ring[0], ring[i], ring[i + 1]]
  }

  function TriangleSum(w: EdgeWeight, ring: Ring, n: nat): real
    requires n < |ring|
  {
    if n == 0 then 0.0 else TriangleSum(w, ring, n - 1) + CycleSum(w, Triangle(ring, n - 1))
  }

  lemma ThreeEdges(w: EdgeWeight, a: Point, b: Point, c: Point)
    ensures CycleSum(w, [a, b, c]) == w(c, a) + w(a, b) + w(b, c)
  {
    var walk := [c, a, b, c];
    assert [c] + [a, b, c] == walk;
    assert walk[..3] == [c, a, b] && walk[..3][..2] == [c, a] && walk[..3][..2][..1] == [c];
    assert PathSum(w, [c, a]) == w(c, a) && PathSum(w, [c, a, b]) == w(c, a) + w(a, b);
  }

  /** The fan over the first `n` edges is the way there and straight back. */
  lemma {:induction false} FanOfPath(w: EdgeWeight, ring: Ring, n: nat)
    requires Antisymmetric(w) && n < |ring|
    ensures TriangleSum(w, ring, n) == PathSum(w, ring[..n + 1]) + w(ring[n], ring[0])
    decreases n
  {
    if n == 0 {
      assert w(ring[0], ring[0]) == -w(ring[0], ring[0]);
    } else {
      FanOfPath(w, ring, n - 1);
      ThreeEdges(w, ring[0], ring[n - 1], ring[n]);
      PathSumStep(w, ring, n - 1);
      assert w(ring[0], ring[n - 1]) == -w(ring[n - 1], ring[0]);
    }
  }

  /** An antisymmetric sum over a ring is the sum over its fan. */
  lemma FanOfRing(w: EdgeWeight, ring: Ring)
    requires Antisymmetric(w) && ring != []
    ensures CycleSum(w, ring) == TriangleSum(w, ring, |ring| - 1)
  {
    FanOfPath(w, ring, |ring| - 1);
    CycleSumWrapLast(w, ring);
    assert ring[..|ring|] == ring;
  }

  // --- Crossings ---

  function Flag(b: bool): nat {
    if b then 1 else 0
  }

  lemma ThreeCrossings(x: EdgeTest, a: Point, b: Point, c: Point)
    ensures RingCrossings(x, [a, b, c]) == Flag(x(a, c)) + Flag(x(b, a)) + Flag(x(c, b))
  {
    var walk := [c, a, b, c];
    assert [c] + [a, b, c] == walk;
    assert walk[..3] == [c, a, b] && walk[..3][..2] == [c, a] && walk[..3][..2][..1] == [c];
    assert CrossingCount(x, [c, a]) == Flag(x(a, c)) && CrossingCount(x, [c, a, b]) == Flag(x(a, c)) + Flag(x(b, a));
  }

  function TriangleCrossings(x: EdgeTest, ring: Ring, n: nat): nat
    requires n < |ring|
  {
    if n == 0 then 0 else TriangleCrossings(x, ring, n - 1) + RingCrossings(x, Triangle(ring, n - 1))
  }

  lemma {:induction false} CrossingsOfPath(x: EdgeTest, ring: Ring, n: nat)
    requires EvenTest(x) && n < |ring|
    ensures TriangleCrossings(x, ring, n) % 2 == (CrossingCount(x, ring[..n + 1]) + Flag(x(ring[n], ring[0]))) % 2
    decreases n
  {
    if n > 0 {
      CrossingsOfPath(x, ring, n - 1);
      ThreeCrossings(x, ring[0], ring[n - 1], ring[n]);
      assert ring[..n + 1][..n] == ring[..n];
      assert x(ring[n - 1], ring[0]) == x(ring[0], ring[n - 1]) && x(ring[0], ring[n]) == x(ring[n], ring[0]);
    }
  }

  lemma {:induction false} CrossingsAppended(x: EdgeTest, a: Point, path: seq<Point>)
    requires path != []
    ensures CrossingCount(x, [a] + path) == CrossingCount(x, path) + Flag(x(path[0], a))
  {
    if |path| > 1 {
      var front := path[..|path| - 1];
      CrossingsAppended(x, a, front);
      assert ([a] + path)[..|path|] == [a] + front;
    }
  }

  /** The parity of a ring is that of the crossings of all its triangles. */
  lemma CrossingsOfRing(x: EdgeTest, ring: Ring)
    requires EvenTest(x) && ring != []
    ensures RingCrossings(x, ring) % 2 == TriangleCrossings(x, ring, |ring| - 1) % 2
  {
    var n := |ring| - 1;
    CrossingsOfPath(x, ring, n);
    LastEdge(x, ring, n);
  }

  lemma LastEdge(x: EdgeTest, ring: Ring, n: nat)
    requires EvenTest(x) && ring != [] && n == |ring| - 1
    ensures ring[..n + 1] == ring
    ensures RingCrossings(x, ring) == CrossingCount(x, ring) + Flag(x(ring[n], ring[0]))
  {
    CrossingsAppended(x, ring[n], ring);
    assert x(ring[0], ring[n]) == x(ring[n], ring[0]);
  }
}
