/** What area and centroid mean: for triangles and rectangles, and from these for every ring. */
module Moments {
  import opened Centroids
  import opened Fans
  import opened Rings
  import opened SignedAreas

  // --- Triangles ---

  /** The doubled area of a triangle, from two of its sides. */
  function Turn(a: Point, b: Point, c: Point): real {
    (b.lng - a.lng) * (c.lat - a.lat) - (c.lng - a.lng) * (b.lat - a.lat)
  }

  lemma TriangleArea(a: Point, b: Point, c: Point)
    ensures TwiceArea([a, b, c]) == Turn(a, b, c)
  {
    ThreeEdges(CrossTerm, a, b, c);
  }

  lemma ThreeMoments(x: real, y: real, z: real, ab: real, bc: real, ca: real, xb: real)
    requires xb == x * bc + y * ca + z * ab
    requires xb == 0.0
    ensures (z + x) * ca + (x + y) * ab + (y + z) * bc == (x + y + z) * (ca + ab + bc)
  {}

  /** The first moments of a triangle are its doubled area times the sums of its corners. */
  lemma TriangleMoments(a: Point, b: Point, c: Point)
    ensures CycleSum(LatMoment, [a, b, c]) == (a.lat + b.lat + c.lat) * TwiceArea([a, b, c])
    ensures CycleSum(LngMoment, [a, b, c]) == (a.lng + b.lng + c.lng) * TwiceArea([a, b, c])
  {
    ThreeEdges(LatMoment, a, b, c);
    ThreeEdges(LngMoment, a, b, c);
    ThreeEdges(CrossTerm, a, b, c);
    var ab, bc, ca := CrossTerm(a, b), CrossTerm(b, c), CrossTerm(c, a);
    CornersCancel(a.lng, a.lat, b.lng, b.lat, c.lng, c.lat);
    ThreeMoments(a.lat, b.lat, c.lat, ab, bc, ca, a.lat * bc + b.lat * ca + c.lat * ab);
    ThreeMoments(a.lng, b.lng, c.lng, ab, bc, ca, a.lng * bc + b.lng * ca + c.lng * ab);
  }

  lemma CornersCancel(ax: real, ay: real, bx: real, by': real, cx: real, cy: real)
    ensures ay * (bx * cy - cx * by') + by' * (cx * ay - ax * cy) + cy * (ax * by' - bx * ay) == 0.0
    ensures ax * (bx * cy - cx * by') + bx * (cx * ay - ax * cy) + cx * (ax * by' - bx * ay) == 0.0
  {}

  lemma MeanOfThree(a: Point, b: Point, c: Point)
    ensures Mean([a, b, c]) == Point((a.lat + b.lat + c.lat) / 3.0, (a.lng + b.lng + c.lng) / 3.0)
  {
    var ring := [a, b, c];
    assert ring[..2] == [a, b] && ring[..2][..1] == [a] && ring[..2][..1][..0] == [];
    assert LatSum([a]) == a.lat && LngSum([a]) == a.lng;
    assert LatSum([a, b]) == a.lat + b.lat && LngSum([a, b]) == a.lng + b.lng;
  }

  lemma QuotientOfProduct(sum: real, area: real)
    requires area != 0.0
    ensures (sum * area) * (1.0 / (3.0 * area)) == sum / 3.0
  {
    var factor := 1.0 / (3.0 * area);
    assert factor * (3.0 * area) == 1.0;
    assert (sum * area) * factor * 3.0 == sum * (factor * (3.0 * area));
  }

  /** The centroid of a triangle that is not degenerate is the mean of its corners. */
  lemma TriangleCentroid(a: Point, b: Point, c: Point)
    requires Solid([a, b, c])
    ensures Centroid([a, b, c]) == Mean([a, b, c])
  {
    TriangleMoments(a, b, c);
    MeanOfThree(a, b, c);
    QuotientOfProduct(a.lat + b.lat + c.lat, TwiceArea([a, b, c]));
    QuotientOfProduct(a.lng + b.lng + c.lng, TwiceArea([a, b, c]));
  }

  // --- Every ring ---

  /** What a triangle adds to a sum. */
  type TriangleTerm = (Point, Point, Point) -> real

  /** The sum over the first `n` triangles of the fan. */
  function FanOf(g: TriangleTerm, ring: Ring, n: nat): real
    requires n < |ring|
  {
    if n == 0 then 0.0 else FanOf(g, ring, n - 1) + g(ring[0], ring[n - 1], ring[n])
  }

  /** The corners, weighted with the doubled area. */
  function LatWeight(a: Point, b: Point, c: Point): real {
    (a.lat + b.lat + c.lat) * Turn(a, b, c)
  }

  function LngWeight(a: Point, b: Point, c: Point): real {
    (a.lng + b.lng + c.lng) * Turn(a, b, c)
  }

  /** For triangles the sum of `w` is `g`. */
  ghost predicate MeansFor(w: EdgeWeight, g: TriangleTerm) {
    forall a: Point, b: Point, c: Point :: CycleSum(w, [a, b, c]) == g(a, b, c)
  }

  lemma {:induction false} FanSum(w: EdgeWeight, g: TriangleTerm, ring: Ring, n: nat)
    requires n < |ring| && MeansFor(w, g)
    ensures TriangleSum(w, ring, n) == FanOf(g, ring, n)
    decreases n
  {
    if n > 0 {
      FanSum(w, g, ring, n - 1);
    }
  }

  /** What an antisymmetric sum is for triangles it is for every ring, by its fan. */
  lemma RingSumIsFan(w: EdgeWeight, g: TriangleTerm, ring: Ring)
    requires Antisymmetric(w) && MeansFor(w, g) && ring != []
    ensures CycleSum(w, ring) == FanOf(g, ring, |ring| - 1)
  {
    var n := |ring| - 1;
    assert CycleSum(w, ring) == TriangleSum(w, ring, n) by {
      FanOfRing(w, ring);
    }
    assert TriangleSum(w, ring, n) == FanOf(g, ring, n) by {
      FanSum(w, g, ring, n);
    }
  }

  lemma TermsMean()
    ensures MeansFor(CrossTerm, Turn) && MeansFor(LatMoment, LatWeight) && MeansFor(LngMoment, LngWeight)
  {
    forall a: Point, b: Point, c: Point
      ensures CycleSum(CrossTerm, [a, b, c]) == Turn(a, b, c)
      ensures CycleSum(LatMoment, [a, b, c]) == LatWeight(a, b, c)
      ensures CycleSum(LngMoment, [a, b, c]) == LngWeight(a, b, c)
    {
      TriangleArea(a, b, c);
      TriangleMoments(a, b, c);
    }
  }

  /** The reader's doubled area is that of the fan, and its moments are those of the fan. */
  lemma SumsOfFan(ring: Ring)
    requires ring != []
    ensures TwiceArea(ring) == FanOf(Turn, ring, |ring| - 1)
    ensures CycleSum(LatMoment, ring) == FanOf(LatWeight, ring, |ring| - 1)
    ensures CycleSum(LngMoment, ring) == FanOf(LngWeight, ring, |ring| - 1)
  {
    TermsAntisymmetric();
    TermsMean();
    RingSumIsFan(CrossTerm, Turn, ring);
    RingSumIsFan(LatMoment, LatWeight, ring);
    RingSumIsFan(LngMoment, LngWeight, ring);
  }

  /**
   The centroid of every ring: the mean of its triangles' centres, weighted with their areas.  Three
   centres are the sum of the corners, so scaled by three doubled areas it is the weighted sum of them.
   */
  lemma CentroidOfFan(ring: Ring, c: Point, a2: real)
    requires Solid(ring) && ring != [] && c == Centroid(ring) && a2 == TwiceArea(ring)
    ensures a2 == FanOf(Turn, ring, |ring| - 1)
    ensures 3.0 * (c.lat * a2) == FanOf(LatWeight, ring, |ring| - 1)
    ensures 3.0 * (c.lng * a2) == FanOf(LngWeight, ring, |ring| - 1)
  {
    CentroidTimesTwiceArea(ring, c, a2);
    SumsOfFan(ring);
  }

  // --- Rings that are moved ---

  type Motion = Point -> Point

  function Moved(f: Motion, path: seq<Point>): (r: seq<Point>)
    ensures |r| == |path| && forall i :: 0 <= i < |path| ==> r[i] == f(path[i])
  {
    seq(|path|, i requires 0 <= i < |path| => f(path[i]))
  }

  /** On moved edges `w'` is `w` and `k` times `v`, but for a difference of `t` at the ends. */
  ghost predicate Follows(f: Motion, w': EdgeWeight, w: EdgeWeight, k: real, v: EdgeWeight, t: Point -> real) {
    forall a: Point, b: Point :: FollowsAt(f, w', w, k, v, t, a, b)
  }

  predicate FollowsAt(
    f: Motion, w': EdgeWeight, w: EdgeWeight, k: real, v: EdgeWeight, t: Point -> real, a: Point, b: Point)
  {
    w'(f(a), f(b)) == w(a, b) + k * v(a, b) + t(b) - t(a)
  }

  lemma {:induction false} MovedPath(
    f: Motion, w': EdgeWeight, w: EdgeWeight, k: real, v: EdgeWeight, t: Point -> real, path: seq<Point>)
    requires path != [] && Follows(f, w', w, k, v, t)
    ensures PathSum(w', Moved(f, path)) == PathSum(w, path) + k * PathSum(v, path) + t(path[|path| - 1]) - t(path[0])
  {
    if |path| > 1 {
      var n := |path| - 1;
      MovedPath(f, w', w, k, v, t, path[..n]);
      assert Moved(f, path)[..n] == Moved(f, path[..n]);
      assert FollowsAt(f, w', w, k, v, t, path[n - 1], path[n]);
      Distributed(k, PathSum(v, path[..n]), v(path[n - 1], path[n]));
    } else {
      assert k * 0.0 == 0.0;
    }
  }

  lemma Distributed(k: real, x: real, y: real)
    ensures k * (x + y) == k * x + k * y
  {}

  lemma MovedWalk(f: Motion, ring: Ring)
    requires ring != []
    ensures Moved(f, [ring[|ring| - 1]] + ring) == [Moved(f, ring)[|ring| - 1]] + Moved(f, ring)
  {}

  /** Around a ring the differences cancel. */
  lemma MovedRing(
    f: Motion, w': EdgeWeight, w: EdgeWeight, k: real, v: EdgeWeight, t: Point -> real, ring: Ring)
    requires ring != [] && Follows(f, w', w, k, v, t)
    ensures CycleSum(w', Moved(f, ring)) == CycleSum(w, ring) + k * CycleSum(v, ring)
  {
    var walk := [ring[|ring| - 1]] + ring;
    assert PathSum(w', Moved(f, walk)) == PathSum(w, walk) + k * PathSum(v, walk) by {
      MovedPath(f, w', w, k, v, t, walk);
      assert walk[|ring|] == walk[0];
    }
    assert CycleSum(w', Moved(f, ring)) == PathSum(w', Moved(f, walk)) by {
      MovedWalk(f, ring);
    }
  }

  function Shift(dlat: real, dlng: real): Motion {
    (p: Point) => Point(p.lat + dlat, p.lng + dlng)
  }

  /** What shifting adds to the edge terms at their ends. */
  function CrossGain(dlat: real, dlng: real, p: Point): real {
    dlng * p.lat - dlat * p.lng
  }

  function LatGain(dlat: real, dlng: real, p: Point): real {
    dlng * p.lat * p.lat - dlat * p.lat * p.lng + 2.0 * dlat * (dlng * p.lat - dlat * p.lng)
  }

  function LngGain(dlat: real, dlng: real, p: Point): real {
    dlng * p.lng * p.lat - dlat * p.lng * p.lng + 2.0 * dlng * (dlng * p.lat - dlat * p.lng)
  }

  lemma CrossShifts(ax: real, ay: real, bx: real, by': real, dx: real, dy: real)
    ensures (ax + dx) * (by' + dy) - (bx + dx) * (ay + dy)
            == (ax * by' - bx * ay) + (dx * by' - dy * bx) - (dx * ay - dy * ax)
  {}

  lemma LatShifts(ax: real, ay: real, bx: real, by': real, dx: real, dy: real, c: real, c': real)
    requires c == ax * by' - bx * ay && c' == (ax + dx) * (by' + dy) - (bx + dx) * (ay + dy)
    ensures ((ay + dy) + (by' + dy)) * c'
            == (ay + by') * c + 3.0 * dy * c
               + (dx * by' * by' - dy * by' * bx + 2.0 * dy * (dx * by' - dy * bx))
               - (dx * ay * ay - dy * ay * ax + 2.0 * dy * (dx * ay - dy * ax))
  {}

  lemma LngShifts(ax: real, ay: real, bx: real, by': real, dx: real, dy: real, c: real, c': real)
    requires c == ax * by' - bx * ay && c' == (ax + dx) * (by' + dy) - (bx + dx) * (ay + dy)
    ensures ((ax + dx) + (bx + dx)) * c'
            == (ax + bx) * c + 3.0 * dx * c
               + (dx * bx * by' - dy * bx * bx + 2.0 * dx * (dx * by' - dy * bx))
               - (dx * ax * ay - dy * ax * ax + 2.0 * dx * (dx * ay - dy * ax))
  {}

  function CrossGains(dlat: real, dlng: real): Point -> real {
    (p: Point) => CrossGain(dlat, dlng, p)
  }

  function LatGains(dlat: real, dlng: real): Point -> real {
    (p: Point) => LatGain(dlat, dlng, p)
  }

  function LngGains(dlat: real, dlng: real): Point -> real {
    (p: Point) => LngGain(dlat, dlng, p)
  }

  lemma CrossFollowsAt(dlat: real, dlng: real, a: Point, b: Point)
    ensures FollowsAt(Shift(dlat, dlng), CrossTerm, CrossTerm, 0.0, CrossTerm, CrossGains(dlat, dlng), a, b)
  {
    CrossShifts(a.lng, a.lat, b.lng, b.lat, dlng, dlat);
  }

  lemma LatFollowsAt(dlat: real, dlng: real, a: Point, b: Point)
    ensures FollowsAt(Shift(dlat, dlng), LatMoment, LatMoment, 3.0 * dlat, CrossTerm, LatGains(dlat, dlng), a, b)
  {
    var f := Shift(dlat, dlng);
    LatShifts(a.lng, a.lat, b.lng, b.lat, dlng, dlat, CrossTerm(a, b), CrossTerm(f(a), f(b)));
  }

  lemma LngFollowsAt(dlat: real, dlng: real, a: Point, b: Point)
    ensures FollowsAt(Shift(dlat, dlng), LngMoment, LngMoment, 3.0 * dlng, CrossTerm, LngGains(dlat, dlng), a, b)
  {
    var f := Shift(dlat, dlng);
    LngShifts(a.lng, a.lat, b.lng, b.lat, dlng, dlat, CrossTerm(a, b), CrossTerm(f(a), f(b)));
  }

  lemma CrossFollows(dlat: real, dlng: real)
    ensures Follows(Shift(dlat, dlng), CrossTerm, CrossTerm, 0.0, CrossTerm, CrossGains(dlat, dlng))
  {
    forall a: Point, b: Point
      ensures FollowsAt(Shift(dlat, dlng), CrossTerm, CrossTerm, 0.0, CrossTerm, CrossGains(dlat, dlng), a, b)
    {
      CrossFollowsAt(dlat, dlng, a, b);
    }
  }

  lemma LatFollows(dlat: real, dlng: real, d: real)
    requires d == 3.0 * dlat
    ensures Follows(Shift(dlat, dlng), LatMoment, LatMoment, d, CrossTerm, LatGains(dlat, dlng))
  {
    forall a: Point, b: Point
      ensures FollowsAt(Shift(dlat, dlng), LatMoment, LatMoment, d, CrossTerm, LatGains(dlat, dlng), a, b)
    {
      LatFollowsAt(dlat, dlng, a, b);
    }
  }

  lemma LngFollows(dlat: real, dlng: real, d: real)
    requires d == 3.0 * dlng
    ensures Follows(Shift(dlat, dlng), LngMoment, LngMoment, d, CrossTerm, LngGains(dlat, dlng))
  {
    forall a: Point, b: Point
      ensures FollowsAt(Shift(dlat, dlng), LngMoment, LngMoment, d, CrossTerm, LngGains(dlat, dlng), a, b)
    {
      LngFollowsAt(dlat, dlng, a, b);
    }
  }

  lemma SolidIsRing(ring: Ring)
    requires Solid(ring)
    ensures |ring| >= 3 && TwiceArea(ring) != 0.0
  {
    if |ring| < 3 {
      ShortRingHasNoArea(ring);
    }
  }

  lemma QuotientGrows(moment: real, d: real, area: real)
    requires area != 0.0
    ensures (moment + 3.0 * d * area) * (1.0 / (3.0 * area)) == moment * (1.0 / (3.0 * area)) + d
  {
    var factor := 1.0 / (3.0 * area);
    assert factor * (3.0 * area) == 1.0;
    assert (moment + 3.0 * d * area) * factor == moment * factor + d * (factor * (3.0 * area));
  }

  /** A ring that is shifted has its centroid shifted. */
  lemma ShiftedCentroid(ring: Ring, dlat: real, dlng: real)
    requires Solid(ring)
    ensures Centroid(Moved(Shift(dlat, dlng), ring)) == Shift(dlat, dlng)(Centroid(ring))
  {
    var f, a2 := Shift(dlat, dlng), TwiceArea(ring);
    SolidIsRing(ring);
    CrossFollows(dlat, dlng);
    LatFollows(dlat, dlng, 3.0 * dlat);
    LngFollows(dlat, dlng, 3.0 * dlng);
    MovedRing(f, CrossTerm, CrossTerm, 0.0, CrossTerm, CrossGains(dlat, dlng), ring);
    MovedRing(f, LatMoment, LatMoment, 3.0 * dlat, CrossTerm, LatGains(dlat, dlng), ring);
    MovedRing(f, LngMoment, LngMoment, 3.0 * dlng, CrossTerm, LngGains(dlat, dlng), ring);
    ShiftedMoments(ring, Moved(f, ring), dlat, dlng, a2);
  }

  lemma ShiftedMoments(ring: Ring, moved: Ring, dlat: real, dlng: real, a2: real)
    requires |moved| == |ring| >= 3 && Solid(ring) && a2 == TwiceArea(ring) == TwiceArea(moved)
    requires CycleSum(LatMoment, moved) == CycleSum(LatMoment, ring) + 3.0 * dlat * a2
    requires CycleSum(LngMoment, moved) == CycleSum(LngMoment, ring) + 3.0 * dlng * a2
    ensures Centroid(moved) == Point(Centroid(ring).lat + dlat, Centroid(ring).lng + dlng)
  {
    QuotientGrows(CycleSum(LatMoment, ring), dlat, a2);
    QuotientGrows(CycleSum(LngMoment, ring), dlng, a2);
  }

  const SWAP: Motion := (p: Point) => Point(p.lng, p.lat)

  const NO_GAIN: Point -> real := (p: Point) => 0.0

  lemma SwapFollows(f: Motion)
    requires f == SWAP
    ensures Follows(f, CrossTerm, CrossTerm, -2.0, CrossTerm, NO_GAIN)
    ensures Follows(f, LatMoment, LngMoment, -2.0, LngMoment, NO_GAIN)
    ensures Follows(f, LngMoment, LatMoment, -2.0, LatMoment, NO_GAIN)
  {
    forall a: Point, b: Point
      ensures FollowsAt(f, CrossTerm, CrossTerm, -2.0, CrossTerm, NO_GAIN, a, b)
      ensures FollowsAt(f, LatMoment, LngMoment, -2.0, LngMoment, NO_GAIN, a, b)
      ensures FollowsAt(f, LngMoment, LatMoment, -2.0, LatMoment, NO_GAIN, a, b)
    {
      SwappedTerms(a, b);
    }
  }

  lemma SwappedTerms(a: Point, b: Point)
    ensures FollowsAt(SWAP, CrossTerm, CrossTerm, -2.0, CrossTerm, NO_GAIN, a, b)
    ensures FollowsAt(SWAP, LatMoment, LngMoment, -2.0, LngMoment, NO_GAIN, a, b)
    ensures FollowsAt(SWAP, LngMoment, LatMoment, -2.0, LatMoment, NO_GAIN, a, b)
  {
    var c := CrossTerm(a, b);
    assert CrossTerm(SWAP(a), SWAP(b)) == -c;
    MulNegates(a.lng + b.lng, c);
    MulNegates(a.lat + b.lat, c);
  }

  lemma SameQuotient(moment: real, area: real)
    requires area != 0.0
    ensures (moment + -2.0 * moment) * (1.0 / (3.0 * -area)) == moment * (1.0 / (3.0 * area))
  {
    var f, g := 1.0 / (3.0 * area), 1.0 / (3.0 * -area);
    assert f * (3.0 * area) == 1.0 && g * (3.0 * -area) == 1.0;
    assert (f + g) * (3.0 * area) == 0.0;
    assert g == -f;
  }

  /** With latitudes and longitudes exchanged, those of the centroid are. */
  lemma SwappedCentroid(ring: Ring)
    requires Solid(ring)
    ensures Centroid(Moved(SWAP, ring)) == SWAP(Centroid(ring))
  {
    SolidIsRing(ring);
    SwapFollows(SWAP);
    MovedRing(SWAP, CrossTerm, CrossTerm, -2.0, CrossTerm, NO_GAIN, ring);
    MovedRing(SWAP, LatMoment, LngMoment, -2.0, LngMoment, NO_GAIN, ring);
    MovedRing(SWAP, LngMoment, LatMoment, -2.0, LatMoment, NO_GAIN, ring);
    SameQuotient(CycleSum(LatMoment, ring), TwiceArea(ring));
    SameQuotient(CycleSum(LngMoment, ring), TwiceArea(ring));
  }

  // --- The builder's area ---

  lemma FourEdges(w: EdgeWeight, a: Point, b: Point, c: Point, d: Point)
    ensures CycleSum(w, [a, b, c, d]) == w(d, a) + w(a, b) + w(b, c) + w(c, d)
  {
    var walk := [d, a, b, c, d];
    assert [d] + [a, b, c, d] == walk;
    assert walk[..4] == [d, a, b, c] && walk[..4][..3] == [d, a, b] && walk[..4][..3][..2] == [d, a];
    assert walk[..4][..3][..2][..1] == [d];
    assert PathSum(w, [d, a]) == w(d, a) && PathSum(w, [d, a, b]) == w(d, a) + w(a, b);
    assert PathSum(w, [d, a, b, c]) == w(d, a) + w(a, b) + w(b, c);
  }

  lemma RectangleSum(s: real, w: real, n: real, e: real, k: real)
    requires k == (n - s) * (e - w)
    ensures CycleSum(ShoelaceTerm, [Point(s, w), Point(s, e), Point(n, e), Point(n, w)]) == -2.0 * k
  {
    FourEdges(ShoelaceTerm, Point(s, w), Point(s, e), Point(n, e), Point(n, w));
  }

  function Rectangle(s: real, w: real, n: real, e: real): Ring {
    [Point(s, w), Point(s, e), Point(n, e), Point(n, w)]
  }

  lemma RectangleCrosses(s: real, w: real, n: real, e: real)
    ensures CrossesAntimeridian(Rectangle(s, w, n, e)) <==> w - e > 180.0 || e - w > 180.0
  {
    var ring := Rectangle(s, w, n, e);
    assert Next(ring, 0) == ring[1] && Next(ring, 1) == ring[2] && Next(ring, 2) == ring[3] && Next(ring, 3) == ring[0];
    if w - e > 180.0 || e - w > 180.0 {
      assert LongEdge(ring[0], Next(ring, 0));
    }
  }

  lemma AreaFromUnwrapped(ring: Ring, s: real, w: real, n: real, e: real, k: real)
    requires |ring| == 4 && Unwrap(ring) == Rectangle(s, w, n, e) && k == (n - s) * (e - w) && k >= 0.0
    ensures Area(ring) == k
  {
    RectangleSum(s, w, n, e, k);
    AreaFromSum(ring, k);
  }

  lemma AreaFromSum(ring: Ring, k: real)
    requires |ring| >= 3 && k >= 0.0 && CycleSum(ShoelaceTerm, Unwrap(ring)) == -2.0 * k
    ensures Area(ring) == k
  {}

  lemma UnwrappedRectangle(s: real, w: real, n: real, e: real)
    ensures var crosses := w - e > 180.0 || e - w > 180.0;
            Unwrap(Rectangle(s, w, n, e)) ==
            [LngAt(Point(s, w), crosses), LngAt(Point(s, e), crosses),
             LngAt(Point(n, e), crosses), LngAt(Point(n, w), crosses)]
  {
    RectangleCrosses(s, w, n, e);
  }

  lemma UnwrapsTo(s: real, w: real, n: real, e: real, east: real)
    requires w <= e <= w + 180.0 || (e < 0.0 <= w && w - e > 180.0)
    requires east == if w <= e then e else e + 360.0
    ensures Unwrap(Rectangle(s, w, n, e)) == Rectangle(s, w, n, east)
  {
    UnwrappedRectangle(s, w, n, e);
  }

  /** The area of a rectangle is its height times its width, also where it lies across the antimeridian. */
  lemma RectangleArea(s: real, w: real, n: real, e: real, east: real)
    requires s <= n && w <= east && (w <= e <= w + 180.0 || (e < 0.0 <= w && w - e > 180.0))
    requires east == if w <= e then e else e + 360.0
    ensures Area(Rectangle(s, w, n, e)) == (n - s) * (east - w)
  {
    var k := HeightTimesWidth(n - s, east - w);
    UnwrapsTo(s, w, n, e, east);
    AreaFromUnwrapped(Rectangle(s, w, n, e), s, w, n, east, k);
  }

  lemma HeightTimesWidth(h: real, w: real)
    returns (k: real)
    requires h >= 0.0 && w >= 0.0
    ensures k == h * w && k >= 0.0
  {
    k := h * w;
  }
}
