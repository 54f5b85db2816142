/** What the ray test means: which points it calls inside, told without rays. */
module RayTest {
  import opened Centroids
  import opened EvenOdd
  import opened Fans
  import opened Moments
  import opened Rings
  import opened Simplify

  // --- One edge ---

  /** The ends of the edge lie on different sides of the meridian of `p`; one on it counts as west. */
  predicate Straddles(p: Point, a: Point, b: Point) {
    (a.lng > p.lng) != (b.lng > p.lng)
  }

  /** Some point of the edge lies due north of `p`. */
  ghost predicate NorthOf(p: Point, a: Point, b: Point) {
    exists t :: 0.0 <= t <= 1.0 && Lerp(a, b, t).lng == p.lng && p.lat < Lerp(a, b, t).lat
  }

  /** The position on the edge, and the latitude there, of the meridian of `p`. */
  function PositionOn(p: Point, a: Point, b: Point): real
    requires a.lng != b.lng
  {
    (p.lng - a.lng) / (b.lng - a.lng)
  }

  function LatOn(p: Point, a: Point, b: Point): real
    requires a.lng != b.lng
  {
    RiseAt(b.lat - a.lat, p.lng - a.lng, b.lng - a.lng) + a.lat
  }

  lemma FractionBounds(x: real, d: real)
    requires d != 0.0 && ((0.0 <= x <= d) || (d <= x <= 0.0))
    ensures 0.0 <= x / d <= 1.0
  {
    var q := x / d;
    assert q * d == x && -q * d == -x && (q - 1.0) * d == x - d;
    if q < 0.0 {
      ProductSign(-q, d);
    } else if q > 1.0 {
      ProductSign(q - 1.0, d);
    }
  }

  lemma ProductSign(x: real, y: real)
    requires x > 0.0
    ensures y > 0.0 ==> x * y > 0.0
    ensures y < 0.0 ==> x * y < 0.0
  {
    if y < 0.0 {
      assert x * y == -(x * -y);
    }
  }

  /** The edge meets the meridian at one position, and the test computes the latitude there. */
  lemma MeridianOnEdge(p: Point, a: Point, b: Point)
    requires Straddles(p, a, b)
    ensures var t := PositionOn(p, a, b);
            0.0 <= t <= 1.0 && Lerp(a, b, t) == Point(LatOn(p, a, b), p.lng)
    ensures forall u :: Lerp(a, b, u).lng == p.lng ==> u == PositionOn(p, a, b)
  {
    var d, t := b.lng - a.lng, PositionOn(p, a, b);
    FractionBounds(p.lng - a.lng, d);
    assert t * d == p.lng - a.lng;
    RiseIsPart(b.lat - a.lat, p.lng - a.lng, d);
    forall u | Lerp(a, b, u).lng == p.lng ensures u == t {
      assert u * d == p.lng - a.lng;
      QuotientUnique(p.lng - a.lng, d, u);
    }
  }

  lemma RiseIsPart(rise: real, run: real, d: real)
    requires d != 0.0
    ensures RiseAt(rise, run, d) == (run / d) * rise
  {
    var t := run / d;
    assert t * d == run;
    assert (t * rise) * d == rise * run;
    QuotientUnique(rise * run, d, t * rise);
  }

  /** The test of an edge: it straddles the meridian of `p`, and is met north of `p`. */
  lemma CrossesMeans(p: Point, a: Point, b: Point)
    ensures Crosses(p, a, b) <==> Straddles(p, a, b) && NorthOf(p, a, b)
  {
    if Straddles(p, a, b) {
      MeridianOnEdge(p, a, b);
      var t := PositionOn(p, a, b);
      assert Crosses(p, a, b) ==> 0.0 <= t <= 1.0 && Lerp(a, b, t).lng == p.lng && p.lat < Lerp(a, b, t).lat;
    }
  }

  // --- Rectangles ---

  lemma FourCrossings(x: EdgeTest, a: Point, b: Point, c: Point, d: Point)
    ensures RingCrossings(x, [a, b, c, d]) == Flag(x(a, d)) + Flag(x(b, a)) + Flag(x(c, b)) + Flag(x(d, c))
  {
    var walk := [d, a, b, c, d];
    assert [d] + [a, b, c, d] == walk;
    assert walk[..4] == [d, a, b, c] && walk[..4][..3] == [d, a, b] && walk[..4][..3][..2] == [d, a];
    assert walk[..4][..3][..2][..1] == [d];
    assert CrossingCount(x, [d, a]) == Flag(x(a, d));
    assert CrossingCount(x, [d, a, b]) == Flag(x(a, d)) + Flag(x(b, a));
    assert CrossingCount(x, [d, a, b, c]) == Flag(x(a, d)) + Flag(x(b, a)) + Flag(x(c, b));
  }

  lemma LevelEdge(p: Point, a: Point, b: Point)
    requires a.lat == b.lat
    ensures Crosses(p, a, b) <==> Straddles(p, a, b) && p.lat < a.lat
  {
    if a.lng != b.lng {
      RiseIsPart(b.lat - a.lat, p.lng - a.lng, b.lng - a.lng);
    }
  }

  /** In a rectangle are the points between its sides, the southern and western ones included. */
  lemma InsideRectangle(p: Point, s: real, w: real, n: real, e: real)
    requires s <= n && w <= e
    ensures Inside(p, [Point(s, w), Point(s, e), Point(n, e), Point(n, w)]) <==> s <= p.lat < n && w <= p.lng < e
  {
    var a, b, c, d := Point(s, w), Point(s, e), Point(n, e), Point(n, w);
    FourCrossings(RayFrom(p), a, b, c, d);
    LevelEdge(p, b, a);
    LevelEdge(p, d, c);
    assert !Crosses(p, a, d) && !Crosses(p, c, b);
  }

  // --- Triangles ---

  /** The value that is `u` of the way to `b` and `v` of the way to `c` from `a`. */
  function MixAt(a: real, b: real, c: real, u: real, v: real): real {
    a + u * (b - a) + v * (c - a)
  }

  function Mix(a: Point, b: Point, c: Point, u: real, v: real): Point {
    Point(MixAt(a.lat, b.lat, c.lat, u, v), MixAt(a.lng, b.lng, c.lng, u, v))
  }

  /** Strictly between the three corners. */
  ghost predicate StrictlyIn(p: Point, a: Point, b: Point, c: Point) {
    exists u, v :: u > 0.0 && v > 0.0 && u + v < 1.0 && p == Mix(a, b, c, u, v)
  }

  ghost predicate OnEdge(p: Point, a: Point, b: Point) {
    exists t :: 0.0 <= t <= 1.0 && p == Lerp(a, b, t)
  }

  /** A mean of two values that is neither of them lies between them. */
  lemma Weighted(m: real, n: real, x: real, y: real, z: real)
    requires m > 0.0 && n > 0.0 && m + n == 1.0 && z == m * x + n * y && z != x
    ensures x < z < y || y < z < x
  {
    var d := y - x;
    MeanGaps(m, n, x, y, d);
    ProductSign(m, d);
    ProductSign(n, d);
  }

  lemma MeanGaps(m: real, n: real, x: real, y: real, d: real)
    requires d == y - x && m + n == 1.0
    ensures m * x + n * y == x + n * d && m * x + n * y == y - m * d
    ensures d == 0.0 ==> n * d == 0.0
  {
    assert n * y == (1.0 - m) * y && n * d == (1.0 - m) * d;
  }

  /** A value strictly between two others is a mean of them. */
  lemma MeanBetween(z: real, x: real, y: real) returns (m: real, n: real)
    requires x < z < y || y < z < x
    ensures m > 0.0 && n > 0.0 && m + n == 1.0 && z == m * x + n * y
  {
    var d := x - y;
    m, n := (z - y) / d, (x - z) / d;
    assert m * d == z - y && n * d == x - z;
    OneFromParts(m, n, d, z - y, x - z);
    SameSign(z - y, d);
    SameSign(x - z, d);
    MeanGaps(m, n, x, y, -d);
  }

  lemma SameSign(x: real, d: real)
    requires (x > 0.0 && d > 0.0) || (x < 0.0 && d < 0.0)
    ensures x / d > 0.0
  {
    var q := x / d;
    assert q * d == x && -q * d == -x;
    if q <= 0.0 {
      NotPositive(-q, d);
    }
  }

  lemma NotPositive(x: real, y: real)
    requires x >= 0.0
    ensures y > 0.0 ==> x * y >= 0.0
    ensures y < 0.0 ==> x * y <= 0.0
  {
    if x > 0.0 {
      ProductSign(x, y);
    }
  }

  /** The corner `a` lies on one side of the meridian of `p`, the others on the other, and none on it. */
  ghost predicate Alone(p: Point, a: Point, b: Point, c: Point) {
    (a.lng < p.lng < b.lng && p.lng < c.lng) || (a.lng > p.lng > b.lng && p.lng > c.lng)
  }

  lemma StrictPosition(p: Point, a: Point, b: Point)
    requires a.lng < p.lng < b.lng || a.lng > p.lng > b.lng
    ensures var t := PositionOn(p, a, b);
            && 0.0 < t < 1.0 && t * (b.lng - a.lng) == p.lng - a.lng
            && LatOn(p, a, b) == a.lat + t * (b.lat - a.lat)
  {
    MeridianOnEdge(p, a, b);
    var t := PositionOn(p, a, b);
    assert t * (b.lng - a.lng) == p.lng - a.lng;
    assert Lerp(a, b, t).lat == LatOn(p, a, b);
  }

  lemma Regrouped(x: real, y: real, z: real, product: real)
    requires y * z == product
    ensures (x * y) * z == x * product
  {
    assert (x * y) * z == x * (y * z);
  }

  /** `m` of the way to the meridian is `m * t` of the way to `b`. */
  lemma Share(p: Point, a: Point, b: Point, m: real, u: real)
    requires (a.lng < p.lng < b.lng || a.lng > p.lng > b.lng) && u == m * PositionOn(p, a, b)
    ensures u * (b.lat - a.lat) == m * (LatOn(p, a, b) - a.lat) && u * (b.lng - a.lng) == m * (p.lng - a.lng)
  {
    StrictPosition(p, a, b);
    var t := PositionOn(p, a, b);
    Regrouped(m, t, b.lat - a.lat, LatOn(p, a, b) - a.lat);
    Regrouped(m, t, b.lng - a.lng, p.lng - a.lng);
  }

  lemma Shrinks(m: real, t: real)
    requires m > 0.0 && 0.0 < t < 1.0
    ensures 0.0 < m * t < m
  {
    ProductSign(m, t);
    ProductSign(m, 1.0 - t);
  }

  lemma BothShrink(m: real, n: real, t: real, s: real)
    requires m > 0.0 && n > 0.0 && 0.0 < t < 1.0 && 0.0 < s < 1.0
    ensures m * t > 0.0 && n * s > 0.0 && m * t + n * s < m + n
  {
    Shrinks(m, t);
    Shrinks(n, s);
  }

  lemma SameMix(a: real, b: real, c: real, u: real, v: real, h: real, k: real, m: real, n: real)
    requires u * (b - a) == m * (h - a) && v * (c - a) == n * (k - a)
    ensures MixAt(a, b, c, u, v) == MixAt(a, h, k, m, n)
  {}

  /** With weights that add up to one it does not matter from where one looks. */
  lemma MixOfWhole(a: real, h: real, k: real, m: real, n: real)
    requires m + n == 1.0
    ensures MixAt(a, h, k, m, n) == m * h + n * k
  {
    assert n * (k - a) == (1.0 - m) * (k - a) && n * k == (1.0 - m) * k;
  }

  /** Both coordinates of the mixture of the corners, told on the meridian. */
  lemma MixSeenOnMeridian(p: Point, a: Point, b: Point, c: Point, m: real, n: real)
    requires Alone(p, a, b, c)
    ensures var q := Mix(a, b, c, m * PositionOn(p, a, b), n * PositionOn(p, a, c));
            && q.lat == MixAt(a.lat, LatOn(p, a, b), LatOn(p, a, c), m, n)
            && q.lng == a.lng + m * (p.lng - a.lng) + n * (p.lng - a.lng)
  {
    var u, v := m * PositionOn(p, a, b), n * PositionOn(p, a, c);
    LatOfShares(p, a, b, c, m, n, u, v);
    LngOfShares(p, a, b, c, m, n, u, v);
  }

  lemma LatOfShares(p: Point, a: Point, b: Point, c: Point, m: real, n: real, u: real, v: real)
    requires Alone(p, a, b, c) && u == m * PositionOn(p, a, b) && v == n * PositionOn(p, a, c)
    ensures MixAt(a.lat, b.lat, c.lat, u, v) == MixAt(a.lat, LatOn(p, a, b), LatOn(p, a, c), m, n)
  {
    Share(p, a, b, m, u);
    Share(p, a, c, n, v);
    SameMix(a.lat, b.lat, c.lat, u, v, LatOn(p, a, b), LatOn(p, a, c), m, n);
  }

  lemma LngOfShares(p: Point, a: Point, b: Point, c: Point, m: real, n: real, u: real, v: real)
    requires Alone(p, a, b, c) && u == m * PositionOn(p, a, b) && v == n * PositionOn(p, a, c)
    ensures MixAt(a.lng, b.lng, c.lng, u, v) == MixAt(a.lng, p.lng, p.lng, m, n)
  {
    Share(p, a, b, m, u);
    Share(p, a, c, n, v);
    SameMix(a.lng, b.lng, c.lng, u, v, p.lng, p.lng, m, n);
  }

  /** A mean of the two points on the meridian is a mixture of the corners. */
  lemma MixOnMeridian(p: Point, a: Point, b: Point, c: Point, m: real, n: real)
    requires Alone(p, a, b, c) && m > 0.0 && n > 0.0 && m + n == 1.0
    requires p.lat == m * LatOn(p, a, b) + n * LatOn(p, a, c)
    ensures StrictlyIn(p, a, b, c)
  {
    StrictPosition(p, a, b);
    StrictPosition(p, a, c);
    MixSeenOnMeridian(p, a, b, c, m, n);
    MixOfWhole(a.lat, LatOn(p, a, b), LatOn(p, a, c), m, n);
    BothShrink(m, n, PositionOn(p, a, b), PositionOn(p, a, c));
    assert n * (p.lng - a.lng) == (1.0 - m) * (p.lng - a.lng);
    assert p == Mix(a, b, c, m * PositionOn(p, a, b), n * PositionOn(p, a, c));
  }

  lemma OneFromParts(m: real, n: real, r: real, x: real, y: real)
    requires x == m * r && y == n * r && x + y == r != 0.0
    ensures m + n == 1.0
  {
    assert (m + n) * r == r;
    QuotientUnique(r, r, m + n);
    QuotientUnique(r, r, 1.0);
  }

  lemma WholeMix(x: real, y: real, m: real, n: real)
    requires y == MixAt(x, y, y, m, n) && x != y
    ensures m + n == 1.0
  {
    OneFromParts(m, n, y - x, m * (y - x), n * (y - x));
  }

  /** A mixture of the corners is a mean of the two points on its meridian. */
  lemma MeanOnMeridian(p: Point, a: Point, b: Point, c: Point) returns (m: real, n: real)
    requires Alone(p, a, b, c) && StrictlyIn(p, a, b, c)
    ensures m > 0.0 && n > 0.0 && m + n == 1.0 && p.lat == m * LatOn(p, a, b) + n * LatOn(p, a, c)
  {
    var u, v :| u > 0.0 && v > 0.0 && u + v < 1.0 && p == Mix(a, b, c, u, v);
    m, n := SharesOf(p, a, b, c, u, v);
    LatOfShares(p, a, b, c, m, n, u, v);
    LngOfShares(p, a, b, c, m, n, u, v);
    WholeMix(a.lng, p.lng, m, n);
    MixOfWhole(a.lat, LatOn(p, a, b), LatOn(p, a, c), m, n);
  }

  lemma SharesOf(p: Point, a: Point, b: Point, c: Point, u: real, v: real) returns (m: real, n: real)
    requires Alone(p, a, b, c) && u > 0.0 && v > 0.0
    ensures m > 0.0 && n > 0.0 && u == m * PositionOn(p, a, b) && v == n * PositionOn(p, a, c)
  {
    StrictPosition(p, a, b);
    StrictPosition(p, a, c);
    m, n := u / PositionOn(p, a, b), v / PositionOn(p, a, c);
    SameSign(u, PositionOn(p, a, b));
    SameSign(v, PositionOn(p, a, c));
  }

  /** Only the two edges at the lone corner can be crossed. */
  lemma TwoOfThree(p: Point, a: Point, b: Point, c: Point)
    requires Alone(p, a, b, c)
    ensures Inside(p, [a, b, c]) <==> (p.lat < LatOn(p, a, b)) != (p.lat < LatOn(p, a, c))
  {
    ThreeCrossings(RayFrom(p), a, b, c);
    CrossesSymmetric(p, a, b);
    assert !Crosses(p, c, b);
    assert Crosses(p, a, c) <==> p.lat < LatOn(p, a, c);
    assert Crosses(p, a, b) <==> p.lat < LatOn(p, a, b);
  }

  lemma NotOnMeridian(p: Point, a: Point, b: Point)
    requires Straddles(p, a, b) && !OnEdge(p, a, b)
    ensures p.lat != LatOn(p, a, b)
  {
    MeridianOnEdge(p, a, b);
    assert p == Point(p.lat, p.lng);
  }

  lemma StrictlyInLiesBetween(p: Point, a: Point, b: Point, c: Point)
    requires Alone(p, a, b, c) && p.lat != LatOn(p, a, b)
    ensures StrictlyIn(p, a, b, c) <==>
            LatOn(p, a, b) < p.lat < LatOn(p, a, c) || LatOn(p, a, c) < p.lat < LatOn(p, a, b)
  {
    var h, k := LatOn(p, a, b), LatOn(p, a, c);
    if StrictlyIn(p, a, b, c) {
      var m, n := MeanOnMeridian(p, a, b, c);
      Weighted(m, n, h, k, p.lat);
    } else if h < p.lat < k || k < p.lat < h {
      var m, n := MeanBetween(p.lat, h, k);
      MixOnMeridian(p, a, b, c, m, n);
    }
  }

  lemma InsideAlone(p: Point, a: Point, b: Point, c: Point)
    requires Alone(p, a, b, c) && !OnEdge(p, a, b) && !OnEdge(p, a, c)
    ensures Inside(p, [a, b, c]) <==> StrictlyIn(p, a, b, c)
  {
    TwoOfThree(p, a, b, c);
    NotOnMeridian(p, a, b);
    NotOnMeridian(p, a, c);
    StrictlyInLiesBetween(p, a, b, c);
  }

  lemma Turned(p: Point, a: Point, b: Point, c: Point)
    ensures StrictlyIn(p, b, c, a) ==> StrictlyIn(p, a, b, c)
    ensures Inside(p, [b, c, a]) <==> Inside(p, [a, b, c])
  {
    if StrictlyIn(p, b, c, a) {
      var u, v :| u > 0.0 && v > 0.0 && u + v < 1.0 && p == Mix(b, c, a, u, v);
      TurnedMix(a, b, c, u, v, 1.0 - u - v);
    }
    ThreeCrossings(RayFrom(p), a, b, c);
    ThreeCrossings(RayFrom(p), b, c, a);
  }

  lemma TurnedMix(a: Point, b: Point, c: Point, u: real, v: real, w: real)
    requires u + v + w == 1.0
    ensures Mix(b, c, a, u, v) == Mix(a, b, c, w, u)
  {
    TurnedWeights(a.lat, b.lat, c.lat, u, v, w);
    TurnedWeights(a.lng, b.lng, c.lng, u, v, w);
  }

  lemma TurnedWeights(a: real, b: real, c: real, u: real, v: real, w: real)
    requires u + v + w == 1.0
    ensures MixAt(b, c, a, u, v) == MixAt(a, b, c, w, u)
  {
    assert w * (b - a) == (1.0 - u - v) * (b - a);
  }

  lemma OneSide(p: Point, a: Point, b: Point, c: Point)
    requires (a.lng < p.lng && b.lng < p.lng && c.lng < p.lng) || (a.lng > p.lng && b.lng > p.lng && c.lng > p.lng)
    ensures !Inside(p, [a, b, c]) && !StrictlyIn(p, a, b, c)
  {
    ThreeCrossings(RayFrom(p), a, b, c);
    forall u, v | u > 0.0 && v > 0.0 && u + v < 1.0 ensures p != Mix(a, b, c, u, v) {
      SeenFrom(a.lng, b.lng, c.lng, p.lng, u, v, 1.0 - u - v);
      SumSign(a.lng - p.lng, b.lng - p.lng, c.lng - p.lng, 1.0 - u - v, u, v);
    }
  }

  lemma SumSign(x: real, y: real, z: real, w: real, u: real, v: real)
    requires u > 0.0 && v > 0.0 && w > 0.0
    ensures x < 0.0 && y < 0.0 && z < 0.0 ==> w * x + u * y + v * z < 0.0
    ensures x > 0.0 && y > 0.0 && z > 0.0 ==> w * x + u * y + v * z > 0.0
  {
    ProductSign(w, x);
    ProductSign(u, y);
    ProductSign(v, z);
  }

  lemma SeenFrom(a: real, b: real, c: real, p: real, u: real, v: real, w: real)
    requires u + v + w == 1.0
    ensures MixAt(a, b, c, u, v) - p == w * (a - p) + u * (b - p) + v * (c - p)
  {
    assert w * (a - p) == (1.0 - u - v) * (a - p);
  }

  /** The point shares no corner's longitude and lies on no edge. */
  ghost predicate Clear(p: Point, a: Point, b: Point, c: Point) {
    && p.lng != a.lng && p.lng != b.lng && p.lng != c.lng
    && !OnEdge(p, a, b) && !OnEdge(p, b, c) && !OnEdge(p, c, a)
  }

  lemma EdgeEitherWay(p: Point, a: Point, b: Point)
    ensures OnEdge(p, a, b) ==> OnEdge(p, b, a)
  {
    if t :| 0.0 <= t <= 1.0 && p == Lerp(a, b, t) {
      assert p == Lerp(b, a, 1.0 - t);
    }
  }

  /** In a triangle are exactly the points strictly between its corners. */
  lemma InsideTriangle(p: Point, a: Point, b: Point, c: Point)
    requires Clear(p, a, b, c)
    ensures Inside(p, [a, b, c]) <==> StrictlyIn(p, a, b, c)
  {
    EdgeEitherWay(p, a, c);
    EdgeEitherWay(p, b, a);
    EdgeEitherWay(p, c, b);
    Turned(p, a, b, c);
    Turned(p, b, c, a);
    Turned(p, c, a, b);
    if Alone(p, a, b, c) {
      InsideAlone(p, a, b, c);
    } else if Alone(p, b, c, a) {
      InsideAlone(p, b, c, a);
    } else if Alone(p, c, a, b) {
      InsideAlone(p, c, a, b);
    } else {
      OneSide(p, a, b, c);
    }
  }

  lemma OnLine(x: real, y: real, t: real, tx: real, ty: real)
    requires tx == t * x && ty == t * y
    ensures x * ty - tx * y == 0.0
  {}

  lemma TurnOnEdge(p: Point, a: Point, b: Point)
    requires OnEdge(p, a, b)
    ensures Turn(a, b, p) == 0.0
  {
    var t :| 0.0 <= t <= 1.0 && p == Lerp(a, b, t);
    OnLine(b.lng - a.lng, b.lat - a.lat, t, p.lng - a.lng, p.lat - a.lat);
  }

  lemma TurnOfSum(x: real, y: real, xx: real, yy: real, u: real, v: real)
    ensures x * (u * y + v * yy) - (u * x + v * xx) * y == v * (x * yy - xx * y)
  {}

  lemma TurnOfMix(a: Point, b: Point, c: Point, u: real, v: real)
    ensures Turn(a, b, Mix(a, b, c, u, v)) == v * Turn(a, b, c)
  {
    TurnOfSum(b.lng - a.lng, b.lat - a.lat, c.lng - a.lng, c.lat - a.lat, u, v);
    var p := Mix(a, b, c, u, v);
    assert p.lat - a.lat == u * (b.lat - a.lat) + v * (c.lat - a.lat);
    assert p.lng - a.lng == u * (b.lng - a.lng) + v * (c.lng - a.lng);
  }

  lemma NonZeroProduct(x: real, y: real)
    requires x != 0.0 && y != 0.0
    ensures x * y != 0.0
  {}

  lemma StrictOffEdge(p: Point, a: Point, b: Point, c: Point)
    requires StrictlyIn(p, a, b, c) && Turn(a, b, c) != 0.0
    ensures !OnEdge(p, a, b)
  {
    var u, v :| u > 0.0 && v > 0.0 && u + v < 1.0 && p == Mix(a, b, c, u, v);
    TurnOfMix(a, b, c, u, v);
    NonZeroProduct(v, Turn(a, b, c));
    if OnEdge(p, a, b) {
      TurnOnEdge(p, a, b);
    }
  }

  lemma TurnRotated(a: Point, b: Point, c: Point)
    ensures Turn(b, c, a) == Turn(a, b, c)
  {
    TriangleArea(a, b, c);
    TriangleArea(b, c, a);
    ThreeEdges(CrossTerm, a, b, c);
    ThreeEdges(CrossTerm, b, c, a);
  }

  /** So all points strictly between the corners of a triangle with an area, but for three meridians, are inside. */
  lemma InsideSolidTriangle(p: Point, a: Point, b: Point, c: Point)
    requires TwiceArea([a, b, c]) != 0.0 && StrictlyIn(p, a, b, c)
    requires p.lng != a.lng && p.lng != b.lng && p.lng != c.lng
    ensures Inside(p, [a, b, c])
  {
    TriangleArea(a, b, c);
    TurnRotated(a, b, c);
    TurnRotated(b, c, a);
    Turned(p, c, a, b);
    Turned(p, b, c, a);
    StrictOffEdge(p, a, b, c);
    StrictOffEdge(p, b, c, a);
    StrictOffEdge(p, c, a, b);
    InsideTriangle(p, a, b, c);
  }

  // --- Every ring ---

  /** How many of the first `n` triangles of the fan hold the point. */
  ghost function TrianglesAround(p: Point, ring: Ring, n: nat): nat
    requires n < |ring|
  {
    if n == 0 then 0
    else TrianglesAround(p, ring, n - 1) + Flag(StrictlyIn(p, ring[0], ring[n - 1], ring[n]))
  }

  /** The point shares no vertex's longitude, and lies on no edge or diagonal of the fan. */
  ghost predicate ClearOfFan(p: Point, ring: Ring) {
    forall i: nat :: i + 1 < |ring| ==> ClearOfTriangle(p, ring, i)
  }

  ghost predicate ClearOfTriangle(p: Point, ring: Ring, i: nat)
    requires i + 1 < |ring|
  {
    Clear(p, ring[0], ring[i], ring[i + 1])
  }

  lemma {:induction false} AroundMeansInside(p: Point, ring: Ring, n: nat)
    requires n < |ring| && ClearOfFan(p, ring)
    ensures TriangleCrossings(RayFrom(p), ring, n) % 2 == TrianglesAround(p, ring, n) % 2
    decreases n
  {
    if n > 0 {
      AroundMeansInside(p, ring, n - 1);
      assert ClearOfTriangle(p, ring, n - 1);
      InsideTriangle(p, ring[0], ring[n - 1], ring[n]);
      SameParities(TriangleCrossings(RayFrom(p), ring, n - 1), TrianglesAround(p, ring, n - 1),
                   RingCrossings(RayFrom(p), Triangle(ring, n - 1)),
                   Flag(StrictlyIn(p, ring[0], ring[n - 1], ring[n])));
    }
  }

  lemma SameParities(a: nat, b: nat, c: nat, d: nat)
    requires a % 2 == b % 2 && c % 2 == d % 2
    ensures (a + c) % 2 == (b + d) % 2
  {}

  /**
   The test on every ring, told without rays: a point is inside exactly if an odd number of the
   triangles between the first vertex and the edges hold it.
   */
  lemma InsideRing(p: Point, ring: Ring)
    requires ring != [] && ClearOfFan(p, ring)
    ensures Inside(p, ring) <==> TrianglesAround(p, ring, |ring| - 1) % 2 == 1
  {
    RayIsEven(p);
    CrossingsOfRing(RayFrom(p), ring);
    AroundMeansInside(p, ring, |ring| - 1);
  }
}
