/** Douglas-Peucker simplification and the search for a tolerance that meets a vertex cap. */
module Simplify {
  import opened Rings

  // --- Distance to a segment ---

  function Lerp(a: Point, b: Point, t: real): Point {
    Point(a.lat + t * (b.lat - a.lat), a.lng + t * (b.lng - a.lng))
  }

  function Clamp01(t: real): real {
    if t < 0.0 then 0.0 else if t > 1.0 then 1.0 else t
  }

  /** The squared offset from `t * (dx, dy)` to `(ux, uy)`. */
  function OffsetSq(ux: real, uy: real, dx: real, dy: real, t: real): real {
    (ux - t * dx) * (ux - t * dx) + (uy - t * dy) * (uy - t * dy)
  }

  /** The position along `(dx, dy)` that `dp_simplify` measures the distance of `(ux, uy)` to. */
  function Foot(ux: real, uy: real, dx: real, dy: real): (t: real)
    ensures 0.0 <= t <= 1.0
  {
    var lenSq := dx * dx + dy * dy;
    if lenSq == 0.0 then 0.0 else Clamp01((ux * dx + uy * dy) / lenSq)
  }

  /** The squared distance from `p` to the segment from `a` to `b`. */
  function SegDistSq(p: Point, a: Point, b: Point): real {
    var ux, uy, dx, dy := p.lat - a.lat, p.lng - a.lng, b.lat - a.lat, b.lng - a.lng;
    OffsetSq(ux, uy, dx, dy, Foot(ux, uy, dx, dy))
  }

  /** `f(t) - f(c)` for the squared distance `f` along a segment, with the foot at `c`. */
  lemma QuadraticGap(ux: real, uy: real, dx: real, dy: real, t: real, c: real)
    ensures (ux - t * dx) * (ux - t * dx) + (uy - t * dy) * (uy - t * dy)
            - (ux - c * dx) * (ux - c * dx) - (uy - c * dy) * (uy - c * dy)
            == (t - c) * ((dx * dx + dy * dy) * (t + c) - 2.0 * (ux * dx + uy * dy))
  {}

  lemma ProductNonNegative(x: real, y: real)
    requires (x >= 0.0 && y >= 0.0) || (x <= 0.0 && y <= 0.0)
    ensures x * y >= 0.0
  {}

  /** Around a clamped foot both factors of the gap have the same sign. */
  lemma GapNonNegative(lenSq: real, dot: real, t: real, c: real)
    requires lenSq > 0.0 && 0.0 <= t <= 1.0 && c == Clamp01(dot / lenSq)
    ensures (t - c) * (lenSq * (t + c) - 2.0 * dot) >= 0.0
  {
    var s := dot / lenSq;
    assert dot == s * lenSq;
    assert lenSq * (t + c) - 2.0 * dot == lenSq * (t + c - 2.0 * s);
    if t > c {
      ProductNonNegative(lenSq, t + c - 2.0 * s);
      ProductNonNegative(t - c, lenSq * (t + c) - 2.0 * dot);
    } else if t < c {
      ProductNonNegative(lenSq, -(t + c - 2.0 * s));
      assert lenSq * -(t + c - 2.0 * s) == -(lenSq * (t + c - 2.0 * s));
      ProductNonNegative(t - c, lenSq * (t + c) - 2.0 * dot);
    }
  }

  lemma SquarePositive(x: real)
    ensures x * x >= 0.0
    ensures x != 0.0 ==> x * x > 0.0
  {
    if x < 0.0 {
      assert x * x == -x * -x;
    }
  }

  lemma FootIsNearest(ux: real, uy: real, dx: real, dy: real, t: real)
    requires 0.0 <= t <= 1.0
    ensures OffsetSq(ux, uy, dx, dy, Foot(ux, uy, dx, dy)) <= OffsetSq(ux, uy, dx, dy, t)
  {
    var lenSq, dot, c := dx * dx + dy * dy, ux * dx + uy * dy, Foot(ux, uy, dx, dy);
    SquarePositive(dx);
    SquarePositive(dy);
    if lenSq != 0.0 {
      GapNonNegative(lenSq, dot, t, c);
      QuadraticGap(ux, uy, dx, dy, t, c);
    }
  }

  lemma OffsetForm(p: Point, a: Point, b: Point, t: real)
    ensures DistSq(p, Lerp(a, b, t))
            == OffsetSq(p.lat - a.lat, p.lng - a.lng, b.lat - a.lat, b.lng - a.lng, t)
  {
    var q := Lerp(a, b, t);
    assert p.lat - q.lat == (p.lat - a.lat) - t * (b.lat - a.lat);
    assert p.lng - q.lng == (p.lng - a.lng) - t * (b.lng - a.lng);
  }

  /** No point of the segment is nearer than the measured distance. */
  lemma SegDistIsMinimum(p: Point, a: Point, b: Point, t: real)
    requires 0.0 <= t <= 1.0
    ensures SegDistSq(p, a, b) <= DistSq(p, Lerp(a, b, t))
  {
    FootIsNearest(p.lat - a.lat, p.lng - a.lng, b.lat - a.lat, b.lng - a.lng, t);
    OffsetForm(p, a, b, t);
  }

  /** And some point of the segment is that near. */
  lemma SegDistIsAttained(p: Point, a: Point, b: Point) returns (t: real)
    ensures 0.0 <= t <= 1.0 && SegDistSq(p, a, b) == DistSq(p, Lerp(a, b, t))
  {
    t := Foot(p.lat - a.lat, p.lng - a.lng, b.lat - a.lat, b.lng - a.lng);
    OffsetForm(p, a, b, t);
  }

  // --- Douglas-Peucker ---

  /** How far a vertex is from a chord. */
  type Gauge = (Point, Point, Point) -> real

  const CHORD: Gauge := (p: Point, a: Point, b: Point) => SegDistSq(p, a, b)

  /** The tolerance as the squared distances are compared with it. */
  function Square(eps: real): real {
    eps * eps
  }

  /** The distance that competes at index `k`; the start index stands for "none so far". */
  function Rise(g: Gauge, pts: seq<Point>, s: nat, e: nat, k: nat): real
    requires s <= k < e < |pts|
  {
    if k == s then 0.0 else g(pts[k], pts[s], pts[e])
  }

  /** The first vertex strictly between `s` and `n` farthest from the chord, or `s` if none is off it. */
  function Farthest(g: Gauge, pts: seq<Point>, s: nat, e: nat, n: nat): (k: nat)
    requires s < n <= e < |pts|
    ensures s <= k < n
    ensures forall i :: s < i < n ==> Rise(g, pts, s, e, i) <= Rise(g, pts, s, e, k)
    ensures forall i :: s < i < k ==> Rise(g, pts, s, e, i) < Rise(g, pts, s, e, k)
    ensures 0.0 <= Rise(g, pts, s, e, k)
    decreases n
  {
    if n == s + 1 then s
    else
      var k := Farthest(g, pts, s, e, n - 1);
      if Rise(g, pts, s, e, n - 1) > Rise(g, pts, s, e, k) then n - 1 else k
  }

  /** The interior vertices that survive between `s` and `e`. */
  function DpKept(g: Gauge, pts: seq<Point>, s: nat, e: nat, limit: real): (kept: set<nat>)
    requires s <= e < |pts|
    ensures forall i <- kept :: s < i < e
    decreases e - s
  {
    if e <= s + 1 then {}
    else
      var m := Farthest(g, pts, s, e, e);
      if s < m && Rise(g, pts, s, e, m) > limit
      then DpKept(g, pts, s, m, limit) + {m} + DpKept(g, pts, m, e, limit)
      else {}
  }

  /** The scan of `dp_simplify` for the vertex farthest from the chord. */
  method ScanChord(pts: seq<Point>, start: nat, end: nat) returns (maxDist: real, maxIdx: nat)
    requires start < end < |pts|
    ensures maxIdx == Farthest(CHORD, pts, start, end, end) && maxDist == Rise(CHORD, pts, start, end, maxIdx)
  {
    maxDist, maxIdx := 0.0, start;
    for i := start + 1 to end
      invariant start <= maxIdx < i
      invariant maxIdx == Farthest(CHORD, pts, start, end, i) && maxDist == Rise(CHORD, pts, start, end, maxIdx)
    {
      var dist := SegDistSq(pts[i], pts[start], pts[end]);
      if dist > maxDist {
        maxDist, maxIdx := dist, i;
      }
    }
  }

  /** `dp_simplify`: sets the bits of the surviving vertices and touches no other. */
  method DpSimplify(pts: seq<Point>, start: nat, end: nat, eps: real, keep: array<bool>)
    requires start <= end < |pts| == keep.Length
    modifies keep
    ensures forall i :: 0 <= i < keep.Length ==>
              keep[i] == (old(keep[i]) || i in DpKept(CHORD, pts, start, end, Square(eps)))
    decreases end - start
  {
    if end <= start + 1 {
      return;
    }
    var maxDist, maxIdx := ScanChord(pts, start, end);
    if maxDist > Square(eps) {
      ProductNonNegative(eps, eps);
      keep[maxIdx] := true;
      DpSimplify(pts, start, maxIdx, eps, keep);
      DpSimplify(pts, maxIdx, end, eps, keep);
    }
  }

  lemma SquareMonotone(x: real, y: real)
    requires 0.0 <= x <= y
    ensures Square(x) <= Square(y)
  {}

  /** A larger tolerance keeps a subset of what a smaller one keeps. */
  lemma {:induction false} DpNested(g: Gauge, pts: seq<Point>, s: nat, e: nat, small: real, large: real)
    requires s <= e < |pts| && small <= large
    ensures DpKept(g, pts, s, e, large) <= DpKept(g, pts, s, e, small)
    decreases e - s
  {
    if e > s + 1 {
      var m := Farthest(g, pts, s, e, e);
      if s < m {
        DpNested(g, pts, s, m, small, large);
        DpNested(g, pts, m, e, small, large);
      }
    }
  }

  /** `l` and `r` are the nearest survivors on either side of a dropped vertex. */
  ghost predicate Brackets(kept: set<nat>, s: nat, e: nat, l: nat, i: nat, r: nat) {
    && l < i < r
    && (l in kept || l == s) && (r in kept || r == e)
    && forall k :: l < k < r ==> k !in kept
  }

  /** Every dropped vertex is within the tolerance of the chord of its surviving neighbours. */
  lemma {:induction false} DpErrorBound(g: Gauge, pts: seq<Point>, s: nat, e: nat, limit: real, i: nat)
    returns (l: nat, r: nat)
    requires s < i < e < |pts| && 0.0 <= limit && i !in DpKept(g, pts, s, e, limit)
    ensures s <= l < i < r <= e && Brackets(DpKept(g, pts, s, e, limit), s, e, l, i, r)
    ensures g(pts[i], pts[l], pts[r]) <= limit
    decreases e - s
  {
    var m := Farthest(g, pts, s, e, e);
    if s < m && Rise(g, pts, s, e, m) > limit {
      if i < m {
        l, r := DpErrorBound(g, pts, s, m, limit, i);
      } else {
        l, r := DpErrorBound(g, pts, m, e, limit, i);
      }
    } else {
      l, r := s, e;
      assert Rise(g, pts, s, e, i) <= Rise(g, pts, s, e, m);
    }
  }

  /** A line that stays within the tolerance of its chord loses all its interior vertices. */
  lemma FlatLineLosesAll(g: Gauge, pts: seq<Point>, s: nat, e: nat, limit: real)
    requires s < e < |pts| && 0.0 <= limit && forall i :: s < i < e ==> g(pts[i], pts[s], pts[e]) <= limit
    ensures DpKept(g, pts, s, e, limit) == {}
  {}

  /**
   A vertex that is kept was needed: beyond the tolerance from the chord of two vertices around it
   that are kept too, or are the ends, and the first farthest from it of all in between.
   */
  lemma {:induction false} KeptWasNeeded(g: Gauge, pts: seq<Point>, s: nat, e: nat, limit: real, i: nat)
    returns (l: nat, r: nat)
    requires s <= e < |pts| && i in DpKept(g, pts, s, e, limit)
    ensures s <= l < i < r <= e && g(pts[i], pts[l], pts[r]) > limit && i == Farthest(g, pts, l, r, r)
    ensures var kept := DpKept(g, pts, s, e, limit); (l in kept || l == s) && (r in kept || r == e)
    decreases e - s
  {
    var m := Farthest(g, pts, s, e, e);
    if i == m {
      l, r := s, e;
    } else if i < m {
      l, r := KeptWasNeeded(g, pts, s, m, limit, i);
    } else {
      l, r := KeptWasNeeded(g, pts, m, e, limit, i);
    }
  }

  // --- The vertex cap ---

  /** Is vertex `i` part of the simplified line? */
  predicate Keeps(pts: seq<Point>, eps: real, i: nat)
    requires pts != []
  {
    i == 0 || i == |pts| - 1 || i in DpKept(CHORD, pts, 0, |pts| - 1, Square(eps))
  }

  /** How many of the first `n` vertices are kept. */
  function KeptCount(pts: seq<Point>, eps: real, n: nat): nat
    requires pts != []
  {
    if n == 0 then 0 else KeptCount(pts, eps, n - 1) + if Keeps(pts, eps, n - 1) then 1 else 0
  }

  /** The kept vertices among the first `n`, in order. */
  function Select(pts: seq<Point>, eps: real, n: nat): (r: seq<Point>)
    requires pts != [] && n <= |pts|
    ensures |r| == KeptCount(pts, eps, n)
  {
    if n == 0 then []
    else Select(pts, eps, n - 1) + if Keeps(pts, eps, n - 1) then [pts[n - 1]] else []
  }

  /** Does the tolerance bring the line within the cap? */
  predicate Fits(pts: seq<Point>, eps: real, cap: nat)
    requires pts != []
  {
    KeptCount(pts, eps, |pts|) <= cap
  }

  lemma {:induction false} KeptCountNested(pts: seq<Point>, small: real, large: real, n: nat)
    requires pts != [] && 0.0 <= small <= large
    ensures KeptCount(pts, large, n) <= KeptCount(pts, small, n)
  {
    if n > 0 {
      SquareMonotone(small, large);
      DpNested(CHORD, pts, 0, |pts| - 1, Square(small), Square(large));
      KeptCountNested(pts, small, large, n - 1);
    }
  }

  /** The interval left after `n` halvings. */
  function Search(pts: seq<Point>, cap: nat, lo: real, hi: real, n: nat): (r: (real, real))
    requires pts != []
    decreases n
  {
    if n == 0 then (lo, hi)
    else
      var mid := (lo + hi) / 2.0;
      if Fits(pts, mid, cap) then Search(pts, cap, lo, mid, n - 1)
      else Search(pts, cap, mid, hi, n - 1)
  }

  const ITERATIONS: nat := 20

  /** The tolerance `simplify_polygon` ends up with. */
  function Tolerance(pts: seq<Point>, cap: nat): real
    requires pts != []
  {
    Search(pts, cap, 0.0, 1.0, ITERATIONS).1
  }

  function Simplified(pts: seq<Point>, cap: nat): seq<Point> {
    if |pts| <= cap then pts else Select(pts, Tolerance(pts, cap), |pts|)
  }

  /** The keep bits for one tolerance, as the source fills them. */
  method KeepBits(pts: seq<Point>, eps: real) returns (keep: array<bool>)
    requires pts != []
    ensures fresh(keep) && keep.Length == |pts|
    ensures forall i :: 0 <= i < |pts| ==> keep[i] == Keeps(pts, eps, i)
  {
    keep := new bool[|pts|](_ => false);
    keep[0] := true;
    keep[|pts| - 1] := true;
    DpSimplify(pts, 0, |pts| - 1, eps, keep);
  }

  method CountBits(pts: seq<Point>, eps: real, keep: array<bool>) returns (count: nat)
    requires pts != [] && keep.Length == |pts|
    requires forall i :: 0 <= i < |pts| ==> keep[i] == Keeps(pts, eps, i)
    ensures count == KeptCount(pts, eps, |pts|)
  {
    count := 0;
    for i := 0 to keep.Length
      invariant count == KeptCount(pts, eps, i)
    {
      if keep[i] {
        count := count + 1;
      }
    }
  }

  /** `simplify_polygon`: twenty halvings of the tolerance, then one last pass. */
  method SimplifyPolygon(pts: seq<Point>, maxVertices: nat) returns (result: seq<Point>)
    ensures result == Simplified(pts, maxVertices)
  {
    if |pts| <= maxVertices {
      return pts;
    }
    var lo, hi := 0.0, 1.0;
    for iter := 0 to ITERATIONS
      invariant Search(pts, maxVertices, lo, hi, ITERATIONS - iter)
             == Search(pts, maxVertices, 0.0, 1.0, ITERATIONS)
    {
      var epsilon := (lo + hi) / 2.0;
      var keep := KeepBits(pts, epsilon);
      var count := CountBits(pts, epsilon, keep);
      if count > maxVertices {
        lo := epsilon;
      } else {
        hi := epsilon;
      }
    }
    var keep := KeepBits(pts, hi);
    result := [];
    for i := 0 to |pts|
      invariant result == Select(pts, hi, i)
    {
      if keep[i] {
        result := result + [pts[i]];
      }
    }
  }

  function HalfPower(n: nat): real {
    if n == 0 then 1.0 else HalfPower(n - 1) / 2.0
  }

  /** Every halving halves the gap. */
  lemma {:induction false} SearchGap(pts: seq<Point>, cap: nat, lo: real, hi: real, n: nat)
    requires pts != [] && lo < hi
    ensures var r := Search(pts, cap, lo, hi, n);
            lo <= r.0 < r.1 <= hi && r.1 - r.0 == (hi - lo) * HalfPower(n)
    decreases n
  {
    if n > 0 {
      var mid := (lo + hi) / 2.0;
      if Fits(pts, mid, cap) {
        SearchGap(pts, cap, lo, mid, n - 1);
      } else {
        SearchGap(pts, cap, mid, hi, n - 1);
      }
      HalvedGap((hi - lo) / 2.0, hi - lo, n);
    }
  }

  lemma HalvedGap(half: real, whole: real, n: nat)
    requires n > 0 && half == whole / 2.0
    ensures half * HalfPower(n - 1) == whole * HalfPower(n)
  {}

  ghost predicate NothingFitsBelow(pts: seq<Point>, cap: nat, lo: real)
    requires pts != []
  {
    forall eps :: 0.0 <= eps < lo ==> !Fits(pts, eps, cap)
  }

  lemma UnfitDownwards(pts: seq<Point>, cap: nat, mid: real)
    requires pts != [] && 0.0 <= mid && !Fits(pts, mid, cap)
    ensures NothingFitsBelow(pts, cap, mid)
  {
    forall eps | 0.0 <= eps < mid ensures !Fits(pts, eps, cap) {
      KeptCountNested(pts, eps, mid, |pts|);
    }
  }

  /** The upper end fits as soon as the first one does, and nothing below the lower end fits. */
  lemma {:induction false} SearchBracket(pts: seq<Point>, cap: nat, lo: real, hi: real, n: nat)
    requires pts != [] && 0.0 <= lo < hi
    requires NothingFitsBelow(pts, cap, lo)
    ensures var r := Search(pts, cap, lo, hi, n);
            (Fits(pts, r.1, cap) <==> Fits(pts, hi, cap)) && NothingFitsBelow(pts, cap, r.0)
    decreases n
  {
    if n > 0 {
      var mid := (lo + hi) / 2.0;
      if Fits(pts, mid, cap) {
        KeptCountNested(pts, mid, hi, |pts|);
        SearchBracket(pts, cap, lo, mid, n - 1);
      } else {
        UnfitDownwards(pts, cap, mid);
        SearchBracket(pts, cap, mid, hi, n - 1);
      }
    }
  }

  /**
   The search meets the cap exactly when tolerance 1 does, and its tolerance is within 2^-20
   of every tolerance that meets it.
   */
  lemma ToleranceNearlySmallest(pts: seq<Point>, cap: nat)
    requires |pts| > cap
    ensures var tol := Tolerance(pts, cap);
            && 0.0 < tol <= 1.0
            && (|Simplified(pts, cap)| <= cap <==> Fits(pts, 1.0, cap))
            && forall eps :: 0.0 <= eps && Fits(pts, eps, cap) ==> eps >= tol - 1.0 / 1048576.0
  {
    SearchBracket(pts, cap, 0.0, 1.0, ITERATIONS);
    SearchGap(pts, cap, 0.0, 1.0, ITERATIONS);
    assert HalfPower(10) == 1.0 / 1024.0;
    assert HalfPower(20) == 1.0 / 1048576.0;
  }

  lemma {:induction false} OnlyEndsCount(pts: seq<Point>, eps: real, n: nat)
    requires pts != [] && n <= |pts| && DpKept(CHORD, pts, 0, |pts| - 1, Square(eps)) == {}
    ensures KeptCount(pts, eps, n) <= if n == 0 then 0 else if n < |pts| then 1 else 2
  {
    if n > 0 {
      OnlyEndsCount(pts, eps, n - 1);
    }
  }

  /** No vertex is farther than one degree from the segment between the ends. */
  ghost predicate NearlyStraight(pts: seq<Point>)
    requires pts != []
  {
    forall i :: 0 < i < |pts| - 1 ==> SegDistSq(pts[i], pts[0], pts[|pts| - 1]) <= 1.0
  }

  /** Such a line always meets its cap. */
  lemma NearlyStraightMeetsCap(pts: seq<Point>, cap: nat)
    requires pts != [] && cap >= 2 && NearlyStraight(pts)
    ensures |Simplified(pts, cap)| <= cap
  {
    if |pts| > cap {
      FlatLineLosesAll(CHORD, pts, 0, |pts| - 1, Square(1.0));
      OnlyEndsCount(pts, 1.0, |pts|);
      ToleranceNearlySmallest(pts, cap);
    }
  }

  /** Every vertex that is left beside the ends was needed at the tolerance of the result. */
  lemma SimplifiedWasNeeded(pts: seq<Point>, cap: nat, i: nat) returns (l: nat, r: nat)
    requires |pts| > cap && 0 < i < |pts| - 1 && Keeps(pts, Tolerance(pts, cap), i)
    ensures l < i < r < |pts| && Keeps(pts, Tolerance(pts, cap), l) && Keeps(pts, Tolerance(pts, cap), r)
    ensures SegDistSq(pts[i], pts[l], pts[r]) > Square(Tolerance(pts, cap))
  {
    l, r := KeptWasNeeded(CHORD, pts, 0, |pts| - 1, Square(Tolerance(pts, cap)), i);
  }

  lemma {:induction false} SelectEnds(pts: seq<Point>, eps: real, n: nat)
    requires 0 < n <= |pts|
    ensures var r := Select(pts, eps, n);
            r != [] && r[0] == pts[0] && (Keeps(pts, eps, n - 1) ==> r[|r| - 1] == pts[n - 1])
  {
    if n > 1 {
      SelectEnds(pts, eps, n - 1);
    }
  }

  /** Both ends survive, so a closed ring with two vertices or more left stays closed. */
  lemma SimplifiedKeepsEnds(pts: seq<Point>, cap: nat)
    requires pts != []
    ensures var r := Simplified(pts, cap);
            r != [] && r[0] == pts[0] && r[|r| - 1] == pts[|pts| - 1]
  {
    if |pts| > cap {
      SelectEnds(pts, Tolerance(pts, cap), |pts|);
    }
  }

  /** Every vertex dropped from the whole line lies within the tolerance of the simplified line. */
  lemma DroppedVertexError(pts: seq<Point>, eps: real, i: nat) returns (l: nat, r: nat)
    requires i < |pts| && !Keeps(pts, eps, i)
    ensures l < i < r < |pts| && Keeps(pts, eps, l) && Keeps(pts, eps, r)
    ensures forall k :: l < k < r ==> !Keeps(pts, eps, k)
    ensures SegDistSq(pts[i], pts[l], pts[r]) <= Square(eps)
  {
    ProductNonNegative(eps, eps);
    l, r := DpErrorBound(CHORD, pts, 0, |pts| - 1, Square(eps), i);
  }
}
