/** House numbers interpolated along a way: the foot point on a polyline and the number there. */
module Interpolation {
  import opened Rings
  import opened Simplify
  import opened StreetSearch
  import opened Wrappers

  // --- project_point_on_polyline ---

  /** The length of a segment; a square root in the server, here any function that is never negative. */
  type LengthOf = (Point, Point) -> real

  /** The squared distance to a segment and the position of the foot point on it. */
  type Measure = (Point, Point) -> (real, real)

  /** The measure of `point_to_segment_with_t`. */
  function ToSegment(q: Query): Measure {
    (a: Point, b: Point) => (SegmentDistance(q, a, b), FootParam(q, a, b))
  }

  ghost predicate FeetOnSegments(m: Measure) {
    forall a: Point, b: Point :: 0.0 <= m(a, b).1 <= 1.0
  }

  lemma ToSegmentFeet(q: Query)
    ensures FeetOnSegments(ToSegment(q))
  {}

  ghost predicate NeverNegative(len: LengthOf) {
    forall a: Point, b: Point :: len(a, b) >= 0.0
  }

  /** Node counts are one byte. */
  const MAX_NODES: nat := 255

  /** The length of the first `n` segments. */
  function PrefixLength(len: LengthOf, nodes: seq<Point>, n: nat): real
    requires n < |nodes| || n == 0
  {
    if n == 0 then 0.0 else PrefixLength(len, nodes, n - 1) + len(nodes[n - 1], nodes[n])
  }

  function TotalLength(len: LengthOf, nodes: seq<Point>): real
    requires nodes != []
  {
    PrefixLength(len, nodes, |nodes| - 1)
  }

  /** Segment `k` is the first nearest of the first `n`. */
  ghost predicate NearestSegment(m: Measure, nodes: seq<Point>, k: nat, n: nat)
    requires n < |nodes|
  {
    && k < n
    && (forall i :: 0 <= i < n ==>
          m(nodes[k], nodes[k + 1]).0 <= m(nodes[i], nodes[i + 1]).0)
    && (forall i :: 0 <= i < k ==>
          m(nodes[k], nodes[k + 1]).0 < m(nodes[i], nodes[i + 1]).0)
  }

  function Times(t: real, x: real): real {
    t * x
  }

  /** A position on a segment as a part of the whole, after `prefix`. */
  function Share(prefix: real, t: real, segment: real, total: real): real
    requires total != 0.0
  {
    (prefix + Times(t, segment)) / total
  }

  /** The position along the whole polyline of the point at parameter `t` of segment `k`. */
  function PositionAt(len: LengthOf, nodes: seq<Point>, k: nat, t: real): real
    requires k + 1 < |nodes| && TotalLength(len, nodes) != 0.0
  {
    Share(PrefixLength(len, nodes, k), t, len(nodes[k], nodes[k + 1]), TotalLength(len, nodes))
  }

  /** The position along the whole polyline of the foot point on segment `k`. */
  function PolylineParam(m: Measure, len: LengthOf, nodes: seq<Point>, k: nat): real
    requires k + 1 < |nodes| && TotalLength(len, nodes) != 0.0
  {
    PositionAt(len, nodes, k, m(nodes[k], nodes[k + 1]).1)
  }

  lemma SelfQuotient(x: real)
    requires x != 0.0
    ensures x / x == 1.0 && 0.0 / x == 0.0
  {}

  /** Positions run from 0 at the first node to 1 at the last, without a gap where segments meet. */
  lemma PositionsRunThrough(len: LengthOf, nodes: seq<Point>, k: nat)
    requires k + 1 < |nodes| && TotalLength(len, nodes) != 0.0
    ensures PositionAt(len, nodes, 0, 0.0) == 0.0 && PositionAt(len, nodes, |nodes| - 2, 1.0) == 1.0
    ensures k + 2 < |nodes| ==> PositionAt(len, nodes, k, 1.0) == PositionAt(len, nodes, k + 1, 0.0)
  {
    SelfQuotient(TotalLength(len, nodes));
    assert Times(0.0, len(nodes[0], nodes[1])) == 0.0;
  }

  lemma ShareGap(prefix: real, t: real, u: real, segment: real, total: real)
    requires total != 0.0
    ensures Share(prefix, u, segment, total) - Share(prefix, t, segment, total) == (u - t) * segment / total
  {
    var x, y := prefix + t * segment, prefix + u * segment;
    assert y - x == (u - t) * segment;
    assert y / total - x / total == (y - x) / total;
  }

  /** Along a segment the position grows by its share of the whole length. */
  lemma PositionIsProportional(len: LengthOf, nodes: seq<Point>, k: nat, t: real, u: real)
    requires k + 1 < |nodes| && TotalLength(len, nodes) != 0.0
    ensures PositionAt(len, nodes, k, u) - PositionAt(len, nodes, k, t)
            == (u - t) * len(nodes[k], nodes[k + 1]) / TotalLength(len, nodes)
  {
    ShareGap(PrefixLength(len, nodes, k), t, u, len(nodes[k], nodes[k + 1]), TotalLength(len, nodes));
  }

  /** The answer is the foot point on the first nearest segment. */
  ghost predicate Projects(m: Measure, len: LengthOf, nodes: seq<Point>, r: Option<(real, real)>, k: nat)
    requires |nodes| >= 2
  {
    if TotalLength(len, nodes) == 0.0 then r == None
    else
      NearestSegment(m, nodes, k, |nodes| - 1)
      && r == Some((m(nodes[k], nodes[k + 1]).0, PolylineParam(m, len, nodes, k)))
  }

  /** The state of the single pass after `n` segments. */
  ghost predicate PassState(
    m: Measure, len: LengthOf, nodes: seq<Point>, n: nat,
    total: real, best: Option<real>, idx: nat, t: real)
    requires n < |nodes|
  {
    && total == PrefixLength(len, nodes, n)
    && (n == 0 ==> best == None)
    && (n > 0 ==> NearestSegment(m, nodes, idx, n) && best == Some(m(nodes[idx], nodes[idx + 1]).0)
                  && t == m(nodes[idx], nodes[idx + 1]).1)
  }

  /** Comparing one more segment keeps the first nearest. */
  lemma PassStep(
    m: Measure, len: LengthOf, nodes: seq<Point>, n: nat, total: real, best: Option<real>, idx: nat, t: real)
    requires n + 1 < |nodes| && PassState(m, len, nodes, n, total, best, idx, t)
    ensures var (dist, segT) := m(nodes[n], nodes[n + 1]);
            var total' := total + len(nodes[n], nodes[n + 1]);
            if best.None? || dist < best.value
            then PassState(m, len, nodes, n + 1, total', Some(dist), n, segT)
            else PassState(m, len, nodes, n + 1, total', best, idx, t)
  {}

  /** The single pass: segment lengths go to the buffer, the nearest segment is remembered. */
  method MeasureSegments(m: Measure, len: LengthOf, nodes: seq<Point>, segLens: array<real>)
    returns (total: real, best: Option<real>, idx: nat, t: real)
    requires 2 <= |nodes| <= segLens.Length
    modifies segLens
    ensures PassState(m, len, nodes, |nodes| - 1, total, best, idx, t)
    ensures forall k :: 0 <= k < |nodes| - 1 ==> segLens[k] == len(nodes[k], nodes[k + 1])
  {
    total, best, idx, t := 0.0, None, 0, 0.0;
    for i := 0 to |nodes| - 1
      invariant PassState(m, len, nodes, i, total, best, idx, t)
      invariant forall k :: 0 <= k < i ==> segLens[k] == len(nodes[k], nodes[k + 1])
    {
      PassStep(m, len, nodes, i, total, best, idx, t);
      var segLen := len(nodes[i], nodes[i + 1]);
      segLens[i] := segLen;
      total := total + segLen;
      var (dist, segT) := m(nodes[i], nodes[i + 1]);
      if best.None? || dist < best.value {
        best, idx, t := Some(dist), i, segT;
      }
    }
  }

  /** One pass over a fixed buffer, then a sum of the lengths before the winner. */
  method ProjectPointOnPolyline(m: Measure, len: LengthOf, nodes: seq<Point>)
    returns (r: Option<(real, real)>, ghost segment: nat)
    requires |nodes| <= MAX_NODES
    ensures |nodes| < 2 ==> r == None
    ensures |nodes| >= 2 ==> Projects(m, len, nodes, r, segment)
  {
    segment := 0;
    if |nodes| < 2 {
      return None, 0;
    }
    var segLens := new real[MAX_NODES](_ => 0.0);
    var totalLen, bestDist, bestIdx, bestT := MeasureSegments(m, len, nodes, segLens);
    if totalLen == 0.0 {
      return None, 0;
    }
    var prefix := 0.0;
    for k := 0 to bestIdx
      invariant prefix == PrefixLength(len, nodes, k)
    {
      prefix := prefix + segLens[k];
    }
    segment := bestIdx;
    r := Some((bestDist.value, Share(prefix, bestT, segLens[bestIdx], totalLen)));
  }

  lemma {:induction false} PrefixMonotone(len: LengthOf, nodes: seq<Point>, m: nat, n: nat)
    requires m <= n < |nodes| && NeverNegative(len)
    ensures 0.0 <= PrefixLength(len, nodes, m) <= PrefixLength(len, nodes, n)
    decreases n
  {
    if m < n {
      PrefixMonotone(len, nodes, m, n - 1);
      assert len(nodes[n - 1], nodes[n]) >= 0.0;
    } else if n > 0 {
      PrefixMonotone(len, nodes, n - 1, n - 1);
      assert len(nodes[n - 1], nodes[n]) >= 0.0;
    }
  }

  lemma PositiveProduct(x: real, y: real)
    requires x > 0.0 && y > 0.0
    ensures x * y > 0.0
  {}

  lemma TimesFraction(t: real, x: real)
    requires 0.0 <= t <= 1.0 && 0.0 <= x
    ensures 0.0 <= Times(t, x) <= x
  {
    ProductNonNegative(t, x);
    ProductNonNegative(1.0 - t, x);
    assert (1.0 - t) * x == x - t * x;
  }

  lemma CancelFactor(x: real, total: real)
    requires total > 0.0
    ensures x * total >= 0.0 ==> x >= 0.0
    ensures x * total <= total ==> x <= 1.0
  {
    if x < 0.0 {
      PositiveProduct(-x, total);
      assert -x * total == -(x * total);
    } else if x > 1.0 {
      PositiveProduct(x - 1.0, total);
      assert (x - 1.0) * total == x * total - total;
    }
  }

  lemma PartOfTotal(part: real, total: real)
    requires 0.0 <= part <= total && total > 0.0
    ensures 0.0 <= part / total <= 1.0
  {
    assert part / total * total == part;
    CancelFactor(part / total, total);
  }

  lemma Fraction(prefix: real, t: real, segment: real, total: real)
    requires 0.0 <= prefix && 0.0 <= t <= 1.0 && 0.0 <= segment
    requires prefix + segment <= total && total > 0.0
    ensures 0.0 <= Share(prefix, t, segment, total) <= 1.0
  {
    TimesFraction(t, segment);
    PartOfTotal(prefix + Times(t, segment), total);
  }

  /** The parameter never leaves the way. */
  lemma ParamInRange(m: Measure, len: LengthOf, nodes: seq<Point>, k: nat)
    requires k + 1 < |nodes| && NeverNegative(len) && TotalLength(len, nodes) != 0.0
    requires FeetOnSegments(m)
    ensures 0.0 <= PolylineParam(m, len, nodes, k) <= 1.0
  {
    PrefixMonotone(len, nodes, k, k + 1);
    PrefixMonotone(len, nodes, k + 1, |nodes| - 1);
    Fraction(PrefixLength(len, nodes, k), m(nodes[k], nodes[k + 1]).1,
             len(nodes[k], nodes[k + 1]), TotalLength(len, nodes));
  }

  /** The distance on the map to the point at parameter `t` of segment `i`. */
  function DistanceOn(q: Query, nodes: seq<Point>, i: nat, t: real): real
    requires i + 1 < |nodes|
  {
    MapDistance(q, q.point, Lerp(nodes[i], nodes[i + 1], t))
  }

  /**
   With the server's own measure: the position is between 0 and 1, and no point of the whole
   polyline is nearer than the distance reported.
   */
  lemma ProjectionIsNearest(q: Query, len: LengthOf, nodes: seq<Point>, r: Option<(real, real)>, k: nat)
    requires |nodes| >= 2 && Projects(ToSegment(q), len, nodes, r, k)
    requires NeverNegative(len) && q.scale >= 0.0
    ensures r.Some? ==> 0.0 <= r.value.1 <= 1.0
    ensures r.Some? ==> forall i: nat, t :: i + 1 < |nodes| && 0.0 <= t <= 1.0 ==>
                          r.value.0 <= DistanceOn(q, nodes, i, t)
  {
    if r.Some? {
      ToSegmentFeet(q);
      ParamInRange(ToSegment(q), len, nodes, k);
      forall i: nat, t | i + 1 < |nodes| && 0.0 <= t <= 1.0
        ensures r.value.0 <= DistanceOn(q, nodes, i, t)
      {
        SegmentDistanceIsMinimum(q, nodes[i], nodes[i + 1], t);
        assert r.value.0 <= ToSegment(q)(nodes[i], nodes[i + 1]).0;
      }
    }
  }

  // --- The number at a parameter ---

  const U32_LIMIT: int := 0x1_0000_0000

  /** Rounds to the nearest integer, halves away from zero. */
  function Round(x: real): int {
    if x >= 0.0 then (x + 0.5).Floor else -(-x + 0.5).Floor
  }

  /** A cast to 32 bits that saturates at both ends. */
  function ToU32(n: int): (r: nat)
    ensures r < U32_LIMIT
  {
    if n < 0 then 0 else if n >= U32_LIMIT then U32_LIMIT - 1 else n
  }

  /** Odd and even interpolations count by two, all others by one. */
  function Step(interpolation: nat): nat {
    if interpolation == 1 || interpolation == 2 then 2 else 1
  }

  /** The unrounded number at parameter `t`. */
  function Raw(start: real, end: real, t: real): real {
    start + t * (end - start)
  }

  /** The house number `query_geo` reports; 32-bit arithmetic wraps around. */
  function NumberAt(start: nat, end: nat, step: nat, t: real): nat {
    var s, e := start as real, end as real;
    var raw := Raw(s, e, t);
    if step == 2 then
      var offset := ToU32(Round((raw - s) / 2.0)) * 2;
      (start + offset) % U32_LIMIT
    else ToU32(Round(raw))
  }

  lemma RawBetween(start: real, end: real, t: real)
    requires 0.0 <= t <= 1.0
    ensures start <= end ==> start <= Raw(start, end, t) <= end
    ensures end <= start ==> end <= Raw(start, end, t) <= start
  {
    if start <= end {
      TimesFraction(t, end - start);
    } else {
      assert t * (end - start) == -(t * (start - end));
      TimesFraction(t, start - end);
    }
  }

  lemma RoundBetween(low: nat, high: nat, x: real)
    ensures low as real <= x <= high as real ==> low <= Round(x) <= high
  {}

  /** Counting by one, the number lies between the ends, in either direction. */
  lemma EveryNumberBetween(start: nat, end: nat, t: real)
    requires start < U32_LIMIT && end < U32_LIMIT && 0.0 <= t <= 1.0
    ensures start <= end ==> start <= NumberAt(start, end, 1, t) <= end
    ensures end <= start ==> end <= NumberAt(start, end, 1, t) <= start
  {
    var s, e := start as real, end as real;
    RawBetween(s, e, t);
    var raw := Raw(s, e, t);
    assert s <= e ==> s <= raw <= e;
    assert e <= s ==> e <= raw <= s;
    RoundBetween(start, end, raw);
    RoundBetween(end, start, raw);
  }

  /** Rounding moves a number by a half at most, and two numbers never past each other. */
  lemma RoundIsNear(x: real, y: real)
    ensures -0.5 <= Round(x) as real - x <= 0.5
    ensures x <= y ==> Round(x) <= Round(y)
    ensures x == x.Floor as real ==> Round(x) == x.Floor
  {}

  lemma RawMonotone(start: real, end: real, t: real, u: real)
    requires t <= u
    ensures start <= end ==> Raw(start, end, t) <= Raw(start, end, u)
    ensures end <= start ==> Raw(start, end, u) <= Raw(start, end, t)
    ensures Raw(start, end, 0.0) == start && Raw(start, end, 1.0) == end
  {
    assert Raw(start, end, u) - Raw(start, end, t) == (u - t) * (end - start);
    if start <= end {
      ProductNonNegative(u - t, end - start);
    } else {
      ProductNonNegative(u - t, start - end);
      assert (u - t) * (start - end) == -((u - t) * (end - start));
    }
  }

  lemma CountingByOne(start: nat, end: nat, t: real)
    requires start < U32_LIMIT && end < U32_LIMIT && 0.0 <= t <= 1.0
    ensures NumberAt(start, end, 1, t) == Round(Raw(start as real, end as real, t))
  {
    RawBetween(start as real, end as real, t);
    RoundBetween(start, end, Raw(start as real, end as real, t));
    RoundBetween(end, start, Raw(start as real, end as real, t));
  }

  /**
   Counting by one, the number is the nearest to the unrounded one, is that of the end at either end,
   and follows the way from one to the other.
   */
  lemma NearestNumber(start: nat, end: nat, t: real, u: real)
    requires start < U32_LIMIT && end < U32_LIMIT && 0.0 <= t <= u <= 1.0
    ensures -0.5 <= NumberAt(start, end, 1, t) as real - Raw(start as real, end as real, t) <= 0.5
    ensures NumberAt(start, end, 1, 0.0) == start && NumberAt(start, end, 1, 1.0) == end
    ensures start <= end ==> NumberAt(start, end, 1, t) <= NumberAt(start, end, 1, u)
    ensures end <= start ==> NumberAt(start, end, 1, u) <= NumberAt(start, end, 1, t)
  {
    var s, e := start as real, end as real;
    CountingByOne(start, end, t);
    CountingByOne(start, end, u);
    CountingByOne(start, end, 0.0);
    CountingByOne(start, end, 1.0);
    RawMonotone(s, e, t, u);
    RoundIsNear(Raw(s, e, t), Raw(s, e, u));
    RoundIsNear(Raw(s, e, u), Raw(s, e, t));
    RoundIsNear(s, e);
    RoundIsNear(e, s);
  }

  /** How many steps of two the parameter has gone on an ascending way. */
  function StepsAt(start: nat, end: nat, t: real): int {
    (t * (end as real - start as real) / 2.0 + 0.5).Floor
  }

  lemma AscendingNumber(start: nat, end: nat, t: real)
    requires start <= end < U32_LIMIT && 0.0 <= t <= 1.0
    ensures 0 <= 2 * StepsAt(start, end, t) <= end - start + 1
    ensures NumberAt(start, end, 2, t) == (start + 2 * StepsAt(start, end, t)) % U32_LIMIT
  {
    var gone := t * (end as real - start as real);
    TimesFraction(t, end as real - start as real);
    var half := gone / 2.0;
    assert 0.0 <= half <= (end - start) as real / 2.0;
    assert Round(half) == StepsAt(start, end, t);
    assert ToU32(Round(half)) == Round(half);
  }

  lemma EvenSteps(start: nat, end: nat, steps: int)
    requires start <= end < U32_LIMIT && (end - start) % 2 == 0 && 0 <= 2 * steps <= end - start + 1
    ensures start + 2 * steps <= end && (start + 2 * steps) % 2 == start % 2
    ensures (start + 2 * steps) % U32_LIMIT == start + 2 * steps
  {}

  /** Counting by two up to an end of the same parity, the number keeps parity and range. */
  lemma EvenSpanInRange(start: nat, end: nat, t: real)
    requires start <= end < U32_LIMIT && (end - start) % 2 == 0 && 0.0 <= t <= 1.0
    ensures NumberAt(start, end, 2, t) % 2 == start % 2
    ensures start <= NumberAt(start, end, 2, t) <= end
  {
    AscendingNumber(start, end, t);
    EvenSteps(start, end, StepsAt(start, end, t));
  }

  /** And it is never more than one off the unrounded number, whichever of the two kinds the way is of. */
  lemma EvenSpanNearest(start: nat, end: nat, interpolation: nat, t: real)
    requires start <= end < U32_LIMIT && (end - start) % 2 == 0 && 0.0 <= t <= 1.0
    requires interpolation == 1 || interpolation == 2
    ensures var number := NumberAt(start, end, Step(interpolation), t);
            -1.0 <= number as real - Raw(start as real, end as real, t) <= 1.0
  {
    AscendingNumber(start, end, t);
    EvenSteps(start, end, StepsAt(start, end, t));
    var half := t * (end as real - start as real) / 2.0;
    assert -0.5 <= StepsAt(start, end, t) as real - half <= 0.5;
  }

  /** Ways of any other kind count by one. */
  lemma OtherKindsCountByOne(interpolation: nat)
    ensures Step(interpolation) == 1 <==> interpolation != 1 && interpolation != 2
  {}

  lemma StepsMonotone(start: nat, end: nat, t: real, u: real)
    requires start <= end && t <= u
    ensures StepsAt(start, end, t) <= StepsAt(start, end, u)
  {
    var span := end as real - start as real;
    assert 0.0 <= (u - t) * span;
    assert u * span == t * span + (u - t) * span;
    var x, y := t * span / 2.0 + 0.5, u * span / 2.0 + 0.5;
    assert x <= y;
    assert x.Floor <= y.Floor;
  }

  /** And it never goes back as the parameter grows. */
  lemma EvenSpanMonotone(start: nat, end: nat, t: real, u: real)
    requires start <= end < U32_LIMIT && (end - start) % 2 == 0 && 0.0 <= t <= u <= 1.0
    ensures NumberAt(start, end, 2, t) <= NumberAt(start, end, 2, u)
  {
    AscendingNumber(start, end, t);
    AscendingNumber(start, end, u);
    StepsMonotone(start, end, t, u);
    EvenSteps(start, end, StepsAt(start, end, t));
    EvenSteps(start, end, StepsAt(start, end, u));
  }

  /** Counting by two downwards, the offset saturates: the number is the start, everywhere. */
  lemma DescendingStaysAtStart(start: nat, end: nat, t: real)
    requires end < start < U32_LIMIT && 0.0 <= t <= 1.0
    ensures NumberAt(start, end, 2, t) == start
  {
    var s, e := start as real, end as real;
    RawBetween(s, e, t);
    var raw := Raw(s, e, t);
    assert e <= raw <= s;
    assert Round((raw - s) / 2.0) <= 0;
  }

  /** The number at the far end is the end number exactly for ascending ways of even span. */
  lemma FarEndReached(start: nat, end: nat)
    requires 0 < start < U32_LIMIT && 0 < end < U32_LIMIT
    ensures NumberAt(start, end, 2, 0.0) == start
    ensures NumberAt(start, end, 2, 1.0) == end <==> start <= end && (end - start) % 2 == 0
  {
    if start <= end {
      AscendingNumber(start, end, 0.0);
      AscendingNumber(start, end, 1.0);
      FullSteps(start, end);
    } else {
      DescendingStaysAtStart(start, end, 0.0);
      DescendingStaysAtStart(start, end, 1.0);
    }
  }

  lemma FullSteps(start: nat, end: nat)
    requires start <= end
    ensures StepsAt(start, end, 0.0) == 0
    ensures StepsAt(start, end, 1.0) == (end - start + 1) / 2
  {
    var span := end - start;
    assert StepsAt(start, end, 1.0) == (span as real / 2.0 + 0.5).Floor;
    if span % 2 == 0 {
      var h := span / 2;
      assert span as real / 2.0 == h as real;
    } else {
      var h := span / 2;
      assert span == 2 * h + 1;
      assert span as real / 2.0 == h as real + 0.5;
    }
  }

  /** An ascending way of odd span overshoots its end, and it is the only kind that leaves the range. */
  lemma RangeKeptExactlyForEvenSpan(start: nat, end: nat)
    requires 0 < start <= end < U32_LIMIT
    ensures (forall t: real :: 0.0 <= t <= 1.0 ==> start <= NumberAt(start, end, 2, t) <= end)
            <==> (end - start) % 2 == 0
  {
    if (end - start) % 2 == 0 {
      forall t: real | 0.0 <= t <= 1.0 ensures start <= NumberAt(start, end, 2, t) <= end {
        EvenSpanInRange(start, end, t);
      }
    } else {
      AscendingNumber(start, end, 1.0);
      FullSteps(start, end);
      assert start + 2 * StepsAt(start, end, 1.0) == end + 1;
      var far := NumberAt(start, end, 2, 1.0);
      assert !(start <= far <= end);
    }
  }
}
