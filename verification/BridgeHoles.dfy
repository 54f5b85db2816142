/**
 The builder's `bridge_holes`: every hole is written into the outer ring as a detour that
 leaves an outer vertex, walks the hole and comes back over the same bridge.
 */
module BridgeHoles {
  import opened Rings
  import opened SignedAreas
  import opened Wrappers

  /** `k` is the first vertex of `outer` that is nearest to `p`. */
  ghost predicate IsFirstNearest(outer: Ring, p: Point, k: nat) {
    && k < |outer|
    && (forall i :: 0 <= i < |outer| ==> DistSq(outer[k], p) <= DistSq(outer[i], p))
    && (forall i :: 0 <= i < k ==> DistSq(outer[k], p) < DistSq(outer[i], p))
  }

  /** The first vertex nearest to `p` among the first `n` vertices of `outer`. */
  function FirstNearest(outer: SolidRing, p: Point, n: nat): (k: nat)
    requires 0 < n <= |outer|
    ensures IsFirstNearest(outer[..n], p, k)
  {
    if n == 1 then 0
    else
      var k := FirstNearest(outer, p, n - 1);
      if DistSq(outer[n - 1], p) < DistSq(outer[k], p) then n - 1 else k
  }

  /** The hole as it is walked: open, and running against the outer ring. */
  function OrientHole(hole: SolidRing, outerCcw: bool): (r: SolidRing)
    ensures |r| == |OpenRing(hole)|
  {
    var open := OpenRing(hole);
    if (SignedArea(open) > 0.0) == outerCcw then Reverse(open) else open
  }

  /** The holes attached to each vertex of `outer`, in the order of `holes`. */
  function Attach(outer: SolidRing, holes: seq<SolidRing>, outerCcw: bool): (attached: seq<seq<SolidRing>>)
    ensures |attached| == |outer|
  {
    if holes == [] then seq(|outer|, _ => [])
    else
      var attached := Attach(outer, holes[..|holes| - 1], outerCcw);
      var hole := OrientHole(holes[|holes| - 1], outerCcw);
      var k := FirstNearest(outer, hole[0], |outer|);
      attached[k := attached[k] + [hole]]
  }

  /** The detour from `at` over the bridge, around `hole` and back. */
  function Detour(at: Point, hole: SolidRing): Ring
  {
    hole + [hole[0], at]
  }

  function Detours(at: Point, holes: seq<SolidRing>): Ring
  {
    if holes == [] then []
    else Detours(at, holes[..|holes| - 1]) + Detour(at, holes[|holes| - 1])
  }

  /** The bridged path through the first `n` outer vertices. */
  function Weave(outer: SolidRing, attached: seq<seq<SolidRing>>, n: nat): Ring
    requires n <= |outer| == |attached|
  {
    if n == 0 then []
    else Weave(outer, attached, n - 1) + [outer[n - 1]] + Detours(outer[n - 1], attached[n - 1])
  }

  /** The ring the builder stores for an outer ring with holes. */
  function Bridged(outer: SolidRing, holes: seq<SolidRing>): Ring
  {
    var open := OpenRing(outer);
    Weave(open, Attach(open, holes, SignedArea(open) > 0.0), |open|) + [open[0]]
  }

  /** The loop of `bridge_holes` that looks for the vertex to bridge from. */
  method NearestVertex(outer: SolidRing, p: Point) returns (nearest: nat)
    ensures nearest == FirstNearest(outer, p, |outer|)
  {
    nearest := 0;
    var best: Option<real> := None;
    for i := 0 to |outer|
      invariant i == 0 ==> best == None
      invariant i > 0 ==> nearest == FirstNearest(outer, p, i) && best == Some(DistSq(outer[nearest], p))
    {
      var d := DistSq(outer[i], p);
      if best == None || d < best.value {
        best, nearest := Some(d), i;
      }
    }
  }

  /** The loop of `bridge_holes` that hands every hole to its vertex. */
  method AttachHoles(outer: SolidRing, holes: seq<SolidRing>, outerCcw: bool)
    returns (attached: seq<seq<SolidRing>>)
    ensures attached == Attach(outer, holes, outerCcw)
  {
    attached := seq(|outer|, _ => []);
    for j := 0 to |holes|
      invariant attached == Attach(outer, holes[..j], outerCcw)
    {
      var hole: SolidRing := OpenRing(holes[j]);
      var area := PolygonSignedArea(hole);
      if (area > 0.0) == outerCcw {
        hole := Reverse(hole);
      }
      var nearest := NearestVertex(outer, hole[0]);
      assert holes[..j + 1][..j] == holes[..j];
      attached := attached[nearest := attached[nearest] + [hole]];
    }
    assert holes[..|holes|] == holes;
  }

  /** `bridge_holes` itself: attach, then write the outer ring with the detours in place. */
  method BridgeRing(outerIn: SolidRing, holes: seq<SolidRing>) returns (ring: Ring)
    ensures ring == Bridged(outerIn, holes)
  {
    var outer: SolidRing := OpenRing(outerIn);
    var area := PolygonSignedArea(outer);
    var attached := AttachHoles(outer, holes, area > 0.0);
    ring := [];
    for i := 0 to |outer|
      invariant ring == Weave(outer, attached, i)
    {
      ring := ring + [outer[i]];
      var detours := WriteDetours(outer[i], attached[i]);
      ring := ring + detours;
    }
    ring := ring + [outer[0]];
  }

  /** The inner loop: what is written after an outer vertex for the holes attached to it. */
  method WriteDetours(at: Point, holes: seq<SolidRing>) returns (ring: Ring)
    ensures ring == Detours(at, holes)
  {
    ring := [];
    for h := 0 to |holes|
      invariant ring == Detours(at, holes[..h])
    {
      var hole := holes[h];
      assert holes[..h + 1][..h] == holes[..h];
      ghost var was := ring;
      ring := ring + hole;
      ring := ring + [hole[0]];
      ring := ring + [at];
      assert ring == was + Detour(at, hole);
    }
    assert holes[..|holes|] == holes;
  }

  // --- Sums over the bridged ring ---

  /** What walking a detour adds to a sum. */
  function DetourSum(w: EdgeWeight, at: Point, hole: SolidRing): real
  {
    CycleSum(w, hole) + w(at, hole[0]) + w(hole[0], at)
  }

  function DetoursSum(w: EdgeWeight, at: Point, holes: seq<SolidRing>): real
  {
    if holes == [] then 0.0
    else DetoursSum(w, at, holes[..|holes| - 1]) + DetourSum(w, at, holes[|holes| - 1])
  }

  function WovenSum(w: EdgeWeight, outer: SolidRing, attached: seq<seq<SolidRing>>, n: nat): real
    requires n <= |outer| == |attached|
  {
    if n == 0 then 0.0
    else WovenSum(w, outer, attached, n - 1) + DetoursSum(w, outer[n - 1], attached[n - 1])
  }

  /** The detours of all holes, each from the outer vertex nearest to its first vertex. */
  function AllDetoursSum(w: EdgeWeight, outer: SolidRing, holes: seq<SolidRing>, outerCcw: bool): real
  {
    if holes == [] then 0.0
    else
      var hole := OrientHole(holes[|holes| - 1], outerCcw);
      var k := FirstNearest(outer, hole[0], |outer|);
      AllDetoursSum(w, outer, holes[..|holes| - 1], outerCcw) + DetourSum(w, outer[k], hole)
  }

  lemma DetourLoopSum(w: EdgeWeight, at: Point, hole: SolidRing)
    ensures PathSum(w, Detour(at, hole)) == CycleSum(w, hole) + w(hole[0], at)
  {
    var loop := hole + [hole[0]];
    CycleSumWrapLast(w, hole);
    PathSumAppend(w, loop, at);
    assert Detour(at, hole) == loop + [at];
  }

  lemma DetourPathSum(w: EdgeWeight, path: seq<Point>, at: Point, hole: SolidRing)
    requires path != [] && path[|path| - 1] == at
    ensures PathSum(w, path + Detour(at, hole)) == PathSum(w, path) + DetourSum(w, at, hole)
  {
    PathSumConcat(w, path, Detour(at, hole));
    DetourLoopSum(w, at, hole);
  }

  lemma {:induction false} DetoursPathSum(w: EdgeWeight, path: seq<Point>, holes: seq<SolidRing>)
    requires path != []
    ensures var at := path[|path| - 1];
            var walked := path + Detours(at, holes);
            PathSum(w, walked) == PathSum(w, path) + DetoursSum(w, at, holes)
            && walked[|walked| - 1] == at
  {
    var at := path[|path| - 1];
    if holes == [] {
      assert path + Detours(at, holes) == path;
    } else {
      var front, hole := holes[..|holes| - 1], holes[|holes| - 1];
      DetoursPathSum(w, path, front);
      var walked := path + Detours(at, front);
      DetourPathSum(w, walked, at, hole);
      assert path + Detours(at, holes) == walked + Detour(at, hole);
    }
  }

  lemma {:induction false} WeavePathSum(w: EdgeWeight, outer: SolidRing, attached: seq<seq<SolidRing>>, n: nat)
    requires 0 < n <= |outer| == |attached|
    ensures var ring := Weave(outer, attached, n);
            ring != [] && ring[0] == outer[0] && ring[|ring| - 1] == outer[n - 1]
            && PathSum(w, ring) == PathSum(w, outer[..n]) + WovenSum(w, outer, attached, n)
  {
    var before := Weave(outer, attached, n - 1);
    var path := before + [outer[n - 1]];
    DetoursPathSum(w, path, attached[n - 1]);
    if n == 1 {
      assert path == outer[..1];
      assert WovenSum(w, outer, attached, 0) == 0.0;
    } else {
      WeavePathSum(w, outer, attached, n - 1);
      PathSumConcat(w, before, [outer[n - 1]]);
      assert outer[..n] == outer[..n - 1] + [outer[n - 1]];
      PathSumConcat(w, outer[..n - 1], [outer[n - 1]]);
    }
  }

  lemma {:induction false} WovenSumUpdate(
    w: EdgeWeight, outer: SolidRing, attached: seq<seq<SolidRing>>, k: nat, hole: SolidRing, n: nat)
    requires n <= |outer| == |attached| && k < |outer|
    ensures var more := attached[k := attached[k] + [hole]];
            WovenSum(w, outer, more, n)
               == WovenSum(w, outer, attached, n) + (if k < n then DetourSum(w, outer[k], hole) else 0.0)
  {
    var more := attached[k := attached[k] + [hole]];
    if n > 0 {
      WovenSumUpdate(w, outer, attached, k, hole, n - 1);
      if k == n - 1 {
        assert more[k][..|more[k]| - 1] == attached[k];
      }
    }
  }

  lemma {:induction false} WovenSumEmpty(w: EdgeWeight, outer: SolidRing, attached: seq<seq<SolidRing>>, n: nat)
    requires n <= |outer| == |attached|
    requires forall i :: 0 <= i < |attached| ==> attached[i] == []
    ensures WovenSum(w, outer, attached, n) == 0.0
  {
    if n > 0 {
      WovenSumEmpty(w, outer, attached, n - 1);
    }
  }

  lemma {:induction false} AttachSum(w: EdgeWeight, outer: SolidRing, holes: seq<SolidRing>, outerCcw: bool)
    ensures WovenSum(w, outer, Attach(outer, holes, outerCcw), |outer|)
            == AllDetoursSum(w, outer, holes, outerCcw)
  {
    if holes == [] {
      WovenSumEmpty(w, outer, Attach(outer, holes, outerCcw), |outer|);
    } else {
      var front := holes[..|holes| - 1];
      var hole := OrientHole(holes[|holes| - 1], outerCcw);
      var k := FirstNearest(outer, hole[0], |outer|);
      AttachSum(w, outer, front, outerCcw);
      WovenSumUpdate(w, outer, Attach(outer, front, outerCcw), k, hole, |outer|);
    }
  }

  /** Any edge sum over the bridged ring splits into the outer ring and one detour per hole. */
  lemma BridgedSum(w: EdgeWeight, outer: SolidRing, holes: seq<SolidRing>)
    requires FlatOnLoops(w)
    ensures var open := OpenRing(outer);
            CycleSum(w, Bridged(outer, holes))
            == CycleSum(w, outer) + AllDetoursSum(w, open, holes, SignedArea(open) > 0.0)
  {
    var open := OpenRing(outer);
    var ccw := SignedArea(open) > 0.0;
    var attached := Attach(open, holes, ccw);
    var woven := Weave(open, attached, |open|);
    WeavePathSum(w, open, attached, |open|);
    AttachSum(w, open, holes, ccw);
    assert open[..|open|] == open;
    PathSumConcat(w, woven, [open[0]]);
    CycleSumWrapLast(w, woven + [open[0]]);
    CycleSumWrapLast(w, open);
    CycleSumOpenRing(w, outer);
    assert w(open[0], open[0]) == 0.0;
  }
}
