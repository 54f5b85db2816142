/**
 The part of `cover_polygon` that decides which holes a polygon keeps: what the geometry library
 rejects is taken out of the caller's list before the ring is bridged.
 */
module HoleCover {
  import opened EvenOdd
  import opened Rings

  /** What the builder asks the geometry library. */
  datatype Geometry = Geometry(
    distinctPoints: Ring -> nat,                // the points of a ring, without repetitions
    valid: Ring -> bool,                        // the ring is a loop that does not cross itself
    contains: (Ring, Ring) -> bool,             // the first loop contains the second
    meets: (Ring, Ring) -> bool,                // their bounds and their insides intersect
    nests: (Ring, seq<SolidRing>) -> bool)      // outer loop and holes make a valid polygon

  /** Every vertex of the hole is in the ring, by the planar test. */
  predicate AllInside(hole: Ring, outer: Ring) {
    forall i :: 0 <= i < |hole| ==> Inside(hole[i], outer)
  }

  /** The hole meets none of those taken so far. */
  predicate Apart(g: Geometry, taken: seq<SolidRing>, hole: SolidRing) {
    forall i :: 0 <= i < |taken| ==> !g.meets(taken[i], hole)
  }

  /** The checks of one hole; only a valid outer loop can be asked whether it contains the hole. */
  predicate Passes(g: Geometry, outer: Ring, taken: seq<SolidRing>, hole: SolidRing) {
    && g.distinctPoints(hole) >= 3 && g.valid(hole)
    && (if g.valid(outer) then g.contains(outer, hole) else AllInside(hole, outer))
    && Apart(g, taken, hole)
  }

  /** The holes that pass when they are taken in order. */
  function Passing(g: Geometry, outer: Ring, holes: seq<SolidRing>): seq<SolidRing> {
    if holes == [] then []
    else
      var taken, last := Passing(g, outer, holes[..|holes| - 1]), holes[|holes| - 1];
      if Passes(g, outer, taken, last) then taken + [last] else taken
  }

  /** The holes that leave the polygon valid when they are added in order. */
  function Nesting(g: Geometry, outer: Ring, holes: seq<SolidRing>): seq<SolidRing> {
    if holes == [] then []
    else
      var good, last := Nesting(g, outer, holes[..|holes| - 1]), holes[|holes| - 1];
      if g.nests(outer, good + [last]) then good + [last] else good
  }

  /** The holes that are left; an outer ring without three points leaves the list alone. */
  function Usable(g: Geometry, outer: Ring, holes: seq<SolidRing>): seq<SolidRing> {
    if g.distinctPoints(outer) < 3 then holes
    else
      var passing := Passing(g, outer, holes);
      if g.valid(outer) && !g.nests(outer, passing) then Nesting(g, outer, passing) else passing
  }

  method MeetsNone(g: Geometry, taken: seq<SolidRing>, hole: SolidRing) returns (ok: bool)
    ensures ok <==> Apart(g, taken, hole)
  {
    for i := 0 to |taken|
      invariant forall k :: 0 <= k < i ==> !g.meets(taken[k], hole)
    {
      if g.meets(taken[i], hole) {
        return false;
      }
    }
    return true;
  }

  method LiesInside(hole: Ring, outer: Ring) returns (ok: bool)
    ensures ok <==> AllInside(hole, outer)
  {
    for i := 0 to |hole|
      invariant forall k :: 0 <= k < i ==> Inside(hole[k], outer)
    {
      var inside := PointInPolygon(hole[i], outer);
      if !inside {
        return false;
      }
    }
    return true;
  }

  method CheckHole(g: Geometry, outer: Ring, outerValid: bool, taken: seq<SolidRing>, hole: SolidRing)
    returns (ok: bool)
    requires outerValid == g.valid(outer)
    ensures ok <==> Passes(g, outer, taken, hole)
  {
    if g.distinctPoints(hole) < 3 {
      return false;
    }
    ok := g.valid(hole);
    if ok && outerValid {
      ok := g.contains(outer, hole);
    }
    if ok && !outerValid {
      ok := LiesInside(hole, outer);
    }
    if ok {
      ok := MeetsNone(g, taken, hole);
    }
  }

  /** The loop over the holes one by one, and where the whole is not valid the loop that adds them again. */
  method CoverHoles(g: Geometry, outer: Ring, holes: seq<SolidRing>) returns (kept: seq<SolidRing>)
    ensures kept == Usable(g, outer, holes)
  {
    if g.distinctPoints(outer) < 3 {
      return holes;
    }
    var outerValid := g.valid(outer);
    kept := [];
    for i := 0 to |holes|
      invariant kept == Passing(g, outer, holes[..i])
    {
      assert holes[..i + 1][..i] == holes[..i];
      var ok := CheckHole(g, outer, outerValid, kept, holes[i]);
      if ok {
        kept := kept + [holes[i]];
      }
    }
    assert holes[..|holes|] == holes;
    if outerValid && !g.nests(outer, kept) {
      var good: seq<SolidRing> := [];
      for i := 0 to |kept|
        invariant good == Nesting(g, outer, kept[..i])
      {
        assert kept[..i + 1][..i] == kept[..i];
        if g.nests(outer, good + [kept[i]]) {
          good := good + [kept[i]];
        }
      }
      assert kept[..|kept|] == kept;
      kept := good;
    }
  }

  // --- What is left of a list ---

  /** `part` is `all` without some of its rings, in the same order. */
  ghost predicate Thinned(part: seq<SolidRing>, all: seq<SolidRing>) {
    if all == [] then part == []
    else
      || Thinned(part, all[..|all| - 1])
      || (part != [] && part[|part| - 1] == all[|all| - 1] && Thinned(part[..|part| - 1], all[..|all| - 1]))
  }

  lemma ThinnedMore(part: seq<SolidRing>, all: seq<SolidRing>, last: SolidRing)
    requires Thinned(part, all)
    ensures Thinned(part, all + [last]) && Thinned(part + [last], all + [last])
  {
    assert (all + [last])[..|all|] == all && (part + [last])[..|part|] == part;
  }

  lemma {:induction false} ThinnedSelf(all: seq<SolidRing>)
    ensures Thinned(all, all)
  {
    if all != [] {
      ThinnedSelf(all[..|all| - 1]);
    }
  }

  lemma {:induction false} ThinnedTwice(a: seq<SolidRing>, b: seq<SolidRing>, c: seq<SolidRing>)
    requires Thinned(a, b) && Thinned(b, c)
    ensures Thinned(a, c)
    decreases |c|
  {
    if c != [] {
      var front := c[..|c| - 1];
      if Thinned(b, front) {
        ThinnedTwice(a, b, front);
      } else if Thinned(a, b[..|b| - 1]) {
        ThinnedTwice(a, b[..|b| - 1], front);
      } else {
        ThinnedTwice(a[..|a| - 1], b[..|b| - 1], front);
      }
    }
  }

  lemma {:induction false} PassingThins(g: Geometry, outer: Ring, holes: seq<SolidRing>)
    ensures Thinned(Passing(g, outer, holes), holes)
  {
    if holes != [] {
      var front, last := holes[..|holes| - 1], holes[|holes| - 1];
      PassingThins(g, outer, front);
      ThinnedMore(Passing(g, outer, front), front, last);
      assert holes == front + [last];
    }
  }

  lemma {:induction false} NestingThins(g: Geometry, outer: Ring, holes: seq<SolidRing>)
    ensures Thinned(Nesting(g, outer, holes), holes)
  {
    if holes != [] {
      var front, last := holes[..|holes| - 1], holes[|holes| - 1];
      NestingThins(g, outer, front);
      ThinnedMore(Nesting(g, outer, front), front, last);
      assert holes == front + [last];
    }
  }

  /** The usable holes are some of the holes, in the same order. */
  lemma UsableThins(g: Geometry, outer: Ring, holes: seq<SolidRing>)
    ensures Thinned(Usable(g, outer, holes), holes)
  {
    ThinnedSelf(holes);
    PassingThins(g, outer, holes);
    NestingThins(g, outer, Passing(g, outer, holes));
    ThinnedTwice(Nesting(g, outer, Passing(g, outer, holes)), Passing(g, outer, holes), holes);
  }

  lemma {:induction false} ThinnedLength(part: seq<SolidRing>, all: seq<SolidRing>)
    requires Thinned(part, all)
    ensures |part| <= |all| && (|part| == |all| ==> part == all)
  {
    if all != [] {
      var front := all[..|all| - 1];
      if Thinned(part, front) {
        ThinnedLength(part, front);
      } else {
        ThinnedLength(part[..|part| - 1], front);
      }
    }
  }

  /** Each hole passes the checks beside those before it. */
  ghost predicate EachPasses(g: Geometry, outer: Ring, holes: seq<SolidRing>) {
    forall k :: 0 <= k < |holes| ==> Passes(g, outer, holes[..k], holes[k])
  }

  lemma EachPassesMore(g: Geometry, outer: Ring, front: seq<SolidRing>, last: SolidRing)
    ensures EachPasses(g, outer, front + [last]) <==> EachPasses(g, outer, front) && Passes(g, outer, front, last)
  {
    var all := front + [last];
    assert forall k :: 0 <= k <= |front| ==> all[..k] == front[..k];
    assert front[..|front|] == front;
    assert forall k :: 0 <= k < |front| ==> all[k] == front[k];
    if EachPasses(g, outer, all) {
      assert Passes(g, outer, all[..|front|], all[|front|]);
      forall k | 0 <= k < |front| ensures Passes(g, outer, front[..k], front[k]) {
        assert Passes(g, outer, all[..k], all[k]);
      }
    }
  }

  lemma {:induction false} PassingPasses(g: Geometry, outer: Ring, holes: seq<SolidRing>)
    ensures EachPasses(g, outer, Passing(g, outer, holes))
    ensures Passing(g, outer, holes) == holes <==> EachPasses(g, outer, holes)
  {
    if holes != [] {
      var front, last := holes[..|holes| - 1], holes[|holes| - 1];
      PassingPasses(g, outer, front);
      PassingThins(g, outer, front);
      ThinnedLength(Passing(g, outer, front), front);
      assert holes == front + [last];
      EachPassesMore(g, outer, Passing(g, outer, front), last);
      EachPassesMore(g, outer, front, last);
    }
  }

  lemma {:induction false} NestingNests(g: Geometry, outer: Ring, holes: seq<SolidRing>)
    ensures Nesting(g, outer, holes) == [] || g.nests(outer, Nesting(g, outer, holes))
  {
    if holes != [] {
      NestingNests(g, outer, holes[..|holes| - 1]);
    }
  }

  /**
   When every hole is kept: exactly if the outer ring has no three points, or each hole passes
   beside those before it and, where the outer loop is valid, all of them together nest in it.
   */
  lemma AllUsableExactly(g: Geometry, outer: Ring, holes: seq<SolidRing>)
    ensures Usable(g, outer, holes) == holes <==>
            || g.distinctPoints(outer) < 3 || holes == []
            || (EachPasses(g, outer, holes) && (g.valid(outer) ==> g.nests(outer, holes)))
  {
    var passing := Passing(g, outer, holes);
    PassingPasses(g, outer, holes);
    PassingThins(g, outer, holes);
    ThinnedLength(passing, holes);
    NestingThins(g, outer, passing);
    ThinnedLength(Nesting(g, outer, passing), passing);
    NestingNests(g, outer, passing);
  }

  /** What a hole that is left has to be. */
  ghost predicate IsSound(g: Geometry, outer: Ring, hole: Ring) {
    && g.distinctPoints(hole) >= 3 && g.valid(hole)
    && (if g.valid(outer) then g.contains(outer, hole) else AllInside(hole, outer))
  }

  lemma {:induction false} ThinnedMembers(part: seq<SolidRing>, all: seq<SolidRing>)
    requires Thinned(part, all)
    ensures forall h :: h in part ==> h in all
  {
    if all != [] {
      var front := all[..|all| - 1];
      if Thinned(part, front) {
        ThinnedMembers(part, front);
      } else {
        ThinnedMembers(part[..|part| - 1], front);
        assert part == part[..|part| - 1] + [part[|part| - 1]];
      }
    }
  }

  /** Every hole that is left is a loop inside the outer ring, and in a valid one they all nest. */
  lemma UsableAreSound(g: Geometry, outer: Ring, holes: seq<SolidRing>)
    requires g.distinctPoints(outer) >= 3
    ensures forall h :: h in Usable(g, outer, holes) ==> IsSound(g, outer, h)
    ensures g.valid(outer) && Usable(g, outer, holes) != [] ==> g.nests(outer, Usable(g, outer, holes))
  {
    var passing := Passing(g, outer, holes);
    PassingPasses(g, outer, holes);
    NestingNests(g, outer, passing);
    NestingThins(g, outer, passing);
    ThinnedMembers(Nesting(g, outer, passing), passing);
    forall h | h in passing ensures IsSound(g, outer, h) {
      var k :| 0 <= k < |passing| && passing[k] == h;
      assert Passes(g, outer, passing[..k], passing[k]);
    }
    if g.valid(outer) && !g.nests(outer, passing) {
      assert Usable(g, outer, holes) == Nesting(g, outer, passing);
    } else {
      assert Usable(g, outer, holes) == passing;
    }
  }

  // --- What the usable holes are good for ---

  /** At this point the answers of the library agree with the planar test. */
  ghost predicate SoundAt(g: Geometry, p: Point) {
    && (forall outer, hole :: g.contains(outer, hole) && Inside(p, hole) ==> Inside(p, outer))
    && (forall h, k :: !g.meets(h, k) ==> !(Inside(p, h) && Inside(p, k)))
  }

  /** The hole is contained in a valid outer loop, and two holes do not meet. */
  ghost predicate Separate(g: Geometry, outer: Ring, holes: seq<SolidRing>) {
    && (forall i :: 0 <= i < |holes| ==> g.contains(outer, holes[i]))
    && (forall i, j :: 0 <= i < j < |holes| ==> !g.meets(holes[i], holes[j]))
  }

  lemma PassingSeparate(g: Geometry, outer: Ring, holes: seq<SolidRing>)
    requires g.valid(outer) && EachPasses(g, outer, holes)
    ensures Separate(g, outer, holes)
  {
    forall i | 0 <= i < |holes| ensures g.contains(outer, holes[i]) {
      assert Passes(g, outer, holes[..i], holes[i]);
    }
    forall i, j | 0 <= i < j < |holes| ensures !g.meets(holes[i], holes[j]) {
      assert Passes(g, outer, holes[..j], holes[j]) && holes[..j][i] == holes[i];
    }
  }

  lemma {:induction false} NestingSeparate(g: Geometry, outer: Ring, holes: seq<SolidRing>)
    requires Separate(g, outer, holes)
    ensures Separate(g, outer, Nesting(g, outer, holes))
    ensures forall h :: h in Nesting(g, outer, holes) ==> h in holes
  {
    if holes != [] {
      var n := |holes| - 1;
      var front, good := holes[..n], Nesting(g, outer, holes[..n]);
      NestingSeparate(g, outer, front);
      forall i | 0 <= i < |good| ensures !g.meets(good[i], holes[n]) {
        assert good[i] in front;
        var k :| 0 <= k < n && front[k] == good[i];
        assert holes[k] == good[i];
      }
    }
  }

  /** Usable holes of a valid outer ring are nested and disjoint wherever the library answers rightly. */
  lemma UsableNested(g: Geometry, p: Point, outer: Ring, holes: seq<SolidRing>)
    requires g.distinctPoints(outer) >= 3 && g.valid(outer) && SoundAt(g, p)
    ensures NestedAt(p, outer, Usable(g, outer, holes))
  {
    var passing := Passing(g, outer, holes);
    PassingPasses(g, outer, holes);
    PassingSeparate(g, outer, passing);
    NestingSeparate(g, outer, passing);
    assert Separate(g, outer, Usable(g, outer, holes));
  }
}
