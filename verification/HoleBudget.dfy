/**
 The builder's `finalize_admin_holes`: the holes of a polygon are simplified until the bridged ring
 fits a 16-bit vertex count, the smallest are dropped if it never does, and those that the geometry
 library rejects are taken out before the ring is bridged.
 */
module HoleBudget {
  import opened Rings
  import opened SignedAreas
  import opened BridgeHoles
  import opened EvenOdd
  import opened HoleCover
  import opened Simplify
  import opened Sequences

  const MAX_VERTICES: nat := 65535
  const MIN_HOLE_CAP: nat := 8

  /** A vertex cap; the builder never uses zero. */
  type Cap = n: nat | 0 < n witness 1

  // --- simplify_valid_ring ---

  function Min(a: nat, b: nat): (m: nat)
    ensures m <= a && m <= b && (m == a || m == b)
  {
    if a < b then a else b
  }

  function Max(a: nat, b: nat): (m: nat)
    ensures m >= a && m >= b && (m == a || m == b)
  {
    if a < b then b else a
  }

  /** The first valid ring met while the cap doubles, or `first` if there is none. */
  function ValidFrom(g: Geometry, raw: Ring, cap: Cap, limit: nat, first: Ring): Ring
    decreases limit - cap
  {
    if cap < |raw| && cap < limit then
      var wider := Min(cap * 2, limit);
      if g.valid(Simplified(raw, wider)) then Simplified(raw, wider)
      else ValidFrom(g, raw, wider, limit, first)
    else first
  }

  function SimplifiedValid(g: Geometry, raw: Ring, cap: Cap, limit: nat): Ring
  {
    var first := Simplified(raw, cap);
    if g.distinctPoints(first) < 3 || g.valid(first) then first
    else ValidFrom(g, raw, cap, limit, first)
  }

  /** The cap after `k` doublings. */
  function Doubled(cap: Cap, limit: nat, k: nat): Cap {
    if k == 0 then cap else Max(1, Min(Doubled(cap, limit, k - 1) * 2, limit))
  }

  /** After `k` doublings the ring was asked for at a larger cap, and was not valid. */
  predicate FailsAt(g: Geometry, raw: Ring, cap: Cap, limit: nat, k: nat) {
    !g.valid(Simplified(raw, Doubled(cap, limit, k)))
  }

  lemma {:induction false} DoubledAgain(cap: Cap, limit: nat, k: nat)
    requires cap < limit
    ensures Doubled(Min(cap * 2, limit), limit, k) == Doubled(cap, limit, k + 1)
  {
    if k > 0 {
      DoubledAgain(cap, limit, k - 1);
    }
  }

  /** After `j` doublings the cap can still grow, and no valid ring was found by then. */
  ghost predicate Searching(g: Geometry, raw: Ring, cap: Cap, limit: nat, j: nat) {
    var c := Doubled(cap, limit, j);
    c < |raw| && c < limit && (j > 0 ==> FailsAt(g, raw, cap, limit, j))
  }

  ghost predicate GoesOn(g: Geometry, raw: Ring, cap: Cap, limit: nat, k: nat) {
    forall j: nat :: j < k ==> Searching(g, raw, cap, limit, j)
  }

  lemma SearchingLater(g: Geometry, raw: Ring, cap: Cap, limit: nat, j: nat)
    requires cap < limit && FailsAt(g, raw, cap, limit, 1)
    requires Searching(g, raw, Min(cap * 2, limit), limit, j)
    ensures Searching(g, raw, cap, limit, j + 1)
  {
    DoubledAgain(cap, limit, j);
  }

  lemma GoesOnLonger(g: Geometry, raw: Ring, cap: Cap, limit: nat, k: nat)
    requires cap < |raw| && cap < limit && FailsAt(g, raw, cap, limit, 1)
    requires GoesOn(g, raw, Min(cap * 2, limit), limit, k)
    ensures GoesOn(g, raw, cap, limit, k + 1)
  {
    forall j: nat | j < k + 1 ensures Searching(g, raw, cap, limit, j) {
      if j > 0 {
        SearchingLater(g, raw, cap, limit, j - 1);
      }
    }
  }

  /**
   How the doubling ends: with the ring at the first doubled cap at which it is valid, if there is
   one before the cap reaches the raw length or the limit, and else with the first ring.
   */
  lemma {:induction false} ValidFromMeans(g: Geometry, raw: Ring, cap: Cap, limit: nat, first: Ring) returns (k: nat)
    ensures GoesOn(g, raw, cap, limit, k)
    ensures var r, last := ValidFrom(g, raw, cap, limit, first), Doubled(cap, limit, k);
            || (k > 0 && r == Simplified(raw, last) && g.valid(r))
            || (r == first && (last >= |raw| || last >= limit) && (k > 0 ==> FailsAt(g, raw, cap, limit, k)))
    decreases limit - cap
  {
    k := 0;
    if cap < |raw| && cap < limit {
      var wider := Min(cap * 2, limit);
      DoubledAgain(cap, limit, 0);
      if g.valid(Simplified(raw, wider)) {
        k := 1;
      } else {
        k := ValidFromMeans(g, raw, wider, limit, first);
        GoesOnLonger(g, raw, cap, limit, k);
        DoubledAgain(cap, limit, k);
        k := k + 1;
      }
    }
  }

  method SimplifyValidRing(g: Geometry, raw: Ring, cap: Cap, limit: nat) returns (ring: Ring)
    ensures ring == SimplifiedValid(g, raw, cap, limit)
  {
    var first := SimplifyPolygon(raw, cap);
    if g.distinctPoints(first) < 3 || g.valid(first) {
      return first;
    }
    var c: Cap := cap;
    while c < |raw| && c < limit
      invariant ValidFrom(g, raw, c, limit, first) == ValidFrom(g, raw, cap, limit, first)
      decreases limit - c
    {
      c := Min(c * 2, limit);
      ring := SimplifyPolygon(raw, c);
      if g.valid(ring) {
        return;
      }
    }
    ring := first;
  }

  /** Whatever cap wins, the result starts and ends where the raw ring does. */
  lemma {:induction false} ValidFromKeepsEnds(g: Geometry, raw: Ring, cap: Cap, limit: nat, first: Ring)
    requires raw != []
    requires first != [] && first[0] == raw[0] && first[|first| - 1] == raw[|raw| - 1]
    ensures var r := ValidFrom(g, raw, cap, limit, first);
            r != [] && r[0] == raw[0] && r[|r| - 1] == raw[|raw| - 1]
    decreases limit - cap
  {
    if cap < |raw| && cap < limit {
      var wider := Min(cap * 2, limit);
      SimplifiedKeepsEnds(raw, wider);
      ValidFromKeepsEnds(g, raw, wider, limit, first);
    }
  }

  lemma SimplifiedValidClosed(g: Geometry, raw: Ring, cap: Cap, limit: nat)
    requires IsClosed(raw) && |SimplifiedValid(g, raw, cap, limit)| > 1
    ensures IsClosed(SimplifiedValid(g, raw, cap, limit))
  {
    SimplifiedKeepsEnds(raw, cap);
    ValidFromKeepsEnds(g, raw, cap, limit, Simplified(raw, cap));
  }

  // --- The length of a bridged ring ---

  /** The vertices the builder budgets for: each hole costs its own and one more. */
  function Budget(outer: Ring, holes: seq<SolidRing>): nat {
    if holes == [] then |outer| else Budget(outer, holes[..|holes| - 1]) + |holes[|holes| - 1]| + 1
  }

  function OpenRings(rings: seq<SolidRing>): nat {
    if rings == [] then 0
    else OpenRings(rings[..|rings| - 1]) + if IsClosed(rings[|rings| - 1]) then 0 else 1
  }

  lemma {:induction false} DetoursLength(at: Point, holes: seq<SolidRing>)
    ensures |Detours(at, holes)| == Budget([], holes) + |holes|
  {
    if holes != [] {
      DetoursLength(at, holes[..|holes| - 1]);
    }
  }

  function AttachedLength(attached: seq<seq<SolidRing>>, n: nat): nat
    requires n <= |attached|
  {
    if n == 0 then 0
    else AttachedLength(attached, n - 1) + Budget([], attached[n - 1]) + |attached[n - 1]|
  }

  lemma {:induction false} WeaveLength(outer: SolidRing, attached: seq<seq<SolidRing>>, n: nat)
    requires n <= |outer| == |attached|
    ensures |Weave(outer, attached, n)| == n + AttachedLength(attached, n)
  {
    if n > 0 {
      WeaveLength(outer, attached, n - 1);
      DetoursLength(outer[n - 1], attached[n - 1]);
    }
  }

  lemma {:induction false} AttachedLengthUpdate(attached: seq<seq<SolidRing>>, k: nat, hole: SolidRing, n: nat)
    requires n <= |attached| && k < |attached|
    ensures AttachedLength(attached[k := attached[k] + [hole]], n)
            == AttachedLength(attached, n) + if k < n then |hole| + 2 else 0
  {
    if n > 0 {
      AttachedLengthUpdate(attached, k, hole, n - 1);
      var grown := attached[k] + [hole];
      assert grown[..|grown| - 1] == attached[k];
    }
  }

  lemma {:induction false} EmptyAttachedLength(attached: seq<seq<SolidRing>>, n: nat)
    requires n <= |attached|
    requires forall i :: 0 <= i < |attached| ==> attached[i] == []
    ensures AttachedLength(attached, n) == 0
  {
    if n > 0 {
      EmptyAttachedLength(attached, n - 1);
    }
  }

  lemma {:induction false} AttachLength(outer: SolidRing, holes: seq<SolidRing>, outerCcw: bool)
    ensures AttachedLength(Attach(outer, holes, outerCcw), |outer|) == Budget([], holes) + OpenRings(holes)
  {
    if holes == [] {
      EmptyAttachedLength(Attach(outer, holes, outerCcw), |outer|);
    } else {
      var front := holes[..|holes| - 1];
      var hole := OrientHole(holes[|holes| - 1], outerCcw);
      var k := FirstNearest(outer, hole[0], |outer|);
      AttachLength(outer, front, outerCcw);
      AttachedLengthUpdate(Attach(outer, front, outerCcw), k, hole, |outer|);
    }
  }

  lemma {:induction false} BudgetSplit(outer: Ring, holes: seq<SolidRing>)
    ensures Budget(outer, holes) == |outer| + Budget([], holes)
  {
    if holes != [] {
      BudgetSplit(outer, holes[..|holes| - 1]);
    }
  }

  /** The bridged ring is as long as budgeted, plus one vertex for every ring that was not closed. */
  lemma BridgedLength(outer: SolidRing, holes: seq<SolidRing>)
    ensures |Bridged(outer, holes)|
            == Budget(outer, holes) + OpenRings(holes) + if IsClosed(outer) then 0 else 1
  {
    var open := OpenRing(outer);
    var ccw := SignedArea(open) > 0.0;
    WeaveLength(open, Attach(open, holes, ccw), |open|);
    AttachLength(open, holes, ccw);
    BudgetSplit(outer, holes);
  }

  /** What a 16-bit field stores of a count. */
  function StoredLength(n: nat): (stored: nat)
    ensures n <= MAX_VERTICES <==> stored == n
  {
    n % 65536
  }

  lemma StoredRest(n: nat, rest: nat)
    requires n == 65536 + rest && rest <= MAX_VERTICES
    ensures StoredLength(n) == rest
  {}

  /** The stored count is the real one exactly when the budget leaves room for the open rings. */
  lemma StoredCountExact(outer: SolidRing, holes: seq<SolidRing>)
    ensures StoredLength(|Bridged(outer, holes)|) == |Bridged(outer, holes)|
            <==> Budget(outer, holes) + OpenRings(holes) + (if IsClosed(outer) then 0 else 1) <= MAX_VERTICES
  {
    BridgedLength(outer, holes);
  }

  // --- finalize_admin_holes ---

  /** One raw hole at its cap: nothing if it degenerates. */
  function CandidateOf(g: Geometry, raw: Ring, cap: Cap, limit: nat): seq<SolidRing>
  {
    var ring := SimplifiedValid(g, raw, cap, limit);
    if |ring| < 4 then [] else [ring]
  }

  /** The holes with a usable shape when each is simplified at its cap. */
  function Candidates(g: Geometry, raw: seq<Ring>, caps: seq<Cap>, limit: nat): seq<SolidRing>
    requires |raw| == |caps|
  {
    if raw == [] then []
    else
      var n := |raw| - 1;
      Candidates(g, raw[..n], caps[..n], limit) + CandidateOf(g, raw[n], caps[n], limit)
  }

  function HalvedCap(cap: Cap): (r: Cap) {
    Max(MIN_HOLE_CAP, cap / 2)
  }

  function Shrink(caps: seq<Cap>): (r: seq<Cap>)
    ensures |r| == |caps| && forall i :: 0 <= i < |r| ==> r[i] == HalvedCap(caps[i])
  {
    seq(|caps|, i requires 0 <= i < |caps| => HalvedCap(caps[i]))
  }

  predicate CanShrink(caps: seq<Cap>) {
    exists i :: 0 <= i < |caps| && caps[i] > MIN_HOLE_CAP
  }

  /** What the caps still have to give. */
  function Slack(caps: seq<Cap>): nat {
    if caps == [] then 0
    else Slack(caps[..|caps| - 1]) + Max(caps[|caps| - 1], MIN_HOLE_CAP) - MIN_HOLE_CAP
  }

  /** Halving uses up slack as long as one cap is above the minimum. */
  lemma {:induction false} ShrinkUsesSlack(caps: seq<Cap>)
    ensures Slack(Shrink(caps)) <= Slack(caps)
    ensures CanShrink(caps) ==> Slack(Shrink(caps)) < Slack(caps)
  {
    if caps != [] {
      var front := caps[..|caps| - 1];
      ShrinkUsesSlack(front);
      assert Shrink(caps)[..|caps| - 1] == Shrink(front);
      if i :| 0 <= i < |caps| && caps[i] > MIN_HOLE_CAP {
        assert i < |front| ==> front[i] > MIN_HOLE_CAP;
      }
    }
  }

  lemma CandidatesStep(g: Geometry, raw: seq<Ring>, caps: seq<Cap>, limit: nat, i: nat)
    requires |raw| == |caps|
    requires i < |raw|
    ensures Candidates(g, raw[..i + 1], caps[..i + 1], limit)
            == Candidates(g, raw[..i], caps[..i], limit) + CandidateOf(g, raw[i], caps[i], limit)
  {
    assert raw[..i + 1][..i] == raw[..i] && caps[..i + 1][..i] == caps[..i];
  }

  lemma BudgetStep(outer: Ring, holes: seq<SolidRing>, hole: SolidRing)
    ensures Budget(outer, holes + [hole]) == Budget(outer, holes) + |hole| + 1
  {
    assert (holes + [hole])[..|holes|] == holes;
  }

  /** One round of the cap loop for one hole. */
  method SimplifyHole(g: Geometry, raw: Ring, cap: Cap, limit: nat) returns (hole: seq<SolidRing>)
    ensures hole == CandidateOf(g, raw, cap, limit)
  {
    var simplified := SimplifyValidRing(g, raw, cap, limit);
    hole := if |simplified| < 4 then [] else [simplified];
  }

  /** One round of the cap loop: the candidate holes, with what they cost beside the outer ring. */
  method SimplifyHoles(g: Geometry, outer: Ring, raw: seq<Ring>, caps: seq<Cap>, limit: nat)
    returns (holes: seq<SolidRing>, total: nat)
    requires |raw| == |caps|
    ensures holes == Candidates(g, raw, caps, limit)
    ensures total == Budget(outer, holes)
  {
    holes, total := [], |outer|;
    for i := 0 to |raw|
      invariant holes == Candidates(g, raw[..i], caps[..i], limit)
      invariant total == Budget(outer, holes)
    {
      CandidatesStep(g, raw, caps, limit, i);
      var hole := SimplifyHole(g, raw[i], caps[i], limit);
      if hole != [] {
        BudgetStep(outer, holes, hole[0]);
        total := total + |hole[0]| + 1;
        holes := holes + [hole[0]];
      }
    }
    assert raw[..|raw|] == raw && caps[..|caps|] == caps;
  }

  /** The longest prefix of `holes` that fits beside the outer ring. */
  method FitPrefix(outer: Ring, holes: seq<SolidRing>) returns (fit: nat)
    requires |outer| <= MAX_VERTICES
    ensures fit <= |holes| && Budget(outer, holes[..fit]) <= MAX_VERTICES
    ensures fit < |holes| ==> Budget(outer, holes[..fit + 1]) > MAX_VERTICES
  {
    var total := |outer|;
    fit := 0;
    while fit < |holes| && total + |holes[fit]| + 1 <= MAX_VERTICES
      invariant fit <= |holes| && total == Budget(outer, holes[..fit]) <= MAX_VERTICES
    {
      assert holes[..fit + 1][..fit] == holes[..fit];
      total := total + |holes[fit]| + 1;
      fit := fit + 1;
    }
    if fit < |holes| {
      assert holes[..fit + 1][..fit] == holes[..fit];
    }
  }

  /** Every kept hole scores at least as high as every dropped one. */
  ghost predicate KeepsLargest(key: SolidRing -> real, kept: seq<SolidRing>, dropped: seq<SolidRing>) {
    forall a, b :: 0 <= a < |kept| && 0 <= b < |dropped| ==> key(kept[a]) >= key(dropped[b])
  }

  /** The last resort of `finalize_admin_holes`: drop what does not fit, from the small end. */
  method KeepLargest(key: SolidRing -> real, outer: Ring, holes: seq<SolidRing>)
    returns (kept: seq<SolidRing>, dropped: seq<SolidRing>)
    requires |outer| <= MAX_VERTICES
    ensures multiset(kept + dropped) == multiset(holes)
    ensures Budget(outer, kept) <= MAX_VERTICES && KeepsLargest(key, kept, dropped)
    ensures dropped != [] ==>
              Budget(outer, kept + [dropped[0]]) > MAX_VERTICES && Budget(outer, holes) > MAX_VERTICES
  {
    var sorted := SortLargestFirst(key, holes);
    var fit := FitPrefix(outer, sorted);
    kept, dropped := sorted[..fit], sorted[fit..];
    assert kept + dropped == sorted;
    forall a, b | 0 <= a < |kept| && 0 <= b < |dropped|
      ensures key(kept[a]) >= key(dropped[b])
    {
      var i, j := a, fit + b;
      assert 0 <= i < j < |sorted| && key(sorted[i]) >= key(sorted[j]);
    }
    if dropped != [] {
      assert sorted[..fit + 1] == kept + [dropped[0]];
      OverBudget(outer, holes, sorted, fit + 1);
    }
  }

  /** A raw hole, with the key that tells which nodes it runs through. */
  datatype PendingHole = PendingHole(ring: Ring, key: nat)

  /** The holes that no indexed outer ring fills exactly. */
  function NotEnclaves(pending: seq<PendingHole>, indexed: set<nat>): seq<Ring> {
    if pending == [] then []
    else
      var last := pending[|pending| - 1];
      NotEnclaves(pending[..|pending| - 1], indexed) + if last.key in indexed then [] else [last.ring]
  }

  function CapsOf(capOf: Ring -> Cap, raw: seq<Ring>): (caps: seq<Cap>)
    ensures |caps| == |raw|
  {
    seq(|raw|, i requires 0 <= i < |raw| => capOf(raw[i]))
  }

  /** The first loop of `finalize_admin_holes`: leaves out enclaves and looks up caps. */
  method StartingCaps(capOf: Ring -> Cap, pending: seq<PendingHole>, indexed: set<nat>)
    returns (raw: seq<Ring>, caps: seq<Cap>, enclaves: nat)
    ensures raw == NotEnclaves(pending, indexed) && caps == CapsOf(capOf, raw)
    ensures |raw| + enclaves == |pending|
  {
    raw, caps, enclaves := [], [], 0;
    for i := 0 to |pending|
      invariant raw == NotEnclaves(pending[..i], indexed) && caps == CapsOf(capOf, raw)
      invariant |raw| + enclaves == i
    {
      assert pending[..i + 1][..i] == pending[..i];
      if pending[i].key in indexed {
        enclaves := enclaves + 1;
      } else {
        raw := raw + [pending[i].ring];
        caps := caps + [capOf(pending[i].ring)];
      }
    }
    assert pending[..|pending|] == pending;
  }

  /** The caps after `rounds` halvings. */
  function Halved(caps: seq<Cap>, rounds: nat): (r: seq<Cap>)
    ensures |r| == |caps|
    decreases rounds
  {
    if rounds == 0 then caps else Shrink(Halved(caps, rounds - 1))
  }

  /** A cap halved `n` times, with no minimum. */
  function HalvedOften(cap: nat, n: nat): nat {
    if n == 0 then cap else HalvedOften(cap, n - 1) / 2
  }

  /** After some rounds a cap is what is left of it by halving so often, but no less than the minimum. */
  lemma {:induction false} HalvedMeans(caps: seq<Cap>, rounds: nat, i: nat)
    requires i < |caps| && rounds > 0
    ensures Halved(caps, rounds)[i] == Max(MIN_HOLE_CAP, HalvedOften(caps[i], rounds))
    decreases rounds
  {
    if rounds > 1 {
      HalvedMeans(caps, rounds - 1, i);
    }
  }

  /** The room that the outer ring leaves for holes. */
  function Room(outer: Ring): nat
    requires |outer| <= MAX_VERTICES
  {
    MAX_VERTICES - |outer|
  }

  /** At these caps the holes are over the budget although some cap can still shrink. */
  predicate MustShrink(g: Geometry, outer: Ring, raw: seq<Ring>, caps: seq<Cap>)
    requires |raw| == |caps| && |outer| <= MAX_VERTICES
  {
    Budget(outer, Candidates(g, raw, caps, Room(outer))) > MAX_VERTICES && CanShrink(caps)
  }

  /** The caps were halved as often as they had to be, and no more often. */
  ghost predicate LeastRounds(g: Geometry, outer: Ring, raw: seq<Ring>, caps: seq<Cap>, rounds: nat)
    requires |raw| == |caps| && |outer| <= MAX_VERTICES
  {
    !MustShrink(g, outer, raw, Halved(caps, rounds)) && NeedsRounds(g, outer, raw, caps, rounds)
  }

  ghost predicate NeedsRounds(g: Geometry, outer: Ring, raw: seq<Ring>, caps: seq<Cap>, rounds: nat)
    requires |raw| == |caps| && |outer| <= MAX_VERTICES
  {
    forall n: nat :: n < rounds ==> MustShrink(g, outer, raw, Halved(caps, n))
  }

  lemma OneMoreRound(g: Geometry, outer: Ring, raw: seq<Ring>, caps: seq<Cap>, rounds: nat)
    requires |raw| == |caps| && |outer| <= MAX_VERTICES && NeedsRounds(g, outer, raw, caps, rounds)
    requires MustShrink(g, outer, raw, Halved(caps, rounds))
    ensures NeedsRounds(g, outer, raw, caps, rounds + 1)
    ensures Halved(caps, rounds + 1) == Shrink(Halved(caps, rounds))
  {}

  /** The candidates that fit, and those that are dropped because even then they do not. */
  ghost predicate FitsWithin(outer: Ring, all: seq<SolidRing>, fit: seq<SolidRing>, dropped: seq<SolidRing>) {
    && multiset(fit + dropped) == multiset(all)
    && Budget(outer, fit) <= MAX_VERTICES && KeepsLargest(Area, fit, dropped)
    && (dropped != [] ==>
          Budget(outer, fit + [dropped[0]]) > MAX_VERTICES && Budget(outer, all) > MAX_VERTICES)
  }

  /** The cap loop: halves until the budget is met or no cap is above the minimum. */
  method ShrinkToFit(g: Geometry, outer: Ring, raw: seq<Ring>, startCaps: seq<Cap>)
    returns (holes: seq<SolidRing>, ghost rounds: nat)
    requires |raw| == |startCaps| && |outer| <= MAX_VERTICES
    ensures LeastRounds(g, outer, raw, startCaps, rounds)
    ensures holes == Candidates(g, raw, Halved(startCaps, rounds), Room(outer))
  {
    var caps, room := startCaps, Room(outer);
    rounds := 0;
    var total;
    holes, total := SimplifyHoles(g, outer, raw, caps, room);
    while total > MAX_VERTICES && CanShrink(caps)
      invariant caps == Halved(startCaps, rounds)
      invariant NeedsRounds(g, outer, raw, startCaps, rounds)
      invariant holes == Candidates(g, raw, caps, room)
      invariant total == Budget(outer, holes)
      decreases Slack(caps)
    {
      ShrinkUsesSlack(caps);
      OneMoreRound(g, outer, raw, startCaps, rounds);
      rounds := rounds + 1;
      caps := Shrink(caps);
      holes, total := SimplifyHoles(g, outer, raw, caps, room);
    }
  }

  /** Leaving out holes cannot go over the budget, nor leave more open rings. */
  lemma {:induction false} ThinnedBudget(outer: Ring, part: seq<SolidRing>, all: seq<SolidRing>)
    requires Thinned(part, all)
    ensures Budget(outer, part) <= Budget(outer, all) && OpenRings(part) <= OpenRings(all)
    decreases |all|
  {
    if all != [] {
      var front := all[..|all| - 1];
      if Thinned(part, front) {
        ThinnedBudget(outer, part, front);
      } else {
        ThinnedBudget(outer, part[..|part| - 1], front);
      }
    }
  }

  /**
   `finalize_admin_holes` for one polygon.  The caps halve just as often as needed; what still
   does not fit when none can shrink any more is dropped, smallest areas first.  Of those that fit
   the ring gets the ones that the covering of the polygon leaves.
   */
  method FinalizeHoles(
    g: Geometry, capOf: Ring -> Cap, indexed: set<nat>, outer: SolidRing, pending: seq<PendingHole>)
    returns (ring: Ring, kept: seq<SolidRing>, fit: seq<SolidRing>, dropped: seq<SolidRing>, ghost rounds: nat)
    requires |outer| <= MAX_VERTICES
    ensures ring == Bridged(outer, kept) && kept == Usable(g, outer, fit)
    ensures var raw := NotEnclaves(pending, indexed);
            var caps := CapsOf(capOf, raw);
            && LeastRounds(g, outer, raw, caps, rounds)
            && FitsWithin(outer, Candidates(g, raw, Halved(caps, rounds), Room(outer)), fit, dropped)
            && (dropped != [] ==> !CanShrink(Halved(caps, rounds)))
    ensures Budget(outer, kept) <= Budget(outer, fit) <= MAX_VERTICES
  {
    var raw, caps, _ := StartingCaps(capOf, pending, indexed);
    var holes;
    holes, rounds := ShrinkToFit(g, outer, raw, caps);
    fit, dropped := KeepLargest(Area, outer, holes);
    kept := CoverHoles(g, outer, fit);
    UsableThins(g, outer, fit);
    ThinnedBudget(outer, kept, fit);
    ring := BridgeRing(outer, kept);
  }

  /**
   The ring that is stored, where the library calls the outer ring valid and answers rightly: a
   point is inside exactly if it is inside the outer ring and in none of the holes left in it.
   */
  lemma FinalizedMeansOuterMinusHoles(g: Geometry, p: Point, outer: SolidRing, fit: seq<SolidRing>)
    requires g.distinctPoints(outer) >= 3 && g.valid(outer) && SoundAt(g, p)
    ensures var kept := Usable(g, outer, fit);
            Inside(p, Bridged(outer, kept)) <==> Inside(p, outer) && InNone(p, kept)
  {
    UsableNested(g, p, outer, fit);
    BridgedMeansOuterMinusHoles(p, outer, Usable(g, outer, fit));
  }

  lemma {:induction false} BudgetGrows(outer: Ring, holes: seq<SolidRing>, n: nat)
    requires n <= |holes|
    ensures Budget(outer, holes[..n]) <= Budget(outer, holes)
    decreases |holes|
  {
    if n < |holes| {
      assert holes[..|holes| - 1][..n] == holes[..n];
      BudgetGrows(outer, holes[..|holes| - 1], n);
    } else {
      assert holes[..n] == holes;
    }
  }

  lemma {:induction false} BudgetRemove(outer: Ring, holes: seq<SolidRing>, k: nat)
    requires k < |holes|
    ensures Budget(outer, holes) == Budget(outer, holes[..k] + holes[k + 1..]) + |holes[k]| + 1
  {
    var n := |holes| - 1;
    if k == n {
      assert holes[..k] + holes[k + 1..] == holes[..n];
    } else {
      BudgetRemove(outer, holes[..n], k);
      var less := holes[..k] + holes[k + 1..];
      assert less[..n - 1] == holes[..n][..k] + holes[..n][k + 1..];
    }
  }

  /** The budget does not depend on the order of the holes. */
  lemma {:induction false} SameBudget(outer: Ring, a: seq<SolidRing>, b: seq<SolidRing>)
    requires multiset(a) == multiset(b)
    ensures Budget(outer, a) == Budget(outer, b)
  {
    if a == [] {
      assert |multiset(b)| == 0;
    } else {
      var k, rest := SplitOff(a, b);
      BudgetRemove(outer, b, k);
      SameBudget(outer, a[..|a| - 1], rest);
    }
  }

  /** A prefix of one order already over the budget puts every order over it. */
  lemma OverBudget(outer: Ring, holes: seq<SolidRing>, sorted: seq<SolidRing>, n: nat)
    requires multiset(sorted) == multiset(holes) && n <= |sorted|
    requires Budget(outer, sorted[..n]) > MAX_VERTICES
    ensures Budget(outer, holes) > MAX_VERTICES
  {
    SameBudget(outer, holes, sorted);
    BudgetGrows(outer, sorted, n);
  }

  lemma {:induction false} CandidatesClosed(g: Geometry, raw: seq<Ring>, caps: seq<Cap>, limit: nat)
    requires |raw| == |caps|
    requires forall i :: 0 <= i < |raw| ==> IsClosed(raw[i])
    ensures forall hole :: hole in Candidates(g, raw, caps, limit) ==> IsClosed(hole)
  {
    if raw != [] {
      var n := |raw| - 1;
      CandidatesClosed(g, raw[..n], caps[..n], limit);
      if |SimplifiedValid(g, raw[n], caps[n], limit)| >= 4 {
        SimplifiedValidClosed(g, raw[n], caps[n], limit);
      }
    }
  }

  lemma {:induction false} NoOpenRings(rings: seq<SolidRing>)
    requires forall i :: 0 <= i < |rings| ==> IsClosed(rings[i])
    ensures OpenRings(rings) == 0
  {
    if rings != [] {
      NoOpenRings(rings[..|rings| - 1]);
    }
  }

  lemma PrefixClosed(kept: seq<SolidRing>, dropped: seq<SolidRing>, all: seq<SolidRing>)
    requires multiset(kept + dropped) == multiset(all)
    requires forall hole :: hole in all ==> IsClosed(hole)
    ensures OpenRings(kept) == 0
  {
    forall i | 0 <= i < |kept| ensures IsClosed(kept[i]) {
      PrefixItem(kept, dropped, all, i);
    }
    NoOpenRings(kept);
  }

  lemma {:induction false} NotEnclavesClosed(pending: seq<PendingHole>, indexed: set<nat>)
    requires forall i :: 0 <= i < |pending| ==> IsClosed(pending[i].ring)
    ensures forall i :: 0 <= i < |NotEnclaves(pending, indexed)| ==> IsClosed(NotEnclaves(pending, indexed)[i])
  {
    if pending != [] {
      NotEnclavesClosed(pending[..|pending| - 1], indexed);
    }
  }

  /** With closed rings, as the source expects them, the stored count is always the real one. */
  lemma ClosedRingsNeverTruncate(
    g: Geometry, indexed: set<nat>, outer: SolidRing, pending: seq<PendingHole>, caps: seq<Cap>,
    fit: seq<SolidRing>, dropped: seq<SolidRing>)
    requires |caps| == |NotEnclaves(pending, indexed)| && |outer| <= MAX_VERTICES && IsClosed(outer)
    requires forall i :: 0 <= i < |pending| ==> IsClosed(pending[i].ring)
    requires FitsWithin(outer, Candidates(g, NotEnclaves(pending, indexed), caps, Room(outer)), fit, dropped)
    ensures var kept := Usable(g, outer, fit);
            |Bridged(outer, kept)| == Budget(outer, kept) == StoredLength(|Bridged(outer, kept)|)
  {
    var raw := NotEnclaves(pending, indexed);
    NotEnclavesClosed(pending, indexed);
    CandidatesClosed(g, raw, caps, Room(outer));
    PrefixClosed(fit, dropped, Candidates(g, raw, caps, Room(outer)));
    UsableThins(g, outer, fit);
    ThinnedBudget(outer, Usable(g, outer, fit), fit);
    BridgedLength(outer, Usable(g, outer, fit));
  }

  // --- Open rings that overflow the count ---

  /** A square of two degrees, closed. */
  const SQUARE: SolidRing :=
    [Point(0.0, 0.0), Point(0.0, 2.0), Point(2.0, 2.0), Point(2.0, 0.0), Point(0.0, 0.0)]

  const MANY: nat := 13106

  /** Hole `i`: a square of a thousandth of a degree, on a grid inside `SQUARE`, that was left open. */
  function SmallHole(i: nat): (hole: Ring)
    ensures |hole| == 4 && !IsClosed(hole)
  {
    var lat, lng, size := 0.1 + 0.01 * (i / 120) as real, 0.1 + 0.01 * (i % 120) as real, 0.001;
    [Point(lat, lng), Point(lat, lng + size), Point(lat + size, lng + size), Point(lat + size, lng)]
  }

  function SmallHoles(n: nat): (holes: seq<SolidRing>)
    ensures |holes| == n && forall i :: 0 <= i < n ==> holes[i] == SmallHole(i)
  {
    seq(n, i requires 0 <= i < n => SmallHole(i))
  }

  lemma {:induction false} SmallHolesCost(n: nat)
    ensures Budget(SQUARE, SmallHoles(n)) == 5 + 5 * n && OpenRings(SmallHoles(n)) == n
  {
    if n > 0 {
      SmallHolesCost(n - 1);
      assert SmallHoles(n)[..n - 1] == SmallHoles(n - 1);
    }
  }

  /** Rings of four vertices are taken as they are, whatever the geometry library says of them. */
  lemma {:induction false} SmallHolesAreCandidates(g: Geometry, n: nat, caps: seq<Cap>, limit: nat)
    requires |caps| == n && forall i :: 0 <= i < n ==> caps[i] >= 4
    ensures Candidates(g, SmallHoles(n), caps, limit) == SmallHoles(n)
    decreases n
  {
    if n > 0 {
      SmallHolesAreCandidates(g, n - 1, caps[..n - 1], limit);
      SmallHolesSplit(n);
      ShortRingIsCandidate(g, SmallHole(n - 1), caps[n - 1], limit);
    }
  }

  lemma SmallHolesSplit(n: nat)
    requires n > 0
    ensures SmallHoles(n)[..n - 1] == SmallHoles(n - 1) && SmallHoles(n)[n - 1] == SmallHole(n - 1)
    ensures SmallHoles(n) == SmallHoles(n - 1) + [SmallHole(n - 1)]
  {}

  lemma ShortRingIsCandidate(g: Geometry, ring: Ring, cap: Cap, limit: nat)
    requires |ring| == 4 <= cap
    ensures CandidateOf(g, ring, cap, limit) == [ring]
  {}

  lemma {:induction false} OpenRingsRemove(rings: seq<SolidRing>, k: nat)
    requires k < |rings|
    ensures OpenRings(rings) == OpenRings(rings[..k] + rings[k + 1..]) + if IsClosed(rings[k]) then 0 else 1
  {
    var n := |rings| - 1;
    if k == n {
      assert rings[..k] + rings[k + 1..] == rings[..n];
    } else {
      OpenRingsRemove(rings[..n], k);
      var less := rings[..k] + rings[k + 1..];
      assert less[..n - 1] == rings[..n][..k] + rings[..n][k + 1..];
    }
  }

  lemma {:induction false} SameOpenRings(a: seq<SolidRing>, b: seq<SolidRing>)
    requires multiset(a) == multiset(b)
    ensures OpenRings(a) == OpenRings(b)
  {
    if a == [] {
      assert |multiset(b)| == 0;
    } else {
      var k, rest := SplitOff(a, b);
      OpenRingsRemove(b, k);
      SameOpenRings(a[..|a| - 1], rest);
    }
  }

  /** If all candidates fit, none is dropped. */
  lemma AllFit(outer: Ring, all: seq<SolidRing>, fit: seq<SolidRing>, dropped: seq<SolidRing>)
    requires FitsWithin(outer, all, fit, dropped) && Budget(outer, all) <= MAX_VERTICES
    ensures dropped == [] && Budget(outer, fit) == Budget(outer, all) && OpenRings(fit) == OpenRings(all)
  {
    assert fit + dropped == fit;
    SameBudget(outer, fit, all);
    SameOpenRings(fit, all);
  }

  /**
   A closed outer ring with many open holes just meets the budget, so that nothing is simplified or
   dropped.  If the library has nothing against these holes, which do not touch each other, the
   bridged ring has 78641 vertices, of which the stored count tells 13105.
   */
  lemma OpenHolesOverflow(g: Geometry, caps: seq<Cap>, fit: seq<SolidRing>, dropped: seq<SolidRing>)
    requires |caps| == MANY && forall i :: 0 <= i < MANY ==> caps[i] >= 4
    requires FitsWithin(SQUARE, Candidates(g, SmallHoles(MANY), caps, Room(SQUARE)), fit, dropped)
    requires EachPasses(g, SQUARE, fit) && (g.valid(SQUARE) ==> g.nests(SQUARE, fit))
    ensures dropped == [] && Budget(SQUARE, fit) == MAX_VERTICES && !MustShrink(g, SQUARE, SmallHoles(MANY), caps)
    ensures var kept := Usable(g, SQUARE, fit);
            |Bridged(SQUARE, kept)| == 78641 && StoredLength(|Bridged(SQUARE, kept)|) == 13105
  {
    var all := SmallHoles(MANY);
    SmallHolesAreCandidates(g, MANY, caps, Room(SQUARE));
    SmallHolesCost(MANY);
    AllFit(SQUARE, all, fit, dropped);
    AllUsableExactly(g, SQUARE, fit);
    BridgedLength(SQUARE, fit);
    StoredRest(|Bridged(SQUARE, fit)|, 13105);
  }

  /** A single hole that is not inside a valid outer ring is left out, and the outer ring is stored alone. */
  lemma HoleOutsideIsLeftOut(g: Geometry, outer: SolidRing, hole: SolidRing)
    requires g.distinctPoints(outer) >= 3 && g.valid(outer) && !g.contains(outer, hole)
    ensures Usable(g, outer, [hole]) == []
  {
    assert Passing(g, outer, [hole][..0]) == [];
    assert Passing(g, outer, [hole]) == [];
  }
}
