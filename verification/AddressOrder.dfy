/**
 The builder's address table.  Points are added in input order and later reordered so that the
 points of one cell stand together; the cell lists are rewritten to the new positions.
 */
module AddressOrder {
  import opened Bytes
  import opened CellOrder
  import opened Sequences

  /** The mark of an address that has no new position yet. */
  const UNASSIGNED: nat := 0xFFFF_FFFF

  // --- The order in which the walk over the cells meets the addresses ---

  /** Adds the ids below `n` that are not listed yet, in order. */
  function Extend(order: seq<nat>, ids: seq<nat>, n: nat): seq<nat> {
    if ids == [] then order
    else
      var before, last := Extend(order, ids[..|ids| - 1], n), ids[|ids| - 1];
      if last < n && last !in before then before + [last] else before
  }

  /** The lists of `cells` one after the other. */
  function Walk(cells: seq<U64>, lists: IdLists): seq<nat>
    requires forall c :: c in cells ==> c in lists
  {
    if cells == [] then []
    else Walk(cells[..|cells| - 1], lists) + lists[cells[|cells| - 1]]
  }

  function ExtendCells(cells: seq<U64>, lists: IdLists, n: nat): seq<nat>
    requires forall c :: c in cells ==> c in lists
  {
    if cells == [] then []
    else Extend(ExtendCells(cells[..|cells| - 1], lists, n), lists[cells[|cells| - 1]], n)
  }

  /** Old ids in their new order: as the cells list them, then those no cell lists. */
  function NewOrder(cells: seq<U64>, lists: IdLists, n: nat): seq<nat>
    requires forall c :: c in cells ==> c in lists
  {
    Extend(ExtendCells(cells, lists, n), Range(n), n)
  }

  ghost predicate Below(ids: seq<nat>, n: nat) {
    forall i :: 0 <= i < |ids| ==> ids[i] < n
  }

  /** No repetition and nothing out of range. */
  ghost predicate Listing(order: seq<nat>, n: nat) {
    Distinct(order) && Below(order, n)
  }

  /** `order` is a repetition-free listing of all numbers below `n`. */
  ghost predicate Permutation(order: seq<nat>, n: nat) {
    Listing(order, n) && |order| == n && forall x: nat :: x < n ==> x in order
  }

  lemma {:induction false} ExtendListing(order: seq<nat>, ids: seq<nat>, n: nat)
    requires Listing(order, n)
    ensures Listing(Extend(order, ids, n), n)
    ensures forall x: nat :: x in Extend(order, ids, n) <==> x in order || (x in ids && x < n)
  {
    if ids != [] {
      ExtendListing(order, ids[..|ids| - 1], n);
      assert ids == ids[..|ids| - 1] + [ids[|ids| - 1]];
    }
  }

  lemma {:induction false} ExtendCellsListing(cells: seq<U64>, lists: IdLists, n: nat)
    requires forall c :: c in cells ==> c in lists
    ensures Listing(ExtendCells(cells, lists, n), n)
  {
    if cells != [] {
      ExtendCellsListing(cells[..|cells| - 1], lists, n);
      ExtendListing(ExtendCells(cells[..|cells| - 1], lists, n), lists[cells[|cells| - 1]], n);
    }
  }

  /** The new order lists every old id exactly once, whatever the cell lists are. */
  lemma NewOrderIsPermutation(cells: seq<U64>, lists: IdLists, n: nat)
    requires forall c :: c in cells ==> c in lists
    ensures var order := NewOrder(cells, lists, n);
            Permutation(order, n)
  {
    ExtendCellsListing(cells, lists, n);
    ExtendListing(ExtendCells(cells, lists, n), Range(n), n);
    forall x: nat | x < n ensures x in Range(n) {
      assert Range(n)[x] == x;
    }
    FullListing(NewOrder(cells, lists, n), n);
  }

  lemma ListingPrefix(a: seq<nat>, b: seq<nat>, n: nat)
    requires Listing(a + b, n)
    ensures Listing(a, n)
    ensures forall i, j :: 0 <= i < |a| && 0 <= j < |b| ==> a[i] != b[j]
    ensures Below(b, n)
  {
    assert forall i :: 0 <= i < |a| ==> (a + b)[i] == a[i];
    assert forall j :: 0 <= j < |b| ==> (a + b)[|a| + j] == b[j];
    forall i, j | 0 <= i < |a| && 0 <= j < |b| ensures a[i] != b[j] {
      assert (a + b)[i] != (a + b)[|a| + j];
    }
  }

  lemma {:induction false} ExtendFresh(order: seq<nat>, ids: seq<nat>, n: nat)
    requires Listing(order + ids, n)
    ensures Extend(order, ids, n) == order + ids
  {
    if ids == [] {
      assert order + ids == order;
    } else {
      var front, last := ids[..|ids| - 1], ids[|ids| - 1];
      assert order + ids == (order + front) + [last];
      ListingPrefix(order + front, [last], n);
      ExtendFresh(order, front, n);
      assert [last][0] == last;
    }
  }

  lemma {:induction false} ExtendKnown(order: seq<nat>, ids: seq<nat>, n: nat)
    requires forall x :: x in ids ==> x in order
    ensures Extend(order, ids, n) == order
  {
    if ids != [] {
      ExtendKnown(order, ids[..|ids| - 1], n);
    }
  }

  lemma {:induction false} ExtendCellsFresh(cells: seq<U64>, lists: IdLists, n: nat)
    requires forall c :: c in cells ==> c in lists
    requires Listing(Walk(cells, lists), n)
    ensures ExtendCells(cells, lists, n) == Walk(cells, lists)
  {
    if cells != [] {
      var front, last := cells[..|cells| - 1], lists[cells[|cells| - 1]];
      var walk := Walk(front, lists);
      ListingPrefix(walk, last, n);
      ExtendCellsFresh(front, lists, n);
      ExtendFresh(walk, last, n);
    }
  }

  /** When the lists are complete and do not overlap, the new order is the walk itself. */
  lemma NewOrderIsWalk(cells: seq<U64>, lists: IdLists, n: nat)
    requires forall c :: c in cells ==> c in lists
    requires Listing(Walk(cells, lists), n) && forall x: nat :: x < n ==> x in Walk(cells, lists)
    ensures NewOrder(cells, lists, n) == Walk(cells, lists)
  {
    ExtendCellsFresh(cells, lists, n);
    ExtendKnown(Walk(cells, lists), Range(n), n);
  }

  // --- The remap array ---

  /** `remap` numbers exactly the ids of `order`, by their position in it. */
  ghost predicate Numbers(remap: seq<nat>, order: seq<nat>) {
    && (forall x :: 0 <= x < |remap| && x !in order ==> remap[x] == UNASSIGNED)
    && (forall k :: 0 <= k < |order| ==> order[k] < |remap| && remap[order[k]] == k)
  }

  /** One pass of the numbering loop: over a cell's list, or over all ids for the tail. */
  method AssignIds(ids: seq<nat>, remap: array<nat>, ghost order: seq<nat>, next: nat) returns (next': nat)
    requires remap.Length <= UNASSIGNED && Listing(order, remap.Length)
    requires Numbers(remap[..], order) && next == |order|
    modifies remap
    ensures var order' := Extend(order, ids, remap.Length);
            Listing(order', remap.Length) && Numbers(remap[..], order') && next' == |order'|
  {
    next' := next;
    for i := 0 to |ids|
      invariant Listing(Extend(order, ids[..i], remap.Length), remap.Length)
      invariant Numbers(remap[..], Extend(order, ids[..i], remap.Length))
      invariant next' == |Extend(order, ids[..i], remap.Length)|
    {
      var oldId := ids[i];
      ghost var before := Extend(order, ids[..i], remap.Length);
      assert ids[..i + 1][..i] == ids[..i];
      ExtendListing(order, ids[..i + 1], remap.Length);
      ListingBound(before, remap.Length);
      if oldId < remap.Length {
        Unnumbered(remap[..], before, oldId);
        if remap[oldId] == UNASSIGNED {
          remap[oldId] := next';
          next' := next' + 1;
        }
      }
    }
    assert ids[..|ids|] == ids;
  }

  lemma ListingBound(order: seq<nat>, n: nat)
    requires Listing(order, n)
    ensures |order| <= n
  {
    ExtendListing(order, Range(n), n);
    forall x: nat | x < n ensures x in Range(n) {
      assert Range(n)[x] == x;
    }
    FullListing(Extend(order, Range(n), n), n);
    ExtendGrows(order, Range(n), n);
  }

  lemma {:induction false} ExtendGrows(order: seq<nat>, ids: seq<nat>, n: nat)
    ensures |order| <= |Extend(order, ids, n)|
  {
    if ids != [] {
      ExtendGrows(order, ids[..|ids| - 1], n);
    }
  }

  /** The mark tells exactly the ids that have no number yet. */
  lemma Unnumbered(remap: seq<nat>, order: seq<nat>, id: nat)
    requires |remap| <= UNASSIGNED && |order| <= |remap| && Numbers(remap, order) && id < |remap|
    ensures remap[id] == UNASSIGNED <==> id !in order
  {
    if id in order {
      var k :| 0 <= k < |order| && order[k] == id;
    }
  }

  // --- The table that is one record too long ---

  /** The mark tells the ids without a number from those with one, in every listing of ids below `n`. */
  ghost predicate MarkTells(n: nat) {
    forall remap: seq<nat>, order, id: nat ::
      |remap| == n && Listing(order, n) && Numbers(remap, order) && id < n ==>
        (remap[id] == UNASSIGNED <==> id !in order)
  }

  /** It does exactly if no number is the mark itself; with more points the one numbered last has it. */
  lemma MarkTellsExactly(n: nat)
    ensures MarkTells(n) <==> n <= UNASSIGNED
  {
    if n <= UNASSIGNED {
      forall remap: seq<nat>, order, id: nat | |remap| == n && Listing(order, n) && Numbers(remap, order) && id < n
        ensures remap[id] == UNASSIGNED <==> id !in order
      {
        ListingBound(order, n);
        Unnumbered(remap, order, id);
      }
    } else {
      var all := Range(n);
      assert Numbers(all, all) && Listing(all, n) && all[UNASSIGNED] == UNASSIGNED;
    }
  }

  /** In a table of 2^32 points the one numbered last looks as if it had no number. */
  lemma LastLooksUnnumbered(remap: seq<nat>, order: seq<nat>)
    requires |remap| == UNASSIGNED + 1 && Permutation(order, |remap|) && Numbers(remap, order)
    ensures forall id: nat :: id < |remap| ==> (remap[id] == UNASSIGNED <==> id == order[UNASSIGNED])
  {
    forall id: nat | id < |remap| ensures remap[id] == UNASSIGNED <==> id == order[UNASSIGNED] {
      RemapInverts(remap, order, id);
    }
  }

  /** A 32-bit loop variable after `k` increments. */
  function Counter(k: nat): U32 {
    k % (U32_MAX + 1)
  }

  /** The loops over all points leave off exactly if there are fewer than 2^32. */
  lemma CounterLeavesOff(n: nat)
    ensures (exists k: nat :: Counter(k) >= n) <==> n <= UNASSIGNED
  {
    if n <= UNASSIGNED {
      assert Counter(n) == n;
    }
  }

  // --- Reordering and renumbering ---

  ghost predicate InRange(lists: IdLists, n: nat) {
    forall c :: c in lists ==> Below(lists[c], n)
  }

  function IndexOf(order: seq<nat>, x: nat): (k: nat)
    requires x in order
    ensures k < |order| && order[k] == x
  {
    assert order == order[..|order| - 1] + [order[|order| - 1]];
    if order[|order| - 1] == x then |order| - 1 else IndexOf(order[..|order| - 1], x)
  }

  /** The new ids of `ids`: where the order has put each of them. */
  function Renumber(order: seq<nat>, ids: seq<nat>): (r: seq<nat>)
    requires forall i :: 0 <= i < |ids| ==> ids[i] in order
    ensures |r| == |ids| && forall i :: 0 <= i < |ids| ==> r[i] < |order| && order[r[i]] == ids[i]
  {
    seq(|ids|, i requires 0 <= i < |ids| => IndexOf(order, ids[i]))
  }

  /** The records behind a list of ids. */
  function Resolve<T>(points: seq<T>, ids: seq<nat>): (r: seq<T>)
    requires Below(ids, |points|)
    ensures |r| == |ids| && forall i :: 0 <= i < |ids| ==> r[i] == points[ids[i]]
  {
    seq(|ids|, i requires 0 <= i < |ids| => points[ids[i]])
  }

  lemma RemapInverts(remap: seq<nat>, order: seq<nat>, x: nat)
    requires Permutation(order, |remap|) && Numbers(remap, order) && x < |remap|
    ensures remap[x] < |remap| && order[remap[x]] == x && remap[x] == IndexOf(order, x)
  {
    assert x in order;
    var k :| 0 <= k < |order| && order[k] == x;
    assert order[IndexOf(order, x)] == x;
  }

  /** The whole numbering step: cells in order, then the tail. */
  method BuildRemap(cells: seq<U64>, lists: IdLists, n: nat) returns (remap: array<nat>)
    requires n <= UNASSIGNED && forall c :: c in cells ==> c in lists
    ensures fresh(remap) && remap.Length == n && Numbers(remap[..], NewOrder(cells, lists, n))
  {
    remap := new nat[n](_ => UNASSIGNED);
    var next := 0;
    for i := 0 to |cells|
      invariant Listing(ExtendCells(cells[..i], lists, n), n)
      invariant Numbers(remap[..], ExtendCells(cells[..i], lists, n))
      invariant next == |ExtendCells(cells[..i], lists, n)|
    {
      assert cells[..i + 1][..i] == cells[..i];
      next := AssignIds(lists[cells[i]], remap, ExtendCells(cells[..i], lists, n), next);
    }
    assert cells[..|cells|] == cells;
    next := AssignIds(Range(n), remap, ExtendCells(cells, lists, n), next);
  }

  /** Copies every record to its new place. */
  method Materialise<T(0)>(points: seq<T>, remap: array<nat>, ghost order: seq<nat>) returns (r: seq<T>)
    requires remap.Length == |points| && Permutation(order, |points|) && Numbers(remap[..], order)
    ensures |r| == |points| && forall k :: 0 <= k < |r| ==> r[k] == points[order[k]]
  {
    var reordered := new T[|points|];
    for oldId := 0 to |points|
      invariant forall k :: 0 <= k < |points| && order[k] < oldId ==> reordered[k] == points[order[k]]
    {
      RemapInverts(remap[..], order, oldId);
      reordered[remap[oldId]] := points[oldId];
    }
    r := reordered[..];
  }

  /** `list` is the sorted renumbering of `ids`. */
  ghost predicate Rewritten(order: seq<nat>, ids: seq<nat>, list: seq<nat>)
    requires Permutation(order, |order|) && Below(ids, |order|)
  {
    assert forall i :: 0 <= i < |ids| ==> ids[i] in order;
    Sorted(list) && multiset(list) == multiset(Renumber(order, ids))
  }

  /** Rewrites one cell's list and sorts it. */
  method RewriteList(ids: seq<nat>, remap: array<nat>, ghost order: seq<nat>) returns (r: seq<nat>)
    requires Permutation(order, remap.Length) && Numbers(remap[..], order)
    requires Below(ids, remap.Length)
    ensures Rewritten(order, ids, r)
  {
    assert forall i :: 0 <= i < |ids| ==> ids[i] in order;
    var renamed: seq<nat> := [];
    for i := 0 to |ids|
      invariant renamed == Renumber(order, ids)[..i]
    {
      RemapInverts(remap[..], order, ids[i]);
      renamed := renamed + [remap[ids[i]]];
    }
    assert renamed == Renumber(order, ids);
    r := SortAscending(renamed);
  }

  /** Rewrites the lists of all cells. */
  method RewriteLists(cells: seq<U64>, lists: IdLists, remap: array<nat>, ghost order: seq<nat>)
    returns (rewritten: IdLists)
    requires Permutation(order, remap.Length) && Numbers(remap[..], order)
    requires InRange(lists, remap.Length) && IsKeyOrder(cells, lists.Keys)
    ensures rewritten.Keys == lists.Keys
    ensures forall c :: c in lists ==> Rewritten(order, lists[c], rewritten[c])
  {
    rewritten := map[];
    for i := 0 to |cells|
      invariant forall c :: c in rewritten <==> c in cells[..i]
      invariant forall c :: c in rewritten ==> c in lists && Rewritten(order, lists[c], rewritten[c])
    {
      assert cells[i] in lists.Keys;
      var list := RewriteList(lists[cells[i]], remap, order);
      rewritten := rewritten[cells[i] := list];
    }
    assert cells[..|cells|] == cells;
  }

  // --- The address table ---

  ghost predicate HasId(lists: IdLists, x: nat) {
    exists c :: c in lists && x in lists[c]
  }

  /** Every id below `n` stands in exactly one list, once. */
  ghost predicate ListedOnce(lists: IdLists, n: nat) {
    && InRange(lists, n)
    && (forall c, d, i, j ::
          c in lists && d in lists && 0 <= i < |lists[c]| && 0 <= j < |lists[d]| && lists[c][i] == lists[d][j]
          ==> c == d && i == j)
    && (forall x: nat :: x < n ==> HasId(lists, x))
  }

  /** What the reordering does to the table when the addresses are put in `order`. */
  ghost predicate Reordered<T(!new)>(
    points: seq<T>, lists: IdLists, points': seq<T>, lists': IdLists, order: seq<nat>)
    requires InRange(lists, |points|) && Permutation(order, |points|)
  {
    && |points'| == |points|
    && (forall k :: 0 <= k < |points| ==> points'[k] == points[order[k]])
    && lists'.Keys == lists.Keys
    && (forall c :: c in lists ==> Rewritten(order, lists[c], lists'[c]))
  }

  class AddressTable<T(0, !new)> {
    var points: seq<T>
    var lists: IdLists

    ghost predicate Valid()
      reads this
    {
      |points| <= U32_MAX + 1 && ListedOnce(lists, |points|)
    }

    constructor ()
      ensures Valid() && points == [] && lists == map[]
    {
      points, lists := [], map[];
    }

    /** `add_addr_point_full`, after the strings were interned; refuses an id beyond 32 bits. */
    method Add(point: T, cell: U64) returns (ok: bool)
      requires Valid()
      modifies this
      ensures Valid()
      ensures ok <==> |old(points)| <= U32_MAX
      ensures !ok ==> points == old(points) && lists == old(lists)
      ensures ok ==>
                points == old(points) + [point]
                && lists == old(lists)[cell := (if cell in old(lists) then old(lists)[cell] else []) + [|old(points)|]]
    {
      if |points| > U32_MAX {
        return false;
      }
      ok := true;
      ghost var before, n := lists, |points|;
      var list := if cell in lists then lists[cell] else [];
      points := points + [point];
      lists := lists[cell := list + [|points| - 1]];
      AddListedOnce(before, n, cell, list);
    }

    /**
     `sort_addr_points_by_cell`.  One point short of what `Add` admits: see `MarkTellsExactly` and
     `CounterLeavesOff` for the table of 2^32 points, on which the source does not end.
     */
    method SortByCell()
      requires Valid() && |points| <= UNASSIGNED
      modifies this
      ensures Valid()
      ensures forall cells :: IsKeyOrder(cells, old(lists).Keys) ==>
                var order := NewOrder(cells, old(lists), |old(points)|);
                Permutation(order, |old(points)|)
                && Reordered(old(points), old(lists), points, lists, order)
    {
      var cells := SortKeys(lists.Keys);
      ghost var order := NewOrder(cells, lists, |points|);
      NewOrderIsPermutation(cells, lists, |points|);
      var remap := BuildRemap(cells, lists, |points|);
      var reordered := Materialise(points, remap, order);
      var rewritten := RewriteLists(cells, lists, remap, order);
      forall other | IsKeyOrder(other, lists.Keys) ensures other == cells {
        KeyOrderUnique(other, cells, lists.Keys);
      }
      ReorderedListedOnce(points, lists, reordered, rewritten, order);
      points, lists := reordered, rewritten;
    }
  }

  lemma AddListedOnce(lists: IdLists, n: nat, cell: U64, list: seq<nat>)
    requires ListedOnce(lists, n) && list == if cell in lists then lists[cell] else []
    ensures ListedOnce(lists[cell := list + [n]], n + 1)
  {
    var more := lists[cell := list + [n]];
    forall c, i | c in more && 0 <= i < |more[c]|
      ensures more[c][i] == n ==> c == cell && i == |list|
      ensures more[c][i] != n ==> c in lists && i < |lists[c]| && lists[c][i] == more[c][i] < n
    {
      assert c in lists ==> Below(lists[c], n);
    }
    forall x: nat | x < n + 1 ensures HasId(more, x) {
      if x < n {
        assert HasId(lists, x);
        var c :| c in lists && x in lists[c];
        assert c in more && x in more[c];
      } else {
        assert more[cell][|list|] == n;
        assert cell in more && x in more[cell];
      }
    }
  }

  // --- What the reordering keeps ---

  lemma {:induction false} ResolvePermuted<T>(points: seq<T>, a: seq<nat>, b: seq<nat>)
    requires multiset(a) == multiset(b)
    requires Below(a, |points|) && Below(b, |points|)
    ensures multiset(Resolve(points, a)) == multiset(Resolve(points, b))
    decreases |a|
  {
    if a == [] {
      assert |multiset(b)| == |multiset(a)|;
    } else {
      var k, rest := SplitOff(a, b);
      var front, record := a[..|a| - 1], points[b[k]];
      ResolvePermuted(points, front, rest);
      assert Resolve(points, a) == Resolve(points, front) + [record];
      assert Resolve(points, b) == Resolve(points, b[..k]) + [record] + Resolve(points, b[k + 1..]);
      assert Resolve(points, rest) == Resolve(points, b[..k]) + Resolve(points, b[k + 1..]);
    }
  }

  /** Every cell resolves to the same records as before. */
  lemma CellRecordsKept<T(!new)>(
    points: seq<T>, lists: IdLists, points': seq<T>, lists': IdLists, order: seq<nat>, c: U64)
    requires InRange(lists, |points|) && Permutation(order, |points|)
    requires Reordered(points, lists, points', lists', order) && c in lists
    ensures Below(lists'[c], |points'|)
    ensures multiset(Resolve(points', lists'[c])) == multiset(Resolve(points, lists[c]))
  {
    var renamed := Renumber(order, lists[c]);
    forall i | 0 <= i < |lists'[c]| ensures lists'[c][i] < |points'| {
      assert lists'[c][i] in multiset(renamed);
    }
    ResolvePermuted(points', lists'[c], renamed);
    assert Resolve(points', renamed) == Resolve(points, lists[c]);
  }

  lemma {:induction false} DistinctMultiset(a: seq<nat>, x: nat)
    requires Distinct(a)
    ensures multiset(a)[x] == if x in a then 1 else 0
  {
    if a != [] {
      var front, last := a[..|a| - 1], a[|a| - 1];
      DistinctMultiset(front, x);
      assert a == front + [last];
    }
  }

  /** No record is lost or copied. */
  lemma RecordsKept<T(!new)>(
    points: seq<T>, lists: IdLists, points': seq<T>, lists': IdLists, order: seq<nat>)
    requires InRange(lists, |points|) && Permutation(order, |points|)
    requires Reordered(points, lists, points', lists', order)
    ensures multiset(points') == multiset(points)
  {
    var n := |points|;
    forall x: nat ensures multiset(order)[x] == multiset(Range(n))[x] {
      DistinctMultiset(order, x);
      DistinctMultiset(Range(n), x);
      if x < n { assert Range(n)[x] == x; }
    }
    ResolvePermuted(points, order, Range(n));
    assert points' == Resolve(points, order) && points == Resolve(points, Range(n));
  }

  /** A rewritten list holds the new places of exactly the ids it held. */
  lemma RewrittenHolds(order: seq<nat>, ids: seq<nat>, list: seq<nat>, y: nat)
    requires Permutation(order, |order|) && Below(ids, |order|) && Rewritten(order, ids, list)
    ensures y in list <==> y < |order| && order[y] in ids
  {
    var renamed := Renumber(order, ids);
    assert y in list <==> y in multiset(renamed);
    if y < |order| && order[y] in ids {
      var i :| 0 <= i < |ids| && ids[i] == order[y];
      assert renamed[i] == y;
    }
  }

  lemma RewrittenDistinct(order: seq<nat>, ids: seq<nat>, list: seq<nat>)
    requires Permutation(order, |order|) && Below(ids, |order|) && Distinct(ids) && Rewritten(order, ids, list)
    ensures Distinct(list) && Below(list, |order|)
  {
    var renamed := Renumber(order, ids);
    forall i | 0 <= i < |list| ensures list[i] < |order| {
      assert list[i] in multiset(renamed);
    }
    assert Distinct(renamed);
    forall i, j | 0 <= i < j < |list| ensures list[i] != list[j] {
      DistinctMultiset(renamed, list[i]);
      assert list == list[..j] + [list[j]] + list[j + 1..] && list[..j][i] == list[i];
    }
  }

  lemma SamePlace(s: seq<nat>, i: nat, j: nat)
    requires Distinct(s) && i < |s| && j < |s| && s[i] == s[j]
    ensures i == j
  {}

  /** Sorting keeps every id listed exactly once, so that points can be added again. */
  lemma ReorderedListedOnce<T(!new)>(
    points: seq<T>, lists: IdLists, points': seq<T>, lists': IdLists, order: seq<nat>)
    requires ListedOnce(lists, |points|) && Permutation(order, |points|)
    requires Reordered(points, lists, points', lists', order)
    ensures ListedOnce(lists', |points'|)
  {
    forall c | c in lists'
      ensures Distinct(lists'[c]) && Below(lists'[c], |points|)
      ensures forall y: nat :: y in lists'[c] <==> y < |points| && order[y] in lists[c]
    {
      RewrittenDistinct(order, lists[c], lists'[c]);
      forall y: nat ensures y in lists'[c] <==> y < |points| && order[y] in lists[c] {
        RewrittenHolds(order, lists[c], lists'[c], y);
      }
    }
    forall c, d, i, j |
      c in lists' && d in lists' && 0 <= i < |lists'[c]| && 0 <= j < |lists'[d]| && lists'[c][i] == lists'[d][j]
      ensures c == d && i == j
    {
      var y := lists'[c][i];
      assert y in lists'[c] && y in lists'[d];
      var k :| 0 <= k < |lists[c]| && lists[c][k] == order[y];
      var l :| 0 <= l < |lists[d]| && lists[d][l] == order[y];
      assert c == d;
      SamePlace(lists'[c], i, j);
    }
    forall y: nat | y < |points| ensures HasId(lists', y) {
      assert HasId(lists, order[y]);
      var c :| c in lists && order[y] in lists[c];
      assert y in lists'[c];
    }
  }

  // --- Contiguity ---

  ghost predicate ListedIn(cells: seq<U64>, lists: IdLists, x: nat)
    requires forall c :: c in cells ==> c in lists
  {
    exists k :: 0 <= k < |cells| && x in lists[cells[k]]
  }

  lemma ListedInStep(cells: seq<U64>, lists: IdLists, x: nat)
    requires cells != [] && forall c :: c in cells ==> c in lists
    ensures ListedIn(cells, lists, x)
            <==> ListedIn(cells[..|cells| - 1], lists, x) || x in lists[cells[|cells| - 1]]
  {
    if ListedIn(cells, lists, x) {
      var k :| 0 <= k < |cells| && x in lists[cells[k]];
      assert k < |cells| - 1 ==> cells[..|cells| - 1][k] == cells[k];
    }
    if ListedIn(cells[..|cells| - 1], lists, x) {
      var k :| 0 <= k < |cells| - 1 && x in lists[cells[..|cells| - 1][k]];
      assert x in lists[cells[k]];
    }
  }

  /** A cell's ids do not occur in the lists of smaller cells. */
  lemma ListsApart(cells: seq<U64>, lists: IdLists, n: nat, x: nat)
    requires cells != [] && ListedOnce(lists, n) && Ascending(cells) && forall c :: c in cells ==> c in lists
    requires ListedIn(cells[..|cells| - 1], lists, x)
    ensures x !in lists[cells[|cells| - 1]]
  {
    var front, last := cells[..|cells| - 1], cells[|cells| - 1];
    var k :| 0 <= k < |front| && x in lists[front[k]];
    assert front[k] == cells[k] < last;
    var i :| 0 <= i < |lists[cells[k]]| && lists[cells[k]][i] == x;
    assert forall j :: 0 <= j < |lists[last]| ==> lists[last][j] != x;
  }

  lemma {:induction false} WalkListed(cells: seq<U64>, lists: IdLists, n: nat)
    requires ListedOnce(lists, n) && Ascending(cells) && forall c :: c in cells ==> c in lists
    ensures Listing(Walk(cells, lists), n)
    ensures forall x: nat :: x in Walk(cells, lists) <==> ListedIn(cells, lists, x)
  {
    if cells != [] {
      var front, last := cells[..|cells| - 1], cells[|cells| - 1];
      WalkListed(front, lists, n);
      var walk, list := Walk(front, lists), lists[last];
      assert Below(list, n);
      forall i, j | 0 <= i < |walk| && 0 <= j < |list| ensures walk[i] != list[j] {
        assert walk[i] in walk;
        ListsApart(cells, lists, n, walk[i]);
      }
      forall x: nat ensures x in walk + list <==> ListedIn(cells, lists, x) {
        ListedInStep(cells, lists, x);
      }
    }
  }

  /** A complete listing walks over every id. */
  lemma WalkComplete(cells: seq<U64>, lists: IdLists, n: nat, x: nat)
    requires ListedOnce(lists, n) && IsKeyOrder(cells, lists.Keys) && x < n
    ensures ListedIn(cells, lists, x)
  {
    assert HasId(lists, x);
    var c :| c in lists && x in lists[c];
    var k :| 0 <= k < |cells| && cells[k] == c;
  }

  /** The new ids of the cell after `cells`: the block that follows their lists. */
  function Block(start: nat, length: nat): (r: seq<nat>)
    ensures |r| == length && forall i :: 0 <= i < length ==> r[i] == start + i
  {
    seq(length, i => start + i)
  }

  lemma {:induction false} WalkPrefix(cells: seq<U64>, lists: IdLists, j: nat)
    requires j < |cells| && forall c :: c in cells ==> c in lists
    ensures var start, list := |Walk(cells[..j], lists)|, lists[cells[j]];
            start + |list| <= |Walk(cells, lists)| && Walk(cells, lists)[start..start + |list|] == list
    decreases |cells|
  {
    var front := cells[..|cells| - 1];
    if j < |front| {
      assert front[..j] == cells[..j];
      WalkPrefix(front, lists, j);
    }
  }

  /** A complete table is reordered exactly as its cells list it. */
  lemma CompleteOrderIsWalk(cells: seq<U64>, lists: IdLists, n: nat)
    requires ListedOnce(lists, n) && IsKeyOrder(cells, lists.Keys)
    ensures Listing(Walk(cells, lists), n) && NewOrder(cells, lists, n) == Walk(cells, lists)
  {
    WalkListed(cells, lists, n);
    forall x: nat | x < n ensures x in Walk(cells, lists) {
      WalkComplete(cells, lists, n, x);
    }
    NewOrderIsWalk(cells, lists, n);
  }

  lemma DistinctIndex(s: seq<nat>, k: nat)
    requires Distinct(s) && k < |s|
    ensures IndexOf(s, s[k]) == k
  {
    assert s[IndexOf(s, s[k])] == s[k];
  }

  lemma RenumberedRun(walk: seq<nat>, list: seq<nat>, start: nat)
    requires Distinct(walk) && start + |list| <= |walk| && walk[start..start + |list|] == list
    ensures forall i :: 0 <= i < |list| ==> list[i] in walk
    ensures Renumber(walk, list) == Block(start, |list|)
  {
    forall i | 0 <= i < |list| ensures list[i] in walk && IndexOf(walk, list[i]) == start + i {
      assert walk[start..start + |list|][i] == walk[start + i];
      DistinctIndex(walk, start + i);
    }
  }

  lemma RewrittenRun(order: seq<nat>, ids: seq<nat>, list: seq<nat>, start: nat)
    requires Permutation(order, |order|) && Below(ids, |order|) && Rewritten(order, ids, list)
    requires start + |ids| <= |order| && order[start..start + |ids|] == ids
    ensures list == Block(start, |ids|)
  {
    RenumberedRun(order, ids, start);
    SortedUnique(list, Block(start, |ids|));
  }

  /** A cell whose ids stand together in the order is rewritten to one ascending run. */
  lemma RunFromOrder<T(!new)>(
    points: seq<T>, lists: IdLists, points': seq<T>, lists': IdLists, order: seq<nat>, c: U64, start: nat)
    requires InRange(lists, |points|) && Permutation(order, |points|) && c in lists
    requires Reordered(points, lists, points', lists', order)
    requires start + |lists[c]| <= |order| && order[start..start + |lists[c]|] == lists[c]
    ensures lists'[c] == Block(start, |lists[c]|)
  {
    RewrittenRun(order, lists[c], lists'[c], start);
  }

  /** In the order of a complete table the ids of a cell follow those of the smaller cells. */
  lemma CellStandsTogether(cells: seq<U64>, lists: IdLists, n: nat, order: seq<nat>, j: nat, start: nat)
    requires ListedOnce(lists, n) && IsKeyOrder(cells, lists.Keys) && j < |cells|
    requires order == NewOrder(cells, lists, n) && start == |Walk(cells[..j], lists)|
    ensures start + |lists[cells[j]]| <= |order| && order[start..start + |lists[cells[j]]|] == lists[cells[j]]
  {
    CompleteOrderIsWalk(cells, lists, n);
    WalkPrefix(cells, lists, j);
  }

  /** The ids of one cell become one ascending run, right after the runs of the smaller cells. */
  lemma CellsBecomeRuns<T(!new)>(
    points: seq<T>, lists: IdLists, points': seq<T>, lists': IdLists, cells: seq<U64>, order: seq<nat>,
    j: nat, start: nat)
    requires ListedOnce(lists, |points|) && IsKeyOrder(cells, lists.Keys) && j < |cells|
    requires order == NewOrder(cells, lists, |points|) && Permutation(order, |points|)
    requires Reordered(points, lists, points', lists', order)
    requires start == |Walk(cells[..j], lists)|
    ensures lists'[cells[j]] == Block(start, |lists[cells[j]]|)
  {
    CellStandsTogether(cells, lists, |points|, order, j, start);
    RunFromOrder(points, lists, points', lists', order, cells[j], start);
  }
}
