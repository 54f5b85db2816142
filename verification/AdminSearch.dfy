/** The server's `find_admin`: the smallest polygon around a point, for each admin level. */
module AdminSearch {
  import opened Bytes
  import opened CellOrder
  import opened CellWriter
  import opened CellReader
  import opened CellRoundTrip
  import opened EvenOdd
  import opened Nearest
  import opened Rings
  import opened Wrappers

  datatype AdminPolygon = AdminPolygon(vertexOffset: nat, vertexCount: nat, level: nat, area: real)

  /** The mapped record files. */
  datatype Tables = Tables(polygons: seq<AdminPolygon>, vertices: seq<Point>)

  const LEVELS: nat := 12

  const INTERIOR_FLAG: nat := 0x8000_0000

  /** The winner so far of each level, by polygon id. */
  type Winners = w: seq<Best<nat>> | |w| == LEVELS witness seq(LEVELS, _ => None)

  function PolyId(entry: U32): nat { entry % INTERIOR_FLAG }

  predicate IsInterior(entry: U32) { entry >= INTERIOR_FLAG }

  /** The entry that the builder lists for a polygon, with the flag for cells inside it. */
  function Entry(poly: nat, interior: bool): U32
    requires poly < INTERIOR_FLAG
  {
    if interior then poly + INTERIOR_FLAG else poly
  }

  /** Polygon and flag read back from an entry. */
  lemma EntryReadsBack(poly: nat, interior: bool)
    requires poly < INTERIOR_FLAG
    ensures PolyId(Entry(poly, interior)) == poly && IsInterior(Entry(poly, interior)) == interior
  {}

  /** A record whose id, level and vertex range make sense. */
  predicate WellFormed(t: Tables, poly: nat) {
    && poly < |t.polygons| && t.polygons[poly].level < LEVELS
    && t.polygons[poly].vertexOffset + t.polygons[poly].vertexCount <= |t.vertices|
    && t.polygons[poly].vertexCount >= 3
  }

  function Outline(t: Tables, poly: nat): Ring
    requires WellFormed(t, poly)
  {
    var p := t.polygons[poly];
    t.vertices[p.vertexOffset..p.vertexOffset + p.vertexCount]
  }

  /** An entry met during the scan, with the cell that listed it. */
  datatype Hit = Hit(cell: U64, entry: U32)

  /** Is the point taken to be in the polygon of this entry?  A flag only counts in its own cell. */
  predicate Accepts(t: Tables, p: Point, origin: U64, hit: Hit)
    requires WellFormed(t, PolyId(hit.entry))
  {
    (IsInterior(hit.entry) && hit.cell == origin) || Inside(p, Outline(t, PolyId(hit.entry)))
  }

  /** What one entry does to the winners. */
  function Consider(t: Tables, p: Point, origin: U64, best: Winners, hit: Hit): Winners {
    var id := PolyId(hit.entry);
    if WellFormed(t, id) && Accepts(t, p, origin, hit) then
      var level := t.polygons[id].level;
      best[level := Better(best[level], Scored(t.polygons[id].area, id))]
    else best
  }

  function ConsiderAll(t: Tables, p: Point, origin: U64, hits: seq<Hit>): Winners {
    if hits == [] then seq(LEVELS, _ => None)
    else Consider(t, p, origin, ConsiderAll(t, p, origin, hits[..|hits| - 1]), hits[|hits| - 1])
  }

  /** The entries of one cell as hits. */
  function CellHits(cell: U64, ids: seq<U32>): (hits: seq<Hit>)
    ensures |hits| == |ids| && forall i :: 0 <= i < |ids| ==> hits[i] == Hit(cell, ids[i])
  {
    seq(|ids|, i requires 0 <= i < |ids| => Hit(cell, ids[i]))
  }

  /** Everything the scan of `cells` meets, in order. */
  function ScanHits(cells: seq<U64>, table: File, entries: File): seq<Hit> {
    if cells == [] then []
    else
      var last := cells[|cells| - 1];
      ScanHits(cells[..|cells| - 1], table, entries)
      + CellHits(last, Visited(entries, TableOffset(table, CELL_STRIDE, last, 0)))
  }

  lemma ScanHitsStep(cells: seq<U64>, c: nat, table: File, entries: File)
    requires c < |cells|
    ensures ScanHits(cells[..c + 1], table, entries)
            == ScanHits(cells[..c], table, entries)
               + CellHits(cells[c], Visited(entries, TableOffset(table, CELL_STRIDE, cells[c], 0)))
  {
    assert cells[..c + 1][..c] == cells[..c];
  }

  /** The callback of `find_admin`: the area test comes first, the polygon test last. */
  method VisitEntry(t: Tables, p: Point, origin: U64, hit: Hit, best: array<Best<nat>>)
    requires best.Length == LEVELS
    modifies best
    ensures best[..] == Consider(t, p, origin, old(best[..]), hit)
  {
    var id := PolyId(hit.entry);
    if id >= |t.polygons| {
      return;
    }
    var poly := t.polygons[id];
    if poly.level >= LEVELS {
      return;
    }
    if best[poly.level].Some? && poly.area >= best[poly.level].value.score {
      return;
    }
    if poly.vertexOffset + poly.vertexCount > |t.vertices| || poly.vertexCount < 3 {
      return;
    }
    var accepted := IsInterior(hit.entry) && hit.cell == origin;
    if !accepted {
      accepted := PointInPolygon(p, Outline(t, id));
    }
    if accepted {
      best[poly.level] := Some(Scored(poly.area, id));
    }
  }

  lemma {:induction false} ConsiderAllAppend(t: Tables, p: Point, origin: U64, a: seq<Hit>, hit: Hit)
    ensures ConsiderAll(t, p, origin, a + [hit]) == Consider(t, p, origin, ConsiderAll(t, p, origin, a), hit)
  {
    assert (a + [hit])[..|a|] == a;
  }

  /** The entries of one cell, one callback each. */
  method ScanCell(
    t: Tables, p: Point, origin: U64, cell: U64, ids: seq<U32>, best: array<Best<nat>>, ghost hits: seq<Hit>)
    requires best.Length == LEVELS && best[..] == ConsiderAll(t, p, origin, hits)
    modifies best
    ensures best[..] == ConsiderAll(t, p, origin, hits + CellHits(cell, ids))
  {
    assert hits + CellHits(cell, ids[..0]) == hits;
    for i := 0 to |ids|
      invariant best[..] == ConsiderAll(t, p, origin, hits + CellHits(cell, ids[..i]))
    {
      ghost var seen := hits + CellHits(cell, ids[..i]);
      ConsiderAllAppend(t, p, origin, seen, Hit(cell, ids[i]));
      VisitEntry(t, p, origin, Hit(cell, ids[i]), best);
      assert seen + [Hit(cell, ids[i])] == hits + CellHits(cell, ids[..i + 1]);
    }
    assert ids[..|ids|] == ids;
  }

  /** One cell of the scan: its list is looked up and every entry visited. */
  method ScanListed(
    t: Tables, p: Point, origin: U64, cells: seq<U64>, c: nat, table: File, entries: File, best: array<Best<nat>>)
    requires c < |cells| && best.Length == LEVELS
    requires best[..] == ConsiderAll(t, p, origin, ScanHits(cells[..c], table, entries))
    modifies best
    ensures best[..] == ConsiderAll(t, p, origin, ScanHits(cells[..c + 1], table, entries))
  {
    var offset := LookupAdminCell(table, cells[c]);
    var ids := ForEachEntry(entries, offset);
    ScanCell(t, p, origin, cells[c], ids, best, ScanHits(cells[..c], table, entries));
    ScanHitsStep(cells, c, table, entries);
  }

  /** The scan of `find_admin` over the cell of the point and its neighbours. */
  method FindAdmin(t: Tables, p: Point, origin: U64, neighbours: seq<U64>, table: File, entries: File)
    returns (best: array<Best<nat>>)
    ensures fresh(best) && best.Length == LEVELS
    ensures best[..] == ConsiderAll(t, p, origin, ScanHits([origin] + neighbours, table, entries))
  {
    best := new Best<nat>[LEVELS](_ => None);
    var cells := [origin] + neighbours;
    for c := 0 to |cells|
      invariant best[..] == ConsiderAll(t, p, origin, ScanHits(cells[..c], table, entries))
    {
      ScanListed(t, p, origin, cells, c, table, entries, best);
    }
    assert cells[..|cells|] == cells;
  }

  // --- The declarative winner ---

  /** The entry is a candidate of its level. */
  ghost predicate Candidate(t: Tables, p: Point, origin: U64, level: nat, hit: Hit) {
    var id := PolyId(hit.entry);
    WellFormed(t, id) && t.polygons[id].level == level && Accepts(t, p, origin, hit)
  }

  /** The winner of a level is a candidate that no candidate undercuts; no winner, no candidate. */
  ghost predicate IsArgmin(t: Tables, p: Point, origin: U64, level: nat, hits: seq<Hit>, w: Best<nat>) {
    && (w.None? ==> forall i :: 0 <= i < |hits| ==> !Candidate(t, p, origin, level, hits[i]))
    && (w.Some? ==>
          (exists i :: 0 <= i < |hits| && Candidate(t, p, origin, level, hits[i])
             && w.value == Scored(t.polygons[PolyId(hits[i].entry)].area, PolyId(hits[i].entry)))
          && forall i :: 0 <= i < |hits| && Candidate(t, p, origin, level, hits[i]) ==>
               w.value.score <= t.polygons[PolyId(hits[i].entry)].area)
  }

  /** The early area test loses nothing: each level ends with its smallest candidate. */
  lemma {:induction false} WinnersAreArgmin(t: Tables, p: Point, origin: U64, hits: seq<Hit>, level: nat)
    requires level < LEVELS
    ensures IsArgmin(t, p, origin, level, hits, ConsiderAll(t, p, origin, hits)[level])
  {
    if hits != [] {
      var n := |hits| - 1;
      var front := hits[..n];
      WinnersAreArgmin(t, p, origin, front, level);
      assert forall i :: 0 <= i < n ==> front[i] == hits[i];
      var before, after := ConsiderAll(t, p, origin, front)[level], ConsiderAll(t, p, origin, hits)[level];
      if after.Some? {
        if after == before {
          var i :| 0 <= i < |front| && Candidate(t, p, origin, level, front[i])
            && after.value == Scored(t.polygons[PolyId(front[i].entry)].area, PolyId(front[i].entry));
          assert Candidate(t, p, origin, level, hits[i]);
        } else {
          assert Candidate(t, p, origin, level, hits[n]);
        }
      }
    }
  }

  /** In its own cell, a flagged polygon really contains the point. */
  ghost predicate FlagsSound(t: Tables, p: Point, origin: U64, hits: seq<Hit>) {
    forall i :: 0 <= i < |hits| && WellFormed(t, PolyId(hits[i].entry)) ==>
      IsInterior(hits[i].entry) && hits[i].cell == origin ==> Inside(p, Outline(t, PolyId(hits[i].entry)))
  }

  /** The polygon is at this level and contains the point. */
  ghost predicate Contains(t: Tables, p: Point, level: nat, poly: nat) {
    WellFormed(t, poly) && t.polygons[poly].level == level && Inside(p, Outline(t, poly))
  }

  /** Some scanned cell lists the polygon. */
  ghost predicate ListedBy(hits: seq<Hit>, poly: nat) {
    exists i :: 0 <= i < |hits| && PolyId(hits[i].entry) == poly
  }

  /**
   With sound flags the winner of a level is a listed polygon that contains the point, of the
   smallest area among all listed polygons that do.
   */
  lemma SmallestContaining(t: Tables, p: Point, origin: U64, hits: seq<Hit>, level: nat)
    requires level < LEVELS && FlagsSound(t, p, origin, hits)
    ensures var w := ConsiderAll(t, p, origin, hits)[level];
            && (w.Some? <==> exists poly: nat :: ListedBy(hits, poly) && Contains(t, p, level, poly))
            && (w.Some? ==>
                  ListedBy(hits, w.value.item) && Contains(t, p, level, w.value.item)
                  && w.value.score == t.polygons[w.value.item].area
                  && forall poly: nat :: ListedBy(hits, poly) && Contains(t, p, level, poly) ==>
                       w.value.score <= t.polygons[poly].area)
  {
    WinnersAreArgmin(t, p, origin, hits, level);
    var w := ConsiderAll(t, p, origin, hits)[level];
    forall poly: nat | ListedBy(hits, poly) && Contains(t, p, level, poly)
      ensures w.Some? && w.value.score <= t.polygons[poly].area
    {
      var i :| 0 <= i < |hits| && PolyId(hits[i].entry) == poly;
      assert Candidate(t, p, origin, level, hits[i]);
    }
    if w.Some? {
      var i :| 0 <= i < |hits| && Candidate(t, p, origin, level, hits[i])
        && w.value == Scored(t.polygons[PolyId(hits[i].entry)].area, PolyId(hits[i].entry));
      assert ListedBy(hits, w.value.item) && Contains(t, p, level, w.value.item);
    }
  }

  /** Scanning the same polygons in another order or more often finds the same areas. */
  lemma AreaOrderIndependent(t: Tables, p: Point, origin: U64, a: seq<Hit>, b: seq<Hit>, level: nat)
    requires level < LEVELS && FlagsSound(t, p, origin, a) && FlagsSound(t, p, origin, b)
    requires forall poly: nat :: ListedBy(a, poly) <==> ListedBy(b, poly)
    ensures var wa, wb := ConsiderAll(t, p, origin, a)[level], ConsiderAll(t, p, origin, b)[level];
            (wa.Some? <==> wb.Some?) && (wa.Some? ==> wa.value.score == wb.value.score)
  {
    SmallestContaining(t, p, origin, a, level);
    SmallestContaining(t, p, origin, b, level);
  }

  // --- From the builder's lists to the answer ---

  /** What the scan meets when the files hold the builder's lists. */
  function ListedHits(cells: seq<U64>, m: CellMap): seq<Hit> {
    if cells == [] then []
    else
      var last := cells[|cells| - 1];
      ListedHits(cells[..|cells| - 1], m) + CellHits(last, Expected(m, last))
  }

  /** The scan of the written files meets the builder's own lists. */
  lemma {:induction false} ScanOfBuiltFiles(cells: seq<U64>, keys: seq<U64>, m: CellMap)
    requires IsKeyOrder(keys, m.Keys) && OffsetsFit(keys, m)
    ensures ScanHits(cells, OffsetTable(keys, m, |keys|), EntriesFile(keys, m)) == ListedHits(cells, m)
  {
    if cells != [] {
      ScanOfBuiltFiles(cells[..|cells| - 1], keys, m);
      CellIndexRoundTrip(keys, m, cells[|cells| - 1]);
    }
  }
}
