/**
 The polygon tables from the builder's side, and the answer of the admin search over everything
 the builder wrote: tables, cell lists and bridged rings.
 */
module AdminIndex {
  import opened AdminSearch
  import opened BridgeHoles
  import opened Bytes
  import opened CellOrder
  import opened CellReader
  import opened CellRoundTrip
  import opened CellWriter
  import opened EvenOdd
  import opened HoleBudget
  import opened HoleCover
  import opened Nearest
  import opened Rings
  import opened SignedAreas
  import opened Wrappers

  // --- Storing rings ---

  /** Holes below this area, in square degrees, are taken for artefacts. */
  const MIN_HOLE_AREA: real := 0.00000001

  predicate IsTiny(hole: PendingHole) {
    Area(hole.ring) < MIN_HOLE_AREA
  }

  function BigHoles(holes: seq<PendingHole>): seq<PendingHole> {
    if holes == [] then []
    else
      var last := holes[|holes| - 1];
      BigHoles(holes[..|holes| - 1]) + if IsTiny(last) then [] else [last]
  }

  /** A polygon whose holes are decided on later. */
  datatype Pending = Pending(id: nat, outer: SolidRing, holes: seq<PendingHole>)

  /** The tables, and the polygons that are in them without vertices. */
  datatype Build = Build(tables: Tables, waiting: seq<Pending>)

  /** The tables after `ring` was written for polygon `id`, which is announced by `count` vertices. */
  function Stored(t: Tables, id: nat, ring: Ring, count: nat): Tables
    requires id < |t.polygons|
  {
    var poly := t.polygons[id].(vertexOffset := |t.vertices|, vertexCount := count);
    Tables(t.polygons[id := poly], t.vertices + ring)
  }

  function Enlarged(t: Tables, ring: Ring, level: nat): Tables {
    Tables(t.polygons + [AdminPolygon(0, 0, level, Area(ring))], t.vertices)
  }

  /** After a polygon was added: with holes it waits, else its ring is written with a clamped count. */
  function AfterAdd(b: Build, ring: Ring, holes: seq<PendingHole>, level: nat): Build {
    var t, id := Enlarged(b.tables, ring, level), |b.tables.polygons|;
    if |ring| < 3 then b
    else if BigHoles(holes) != [] then Build(t, b.waiting + [Pending(id, ring, BigHoles(holes))])
    else Build(Stored(t, id, ring, Min(|ring|, MAX_VERTICES)), b.waiting)
  }

  /** After the next waiting polygon got `kept` as its holes. */
  function AfterFinish(b: Build, kept: seq<SolidRing>): Build {
    if b.waiting == [] || b.waiting[0].id >= |b.tables.polygons| then b
    else
      var ring := Bridged(b.waiting[0].outer, kept);
      Build(Stored(b.tables, b.waiting[0].id, ring, StoredLength(|ring|)), b.waiting[1..])
  }

  datatype Failure = TooManyPolygons | TooManyVertices

  /** One turn: the holes before `i` are still to be looked at, those after are what is left of them. */
  lemma TinyStep(holes: seq<PendingHole>, i: nat, big: seq<PendingHole>)
    requires i < |holes|
    ensures var hole := holes[i];
            && (holes[..i + 1] + big)[i] == hole
            && (holes[..i + 1] + big)[..i] + (holes[..i + 1] + big)[i + 1..] == holes[..i] + big
            && holes[..i + 1] + big == holes[..i] + ([hole] + big)
            && BigHoles(holes[..i + 1]) + big
               == if IsTiny(hole) then BigHoles(holes[..i]) + big else BigHoles(holes[..i]) + ([hole] + big)
  {
    assert holes[..i + 1][..i] == holes[..i];
  }

  /** The loop of `add_admin_polygon` that erases small holes, from the back. */
  method RemoveTiny(holes: seq<PendingHole>) returns (left: seq<PendingHole>)
    ensures left == BigHoles(holes)
  {
    left := holes;
    var i := |holes|;
    ghost var big: seq<PendingHole> := [];
    assert holes[..i] == holes && left == holes + big && BigHoles(holes) + big == BigHoles(holes);
    while i > 0
      invariant i <= |holes| && left == holes[..i] + big
      invariant BigHoles(holes[..i]) + big == BigHoles(holes)
    {
      i := i - 1;
      TinyStep(holes, i, big);
      if IsTiny(left[i]) {
        left := left[..i] + left[i + 1..];
      } else {
        big := [holes[i]] + big;
      }
    }
  }

  class AdminTables {
    var polygons: seq<AdminPolygon>
    var vertices: seq<Point>
    var waiting: seq<Pending>

    ghost function Contents(): Build
      reads this
    {
      Build(Tables(polygons, vertices), waiting)
    }

    /** Every waiting polygon has its record, and an outer ring that the caps left within the count. */
    ghost predicate Valid()
      reads this
    {
      forall i :: 0 <= i < |waiting| ==> waiting[i].id < |polygons| && |waiting[i].outer| <= MAX_VERTICES
    }

    constructor ()
      ensures Valid() && Contents() == Build(Tables([], []), [])
    {
      polygons, vertices, waiting := [], [], [];
    }

    /** `add_admin_polygon`, once the ring is simplified. */
    method Add(ring: Ring, holes: seq<PendingHole>, level: nat) returns (r: Result<Option<nat>, Failure>)
      requires Valid() && |ring| <= MAX_VERTICES
      modifies this
      ensures Valid()
      ensures r.Err? <==>
              && |ring| >= 3
              && (|old(polygons)| > U32_MAX || (BigHoles(holes) == [] && |old(vertices)| > U32_MAX))
      ensures r.Err? ==> Contents() == old(Contents())
      ensures r.Ok? ==>
                && Contents() == AfterAdd(old(Contents()), ring, holes, level)
                && r.value == if |ring| < 3 then None else Some(|old(polygons)|)
    {
      if |ring| < 3 {
        return Ok(None);
      }
      if |polygons| > U32_MAX {
        return Err(TooManyPolygons);
      }
      var left := RemoveTiny(holes);
      if left != [] {
        polygons := polygons + [AdminPolygon(0, 0, level, Area(ring))];
        waiting := waiting + [Pending(|polygons| - 1, ring, left)];
        return Ok(Some(|polygons| - 1));
      }
      if |vertices| > U32_MAX {
        return Err(TooManyVertices);
      }
      polygons := polygons + [AdminPolygon(|vertices|, Min(|ring|, MAX_VERTICES), level, Area(ring))];
      vertices := vertices + ring;
      r := Ok(Some(|polygons| - 1));
    }

    /** One turn of `finalize_admin_holes`: the bridged ring is written, and its count is cut to 16 bits. */
    method FinishNext(g: Geometry, capOf: Ring -> Cap, indexed: set<nat>)
      returns (r: Result<seq<SolidRing>, Failure>, ghost fit: seq<SolidRing>)
      requires Valid() && waiting != []
      modifies this
      ensures Valid()
      ensures r.Err? <==> |old(vertices)| > U32_MAX
      ensures r.Err? ==> Contents() == old(Contents())
      ensures r.Ok? ==>
                && Contents() == AfterFinish(old(Contents()), r.value)
                && r.value == Usable(g, old(waiting)[0].outer, fit)
                && Budget(old(waiting)[0].outer, r.value) <= MAX_VERTICES
    {
      var next := waiting[0];
      var ring, kept, left, _, _ := FinalizeHoles(g, capOf, indexed, next.outer, next.holes);
      fit := left;
      if |vertices| > U32_MAX {
        return Err(TooManyVertices), fit;
      }
      var poly := polygons[next.id].(vertexOffset := |vertices|, vertexCount := StoredLength(|ring|));
      polygons := polygons[next.id := poly];
      vertices := vertices + ring;
      waiting := waiting[1..];
      r := Ok(kept);
    }
  }

  /** Polygon `id` reads back as `ring`. */
  predicate Reads(t: Tables, id: nat, ring: Ring) {
    WellFormed(t, id) && Outline(t, id) == ring
  }

  /** A bridged ring reads back exactly if its length fits the 16-bit count. */
  lemma FinishedReadsExactly(t: Tables, id: nat, ring: Ring)
    requires id < |t.polygons| && t.polygons[id].level < LEVELS && |ring| >= 3
    ensures Reads(Stored(t, id, ring, StoredLength(|ring|)), id, ring) <==> |ring| <= MAX_VERTICES
  {
    var t' := Stored(t, id, ring, StoredLength(|ring|));
    if |ring| <= MAX_VERTICES {
      assert t'.vertices[|t.vertices|..|t.vertices| + |ring|] == ring;
    }
  }

  /** So a polygon reads back with its holes exactly if budget and open rings fit together. */
  lemma FinishedShapeReads(t: Tables, id: nat, outer: SolidRing, kept: seq<SolidRing>)
    requires id < |t.polygons| && t.polygons[id].level < LEVELS && |outer| >= 3
    ensures var ring := Bridged(outer, kept);
            Reads(Stored(t, id, ring, StoredLength(|ring|)), id, ring) <==>
            Budget(outer, kept) + OpenRings(kept) + (if IsClosed(outer) then 0 else 1) <= MAX_VERTICES
  {
    BridgedLength(outer, kept);
    BudgetSplit(outer, kept);
    FinishedReadsExactly(t, id, Bridged(outer, kept));
  }

  /** A ring without holes reads back as it is, but cut off after 65535 vertices. */
  lemma PlainReadsExactly(t: Tables, id: nat, ring: Ring)
    requires id < |t.polygons| && t.polygons[id].level < LEVELS && |ring| >= 3
    ensures var count := Min(|ring|, MAX_VERTICES);
            Reads(Stored(t, id, ring, count), id, ring[..count])
  {
    var count := Min(|ring|, MAX_VERTICES);
    assert Stored(t, id, ring, count).vertices[|t.vertices|..|t.vertices| + count] == ring[..count];
  }

  /** Storing a ring changes no other polygon, wherever and whenever it was stored. */
  lemma OthersStillRead(t: Tables, id: nat, ring: Ring, count: nat, other: nat, outline: Ring)
    requires id < |t.polygons| && other != id && Reads(t, other, outline)
    ensures Reads(Stored(t, id, ring, count), other, outline)
  {
    var p, t' := t.polygons[other], Stored(t, id, ring, count);
    assert t'.vertices[p.vertexOffset..p.vertexOffset + p.vertexCount] == outline;
  }

  // --- Polygons as the builder means them ---

  /** An outer ring and the holes cut out of it. */
  datatype Shape = Shape(outer: SolidRing, holes: seq<SolidRing>, level: nat, area: real)

  /** The point is in the outer ring and in no hole. */
  ghost predicate InShape(p: Point, s: Shape) {
    Inside(p, s.outer) && InNone(p, s.holes)
  }

  /** The table holds the shapes: with their rings bridged, or, without holes, as they are. */
  ghost predicate HoldsShape(t: Tables, id: nat, s: Shape) {
    && id < |t.polygons| && t.polygons[id].level == s.level && t.polygons[id].area == s.area
    && (Reads(t, id, Bridged(s.outer, s.holes)) || (s.holes == [] && Reads(t, id, s.outer)))
  }

  ghost predicate HoldsShapes(t: Tables, shapes: seq<Shape>) {
    |t.polygons| == |shapes| && forall id :: 0 <= id < |shapes| ==> HoldsShape(t, id, shapes[id])
  }

  /** Reading a polygon with the plain test means the outer ring without the holes. */
  lemma ShapeIsContained(t: Tables, p: Point, id: nat, s: Shape)
    requires HoldsShape(t, id, s) && NestedAt(p, s.outer, s.holes)
    ensures WellFormed(t, id) && (Inside(p, Outline(t, id)) <==> InShape(p, s))
  {
    if Reads(t, id, Bridged(s.outer, s.holes)) {
      BridgedMeansOuterMinusHoles(p, s.outer, s.holes);
    }
  }

  // --- Runs of the builder ---

  /** What the builder does to its tables. */
  datatype Act =
    | Adds(ring: Ring, holes: seq<PendingHole>, level: nat)
    | Finishes(kept: seq<SolidRing>)

  function Apply(b: Build, act: Act): Build {
    match act
    case Adds(ring, holes, level) => AfterAdd(b, ring, holes, level)
    case Finishes(kept) => AfterFinish(b, kept)
  }

  function Run(acts: seq<Act>): Build {
    if acts == [] then Build(Tables([], []), []) else Apply(Run(acts[..|acts| - 1]), acts[|acts| - 1])
  }

  /** What one more act means for the polygons as they are meant. */
  function Meant(b: Build, shapes: seq<Shape>, act: Act): seq<Shape> {
    match act
    case Adds(ring, _, level) => if |ring| < 3 then shapes else shapes + [Shape(ring, [], level, Area(ring))]
    case Finishes(kept) =>
      if b.waiting == [] || b.waiting[0].id >= |shapes| then shapes
      else shapes[b.waiting[0].id := shapes[b.waiting[0].id].(holes := kept)]
  }

  function ShapesOf(acts: seq<Act>): seq<Shape> {
    if acts == [] then []
    else Meant(Run(acts[..|acts| - 1]), ShapesOf(acts[..|acts| - 1]), acts[|acts| - 1])
  }

  /** The ring that is written fits its 16-bit count. */
  predicate Fits(b: Build, act: Act) {
    match act
    case Adds(ring, _, level) => level < LEVELS && |ring| <= MAX_VERTICES
    case Finishes(kept) =>
      b.waiting == [] ||
      Budget(b.waiting[0].outer, kept) + OpenRings(kept) + (if IsClosed(b.waiting[0].outer) then 0 else 1)
      <= MAX_VERTICES
  }

  /** Closed rings within the budget always fit. */
  lemma ClosedRingsFit(b: Build, kept: seq<SolidRing>)
    requires b.waiting != [] && IsClosed(b.waiting[0].outer) && Budget(b.waiting[0].outer, kept) <= MAX_VERTICES
    requires forall i :: 0 <= i < |kept| ==> IsClosed(kept[i])
    ensures Fits(b, Finishes(kept))
  {
    NoOpenRings(kept);
  }

  ghost predicate AllFit(acts: seq<Act>) {
    forall k :: 0 <= k < |acts| ==> Fits(Run(acts[..k]), acts[k])
  }

  ghost predicate Waits(b: Build, id: nat) {
    exists i :: 0 <= i < |b.waiting| && b.waiting[i].id == id
  }

  /** The next polygon that waits has the shape's outer ring. */
  ghost predicate WaitsFor(b: Build, shapes: seq<Shape>, i: nat)
    requires i < |b.waiting|
  {
    var w := b.waiting[i];
    && w.id < |shapes| && w.id < |b.tables.polygons| && |w.outer| >= 3
    && shapes[w.id] == Shape(w.outer, [], b.tables.polygons[w.id].level, b.tables.polygons[w.id].area)
    && b.tables.polygons[w.id].level < LEVELS
  }

  /** Polygons wait in the order of their ids, and all others are stored as they are meant. */
  ghost predicate Keeps(b: Build, shapes: seq<Shape>) {
    && |b.tables.polygons| == |shapes|
    && (forall i :: 0 <= i < |b.waiting| ==> WaitsFor(b, shapes, i))
    && (forall i, j :: 0 <= i < j < |b.waiting| ==> b.waiting[i].id < b.waiting[j].id)
    && (forall id: nat :: id < |shapes| ==> Waits(b, id) || HoldsShape(b.tables, id, shapes[id]))
  }

  lemma OtherStaysHeld(t: Tables, id: nat, ring: Ring, count: nat, other: nat, s: Shape)
    requires id < |t.polygons| && other != id && HoldsShape(t, other, s)
    ensures HoldsShape(Stored(t, id, ring, count), other, s)
  {
    if Reads(t, other, Bridged(s.outer, s.holes)) {
      OthersStillRead(t, id, ring, count, other, Bridged(s.outer, s.holes));
    } else {
      OthersStillRead(t, id, ring, count, other, s.outer);
    }
  }

  lemma HeldInEnlarged(t: Tables, ring: Ring, level: nat, id: nat, s: Shape)
    requires HoldsShape(t, id, s)
    ensures HoldsShape(Enlarged(t, ring, level), id, s)
  {}

  lemma AddKeeps(b: Build, shapes: seq<Shape>, ring: Ring, holes: seq<PendingHole>, level: nat)
    requires Keeps(b, shapes) && |ring| >= 3 && level < LEVELS && |ring| <= MAX_VERTICES
    ensures Keeps(AfterAdd(b, ring, holes, level), shapes + [Shape(ring, [], level, Area(ring))])
  {
    var b', n := AfterAdd(b, ring, holes, level), |shapes|;
    var shapes', t := shapes + [Shape(ring, [], level, Area(ring))], Enlarged(b.tables, ring, level);
    forall i | 0 <= i < |b'.waiting| ensures WaitsFor(b', shapes', i) {
      assert i < |b.waiting| ==> WaitsFor(b, shapes, i);
    }
    forall i, j | 0 <= i < j < |b'.waiting| ensures b'.waiting[i].id < b'.waiting[j].id {
      assert WaitsFor(b, shapes, i);
    }
    forall id: nat | id < |shapes'| ensures Waits(b', id) || HoldsShape(b'.tables, id, shapes'[id]) {
      if id < n {
        if Waits(b, id) {
          var i :| 0 <= i < |b.waiting| && b.waiting[i].id == id;
          assert b'.waiting[i].id == id;
        } else {
          HeldInEnlarged(b.tables, ring, level, id, shapes[id]);
          if BigHoles(holes) == [] {
            OtherStaysHeld(t, n, ring, Min(|ring|, MAX_VERTICES), id, shapes[id]);
          }
        }
      } else if BigHoles(holes) != [] {
        assert b'.waiting[|b.waiting|].id == id;
      } else {
        PlainReadsExactly(t, n, ring);
        assert ring[..|ring|] == ring;
      }
    }
  }

  lemma FinishKeeps(b: Build, shapes: seq<Shape>, kept: seq<SolidRing>)
    requires Keeps(b, shapes) && b.waiting != [] && Fits(b, Finishes(kept))
    ensures Keeps(AfterFinish(b, kept), Meant(b, shapes, Finishes(kept)))
  {
    var b', shapes', w := AfterFinish(b, kept), Meant(b, shapes, Finishes(kept)), b.waiting[0];
    assert WaitsFor(b, shapes, 0);
    var ring := Bridged(w.outer, kept);
    forall i | 0 <= i < |b'.waiting| ensures WaitsFor(b', shapes', i) {
      assert WaitsFor(b, shapes, i + 1) && w.id < b.waiting[i + 1].id;
    }
    forall id: nat | id < |shapes'| ensures Waits(b', id) || HoldsShape(b'.tables, id, shapes'[id]) {
      if id == w.id {
        FinishedShapeReads(b.tables, id, w.outer, kept);
      } else if Waits(b, id) {
        var i :| 0 <= i < |b.waiting| && b.waiting[i].id == id;
        assert b'.waiting[i - 1].id == id;
      } else {
        OtherStaysHeld(b.tables, w.id, ring, StoredLength(|ring|), id, shapes[id]);
      }
    }
  }

  /** After every act of every run all polygons that do not wait are stored as they are meant. */
  lemma {:induction false} RunKeeps(acts: seq<Act>)
    requires AllFit(acts)
    ensures Keeps(Run(acts), ShapesOf(acts))
    decreases |acts|
  {
    if acts != [] {
      var front, act := acts[..|acts| - 1], acts[|acts| - 1];
      forall k | 0 <= k < |front| ensures Fits(Run(front[..k]), front[k]) {
        assert front[..k] == acts[..k];
      }
      RunKeeps(front);
      var b, shapes := Run(front), ShapesOf(front);
      assert Fits(b, act);
      if act.Adds? {
        if |act.ring| >= 3 {
          AddKeeps(b, shapes, act.ring, act.holes, act.level);
        }
      } else if b.waiting != [] {
        FinishKeeps(b, shapes, act.kept);
      }
    }
  }

  /** When nothing waits any more the tables hold every polygon. */
  lemma RunHolds(acts: seq<Act>)
    requires AllFit(acts) && Run(acts).waiting == []
    ensures HoldsShapes(Run(acts).tables, ShapesOf(acts))
  {
    RunKeeps(acts);
    forall id: nat | id < |ShapesOf(acts)| ensures HoldsShape(Run(acts).tables, id, ShapesOf(acts)[id]) {
      assert !Waits(Run(acts), id);
    }
  }

  // --- The answer over everything the builder wrote ---

  /** The builder's list of one of the cells has an entry for the polygon. */
  ghost predicate Lists(m: CellMap, cells: seq<U64>, id: nat) {
    exists cell, entry :: cell in cells && entry in Expected(m, cell) && PolyId(entry) == id
  }

  lemma {:induction false} ListedHitsExactly(cells: seq<U64>, m: CellMap, hit: Hit)
    ensures hit in ListedHits(cells, m) <==> hit.cell in cells && hit.entry in Expected(m, hit.cell)
  {
    if cells != [] {
      var front, last := cells[..|cells| - 1], cells[|cells| - 1];
      ListedHitsExactly(front, m, hit);
      assert cells == front + [last];
      var list := Expected(m, last);
      if hit.cell == last && hit.entry in list {
        var i :| 0 <= i < |list| && list[i] == hit.entry;
        assert CellHits(last, list)[i] == hit;
      }
    }
  }

  /** The flags in the list of the point's own cell are right: the whole cell lies in the polygon. */
  ghost predicate OwnFlagsSound(shapes: seq<Shape>, p: Point, origin: U64, m: CellMap) {
    forall entry :: entry in Expected(m, origin) && IsInterior(entry) && PolyId(entry) < |shapes| ==>
      InShape(p, shapes[PolyId(entry)])
  }

  /** A listed shape of this level around the point. */
  ghost predicate Around(shapes: seq<Shape>, p: Point, level: nat, m: CellMap, cells: seq<U64>, id: nat) {
    id < |shapes| && shapes[id].level == level && Lists(m, cells, id) && InShape(p, shapes[id])
  }

  lemma AroundIsContained(
    t: Tables, shapes: seq<Shape>, p: Point, level: nat, m: CellMap, cells: seq<U64>, id: nat)
    requires HoldsShapes(t, shapes) && forall s :: s in shapes ==> NestedAt(p, s.outer, s.holes)
    ensures Around(shapes, p, level, m, cells, id) <==> ListedBy(ListedHits(cells, m), id) && Contains(t, p, level, id)
  {
    var hits := ListedHits(cells, m);
    if Lists(m, cells, id) {
      var cell, entry :| cell in cells && entry in Expected(m, cell) && PolyId(entry) == id;
      ListedHitsExactly(cells, m, Hit(cell, entry));
    }
    if i :| 0 <= i < |hits| && PolyId(hits[i].entry) == id {
      ListedHitsExactly(cells, m, hits[i]);
    }
    if id < |shapes| {
      ShapeIsContained(t, p, id, shapes[id]);
    }
  }

  /** The winner is a smallest shape around the point, and there is one exactly if some shape is. */
  ghost predicate Answers(
    shapes: seq<Shape>, p: Point, level: nat, m: CellMap, cells: seq<U64>, w: Best<nat>)
  {
    && (w.None? ==> forall id: nat :: !Around(shapes, p, level, m, cells, id))
    && (w.Some? ==>
          && Around(shapes, p, level, m, cells, w.value.item)
          && w.value.score == shapes[w.value.item].area
          && forall id: nat :: Around(shapes, p, level, m, cells, id) ==> w.value.score <= shapes[id].area)
  }

  lemma AnswersOverLists(
    t: Tables, shapes: seq<Shape>, p: Point, origin: U64, level: nat, m: CellMap, cells: seq<U64>, hits: seq<Hit>)
    requires level < LEVELS && hits == ListedHits(cells, m)
    requires HoldsShapes(t, shapes) && forall s :: s in shapes ==> NestedAt(p, s.outer, s.holes)
    requires OwnFlagsSound(shapes, p, origin, m)
    ensures Answers(shapes, p, level, m, cells, ConsiderAll(t, p, origin, hits)[level])
  {
    BuiltFlagsSound(t, shapes, p, origin, cells, m);
    SmallestContaining(t, p, origin, hits, level);
    var w := ConsiderAll(t, p, origin, hits)[level];
    forall id: nat | Around(shapes, p, level, m, cells, id) ensures w.Some? && w.value.score <= shapes[id].area {
      AroundIsContained(t, shapes, p, level, m, cells, id);
      assert HoldsShape(t, id, shapes[id]);
    }
    if w.Some? {
      AroundIsContained(t, shapes, p, level, m, cells, w.value.item);
      assert HoldsShape(t, w.value.item, shapes[w.value.item]);
    }
  }

  /**
   The admin search, from the builder's shapes and lists to the answer.  Over the files the builder
   wrote, each level's winner is a listed shape around the point, outside of all its holes, and of
   the smallest area; and there is one exactly if there is such a shape.
   */
  lemma AdminOfBuiltFiles(
    t: Tables, shapes: seq<Shape>, p: Point, origin: U64, neighbours: seq<U64>, keys: seq<U64>, m: CellMap, level: nat)
    requires IsKeyOrder(keys, m.Keys) && OffsetsFit(keys, m) && level < LEVELS
    requires HoldsShapes(t, shapes) && forall s :: s in shapes ==> NestedAt(p, s.outer, s.holes)
    requires OwnFlagsSound(shapes, p, origin, m)
    ensures var cells, table := [origin] + neighbours, OffsetTable(keys, m, |keys|);
            && SortedTable(table, CELL_STRIDE)
            && Answers(shapes, p, level, m, cells,
                       ConsiderAll(t, p, origin, ScanHits(cells, table, EntriesFile(keys, m)))[level])
  {
    CellIndexRoundTrip(keys, m, 0);
    ScanOfBuiltFiles([origin] + neighbours, keys, m);
    AnswersOverLists(t, shapes, p, origin, level, m, [origin] + neighbours, ListedHits([origin] + neighbours, m));
  }

  /** The holes are what the covering left of some holes, and the library calls the outer ring valid. */
  ghost predicate CutBy(g: Geometry, s: Shape) {
    s.holes == [] ||
    (g.distinctPoints(s.outer) >= 3 && g.valid(s.outer) && exists fit :: s.holes == Usable(g, s.outer, fit))
  }

  /**
   The same for every run of the builder: whatever polygons it was given, in whatever order their
   holes were decided on, where the geometry library answers rightly at the point.
   */
  lemma AdminOfEveryBuild(
    acts: seq<Act>, g: Geometry, p: Point, origin: U64, neighbours: seq<U64>, keys: seq<U64>, m: CellMap, level: nat)
    requires AllFit(acts) && Run(acts).waiting == []
    requires SoundAt(g, p) && forall s :: s in ShapesOf(acts) ==> CutBy(g, s)
    requires IsKeyOrder(keys, m.Keys) && OffsetsFit(keys, m) && level < LEVELS
    requires OwnFlagsSound(ShapesOf(acts), p, origin, m)
    ensures var cells, table := [origin] + neighbours, OffsetTable(keys, m, |keys|);
            Answers(ShapesOf(acts), p, level, m, cells,
                    ConsiderAll(Run(acts).tables, p, origin, ScanHits(cells, table, EntriesFile(keys, m)))[level])
  {
    RunHolds(acts);
    forall s | s in ShapesOf(acts) ensures NestedAt(p, s.outer, s.holes) {
      if s.holes != [] {
        var fit :| s.holes == Usable(g, s.outer, fit);
        UsableNested(g, p, s.outer, fit);
      }
    }
    AdminOfBuiltFiles(Run(acts).tables, ShapesOf(acts), p, origin, neighbours, keys, m, level);
  }

  lemma BuiltFlagsSound(t: Tables, shapes: seq<Shape>, p: Point, origin: U64, cells: seq<U64>, m: CellMap)
    requires HoldsShapes(t, shapes) && forall s :: s in shapes ==> NestedAt(p, s.outer, s.holes)
    requires OwnFlagsSound(shapes, p, origin, m)
    ensures FlagsSound(t, p, origin, ListedHits(cells, m))
  {
    var hits := ListedHits(cells, m);
    forall i | 0 <= i < |hits| && WellFormed(t, PolyId(hits[i].entry)) && IsInterior(hits[i].entry)
               && hits[i].cell == origin
      ensures Inside(p, Outline(t, PolyId(hits[i].entry)))
    {
      ListedHitsExactly(cells, m, hits[i]);
      ShapeIsContained(t, p, PolyId(hits[i].entry), shapes[PolyId(hits[i].entry)]);
    }
  }
}
