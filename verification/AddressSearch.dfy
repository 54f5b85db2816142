/**
 The server's address lookup by house number: among the matching points, the nearest with the
 wanted unit, or else the nearest without any unit.
 */
module AddressSearch {
  import opened Bytes
  import opened CellOrder
  import opened CellReader
  import opened CellRoundTrip
  import opened CellWriter
  import opened Nearest
  import opened Rings
  import opened Sequences
  import opened Simplify
  import opened StreetSearch
  import opened Wrappers

  type Text = seq<char>

  datatype AddrPoint = AddrPoint(at: Point, housenumber: Text, street: Text, unitId: nat, unit: Text)

  /** The request, trimmed, with the foreign text comparisons; hints that are blank count as absent. */
  datatype Request = Request(
    housenumber: Text, street: Option<Text>, unit: Option<Text>, cosLat: real, scale: real, near: Point,
    numberMatches: (Text, Text) -> bool, streetContains: (Text, Text) -> bool, sameUnit: (Text, Text) -> bool)

  /** Does the point pass the house number and street filters? */
  predicate Matches(r: Request, p: AddrPoint) {
    r.numberMatches(r.housenumber, p.housenumber)
    && (r.street.Some? ==> r.streetContains(p.street, r.street.value))
  }

  function Distance(r: Request, p: AddrPoint): real {
    r.scale * ((p.at.lat - r.near.lat) * (p.at.lat - r.near.lat)
               + (p.at.lng - r.near.lng) * (p.at.lng - r.near.lng) * r.cosLat * r.cosLat)
  }

  /** The distance on the map that the street search uses. */
  lemma DistanceIsMapDistance(r: Request, p: AddrPoint)
    ensures var q := Query(r.near, r.cosLat, r.scale);
            Distance(r, p) == MapDistance(q, r.near, p.at) == SegmentDistance(q, p.at, p.at)
  {
    var q := Query(r.near, r.cosLat, r.scale);
    SegmentDistanceIsAttained(q, p.at, p.at);
    assert Lerp(p.at, p.at, FootParam(q, p.at, p.at)) == p.at;
    SquaredDistance(r.near, p.at, r.cosLat);
  }

  lemma SquaredDistance(a: Point, b: Point, c: real)
    ensures DistSq(Stretch(c, a), Stretch(c, b))
            == (b.lat - a.lat) * (b.lat - a.lat) + (b.lng - a.lng) * (b.lng - a.lng) * c * c
  {
    SquaresAgree(a.lat, a.lng, b.lat, b.lng, c);
  }

  lemma SquaresAgree(alat: real, alng: real, blat: real, blng: real, c: real)
    ensures (alat - blat) * (alat - blat) + (c * alng - c * blng) * (c * alng - c * blng)
            == (blat - alat) * (blat - alat) + (blng - alng) * (blng - alng) * c * c
  {}

  lemma PositiveProduct(x: real, y: real)
    requires x > 0.0 && y > 0.0
    ensures x * y > 0.0
  {}

  lemma SquareOf(x: real) returns (s: real)
    ensures s == x * x && if x == 0.0 then s == 0.0 else s > 0.0
  {
    if x > 0.0 {
      s := ProductOf(x, x);
    } else if x < 0.0 {
      s := ProductOf(-x, -x);
    } else {
      s := 0.0;
    }
  }

  lemma ProductOf(x: real, y: real) returns (s: real)
    requires x > 0.0 && y > 0.0
    ensures s == x * y && s == -x * -y && s > 0.0
  {
    s := x * y;
    PositiveProduct(x, y);
  }

  lemma SumOfSquares(x: real, y: real) returns (sum: real)
    ensures sum == x * x + y * y && if x == 0.0 && y == 0.0 then sum == 0.0 else sum > 0.0
  {
    var a := SquareOf(x);
    var b := SquareOf(y);
    sum := a + b;
  }

  lemma ScaledBy(k: real, s: real) returns (d: real)
    requires k > 0.0
    ensures d == k * s && (d == 0.0 <==> s == 0.0) && (s > 0.0 ==> d > 0.0)
  {
    d := k * s;
    if s > 0.0 {
      PositiveProduct(k, s);
    } else if s < 0.0 {
      PositiveProduct(k, -s);
      assert k * -s == -d;
    }
  }

  lemma SquareOfScaled(c: real, z: real, y: real)
    requires y == c * z
    ensures y * y == z * z * c * c
  {}

  lemma ScaledSquares(k: real, x: real, z: real, c: real) returns (d: real)
    requires k > 0.0 && c > 0.0
    ensures d == k * (x * x + z * z * c * c) && if x == 0.0 && z == 0.0 then d == 0.0 else d > 0.0
  {
    var y := ScaledBy(c, z);
    var sum := SumOfSquares(x, y);
    d := ScaledBy(k, sum);
    SquareOfScaled(c, z, y);
  }

  /** Only a point at the very place has no distance. */
  lemma DistanceIsZeroExactly(r: Request, p: AddrPoint)
    requires r.scale > 0.0 && r.cosLat > 0.0
    ensures Distance(r, p) >= 0.0 && (Distance(r, p) == 0.0 <==> p.at == r.near)
  {
    var d := ScaledSquares(r.scale, p.at.lat - r.near.lat, p.at.lng - r.near.lng, r.cosLat);
  }

  /** A match of the first choice: any if no unit is wanted, else those with that very unit. */
  predicate FirstChoice(r: Request, p: AddrPoint) {
    Matches(r, p) && (r.unit.Some? ==> p.unitId != 0 && r.sameUnit(p.unit, r.unit.value))
  }

  /** A match of the second choice: a unit is wanted and the point has none. */
  predicate SecondChoice(r: Request, p: AddrPoint) {
    Matches(r, p) && r.unit.Some? && p.unitId == 0
  }

  /** What one id contributes to a tier; a bad id nothing. */
  function TierOf(points: seq<AddrPoint>, r: Request, choice: (Request, AddrPoint) -> bool)
    : U32 -> seq<Scored<U32>>
  {
    (id: U32) => if id < |points| && choice(r, points[id]) then [Scored(Distance(r, points[id]), id)] else []
  }

  /** The points behind `ids` that satisfy `choice`, with their distances. */
  function Tier(points: seq<AddrPoint>, r: Request, choice: (Request, AddrPoint) -> bool, ids: seq<U32>)
    : seq<Scored<U32>>
  {
    FlatMap(TierOf(points, r, choice), ids)
  }

  /** The answer as two separate searches: the second tier only counts if the first is empty. */
  function TwoTier(points: seq<AddrPoint>, r: Request, ids: seq<U32>): Best<U32> {
    var first := Run(None, Tier(points, r, FirstChoice, ids));
    if first.Some? then first else Run(None, Tier(points, r, SecondChoice, ids))
  }

  class AddressScan {
    var bestUnit: Best<U32>
    var bestFallback: Best<U32>

    constructor ()
      ensures bestUnit == None && bestFallback == None
    {
      bestUnit, bestFallback := None, None;
    }

    /** The callback of `find_by_housenumber`. */
    method Visit(points: seq<AddrPoint>, r: Request, id: U32)
      modifies this
      ensures bestUnit == Run(old(bestUnit), Tier(points, r, FirstChoice, [id]))
      ensures bestFallback == Run(old(bestFallback), Tier(points, r, SecondChoice, [id]))
    {
      OneId(points, r, FirstChoice, id, bestUnit);
      OneId(points, r, SecondChoice, id, bestFallback);
      if id >= |points| {
        return;
      }
      var p := points[id];
      if !r.numberMatches(r.housenumber, p.housenumber) {
        return;
      }
      if r.street.Some? && !r.streetContains(p.street, r.street.value) {
        return;
      }
      var dist := Distance(r, p);
      if r.unit.Some? {
        if p.unitId == 0 {
          if bestFallback.None? || dist < bestFallback.value.score {
            bestFallback := Some(Scored(dist, id));
          }
          return;
        }
        if r.sameUnit(p.unit, r.unit.value) {
          if bestUnit.None? || dist < bestUnit.value.score {
            bestUnit := Some(Scored(dist, id));
          }
        }
        return;
      }
      if bestUnit.None? || dist < bestUnit.value.score {
        bestUnit := Some(Scored(dist, id));
      }
    }

    /** The points of one cell. */
    method VisitAll(points: seq<AddrPoint>, r: Request, ids: seq<U32>)
      modifies this
      ensures bestUnit == Run(old(bestUnit), Tier(points, r, FirstChoice, ids))
      ensures bestFallback == Run(old(bestFallback), Tier(points, r, SecondChoice, ids))
    {
      for i := 0 to |ids|
        invariant bestUnit == Run(old(bestUnit), Tier(points, r, FirstChoice, ids[..i]))
        invariant bestFallback == Run(old(bestFallback), Tier(points, r, SecondChoice, ids[..i]))
      {
        assert ids[..i + 1] == ids[..i] + [ids[i]];
        TierAppend(points, r, FirstChoice, ids[..i], ids[i]);
        TierAppend(points, r, SecondChoice, ids[..i], ids[i]);
        RunConcat(old(bestUnit), Tier(points, r, FirstChoice, ids[..i]), Tier(points, r, FirstChoice, [ids[i]]));
        RunConcat(old(bestFallback), Tier(points, r, SecondChoice, ids[..i]), Tier(points, r, SecondChoice, [ids[i]]));
        Visit(points, r, ids[i]);
      }
      assert ids[..|ids|] == ids;
    }
  }

  lemma OneId(points: seq<AddrPoint>, r: Request, choice: (Request, AddrPoint) -> bool, id: U32, best: Best<U32>)
    ensures Run(best, Tier(points, r, choice, [id]))
            == if id < |points| && choice(r, points[id])
               then Better(best, Scored(Distance(r, points[id]), id)) else best
  {
    FlatMapOne(TierOf(points, r, choice), id);
    if id < |points| && choice(r, points[id]) {
      RunOne(best, Scored(Distance(r, points[id]), id));
    }
  }

  lemma TierAppend(
    points: seq<AddrPoint>, r: Request, choice: (Request, AddrPoint) -> bool, ids: seq<U32>, id: U32)
    ensures Tier(points, r, choice, ids + [id]) == Tier(points, r, choice, ids) + Tier(points, r, choice, [id])
  {
    FlatMapConcat(TierOf(points, r, choice), ids, [id]);
  }

  /** Scanning one more list with both winners. */
  lemma TierMore(
    points: seq<AddrPoint>, r: Request, choice: (Request, AddrPoint) -> bool, seen: seq<U32>, ids: seq<U32>)
    ensures Run(Run(None, Tier(points, r, choice, seen)), Tier(points, r, choice, ids))
            == Run(None, Tier(points, r, choice, seen + ids))
  {
    FlatMapConcat(TierOf(points, r, choice), seen, ids);
    RunConcat(None, Tier(points, r, choice, seen), Tier(points, r, choice, ids));
  }

  /** The ids that a shard lists for `cells`; there is no marker, an absent cell is not in the table. */
  function ShardIds(cells: seq<U64>, table: File, entries: File): seq<U32> {
    if cells == [] then []
    else ShardIds(cells[..|cells| - 1], table, entries) + IdsOfCell(table, entries, cells[|cells| - 1])
  }

  function IdsOfCell(table: File, entries: File, cell: U64): seq<U32> {
    var at := Located(table, CELL_STRIDE, cell);
    if at.Some? then ListAt(entries, OffsetAt(table, CELL_STRIDE, at.value, 0)) else []
  }

  method ReadCell(table: File, entries: File, cell: U64) returns (ids: seq<U32>)
    ensures ids == IdsOfCell(table, entries, cell)
  {
    var at := BinarySearch(table, CELL_STRIDE, cell);
    if at.None? {
      return [];
    }
    ids := ForEachPoint(entries, OffsetAt(table, CELL_STRIDE, at.value, 0));
  }

  /** `find_by_housenumber`: one pass with two running winners does what two searches would. */
  method FindByHousenumber(points: seq<AddrPoint>, r: Request, cells: seq<U64>, table: File, entries: File)
    returns (best: Best<U32>)
    ensures r.housenumber == "" ==> best == None
    ensures r.housenumber != "" ==>
              best == TwoTier(points, r, ShardIds(cells, table, entries))
  {
    if r.housenumber == "" {
      return None;
    }
    var scan := new AddressScan();
    ghost var seen: seq<U32> := [];
    for c := 0 to |cells|
      invariant fresh(scan)
      invariant seen == ShardIds(cells[..c], table, entries)
      invariant scan.bestUnit == Run(None, Tier(points, r, FirstChoice, seen))
      invariant scan.bestFallback == Run(None, Tier(points, r, SecondChoice, seen))
    {
      var ids := ReadCell(table, entries, cells[c]);
      TierMore(points, r, FirstChoice, seen, ids);
      TierMore(points, r, SecondChoice, seen, ids);
      scan.VisitAll(points, r, ids);
      assert cells[..c + 1][..c] == cells[..c];
      seen := seen + ids;
    }
    assert cells[..|cells|] == cells;
    best := if scan.bestUnit.Some? then scan.bestUnit else scan.bestFallback;
  }

  lemma {:induction false} TierMembers(
    points: seq<AddrPoint>, r: Request, choice: (Request, AddrPoint) -> bool, ids: seq<U32>, s: Scored<U32>)
    ensures s in Tier(points, r, choice, ids)
            <==> s.item in ids && s.item < |points| && choice(r, points[s.item])
                 && s.score == Distance(r, points[s.item])
  {
    if ids != [] {
      var front, last := ids[..|ids| - 1], ids[|ids| - 1];
      assert ids == front + [last];
      TierMembers(points, r, choice, front, s);
    }
  }

  /** The chosen point matches, and no listed point of its tier or a better one is nearer. */
  ghost predicate NearestOfChoice(points: seq<AddrPoint>, r: Request, ids: seq<U32>, best: Best<U32>) {
    && (best.Some? <==>
          exists id :: id in ids && id < |points|
            && (FirstChoice(r, points[id]) || SecondChoice(r, points[id])))
    && (best.Some? ==>
          var id := best.value.item;
          && id in ids && id < |points| && best.value.score == Distance(r, points[id])
          && (FirstChoice(r, points[id]) || SecondChoice(r, points[id]))
          && forall other :: other in ids && other < |points| ==>
               (FirstChoice(r, points[other]) ==>
                  FirstChoice(r, points[id]) && best.value.score <= Distance(r, points[other]))
               && (SecondChoice(r, points[id]) && SecondChoice(r, points[other]) ==>
                     best.value.score <= Distance(r, points[other])))
  }

  lemma TwoTierNearest(points: seq<AddrPoint>, r: Request, ids: seq<U32>)
    ensures NearestOfChoice(points, r, ids, TwoTier(points, r, ids))
  {
    var first, second := Tier(points, r, FirstChoice, ids), Tier(points, r, SecondChoice, ids);
    RunIsFirstSmallest(first);
    RunIsFirstSmallest(second);
    forall s: Scored<U32> ensures s in first <==> InTier(points, r, FirstChoice, ids, s)
                          ensures s in second <==> InTier(points, r, SecondChoice, ids, s)
    {
      TierMembers(points, r, FirstChoice, ids, s);
      TierMembers(points, r, SecondChoice, ids, s);
    }
    forall id | id in ids && id < |points| ensures
        var s := Scored(Distance(r, points[id]), id);
        (FirstChoice(r, points[id]) ==> s in first) && (SecondChoice(r, points[id]) ==> s in second)
    {
      var s := Scored(Distance(r, points[id]), id);
      assert InTier(points, r, FirstChoice, ids, s) || !FirstChoice(r, points[id]);
      assert InTier(points, r, SecondChoice, ids, s) || !SecondChoice(r, points[id]);
    }
    FirstSmallestInSeq(first);
    FirstSmallestInSeq(second);
  }

  ghost predicate InTier(
    points: seq<AddrPoint>, r: Request, choice: (Request, AddrPoint) -> bool, ids: seq<U32>, s: Scored<U32>)
  {
    s.item in ids && s.item < |points| && choice(r, points[s.item]) && s.score == Distance(r, points[s.item])
  }

  lemma FirstSmallestInSeq(c: seq<Scored<U32>>)
    ensures forall w :: IsFirstSmallest(c, w) ==> w in c && forall s :: s in c ==> w.score <= s.score
  {}

  // --- Over built files ---

  /** A record that is found is one that was written, and its offset is no marker. */
  lemma FoundList(keys: seq<U64>, m: CellMap, table: File, k: nat)
    requires IsKeyOrder(keys, m.Keys) && OffsetsFit(keys, m) && k < |keys|
    requires Tabulated(table, CELL_STRIDE, keys, 0, StoredOffsets(keys, m))
    ensures k < |table| / CELL_STRIDE
    ensures ListAt(EntriesFile(keys, m), OffsetAt(table, CELL_STRIDE, k, 0)) == Expected(m, keys[k])
  {
    assert keys[k] in m.Keys;
    CellListReadsBack(keys, m, k);
    OffsetsAreEven(keys, m, k);
  }

  lemma IdsOfBuiltCell(keys: seq<U64>, m: CellMap, table: File, cell: U64)
    requires IsKeyOrder(keys, m.Keys) && OffsetsFit(keys, m)
    requires Tabulated(table, CELL_STRIDE, keys, 0, StoredOffsets(keys, m))
    ensures IdsOfCell(table, EntriesFile(keys, m), cell) == Expected(m, cell)
  {
    TableFinds(table, CELL_STRIDE, keys, 0, StoredOffsets(keys, m));
    SearchIsScan(table, CELL_STRIDE, cell);
    var k := FindRecord(table, CELL_STRIDE, cell, |table| / CELL_STRIDE);
    if k < |keys| {
      FoundList(keys, m, table, k);
    } else {
      forall i | 0 <= i < |keys| ensures keys[i] != cell {
        assert IdAt(table, CELL_STRIDE, i) == keys[i];
      }
      assert cell !in m.Keys;
    }
  }

  lemma {:induction false} ShardOfBuiltFiles(cells: seq<U64>, keys: seq<U64>, m: CellMap, table: File)
    requires IsKeyOrder(keys, m.Keys) && OffsetsFit(keys, m)
    requires Tabulated(table, CELL_STRIDE, keys, 0, StoredOffsets(keys, m))
    ensures ShardIds(cells, table, EntriesFile(keys, m)) == ListedIds(cells, m)
  {
    if cells != [] {
      ShardOfBuiltFiles(cells[..|cells| - 1], keys, m, table);
      IdsOfBuiltCell(keys, m, table, cells[|cells| - 1]);
    }
  }

  /**
   From the lists of a shard to the answer: in files that hold these lists, the point found is the
   nearest of its choice among all points listed for the cells.
   */
  lemma AddressOfBuiltFiles(
    points: seq<AddrPoint>, r: Request, cells: seq<U64>, keys: seq<U64>, m: CellMap)
    requires IsKeyOrder(keys, m.Keys) && OffsetsFit(keys, m)
    ensures var table := OffsetTable(keys, m, |keys|);
            && SortedTable(table, CELL_STRIDE)
            && NearestOfChoice(points, r, ListedIds(cells, m),
                               TwoTier(points, r, ShardIds(cells, table, EntriesFile(keys, m))))
  {
    CellTable(keys, m);
    ShardOfBuiltFiles(cells, keys, m, OffsetTable(keys, m, |keys|));
    TwoTierNearest(points, r, ListedIds(cells, m));
  }
}
