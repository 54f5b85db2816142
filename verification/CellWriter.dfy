/**
 The builder's cell index: per-cell id lists with a 16-bit count, and sorted tables that give
 each cell the 32-bit offset of its list.
 */
module CellWriter {
  import opened Bytes
  import opened CellOrder
  import opened Sequences
  import opened Wrappers

  /** The offset that stands for "this cell has no list". */
  const NO_DATA: U32 := 0xFFFF_FFFF

  const MAX_COUNT: nat := 65535

  /** The ids of every cell. */
  type CellMap = map<U64, seq<U32>>

  datatype Overflow = OffsetOverflow

  function StoredCount(ids: seq<U32>): nat {
    if |ids| < MAX_COUNT then |ids| else MAX_COUNT
  }

  function EncodeId(id: U32): File { ToLe(id, 4) }

  function EncodeIds(ids: seq<U32>): File {
    Flatten(seq(|ids|, i requires 0 <= i < |ids| => EncodeId(ids[i])))
  }

  /** One entry: the count, cut off at 16 bits, and then every id all the same. */
  function EncodeList(ids: seq<U32>): File {
    ToLe(StoredCount(ids), 2) + EncodeIds(ids)
  }

  /** The entries file for the cells of `cells` that have a list. */
  function EntriesFile(cells: seq<U64>, m: CellMap): File {
    if cells == [] then []
    else
      var last := cells[|cells| - 1];
      EntriesFile(cells[..|cells| - 1], m) + if last in m then EncodeList(m[last]) else []
  }

  /** Where the list of cell number `k` starts. */
  function EntryOffset(cells: seq<U64>, m: CellMap, k: nat): nat
    requires k <= |cells|
  {
    |EntriesFile(cells[..k], m)|
  }

  /** The lists of the first `n` cells that have one start at offsets that fit 32 bits. */
  ghost predicate FitUpTo(cells: seq<U64>, m: CellMap, n: nat)
    requires n <= |cells|
  {
    forall k :: 0 <= k < n && cells[k] in m ==> EntryOffset(cells, m, k) <= U32_MAX
  }

  ghost predicate OffsetsFit(cells: seq<U64>, m: CellMap) {
    FitUpTo(cells, m, |cells|)
  }

  /** The offset a table stores for cell number `k`; what does not fit is never stored. */
  function StoredOffset(cells: seq<U64>, m: CellMap, k: nat): U32
    requires k < |cells|
  {
    if cells[k] !in m || EntryOffset(cells, m, k) > U32_MAX then NO_DATA else EntryOffset(cells, m, k)
  }

  lemma {:induction false} EncodedSize(ids: seq<U32>)
    ensures |EncodeIds(ids)| == 4 * |ids| && |EncodeList(ids)| == 2 + 4 * |ids|
  {
    FlattenLength(seq(|ids|, i requires 0 <= i < |ids| => EncodeId(ids[i])), 4);
  }

  lemma EntriesStep(cells: seq<U64>, m: CellMap, k: nat)
    requires k < |cells|
    ensures EntriesFile(cells[..k + 1], m)
            == EntriesFile(cells[..k], m) + if cells[k] in m then EncodeList(m[cells[k]]) else []
  {
    assert cells[..k + 1][..k] == cells[..k];
  }

  /** A list moves the next one on by its own size. */
  lemma OffsetStep(cells: seq<U64>, m: CellMap, k: nat)
    requires k < |cells|
    ensures EntryOffset(cells, m, k + 1)
            == EntryOffset(cells, m, k) + if cells[k] in m then 2 + |m[cells[k]]| * 4 else 0
  {
    EntriesStep(cells, m, k);
    if cells[k] in m {
      EncodedSize(m[cells[k]]);
    }
  }

  /** `checked_u32`: refuses a value that does not fit. */
  function CheckedU32(v: nat): Result<U32, Overflow> {
    if v > U32_MAX then Err(OffsetOverflow) else Ok(v)
  }

  /** The id bytes of a list, as one write of the whole vector. */
  method WriteIds(ids: seq<U32>) returns (bytes: File)
    ensures bytes == EncodeIds(ids)
  {
    bytes := [];
    ghost var all := seq(|ids|, i requires 0 <= i < |ids| => EncodeId(ids[i]));
    for i := 0 to |ids|
      invariant bytes == Flatten(all[..i])
    {
      assert all[..i + 1][..i] == all[..i];
      bytes := bytes + ToLe(ids[i], 4);
    }
    assert all[..|ids|] == all;
  }

  /** `write_entries`: the entries of the cells that have any, and where each of them starts. */
  method WriteEntries(sortedCells: seq<U64>, cells: CellMap)
    returns (r: Result<(File, map<U64, U32>), Overflow>)
    requires Ascending(sortedCells)
    ensures r.Ok? <==> OffsetsFit(sortedCells, cells)
    ensures r.Ok? ==>
              r.value.0 == EntriesFile(sortedCells, cells) && ReportsOffsets(r.value.1, sortedCells, cells)
  {
    var f: File, current, offsets: map<U64, U32> := [], 0, map[];
    for k := 0 to |sortedCells|
      invariant f == EntriesFile(sortedCells[..k], cells) && current == |f|
      invariant FitUpTo(sortedCells, cells, k)
      invariant forall i :: k <= i < |sortedCells| ==> sortedCells[i] !in offsets
      invariant forall i :: 0 <= i < k ==> LookUp(offsets, sortedCells[i]) == StoredOffset(sortedCells, cells, i)
    {
      var cell := sortedCells[k];
      EntriesStep(sortedCells, cells, k);
      if cell in cells {
        var ids := cells[cell];
        var offset := CheckedU32(current);
        if offset.Err? {
          return Err(offset.error);
        }
        offsets := offsets[cell := offset.value];
        var bytes := WriteIds(ids);
        EncodedSize(ids);
        f := f + (ToLe(StoredCount(ids), 2) + bytes);
        current := current + 2 + |ids| * 4;
      }
    }
    assert sortedCells[..|sortedCells|] == sortedCells;
    r := Ok((f, offsets));
  }

  // --- Tables with one list per cell (admin, place and POI) ---

  function OffsetRecord(cells: seq<U64>, m: CellMap, k: nat): File
    requires k < |cells|
  {
    ToLe(cells[k], 8) + ToLe(StoredOffset(cells, m, k), 4)
  }

  /** The records of the first `n` cells. */
  function OffsetTable(cells: seq<U64>, m: CellMap, n: nat): File
    requires n <= |cells|
  {
    if n == 0 then [] else OffsetTable(cells, m, n - 1) + OffsetRecord(cells, m, n - 1)
  }

  /** The first block of `write_cell_index`: the sorted table of cells and offsets. */
  method WriteOffsetTable(sorted: seq<U64>, cells: CellMap) returns (r: Result<File, Overflow>)
    requires forall c :: c in sorted ==> c in cells
    ensures r.Ok? <==> OffsetsFit(sorted, cells)
    ensures r.Ok? ==> r.value == OffsetTable(sorted, cells, |sorted|)
  {
    var table: File, currentOffset := [], 0;
    for k := 0 to |sorted|
      invariant currentOffset == EntryOffset(sorted, cells, k)
      invariant FitUpTo(sorted, cells, k)
      invariant table == OffsetTable(sorted, cells, k)
    {
      assert sorted[k] in cells;
      var offset := CheckedU32(currentOffset);
      if offset.Err? {
        return Err(offset.error);
      }
      OffsetStep(sorted, cells, k);
      table := table + (ToLe(sorted[k], 8) + ToLe(offset.value, 4));
      currentOffset := currentOffset + 2 + |cells[sorted[k]]| * 4;
    }
    r := Ok(table);
  }

  /** The second block of `write_cell_index`: the lists, in the same order. */
  method WriteAllEntries(sorted: seq<U64>, cells: CellMap) returns (entries: File)
    requires forall c :: c in sorted ==> c in cells
    ensures entries == EntriesFile(sorted, cells)
  {
    entries := [];
    for k := 0 to |sorted|
      invariant entries == EntriesFile(sorted[..k], cells)
    {
      EntriesStep(sorted, cells, k);
      assert sorted[k] in cells;
      var ids := cells[sorted[k]];
      var bytes := WriteIds(ids);
      entries := entries + (ToLe(StoredCount(ids), 2) + bytes);
    }
    assert sorted[..|sorted|] == sorted;
  }

  /** `write_cell_index`: the table and the entries of all cells, in ascending order. */
  method WriteCellIndex(cells: CellMap) returns (r: Result<(File, File), Overflow>, sorted: seq<U64>)
    ensures IsKeyOrder(sorted, cells.Keys)
    ensures r.Ok? <==> OffsetsFit(sorted, cells)
    ensures r.Ok? ==>
              r.value == (OffsetTable(sorted, cells, |sorted|), EntriesFile(sorted, cells))
  {
    sorted := SortKeys(cells.Keys);
    var table := WriteOffsetTable(sorted, cells);
    if table.Err? {
      r := Err(table.error);
      return;
    }
    var entries := WriteAllEntries(sorted, cells);
    r := Ok((table.value, entries));
  }

  // --- The merged table of streets, addresses and interpolations ---

  function GeoRecord(cells: seq<U64>, streets: CellMap, addrs: CellMap, interps: CellMap, k: nat): File
    requires k < |cells|
  {
    ToLe(cells[k], 8) + ToLe(StoredOffset(cells, streets, k), 4)
    + ToLe(StoredOffset(cells, addrs, k), 4) + ToLe(StoredOffset(cells, interps, k), 4)
  }

  /** The records of the first `n` cells. */
  function GeoTable(cells: seq<U64>, streets: CellMap, addrs: CellMap, interps: CellMap, n: nat): File
    requires n <= |cells|
  {
    if n == 0 then []
    else GeoTable(cells, streets, addrs, interps, n - 1) + GeoRecord(cells, streets, addrs, interps, n - 1)
  }

  function LookUp(offsets: map<U64, U32>, cell: U64): U32 {
    if cell in offsets then offsets[cell] else NO_DATA
  }

  datatype GeoFiles = GeoFiles(cells: File, streets: File, addrs: File, interps: File)

  /** `offsets` is what `write_entries` reports for these cells. */
  ghost predicate ReportsOffsets(offsets: map<U64, U32>, cells: seq<U64>, m: CellMap) {
    forall k :: 0 <= k < |cells| ==> LookUp(offsets, cells[k]) == StoredOffset(cells, m, k)
  }

  method WriteGeoTable(
    sortedCells: seq<U64>, ghost streets: CellMap, ghost addrs: CellMap, ghost interps: CellMap,
    s: map<U64, U32>, a: map<U64, U32>, i: map<U64, U32>) returns (table: File)
    requires ReportsOffsets(s, sortedCells, streets)
    requires ReportsOffsets(a, sortedCells, addrs)
    requires ReportsOffsets(i, sortedCells, interps)
    ensures table == GeoTable(sortedCells, streets, addrs, interps, |sortedCells|)
  {
    table := [];
    for k := 0 to |sortedCells|
      invariant table == GeoTable(sortedCells, streets, addrs, interps, k)
    {
      var cell := sortedCells[k];
      table := table + (ToLe(cell, 8) + ToLe(LookUp(s, cell), 4)
                        + ToLe(LookUp(a, cell), 4) + ToLe(LookUp(i, cell), 4));
    }
  }

  /** The geo part of `write_index`: three entries files and the packed 20-byte cell records. */
  method WriteGeoIndex(streets: CellMap, addrs: CellMap, interps: CellMap)
    returns (r: Result<GeoFiles, Overflow>, sorted: seq<U64>)
    ensures IsKeyOrder(sorted, streets.Keys + addrs.Keys + interps.Keys)
    ensures r.Ok? <==> OffsetsFit(sorted, streets) && OffsetsFit(sorted, addrs) && OffsetsFit(sorted, interps)
    ensures r.Ok? ==>
              r.value == GeoFiles(GeoTable(sorted, streets, addrs, interps, |sorted|),
                                  EntriesFile(sorted, streets),
                                  EntriesFile(sorted, addrs),
                                  EntriesFile(sorted, interps))
  {
    sorted := SortKeys(streets.Keys + addrs.Keys + interps.Keys);
    var s := WriteEntries(sorted, streets);
    if s.Err? { r := Err(s.error); return; }
    var a := WriteEntries(sorted, addrs);
    if a.Err? { r := Err(a.error); return; }
    var i := WriteEntries(sorted, interps);
    if i.Err? { r := Err(i.error); return; }
    var table := WriteGeoTable(sorted, streets, addrs, interps, s.value.1, a.value.1, i.value.1);
    r := Ok(GeoFiles(table, s.value.0, a.value.0, i.value.0));
  }
}
