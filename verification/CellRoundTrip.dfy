/** What the builder writes about a cell is what the server reads back. */
module CellRoundTrip {
  import opened Bytes
  import opened CellWriter
  import opened CellReader
  import opened CellOrder
  import opened Sequences

  /** The part of a list that its 16-bit count can announce. */
  function Announced(ids: seq<U32>): seq<U32> {
    ids[..StoredCount(ids)]
  }

  /** What the server should see of a cell. */
  function Expected(m: CellMap, id: U64): seq<U32> {
    if id in m then Announced(m[id]) else []
  }

  // --- One list ---

  lemma IdHeld(file: File, offset: nat, ids: seq<U32>, i: nat)
    requires Holds(file, offset, EncodeList(ids)) && i < |ids|
    ensures offset + 2 + i * 4 + 4 <= |file| && ReadU32(file, offset + 2 + i * 4) == ids[i]
  {
    var head, records := ToLe(StoredCount(ids), 2), seq(|ids|, i requires 0 <= i < |ids| => EncodeId(ids[i]));
    EncodedSize(ids);
    assert EncodeList(ids) == head + EncodeIds(ids) + [];
    HoldsPart(file, offset, head, EncodeIds(ids), []);
    RecordAt(records, 4, i);
    assert EncodeIds(ids)[i * 4..i * 4 + 4] == records[i];
    SliceOfSlice(file, offset + 2, 4 * |ids|, i * 4, i * 4 + 4);
    ReadBackU32(file, offset + 2 + i * 4, ids[i]);
  }

  /** A list that stands in a file is visited id by id, up to the announced count. */
  lemma ListReadsBack(file: File, offset: U32, ids: seq<U32>)
    requires offset != NO_DATA && Holds(file, offset, EncodeList(ids))
    ensures Visited(file, offset) == Announced(ids)
  {
    EncodedSize(ids);
    HoldsPart(file, offset, [], ToLe(StoredCount(ids), 2), EncodeIds(ids));
    assert [] + ToLe(StoredCount(ids), 2) + EncodeIds(ids) == EncodeList(ids);
    ReadBackU16(file, offset, StoredCount(ids));
    forall i | 0 <= i < StoredCount(ids)
      ensures offset + 2 + i * 4 + 4 <= |file| && ReadU32(file, offset + 2 + i * 4) == ids[i]
    {
      IdHeld(file, offset, ids, i);
    }
  }

  // --- All lists ---

  lemma {:induction false} EntriesPrefix(cells: seq<U64>, m: CellMap, k: nat)
    requires k <= |cells|
    ensures EntriesFile(cells[..k], m) <= EntriesFile(cells, m)
  {
    if k < |cells| {
      var front := cells[..|cells| - 1];
      assert front[..k] == cells[..k];
      EntriesPrefix(front, m, k);
    } else {
      assert cells[..k] == cells;
    }
  }

  lemma ListHeld(cells: seq<U64>, m: CellMap, k: nat)
    requires k < |cells| && cells[k] in m
    ensures Holds(EntriesFile(cells, m), EntryOffset(cells, m, k), EncodeList(m[cells[k]]))
  {
    EntriesStep(cells, m, k);
    EntriesPrefix(cells, m, k + 1);
    HoldsAfter(EntriesFile(cells, m), EntriesFile(cells[..k], m), EncodeList(m[cells[k]]));
  }

  lemma EvenStep(before: nat, after: nat, n: nat)
    requires before % 2 == 0 && after == before + 2 + n * 4
    ensures after % 2 == 0
  {}

  /** Lists have even sizes, so no list ever starts at the odd marker value. */
  lemma {:induction false} OffsetsAreEven(cells: seq<U64>, m: CellMap, k: nat)
    requires k <= |cells|
    ensures EntryOffset(cells, m, k) % 2 == 0 && EntryOffset(cells, m, k) != NO_DATA
  {
    if k > 0 {
      OffsetsAreEven(cells, m, k - 1);
      OffsetStep(cells, m, k - 1);
      if cells[k - 1] in m {
        EvenStep(EntryOffset(cells, m, k - 1), EntryOffset(cells, m, k), |m[cells[k - 1]]|);
      }
    }
  }

  lemma CellListReadsBack(cells: seq<U64>, m: CellMap, k: nat)
    requires k < |cells| && cells[k] in m && EntryOffset(cells, m, k) <= U32_MAX
    ensures Visited(EntriesFile(cells, m), EntryOffset(cells, m, k)) == Announced(m[cells[k]])
  {
    OffsetsAreEven(cells, m, k);
    ListHeld(cells, m, k);
    ListReadsBack(EntriesFile(cells, m), EntryOffset(cells, m, k), m[cells[k]]);
  }

  // --- Tables ---

  lemma TableCount(records: seq<File>, stride: nat)
    requires (stride == CELL_STRIDE || stride == GEO_STRIDE) && Uniform(records, stride)
    ensures |Flatten(records)| / stride == |records|
  {
    FlattenLength(records, stride);
    CountBack(|records|, stride);
  }

  lemma CountBack(n: nat, stride: nat)
    requires stride == CELL_STRIDE || stride == GEO_STRIDE
    ensures n * stride / stride == n
  {
    if stride == CELL_STRIDE {
      assert n * 12 / 12 == n;
    } else {
      assert n * 20 / 20 == n;
    }
  }

  lemma RecordId(records: seq<File>, stride: nat, i: nat, id: U64, after: File)
    requires (stride == CELL_STRIDE || stride == GEO_STRIDE) && Uniform(records, stride) && i < |records|
    requires records[i] == ToLe(id, 8) + after
    ensures |Flatten(records)| / stride == |records|
    ensures IdAt(Flatten(records), stride, i) == id
  {
    TableCount(records, stride);
    RecordAt(records, stride, i);
    assert records[i] == [] + ToLe(id, 8) + after;
    HoldsPart(Flatten(records), i * stride, [], ToLe(id, 8), after);
    ReadBackU64(Flatten(records), i * stride, id);
  }

  lemma RecordOffset(records: seq<File>, stride: nat, i: nat, before: File, offset: U32, after: File, f: nat)
    requires (stride == CELL_STRIDE || stride == GEO_STRIDE) && Uniform(records, stride) && i < |records|
    requires records[i] == before + ToLe(offset, 4) + after
    requires |before| == 8 + f * 4 && 12 + f * 4 <= stride
    ensures |Flatten(records)| / stride == |records|
    ensures OffsetAt(Flatten(records), stride, i, f) == offset
  {
    TableCount(records, stride);
    RecordAt(records, stride, i);
    HoldsPart(Flatten(records), i * stride, before, ToLe(offset, 4), after);
    ReadBackU32(Flatten(records), i * stride + 8 + f * 4, offset);
  }

  /** Looking a cell up in `table` gives its entry in `offsets`, or the marker if it has none. */
  ghost predicate LooksUp(table: File, stride: nat, cells: seq<U64>, f: nat, offsets: seq<U32>)
    requires stride >= 12 && 12 + f * 4 <= stride
    requires |cells| == |offsets|
  {
    && SortedTable(table, stride)
    && (forall id: U64 :: id !in cells ==> TableOffset(table, stride, id, f) == NO_DATA)
    && forall k :: 0 <= k < |cells| ==> TableOffset(table, stride, cells[k], f) == offsets[k]
  }

  /** Record `k` of `table` is cell number `k` with its offset in field `f`. */
  ghost predicate Tabulated(table: File, stride: nat, cells: seq<U64>, f: nat, offsets: seq<U32>)
    requires stride >= 12 && 12 + f * 4 <= stride
    requires |cells| == |offsets|
  {
    && |table| / stride == |cells|
    && forall k :: 0 <= k < |cells| ==>
         IdAt(table, stride, k) == cells[k] && OffsetAt(table, stride, k, f) == offsets[k]
  }

  function StoredOffsets(cells: seq<U64>, m: CellMap): seq<U32> {
    seq(|cells|, k requires 0 <= k < |cells| => StoredOffset(cells, m, k))
  }

  /** A table over ascending cells is sorted, and the scan finds exactly its own cells. */
  lemma TableFinds(table: File, stride: nat, cells: seq<U64>, f: nat, offsets: seq<U32>)
    requires stride >= 12 && 12 + f * 4 <= stride
    requires |cells| == |offsets| && Ascending(cells) && Tabulated(table, stride, cells, f, offsets)
    ensures LooksUp(table, stride, cells, f, offsets)
  {
    forall i | 0 <= i < |cells|
      ensures TableOffset(table, stride, cells[i], f) == offsets[i]
    {
      assert IdAt(table, stride, i) == cells[i];
      ProbeSorted(table, stride, cells[i], 0, |cells|, i);
    }
  }

  /** A table that looks up the stored offsets leads every cell to its own list. */
  lemma LookUpReadsBack(table: File, stride: nat, cells: seq<U64>, f: nat, m: CellMap, id: U64)
    requires stride >= 12 && 12 + f * 4 <= stride
    requires LooksUp(table, stride, cells, f, StoredOffsets(cells, m))
    requires OffsetsFit(cells, m) && forall c :: c in m ==> c in cells
    ensures Visited(EntriesFile(cells, m), TableOffset(table, stride, id, f)) == Expected(m, id)
  {
    if id in cells {
      var k :| 0 <= k < |cells| && cells[k] == id;
      assert TableOffset(table, stride, id, f) == StoredOffset(cells, m, k);
      if id in m {
        CellListReadsBack(cells, m, k);
      }
    }
  }

  // --- The single-list tables ---

  function OffsetRecords(cells: seq<U64>, m: CellMap, n: nat): (records: seq<File>)
    requires n <= |cells|
  {
    seq(n, k requires 0 <= k < n => OffsetRecord(cells, m, k))
  }

  lemma {:induction false} OffsetTableFlat(cells: seq<U64>, m: CellMap, n: nat)
    requires n <= |cells|
    ensures OffsetTable(cells, m, n) == Flatten(OffsetRecords(cells, m, n))
  {
    if n > 0 {
      OffsetTableFlat(cells, m, n - 1);
      FlattenAppend(OffsetRecords(cells, m, n - 1), OffsetRecord(cells, m, n - 1));
      assert OffsetRecords(cells, m, n)
          == OffsetRecords(cells, m, n - 1) + [OffsetRecord(cells, m, n - 1)];
    }
  }

  lemma Padded(a: File, b: File)
    ensures a + b + [] == a + b
  {}

  /** Records of a cell and an offset, packed one after the other. */
  lemma PackedTable(records: seq<File>, cells: seq<U64>, offsets: seq<U32>)
    requires |records| == |cells| == |offsets|
    requires forall i :: 0 <= i < |cells| ==> records[i] == ToLe(cells[i], 8) + ToLe(offsets[i], 4)
    ensures Tabulated(Flatten(records), CELL_STRIDE, cells, 0, offsets)
  {
    TableCount(records, CELL_STRIDE);
    forall i | 0 <= i < |cells|
      ensures IdAt(Flatten(records), CELL_STRIDE, i) == cells[i]
      ensures OffsetAt(Flatten(records), CELL_STRIDE, i, 0) == offsets[i]
    {
      Padded(ToLe(cells[i], 8), ToLe(offsets[i], 4));
      RecordId(records, CELL_STRIDE, i, cells[i], ToLe(offsets[i], 4));
      RecordOffset(records, CELL_STRIDE, i, ToLe(cells[i], 8), offsets[i], [], 0);
    }
  }

  lemma CellTable(cells: seq<U64>, m: CellMap)
    requires Ascending(cells)
    ensures Tabulated(OffsetTable(cells, m, |cells|), CELL_STRIDE, cells, 0, StoredOffsets(cells, m))
    ensures LooksUp(OffsetTable(cells, m, |cells|), CELL_STRIDE, cells, 0, StoredOffsets(cells, m))
  {
    OffsetTableFlat(cells, m, |cells|);
    PackedTable(OffsetRecords(cells, m, |cells|), cells, StoredOffsets(cells, m));
    TableFinds(OffsetTable(cells, m, |cells|), CELL_STRIDE, cells, 0, StoredOffsets(cells, m));
  }

  /**
   Through both files, every cell comes back with the announced part of its list, and every
   other cell with nothing.
   */
  lemma CellIndexRoundTrip(cells: seq<U64>, m: CellMap, id: U64)
    requires IsKeyOrder(cells, m.Keys) && OffsetsFit(cells, m)
    ensures var table := OffsetTable(cells, m, |cells|);
            SortedTable(table, CELL_STRIDE)
            && Visited(EntriesFile(cells, m), TableOffset(table, CELL_STRIDE, id, 0)) == Expected(m, id)
  {
    CellTable(cells, m);
    LookUpReadsBack(OffsetTable(cells, m, |cells|), CELL_STRIDE, cells, 0, m, id);
  }

  // --- The merged table ---

  function GeoRecords(cells: seq<U64>, streets: CellMap, addrs: CellMap, interps: CellMap, n: nat): (r: seq<File>)
    requires n <= |cells|
    ensures |r| == n
  {
    if n == 0 then []
    else GeoRecords(cells, streets, addrs, interps, n - 1) + [GeoRecord(cells, streets, addrs, interps, n - 1)]
  }

  lemma {:induction false} GeoRecordsAt(
    cells: seq<U64>, streets: CellMap, addrs: CellMap, interps: CellMap, n: nat, k: nat)
    requires k < n <= |cells|
    ensures GeoRecords(cells, streets, addrs, interps, n)[k] == GeoRecord(cells, streets, addrs, interps, k)
  {
    if k < n - 1 {
      GeoRecordsAt(cells, streets, addrs, interps, n - 1, k);
    }
  }

  lemma GeoRecordsUniform(cells: seq<U64>, streets: CellMap, addrs: CellMap, interps: CellMap)
    ensures Uniform(GeoRecords(cells, streets, addrs, interps, |cells|), GEO_STRIDE)
  {
    forall k | 0 <= k < |cells| ensures |GeoRecords(cells, streets, addrs, interps, |cells|)[k]| == GEO_STRIDE {
      GeoRecordsAt(cells, streets, addrs, interps, |cells|, k);
    }
  }

  lemma {:induction false} GeoTableFlat(
    cells: seq<U64>, streets: CellMap, addrs: CellMap, interps: CellMap, n: nat)
    requires n <= |cells|
    ensures GeoTable(cells, streets, addrs, interps, n) == Flatten(GeoRecords(cells, streets, addrs, interps, n))
    decreases n
  {
    if n > 0 {
      GeoTableFlat(cells, streets, addrs, interps, n - 1);
      FlattenStep(GeoRecords(cells, streets, addrs, interps, n - 1), GeoTable(cells, streets, addrs, interps, n - 1),
                  GeoRecord(cells, streets, addrs, interps, n - 1));
    }
  }

  /** The fields of a packed record, each seen between what precedes and what follows it. */
  lemma GeoFields(id: File, s: File, a: File, i: File)
    ensures var record := id + s + a + i;
            record == id + (s + a + i) && record == id + s + (a + i) && record == id + s + a + i + []
  {}

  lemma GeoRecordAt(cells: seq<U64>, streets: CellMap, addrs: CellMap, interps: CellMap, k: nat)
    requires k < |cells|
    ensures var table := Flatten(GeoRecords(cells, streets, addrs, interps, |cells|));
            |table| / GEO_STRIDE == |cells|
            && IdAt(table, GEO_STRIDE, k) == cells[k]
            && OffsetAt(table, GEO_STRIDE, k, 0) == StoredOffset(cells, streets, k)
            && OffsetAt(table, GEO_STRIDE, k, 1) == StoredOffset(cells, addrs, k)
            && OffsetAt(table, GEO_STRIDE, k, 2) == StoredOffset(cells, interps, k)
  {
    var records := GeoRecords(cells, streets, addrs, interps, |cells|);
    var s, a, i := StoredOffset(cells, streets, k), StoredOffset(cells, addrs, k), StoredOffset(cells, interps, k);
    var s4, a4, i4 := ToLe(s, 4), ToLe(a, 4), ToLe(i, 4);
    GeoRecordsUniform(cells, streets, addrs, interps);
    GeoRecordsAt(cells, streets, addrs, interps, |cells|, k);
    GeoFields(ToLe(cells[k], 8), s4, a4, i4);
    RecordId(records, GEO_STRIDE, k, cells[k], s4 + a4 + i4);
    RecordOffset(records, GEO_STRIDE, k, ToLe(cells[k], 8), s, a4 + i4, 0);
    RecordOffset(records, GEO_STRIDE, k, ToLe(cells[k], 8) + s4, a, i4, 1);
    RecordOffset(records, GEO_STRIDE, k, ToLe(cells[k], 8) + s4 + a4, i, [], 2);
  }

  /** The map whose offsets are field number `f` of the packed record. */
  function Picked(streets: CellMap, addrs: CellMap, interps: CellMap, f: nat): CellMap {
    if f == 0 then streets else if f == 1 then addrs else interps
  }

  lemma GeoRecordField(
    cells: seq<U64>, streets: CellMap, addrs: CellMap, interps: CellMap, k: nat, f: nat, records: seq<File>)
    requires k < |cells| && f < 3 && records == GeoRecords(cells, streets, addrs, interps, |cells|)
    ensures |Flatten(records)| / GEO_STRIDE == |cells|
    ensures IdAt(Flatten(records), GEO_STRIDE, k) == cells[k]
    ensures OffsetAt(Flatten(records), GEO_STRIDE, k, f)
            == StoredOffset(cells, Picked(streets, addrs, interps, f), k)
  {
    GeoRecordAt(cells, streets, addrs, interps, k);
    if f == 0 {
    } else if f == 1 {
    } else {
      assert f == 2;
    }
  }

  lemma GeoTabulated(cells: seq<U64>, streets: CellMap, addrs: CellMap, interps: CellMap, f: nat)
    requires f < 3
    ensures Tabulated(Flatten(GeoRecords(cells, streets, addrs, interps, |cells|)), GEO_STRIDE, cells, f,
                      StoredOffsets(cells, Picked(streets, addrs, interps, f)))
  {
    var records := GeoRecords(cells, streets, addrs, interps, |cells|);
    GeoRecordsUniform(cells, streets, addrs, interps);
    TableCount(records, GEO_STRIDE);
    forall k | 0 <= k < |cells|
      ensures IdAt(Flatten(records), GEO_STRIDE, k) == cells[k]
      ensures OffsetAt(Flatten(records), GEO_STRIDE, k, f)
              == StoredOffset(cells, Picked(streets, addrs, interps, f), k)
    {
      GeoRecordField(cells, streets, addrs, interps, k, f, records);
    }
  }

  lemma GeoTableFinds(cells: seq<U64>, streets: CellMap, addrs: CellMap, interps: CellMap, f: nat)
    requires Ascending(cells) && f < 3
    ensures LooksUp(GeoTable(cells, streets, addrs, interps, |cells|), GEO_STRIDE, cells, f,
                    StoredOffsets(cells, Picked(streets, addrs, interps, f)))
  {
    GeoTableFlat(cells, streets, addrs, interps, |cells|);
    GeoTabulated(cells, streets, addrs, interps, f);
    TableFinds(GeoTable(cells, streets, addrs, interps, |cells|), GEO_STRIDE, cells, f,
               StoredOffsets(cells, Picked(streets, addrs, interps, f)));
  }

  /**
   One packed record serves three lists: each of them comes back for every cell, and is empty
   where the cell has none of its kind.
   */
  lemma GeoIndexRoundTrip(
    cells: seq<U64>, streets: CellMap, addrs: CellMap, interps: CellMap, f: nat, id: U64)
    requires Ascending(cells) && f < 3 && OffsetsFit(cells, Picked(streets, addrs, interps, f))
    requires forall c :: c in Picked(streets, addrs, interps, f) ==> c in cells
    ensures var table := GeoTable(cells, streets, addrs, interps, |cells|);
            var m := Picked(streets, addrs, interps, f);
            SortedTable(table, GEO_STRIDE)
            && Visited(EntriesFile(cells, m), TableOffset(table, GEO_STRIDE, id, f)) == Expected(m, id)
  {
    var m := Picked(streets, addrs, interps, f);
    GeoTableFinds(cells, streets, addrs, interps, f);
    LookUpReadsBack(GeoTable(cells, streets, addrs, interps, |cells|), GEO_STRIDE, cells, f, m, id);
  }
}
