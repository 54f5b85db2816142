/** What the reader finds in the files of a shard, and how large a shard may be for that to be right. */
module ShardReading {
  import opened AddressSearch
  import opened Bytes
  import opened CellOrder
  import opened CellReader
  import opened CellRoundTrip
  import opened CellWriter
  import opened Nearest
  import opened Sequences
  import opened ShardFiles

  // --- Offsets that fit ---

  lemma RecordExact(keys: seq<U64>, m: CellMap, k: nat)
    requires k < |keys| && keys[k] in m && EntryOffset(keys, m, k) <= U32_MAX
    ensures WrappedRecord(keys[k], EntryOffset(keys, m, k)) == OffsetRecord(keys, m, k)
  {}

  lemma {:induction false} WrappedTableExact(keys: seq<U64>, m: CellMap, n: nat)
    requires n <= |keys| && OffsetsFit(keys, m) && forall k :: k in keys ==> k in m
    ensures WrappedTable(keys, m, n) == OffsetTable(keys, m, n)
    decreases n
  {
    if n > 0 {
      WrappedTableExact(keys, m, n - 1);
      assert keys[n - 1] in keys;
      RecordExact(keys, m, n - 1);
    }
  }

  // --- How large a shard may be ---

  /** Point `i` is the first of its cell. */
  predicate StartsRun(records: seq<U64>, i: nat)
    requires i < |records|
  {
    i == 0 || records[i - 1] != records[i]
  }

  /** Point `i` is among those of its cell that are listed. */
  predicate IsListed(records: seq<U64>, i: nat)
    requires i < |records|
  {
    i < MAX_COUNT || records[i - MAX_COUNT] != records[i]
  }

  /** The bytes that the lists of the first `n` points take. */
  function ListBytes(records: seq<U64>, n: nat): nat
    requires n <= |records|
  {
    if n == 0 then 0
    else
      ListBytes(records, n - 1)
      + (if StartsRun(records, n - 1) then 2 else 0) + (if IsListed(records, n - 1) then 4 else 0)
  }

  lemma {:induction false} RunBytes(records: seq<U64>, c: U64, start: nat, end: nat, n: nat)
    requires IsRun(records, c, start, end) && start < n <= end
    ensures ListBytes(records, n) == ListBytes(records, start) + 2 + 4 * RunLength(start, n)
    decreases n
  {
    if n > start + 1 {
      RunBytes(records, c, start, end, n - 1);
      assert records[n - 2] == c && records[n - 1] == c;
    } else {
      assert start > 0 ==> records[start - 1] != c;
    }
    assert IsListed(records, n - 1) <==> n - 1 - start < MAX_COUNT;
  }

  /** The points before `n` are those of the first `k` cells. */
  ghost predicate CellsBefore(records: seq<U64>, keys: seq<U64>, k: nat, n: nat)
    requires k <= |keys|
  {
    && n <= |records|
    && (forall i :: 0 <= i < n ==> k > 0 && records[i] <= keys[k - 1])
    && (if k == |keys| then n == |records| else forall i :: n <= i < |records| ==> keys[k] <= records[i])
  }

  lemma KeyOf(records: seq<U64>, keys: seq<U64>, m: CellMap, i: nat) returns (k: nat)
    requires IsShard(records, keys, m) && i < |records|
    ensures k < |keys| && keys[k] == records[i]
  {
    assert records[i] in records && records[i] in m.Keys && records[i] in keys;
    k :| 0 <= k < |keys| && keys[k] == records[i];
  }

  lemma KeysRise(keys: seq<U64>, i: nat, j: nat)
    requires Ascending(keys) && i < |keys| && j < |keys|
    ensures keys[i] < keys[j] <==> i < j
  {}

  lemma RunStartsAfter(records: seq<U64>, keys: seq<U64>, k: nat, n: nat, start: nat, end: nat)
    requires Sorted(records) && Ascending(keys) && k < |keys| && CellsBefore(records, keys, k, n)
    requires IsRun(records, keys[k], start, end)
    ensures start == n
  {
    assert records[start] == keys[k] && (k > 0 ==> keys[k - 1] < keys[k]);
    assert n <= start;
    assert records[n] <= records[start];
    assert records[n] == keys[k];
  }

  lemma KeyAfter(records: seq<U64>, keys: seq<U64>, m: CellMap, k: nat, i: nat)
    requires IsShard(records, keys, m) && k < |keys| && i < |records| && keys[k] < records[i]
    ensures k + 1 < |keys| && keys[k + 1] <= records[i]
  {
    var j := KeyOf(records, keys, m, i);
    KeysRise(keys, k, j);
    if j > k + 1 {
      KeysRise(keys, k + 1, j);
    }
  }

  lemma CellsAfterRun(records: seq<U64>, keys: seq<U64>, m: CellMap, k: nat, start: nat, end: nat)
    requires IsShard(records, keys, m) && k < |keys| && CellsBefore(records, keys, k, start)
    requires IsRun(records, keys[k], start, end)
    ensures CellsBefore(records, keys, k + 1, end)
  {
    forall i | 0 <= i < end ensures records[i] <= keys[k] {
      assert k > 0 ==> keys[k - 1] < keys[k];
    }
    forall i | end <= i < |records| ensures k + 1 < |keys| && keys[k + 1] <= records[i] {
      KeyAfter(records, keys, m, k, i);
    }
    if end < |records| {
      KeyAfter(records, keys, m, k, end);
    }
  }

  lemma CellsBeforeNone(records: seq<U64>, keys: seq<U64>, m: CellMap)
    requires IsShard(records, keys, m)
    ensures CellsBefore(records, keys, 0, 0)
  {
    forall i | 0 <= i < |records| ensures 0 < |keys| && keys[0] <= records[i] {
      var j := KeyOf(records, keys, m, i);
      KeysRise(keys, 0, j);
    }
    if records != [] {
      var j := KeyOf(records, keys, m, 0);
    }
  }

  lemma RunOfKey(records: seq<U64>, keys: seq<U64>, m: CellMap, k: nat) returns (start: nat, end: nat)
    requires IsShard(records, keys, m) && k < |keys|
    ensures keys[k] in m && IsRun(records, keys[k], start, end) && m[keys[k]] == RunIds(start, end)
  {
    assert keys[k] in keys && keys[k] in m.Keys && ListsCell(records, keys[k], m[keys[k]]);
    start, end :| IsRun(records, keys[k], start, end) && m[keys[k]] == RunIds(start, end);
  }

  /** The list of cell number `k` starts where the lists of the points before its own end. */
  lemma {:induction false} ListStarts(records: seq<U64>, keys: seq<U64>, m: CellMap, k: nat) returns (n: nat)
    requires IsShard(records, keys, m) && k <= |keys|
    ensures CellsBefore(records, keys, k, n) && EntryOffset(keys, m, k) == ListBytes(records, n)
    decreases k
  {
    if k == 0 {
      CellsBeforeNone(records, keys, m);
      n := 0;
    } else {
      var before := ListStarts(records, keys, m, k - 1);
      var start, end := RunOfKey(records, keys, m, k - 1);
      RunStartsAfter(records, keys, k - 1, before, start, end);
      CellsAfterRun(records, keys, m, k - 1, start, end);
      RunBytes(records, keys[k - 1], start, end, end);
      OffsetStep(keys, m, k - 1);
      n := end;
    }
  }

  /** Where the points of the last cell start. */
  function LastRun(records: seq<U64>, n: nat): (start: nat)
    requires 0 < n <= |records|
    ensures start < n && StartsRun(records, start) && forall i :: start < i < n ==> !StartsRun(records, i)
  {
    if StartsRun(records, n - 1) then n - 1 else LastRun(records, n - 1)
  }

  /** The lists of all points but those of the last cell take fewer than 2^32 bytes. */
  predicate LastListFits(records: seq<U64>) {
    records == [] || ListBytes(records, LastRun(records, |records|)) <= U32_MAX
  }

  lemma OffsetsRise(keys: seq<U64>, m: CellMap, j: nat, k: nat)
    requires j <= k <= |keys|
    ensures EntryOffset(keys, m, j) <= EntryOffset(keys, m, k)
  {
    assert keys[..k][..j] == keys[..j];
    EntriesPrefix(keys[..k], m, j);
  }

  /** All offsets fit exactly if the one of the last list does. */
  lemma LastOffsetDecides(keys: seq<U64>, m: CellMap)
    requires keys != [] && forall c :: c in keys ==> c in m
    ensures OffsetsFit(keys, m) <==> EntryOffset(keys, m, |keys| - 1) <= U32_MAX
  {
    var last := |keys| - 1;
    assert keys[last] in keys;
    if EntryOffset(keys, m, last) <= U32_MAX {
      forall k | 0 <= k < |keys| ensures EntryOffset(keys, m, k) <= U32_MAX {
        OffsetsRise(keys, m, k, last);
      }
    }
  }

  lemma {:induction false} SameFromRun(records: seq<U64>, start: nat, i: nat)
    requires start <= i < |records| && forall j :: start < j <= i ==> !StartsRun(records, j)
    ensures records[i] == records[start]
    decreases i
  {
    if start < i {
      SameFromRun(records, start, i - 1);
      assert !StartsRun(records, i);
    }
  }

  /** The last cell's points start at the last start. */
  lemma LastRunIsLast(records: seq<U64>, c: U64, start: nat)
    requires IsRun(records, c, start, |records|)
    ensures LastRun(records, |records|) == start
  {
    var last := LastRun(records, |records|);
    SameFromRun(records, last, |records| - 1);
    assert records[|records| - 1] == c && records[last] == c && records[start] == c;
    assert StartsRun(records, start);
    forall i | start < i < |records| ensures !StartsRun(records, i) {
      assert records[i - 1] == c && records[i] == c;
    }
  }

  lemma LastListStarts(records: seq<U64>, keys: seq<U64>, m: CellMap)
    requires IsShard(records, keys, m) && keys != []
    ensures records != [] && EntryOffset(keys, m, |keys| - 1) == ListBytes(records, LastRun(records, |records|))
  {
    var k := |keys| - 1;
    var n := ListStarts(records, keys, m, k);
    var start, end := RunOfKey(records, keys, m, k);
    RunStartsAfter(records, keys, k, n, start, end);
    CellsAfterRun(records, keys, m, k, start, end);
    LastRunIsLast(records, keys[k], start);
  }

  /** All offsets fit 32 bits exactly if the lists of all points but the last cell's do. */
  lemma OffsetsFitExactly(records: seq<U64>, keys: seq<U64>, m: CellMap)
    requires IsShard(records, keys, m)
    ensures OffsetsFit(keys, m) <==> LastListFits(records)
  {
    if keys == [] {
      CellsBeforeNone(records, keys, m);
    } else {
      forall c | c in keys ensures c in m {
        assert c in m.Keys;
      }
      LastListStarts(records, keys, m);
      LastOffsetDecides(keys, m);
    }
  }

  /** Every offset in the table is that of its list exactly if they all fit, which nothing checks. */
  lemma WrappedOffsetsExactly(records: seq<U64>, keys: seq<U64>, m: CellMap)
    requires IsShard(records, keys, m)
    ensures LastListFits(records) <==>
            forall k :: 0 <= k < |keys| ==> Wrap(EntryOffset(keys, m, k)) == EntryOffset(keys, m, k)
  {
    OffsetsFitExactly(records, keys, m);
    forall k | 0 <= k < |keys|
      ensures Wrap(EntryOffset(keys, m, k)) == EntryOffset(keys, m, k) <==> EntryOffset(keys, m, k) <= U32_MAX
      ensures keys[k] in m
    {
      assert keys[k] in keys && keys[k] in m.Keys;
      WrapExact(EntryOffset(keys, m, k));
    }
  }

  lemma WrapExact(n: nat)
    ensures Wrap(n) == n <==> n <= U32_MAX
  {}

  // --- What a reader finds ---

  lemma RunsHavePoints(records: seq<U64>, c: U64)
    ensures forall start: nat, end: nat :: IsRun(records, c, start, end) ==> c in records
  {
    forall start: nat, end: nat ensures IsRun(records, c, start, end) ==> c in records {
      if IsRun(records, c, start, end) {
        assert records[start] in records;
      }
    }
  }

  lemma RunUnique(records: seq<U64>, c: U64, start: nat, end: nat, start': nat, end': nat)
    requires IsRun(records, c, start, end) && IsRun(records, c, start', end')
    ensures start == start' && end == end'
  {
    assert records[start] == c && records[start'] == c && records[end - 1] == c && records[end' - 1] == c;
  }

  lemma RunMembers(start: nat, end: nat, id: U32)
    requires start <= end <= U32_MAX + 1
    ensures id in RunIds(start, end) <==> start <= id < start + RunLength(start, end)
  {
    if start <= id < start + RunLength(start, end) {
      assert RunIds(start, end)[id - start] == id;
    }
  }

  /**
   A shard reads back.  If its last list starts below 2^32, a cell leads to the ids of exactly its own
   points, of the first 65535 if it has more, and a cell without points to none.
   */
  lemma ShardReadsBack(records: seq<U64>, keys: seq<U64>, m: CellMap, cell: U64, id: U32)
    requires |records| <= U32_MAX + 1 && IsShard(records, keys, m) && LastListFits(records)
    ensures var ids := IdsOfCell(WrappedTable(keys, m, |keys|), EntriesFile(keys, m), cell);
            && (cell !in records ==> ids == [])
            && forall start: nat, end: nat :: IsRun(records, cell, start, end) ==>
                 (id in ids <==> start <= id < start + RunLength(start, end))
  {
    OffsetsFitExactly(records, keys, m);
    CellTable(keys, m);
    WrappedTableExact(keys, m, |keys|);
    IdsOfBuiltCell(keys, m, OffsetTable(keys, m, |keys|), cell);
    if cell in m {
      var start: nat, end: nat :| IsRun(records, cell, start, end) && m[cell] == RunIds(start, end);
      RunMembers(start, end, id);
      assert Announced(m[cell]) == m[cell];
      forall start': nat, end': nat | IsRun(records, cell, start', end') ensures start' == start && end' == end {
        RunUnique(records, cell, start, end, start', end');
      }
    } else {
      RunsHavePoints(records, cell);
    }
  }

  /** A point that the lists of its cell tell, in one of the cells. */
  ghost predicate InReach(records: seq<U64>, cells: seq<U64>, id: nat) {
    id < |records| && records[id] in cells && IsListed(records, id)
  }

  lemma {:induction false} ShardIdsMembers(cells: seq<U64>, table: File, entries: File, id: U32)
    ensures id in ShardIds(cells, table, entries) <==> exists c :: c in cells && id in IdsOfCell(table, entries, c)
  {
    if cells != [] {
      var front, last := cells[..|cells| - 1], cells[|cells| - 1];
      ShardIdsMembers(front, table, entries, id);
      assert cells == front + [last];
    }
  }

  lemma RunAround(records: seq<U64>, keys: seq<U64>, m: CellMap, i: nat) returns (start: nat, end: nat)
    requires IsShard(records, keys, m) && i < |records|
    ensures IsRun(records, records[i], start, end) && start <= i < end
    ensures IsListed(records, i) <==> i < start + RunLength(start, end)
  {
    var k := KeyOf(records, keys, m, i);
    start, end := RunOfKey(records, keys, m, k);
  }

  /** The ids of a cell are those of its points that its list tells. */
  lemma CellReach(records: seq<U64>, keys: seq<U64>, m: CellMap, cell: U64, id: U32)
    requires |records| <= U32_MAX + 1 && IsShard(records, keys, m) && LastListFits(records)
    ensures id in IdsOfCell(WrappedTable(keys, m, |keys|), EntriesFile(keys, m), cell) <==>
            id < |records| && records[id] == cell && IsListed(records, id)
  {
    ShardReadsBack(records, keys, m, cell, id);
    if cell in records {
      var i :| 0 <= i < |records| && records[i] == cell;
      var start, end := RunAround(records, keys, m, i);
      if id < |records| && records[id] == cell {
        var start', end' := RunAround(records, keys, m, id);
        RunUnique(records, cell, start, end, start', end');
      }
    }
  }

  /**
   From the sorted points of a shard to the answer.  If the last list starts below 2^32, the search
   over the files written finds, whatever cells it looks at, the nearest point of its choice among
   all points in these cells that the lists tell.
   */
  lemma AddressOfShard(
    points: seq<AddrPoint>, r: Request, records: seq<U64>, cells: seq<U64>, keys: seq<U64>, m: CellMap,
    listed: seq<U32>)
    requires |points| == |records| <= U32_MAX + 1 && IsShard(records, keys, m) && LastListFits(records)
    requires forall id: U32 :: id in listed <==> InReach(records, cells, id)
    ensures var ids := ShardIds(cells, WrappedTable(keys, m, |keys|), EntriesFile(keys, m));
            NearestOfChoice(points, r, listed, TwoTier(points, r, ids))
  {
    var table, entries := WrappedTable(keys, m, |keys|), EntriesFile(keys, m);
    var ids := ShardIds(cells, table, entries);
    forall id: U32 ensures id in ids <==> id in listed {
      ShardIdsMembers(cells, table, entries, id);
      forall c ensures id in IdsOfCell(table, entries, c) <==>
                       id < |records| && records[id] == c && IsListed(records, id)
      {
        CellReach(records, keys, m, c, id);
      }
    }
    TwoTierNearest(points, r, ids);
    SameChoice(points, r, ids, listed, TwoTier(points, r, ids));
  }

  lemma SameChoice(points: seq<AddrPoint>, r: Request, a: seq<U32>, b: seq<U32>, best: Best<U32>)
    requires NearestOfChoice(points, r, a, best) && forall id: U32 :: id in a <==> id in b
    ensures NearestOfChoice(points, r, b, best)
  {}

  // --- A shard that is too large ---

  function WrappedOffsets(keys: seq<U64>, m: CellMap): seq<U32> {
    seq<U32>(|keys|, k requires 0 <= k < |keys| => Wrap(EntryOffset(keys, m, k)))
  }

  function WrappedRecords(keys: seq<U64>, m: CellMap, n: nat): (records: seq<File>)
    requires n <= |keys|
    ensures |records| == n
    ensures forall k :: 0 <= k < n ==> records[k] == WrappedRecord(keys[k], EntryOffset(keys, m, k))
  {
    seq(n, k requires 0 <= k < n => WrappedRecord(keys[k], EntryOffset(keys, m, k)))
  }

  lemma {:induction false} WrappedTableFlat(keys: seq<U64>, m: CellMap, n: nat)
    requires n <= |keys|
    ensures WrappedTable(keys, m, n) == Flatten(WrappedRecords(keys, m, n))
    decreases n
  {
    if n > 0 {
      WrappedTableFlat(keys, m, n - 1);
      FlattenAppend(WrappedRecords(keys, m, n - 1), WrappedRecord(keys[n - 1], EntryOffset(keys, m, n - 1)));
      assert WrappedRecords(keys, m, n)
          == WrappedRecords(keys, m, n - 1) + [WrappedRecord(keys[n - 1], EntryOffset(keys, m, n - 1))];
    }
  }

  /** A cell leads to whatever stands at its offset, wrapped around. */
  lemma ListAtWrapped(keys: seq<U64>, m: CellMap, entries: File, k: nat)
    requires Ascending(keys) && k < |keys|
    ensures IdsOfCell(WrappedTable(keys, m, |keys|), entries, keys[k]) == ListAt(entries, Wrap(EntryOffset(keys, m, k)))
  {
    var table, offsets := WrappedTable(keys, m, |keys|), WrappedOffsets(keys, m);
    WrappedTableFlat(keys, m, |keys|);
    PackedTable(WrappedRecords(keys, m, |keys|), keys, offsets);
    TableFinds(table, CELL_STRIDE, keys, 0, offsets);
    assert IdAt(table, CELL_STRIDE, k) == keys[k] && OffsetAt(table, CELL_STRIDE, k, 0) == offsets[k];
    ProbeSorted(table, CELL_STRIDE, keys[k], 0, |keys|, k);
  }

  /** The low half of a number is the first to be read. */
  lemma LowHalf(file: File, offset: nat)
    requires offset + 4 <= |file|
    ensures ReadU16(file, offset) == ReadU32(file, offset) % 65536
  {
    var four, two := file[offset..offset + 4], file[offset..offset + 2];
    TwoBytes(two);
    TwoBytes(four);
    assert two[0] == four[0] && two[1] == four[1] && two[2..] == [];
  }

  lemma TwoBytes(bytes: File)
    requires |bytes| >= 2
    ensures FromLe(bytes) == (bytes[0] as nat) + 256 * (bytes[1] as nat) + 65536 * FromLe(bytes[2..])
  {
    assert bytes[1..][0] == bytes[1] && bytes[1..][1..] == bytes[2..];
  }

  /** The first list tells its ids at their places. */
  lemma FirstList(keys: seq<U64>, m: CellMap, i: nat)
    requires keys != [] && keys[0] in m && i < |m[keys[0]]|
    ensures 2 + i * 4 + 4 <= |EntriesFile(keys, m)| && ReadU32(EntriesFile(keys, m), 2 + i * 4) == m[keys[0]][i]
  {
    assert keys[..0] == [] && EntriesFile([], m) == [];
    ListHeld(keys, m, 0);
    IdHeld(EntriesFile(keys, m), 0, m[keys[0]], i);
  }

  /** Each of the first 16386 cells has as many points as its count can tell, or more. */
  ghost predicate FirstCellsFull(records: seq<U64>, keys: seq<U64>) {
    && |keys| > 16385
    && forall k, start: nat, end: nat :: 0 <= k <= 16385 && IsRun(records, keys[k], start, end) ==>
         end - start >= MAX_COUNT
  }

  lemma FullLists(records: seq<U64>, keys: seq<U64>, m: CellMap, k: nat)
    requires IsShard(records, keys, m) && FirstCellsFull(records, keys) && k <= 16385
    ensures keys[k] in m && |m[keys[k]]| == MAX_COUNT
  {
    var start, end := RunOfKey(records, keys, m, k);
  }

  lemma {:induction false} FullListsOffset(records: seq<U64>, keys: seq<U64>, m: CellMap, k: nat)
    requires IsShard(records, keys, m) && FirstCellsFull(records, keys) && k <= 16385
    ensures EntryOffset(keys, m, k) == 262142 * k
    decreases k
  {
    if k > 0 {
      FullListsOffset(records, keys, m, k - 1);
      OffsetStep(keys, m, k - 1);
      FullLists(records, keys, m, k - 1);
    }
  }

  /** The first list has the id 57343 at the place to which the offset of cell number 16385 wraps. */
  lemma WrongCount(records: seq<U64>, keys: seq<U64>, m: CellMap, entries: File)
    requires IsShard(records, keys, m) && FirstCellsFull(records, keys) && entries == EntriesFile(keys, m)
    ensures 229374 + 4 <= |entries| && ReadU16(entries, 229374) == 57343
  {
    IdAsCount(records, keys, m, entries, 57343, 229374);
  }

  lemma IdAsCount(records: seq<U64>, keys: seq<U64>, m: CellMap, entries: File, i: nat, offset: nat)
    requires IsShard(records, keys, m) && FirstCellsFull(records, keys) && entries == EntriesFile(keys, m)
    requires i < MAX_COUNT && offset == 2 + i * 4
    ensures offset + 4 <= |entries| && ReadU16(entries, offset) == i
  {
    FirstIds(records, keys, m, i);
    FirstList(keys, m, i);
    CountIs(entries, offset, i);
  }

  lemma CountIs(file: File, offset: nat, i: nat)
    requires offset + 4 <= |file| && ReadU32(file, offset) == i < 65536
    ensures ReadU16(file, offset) == i
  {
    LowHalf(file, offset);
  }

  /** The first list of a full shard counts up from zero. */
  lemma FirstIds(records: seq<U64>, keys: seq<U64>, m: CellMap, i: nat)
    requires IsShard(records, keys, m) && FirstCellsFull(records, keys) && i < MAX_COUNT
    ensures keys[0] in m && |m[keys[0]]| == MAX_COUNT && m[keys[0]][i] == i
  {
    FullLists(records, keys, m, 0);
    CellsBeforeNone(records, keys, m);
    var start, end := RunOfKey(records, keys, m, 0);
    RunStartsAfter(records, keys, 0, 0, start, end);
    WrapExact(i);
  }

  lemma WrongList(entries: File)
    requires 4295196670 <= |entries| && ReadU16(entries, 229374) == 57343
    ensures |ListAt(entries, 229374)| == 57343
  {}

  /**
   With 16386 full cells in front a shard is too large.  The list of the cell after the first 16385
   starts beyond 4 GB, and is looked for in the middle of the first list, where the reader takes an
   id for a count and visits 57343 ids of no meaning instead of the cell's 65535.
   */
  lemma FullCellsReadWrong(records: seq<U64>, keys: seq<U64>, m: CellMap)
    requires IsShard(records, keys, m) && FirstCellsFull(records, keys)
    ensures !LastListFits(records)
    ensures keys[16385] in m && |m[keys[16385]]| == MAX_COUNT
    ensures |IdsOfCell(WrappedTable(keys, m, |keys|), EntriesFile(keys, m), keys[16385])| == 57343
  {
    FullLists(records, keys, m, 16385);
    TooFar(records, keys, m);
    ListAtWrapped(keys, m, EntriesFile(keys, m), 16385);
    WrongCount(records, keys, m, EntriesFile(keys, m));
    WrongList(EntriesFile(keys, m));
  }

  lemma TooFar(records: seq<U64>, keys: seq<U64>, m: CellMap)
    requires IsShard(records, keys, m) && FirstCellsFull(records, keys)
    ensures !LastListFits(records) && Wrap(EntryOffset(keys, m, 16385)) == 229374
    ensures 4295196670 <= |EntriesFile(keys, m)|
  {
    FullLists(records, keys, m, 16385);
    FullListsOffset(records, keys, m, 16385);
    OffsetsFitExactly(records, keys, m);
    EntriesPrefix(keys, m, 16385);
    WrapAround(EntryOffset(keys, m, 16385), 229374);
  }

  lemma WrapAround(n: nat, rest: nat)
    requires n == U32_MAX + 1 + rest && rest <= U32_MAX
    ensures Wrap(n) == rest
  {}

  /** A shard of `n` cells of 65535 points each. */
  function FullShard(n: nat): (records: seq<U64>)
    requires n <= 100_000
    ensures |records| == 65535 * n && forall i :: 0 <= i < |records| ==> records[i] == i / 65535
  {
    seq<U64>(65535 * n, i requires 0 <= i < 65535 * n => i / 65535)
  }

  lemma NoGap(keys: seq<U64>, i: nat, j: nat)
    requires Ascending(keys) && i < j < |keys| && keys[j] == (keys[i] as nat) + 1
    ensures j == i + 1
  {
    KeysRise(keys, i, i + 1);
    KeysRise(keys, i + 1, j);
  }

  /** A list of keys that holds all numbers below `n` starts with them. */
  lemma {:induction false} KeysCountUp(keys: seq<U64>, n: nat, k: nat)
    requires Ascending(keys) && k < n && n <= U32_MAX && forall c: U64 :: c < n ==> c in keys
    ensures k < |keys| && keys[k] == k
    decreases k
  {
    if k > 0 {
      KeysCountUp(keys, n, k - 1);
    }
    var c: U64 := k;
    assert c in keys;
    var j :| 0 <= j < |keys| && keys[j] == k;
    if k > 0 {
      KeysRise(keys, k - 1, j);
      NoGap(keys, k - 1, j);
    } else {
      KeysRise(keys, 0, j);
    }
  }

  lemma FullShardSorted(n: nat)
    requires n <= 100_000
    ensures Sorted(FullShard(n))
  {
    forall i, j | 0 <= i < j < 65535 * n ensures i / 65535 <= j / 65535 {}
  }

  lemma FullRun(c: nat, start: nat, end: nat, n: nat)
    requires c < n <= 100_000 && IsRun(FullShard(n), c, start, end)
    ensures end - start >= 65535
  {
    var records := FullShard(n);
    assert records[65535 * c] == c && records[65535 * c + 65534] == c;
  }

  /** There is such a shard: 16386 cells of 65535 points each. */
  lemma FullShardReadsWrong(keys: seq<U64>, m: CellMap)
    requires IsKeyOrder(keys, m.Keys) && ListsRecords(FullShard(16386), m)
    ensures IsShard(FullShard(16386), keys, m) && FirstCellsFull(FullShard(16386), keys)
    ensures |IdsOfCell(WrappedTable(keys, m, |keys|), EntriesFile(keys, m), 16385)| == 57343
  {
    var records := FullShard(16386);
    forall c: U64 | c < 16386 ensures c in keys {
      assert records[65535 * c] == c;
      assert c in records && c in m.Keys;
    }
    KeysCountUp(keys, 16386, 16385);
    forall k: nat | k <= 16385 ensures keys[k] == k {
      KeysCountUp(keys, 16386, k);
    }
    FullShardSorted(16386);
    forall k, start: nat, end: nat | 0 <= k <= 16385 && IsRun(records, keys[k], start, end)
      ensures end - start >= MAX_COUNT
    {
      FullRun(k, start, end, 16386);
    }
    FullCellsReadWrong(records, keys, m);
  }
}
