/** How a shard's builder writes the cells of its sorted points. */
module ShardFiles {
  import opened Bytes
  import opened CellOrder
  import opened CellWriter
  import opened Sequences

  /** A cast or a sum in 32 bits. */
  function Wrap(n: nat): U32 {
    n % (U32_MAX + 1)
  }

  function RunLength(start: nat, end: nat): nat
    requires start <= end
  {
    if end - start < MAX_COUNT then end - start else MAX_COUNT
  }

  /** The ids written for the points from `start` to `end`: at most as many as the count can tell. */
  function RunIds(start: nat, end: nat): (ids: seq<U32>)
    requires start <= end
    ensures |ids| == RunLength(start, end) && forall i :: 0 <= i < |ids| ==> ids[i] == Wrap(start + i)
  {
    seq<U32>(RunLength(start, end), i requires 0 <= i => Wrap(start + i))
  }

  /** The points of cell `c` are those from `start` to `end`. */
  ghost predicate IsRun(records: seq<U64>, c: U64, start: nat, end: nat) {
    && start < end <= |records|
    && forall i :: 0 <= i < |records| ==> (records[i] == c <==> start <= i < end)
  }

  /** `ids` are the ids of the first points of cell `c`. */
  ghost predicate ListsCell(records: seq<U64>, c: U64, ids: seq<U32>) {
    exists start: nat, end: nat :: IsRun(records, c, start, end) && ids == RunIds(start, end)
  }

  /** Every cell with points has their list, and no other cell has one. */
  ghost predicate ListsRecords(records: seq<U64>, m: CellMap) {
    (forall c: U64 :: c in m <==> c in records) && forall c :: c in m ==> ListsCell(records, c, m[c])
  }

  /** A sorted list of points and the lists made of it. */
  ghost predicate IsShard(records: seq<U64>, keys: seq<U64>, m: CellMap) {
    Sorted(records) && IsKeyOrder(keys, m.Keys) && ListsRecords(records, m)
  }

  /** The table as it is written, with offsets that wrap around. */
  function WrappedTable(keys: seq<U64>, m: CellMap, n: nat): File
    requires n <= |keys|
  {
    if n == 0 then [] else WrappedTable(keys, m, n - 1) + WrappedRecord(keys[n - 1], EntryOffset(keys, m, n - 1))
  }

  function WrappedRecord(cell: U64, offset: nat): File {
    ToLe(cell, 8) + ToLe(Wrap(offset), 4)
  }

  method FindRunEnd(records: seq<U64>, start: nat) returns (end: nat)
    requires Sorted(records) && start < |records|
    ensures start < end <= |records|
    ensures forall i :: start <= i < end ==> records[i] == records[start]
    ensures forall i :: end <= i < |records| ==> records[i] > records[start]
  {
    end := start + 1;
    while end < |records| && records[end] == records[start]
      invariant start < end <= |records|
      invariant forall i :: start <= i < end ==> records[i] == records[start]
    {
      end := end + 1;
    }
  }

  method WriteRun(start: nat, end: nat) returns (bytes: File, ids: seq<U32>)
    requires start <= end
    ensures ids == RunIds(start, end) && bytes == EncodeList(ids)
  {
    var runLen := RunLength(start, end);
    ids := [];
    for i := 0 to runLen
      invariant ids == RunIds(start, end)[..i]
    {
      ids := ids + [Wrap(start + i)];
    }
    bytes := WriteIds(ids);
    bytes := ToLe(runLen, 2) + bytes;
  }

  /** Adding the list of one more cell leaves what was written before. */
  lemma {:induction false} OlderEntries(keys: seq<U64>, m: CellMap, c: U64, ids: seq<U32>)
    requires c !in keys
    ensures EntriesFile(keys, m[c := ids]) == EntriesFile(keys, m)
    decreases |keys|
  {
    if keys != [] {
      OlderEntries(keys[..|keys| - 1], m, c, ids);
    }
  }

  lemma OlderOffset(keys: seq<U64>, m: CellMap, c: U64, ids: seq<U32>, k: nat)
    requires c !in keys && k <= |keys|
    ensures EntryOffset(keys + [c], m[c := ids], k) == EntryOffset(keys, m, k)
  {
    assert (keys + [c])[..k] == keys[..k];
    OlderEntries(keys[..k], m, c, ids);
  }

  lemma {:induction false} OlderTable(keys: seq<U64>, m: CellMap, keys': seq<U64>, m': CellMap, n: nat)
    requires n <= |keys| <= |keys'| && forall k :: 0 <= k < n ==> keys'[k] == keys[k]
    requires forall k :: 0 <= k < n ==> EntryOffset(keys', m', k) == EntryOffset(keys, m, k)
    ensures WrappedTable(keys', m', n) == WrappedTable(keys, m, n)
    decreases n
  {
    if n > 0 {
      OlderTable(keys, m, keys', m', n - 1);
    }
  }

  /** One more cell at the end of both files. */
  lemma OneMoreCell(keys: seq<U64>, m: CellMap, c: U64, ids: seq<U32>)
    requires c !in keys
    ensures var keys', m' := keys + [c], m[c := ids];
            && EntriesFile(keys', m') == EntriesFile(keys, m) + EncodeList(ids)
            && WrappedTable(keys', m', |keys'|)
               == WrappedTable(keys, m, |keys|) + WrappedRecord(c, |EntriesFile(keys, m)|)
  {
    var keys', m' := keys + [c], m[c := ids];
    assert keys'[..|keys|] == keys && keys[..|keys|] == keys;
    OlderEntries(keys, m, c, ids);
    forall k: nat | k <= |keys| ensures EntryOffset(keys', m', k) == EntryOffset(keys, m, k) {
      OlderOffset(keys, m, c, ids, k);
    }
    OlderTable(keys, m, keys', m', |keys|);
  }

  /** The cells of the points before `n`, each once and in order, with their lists. */
  ghost predicate ListedBefore(records: seq<U64>, n: nat, keys: seq<U64>, m: CellMap)
    requires n <= |records|
  {
    && IsKeyOrder(keys, m.Keys) && (forall c: U64 :: c in m <==> c in records[..n])
    && (forall c :: c in m ==> ListsCell(records, c, m[c]))
    && forall i, j :: 0 <= i < n <= j < |records| ==> records[i] < records[j]
  }

  lemma CellsAppend(keys: seq<U64>, m: CellMap, c: U64, ids: seq<U32>)
    requires IsKeyOrder(keys, m.Keys) && forall k :: k in m ==> k < c
    ensures c !in keys && IsKeyOrder(keys + [c], m[c := ids].Keys)
  {
    forall i | 0 <= i < |keys| ensures keys[i] < c {
      assert keys[i] in m.Keys;
    }
    forall k: U64 ensures k in keys + [c] <==> k in m[c := ids].Keys {
      assert k in keys <==> k in m.Keys;
    }
  }

  lemma RunListed(
    records: seq<U64>, start: nat, end: nat, keys: seq<U64>, m: CellMap, c: U64, ids: seq<U32>)
    requires Sorted(records) && start < end <= |records| && ListedBefore(records, start, keys, m)
    requires c == records[start] && ids == RunIds(start, end)
    requires forall i :: start <= i < end ==> records[i] == c
    requires forall i :: end <= i < |records| ==> records[i] > c
    ensures c !in keys && ListedBefore(records, end, keys + [c], m[c := ids])
  {
    assert IsRun(records, c, start, end);
    forall k | k in m ensures k < c {
      assert k in records[..start];
      var i :| 0 <= i < start && records[..start][i] == k;
      assert records[i] < records[start];
    }
    CellsAppend(keys, m, c, ids);
    forall k: U64 ensures k in m[c := ids] <==> k in records[..end] {
      assert records[..end] == records[..start] + records[start..end];
      if k in records[start..end] {
        var i :| 0 <= i < end - start && records[start..end][i] == k;
        assert k == records[start + i];
      }
      assert records[start..end][0] == c;
    }
  }

  /** What stands in both files once the points before `n` are written. */
  ghost predicate Written(records: seq<U64>, n: nat, keys: seq<U64>, m: CellMap, table: File, entries: File)
    requires n <= |records|
  {
    && ListedBefore(records, n, keys, m)
    && entries == EntriesFile(keys, m) && table == WrappedTable(keys, m, |keys|)
  }

  lemma RunWritten(
    records: seq<U64>, start: nat, end: nat, keys: seq<U64>, m: CellMap, table: File, entries: File,
    c: U64, ids: seq<U32>)
    requires Sorted(records) && start < end <= |records| && Written(records, start, keys, m, table, entries)
    requires c == records[start] && ids == RunIds(start, end)
    requires forall i :: start <= i < end ==> records[i] == c
    requires forall i :: end <= i < |records| ==> records[i] > c
    ensures Written(records, end, keys + [c], m[c := ids], table + WrappedRecord(c, |entries|),
                    entries + EncodeList(ids))
  {
    RunListed(records, start, end, keys, m, c, ids);
    OneMoreCell(keys, m, c, ids);
  }

  lemma NextOffset(entries: File, ids: seq<U32>)
    ensures Wrap(|entries + EncodeList(ids)|) == Wrap(Wrap(|entries|) + 2 + |ids| * 4)
  {
    EncodedSize(ids);
    WrapStep(|entries|, 2 + |ids| * 4);
  }

  /** One turn of the loop: a record of the table and a list. */
  method WriteCell(cell: U64, start: nat, end: nat, table: File, entries: File, currentOffset: U32)
    returns (table': File, entries': File, nextOffset: U32, ghost ids: seq<U32>)
    requires start <= end && currentOffset == Wrap(|entries|)
    ensures ids == RunIds(start, end)
    ensures table' == table + WrappedRecord(cell, |entries|)
    ensures entries' == entries + EncodeList(ids) && nextOffset == Wrap(|entries'|)
  {
    var list, written := WriteRun(start, end);
    ids := written;
    NextOffset(entries, ids);
    table' := table + (ToLe(cell, 8) + ToLe(currentOffset, 4));
    entries' := entries + list;
    nextOffset := Wrap(currentOffset + 2 + RunLength(start, end) * 4);
  }

  /** `write_output`, for the points' cells in order; entries and table are written side by side. */
  method WriteOutput(records: seq<U64>) returns (table: File, entries: File, ghost keys: seq<U64>, ghost m: CellMap)
    requires Sorted(records)
    ensures IsShard(records, keys, m)
    ensures entries == EntriesFile(keys, m) && table == WrappedTable(keys, m, |keys|)
  {
    table, entries, keys, m := [], [], [], map[];
    var currentOffset: U32, start: nat := 0, 0;
    while start < |records|
      invariant start <= |records| && Written(records, start, keys, m, table, entries)
      invariant currentOffset == Wrap(|entries|)
    {
      ghost var before := (table, entries);
      var end := FindRunEnd(records, start);
      ghost var ids;
      table, entries, currentOffset, ids := WriteCell(records[start], start, end, table, entries, currentOffset);
      RunWritten(records, start, end, keys, m, before.0, before.1, records[start], ids);
      keys, m := keys + [records[start]], m[records[start] := ids];
      start := end;
    }
    assert records[..|records|] == records;
  }

  lemma WrapStep(n: nat, more: nat)
    ensures Wrap(Wrap(n) + more) == Wrap(n + more)
  {}
}
