/** The server's side of the cell index: binary search over packed records and list scans. */
module CellReader {
  import opened Bytes
  import opened CellWriter
  import opened Wrappers

  // --- for_each_entry ---

  /** The ids of the list at an offset; a malformed list counts as empty. */
  function ListAt(entries: File, offset: U32): seq<U32> {
    if offset + 2 > |entries| then []
    else
      var count := ReadU16(entries, offset);
      if offset + 2 + count * 4 > |entries| then []
      else seq(count, i requires 0 <= i < count => ReadU32(entries, offset + 2 + i * 4))
  }

  /** The ids the scan of one list visits; the marker stands for no list. */
  function Visited(entries: File, offset: U32): seq<U32> {
    if offset == NO_DATA then [] else ListAt(entries, offset)
  }

  /** `for_each_point_in_cell`, with the callback's arguments collected. */
  method ForEachPoint(entries: File, offset: U32) returns (visited: seq<U32>)
    ensures visited == ListAt(entries, offset)
  {
    visited := [];
    if offset + 2 > |entries| {
      return;
    }
    var idCount := ReadU16(entries, offset);
    var dataStart := offset + 2;
    if dataStart + idCount * 4 > |entries| {
      return;
    }
    for i := 0 to idCount
      invariant visited == ListAt(entries, offset)[..i]
    {
      visited := visited + [ReadU32(entries, dataStart + i * 4)];
    }
  }

  /** `for_each_entry`: the same behind the marker. */
  method ForEachEntry(entries: File, offset: U32) returns (visited: seq<U32>)
    ensures visited == Visited(entries, offset)
  {
    if offset == NO_DATA {
      return [];
    }
    visited := ForEachPoint(entries, offset);
  }

  // --- Cell tables ---

  const CELL_STRIDE: nat := 12

  const GEO_STRIDE: nat := 20

  lemma RecordInside(cells: File, stride: nat, i: nat)
    requires stride >= 12 && i < |cells| / stride
    ensures i * stride + stride <= |cells|
  {
    var count := |cells| / stride;
    assert count * stride <= |cells|;
    assert (i + 1) * stride <= count * stride;
  }

  /** The cell id of record `i`. */
  function IdAt(cells: File, stride: nat, i: nat): U64
    requires stride >= 12 && i < |cells| / stride
  {
    RecordInside(cells, stride, i);
    ReadU64(cells, i * stride)
  }

  /** The `f`-th offset of record `i`. */
  function OffsetAt(cells: File, stride: nat, i: nat, f: nat): U32
    requires stride >= 12 && i < |cells| / stride && 12 + f * 4 <= stride
  {
    RecordInside(cells, stride, i);
    ReadU32(cells, i * stride + 8 + f * 4)
  }

  /** The records are sorted by cell id, without repetition. */
  ghost predicate SortedTable(cells: File, stride: nat)
    requires stride >= 12
  {
    forall i, j :: 0 <= i < j < |cells| / stride ==> IdAt(cells, stride, i) < IdAt(cells, stride, j)
  }

  /** The record a plain scan from the front would find among the first `n`. */
  function FindRecord(cells: File, stride: nat, id: U64, n: nat): (k: nat)
    requires stride >= 12 && n <= |cells| / stride
    ensures k <= n
    ensures k < n ==> IdAt(cells, stride, k) == id
    ensures forall i :: 0 <= i < k ==> IdAt(cells, stride, i) != id
  {
    if n == 0 then 0
    else
      var k := FindRecord(cells, stride, id, n - 1);
      if k < n - 1 || IdAt(cells, stride, n - 1) == id then k else n
  }

  /** The record that halving the range from `lo` to `hi` arrives at, in a table of any order. */
  function Probe(cells: File, stride: nat, id: U64, lo: nat, hi: nat): (at: Option<nat>)
    requires stride >= 12 && lo <= hi <= |cells| / stride
    ensures at.Some? ==> lo <= at.value < hi && IdAt(cells, stride, at.value) == id
    decreases hi - lo
  {
    if lo == hi then None
    else
      var mid := lo + (hi - lo) / 2;
      if IdAt(cells, stride, mid) == id then Some(mid)
      else if IdAt(cells, stride, mid) < id then Probe(cells, stride, id, mid + 1, hi)
      else Probe(cells, stride, id, lo, mid)
  }

  /** Where a table has a cell. */
  function Located(cells: File, stride: nat, id: U64): Option<nat>
    requires stride >= 12
  {
    Probe(cells, stride, id, 0, |cells| / stride)
  }

  /** The binary search shared by `lookup_geo_cell`, `lookup_admin_cell` and `lookup_cell_offset`. */
  method BinarySearch(cells: File, stride: nat, id: U64) returns (at: Option<nat>)
    requires stride >= 12
    ensures at == Located(cells, stride, id)
  {
    var lo: nat, hi: nat := 0, |cells| / stride;
    while lo < hi
      invariant lo <= hi <= |cells| / stride
      invariant Probe(cells, stride, id, lo, hi) == Located(cells, stride, id)
    {
      var mid := lo + (hi - lo) / 2;
      var midId := IdAt(cells, stride, mid);
      if midId == id {
        return Some(mid);
      } else if midId < id {
        lo := mid + 1;
      } else {
        hi := mid;
      }
    }
    at := None;
  }

  lemma {:induction false} ProbeSorted(cells: File, stride: nat, id: U64, lo: nat, hi: nat, k: nat)
    requires stride >= 12 && lo <= k < hi <= |cells| / stride
    requires SortedTable(cells, stride) && IdAt(cells, stride, k) == id
    ensures Probe(cells, stride, id, lo, hi) == Some(k)
    decreases hi - lo
  {
    var mid := lo + (hi - lo) / 2;
    if mid < k {
      ProbeSorted(cells, stride, id, mid + 1, hi, k);
    } else if k < mid {
      ProbeSorted(cells, stride, id, lo, mid, k);
    }
  }

  /** In a sorted table the search finds what a plain scan from the front finds. */
  lemma SearchIsScan(cells: File, stride: nat, id: U64)
    requires stride >= 12 && SortedTable(cells, stride)
    ensures var k := FindRecord(cells, stride, id, |cells| / stride);
            Located(cells, stride, id) == if k < |cells| / stride then Some(k) else None
  {
    var k := FindRecord(cells, stride, id, |cells| / stride);
    if k < |cells| / stride {
      ProbeSorted(cells, stride, id, 0, |cells| / stride, k);
    }
  }

  /** What a table says about a cell. */
  function TableOffset(cells: File, stride: nat, id: U64, f: nat): U32
    requires stride >= 12 && 12 + f * 4 <= stride
  {
    var at := Located(cells, stride, id);
    if at.Some? then OffsetAt(cells, stride, at.value, f) else NO_DATA
  }

  method LookupAdminCell(cells: File, id: U64) returns (offset: U32)
    ensures offset == TableOffset(cells, CELL_STRIDE, id, 0)
  {
    var at := BinarySearch(cells, CELL_STRIDE, id);
    offset := if at.Some? then OffsetAt(cells, CELL_STRIDE, at.value, 0) else NO_DATA;
  }

  datatype GeoOffsets = GeoOffsets(street: U32, addr: U32, interp: U32)

  method LookupGeoCell(cells: File, id: U64) returns (offsets: GeoOffsets)
    ensures offsets == GeoOffsets(TableOffset(cells, GEO_STRIDE, id, 0),
                                  TableOffset(cells, GEO_STRIDE, id, 1),
                                  TableOffset(cells, GEO_STRIDE, id, 2))
  {
    var at := BinarySearch(cells, GEO_STRIDE, id);
    if at.Some? {
      offsets := GeoOffsets(OffsetAt(cells, GEO_STRIDE, at.value, 0),
                            OffsetAt(cells, GEO_STRIDE, at.value, 1),
                            OffsetAt(cells, GEO_STRIDE, at.value, 2));
    } else {
      offsets := GeoOffsets(NO_DATA, NO_DATA, NO_DATA);
    }
  }
}
