/** Little-endian integers and files made of records. */
module Bytes {

  type Byte = b: nat | b < 256

  type U32 = n: nat | n < 0x1_0000_0000

  type U64 = n: nat | n < 0x1_0000_0000_0000_0000

  const U32_MAX: nat := 0xFFFF_FFFF

  type File = seq<Byte>

  function Pow256(n: nat): nat {
    if n == 0 then 1 else 256 * Pow256(n - 1)
  }

  /** The `n` low bytes of `v`, lowest first. */
  function ToLe(v: nat, n: nat): (bytes: File)
    ensures |bytes| == n
  {
    if n == 0 then [] else [v % 256] + ToLe(v / 256, n - 1)
  }

  function FromLe(bytes: File): nat {
    if bytes == [] then 0 else bytes[0] + 256 * FromLe(bytes[1..])
  }

  lemma {:induction false} LeRoundTrip(v: nat, n: nat)
    requires v < Pow256(n)
    ensures FromLe(ToLe(v, n)) == v
  {
    if n > 0 {
      LeRoundTrip(v / 256, n - 1);
    }
  }

  lemma {:induction false} FromLeBound(bytes: File)
    ensures FromLe(bytes) < Pow256(|bytes|)
  {
    if bytes != [] {
      FromLeBound(bytes[1..]);
    }
  }

  lemma Widths()
    ensures Pow256(2) == 0x1_0000 && Pow256(4) == 0x1_0000_0000 && Pow256(8) == 0x1_0000_0000_0000_0000
  {
    assert Pow256(1) == 256;
    assert Pow256(3) == 256 * Pow256(2);
    assert Pow256(5) == 256 * Pow256(4);
    assert Pow256(6) == 256 * Pow256(5);
    assert Pow256(7) == 256 * Pow256(6);
  }

  /** The integer of `n` bytes at `offset`. */
  function Read(file: File, offset: nat, n: nat): nat
    requires offset + n <= |file|
  {
    FromLe(file[offset..offset + n])
  }

  function ReadU16(file: File, offset: nat): (v: nat)
    requires offset + 2 <= |file|
    ensures v < 0x1_0000
  {
    FromLeBound(file[offset..offset + 2]);
    Widths();
    Read(file, offset, 2)
  }

  function ReadU32(file: File, offset: nat): U32
    requires offset + 4 <= |file|
  {
    FromLeBound(file[offset..offset + 4]);
    Widths();
    Read(file, offset, 4)
  }

  function ReadU64(file: File, offset: nat): U64
    requires offset + 8 <= |file|
  {
    FromLeBound(file[offset..offset + 8]);
    Widths();
    Read(file, offset, 8)
  }

  // --- What was written at a place is read back there ---

  /** `chunk` stands in `file` at `offset`. */
  ghost predicate Holds(file: File, offset: nat, chunk: File) {
    offset + |chunk| <= |file| && file[offset..offset + |chunk|] == chunk
  }

  lemma SliceOfSlice(file: File, offset: nat, length: nat, from: nat, to: nat)
    requires offset + length <= |file| && from <= to <= length
    ensures file[offset..offset + length][from..to] == file[offset + from..offset + to]
  {
    var part := file[offset..offset + length];
    assert forall i :: from <= i < to ==> part[i] == file[offset + i];
  }

  lemma Middle(before: File, part: File, after: File)
    ensures (before + part + after)[|before|..|before| + |part|] == part
  {
    var whole := before + part + after;
    assert forall i :: 0 <= i < |part| ==> whole[|before| + i] == part[i];
  }

  lemma HoldsPart(file: File, offset: nat, before: File, part: File, after: File)
    requires Holds(file, offset, before + part + after)
    ensures Holds(file, offset + |before|, part)
  {
    Middle(before, part, after);
    SliceOfSlice(file, offset, |before + part + after|, |before|, |before| + |part|);
  }

  /** What a longer file starts with stands where it stood. */
  lemma HoldsAfter(file: File, before: File, chunk: File)
    requires before + chunk <= file
    ensures Holds(file, |before|, chunk)
  {
    Middle(before, chunk, []);
    assert file[..|before + chunk|] == before + chunk == before + chunk + [];
    SliceOfSlice(file, 0, |before + chunk|, |before|, |before| + |chunk|);
  }

  lemma ReadBackU16(file: File, offset: nat, v: nat)
    requires v < 0x1_0000 && Holds(file, offset, ToLe(v, 2))
    ensures ReadU16(file, offset) == v
  {
    Widths();
    LeRoundTrip(v, 2);
  }

  lemma ReadBackU32(file: File, offset: nat, v: U32)
    requires Holds(file, offset, ToLe(v, 4))
    ensures ReadU32(file, offset) == v
  {
    Widths();
    LeRoundTrip(v, 4);
  }

  lemma ReadBackU64(file: File, offset: nat, v: U64)
    requires Holds(file, offset, ToLe(v, 8))
    ensures ReadU64(file, offset) == v
  {
    Widths();
    LeRoundTrip(v, 8);
  }

  // --- Files of equally long records ---

  function Flatten(records: seq<File>): File {
    if records == [] then [] else Flatten(records[..|records| - 1]) + records[|records| - 1]
  }

  lemma FlattenAppend(records: seq<File>, record: File)
    ensures Flatten(records + [record]) == Flatten(records) + record
  {
    assert (records + [record])[..|records|] == records;
  }

  lemma FlattenStep(records: seq<File>, table: File, record: File)
    requires table == Flatten(records)
    ensures table + record == Flatten(records + [record])
  {
    FlattenAppend(records, record);
  }

  ghost predicate Uniform(records: seq<File>, width: nat) {
    forall i :: 0 <= i < |records| ==> |records[i]| == width
  }

  lemma {:induction false} FlattenLength(records: seq<File>, width: nat)
    requires Uniform(records, width)
    ensures |Flatten(records)| == |records| * width
  {
    if records != [] {
      var n := |records|;
      FlattenLength(records[..n - 1], width);
      assert n * width == (n - 1) * width + width;
    }
  }

  lemma {:induction false} FlattenPrefix(records: seq<File>, n: nat)
    requires n <= |records|
    ensures Flatten(records[..n]) <= Flatten(records)
  {
    if n < |records| {
      var front := records[..|records| - 1];
      assert front[..n] == records[..n];
      FlattenPrefix(front, n);
    } else {
      assert records[..n] == records;
    }
  }

  /** Record `i` stands at `i` times the record width. */
  lemma RecordAt(records: seq<File>, width: nat, i: nat)
    requires Uniform(records, width) && i < |records|
    ensures Holds(Flatten(records), i * width, records[i])
  {
    var upTo := records[..i + 1];
    assert upTo[..i] == records[..i];
    FlattenLength(records[..i], width);
    FlattenPrefix(records, i + 1);
    assert Flatten(upTo) == Flatten(records[..i]) + records[i];
  }
}
