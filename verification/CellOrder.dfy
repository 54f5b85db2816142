/** Listing the cells of an index in ascending order. */
module CellOrder {
  import opened Bytes
  import opened Sequences

  /** `cells` is the ascending listing of `keys`. */
  ghost predicate IsKeyOrder(cells: seq<U64>, keys: set<U64>) {
    Ascending(cells) && forall c :: c in cells <==> c in keys
  }

  lemma KeyOrderUnique(a: seq<U64>, b: seq<U64>, keys: set<U64>)
    requires IsKeyOrder(a, keys) && IsKeyOrder(b, keys)
    ensures a == b
  {
    forall x: nat ensures x in a <==> x in b {
      if x in a { assert x in keys; }
      if x in b { assert x in keys; }
    }
    AscendingUnique(a, b);
  }

  /** Collects a set of keys into an ascending sequence, as an ordered set or a sort does. */
  method SortKeys(keys: set<U64>) returns (r: seq<U64>)
    ensures IsKeyOrder(r, keys)
  {
    r := [];
    var rest := keys;
    while rest != {}
      invariant rest <= keys && Ascending(r)
      invariant forall k :: k in r <==> k in keys - rest
      decreases rest
    {
      var k :| k in rest;
      var i := 0;
      while i < |r| && r[i] < k
        invariant i <= |r| && forall j :: 0 <= j < i ==> r[j] < k
      {
        i := i + 1;
      }
      assert i < |r| ==> r[i] in r && r[i] != k;
      assert forall x :: x in r <==> x in r[..i] || x in r[i..];
      r := r[..i] + [k] + r[i..];
      rest := rest - {k};
    }
  }

  /** The ids of every cell, before they are packed. */
  type IdLists = map<U64, seq<nat>>

  /** `deduplicate`: sorts every list and drops the repetitions. */
  method Deduplicate(lists: IdLists) returns (r: IdLists)
    ensures r.Keys == lists.Keys
    ensures forall c :: c in lists ==> Ascending(r[c]) && SameItems(r[c], lists[c])
  {
    r := map[];
    var cells := SortKeys(lists.Keys);
    for i := 0 to |cells|
      invariant forall c :: c in r <==> c in cells[..i]
      invariant forall c :: c in r ==> c in lists && Ascending(r[c]) && SameItems(r[c], lists[c])
    {
      assert cells[i] in lists.Keys;
      var list := SortUnique(lists[cells[i]]);
      r := r[cells[i] := list];
    }
    assert cells[..|cells|] == cells;
  }

  /** Whatever order the ids were collected in, a list is packed in one way only. */
  lemma DeduplicatedUnique(a: seq<nat>, b: seq<nat>, packedA: seq<nat>, packedB: seq<nat>)
    requires SameItems(a, b)
    requires Ascending(packedA) && SameItems(packedA, a) && Ascending(packedB) && SameItems(packedB, b)
    ensures packedA == packedB
  {
    forall x: nat ensures x in packedA <==> x in packedB {
      assert x in a <==> x in b;
    }
    AscendingUnique(packedA, packedB);
  }
}
