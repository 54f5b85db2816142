/** Prefix and exact search of the autocomplete index, on top of the pruned walk and the heap. */
module Autocomplete {
  import opened Automaton
  import opened Bytes
  import opened Lexicographic
  import PrefixKeys
  import opened TopK
  import opened Wrappers

  const FST_WALK_CAP: nat := 10_000
  const FST_MIN_PREFIX_LEN: nat := 2

  datatype Record = Record(rank: nat, name: Text)

  /** The order of the hits a caller gets: by rank, then alphabetically. */
  predicate HitLe(records: seq<Record>, a: Item, b: Item) {
    a.rank < b.rank || (a.rank == b.rank && NameLe(records, a, b))
  }

  predicate NameLe(records: seq<Record>, a: Item, b: Item) {
    a.id < |records| && b.id < |records| && !Before(records[b.id].name, records[a.id].name)
  }

  ghost predicate HitsSorted(records: seq<Record>, hits: seq<Item>) {
    forall i, j :: 0 <= i < j < |hits| ==> HitLe(records, hits[i], hits[j])
  }

  /** An item names a record and carries its rank. */
  ghost predicate AreRecords(records: seq<Record>, items: multiset<Item>) {
    forall x :: x in items ==> x.id < |records| && x.rank == records[x.id].rank
  }

  /** What the walk offers the heap: the records of the first entries, as often as they come. */
  function Seen(records: seq<Record>, entries: seq<Entry>): multiset<Item> {
    if entries == [] then multiset{}
    else Seen(records, entries[..|entries| - 1]) + Offer(records, entries[|entries| - 1].1)
  }

  function Offer(records: seq<Record>, id: nat): multiset<Item> {
    if id < |records| then multiset{Item(records[id].rank, id)} else multiset{}
  }

  function Visited(entries: seq<Entry>): seq<Entry> {
    if |entries| > FST_WALK_CAP then entries[..FST_WALK_CAP] else entries
  }

  lemma {:induction false} SeenAreRecords(records: seq<Record>, entries: seq<Entry>)
    ensures AreRecords(records, Seen(records, entries))
  {
    if entries != [] {
      SeenAreRecords(records, entries[..|entries| - 1]);
    }
  }

  /** The loop of both `starts_with` walks: visits entries up to the cap and keeps the best. */
  method KeepBest(records: seq<Record>, entries: seq<Entry>, limit: nat) returns (heap: Heap)
    ensures fresh(heap)
    ensures AreSmallest(heap.Contents(), Seen(records, Visited(entries)), limit)
  {
    heap := new Heap();
    var visited, next := 0, 0;
    while next < |entries|
      invariant next <= |entries| && visited == next <= FST_WALK_CAP && fresh(heap)
      invariant AreSmallest(heap.Contents(), Seen(records, entries[..next]), limit)
    {
      assert entries[..next + 1][..next] == entries[..next];
      var id := entries[next].1;
      visited, next := visited + 1, next + 1;
      if visited > FST_WALK_CAP {
        assert entries[..next - 1] == Visited(entries);
        return;
      }
      assert Seen(records, entries[..next]) == Seen(records, entries[..next - 1]) + Offer(records, id);
      if id >= |records| {
        continue;
      }
      ghost var before := heap.Contents();
      heap.PushBounded(Item(records[id].rank, id), limit);
      PushKeepsSmallest(before, heap.Contents(), Seen(records, entries[..next - 1]), Item(records[id].rank, id), limit);
    }
    assert entries[..next] == entries;
  }

  lemma HitOrder(records: seq<Record>, a: Item, b: Item, c: Item)
    requires a.id < |records| && b.id < |records| && c.id < |records|
    ensures HitLe(records, a, b) || HitLe(records, b, a)
    ensures HitLe(records, a, b) && HitLe(records, b, c) ==> HitLe(records, a, c)
  {
    BeforeTotal(records[a.id].name, records[b.id].name);
    BeforeTotal(records[b.id].name, records[c.id].name);
    BeforeTotal(records[a.id].name, records[c.id].name);
    if Before(records[c.id].name, records[a.id].name) && Before(records[a.id].name, records[b.id].name) {
      BeforeTransitive(records[c.id].name, records[a.id].name, records[b.id].name);
    }
  }

  ghost predicate InRange(records: seq<Record>, items: seq<Item>) {
    forall i :: 0 <= i < |items| ==> items[i].id < |records|
  }

  method InsertHit(records: seq<Record>, sorted: seq<Item>, item: Item) returns (hits: seq<Item>)
    requires item.id < |records| && HitsSorted(records, sorted) && InRange(records, sorted)
    ensures HitsSorted(records, hits) && InRange(records, hits)
    ensures multiset(hits) == multiset(sorted) + multiset{item}
  {
    var i := 0;
    while i < |sorted| && HitLe(records, sorted[i], item)
      invariant i <= |sorted|
      invariant forall k :: 0 <= k < i ==> HitLe(records, sorted[k], item)
    {
      i := i + 1;
    }
    forall k | i <= k < |sorted| ensures HitLe(records, item, sorted[k]) {
      HitOrder(records, sorted[i], item, sorted[k]);
      HitOrder(records, item, sorted[i], sorted[k]);
    }
    hits := sorted[..i] + [item] + sorted[i..];
    assert sorted == sorted[..i] + sorted[i..];
  }

  /** `heap_into_sorted_hits`: everything the heap holds, by rank and then by name. */
  method IntoSortedHits(records: seq<Record>, heap: Heap) returns (hits: seq<Item>)
    requires AreRecords(records, heap.Contents())
    ensures multiset(hits) == heap.Contents() && HitsSorted(records, hits)
  {
    hits := [];
    for n := 0 to |heap.data|
      invariant multiset(hits) == multiset(heap.data[..n]) && HitsSorted(records, hits)
      invariant InRange(records, hits)
    {
      assert heap.data[..n + 1] == heap.data[..n] + [heap.data[n]];
      assert heap.data[n] in heap.Contents();
      hits := InsertHit(records, hits, heap.data[n]);
    }
    assert heap.data[..|heap.data|] == heap.data;
  }

  /** The hits are the `limit` smallest items visited, by rank and then by name. */
  ghost predicate BestHits(records: seq<Record>, entries: seq<Entry>, limit: nat, hits: seq<Item>) {
    AreSmallest(multiset(hits), Seen(records, Visited(entries)), limit) && HitsSorted(records, hits)
  }

  /** `UnifiedAutocomplete::starts_with`. */
  method StartsWithIn(index: Trie, records: seq<Record>, cc: Country, q: string, limit: nat)
    returns (hits: seq<Item>)
    ensures limit == 0 || PrefixKeys.Key(q) == "" ==> hits == []
    ensures limit != 0 && PrefixKeys.Key(q) != "" ==>
              BestHits(records, Matching(StartsWith(cc, PrefixKeys.KeyBytes(q)), Listing(index, [])), limit, hits)
  {
    if limit == 0 {
      return [];
    }
    var text := PrefixKeys.NormalisePrefix(q);
    if text == "" {
      return [];
    }
    var key := PrefixKeys.KeyBytes(q);
    var a := StartsWith(cc, key);
    SearchIsFilter(a, index);
    var heap := KeepBest(records, Search(a, index), limit);
    SeenAreRecords(records, Visited(Search(a, index)));
    hits := IntoSortedHits(records, heap);
  }

  /** The entries whose key starts with `key`, in order: the stream of a country's own index. */
  function Prefixed(key: Text, entries: seq<Entry>): seq<Entry> {
    if entries == [] then []
    else (if key <= entries[0].0 then [entries[0]] else []) + Prefixed(key, entries[1..])
  }

  /** It holds exactly the entries with such a key, in their order. */
  lemma {:induction false} PrefixedExactly(key: Text, entries: seq<Entry>)
    ensures forall e :: e in Prefixed(key, entries) <==> e in entries && key <= e.0
    ensures KeysAscend(entries) ==> KeysAscend(Prefixed(key, entries))
  {
    if entries != [] {
      PrefixedExactly(key, entries[1..]);
      assert entries == [entries[0]] + entries[1..];
      var rest := Prefixed(key, entries[1..]);
      if KeysAscend(entries) {
        forall j | 0 <= j < |rest| ensures Before(entries[0].0, rest[j].0) {
          assert rest[j] in entries[1..];
        }
      }
    }
  }

  /** `AutocompleteCountry::starts_with`. */
  method StartsWithOwn(index: Trie, records: seq<Record>, key: Text, limit: nat) returns (hits: seq<Item>)
    ensures limit == 0 || key == [] ==> hits == []
    ensures limit != 0 && key != [] ==> BestHits(records, Prefixed(key, Listing(index, [])), limit, hits)
  {
    if limit == 0 || key == [] {
      return [];
    }
    var stream := Prefixed(key, Listing(index, []));
    var heap := KeepBest(records, stream, limit);
    SeenAreRecords(records, Visited(stream));
    hits := IntoSortedHits(records, heap);
  }

  /** `UnifiedAutocomplete::get_exact`: the record found. */
  method GetExact(index: Trie, records: seq<Record>, cc: Country, q: string) returns (r: Option<nat>)
    requires Ordered(index)
    ensures |PrefixKeys.Key(q)| < FST_MIN_PREFIX_LEN ==> r == None
    ensures |PrefixKeys.Key(q)| >= FST_MIN_PREFIX_LEN ==>
              forall id :: r == Some(id) <==>
                           id < |records| && (Target(Equals(cc, PrefixKeys.KeyBytes(q))), id) in Listing(index, [])
  {
    var text := PrefixKeys.NormalisePrefix(q);
    if |text| < FST_MIN_PREFIX_LEN {
      return None;
    }
    var key := PrefixKeys.KeyBytes(q);
    var a := Equals(cc, key);
    SearchExact(a, index);
    var found := Search(a, index);
    if found == [] {
      return None;
    }
    assert found[0] in found;
    var id := found[0].1;
    return if id < |records| then Some(id) else None;
  }

  // --- Ties ---

  /** Nothing dropped would have come before something kept in the order the caller sees. */
  ghost predicate BestByName(records: seq<Record>, kept: multiset<Item>, seen: multiset<Item>) {
    forall x, y :: x in kept && y in seen - kept ==> HitLe(records, x, y)
  }

  /** Within a rank, ids rise with names. */
  ghost predicate IdsFollowNames(records: seq<Record>, seen: multiset<Item>) {
    forall x, y :: x in seen && y in seen && x.rank == y.rank && x.id < y.id ==> NameLe(records, x, y)
  }

  /** What is no larger than `x`, as often as it was seen. */
  lemma {:induction false} UpTo(seen: multiset<Item>, x: Item) returns (low: multiset<Item>)
    ensures forall y :: low[y] == if Le(y, x) then seen[y] else 0
    decreases |seen|
  {
    if seen == multiset{} {
      low := multiset{};
    } else {
      var y :| y in seen;
      var rest := UpTo(seen - multiset{y}, x);
      low := if Le(y, x) then rest + multiset{y} else rest;
    }
  }

  lemma UpToIsSmallest(seen: multiset<Item>, x: Item, low: multiset<Item>)
    requires forall y :: low[y] == if Le(y, x) then seen[y] else 0
    ensures low <= seen && AreSmallest(low, seen, |low|)
  {
    assert low <= seen;
    assert seen == low + (seen - low);
    forall a, b | a in low && b in seen - low ensures Le(a, b) {
      assert Le(a, x) && !Le(b, x);
    }
  }

  /**
   The heap breaks ties of rank by id, not alphabetically.  So the documented result, the best
   `limit` by rank and then name, is what every limit gives exactly if ids rise with names.
   */
  lemma BestByNameExactly(records: seq<Record>, seen: multiset<Item>)
    requires AreRecords(records, seen)
    ensures IdsFollowNames(records, seen) <==>
            forall limit, kept :: AreSmallest(kept, seen, limit) ==> BestByName(records, kept, seen)
  {
    if IdsFollowNames(records, seen) {
      forall limit, kept | AreSmallest(kept, seen, limit) ensures BestByName(records, kept, seen) {
        FollowedNames(records, seen, limit, kept);
      }
    } else {
      var x, y :| x in seen && y in seen && x.rank == y.rank && x.id < y.id && !NameLe(records, x, y);
      var low := UpTo(seen, x);
      UpToIsSmallest(seen, x, low);
      assert x in low && y in seen - low && !HitLe(records, x, y);
      assert !BestByName(records, low, seen);
    }
  }

  lemma FollowedNames(records: seq<Record>, seen: multiset<Item>, limit: nat, kept: multiset<Item>)
    requires AreRecords(records, seen) && IdsFollowNames(records, seen) && AreSmallest(kept, seen, limit)
    ensures BestByName(records, kept, seen)
  {
    forall x, y | x in kept && y in seen - kept ensures HitLe(records, x, y) {
      assert x in seen && y in seen && Le(x, y);
      BeforeTotal(records[x.id].name, records[y.id].name);
      if x.rank == y.rank && x.id < y.id {
        assert NameLe(records, x, y);
      }
    }
  }

  // --- Repetitions ---

  /** No two entries lead to the same record. */
  ghost predicate RecordsOnce(records: seq<Record>, entries: seq<Entry>) {
    forall i, j :: 0 <= i < j < |entries| && entries[i].1 == entries[j].1 ==> |records| <= entries[i].1
  }

  lemma {:induction false} SeenItems(records: seq<Record>, entries: seq<Entry>)
    ensures forall x: Item :: x in Seen(records, entries) <==>
              x.id < |records| && x.rank == records[x.id].rank && exists i :: 0 <= i < |entries| && entries[i].1 == x.id
  {
    if entries != [] {
      var n := |entries| - 1;
      SeenItems(records, entries[..n]);
      forall x: Item | exists i :: 0 <= i < |entries| && entries[i].1 == x.id
        ensures x.id == entries[n].1 || exists i :: 0 <= i < n && entries[..n][i].1 == x.id
      {
        var i :| 0 <= i < |entries| && entries[i].1 == x.id;
        assert i < n ==> entries[..n][i].1 == x.id;
      }
    }
  }

  lemma OnceMore(records: seq<Record>, front: seq<Entry>, e: Entry)
    ensures RecordsOnce(records, front + [e]) <==>
            RecordsOnce(records, front) && (e.1 < |records| ==> forall i :: 0 <= i < |front| ==> front[i].1 != e.1)
  {
    var all := front + [e];
    assert forall i :: 0 <= i < |front| ==> all[i] == front[i];
    if RecordsOnce(records, all) && e.1 < |records| {
      forall i | 0 <= i < |front| ensures front[i].1 != e.1 {
        assert all[i].1 == all[|front|].1 ==> |records| <= e.1;
      }
    }
  }

  ghost predicate NoneTwice(items: multiset<Item>) {
    forall x :: items[x] <= 1
  }

  lemma OneMore(seen: multiset<Item>, x: Item)
    ensures NoneTwice(seen + multiset{x}) <==> x !in seen && NoneTwice(seen)
  {
    if NoneTwice(seen + multiset{x}) {
      assert (seen + multiset{x})[x] <= 1;
      forall y ensures seen[y] <= 1 {
        assert (seen + multiset{x})[y] <= 1;
      }
    }
  }

  lemma {:induction false} SeenOnce(records: seq<Record>, entries: seq<Entry>)
    ensures RecordsOnce(records, entries) <==> NoneTwice(Seen(records, entries))
  {
    if entries != [] {
      var n := |entries| - 1;
      var front, id := entries[..n], entries[n].1;
      assert entries == front + [entries[n]];
      SeenOnce(records, front);
      OnceMore(records, front, entries[n]);
      if id < |records| {
        SeenItems(records, front);
        var x := Item(records[id].rank, id);
        OneMore(Seen(records, front), x);
        assert x in Seen(records, front) <==> exists i :: 0 <= i < n && front[i].1 == id;
        assert Seen(records, entries) == Seen(records, front) + multiset{x};
      } else {
        assert Seen(records, entries) == Seen(records, front);
      }
    }
  }

  /**
   A record reached by several keys, as those with an alias are, is offered and kept as often.  For
   every limit each record is kept once, exactly if no two of the entries visited lead to one.
   */
  lemma KeptOnceExactly(records: seq<Record>, entries: seq<Entry>)
    ensures (forall limit, kept :: AreSmallest(kept, Seen(records, Visited(entries)), limit) ==>
                                     NoneTwice(kept))
            <==> RecordsOnce(records, Visited(entries))
  {
    var seen := Seen(records, Visited(entries));
    SeenOnce(records, Visited(entries));
    if RecordsOnce(records, Visited(entries)) {
      forall limit, kept | AreSmallest(kept, seen, limit) ensures NoneTwice(kept) {
        assert NoneTwice(seen) && kept <= seen;
      }
    } else {
      assert AreSmallest(seen, seen, |seen|);
    }
  }

  // --- Indexes on which the walks do less than documented ---

  /** An index of keys that all start with `key`. */
  function Under(key: Text, t: Trie): Trie {
    if key == [] then t else Node(None, Edge(key[0], Under(key[1..], t), NoEdge))
  }

  lemma {:induction false} UnderListing(key: Text, t: Trie, at: Text)
    ensures Listing(Under(key, t), at) == Listing(t, at + key)
    decreases key
  {
    if key == [] {
      assert at + key == at;
    } else {
      var longer := at + [key[0]];
      UnderListing(key[1..], t, longer);
      assert longer + key[1..] == at + key;
      assert EdgeListing(NoEdge, at) == [];
    }
  }

  /** Two keys that differ in their last byte. */
  function TwoKeys(key: Text, a: Byte, i: nat, b: Byte, j: nat): Trie {
    Under(key, Node(None, Edge(a, Node(Some(i), NoEdge), Edge(b, Node(Some(j), NoEdge), NoEdge))))
  }

  lemma TwoMatching(cc: Country, key: Text, a: Byte, i: nat, b: Byte, j: nat)
    ensures var t := Target(StartsWith(cc, key));
            Matching(StartsWith(cc, key), Listing(TwoKeys(t, a, i, b, j), [])) == [(t + [a], i), (t + [b], j)]
  {
    var auto := StartsWith(cc, key);
    var t := Target(auto);
    var second := Edge(b, Node(Some(j), NoEdge), NoEdge);
    UnderListing(t, Node(None, Edge(a, Node(Some(i), NoEdge), second)), []);
    assert [] + t == t;
    assert EdgeListing(NoEdge, t + [b]) == [] && EdgeListing(NoEdge, t + [a]) == [] && EdgeListing(NoEdge, t) == [];
    assert Listing(Node(Some(j), NoEdge), t + [b]) == [(t + [b], j)];
    assert Listing(Node(Some(i), NoEdge), t + [a]) == [(t + [a], i)];
    assert EdgeListing(second, t) == [(t + [b], j)];
    var entries := [(t + [a], i), (t + [b], j)];
    assert Listing(TwoKeys(t, a, i, b, j), []) == entries;
    LanguageExact(auto, t + [a]);
    LanguageExact(auto, t + [b]);
    assert t <= t + [a] && t <= t + [b];
    MatchingConcat(auto, [entries[0]], [entries[1]]);
    assert entries == [entries[0]] + [entries[1]];
    assert Matching(auto, [entries[0]]) == [entries[0]] && Matching(auto, [entries[1]]) == [entries[1]];
  }

  lemma TwoSeen(records: seq<Record>, d: Entry, e: Entry)
    ensures Visited([d, e]) == [d, e] && Seen(records, [d, e]) == Offer(records, d.1) + Offer(records, e.1)
  {
    assert [d, e][..1] == [d] && [d][..0] == [];
    assert Seen(records, [d]) == Seen(records, []) + Offer(records, d.1);
  }

  lemma BothKept(x: Item, hits: seq<Item>)
    ensures AreSmallest(multiset(hits), multiset{x, x}, 2) <==> hits == [x, x]
  {
    if AreSmallest(multiset(hits), multiset{x, x}, 2) {
      AllOf(multiset(hits), multiset{x, x});
      assert |hits| == 2 && hits[0] in multiset(hits) && hits[1] in multiset(hits);
    }
    assert multiset([x, x]) == multiset{x, x};
  }

  /** A record with two keys under the prefix: whatever it is, the hits are this record twice. */
  lemma TwiceTheSame(cc: Country, key: Text, a: Byte, b: Byte, record: Record, hits: seq<Item>)
    ensures var found := Matching(StartsWith(cc, key), Listing(TwoKeys(Target(StartsWith(cc, key)), a, 0, b, 0), []));
            BestHits([record], found, 2, hits) <==> hits == [Item(record.rank, 0), Item(record.rank, 0)]
  {
    var t, x := Target(StartsWith(cc, key)), Item(record.rank, 0);
    TwoMatching(cc, key, a, 0, b, 0);
    TwoSeen([record], (t + [a], 0), (t + [b], 0));
    BothKept(x, hits);
    BeforeTotal(record.name, record.name);
    assert Offer([record], 0) + Offer([record], 0) == multiset{x, x};
  }

  lemma LessKept(x: Item, y: Item, hits: seq<Item>)
    requires Le(x, y) && x != y
    ensures AreSmallest(multiset(hits), multiset{y, x}, 1) <==> hits == [x]
  {
    var seen, kept := multiset{y, x}, multiset(hits);
    assert !Le(y, x) && multiset([x]) == multiset{x} && seen - multiset{x} == multiset{y};
    assert |kept| == |hits|;
    if |hits| == 1 && kept <= seen {
      assert hits[0] in kept && (hits[0] == x || hits[0] == y) && hits == [hits[0]];
      assert multiset([y]) == multiset{y} && seen - multiset{y} == multiset{x};
    }
  }

  /** Two records of one rank, stored against their names: the only hit has the later name. */
  lemma LaterNameWins(cc: Country, key: Text, a: Byte, b: Byte, rank: nat, hits: seq<Item>)
    requires a < b
    ensures var records := [Record(rank, key + [b]), Record(rank, key + [a])];
            var found := Matching(StartsWith(cc, key), Listing(TwoKeys(Target(StartsWith(cc, key)), a, 1, b, 0), []));
            && (BestHits(records, found, 1, hits) <==> hits == [Item(rank, 0)])
            && !BestByName(records, multiset{Item(rank, 0)}, Seen(records, Visited(found)))
  {
    var records := [Record(rank, key + [b]), Record(rank, key + [a])];
    var t, x, y := Target(StartsWith(cc, key)), Item(rank, 0), Item(rank, 1);
    TwoMatching(cc, key, a, 1, b, 0);
    TwoSeen(records, (t + [a], 1), (t + [b], 0));
    var seen := multiset{y, x};
    assert Offer(records, 1) + Offer(records, 0) == seen;
    LessKept(x, y, hits);
    BeforeParting(key, [a], [b]);
    assert x in multiset{x} && y in seen - multiset{x} && !HitLe(records, x, y);
  }
}
