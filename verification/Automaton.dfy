/**
 The automaton that scopes a walk of the unified autocomplete index to one country and a prefix
 or an exact key, and the walk that prunes with it.
 */
module Automaton {
  import opened Bytes
  import opened Lexicographic
  import opened Wrappers

  datatype Country = Country(first: Byte, second: Byte)

  function LowerByte(b: Byte): Byte {
    if 65 <= b <= 90 then b + 32 else b
  }

  function Lower(cc: Country): Country {
    Country(LowerByte(cc.first), LowerByte(cc.second))
  }

  datatype CpaState =
    | NeedCc0
    | NeedCc1
    | MatchingPrefix(matched: nat)
    | PastPrefix
    | Dead

  datatype CountryPrefixAutomaton = CountryPrefixAutomaton(cc: Country, tail: Text, exact: bool) {

    function Start(): CpaState {
      NeedCc0
    }

    predicate IsMatch(state: CpaState) {
      match state
      case MatchingPrefix(i) => i == |tail|
      case PastPrefix => !exact
      case _ => false
    }

    predicate CanMatch(state: CpaState) {
      !state.Dead?
    }

    predicate WillAlwaysMatch(state: CpaState) {
      if exact then false
      else
        match state
        case PastPrefix => true
        case MatchingPrefix(i) => i == |tail|
        case _ => false
    }

    function Accept(state: CpaState, byte: Byte): CpaState {
      match state
      case NeedCc0 => if byte == cc.first then NeedCc1 else Dead
      case NeedCc1 => if byte == cc.second then MatchingPrefix(0) else Dead
      case MatchingPrefix(i) =>
        if i < |tail| then if byte == tail[i] then MatchingPrefix(i + 1) else Dead
        else if exact then Dead
        else PastPrefix
      case PastPrefix => if exact then Dead else PastPrefix
      case Dead => Dead
    }
  }

  function StartsWith(cc: Country, prefix: Text): CountryPrefixAutomaton {
    CountryPrefixAutomaton(Lower(cc), prefix, false)
  }

  function Equals(cc: Country, key: Text): CountryPrefixAutomaton {
    CountryPrefixAutomaton(Lower(cc), key, true)
  }

  function Run(a: CountryPrefixAutomaton, state: CpaState, key: Text): CpaState {
    if key == [] then state else a.Accept(Run(a, state, key[..|key| - 1]), key[|key| - 1])
  }

  predicate Matches(a: CountryPrefixAutomaton, key: Text) {
    a.IsMatch(Run(a, a.Start(), key))
  }

  // --- The language ---

  /** The country code and the tail, in this order. */
  function Target(a: CountryPrefixAutomaton): Text {
    [a.cc.first, a.cc.second] + a.tail
  }

  /** The state a key must lead to, told by how the key and the target compare. */
  function StateAfter(a: CountryPrefixAutomaton, key: Text): CpaState {
    if key <= Target(a) then
      if |key| == 0 then NeedCc0 else if |key| == 1 then NeedCc1 else MatchingPrefix(|key| - 2)
    else if Target(a) <= key && !a.exact then PastPrefix
    else Dead
  }

  lemma PrefixStep(key: Text, b: Byte, t: Text)
    ensures key + [b] <= t <==> key <= t && |key| < |t| && t[|key|] == b
    ensures t <= key + [b] <==> t <= key || t == key + [b]
  {
    if t <= key + [b] && |t| <= |key| {
      assert t == (key + [b])[..|t|] == key[..|t|];
    }
    if key <= t && |key| < |t| {
      assert t[..|key| + 1] == t[..|key|] + [t[|key|]];
    }
  }

  lemma {:induction false} RunReaches(a: CountryPrefixAutomaton, key: Text)
    ensures Run(a, a.Start(), key) == StateAfter(a, key)
  {
    if key != [] {
      var front, b := key[..|key| - 1], key[|key| - 1];
      RunReaches(a, front);
      assert key == front + [b];
      PrefixStep(front, b, Target(a));
    }
  }

  /** A key is accepted exactly if it starts with, or in exact mode is, the target. */
  lemma LanguageExact(a: CountryPrefixAutomaton, key: Text)
    ensures Matches(a, key) <==> if a.exact then key == Target(a) else Target(a) <= key
  {
    RunReaches(a, key);
  }

  /** The walk gives a key up exactly if no extension of it is accepted. */
  lemma CanMatchExact(a: CountryPrefixAutomaton, key: Text)
    ensures a.CanMatch(Run(a, a.Start(), key)) <==> exists more: Text :: Matches(a, key + more)
  {
    RunReaches(a, key);
    var t := Target(a);
    if key <= t {
      assert key + t[|key|..] == t;
      LanguageExact(a, key + t[|key|..]);
    } else if t <= key && !a.exact {
      assert key + [] == key;
      LanguageExact(a, key + []);
    } else {
      forall more: Text ensures !Matches(a, key + more) {
        LanguageExact(a, key + more);
        NoExtension(t, key, more);
      }
    }
  }

  /** Strings that part early stay parted. */
  lemma NoExtension(t: Text, key: Text, more: Text)
    ensures t <= key + more ==> key <= t || t <= key
    ensures t == key + more ==> key <= t
  {
    if t <= key + more {
      if |t| <= |key| {
        assert t == (key + more)[..|t|] == key[..|t|];
      } else {
        assert key == (key + more)[..|key|] == t[..|key|];
      }
    }
  }

  /** The automaton promises to accept exactly where every extension is accepted. */
  lemma WillAlwaysMatchExact(a: CountryPrefixAutomaton, key: Text)
    ensures a.WillAlwaysMatch(Run(a, a.Start(), key)) <==> forall more: Text :: Matches(a, key + more)
  {
    RunReaches(a, key);
    LanguageExact(a, key + []);
    LanguageExact(a, key + [0]);
    assert key + [] == key;
    if Target(a) <= key && !a.exact {
      forall more: Text ensures Matches(a, key + more) {
        LanguageExact(a, key + more);
      }
    }
  }

  // --- The pruned walk ---

  /** The index: the id stored for a key, and the edges to longer keys. */
  datatype Trie = Node(value: Option<nat>, edges: Edges)
  datatype Edges = NoEdge | Edge(byte: Byte, child: Trie, rest: Edges)

  type Entry = (Text, nat)

  function Own(t: Trie, key: Text): seq<Entry> {
    if t.value.Some? then [(key, t.value.value)] else []
  }

  /** All keys with their ids, in the order of a walk. */
  function Listing(t: Trie, key: Text): seq<Entry> {
    Own(t, key) + EdgeListing(t.edges, key)
  }

  function EdgeListing(edges: Edges, key: Text): seq<Entry> {
    match edges
    case NoEdge => []
    case Edge(byte, child, rest) => Listing(child, key + [byte]) + EdgeListing(rest, key)
  }

  /** The walk: it carries the automaton's state and leaves out edges that cannot match. */
  function Walk(a: CountryPrefixAutomaton, state: CpaState, t: Trie, key: Text): seq<Entry>
    decreases t
  {
    (if a.IsMatch(state) then Own(t, key) else []) + EdgeWalk(a, state, t.edges, key)
  }

  function EdgeWalk(a: CountryPrefixAutomaton, state: CpaState, edges: Edges, key: Text): seq<Entry>
    decreases edges
  {
    match edges
    case NoEdge => []
    case Edge(byte, child, rest) =>
      var next := a.Accept(state, byte);
      (if a.CanMatch(next) then Walk(a, next, child, key + [byte]) else []) + EdgeWalk(a, state, rest, key)
  }

  /** `map.search(automaton)`. */
  function Search(a: CountryPrefixAutomaton, t: Trie): seq<Entry> {
    Walk(a, a.Start(), t, [])
  }

  /** The entries with an accepted key, in order. */
  function Matching(a: CountryPrefixAutomaton, entries: seq<Entry>): seq<Entry> {
    if entries == [] then []
    else (if Matches(a, entries[0].0) then [entries[0]] else []) + Matching(a, entries[1..])
  }

  lemma {:induction false} MatchingConcat(a: CountryPrefixAutomaton, x: seq<Entry>, y: seq<Entry>)
    ensures Matching(a, x + y) == Matching(a, x) + Matching(a, y)
  {
    if x == [] {
      assert x + y == y;
    } else {
      MatchingConcat(a, x[1..], y);
      assert (x + y)[1..] == x[1..] + y;
    }
  }

  ghost predicate AllExtend(entries: seq<Entry>, key: Text) {
    forall i :: 0 <= i < |entries| ==> key <= entries[i].0
  }

  lemma {:induction false} ListingExtends(t: Trie, key: Text)
    ensures AllExtend(Listing(t, key), key)
    decreases t
  {
    EdgeListingExtends(t.edges, key);
  }

  lemma {:induction false} EdgeListingExtends(edges: Edges, key: Text)
    ensures AllExtend(EdgeListing(edges, key), key)
    decreases edges
  {
    if edges.Edge? {
      ListingExtends(edges.child, key + [edges.byte]);
      EdgeListingExtends(edges.rest, key);
    }
  }

  lemma {:induction false} NoneMatching(a: CountryPrefixAutomaton, entries: seq<Entry>, key: Text)
    requires AllExtend(entries, key) && !a.CanMatch(Run(a, a.Start(), key))
    ensures Matching(a, entries) == []
  {
    if entries != [] {
      var k := entries[0].0;
      CanMatchExact(a, key);
      assert k == key + k[|key|..];
      NoneMatching(a, entries[1..], key);
    }
  }

  lemma {:induction false} WalkIsFilter(a: CountryPrefixAutomaton, t: Trie, key: Text)
    ensures Walk(a, Run(a, a.Start(), key), t, key) == Matching(a, Listing(t, key))
    decreases t
  {
    EdgeWalkIsFilter(a, t.edges, key);
    MatchingConcat(a, Own(t, key), EdgeListing(t.edges, key));
  }

  lemma {:induction false} EdgeWalkIsFilter(a: CountryPrefixAutomaton, edges: Edges, key: Text)
    ensures EdgeWalk(a, Run(a, a.Start(), key), edges, key) == Matching(a, EdgeListing(edges, key))
    decreases edges
  {
    if edges.Edge? {
      var longer := key + [edges.byte];
      assert longer[..|longer| - 1] == key;
      if a.CanMatch(Run(a, a.Start(), longer)) {
        WalkIsFilter(a, edges.child, longer);
      } else {
        ListingExtends(edges.child, longer);
        NoneMatching(a, Listing(edges.child, longer), longer);
      }
      EdgeWalkIsFilter(a, edges.rest, key);
      MatchingConcat(a, Listing(edges.child, longer), EdgeListing(edges.rest, key));
    }
  }

  /** Pruning loses nothing and adds nothing: the search gives the accepted keys in order. */
  lemma SearchIsFilter(a: CountryPrefixAutomaton, t: Trie)
    ensures Search(a, t) == Matching(a, Listing(t, []))
  {
    WalkIsFilter(a, t, []);
  }

  // --- Keys are listed once, in order ---

  /** Edges leave a node in the order of their labels. */
  ghost predicate Ordered(t: Trie) {
    EdgesOrdered(t.edges)
  }

  ghost predicate EdgesOrdered(edges: Edges) {
    match edges
    case NoEdge => true
    case Edge(byte, child, rest) =>
      Ordered(child) && EdgesOrdered(rest) && (rest.Edge? ==> byte < rest.byte)
  }

  ghost predicate KeysAscend(entries: seq<Entry>) {
    forall i, j :: 0 <= i < j < |entries| ==> Before(entries[i].0, entries[j].0)
  }

  /** Every listed key goes on after `key` with a byte of at least `low`. */
  ghost predicate GoesOn(entries: seq<Entry>, key: Text, low: nat) {
    forall i :: 0 <= i < |entries| ==>
      key <= entries[i].0 && |key| < |entries[i].0| && entries[i].0[|key|] >= low
  }

  lemma {:induction false} EdgeListingGoesOn(edges: Edges, key: Text)
    requires EdgesOrdered(edges)
    ensures GoesOn(EdgeListing(edges, key), key, if edges.Edge? then edges.byte else 0)
    decreases edges
  {
    if edges.Edge? {
      ListingExtends(edges.child, key + [edges.byte]);
      EdgeListingGoesOn(edges.rest, key);
    }
  }

  lemma PartedKeys(a: Text, b: Text, key: Text)
    requires key <= a && key <= b && |key| < |a| && |key| < |b| && a[|key|] < b[|key|]
    ensures Before(a, b)
  {
    BeforeParting(key, a[|key|..], b[|key|..]);
    assert a == key + a[|key|..] && b == key + b[|key|..];
  }

  lemma {:induction false} ListingAscends(t: Trie, key: Text)
    requires Ordered(t)
    ensures KeysAscend(Listing(t, key))
    decreases t
  {
    EdgeListingAscends(t.edges, key);
    EdgeListingGoesOn(t.edges, key);
    forall j | 0 <= j < |EdgeListing(t.edges, key)| ensures Before(key, EdgeListing(t.edges, key)[j].0) {
      BeforeLonger(key, EdgeListing(t.edges, key)[j].0);
    }
  }

  lemma {:induction false} EdgeListingAscends(edges: Edges, key: Text)
    requires EdgesOrdered(edges)
    ensures KeysAscend(EdgeListing(edges, key))
    decreases edges
  {
    if edges.Edge? {
      var here := Listing(edges.child, key + [edges.byte]);
      var there := EdgeListing(edges.rest, key);
      ListingAscends(edges.child, key + [edges.byte]);
      ListingExtends(edges.child, key + [edges.byte]);
      EdgeListingAscends(edges.rest, key);
      EdgeListingGoesOn(edges.rest, key);
      forall i, j | 0 <= i < |here| && 0 <= j < |there| ensures Before(here[i].0, there[j].0) {
        PartedKeys(here[i].0, there[j].0, key);
      }
    }
  }

  /** Filtering keeps exactly the entries with an accepted key, and their order. */
  lemma {:induction false} MatchingSound(a: CountryPrefixAutomaton, entries: seq<Entry>)
    ensures forall e :: e in Matching(a, entries) <==> e in entries && Matches(a, e.0)
    ensures KeysAscend(entries) ==> KeysAscend(Matching(a, entries))
  {
    if entries != [] {
      MatchingSound(a, entries[1..]);
      assert entries == [entries[0]] + entries[1..];
      var rest := Matching(a, entries[1..]);
      if KeysAscend(entries) {
        forall j | 0 <= j < |rest| ensures Before(entries[0].0, rest[j].0) {
          assert rest[j] in entries[1..];
        }
      }
    }
  }

  /**
   A search of an ordered index visits the entries of the country whose name starts with, or is,
   the one asked for: each once, in dictionary order.
   */
  lemma SearchExact(a: CountryPrefixAutomaton, t: Trie)
    requires Ordered(t)
    ensures KeysAscend(Search(a, t))
    ensures forall e :: e in Search(a, t) <==>
              e in Listing(t, []) && if a.exact then e.0 == Target(a) else Target(a) <= e.0
    ensures a.exact ==> |Search(a, t)| <= 1
  {
    SearchIsFilter(a, t);
    ListingAscends(t, []);
    MatchingSound(a, Listing(t, []));
    forall e: Entry ensures Matches(a, e.0) <==> if a.exact then e.0 == Target(a) else Target(a) <= e.0 {
      LanguageExact(a, e.0);
    }
    var found := Search(a, t);
    if a.exact && |found| > 1 {
      assert found[0] in found && found[1] in found && Before(found[0].0, found[1].0);
      BeforeTotal(found[0].0, found[1].0);
      assert false;
    }
  }
}
