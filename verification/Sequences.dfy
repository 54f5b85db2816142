/** Sorting by a key and other facts about sequences that hold for any element type. */
module Sequences {

  ghost predicate LargestFirst<T>(key: T -> real, items: seq<T>) {
    forall i, j :: 0 <= i < j < |items| ==> key(items[i]) >= key(items[j])
  }

  method InsertLargestFirst<T>(key: T -> real, sorted: seq<T>, item: T) returns (r: seq<T>)
    requires LargestFirst(key, sorted)
    ensures LargestFirst(key, r) && multiset(r) == multiset(sorted) + multiset{item}
  {
    var i := 0;
    while i < |sorted| && key(sorted[i]) >= key(item)
      invariant i <= |sorted|
      invariant forall k :: 0 <= k < i ==> key(sorted[k]) >= key(item)
    {
      i := i + 1;
    }
    assert sorted == sorted[..i] + sorted[i..];
    r := sorted[..i] + [item] + sorted[i..];
  }

  /** Sorts by a key, largest first; the order of equal keys is not promised. */
  method SortLargestFirst<T>(key: T -> real, items: seq<T>) returns (sorted: seq<T>)
    ensures multiset(sorted) == multiset(items) && LargestFirst(key, sorted)
  {
    sorted := [];
    for n := 0 to |items|
      invariant multiset(sorted) == multiset(items[..n]) && LargestFirst(key, sorted)
    {
      assert items[..n + 1] == items[..n] + [items[n]];
      sorted := InsertLargestFirst(key, sorted, items[n]);
    }
    assert items[..|items|] == items;
  }

  /** Where the last element of `a` is in `b`, and what is left of `b` without it. */
  lemma SplitOff<T>(a: seq<T>, b: seq<T>) returns (k: nat, rest: seq<T>)
    requires a != [] && multiset(a) == multiset(b)
    ensures k < |b| && b[k] == a[|a| - 1] && rest == b[..k] + b[k + 1..]
    ensures multiset(a[..|a| - 1]) == multiset(rest)
  {
    var front, last := a[..|a| - 1], a[|a| - 1];
    assert a == front + [last];
    assert last in multiset(a);
    k :| 0 <= k < |b| && b[k] == last;
    rest := b[..k] + b[k + 1..];
    assert b == b[..k] + [b[k]] + b[k + 1..];
    assert multiset(b) == multiset(rest) + multiset{last};
    assert multiset(a) == multiset(front) + multiset{last};
    assert multiset(front) == multiset(a) - multiset{last};
    assert multiset(rest) == multiset(b) - multiset{last};
  }

  /** An item of a prefix is an item of every permutation of the whole. */
  lemma PrefixItem<T>(front: seq<T>, back: seq<T>, all: seq<T>, i: nat)
    requires multiset(front + back) == multiset(all) && i < |front|
    ensures front[i] in all
  {
    assert (front + back)[i] in multiset(front + back);
  }

  // --- Ascending order ---

  ghost predicate Sorted(s: seq<nat>) {
    forall i, j :: 0 <= i < j < |s| ==> s[i] <= s[j]
  }

  method InsertAscending(sorted: seq<nat>, item: nat) returns (r: seq<nat>)
    requires Sorted(sorted)
    ensures Sorted(r) && multiset(r) == multiset(sorted) + multiset{item}
  {
    var i := 0;
    while i < |sorted| && sorted[i] <= item
      invariant i <= |sorted|
      invariant forall k :: 0 <= k < i ==> sorted[k] <= item
    {
      i := i + 1;
    }
    assert sorted == sorted[..i] + sorted[i..];
    r := sorted[..i] + [item] + sorted[i..];
  }

  method SortAscending(items: seq<nat>) returns (sorted: seq<nat>)
    ensures Sorted(sorted) && multiset(sorted) == multiset(items)
  {
    sorted := [];
    for n := 0 to |items|
      invariant Sorted(sorted) && multiset(sorted) == multiset(items[..n])
    {
      assert items[..n + 1] == items[..n] + [items[n]];
      sorted := InsertAscending(sorted, items[n]);
    }
    assert items[..|items|] == items;
  }

  lemma LastIsLargest(s: seq<nat>, x: nat)
    requires Sorted(s) && x in multiset(s)
    ensures s != [] && x <= s[|s| - 1]
  {
    var i :| 0 <= i < |s| && s[i] == x;
  }

  lemma WithoutLast(s: seq<nat>)
    requires s != []
    ensures multiset(s[..|s| - 1]) == multiset(s) - multiset{s[|s| - 1]}
    ensures s[|s| - 1] in multiset(s) && s == s[..|s| - 1] + [s[|s| - 1]]
  {
    assert s == s[..|s| - 1] + [s[|s| - 1]];
  }

  lemma LastsAgree(a: seq<nat>, b: seq<nat>)
    requires Sorted(a) && Sorted(b) && multiset(a) == multiset(b) && a != []
    ensures b != [] && a[|a| - 1] == b[|b| - 1]
    ensures multiset(a[..|a| - 1]) == multiset(b[..|b| - 1])
  {
    WithoutLast(a);
    LastIsLargest(b, a[|a| - 1]);
    WithoutLast(b);
    LastIsLargest(a, b[|b| - 1]);
  }

  /** A multiset has only one sorted listing. */
  lemma {:induction false} SortedUnique(a: seq<nat>, b: seq<nat>)
    requires Sorted(a) && Sorted(b) && multiset(a) == multiset(b)
    ensures a == b
    decreases |a|
  {
    if a == [] {
      assert b == [] by {
        if b != [] { WithoutLast(b); }
      }
    } else {
      LastsAgree(a, b);
      SortedUnique(a[..|a| - 1], b[..|b| - 1]);
      assert a == a[..|a| - 1] + [a[|a| - 1]];
      assert b == b[..|b| - 1] + [b[|b| - 1]];
    }
  }

  // --- Strictly ascending order ---

  ghost predicate Ascending(s: seq<nat>) {
    forall i, j :: 0 <= i < j < |s| ==> s[i] < s[j]
  }

  ghost predicate SameItems(a: seq<nat>, b: seq<nat>) {
    forall x :: x in a <==> x in b
  }

  lemma FirstIsItem(s: seq<nat>)
    ensures s != [] ==> s[0] in s && s[|s| - 1] in s && s == s[..|s| - 1] + [s[|s| - 1]]
  {}

  /** All items but the last of an ascending sequence are smaller. */
  lemma FrontItems(s: seq<nat>, front: seq<nat>, last: nat, x: nat)
    requires Ascending(s) && s == front + [last]
    ensures x in front <==> x in s && x != last
  {
    if x in front {
      var i :| 0 <= i < |front| && front[i] == x;
      assert s[i] < s[|front|];
    }
  }

  lemma AscendingLasts(a: seq<nat>, b: seq<nat>)
    requires Ascending(a) && Ascending(b) && a != [] && b != [] && SameItems(a, b)
    ensures a[|a| - 1] == b[|b| - 1]
  {
    FirstIsItem(a);
    FirstIsItem(b);
    var i :| 0 <= i < |b| && b[i] == a[|a| - 1];
    var j :| 0 <= j < |a| && a[j] == b[|b| - 1];
  }

  /** A set has only one ascending listing. */
  lemma {:induction false} AscendingUnique(a: seq<nat>, b: seq<nat>)
    requires Ascending(a) && Ascending(b) && SameItems(a, b)
    ensures a == b
    decreases |a|
  {
    FirstIsItem(a);
    FirstIsItem(b);
    if a != [] && b != [] {
      AscendingLasts(a, b);
      var frontA, frontB := a[..|a| - 1], b[..|b| - 1];
      forall x: nat ensures x in frontA <==> x in frontB {
        FrontItems(a, frontA, a[|a| - 1], x);
        FrontItems(b, frontB, b[|b| - 1], x);
      }
      AscendingUnique(frontA, frontB);
    }
  }

  /** `std::sort` followed by `std::unique`. */
  method SortUnique(items: seq<nat>) returns (r: seq<nat>)
    ensures Ascending(r) && forall x :: x in r <==> x in items
  {
    var sorted := SortAscending(items);
    r := [];
    for i := 0 to |sorted|
      invariant Ascending(r) && forall x :: x in r <==> x in sorted[..i]
      invariant i == 0 ==> r == []
      invariant i > 0 ==> r != [] && r[|r| - 1] == sorted[i - 1]
    {
      assert sorted[..i + 1] == sorted[..i] + [sorted[i]];
      if i > 0 {
        assert sorted[i - 1] == sorted[..i][i - 1] && forall j :: 0 <= j < i - 1 ==> sorted[j] <= sorted[i - 1];
      }
      assert forall x :: x in r + [sorted[i]] <==> x in r || x == sorted[i];
      if i == 0 || sorted[i] != sorted[i - 1] {
        r := r + [sorted[i]];
      }
    }
    assert sorted[..|sorted|] == sorted;
    forall x ensures x in r <==> x in items {
      assert x in multiset(sorted) <==> x in multiset(items);
    }
  }

  // --- Repetition-free listings ---

  ghost predicate Distinct<T(!new)>(s: seq<T>) {
    forall i, j :: 0 <= i < j < |s| ==> s[i] != s[j]
  }

  function Elements<T>(s: seq<T>): set<T> {
    set x | x in s
  }

  lemma {:induction false} DistinctSize<T(!new)>(s: seq<T>)
    requires Distinct(s)
    ensures |Elements(s)| == |s|
  {
    if s != [] {
      var front, last := s[..|s| - 1], s[|s| - 1];
      DistinctSize(front);
      assert s == front + [last];
      assert Elements(s) == Elements(front) + {last};
    }
  }

  function Range(n: nat): (r: seq<nat>)
    ensures |r| == n && forall i :: 0 <= i < n ==> r[i] == i
  {
    seq(n, i => i)
  }

  /** A repetition-free listing of the numbers below `n` has length `n`. */
  lemma FullListing(s: seq<nat>, n: nat)
    requires Distinct(s) && (forall x: nat :: x in s <==> x < n)
    ensures |s| == n
  {
    DistinctSize(s);
    DistinctSize(Range(n));
    forall x: nat | x < n ensures x in Range(n) {
      assert Range(n)[x] == x;
    }
    assert Elements(s) == Elements(Range(n));
  }

  // --- Concatenating what each item gives ---

  function FlatMap<S, T>(f: S -> seq<T>, items: seq<S>): seq<T> {
    if items == [] then [] else FlatMap(f, items[..|items| - 1]) + f(items[|items| - 1])
  }

  lemma {:induction false} FlatMapConcat<S, T>(f: S -> seq<T>, a: seq<S>, b: seq<S>)
    ensures FlatMap(f, a + b) == FlatMap(f, a) + FlatMap(f, b)
  {
    if b == [] {
      assert a + b == a;
    } else {
      var front := b[..|b| - 1];
      assert (a + b)[..|a + b| - 1] == a + front;
      FlatMapConcat(f, a, front);
    }
  }

  lemma FlatMapOne<S, T>(f: S -> seq<T>, item: S)
    ensures FlatMap(f, [item]) == f(item)
  {
    assert [item][..0] == [];
    assert FlatMap(f, [item]) == [] + f(item);
  }
}
