/** The bounded heap that keeps the best few of the entries a walk visits. */
module TopK {

  datatype Item = Item(rank: nat, id: nat)

  /** The heap's order: by rank, then by id. */
  predicate Le(a: Item, b: Item) {
    a.rank < b.rank || (a.rank == b.rank && a.id <= b.id)
  }

  ghost predicate IsLargest(items: multiset<Item>, m: Item) {
    m in items && forall x :: x in items ==> Le(x, m)
  }

  /** A binary heap, by what it holds; which order it holds them in is not promised. */
  class Heap {
    var data: seq<Item>

    ghost function Contents(): multiset<Item>
      reads this
    {
      multiset(data)
    }

    constructor ()
      ensures data == []
    {
      data := [];
    }

    method Push(item: Item)
      modifies this
      ensures Contents() == old(Contents()) + multiset{item}
    {
      data := data + [item];
    }

    /** Removes a largest item. */
    method Pop() returns (m: Item)
      requires data != []
      modifies this
      ensures IsLargest(old(Contents()), m) && Contents() == old(Contents()) - multiset{m}
    {
      var best := 0;
      for i := 1 to |data|
        invariant best < |data|
        invariant forall k :: 0 <= k < i ==> Le(data[k], data[best])
      {
        if Le(data[best], data[i]) {
          best := i;
        }
      }
      m := data[best];
      assert data == data[..best] + [m] + data[best + 1..];
      forall x | x in multiset(data) ensures Le(x, m) {
        assert x in data;
      }
      data := data[..best] + data[best + 1..];
    }

    /** `heap_push_bounded`. */
    method PushBounded(item: Item, limit: nat)
      modifies this
      ensures Pushed(old(Contents()), Contents(), item, limit)
    {
      Push(item);
      if |data| > limit {
        var _ := Pop();
      }
    }
  }

  /** One more item, without a largest one if there were more than `limit`. */
  ghost predicate Pushed(before: multiset<Item>, after: multiset<Item>, item: Item, limit: nat) {
    var all := before + multiset{item};
    if |all| <= limit then after == all else exists m :: IsLargest(all, m) && after == all - multiset{m}
  }

  // --- What the heap holds ---

  /** `kept` is the `limit` smallest of `seen`, or all of it. */
  ghost predicate AreSmallest(kept: multiset<Item>, seen: multiset<Item>, limit: nat) {
    && kept <= seen && |kept| == (if |seen| < limit then |seen| else limit)
    && forall x, y :: x in kept && y in seen - kept ==> Le(x, y)
  }

  lemma AllOf(part: multiset<Item>, all: multiset<Item>)
    requires part <= all && |part| == |all|
    ensures part == all
  {
    assert all == part + (all - part);
  }

  /** Counts of a push that drops `m`. */
  lemma Counts(before: multiset<Item>, after: multiset<Item>, seen: multiset<Item>, item: Item, m: Item)
    requires before <= seen && m in before + multiset{item} && after == before + multiset{item} - multiset{m}
    ensures after <= seen + multiset{item} && |after| == |before|
    ensures forall x :: x in after ==> x in before || x == item
    ensures forall y :: y in seen + multiset{item} - after ==> y in seen - before || y == m
  {
    assert before + multiset{item} == after + multiset{m};
  }

  lemma DropKeepsSmallest(before: multiset<Item>, after: multiset<Item>, seen: multiset<Item>, item: Item, m: Item,
                          limit: nat)
    requires AreSmallest(before, seen, limit) && |before| == limit
    requires IsLargest(before + multiset{item}, m) && after == before + multiset{item} - multiset{m}
    ensures AreSmallest(after, seen + multiset{item}, limit)
  {
    Counts(before, after, seen, item, m);
    forall x, y | x in after && y in seen + multiset{item} - after ensures Le(x, y) {
      assert Le(x, m);
      if y in seen - before && m in before {
        assert Le(m, y);
      }
    }
  }

  /** Every push keeps exactly the smallest items seen so far, in whatever order they come. */
  lemma PushKeepsSmallest(before: multiset<Item>, after: multiset<Item>, seen: multiset<Item>, item: Item, limit: nat)
    requires AreSmallest(before, seen, limit) && Pushed(before, after, item, limit)
    ensures AreSmallest(after, seen + multiset{item}, limit)
  {
    var all := before + multiset{item};
    assert |all| == |before| + 1;
    if |all| <= limit {
      AllOf(before, seen);
      assert seen + multiset{item} - after == multiset{};
    } else {
      var m :| IsLargest(all, m) && after == all - multiset{m};
      DropKeepsSmallest(before, after, seen, item, m, limit);
    }
  }

  /** There is only one such multiset. */
  lemma SmallestUnique(a: multiset<Item>, b: multiset<Item>, seen: multiset<Item>, limit: nat)
    requires AreSmallest(a, seen, limit) && AreSmallest(b, seen, limit)
    ensures a == b
  {
    if a != b {
      Smaller(a, b);
      Smaller(b, a);
      var x :| a[x] > b[x];
      var y :| b[y] > a[y];
      OnlyHere(a, b, seen, limit, x, y);
      OnlyHere(b, a, seen, limit, y, x);
    }
  }

  lemma OnlyHere(a: multiset<Item>, b: multiset<Item>, seen: multiset<Item>, limit: nat, x: Item, y: Item)
    requires AreSmallest(a, seen, limit) && b <= seen && a[x] > b[x] && b[y] > a[y]
    ensures Le(x, y)
  {
    assert x in a && y in seen - a;
  }

  /** Of two different multisets of one size each has more of something. */
  lemma Smaller(a: multiset<Item>, b: multiset<Item>)
    requires |a| == |b| && a != b
    ensures exists x :: a[x] > b[x]
  {
    if forall x :: a[x] <= b[x] {
      assert a <= b;
      AllOf(a, b);
    }
  }
}
