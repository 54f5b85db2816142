/** Dictionary order, on bytes and on text. */
module Lexicographic {
  import opened Bytes

  type Text = seq<Byte>

  /** Strictly earlier in a dictionary. */
  predicate Before(a: seq<nat>, b: seq<nat>) {
    if b == [] then false
    else if a == [] then true
    else if a[0] != b[0] then a[0] < b[0]
    else Before(a[1..], b[1..])
  }

  lemma {:induction false} BeforeTransitive(a: seq<nat>, b: seq<nat>, c: seq<nat>)
    requires Before(a, b) && Before(b, c)
    ensures Before(a, c)
  {
    if a != [] && a[0] == b[0] == c[0] {
      BeforeTransitive(a[1..], b[1..], c[1..]);
    }
  }

  lemma {:induction false} BeforeTotal(a: seq<nat>, b: seq<nat>)
    ensures a == b || Before(a, b) || Before(b, a)
    ensures !(Before(a, b) && Before(b, a)) && (a == b ==> !Before(a, b))
  {
    if a != [] && b != [] && a[0] == b[0] {
      BeforeTotal(a[1..], b[1..]);
      assert a == [a[0]] + a[1..] && b == [b[0]] + b[1..];
    }
  }

  /** Strings that part after a common prefix are ordered by the bytes at which they part. */
  lemma {:induction false} BeforeParting(prefix: seq<nat>, a: seq<nat>, b: seq<nat>)
    requires a != [] && b != [] && a[0] < b[0]
    ensures Before(prefix + a, prefix + b)
  {
    if prefix == [] {
      assert prefix + a == a && prefix + b == b;
    } else {
      BeforeParting(prefix[1..], a, b);
      assert (prefix + a)[1..] == prefix[1..] + a && (prefix + b)[1..] == prefix[1..] + b;
    }
  }

  lemma {:induction false} BeforeLonger(a: seq<nat>, b: seq<nat>)
    requires a < b
    ensures Before(a, b)
  {
    if a != [] {
      BeforeLonger(a[1..], b[1..]);
    }
  }

  // --- Text ---

  function Codes(s: string): (codes: seq<nat>)
    ensures |codes| == |s| && forall i :: 0 <= i < |s| ==> codes[i] == s[i] as nat
  {
    seq(|s|, i requires 0 <= i < |s| => s[i] as nat)
  }

  predicate TextBefore(a: string, b: string) {
    Before(Codes(a), Codes(b))
  }

  lemma TextOrder(a: string, b: string, c: string)
    ensures a == b || TextBefore(a, b) || TextBefore(b, a)
    ensures !(TextBefore(a, b) && TextBefore(b, a)) && !TextBefore(a, a)
    ensures TextBefore(a, b) && TextBefore(b, c) ==> TextBefore(a, c)
  {
    BeforeTotal(Codes(a), Codes(b));
    if Codes(a) == Codes(b) {
      forall i | 0 <= i < |a| ensures a[i] == b[i] {
        assert Codes(a)[i] == Codes(b)[i];
      }
    }
    BeforeTotal(Codes(a), Codes(a));
    if TextBefore(a, b) && TextBefore(b, c) {
      BeforeTransitive(Codes(a), Codes(b), Codes(c));
    }
  }

  ghost predicate Alphabetical(items: seq<string>) {
    forall i, j :: 0 <= i < j < |items| ==> TextBefore(items[i], items[j])
  }

  method InsertText(sorted: seq<string>, item: string) returns (r: seq<string>)
    requires Alphabetical(sorted) && item !in sorted
    ensures Alphabetical(r) && forall x :: x in r <==> x in sorted || x == item
  {
    var i := 0;
    while i < |sorted| && TextBefore(sorted[i], item)
      invariant i <= |sorted|
      invariant forall k :: 0 <= k < i ==> TextBefore(sorted[k], item)
    {
      i := i + 1;
    }
    forall k | i <= k < |sorted| ensures TextBefore(item, sorted[k]) {
      TextOrder(item, sorted[i], sorted[k]);
    }
    r := sorted[..i] + [item] + sorted[i..];
    assert sorted == sorted[..i] + sorted[i..];
  }

  /** The items of a set in dictionary order. */
  method InOrder(items: set<string>) returns (r: seq<string>)
    ensures Alphabetical(r) && forall x :: x in r <==> x in items
  {
    r := [];
    var rest := items;
    while rest != {}
      invariant rest <= items && Alphabetical(r)
      invariant forall x :: x in r <==> x in items && x !in rest
      decreases |rest|
    {
      var x :| x in rest;
      r := InsertText(r, x);
      rest := rest - {x};
    }
  }
}
