/** When tokenizing the tokens of a query once more changes nothing. */
module TokenSettling {
  import opened Numerals
  import opened Rewriting
  import opened Text
  import opened Tokens
  import opened TokenSymmetry
  import opened Vocabulary
  import opened Wrappers

  /** The query side on lower-case words. */
  function Tokenized(v: Vocabulary, words: seq<string>): seq<string> {
    PlaceFold(v, PartTokens(v, words))
  }

  /** No step but "st" for Street has anything left to do to this word. */
  ghost predicate IsExpanded(v: Vocabulary, w: string) {
    IsWord(IsSeparator, w) && Lower(w) == w && v.abbreviation(w).None? && w != "dr"
  }

  ghost predicate AreExpanded(v: Vocabulary, words: seq<string>) {
    forall i :: 0 <= i < |words| ==> IsExpanded(v, words[i])
  }

  ghost predicate NoOrdinalWords(v: Vocabulary, words: seq<string>) {
    forall i :: 0 <= i < |words| ==> v.ordinalWord(Lower(words[i])) == 0
  }

  ghost predicate OrdinalsDone(v: Vocabulary, words: seq<string>) {
    forall i: nat :: i < |words| ==> OrdinalAt(v, words, i, true) == words[i]
  }

  ghost predicate FoldDone(v: Vocabulary, words: seq<string>) {
    forall i :: 0 <= i < |words| - 1 ==> Fold(v, words[i]) == words[i]
  }

  // --- What each step leaves done ---

  lemma ExpandedIsExpanded(v: Vocabulary, words: seq<string>)
    requires Consistent(v) && AllLower(words) && AreWords(IsSeparator, words)
    ensures AreExpanded(v, Expanded(v, words))
  {
    forall i: nat | i < |words| ensures IsExpanded(v, Expanded(v, words)[i]) {
      var w := words[i];
      assert IsWord(IsSeparator, w) && IsFullForm(v, "street") && IsFullForm(v, "doctor");
      assert v.abbreviation(w).Some? ==> IsFullForm(v, v.abbreviation(w).value);
    }
  }

  lemma OrdinalIsExpanded(v: Vocabulary, n: nat)
    requires Consistent(v)
    ensures IsExpanded(v, Ordinal(n))
  {
    OrdinalForm(n);
    assert IsName(v, Ordinal(n));
  }

  lemma {:induction false} CompoundIsExpanded(v: Vocabulary, words: seq<string>)
    requires Consistent(v) && AreExpanded(v, words)
    ensures AreExpanded(v, Compound(v, words))
    decreases |words|
  {
    if |words| >= 2 {
      if IsCompound(v, words[0], words[1]) {
        CompoundIsExpanded(v, words[2..]);
        OrdinalIsExpanded(v, v.tens(Lower(words[0])) + Ones(v, Lower(words[1])));
      } else {
        CompoundIsExpanded(v, words[1..]);
      }
    }
  }

  lemma WrittenOrdinal(v: Vocabulary, y: seq<string>, i: nat)
    requires Consistent(v) && AreExpanded(v, y) && i < |y|
    ensures var w := OrdinalAt(v, y, i, true);
            && IsExpanded(v, w) && v.ordinalWord(w) == 0
            && v.isStreetType(w) == v.isStreetType(y[i]) && v.isDirectional(w) == v.isDirectional(y[i])
            && (StartsWithDigit(w) || w == y[i])
  {
    var n := OrdinalValue(v, y[i], NextWord(y, i), i == 0);
    assert IsExpanded(v, y[i]);
    OrdinalStartsWithDigit(y[i]);
    if n.Some? {
      OrdinalIsExpanded(v, n.value);
      OrdinalForm(n.value);
      assert StartsWithDigit(y[i]) ==> IsName(v, y[i]);
      assert IsName(v, Ordinal(n.value));
    }
  }

  /** A token that was written as an ordinal, or was not one, stays as it is. */
  lemma OrdinalStays(v: Vocabulary, w: string, next: Option<string>, next': Option<string>, isHouse: bool)
    requires Consistent(v) && w != ""
    requires next.Some? == next'.Some? && (next.Some? ==> v.isStreetType(next.value) == v.isStreetType(next'.value))
    ensures var r := OrdinalOr(v, w, next, isHouse); OrdinalOr(v, r, next', isHouse) == r
  {
    var n := OrdinalValue(v, w, next, isHouse);
    if n.Some? {
      OrdinalReadsBack(n.value);
      OrdinalForm(n.value);
      assert IsName(v, Ordinal(n.value));
    }
  }

  lemma NextStaysType(v: Vocabulary, y: seq<string>, z: seq<string>, i: nat)
    requires Consistent(v) && AreExpanded(v, y) && i < |y| && z == Ordinals(v, y, true)
    ensures var next, next' := NextWord(y, i), NextWord(z, i);
            next.Some? == next'.Some? && (next.Some? ==> v.isStreetType(next.value) == v.isStreetType(next'.value))
  {
    if i + 1 < |y| {
      WrittenOrdinal(v, y, i + 1);
    }
  }

  lemma OrdinalLeaves(v: Vocabulary, y: seq<string>, z: seq<string>, i: nat)
    requires Consistent(v) && AreExpanded(v, y) && i < |y| && z == Ordinals(v, y, true)
    ensures IsExpanded(v, z[i]) && v.ordinalWord(Lower(z[i])) == 0 && OrdinalAt(v, z, i, true) == z[i]
  {
    WrittenOrdinal(v, y, i);
    NextStaysType(v, y, z, i);
    assert IsExpanded(v, y[i]);
    OrdinalStays(v, y[i], NextWord(y, i), NextWord(z, i), i == 0);
  }

  lemma OrdinalsLeave(v: Vocabulary, y: seq<string>)
    requires Consistent(v) && AreExpanded(v, y)
    ensures var z := Ordinals(v, y, true); AreExpanded(v, z) && NoOrdinalWords(v, z) && OrdinalsDone(v, z)
  {
    var z := Ordinals(v, y, true);
    forall i: nat | i < |y|
      ensures IsExpanded(v, z[i]) && v.ordinalWord(Lower(z[i])) == 0 && OrdinalAt(v, z, i, true) == z[i]
    {
      OrdinalLeaves(v, y, z, i);
    }
  }

  lemma FoldedWord(v: Vocabulary, w: string)
    requires Consistent(v) && IsExpanded(v, w)
    ensures IsExpanded(v, Fold(v, w))
  {
    assert v.place(w).Some? ==> IsPlaceWord(v, v.place(w).value);
  }

  lemma FoldLeaves(v: Vocabulary, z: seq<string>)
    requires Consistent(v) && AreExpanded(v, z) && NoOrdinalWords(v, z) && OrdinalsDone(v, z)
    ensures var t := PlaceFold(v, z); AreExpanded(v, t) && NoOrdinalWords(v, t) && OrdinalsDone(v, t) && FoldDone(v, t)
  {
    var t := PlaceFold(v, z);
    forall i: nat | i < |z|
      ensures IsExpanded(v, t[i]) && v.ordinalWord(Lower(t[i])) == 0
    {
      assert IsExpanded(v, z[i]) && v.ordinalWord(Lower(z[i])) == 0;
      FoldedWord(v, z[i]);
      FoldIsNoNumeral(v, z[i]);
    }
    forall i | 0 <= i < |z| - 1 ensures Fold(v, t[i]) == t[i] {
      assert IsExpanded(v, z[i]);
      FoldIsNoNumeral(v, z[i]);
    }
    assert Ordinals(v, z, true) == z;
    assert AllLower(z) by {
      forall i | 0 <= i < |z| ensures Lower(z[i]) == z[i] { assert IsExpanded(v, z[i]); }
    }
    OrdinalsThenFold(v, z, true);
  }

  ghost predicate IsSettled(v: Vocabulary, t: seq<string>) {
    AreExpanded(v, t) && NoOrdinalWords(v, t) && OrdinalsDone(v, t) && FoldDone(v, t)
  }

  lemma TokensAreSettled(v: Vocabulary, words: seq<string>)
    requires Consistent(v) && AllLower(words) && AreWords(IsSeparator, words)
    ensures IsSettled(v, Tokenized(v, words))
  {
    StreetEitherWay(v, words);
    ExpandedIsExpanded(v, words);
    CompoundIsExpanded(v, Expanded(v, words));
    OrdinalsLeave(v, Compound(v, Expanded(v, words)));
    FoldLeaves(v, Ordinals(v, Compound(v, Expanded(v, words)), true));
  }

  // --- Settled tokens are rewritten only where "st" becomes Street ---

  /** Without words for ones, nothing is merged at the end of a list. */
  lemma {:induction false} CompoundTail(v: Vocabulary, front: seq<string>, tail: seq<string>)
    requires forall i :: 0 <= i < |tail| ==> Ones(v, Lower(tail[i])) == 0
    ensures Compound(v, front + tail) == Compound(v, front) + tail
    decreases |front| + |tail|
  {
    var all := front + tail;
    if |all| >= 2 {
      if |front| >= 2 && IsCompound(v, front[0], front[1]) {
        assert all[2..] == front[2..] + tail;
        CompoundTail(v, front[2..], tail);
      } else if front != [] {
        assert all[1..] == front[1..] + tail;
        CompoundTail(v, front[1..], tail);
        assert all == [all[0]] + all[1..];
      } else {
        assert all[1..] == [] + tail[1..];
        CompoundTail(v, [], tail[1..]);
        assert tail == [tail[0]] + tail[1..];
      }
    } else {
      assert front == [] ==> all == tail;
      assert tail == [] ==> all == front;
    }
  }

  lemma NothingMerged(v: Vocabulary, t: seq<string>)
    requires NoOrdinalWords(v, t)
    ensures Compound(v, t) == t
  {
    CompoundTail(v, [], t);
    assert [] + t == t;
  }

  ghost predicate StreetLeft(v: Vocabulary, t: seq<string>) {
    StPosition(v, t).Some? && t[StPosition(v, t).value] == "st"
  }

  lemma SettledWords(v: Vocabulary, t: seq<string>)
    requires Consistent(v) && IsSettled(v, t)
    ensures ExpandEach(v, t) == t && PlaceFold(v, t) == t && Ordinals(v, t, true) == t && Compound(v, t) == t
  {
    NothingMerged(v, t);
    forall i: nat | i < |t| ensures ExpandAt(v, t, i) == t[i] {
      assert IsExpanded(v, t[i]);
    }
  }

  lemma StreetStays(v: Vocabulary, u: seq<string>, p: nat)
    requires Consistent(v) && p < |u| && IsFullForm(v, u[p])
    ensures PlaceFold(v, Ordinals(v, u, true))[p] == u[p]
  {
    OnlyNumbersBecomeOrdinals(v, u[p], NextWord(u, p), p == 0);
    assert OrdinalAt(v, u, p, true) == u[p];
  }

  lemma StreetMergesNothing(v: Vocabulary, t: seq<string>, p: nat, street: string)
    requires NoOrdinalWords(v, t) && p < |t| && IsFullForm(v, street)
    ensures Compound(v, t[p := street]) == t[p := street]
  {
    var u := t[p := street];
    forall i | 0 <= i < |u| ensures v.ordinalWord(Lower(u[i])) == 0 {
      if i != p { assert u[i] == t[i]; }
    }
    NothingMerged(v, u);
  }

  lemma SettledExactly(v: Vocabulary, t: seq<string>)
    requires Consistent(v) && IsSettled(v, t)
    ensures Tokenized(v, t) == t <==> !StreetLeft(v, t)
  {
    SettledWords(v, t);
    if StreetLeft(v, t) {
      var p := StPosition(v, t).value;
      assert IsFullForm(v, "street");
      StreetMergesNothing(v, t, p, "street");
      StreetStays(v, t[p := "street"], p);
    }
  }

  // --- When Street is left over ---

  /** A place word that folds to "st" stands where a street type would, before compass words. */
  ghost predicate SaintAsStreet(v: Vocabulary, words: seq<string>) {
    var at := StPosition(v, words);
    at.Some? && at.value < |words| - 1 && words[at.value] != "st" && v.place(words[at.value]) == Some("st")
  }

  ghost predicate AllCompass(v: Vocabulary, tail: seq<string>) {
    forall i :: 0 <= i < |tail| ==> v.isDirectional(Lower(tail[i]))
  }

  lemma CompassMergesNothing(v: Vocabulary, front: seq<string>, tail: seq<string>)
    requires Consistent(v) && AllCompass(v, tail)
    ensures Compound(v, front + tail) == Compound(v, front) + tail
  {
    CompoundTail(v, front, tail);
  }

  lemma NamedBeforeCompass(v: Vocabulary, front: seq<string>, tail: seq<string>)
    requires AllCompass(v, tail) && front != [] && !v.isDirectional(Lower(front[|front| - 1]))
    ensures NamedLength(v, front + tail) == |front| && (front + tail)[|front| - 1] == front[|front| - 1]
  {
    NamedLengthUnique(v, front + tail, |front|);
  }

  lemma NamedParts(v: Vocabulary, x: seq<string>)
    ensures var n := NamedLength(v, x); x == x[..n] + x[n..] && AllCompass(v, x[n..])
    ensures var n := NamedLength(v, x); n > 0 ==> x[..n] == x[..n - 1] + [x[n - 1]] && !v.isDirectional(Lower(x[n - 1]))
  {}

  /** The last named word of a list is still there after merging, if it is no word for ones. */
  lemma LastNamedStays(v: Vocabulary, front: seq<string>, w: string, tail: seq<string>)
    requires Consistent(v) && AllCompass(v, tail) && !v.isDirectional(Lower(w)) && Ones(v, Lower(w)) == 0
    ensures var y, q := Compound(v, front + [w] + tail), |Compound(v, front)|;
            NamedLength(v, y) == q + 1 && y[q] == w && |y| == q + 1 + |tail| && (q > 0 <==> front != [])
  {
    CompassMergesNothing(v, front + [w], tail);
    CompoundTail(v, front, [w]);
    NamedBeforeCompass(v, Compound(v, front) + [w], tail);
    CompoundNonempty(v, front);
  }

  ghost predicate EndsIn(y: seq<string>, w: string) {
    y != [] && (y[|y| - 1] == w || StartsWithDigit(y[|y| - 1]))
  }

  lemma {:induction false} LastMerged(v: Vocabulary, a: seq<string>)
    requires a != []
    ensures EndsIn(Compound(v, a), a[|a| - 1])
    decreases |a|
  {
    if |a| >= 2 {
      if IsCompound(v, a[0], a[1]) {
        OrdinalForm(v.tens(Lower(a[0])) + Ones(v, Lower(a[1])));
        if |a| > 2 {
          LastMerged(v, a[2..]);
        }
      } else {
        LastMerged(v, a[1..]);
      }
    }
  }

  ghost predicate IsNumeral(v: Vocabulary, w: string) {
    v.ordinalWord(w) > 0 || StartsWithDigit(w)
  }

  lemma MergedIsNumber(v: Vocabulary, words: seq<string>)
    requires words != [] && Ones(v, words[|words| - 1]) > 0 && Lower(words[|words| - 1]) == words[|words| - 1]
    ensures var y := Compound(v, words);
            y != [] && IsNumeral(v, y[|y| - 1]) && (Lower(y[|y| - 1]) == y[|y| - 1] || StartsWithDigit(y[|y| - 1]))
  {
    LastMerged(v, words);
  }

  lemma NumeralIsNamed(v: Vocabulary, w: string)
    requires Consistent(v) && IsNumeral(v, w) && (Lower(w) == w || StartsWithDigit(w))
    ensures !v.isDirectional(Lower(w))
  {
    assert StartsWithDigit(w) ==> StartsWithDigit(Lower(w)) && IsName(v, Lower(w));
  }

  /** A word for ones there ends up as a number. */
  lemma LastNamedIsNumber(v: Vocabulary, front: seq<string>, w: string, tail: seq<string>)
    requires Consistent(v) && AllCompass(v, tail) && Lower(w) == w && Ones(v, w) > 0
    ensures var y, q := Compound(v, front + [w] + tail), |Compound(v, front + [w])|;
            NamedLength(v, y) == q > 0 && IsNumeral(v, y[q - 1])
  {
    CompassMergesNothing(v, front + [w], tail);
    MergedIsNumber(v, front + [w]);
    NumberBeforeCompass(v, Compound(v, front + [w]), tail);
  }

  lemma NumberBeforeCompass(v: Vocabulary, merged: seq<string>, tail: seq<string>)
    requires Consistent(v) && AllCompass(v, tail) && merged != [] && IsNumeral(v, merged[|merged| - 1])
    requires Lower(merged[|merged| - 1]) == merged[|merged| - 1] || StartsWithDigit(merged[|merged| - 1])
    ensures NamedLength(v, merged + tail) == |merged| && IsNumeral(v, (merged + tail)[|merged| - 1])
  {
    NumeralIsNamed(v, merged[|merged| - 1]);
    NamedBeforeCompass(v, merged, tail);
  }

  lemma SameNamedLength(v: Vocabulary, a: seq<string>, b: seq<string>)
    requires |a| == |b| && forall i :: 0 <= i < |a| ==> v.isDirectional(Lower(a[i])) == v.isDirectional(Lower(b[i]))
    ensures NamedLength(v, a) == NamedLength(v, b)
  {
    NamedLengthUnique(v, a, NamedLength(v, b));
  }

  /** What ordinals and folding make of one word. */
  lemma FinalWord(v: Vocabulary, y: seq<string>, i: nat)
    requires Consistent(v) && AreExpanded(v, y) && i < |y|
    ensures var t := PlaceFold(v, Ordinals(v, y, true))[i];
            && v.isDirectional(Lower(t)) == v.isDirectional(Lower(y[i]))
            && (IsNumeral(v, y[i]) ==> t != "st")
            && (!IsNumeral(v, y[i]) ==> t == if i < |y| - 1 then Fold(v, y[i]) else y[i])
  {
    WrittenOrdinal(v, y, i);
    var z := OrdinalAt(v, y, i, true);
    assert IsExpanded(v, y[i]);
    OnlyNumbersBecomeOrdinals(v, "st", NextWord(y, i), i == 0);
    if !IsNumeral(v, y[i]) {
      OnlyNumbersBecomeOrdinals(v, y[i], NextWord(y, i), i == 0);
    }
    FoldIsNoNumeral(v, z);
  }

  lemma LastNamedWord(v: Vocabulary, words: seq<string>)
    requires Consistent(v) && AllLower(words) && AreWords(IsSeparator, words)
    ensures AreExpanded(v, Expanded(v, words)) && AllLower(Expanded(v, words))
    ensures NamedLength(v, Expanded(v, words)) == NamedLength(v, words)
    ensures NamedLength(v, words) > 1 ==>
              var p := NamedLength(v, words) - 1; var w := Expanded(v, words)[p];
              w != "st" && (v.place(w) == Some("st") <==> words[p] != "st" && v.place(words[p]) == Some("st"))
  {
    ExpandedIsExpanded(v, words);
    var x := Expanded(v, words);
    forall i: nat | i < |x|
      ensures Lower(x[i]) == x[i] && v.isDirectional(Lower(x[i])) == v.isDirectional(Lower(words[i]))
    {
      assert IsExpanded(v, x[i]);
      ExpandAtKeeps(v, words, i);
      assert IsFullForm(v, "street");
    }
    SameNamedLength(v, x, words);
    if NamedLength(v, words) > 1 {
      var p: nat := NamedLength(v, words) - 1;
      ExpandAtKeeps(v, words, p);
      assert IsFullForm(v, "street");
    }
  }

  /** The last named word, not the first, will read "st" after ordinals and folding. */
  ghost predicate WillBeSt(v: Vocabulary, words: seq<string>) {
    var n := NamedLength(v, words);
    n > 1 && !IsNumeral(v, words[n - 1]) && (if n < |words| then Fold(v, words[n - 1]) else words[n - 1]) == "st"
  }

  lemma LeftAfterFold(v: Vocabulary, y: seq<string>)
    requires Consistent(v) && AreExpanded(v, y)
    ensures StreetLeft(v, PlaceFold(v, Ordinals(v, y, true))) <==> WillBeSt(v, y)
  {
    var t := PlaceFold(v, Ordinals(v, y, true));
    forall i: nat | i < |y| ensures v.isDirectional(Lower(t[i])) == v.isDirectional(Lower(y[i])) {
      FinalWord(v, y, i);
    }
    SameNamedLength(v, t, y);
    if NamedLength(v, y) > 1 {
      FinalWord(v, y, NamedLength(v, y) - 1);
    }
  }

  lemma LeftAfterCompound(v: Vocabulary, x: seq<string>)
    requires Consistent(v) && AllLower(x)
    ensures WillBeSt(v, Compound(v, x)) <==> WillBeSt(v, x)
  {
    var n := NamedLength(v, x);
    NamedParts(v, x);
    if n == 0 {
      CompassMergesNothing(v, [], x);
      assert x[0..] == x && [] + x == x;
    } else if Ones(v, x[n - 1]) > 0 {
      LastNamedIsNumber(v, x[..n - 1], x[n - 1], x[n..]);
    } else {
      LastNamedStays(v, x[..n - 1], x[n - 1], x[n..]);
    }
  }

  lemma StreetLeftExactly(v: Vocabulary, words: seq<string>)
    requires Consistent(v) && AllLower(words) && AreWords(IsSeparator, words)
    ensures StreetLeft(v, Tokenized(v, words)) <==> SaintAsStreet(v, words)
  {
    var x := Expanded(v, words);
    StreetEitherWay(v, words);
    LastNamedWord(v, words);
    CompoundIsExpanded(v, x);
    LeftAfterFold(v, Compound(v, x));
    LeftAfterCompound(v, x);
    if NamedLength(v, x) > 1 {
      FoldIsNoNumeral(v, x[NamedLength(v, x) - 1]);
    }
  }

  /** The words the query side cuts out of a text without commas. */
  function QueryWords(s: string): seq<string> {
    Fields(IsSeparator, JoinedFrom(Lower(s), 0))
  }

  lemma {:induction false} DottedLettersIn(s: string, j: nat, c: char)
    requires j <= |s| && c in DottedLetters(s, j)
    ensures c in s
    decreases |s| - j
  {
    if c != s[j] {
      DottedLettersIn(s, j + 2, c);
    }
  }

  /** Joining initials brings in no new characters. */
  lemma {:induction false} JoinedIn(s: string, i: nat, c: char)
    requires i <= |s| && c in JoinedFrom(s, i)
    ensures c in s
    decreases |s| - i
  {
    var (piece, next) := PieceAt(s, i);
    if c in piece {
      if c in DottedLetters(s, i) {
        DottedLettersIn(s, i, c);
      }
    } else {
      JoinedIn(s, next, c);
    }
  }

  lemma {:induction false} FieldsIn(sep: char -> bool, s: string, w: string, c: char)
    requires w in Fields(sep, s) && c in w
    ensures c in s
    decreases |s|
  {
    if sep(s[0]) {
      FieldsIn(sep, s[1..], w, c);
    } else if w != s[..RunLength(sep, s)] {
      FieldsIn(sep, s[RunLength(sep, s)..], w, c);
    }
  }

  lemma QueryWordsAreLower(s: string)
    ensures AllLower(QueryWords(s)) && AreWords(IsSeparator, QueryWords(s))
  {
    var joined, words := JoinedFrom(Lower(s), 0), QueryWords(s);
    FieldsAreWords(IsSeparator, joined);
    forall i | 0 <= i < |words| ensures Lower(words[i]) == words[i] {
      forall k | 0 <= k < |words[i]| ensures LowerChar(words[i][k]) == words[i][k] {
        FieldsIn(IsSeparator, joined, words[i], words[i][k]);
        JoinedIn(Lower(s), 0, words[i][k]);
      }
    }
  }

  lemma OneComponent(v: Vocabulary, s: string)
    requires ',' !in s
    ensures QueryTokens(v, s) == Tokenized(v, QueryWords(s))
  {
    var joined := JoinedFrom(Lower(s), 0);
    forall k | 0 <= k < |joined| ensures joined[k] != ',' {
      JoinedIn(Lower(s), 0, joined[k]);
    }
    OnePart(joined);
    OnePartTokens(v, joined);
  }

  lemma PlainWords(s: string)
    requires IsPlain(s)
    ensures QueryWords(s) == LowerAll(SplitWhitespace(s)) && ',' !in s
  {
    NoDotsNoChange(Lower(s), 0);
    assert Lower(s)[0..] == Lower(s);
    SameWords(s);
  }

  /**
   Tokenizing twice.  The tokens of a text without commas, put together with spaces and tokenized
   again, are the same tokens, unless Saint, Sainte or Ste stood in the place of a street type
   before compass words: "Main Saint North" gives "main st north", and that "main street north".
   */
  lemma TokensSettleExactly(v: Vocabulary, s: string)
    requires Consistent(v) && ',' !in s
    ensures QueryTokens(v, Join(QueryTokens(v, s))) == QueryTokens(v, s) <==> !SaintAsStreet(v, QueryWords(s))
  {
    var words := QueryWords(s);
    QueryWordsAreLower(s);
    OneComponent(v, s);
    TokensAreSettled(v, words);
    var t := Tokenized(v, words);
    JoinedIsPlain(v, t);
    PlainWords(Join(t));
    OneComponent(v, Join(t));
    SettledExactly(v, t);
    StreetLeftExactly(v, words);
  }

  lemma {:induction false} JoinPlain(words: seq<string>)
    requires AreWords(IsSeparator, words)
    ensures IsPlain(Join(words))
  {
    if words != [] {
      assert IsWord(IsSeparator, words[0]);
      JoinPlain(words[1..]);
    }
  }

  lemma JoinedIsPlain(v: Vocabulary, t: seq<string>)
    requires AreExpanded(v, t)
    ensures IsPlain(Join(t)) && LowerAll(SplitWhitespace(Join(t))) == t
  {
    forall i | 0 <= i < |t| ensures IsWord(IsSeparator, t[i]) && Lower(t[i]) == t[i] {
      assert IsExpanded(v, t[i]);
    }
    JoinPlain(t);
    SplitJoined(t);
  }
}
