/** The word-level rewriting steps that the index side and the query side share. */
module Rewriting {
  import opened Numerals
  import opened Text
  import opened Vocabulary
  import opened Wrappers

  // --- "St" as Street ---

  /** How many words there are up to the last one that is not a compass word. */
  function NamedLength(v: Vocabulary, words: seq<string>): (n: nat)
    ensures n <= |words|
    ensures forall i :: n <= i < |words| ==> v.isDirectional(Lower(words[i]))
    ensures n > 0 ==> !v.isDirectional(Lower(words[n - 1]))
  {
    if words == [] then 0
    else if v.isDirectional(Lower(words[|words| - 1])) then NamedLength(v, words[..|words| - 1])
    else |words|
  }

  /** `street_st_position`. */
  function StPosition(v: Vocabulary, words: seq<string>): Option<nat> {
    if NamedLength(v, words) > 1 then Some(NamedLength(v, words) - 1) else None
  }

  lemma {:induction false} NamedLengthUnique(v: Vocabulary, words: seq<string>, n: nat)
    requires n <= |words| && forall i :: n <= i < |words| ==> v.isDirectional(Lower(words[i]))
    requires n > 0 ==> !v.isDirectional(Lower(words[n - 1]))
    ensures NamedLength(v, words) == n
  {
    if n < |words| {
      NamedLengthUnique(v, words[..|words| - 1], n);
    }
  }

  // --- Compound ordinals ---

  predicate IsCompound(v: Vocabulary, first: string, second: string) {
    v.tens(Lower(first)) > 0 && Ones(v, Lower(second)) > 0
  }

  function Merged(v: Vocabulary, first: string, second: string): string {
    Ordinal(v.tens(Lower(first)) + Ones(v, Lower(second)))
  }

  /** "thirty seventh" becomes "37th", from left to right. */
  function Compound(v: Vocabulary, words: seq<string>): seq<string> {
    if |words| < 2 then words
    else if IsCompound(v, words[0], words[1]) then [Merged(v, words[0], words[1])] + Compound(v, words[2..])
    else [words[0]] + Compound(v, words[1..])
  }

  /** The words before `i` are done; one step deals with the word at `i` and stands at `i + 1`. */
  ghost predicate CompoundFrom(v: Vocabulary, words: seq<string>, i: nat, result: seq<string>)
    requires i <= |words|
  {
    words[..i] + Compound(v, words[i..]) == result
  }

  lemma SkipWord(v: Vocabulary, words: seq<string>, i: nat, result: seq<string>)
    requires i + 1 < |words| && !IsCompound(v, words[i], words[i + 1]) && CompoundFrom(v, words, i, result)
    ensures CompoundFrom(v, words, i + 1, result)
  {
    assert words[i..][1..] == words[i + 1..] && words[..i + 1] == words[..i] + [words[i]];
  }

  lemma MergeWords(v: Vocabulary, words: seq<string>, i: nat, shorter: seq<string>, result: seq<string>)
    requires i + 1 < |words| && IsCompound(v, words[i], words[i + 1]) && CompoundFrom(v, words, i, result)
    requires shorter == words[..i] + [Merged(v, words[i], words[i + 1])] + words[i + 2..]
    ensures CompoundFrom(v, shorter, i + 1, result)
  {
    assert words[i..][2..] == words[i + 2..];
    assert shorter[..i + 1] == words[..i] + [Merged(v, words[i], words[i + 1])];
    assert shorter[i + 1..] == words[i + 2..];
  }

  /** `canonicalise_compound_ordinals`: rewrites the list in place, which it may shorten. */
  method CanonicaliseCompoundOrdinals(v: Vocabulary, input: seq<string>) returns (words: seq<string>)
    ensures words == Compound(v, input)
  {
    words := input;
    var i := 0;
    while i + 1 < |words|
      invariant 0 <= i <= |words| && CompoundFrom(v, words, i, Compound(v, input))
      decreases |words| - i
    {
      var tens := v.tens(Lower(words[i]));
      if tens == 0 {
        SkipWord(v, words, i, Compound(v, input));
        i := i + 1;
        continue;
      }
      var ones := Ones(v, Lower(words[i + 1]));
      if ones > 0 {
        var merged := Ordinal(tens + ones);
        MergeWords(v, words, i, words[..i] + [merged] + words[i + 2..], Compound(v, input));
        words := words[..i] + [merged] + words[i + 2..];
      } else {
        SkipWord(v, words, i, Compound(v, input));
      }
      i := i + 1;
    }
    assert words[..i] + words[i..] == words;
  }

  // --- Ordinals ---

  function NextWord(words: seq<string>, i: nat): Option<string> {
    if i + 1 < |words| then Some(words[i + 1]) else None
  }

  /** The number a token spells, if it is to be written as an ordinal. */
  function OrdinalValue(v: Vocabulary, token: string, next: Option<string>, isHouse: bool): Option<nat> {
    if v.ordinalWord(token) > 0 then Some(v.ordinalWord(token))
    else if IsOrdinal(token) then ParseU32(token[..|token| - 2])
    else if !isHouse && AllDigits(token) && next.Some? && v.isStreetType(next.value) then ParseU32(token)
    else None
  }

  function OrdinalOr(v: Vocabulary, token: string, next: Option<string>, isHouse: bool): string {
    var n := OrdinalValue(v, token, next, isHouse);
    if n.Some? then Ordinal(n.value) else token
  }

  function OrdinalAt(v: Vocabulary, tokens: seq<string>, i: nat, firstIsHouse: bool): string
    requires i < |tokens|
  {
    OrdinalOr(v, tokens[i], NextWord(tokens, i), i == 0 && firstIsHouse)
  }

  function Ordinals(v: Vocabulary, tokens: seq<string>, firstIsHouse: bool): (r: seq<string>)
    ensures |r| == |tokens|
    ensures forall i: nat :: i < |tokens| ==> r[i] == OrdinalAt(v, tokens, i, firstIsHouse)
  {
    seq(|tokens|, i requires 0 <= i < |tokens| => OrdinalAt(v, tokens, i, firstIsHouse))
  }

  method RewriteOrdinal(v: Vocabulary, tokens: array<string>, i: nat, firstIsHouse: bool)
    requires i < tokens.Length
    modifies tokens
    ensures tokens[..] == old(tokens[..])[i := OrdinalAt(v, old(tokens[..]), i, firstIsHouse)]
  {
    var token := tokens[i];
    var n: Option<nat> := None;
    if v.ordinalWord(token) > 0 {
      n := Some(v.ordinalWord(token));
    } else if IsOrdinal(token) {
      n := ParseU32(token[..|token| - 2]);
    } else if (i > 0 || !firstIsHouse) && AllDigits(token)
              && i + 1 < tokens.Length && v.isStreetType(tokens[i + 1]) {
      n := ParseU32(token);
    }
    if n.Some? {
      tokens[i] := Ordinal(n.value);
    }
  }

  lemma OrdinalAtLooksAhead(v: Vocabulary, before: seq<string>, now: seq<string>, i: nat, firstIsHouse: bool)
    requires i < |before| == |now| && now[i..] == before[i..]
    ensures OrdinalAt(v, now, i, firstIsHouse) == OrdinalAt(v, before, i, firstIsHouse)
  {
    assert now[i] == now[i..][0] && before[i] == before[i..][0];
    assert i + 1 < |now| ==> now[i + 1] == now[i..][1] && before[i + 1] == before[i..][1];
  }

  /** `canonicalise_ordinals`, in place: a token is read before its successor is rewritten. */
  method CanonicaliseOrdinals(v: Vocabulary, tokens: array<string>, firstIsHouse: bool)
    modifies tokens
    ensures tokens[..] == Ordinals(v, old(tokens[..]), firstIsHouse)
  {
    ghost var before := tokens[..];
    for i := 0 to tokens.Length
      invariant forall k: nat :: k < i ==> tokens[k] == OrdinalAt(v, before, k, firstIsHouse)
      invariant tokens[i..] == before[i..]
    {
      OrdinalAtLooksAhead(v, before, tokens[..], i, firstIsHouse);
      RewriteOrdinal(v, tokens, i, firstIsHouse);
      assert forall k :: 0 <= k < tokens.Length ==> tokens[k] == tokens[..][k];
    }
  }

  // --- Saint, Mount and Fort ---

  /** Every token but the last is folded. */
  function PlaceFold(v: Vocabulary, tokens: seq<string>): (r: seq<string>)
    ensures |r| == |tokens|
    ensures forall i :: 0 <= i < |tokens| ==> r[i] == if i < |tokens| - 1 then Fold(v, tokens[i]) else tokens[i]
  {
    seq(|tokens|, i requires 0 <= i < |tokens| => if i < |tokens| - 1 then Fold(v, tokens[i]) else tokens[i])
  }

  /** `apply_place_abbreviation_fold`. */
  method ApplyPlaceAbbreviationFold(v: Vocabulary, input: seq<string>) returns (tokens: seq<string>)
    ensures tokens == PlaceFold(v, input)
  {
    tokens := input;
    if |tokens| < 2 {
      return;
    }
    var last := |tokens| - 1;
    for i := 0 to |tokens|
      invariant |tokens| == |input|
      invariant forall k :: 0 <= k < i ==> tokens[k] == PlaceFold(v, input)[k]
      invariant forall k :: i <= k < |tokens| ==> tokens[k] == input[k]
    {
      if i == last {
        continue;
      }
      var mapped := v.place(tokens[i]);
      if mapped.Some? {
        tokens := tokens[i := mapped.value];
      }
    }
  }

  // --- The steps commute ---

  ghost predicate AllLower(words: seq<string>) {
    forall i :: 0 <= i < |words| ==> Lower(words[i]) == words[i]
  }

  lemma FoldIsNoNumeral(v: Vocabulary, w: string)
    requires Consistent(v) && Lower(w) == w
    ensures Lower(Fold(v, w)) == Fold(v, w) && Fold(v, Fold(v, w)) == Fold(v, w)
    ensures v.tens(Fold(v, w)) == v.tens(w) && v.ordinalWord(Fold(v, w)) == v.ordinalWord(w)
    ensures v.isStreetType(Fold(v, w)) == v.isStreetType(w)
    ensures v.isDirectional(Fold(v, w)) == v.isDirectional(w)
    ensures StartsWithDigit(Fold(v, w)) == StartsWithDigit(w)
    ensures v.tens(w) > 0 || v.ordinalWord(w) > 0 || StartsWithDigit(w) ==> Fold(v, w) == w
  {
    if v.place(w).Some? {
      assert IsPlaceWord(v, w) && IsPlaceWord(v, v.place(w).value);
    }
    if StartsWithDigit(w) {
      assert IsName(v, w);
    }
  }

  lemma OrdinalIsName(v: Vocabulary, n: nat)
    requires Consistent(v)
    ensures IsName(v, Ordinal(n)) && Lower(Ordinal(n)) == Ordinal(n) && Fold(v, Ordinal(n)) == Ordinal(n)
  {
    OrdinalForm(n);
  }

  lemma {:induction false} CompoundNonempty(v: Vocabulary, words: seq<string>)
    ensures Compound(v, words) == [] <==> words == []
    ensures |Compound(v, words)| <= |words|
  {
    if |words| >= 2 {
      if IsCompound(v, words[0], words[1]) {
        CompoundNonempty(v, words[2..]);
      } else {
        CompoundNonempty(v, words[1..]);
      }
    }
  }

  lemma PlaceFoldCons(v: Vocabulary, w: string, rest: seq<string>)
    requires rest != [] || Fold(v, w) == w
    ensures PlaceFold(v, [w] + rest) == [Fold(v, w)] + PlaceFold(v, rest)
  {}

  lemma MergedIsName(v: Vocabulary, a: string, b: string, rest: seq<string>)
    requires Consistent(v)
    ensures PlaceFold(v, [Merged(v, a, b)] + rest) == [Merged(v, a, b)] + PlaceFold(v, rest)
  {
    OrdinalIsName(v, v.tens(Lower(a)) + Ones(v, Lower(b)));
  }

  /** Folding the words after the first does not change what the first is merged with. */
  lemma SameCompound(v: Vocabulary, a: string, rest: seq<string>)
    requires Consistent(v) && AllLower([a] + rest) && rest != []
    ensures IsCompound(v, Fold(v, a), PlaceFold(v, rest)[0]) == IsCompound(v, a, rest[0])
    ensures IsCompound(v, a, rest[0]) ==>
              PlaceFold(v, [a] + rest) == [a, rest[0]] + PlaceFold(v, rest[1..])
  {
    assert Lower(([a] + rest)[0]) == a && Lower(([a] + rest)[1]) == rest[0];
    FoldIsNoNumeral(v, a);
    FoldIsNoNumeral(v, rest[0]);
  }

  /** Folding before or after ordinals are merged is the same, though merging shortens the list. */
  lemma {:induction false} CompoundThenFold(v: Vocabulary, words: seq<string>)
    requires Consistent(v) && AllLower(words)
    ensures Compound(v, PlaceFold(v, words)) == PlaceFold(v, Compound(v, words))
    decreases |words|
  {
    if |words| >= 2 {
      var a, rest := words[0], words[1..];
      assert words == [a] + rest;
      SameCompound(v, a, rest);
      if IsCompound(v, a, rest[0]) {
        CompoundThenFold(v, words[2..]);
        assert words[2..] == rest[1..];
        assert PlaceFold(v, words)[2..] == PlaceFold(v, words[2..]);
        MergedIsName(v, a, rest[0], Compound(v, words[2..]));
      } else {
        CompoundThenFold(v, rest);
        CompoundNonempty(v, rest);
        assert PlaceFold(v, words)[1..] == PlaceFold(v, rest);
        PlaceFoldCons(v, a, Compound(v, rest));
      }
    }
  }

  lemma OnlyNumbersBecomeOrdinals(v: Vocabulary, w: string, next: Option<string>, isHouse: bool)
    requires v.ordinalWord(w) == 0 && !StartsWithDigit(w)
    ensures OrdinalValue(v, w, next, isHouse).None?
  {
    OrdinalStartsWithDigit(w);
  }

  lemma OrdinalOrFolds(v: Vocabulary, w: string, next: Option<string>, next': Option<string>, isHouse: bool)
    requires Consistent(v) && Lower(w) == w
    requires next.Some? == next'.Some? && (next.Some? ==> v.isStreetType(next.value) == v.isStreetType(next'.value))
    ensures OrdinalOr(v, Fold(v, w), next', isHouse) == Fold(v, OrdinalOr(v, w, next, isHouse))
  {
    FoldIsNoNumeral(v, w);
    if v.ordinalWord(w) == 0 && !StartsWithDigit(w) {
      OnlyNumbersBecomeOrdinals(v, w, next, isHouse);
      OnlyNumbersBecomeOrdinals(v, Fold(v, w), next', isHouse);
    } else {
      var n := OrdinalValue(v, w, next, isHouse);
      if n.Some? {
        OrdinalIsName(v, n.value);
      }
    }
  }

  /** Folding before or after ordinals are written is the same. */
  lemma OrdinalsThenFold(v: Vocabulary, words: seq<string>, firstIsHouse: bool)
    requires Consistent(v) && AllLower(words)
    ensures Ordinals(v, PlaceFold(v, words), firstIsHouse) == PlaceFold(v, Ordinals(v, words, firstIsHouse))
  {
    var folded := PlaceFold(v, words);
    forall i: nat | i < |words|
      ensures Ordinals(v, folded, firstIsHouse)[i] == PlaceFold(v, Ordinals(v, words, firstIsHouse))[i]
    {
      if i < |words| - 1 {
        FoldIsNoNumeral(v, words[i + 1]);
        OrdinalOrFolds(v, words[i], NextWord(words, i), NextWord(folded, i), i == 0 && firstIsHouse);
      }
    }
  }

  /** A list that starts with a number, of 32 bits, and a street type: "7 street". */
  predicate LeadsWithNumber(v: Vocabulary, words: seq<string>) {
    |words| > 1 && AllDigits(words[0]) && ParseU32(words[0]).Some? && v.isStreetType(words[1])
  }

  lemma FirstOrdinal(v: Vocabulary, words: seq<string>)
    requires Consistent(v) && words != []
    ensures Ordinals(v, words, true)[0] == Ordinals(v, words, false)[0] <==> !LeadsWithNumber(v, words)
  {
    var w := words[0];
    if AllDigits(w) && w != "" {
      assert IsName(v, w);
      DigitsAreNoOrdinal(w);
      OrdinalForm(ValueOf(w));
    }
  }

  /** The house-number rule makes a difference exactly for such lists. */
  lemma HouseNumberMatters(v: Vocabulary, words: seq<string>)
    requires Consistent(v)
    ensures Ordinals(v, words, true) == Ordinals(v, words, false) <==> !LeadsWithNumber(v, words)
  {
    if words != [] {
      FirstOrdinal(v, words);
      var a, b := Ordinals(v, words, true), Ordinals(v, words, false);
      assert forall i: nat :: 0 < i < |words| ==> a[i] == b[i];
    }
  }
}
