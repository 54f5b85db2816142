/** Spellings of one street name that the query side brings to the same tokens. */
module Spellings {
  import opened EnglishTables
  import opened Numerals
  import opened PrefixKeys
  import opened Rewriting
  import opened Text
  import opened Tokens
  import opened TokenSettling
  import opened TokenSymmetry
  import opened Vocabulary
  import opened Wrappers

  // --- Two spellings and both sides ---

  lemma WordsOfJoined(words: seq<string>)
    requires AreWords(IsSeparator, words) && AllLower(words)
    ensures IsPlain(Join(words)) && LowerAll(SplitWhitespace(Join(words))) == words
  {
    JoinPlain(words);
    SplitJoined(words);
    assert LowerAll(words) == words;
  }

  /** The tokens of words that no number leads are what both sides have for their text. */
  lemma BothSides(v: Vocabulary, words: seq<string>)
    requires Consistent(v) && AreWords(IsSeparator, words) && AllLower(words)
    requires !LeadsWithNumber(v, Expanded(v, words))
    ensures QueryTokens(v, Join(words)) == Tokenized(v, words)
    ensures LowerAll(SplitWhitespace(Phrase(v, Join(words)))) == Tokenized(v, words)
  {
    WordsOfJoined(words);
    PlainWords(Join(words));
    OneComponent(v, Join(words));
    SidesAgree(v, Join(words));
  }

  /** Words that come to the same tokens meet: a query for the one finds what is stored for the other. */
  lemma SpellingsMeet(v: Vocabulary, queried: seq<string>, stored: seq<string>)
    requires Consistent(v) && AllLower(queried) && AllLower(stored)
    requires AreWords(IsSeparator, queried) && AreWords(IsSeparator, stored)
    requires Tokenized(v, queried) == Tokenized(v, stored) && !LeadsWithNumber(v, Expanded(v, stored))
    ensures QueryTokens(v, Join(queried)) == LowerAll(SplitWhitespace(Phrase(v, Join(stored))))
  {
    BothSides(v, stored);
    WordsOfJoined(queried);
    PlainWords(Join(queried));
    OneComponent(v, Join(queried));
  }

  // --- Abbreviations ---

  /** Another word in place `i` changes nothing in the other places while it is no other kind of word. */
  lemma OtherWordsStay(v: Vocabulary, words: seq<string>, i: nat, w: string)
    requires AllLower(words) && i < |words| && Lower(w) == w
    requires v.isDirectional(w) == v.isDirectional(words[i])
    ensures AllLower(words[i := w]) && StPosition(v, words[i := w]) == StPosition(v, words)
    ensures forall k: nat :: k < |words| && k != i ==> Expanded(v, words[i := w])[k] == Expanded(v, words)[k]
  {
    var other := words[i := w];
    SamePosition(v, words, i, w);
    forall k: nat | k < |words| && k != i ensures Expanded(v, other)[k] == Expanded(v, words)[k] {
      SameElsewhere(v, words, other, k);
    }
  }

  lemma SamePosition(v: Vocabulary, words: seq<string>, i: nat, w: string)
    requires AllLower(words) && i < |words| && Lower(w) == w
    requires v.isDirectional(w) == v.isDirectional(words[i])
    ensures NamedLength(v, words[i := w]) == NamedLength(v, words)
  {
    var other := words[i := w];
    forall k | 0 <= k < |words| ensures v.isDirectional(Lower(other[k])) == v.isDirectional(Lower(words[k])) {
      assert Lower(words[k]) == words[k];
    }
    SameNamedLength(v, other, words);
  }

  lemma SameElsewhere(v: Vocabulary, words: seq<string>, other: seq<string>, k: nat)
    requires k < |words| == |other| && other[k] == words[k] && NamedLength(v, other) == NamedLength(v, words)
    ensures Expanded(v, other)[k] == Expanded(v, words)[k]
  {}

  lemma TokensOfExpanded(v: Vocabulary, words: seq<string>)
    requires Consistent(v) && AllLower(words)
    ensures AllLower(Expanded(v, words))
    ensures Tokenized(v, words) == PlaceFold(v, Ordinals(v, Compound(v, Expanded(v, words)), true))
  {
    StreetEitherWay(v, words);
    forall k: nat | k < |words| ensures Lower(Expanded(v, words)[k]) == Expanded(v, words)[k] {
      ExpandedWord(v, words, k);
    }
  }

  lemma SameTokens(v: Vocabulary, words: seq<string>, other: seq<string>)
    requires Consistent(v) && AllLower(words) && AllLower(other) && |other| == |words|
    requires forall k: nat :: k < |words| ==> Expanded(v, other)[k] == Expanded(v, words)[k]
    ensures Tokenized(v, other) == Tokenized(v, words)
  {
    TokensOfExpanded(v, words);
    TokensOfExpanded(v, other);
    assert Expanded(v, other) == Expanded(v, words);
  }

  predicate IsLeadingDr(words: seq<string>, i: nat)
    requires i < |words|
  {
    i == 0 && words[0] == "dr" && |words| > 2
  }

  /** An abbreviation and what the table has for it are one word, wherever they stand; a leading Dr aside. */
  lemma AbbreviationMeetsFullForm(v: Vocabulary, words: seq<string>, i: nat)
    requires Consistent(v) && AllLower(words) && i < |words|
    requires v.abbreviation(words[i]).Some? && !IsLeadingDr(words, i)
    ensures Tokenized(v, words[i := v.abbreviation(words[i]).value]) == Tokenized(v, words)
  {
    var full := v.abbreviation(words[i]).value;
    assert IsFullForm(v, full);
    OtherWordsStay(v, words, i, full);
    SameTokens(v, words, words[i := full]);
  }

  /** A leading Dr before two words or more is Doctor. */
  lemma DrMeetsDoctor(v: Vocabulary, words: seq<string>)
    requires Consistent(v) && AllLower(words) && words != [] && IsLeadingDr(words, 0)
    ensures Tokenized(v, words[0 := "doctor"]) == Tokenized(v, words)
  {
    assert IsFullForm(v, "doctor") && v.abbreviation("dr").Some?;
    OtherWordsStay(v, words, 0, "doctor");
    SameTokens(v, words, words[0 := "doctor"]);
  }

  /** An "st" that only compass words follow, and that some word precedes, is Street. */
  lemma StMeetsStreet(v: Vocabulary, words: seq<string>, i: nat)
    requires Consistent(v) && AllLower(words) && 0 < i < |words| && words[i] == "st"
    requires forall k :: i < k < |words| ==> v.isDirectional(words[k])
    ensures Tokenized(v, words[i := "street"]) == Tokenized(v, words)
  {
    assert IsFullForm(v, "street") && IsPlaceWord(v, "st");
    NamedLengthUnique(v, words, i + 1);
    OtherWordsStay(v, words, i, "street");
    SameTokens(v, words, words[i := "street"]);
  }

  // --- Saint, Mount and Fort ---

  lemma FoldFirst(v: Vocabulary, x: seq<string>)
    requires Consistent(v) && AllLower(x)
    ensures PlaceFold(v, Ordinals(v, Compound(v, x), true)) == Ordinals(v, Compound(v, PlaceFold(v, x)), true)
  {
    CompoundThenFold(v, x);
    CompoundLower(v, x);
    assert LowerAll(x) == x;
    assert AllLower(LowerAll(Compound(v, x)));
    OrdinalsThenFold(v, Compound(v, x), true);
  }

  lemma PlaceWordStays(v: Vocabulary, words: seq<string>, i: nat)
    requires Consistent(v) && i < |words| && v.place(words[i]).Some? && StPosition(v, words) != Some(i)
    ensures Expanded(v, words)[i] == words[i]
  {
    assert IsPlaceWord(v, words[i]);
  }

  lemma SameFold(v: Vocabulary, x: seq<string>, y: seq<string>, i: nat)
    requires i + 1 < |x| == |y| && Fold(v, x[i]) == Fold(v, y[i])
    requires forall k: nat :: k < |x| && k != i ==> y[k] == x[k]
    ensures PlaceFold(v, x) == PlaceFold(v, y)
  {}

  /** A place word and its short form are one word before the last place, where "st" is not Street. */
  lemma PlaceWordMeetsShortForm(v: Vocabulary, words: seq<string>, i: nat)
    requires Consistent(v) && AllLower(words) && i + 1 < |words| && v.place(words[i]).Some?
    requires StPosition(v, words) != Some(i)
    ensures Tokenized(v, words[i := v.place(words[i]).value]) == Tokenized(v, words)
  {
    var w := v.place(words[i]).value;
    var other := words[i := w];
    assert IsPlaceWord(v, words[i]) && IsPlaceWord(v, w);
    OtherWordsStay(v, words, i, w);
    TokensOfExpanded(v, words);
    TokensOfExpanded(v, other);
    PlaceWordStays(v, words, i);
    PlaceWordStays(v, other, i);
    SameFold(v, Expanded(v, words), Expanded(v, other), i);
    FoldFirst(v, Expanded(v, words));
    FoldFirst(v, Expanded(v, other));
  }

  /** Autocomplete keys fold the same words the same way, and end in Street for "st". */
  lemma KeysFoldAsTokens(words: seq<string>)
    requires |words| > 1
    ensures var folded, last := PlaceFold(ENGLISH, words), words[|words| - 1];
            FoldPlaces(words) == folded[|words| - 1 := if last == "st" then "street" else last]
  {
    assert forall w :: FoldedPlace(w) == Fold(ENGLISH, w);
  }

  // --- Numbers ---

  lemma MergesNothing(v: Vocabulary, w: string, rest: seq<string>)
    requires rest != [] ==> !IsCompound(v, w, rest[0])
    ensures Compound(v, [w] + rest) == [w] + Compound(v, rest)
  {
    assert ([w] + rest)[1..] == rest;
  }

  /** Where no pair of words is merged, the list can be cut. */
  lemma {:induction false} CompoundApart(v: Vocabulary, front: seq<string>, rest: seq<string>)
    requires front == [] || v.tens(Lower(front[|front| - 1])) == 0 || rest == [] || Ones(v, Lower(rest[0])) == 0
    ensures Compound(v, front + rest) == Compound(v, front) + Compound(v, rest)
    decreases |front|
  {
    if front == [] {
      assert front + rest == rest;
    } else if |front| == 1 {
      assert front == [front[0]];
      MergesNothing(v, front[0], rest);
    } else if IsCompound(v, front[0], front[1]) {
      CompoundApart(v, front[2..], rest);
      MergedInFront(v, front, rest);
    } else {
      CompoundApart(v, front[1..], rest);
      KeptInFront(v, front, rest);
    }
  }

  lemma FirstMerged(v: Vocabulary, words: seq<string>, rest: seq<string>)
    requires |words| > 1 && IsCompound(v, words[0], words[1]) && rest == words[2..]
    ensures Compound(v, words) == [Merged(v, words[0], words[1])] + Compound(v, rest)
  {}

  lemma FirstKept(v: Vocabulary, words: seq<string>, rest: seq<string>)
    requires |words| > 1 && !IsCompound(v, words[0], words[1]) && rest == words[1..]
    ensures Compound(v, words) == [words[0]] + Compound(v, rest)
  {}

  lemma CutFront(front: seq<string>, rest: seq<string>, n: nat)
    requires n <= |front|
    ensures (front + rest)[n..] == front[n..] + rest
    ensures forall k :: 0 <= k < |front| ==> (front + rest)[k] == front[k]
  {}

  lemma MergedInFront(v: Vocabulary, front: seq<string>, rest: seq<string>)
    requires |front| > 1 && IsCompound(v, front[0], front[1])
    requires Compound(v, front[2..] + rest) == Compound(v, front[2..]) + Compound(v, rest)
    ensures Compound(v, front + rest) == Compound(v, front) + Compound(v, rest)
  {
    CutFront(front, rest, 2);
    FirstMerged(v, front, front[2..]);
    FirstMerged(v, front + rest, front[2..] + rest);
    RegroupWords([Merged(v, front[0], front[1])], Compound(v, front[2..]), Compound(v, rest));
  }

  lemma KeptInFront(v: Vocabulary, front: seq<string>, rest: seq<string>)
    requires |front| > 1 && !IsCompound(v, front[0], front[1])
    requires Compound(v, front[1..] + rest) == Compound(v, front[1..]) + Compound(v, rest)
    ensures Compound(v, front + rest) == Compound(v, front) + Compound(v, rest)
  {
    CutFront(front, rest, 1);
    FirstKept(v, front, front[1..]);
    FirstKept(v, front + rest, front[1..] + rest);
    RegroupWords([front[0]], Compound(v, front[1..]), Compound(v, rest));
  }

  lemma StandsAlone(v: Vocabulary, front: seq<string>, w: string, rest: seq<string>)
    requires v.tens(Lower(w)) == 0
    requires front == [] || v.tens(Lower(front[|front| - 1])) == 0 || Ones(v, Lower(w)) == 0
    ensures Compound(v, front + [w] + rest) == Compound(v, front) + [w] + Compound(v, rest)
  {
    RegroupWords(front, [w], rest);
    CompoundApart(v, front, [w] + rest);
    MergesNothing(v, w, rest);
    RegroupWords(Compound(v, front), [w], Compound(v, rest));
  }

  lemma RegroupWords(a: seq<string>, b: seq<string>, c: seq<string>)
    ensures a + (b + c) == a + b + c
  {}

  /** A word for tens and one for an ordinal below ten are the ordinal of their sum. */
  lemma CompoundIsOneOrdinal(v: Vocabulary, pre: seq<string>, tens: string, ones: string, post: seq<string>)
    requires Consistent(v) && v.tens(tens) > 0 && 0 < v.ordinalWord(ones) < 10
    requires Lower(tens) == tens && Lower(ones) == ones
    ensures Compound(v, pre + [tens, ones] + post)
            == Compound(v, pre + [Ordinal(v.tens(tens) + v.ordinalWord(ones))] + post)
  {
    var ord := Ordinal(v.tens(tens) + v.ordinalWord(ones));
    OrdinalIsName(v, v.tens(tens) + v.ordinalWord(ones));
    PairApart(v, pre, tens, ones, post);
    StandsAlone(v, pre, ord, post);
  }

  /** What is merged among other words; a word for tens is no second word of a pair. */
  lemma PairApart(v: Vocabulary, pre: seq<string>, tens: string, ones: string, post: seq<string>)
    requires IsCompound(v, tens, ones) && Ones(v, Lower(tens)) == 0
    ensures Compound(v, pre + [tens, ones] + post)
            == Compound(v, pre) + [Merged(v, tens, ones)] + Compound(v, post)
  {
    RegroupWords(pre, [tens, ones], post);
    CompoundApart(v, pre, [tens, ones] + post);
    PairInFront(v, tens, ones, post);
    RegroupWords(Compound(v, pre), [Merged(v, tens, ones)], Compound(v, post));
  }

  lemma PairInFront(v: Vocabulary, tens: string, ones: string, post: seq<string>)
    requires IsCompound(v, tens, ones)
    ensures Compound(v, [tens, ones] + post) == [Merged(v, tens, ones)] + Compound(v, post)
  {
    CutFront([tens, ones], post, 2);
    FirstMerged(v, [tens, ones] + post, post);
  }

  /** What the first step makes of the words around a pair, and around one word in its place. */
  lemma ExpandedAround(v: Vocabulary, pre: seq<string>, tens: string, ones: string, ord: string, post: seq<string>)
    requires IsPlainWord(v, tens) && IsPlainWord(v, ones) && IsPlainWord(v, ord) && (pre == ["dr"] ==> post != [])
    ensures var x, y := Expanded(v, pre + [tens, ones] + post), Expanded(v, pre + [ord] + post);
            && x == x[..|pre|] + [tens, ones] + x[|pre| + 2..]
            && y == x[..|pre|] + [ord] + x[|pre| + 2..]
  {
    PairReplaced(pre, tens, ones, ord, post);
    DrStaysFirst(pre, ord, post);
    ExpandedOneForTwo(v, pre + [tens, ones] + post, pre + [ord] + post, |pre|);
  }

  lemma ExpandedOneForTwo(v: Vocabulary, a: seq<string>, b: seq<string>, p: nat)
    requires OneForTwo(a, b, p) && IsPlainWord(v, a[p]) && IsPlainWord(v, a[p + 1]) && IsPlainWord(v, b[p])
    requires p > 0 && a[0] == "dr" ==> |b| > 2
    ensures var x, y := Expanded(v, a), Expanded(v, b);
            && x == x[..p] + [a[p], a[p + 1]] + x[p + 2..]
            && y == x[..p] + [b[p]] + x[p + 2..]
  {
    ShorterNamed(v, a, b, p);
    ExpandedBefore(v, a, b, p);
    ExpandedBehind(v, a, b, p);
    PlainWordStays(v, a, p);
    PlainWordStays(v, a, p + 1);
    PlainWordStays(v, b, p);
    SplitAtTwo(Expanded(v, a), p);
    SplitAtOne(Expanded(v, b), p);
  }

  lemma PlainWordStays(v: Vocabulary, words: seq<string>, i: nat)
    requires i < |words| && IsPlainWord(v, words[i])
    ensures Expanded(v, words)[i] == words[i]
  {}

  lemma DrStaysFirst(pre: seq<string>, ord: string, post: seq<string>)
    requires pre == ["dr"] ==> post != []
    ensures pre != [] && (pre + [ord] + post)[0] == "dr" ==> |pre + [ord] + post| > 2
  {
    if |pre| == 1 {
      assert pre == [pre[0]];
    }
  }

  lemma PairReplaced(pre: seq<string>, tens: string, ones: string, ord: string, post: seq<string>)
    ensures var a, b := pre + [tens, ones] + post, pre + [ord] + post;
            OneForTwo(a, b, |pre|) && a[|pre|] == tens && a[|pre| + 1] == ones && b[|pre|] == ord
    ensures pre == (pre + [tens, ones] + post)[..|pre|]
  {}

  lemma SplitAtTwo(x: seq<string>, p: nat)
    requires p + 1 < |x|
    ensures x == x[..p] + [x[p], x[p + 1]] + x[p + 2..]
  {}

  lemma SplitAtOne(x: seq<string>, p: nat)
    requires p < |x|
    ensures x == x[..p] + [x[p]] + x[p + 1..]
  {}

  /** A word that the first step leaves alone, and no compass word. */
  ghost predicate IsPlainWord(v: Vocabulary, w: string) {
    Lower(w) == w && v.abbreviation(w).None? && w != "st" && w != "dr" && !v.isDirectional(w)
  }

  lemma NumeralIsPlain(v: Vocabulary, w: string)
    requires Consistent(v) && Lower(w) == w
    requires v.tens(w) > 0 || v.ordinalWord(w) > 0 || IsName(v, w)
    ensures IsPlainWord(v, w)
  {
    assert v.place("st").Some? && IsPlaceWord(v, "st");
    assert v.abbreviation("dr").Some?;
  }

  /** `b` is `a` with one word in place of those at `p` and `p + 1`. */
  ghost predicate OneForTwo(a: seq<string>, b: seq<string>, p: nat) {
    && p < |b| && |a| == |b| + 1
    && (forall k: nat :: k < p ==> b[k] == a[k])
    && (forall k: nat :: p < k < |b| ==> b[k] == a[k + 1])
  }

  lemma ShorterNamed(v: Vocabulary, a: seq<string>, b: seq<string>, p: nat)
    requires OneForTwo(a, b, p) && !v.isDirectional(Lower(a[p + 1])) && !v.isDirectional(Lower(b[p]))
    ensures NamedLength(v, b) == NamedLength(v, a) - 1
  {
    var n := NamedLength(v, a) - 1;
    assert n > p;
    forall k | n <= k < |b| ensures v.isDirectional(Lower(b[k])) {
      assert b[k] == a[k + 1];
    }
    NamedLengthUnique(v, b, n);
  }

  lemma ExpandedBefore(v: Vocabulary, a: seq<string>, b: seq<string>, p: nat)
    requires OneForTwo(a, b, p) && NamedLength(v, b) == NamedLength(v, a) - 1 > p
    requires p > 0 && a[0] == "dr" ==> |b| > 2
    ensures Expanded(v, b)[..p] == Expanded(v, a)[..p]
  {
    forall k: nat | k < p ensures Expanded(v, b)[k] == Expanded(v, a)[k] {}
  }

  lemma ExpandedBehind(v: Vocabulary, a: seq<string>, b: seq<string>, p: nat)
    requires OneForTwo(a, b, p) && NamedLength(v, b) == NamedLength(v, a) - 1 > p
    ensures Expanded(v, b)[p + 1..] == Expanded(v, a)[p + 2..]
  {
    forall k: nat | p < k < |b| ensures Expanded(v, b)[k] == Expanded(v, a)[k + 1] {
      ExpandedLater(v, a, b, k);
    }
  }

  lemma ExpandedLater(v: Vocabulary, a: seq<string>, b: seq<string>, k: nat)
    requires 0 < k < |b| && k + 1 < |a| && b[k] == a[k + 1] && NamedLength(v, b) == NamedLength(v, a) - 1
    ensures Expanded(v, b)[k] == Expanded(v, a)[k + 1]
  {
    PositionLater(v, a, b, k);
    assert ExpandAt(v, b, k) == ExpandAt(v, a, k + 1);
  }

  lemma PositionLater(v: Vocabulary, a: seq<string>, b: seq<string>, k: nat)
    requires k > 0 && NamedLength(v, b) == NamedLength(v, a) - 1
    ensures StPosition(v, b) == Some(k) <==> StPosition(v, a) == Some(k + 1)
  {}

  /** "thirty seventh" and "37th" are one word; only whether a leading Dr is a Doctor depends on their number. */
  lemma WordsMeetFigures(v: Vocabulary, pre: seq<string>, tens: string, ones: string, post: seq<string>)
    requires Consistent(v) && AllLower(pre + [tens, ones] + post)
    requires v.tens(tens) > 0 && 0 < v.ordinalWord(ones) < 10 && (pre == ["dr"] ==> post != [])
    ensures Tokenized(v, pre + [Ordinal(v.tens(tens) + v.ordinalWord(ones))] + post)
            == Tokenized(v, pre + [tens, ones] + post)
  {
    var ord := Ordinal(v.tens(tens) + v.ordinalWord(ones));
    var a, b := pre + [tens, ones] + post, pre + [ord] + post;
    assert Lower(a[|pre|]) == a[|pre|] == tens && Lower(a[|pre| + 1]) == a[|pre| + 1] == ones;
    NumeralIsPlain(v, tens);
    NumeralIsPlain(v, ones);
    OrdinalIsPlain(v, v.tens(tens) + v.ordinalWord(ones));
    forall k | 0 <= k < |b| ensures Lower(b[k]) == b[k] {
      assert k < |pre| ==> b[k] == a[k];
      assert k > |pre| ==> b[k] == a[k + 1];
    }
    ExpandedAround(v, pre, tens, ones, ord, post);
    TokensOfExpanded(v, a);
    TokensOfExpanded(v, b);
    var x := Expanded(v, a);
    CompoundIsOneOrdinal(v, x[..|pre|], tens, ones, x[|pre| + 2..]);
  }

  /** A word that is written as an ordinal and that ordinal come to the same. */
  lemma WrittenEitherWay(v: Vocabulary, front: seq<string>, w: string, n: nat, rest: seq<string>)
    requires Consistent(v) && n < U32_LIMIT && !v.isStreetType(w)
    requires OrdinalOr(v, w, NextWord(front + [w] + rest, |front|), front == []) == Ordinal(n)
    ensures Ordinals(v, front + [w] + rest, true) == Ordinals(v, front + [Ordinal(n)] + rest, true)
  {
    var a, b := front + [w] + rest, front + [Ordinal(n)] + rest;
    OrdinalIsName(v, n);
    OrdinalReadsBack(n);
    forall k: nat | k < |a| ensures OrdinalAt(v, a, k, true) == OrdinalAt(v, b, k, true) {
      if k != |front| {
        SameBeside(v, a, b, |front|, k);
      }
    }
    assert Ordinals(v, a, true) == Ordinals(v, b, true);
  }

  lemma SameBeside(v: Vocabulary, a: seq<string>, b: seq<string>, i: nat, k: nat)
    requires i < |a| == |b| && k < |a| && k != i && forall j: nat :: j < |a| && j != i ==> a[j] == b[j]
    requires !v.isStreetType(a[i]) && !v.isStreetType(b[i])
    ensures OrdinalAt(v, a, k, true) == OrdinalAt(v, b, k, true)
  {}

  /** An ordinal word that no word for tens precedes is its number: "seventh" and "7th" are one word. */
  lemma OrdinalWordMeetsFigure(v: Vocabulary, words: seq<string>, i: nat)
    requires Consistent(v) && AllLower(words) && i < |words| && v.ordinalWord(words[i]) > 0
    requires i == 0 || v.tens(words[i - 1]) == 0
    ensures Tokenized(v, words[i := Ordinal(v.ordinalWord(words[i]))]) == Tokenized(v, words)
  {
    var n := v.ordinalWord(words[i]);
    NumeralIsPlain(v, words[i]);
    FigureStands(v, words, i, n);
  }

  /** A number with a word before it and a street type behind it is an ordinal: "east 7 street". */
  lemma NumberMeetsOrdinal(v: Vocabulary, words: seq<string>, i: nat, n: nat)
    requires Consistent(v) && AllLower(words) && 0 < i < |words| - 1
    requires AllDigits(words[i]) && ParseU32(words[i]) == Some(n) && v.isStreetType(Expanded(v, words)[i + 1])
    ensures Tokenized(v, words[i := Ordinal(n)]) == Tokenized(v, words)
  {
    NumberIsName(v, words[i]);
    NumeralIsPlain(v, words[i]);
    FigureStands(v, words, i, n);
  }

  lemma FigureStands(v: Vocabulary, words: seq<string>, i: nat, n: nat)
    requires Consistent(v) && AllLower(words) && i < |words| && n < U32_LIMIT && IsPlainWord(v, words[i])
    requires || (v.ordinalWord(words[i]) == n > 0 && (i == 0 || v.tens(words[i - 1]) == 0))
             || (AllDigits(words[i]) && ParseU32(words[i]) == Some(n) && 0 < i < |words| - 1
                 && v.isStreetType(Expanded(v, words)[i + 1]))
    ensures Tokenized(v, words[i := Ordinal(n)]) == Tokenized(v, words)
  {
    OrdinalIsPlain(v, n);
    OtherWordsStay(v, words, i, Ordinal(n));
    assert Expanded(v, words[i := Ordinal(n)]) == Expanded(v, words)[i := Ordinal(n)];
    if i > 0 {
      StaysNoTens(v, words, i - 1);
    }
    TokensOfExpanded(v, words);
    TokensOfExpanded(v, words[i := Ordinal(n)]);
    FigureStandsExpanded(v, Expanded(v, words), i, n);
  }

  lemma OrdinalIsPlain(v: Vocabulary, n: nat)
    requires Consistent(v)
    ensures IsPlainWord(v, Ordinal(n))
  {
    OrdinalIsName(v, n);
    NumeralIsPlain(v, Ordinal(n));
  }

  lemma NumberIsName(v: Vocabulary, w: string)
    requires Consistent(v)
    ensures AllDigits(w) && w != "" ==> IsName(v, w)
  {
    assert AllDigits(w) && w != "" ==> StartsWithDigit(w);
  }

  lemma StaysNoTens(v: Vocabulary, words: seq<string>, i: nat)
    requires Consistent(v) && AllLower(words) && i < |words|
    ensures v.tens(words[i]) == 0 ==> v.tens(Expanded(v, words)[i]) == 0
  {
    ExpandAtKeeps(v, words, i);
    assert IsFullForm(v, "street");
  }

  lemma SplitAtChanged(x: seq<string>, i: nat, w: string)
    requires i < |x|
    ensures x[i := w] == x[..i] + [w] + x[i + 1..]
  {}

  /** Neither the word nor its ordinal is merged with another word. */
  lemma FigureMergesNothing(v: Vocabulary, x: seq<string>, i: nat, n: nat)
    requires Consistent(v) && i < |x| && Lower(x[i]) == x[i] && v.tens(x[i]) == 0
    requires i == 0 || v.tens(Lower(x[i - 1])) == 0 || Ones(v, x[i]) == 0
    ensures Compound(v, x) == Compound(v, x[..i]) + [x[i]] + Compound(v, x[i + 1..])
    ensures Compound(v, x[i := Ordinal(n)]) == Compound(v, x[..i]) + [Ordinal(n)] + Compound(v, x[i + 1..])
  {
    SplitAtOne(x, i);
    SplitAtChanged(x, i, Ordinal(n));
    OrdinalIsName(v, n);
    StandsAlone(v, x[..i], x[i], x[i + 1..]);
    StandsAlone(v, x[..i], Ordinal(n), x[i + 1..]);
  }

  lemma FigureStandsExpanded(v: Vocabulary, x: seq<string>, i: nat, n: nat)
    requires Consistent(v) && AllLower(x) && i < |x| && n < U32_LIMIT
    requires || (v.ordinalWord(x[i]) == n > 0 && (i == 0 || v.tens(x[i - 1]) == 0))
             || (AllDigits(x[i]) && ParseU32(x[i]) == Some(n) && 0 < i < |x| - 1 && v.isStreetType(x[i + 1]))
    ensures Ordinals(v, Compound(v, x), true) == Ordinals(v, Compound(v, x[i := Ordinal(n)]), true)
  {
    var a, w, b := Compound(v, x[..i]), x[i], Compound(v, x[i + 1..]);
    assert Lower(w) == w && (i > 0 ==> Lower(x[i - 1]) == x[i - 1]);
    NumberIsName(v, w);
    FigureMergesNothing(v, x, i, n);
    if v.ordinalWord(w) == 0 {
      CompoundNonempty(v, x[..i]);
      CompoundSecond(v, x[i + 1..]);
      DigitsAreNoOrdinal(w);
      assert (a + [w] + b)[|a| + 1] == b[0];
    }
    WrittenEitherWay(v, a, w, n, b);
  }

  // --- Dotted initials ---

  /** Letters with a dot after each. */
  function Dotted(letters: string): string {
    if letters == "" then "" else [letters[0], '.'] + Dotted(letters[1..])
  }

  /** The text has these dotted letters at `i`. */
  ghost predicate HasInitials(s: string, i: nat, letters: string)
    requires i <= |s|
  {
    |Dotted(letters)| <= |s| - i && s[i..i + |Dotted(letters)|] == Dotted(letters)
  }

  ghost predicate AreLetters(letters: string) {
    forall k :: 0 <= k < |letters| ==> IsLetter(letters[k])
  }

  lemma {:induction false} InitialsRead(s: string, i: nat, letters: string)
    requires i <= |s| && HasInitials(s, i, letters) && AreLetters(letters)
    ensures DottedLetters(s, i) == letters + DottedLetters(s, i + |Dotted(letters)|)
    ensures DottedEnd(s, i) == DottedEnd(s, i + |Dotted(letters)|)
    decreases |letters|
  {
    if letters != "" {
      var rest := Dotted(letters[1..]);
      assert s[i..i + |Dotted(letters)|][0] == letters[0] && s[i..i + |Dotted(letters)|][1] == '.';
      assert s[i + 2..i + 2 + |rest|] == s[i..i + |Dotted(letters)|][2..] == rest;
      InitialsRead(s, i + 2, letters[1..]);
      assert letters == [letters[0]] + letters[1..];
    }
  }

  /** Where dotted letters end a word, so does the reading of initials: the word is the letters alone. */
  lemma InitialsJoined(s: string, i: nat, letters: string)
    requires i < |s| && HasInitials(s, i, letters) && AreLetters(letters) && |letters| >= 2
    requires i > 0 ==> !IsAlphanumeric(s[i - 1])
    requires var j := i + |Dotted(letters)|; j < |s| ==> !IsAlphanumeric(s[j])
    ensures JoinedFrom(s, i) == letters + JoinedFrom(s, i + |Dotted(letters)|)
  {
    InitialsRead(s, i, letters);
    assert letters + "" == letters;
  }
}
