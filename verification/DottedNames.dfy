/** Agreement of the two sides on names whose words may end in dots: "St. Kilda Rd." */
module DottedNames {
  import opened Numerals
  import opened Rewriting
  import opened Sequences
  import opened Text
  import opened Tokens
  import opened TokenSymmetry
  import opened Vocabulary

  // --- Cutting text twice ---

  lemma {:induction false} FieldsConcat(sep: char -> bool, a: string, b: string)
    requires b == "" || sep(b[0])
    ensures Fields(sep, a + b) == Fields(sep, a) + Fields(sep, b)
    decreases |a|
  {
    if a == "" {
      assert a + b == b;
    } else if sep(a[0]) {
      assert (a + b)[1..] == a[1..] + b;
      FieldsConcat(sep, a[1..], b);
    } else {
      var n, all := RunLength(sep, a), a + b;
      RunAt(sep, a, b, n);
      FieldsConcat(sep, a[n..], b);
      assert Fields(sep, all) == [a[..n]] + Fields(sep, a[n..] + b);
      Associative([a[..n]], Fields(sep, a[n..]), Fields(sep, b));
    }
  }

  lemma RunAt(sep: char -> bool, a: string, b: string, n: nat)
    requires n == RunLength(sep, a) && (b == "" || sep(b[0]))
    ensures RunLength(sep, a + b) == n && (a + b)[..n] == a[..n] && (a + b)[n..] == a[n..] + b
  {
    RunLengthUnique(sep, a + b, n);
  }

  lemma Associative(a: seq<string>, b: seq<string>, c: seq<string>)
    ensures a + (b + c) == (a + b) + c
  {}

  function Pieces(w: string): seq<string> {
    Fields(IsSeparator, w)
  }

  /** Cutting words at separators gives what cutting the whole text does. */
  lemma {:induction false} CutTwice(s: string)
    ensures Fields(IsSeparator, s) == FlatMap(Pieces, SplitWhitespace(s))
    decreases |s|
  {
    if s != "" {
      if IsWhitespace(s[0]) {
        CutTwice(s[1..]);
      } else {
        var n := RunLength(IsWhitespace, s);
        CutTwice(s[n..]);
        assert s == s[..n] + s[n..];
        FieldsConcat(IsSeparator, s[..n], s[n..]);
        FlatMapConcat(Pieces, [s[..n]], SplitWhitespace(s[n..]));
        FlatMapOne(Pieces, s[..n]);
      }
    }
  }

  // --- Words with dots after them ---

  function Core(w: string): string {
    TrimEnd(IsDot, w)
  }

  function Cores(words: seq<string>): (r: seq<string>)
    ensures |r| == |words| && forall i :: 0 <= i < |words| ==> r[i] == Core(words[i])
  {
    seq(|words|, i requires 0 <= i < |words| => Core(words[i]))
  }

  /** Letters and digits, and then perhaps dots. */
  ghost predicate IsDotted(w: string) {
    IsWord(IsSeparator, Core(w))
  }

  ghost predicate AreDotted(words: seq<string>) {
    forall i :: 0 <= i < |words| ==> IsDotted(words[i])
  }

  lemma {:induction false} CoreForm(w: string)
    ensures Core(w) <= w && forall i :: |Core(w)| <= i < |w| ==> w[i] == '.'
    ensures Core(w) == w <==> !EndsInDot(w)
  {
    if w != "" && IsDot(w[|w| - 1]) {
      CoreForm(w[..|w| - 1]);
    }
  }

  /** Such a word falls into one piece, and both ways to trim it give that piece. */
  lemma DottedWord(w: string)
    requires IsDotted(w)
    ensures Fields(IsSeparator, w) == [Core(w)] && TrimEnd(IsDotOrComma, w) == Core(w)
    ensures IsWord(IsWhitespace, w)
  {
    CoreForm(w);
    var core, dots := Core(w), w[|Core(w)|..];
    assert w == core + dots;
    OnlyDots(dots);
    FieldsConcat(IsSeparator, core, dots);
    RunLengthUnique(IsSeparator, core, |core|);
    assert core[..|core|] == core && core[|core|..] == "";
    TrimBoth(w);
  }

  lemma {:induction false} OnlyDots(s: string)
    requires forall i :: 0 <= i < |s| ==> s[i] == '.'
    ensures Fields(IsSeparator, s) == []
  {
    if s != "" {
      OnlyDots(s[1..]);
    }
  }

  lemma {:induction false} TrimBoth(w: string)
    requires IsDotted(w)
    ensures TrimEnd(IsDotOrComma, w) == Core(w)
  {
    if w != "" && IsDot(w[|w| - 1]) {
      TrimBoth(w[..|w| - 1]);
    }
  }

  lemma {:induction false} DottedPieces(words: seq<string>)
    requires AreDotted(words)
    ensures FlatMap(Pieces, words) == Cores(words)
  {
    if words != [] {
      var front, last := words[..|words| - 1], words[|words| - 1];
      DottedPieces(front);
      DottedWord(last);
      assert words == front + [last];
      FlatMapConcat(Pieces, front, [last]);
      FlatMapOne(Pieces, last);
      assert Cores(words) == Cores(front) + [Core(last)];
    }
  }

  /** The pieces of joined words with dots are the words without them. */
  lemma DottedJoined(words: seq<string>)
    requires AreDotted(words)
    ensures SplitWhitespace(Join(words)) == words && Fields(IsSeparator, Lower(Join(words))) == LowerAll(Cores(words))
  {
    forall i | 0 <= i < |words| ensures IsWord(IsWhitespace, words[i]) {
      DottedWord(words[i]);
    }
    JoinedComeApart(IsWhitespace, words);
    LowerPieces(Join(words));
    CutTwice(Join(words));
    DottedPieces(words);
  }

  lemma LowerPieces(s: string)
    ensures Fields(IsSeparator, Lower(s)) == LowerAll(Fields(IsSeparator, s))
  {
    FieldsAgree(IsSeparator, IsSeparator, LowerChar, s, Lower(s));
    var a, b := Fields(IsSeparator, Lower(s)), LowerAll(Fields(IsSeparator, s));
    forall k | 0 <= k < |a| ensures a[k] == b[k] {
      assert |a[k]| == |b[k]|;
    }
  }

  // --- Names ---

  /** Letters, digits and white space, and dots that end a word. */
  predicate IsDottedText(s: string) {
    forall k :: 0 <= k < |s| ==> CharFits(s, k)
  }

  predicate CharFits(s: string, k: nat)
    requires k < |s|
  {
    if s[k] == '.' then k > 0 && !IsWhitespace(s[k - 1]) && (k + 1 < |s| ==> !IsAlphanumeric(s[k + 1]))
    else IsAlphanumeric(s[k]) || IsWhitespace(s[k])
  }

  lemma RestFits(s: string, n: nat)
    requires IsDottedText(s) && n <= |s| && (n < |s| ==> IsWhitespace(s[n]) || (n > 0 && IsWhitespace(s[n - 1])))
    ensures IsDottedText(s[n..])
  {
    var rest := s[n..];
    forall k | 0 <= k < |rest| ensures CharFits(rest, k) {
      assert CharFits(s, n + k);
    }
  }

  /** A run without white space in such a text is letters and digits, then dots. */
  lemma {:induction false} RunIsDotted(s: string, n: nat)
    requires IsDottedText(s) && 0 < n <= |s| && forall i :: 0 <= i < n ==> !IsWhitespace(s[i])
    ensures IsDotted(s[..n]) && (IsAlphanumeric(s[n - 1]) ==> IsWord(IsSeparator, s[..n]))
    decreases n
  {
    assert CharFits(s, n - 1);
    if n > 1 {
      RunIsDotted(s, n - 1);
      assert CharFits(s, n - 2);
      assert s[..n] == s[..n - 1] + [s[n - 1]];
      assert s[..n][..n - 1] == s[..n - 1];
    } else {
      assert s[..1] == [s[0]];
    }
  }

  lemma {:induction false} TextIsDotted(s: string)
    requires IsDottedText(s)
    ensures AreDotted(SplitWhitespace(s))
    decreases |s|
  {
    if s != "" {
      if IsWhitespace(s[0]) {
        RestFits(s, 1);
        TextIsDotted(s[1..]);
      } else {
        var n := RunLength(IsWhitespace, s);
        RestFits(s, n);
        RunIsDotted(s, n);
        TextIsDotted(s[n..]);
      }
    }
  }

  /** Such a text holds no dotted initials. */
  lemma {:induction false} NoInitials(s: string, i: nat)
    requires i <= |s| && forall k :: 0 <= k < |s| - 1 && s[k] == '.' ==> !IsAlphanumeric(s[k + 1])
    ensures JoinedFrom(s, i) == s[i..]
    decreases |s| - i
  {
    if i < |s| {
      NoInitials(s, i + 1);
      if i + 1 < |s| && IsLetter(s[i]) && s[i + 1] == '.' {
        assert i + 2 < |s| ==> !IsLetter(s[i + 2]);
        assert DottedLetters(s, i + 2) == "";
      }
      assert |InitialsAt(s, i).0| <= 1;
    }
  }

  lemma DottedQuery(v: Vocabulary, s: string)
    requires IsDottedText(s)
    ensures AreDotted(SplitWhitespace(s))
    ensures QueryTokens(v, s) == PlaceFold(v, PartTokens(v, LowerAll(Cores(SplitWhitespace(s)))))
  {
    var low := Lower(s);
    forall k | 0 <= k < |s| - 1 && low[k] == '.' ensures !IsAlphanumeric(low[k + 1]) {
      assert CharFits(s, k);
    }
    NoInitials(low, 0);
    assert low[0..] == low;
    forall k | 0 <= k < |low| ensures low[k] != ',' {
      assert CharFits(s, k);
    }
    OnePart(low);
    OnePartTokens(v, low);
    TextIsDotted(s);
    LowerPieces(s);
    CutTwice(s);
    DottedPieces(SplitWhitespace(s));
  }

  // --- Merging words of which some end in dots ---

  /** A word for tens and a word for ones that would be merged, were there no dot after one of them. */
  ghost predicate DottedPair(v: Vocabulary, words: seq<string>, i: nat)
    requires i + 1 < |words|
  {
    IsCompound(v, Core(words[i]), Core(words[i + 1])) && (EndsInDot(words[i]) || EndsInDot(words[i + 1]))
  }

  ghost predicate NoDottedPair(v: Vocabulary, words: seq<string>) {
    forall i: nat :: i + 1 < |words| ==> !DottedPair(v, words, i)
  }

  lemma DotsPreventMerging(v: Vocabulary, a: string, b: string)
    requires Consistent(v)
    ensures IsCompound(v, a, b) <==> IsCompound(v, Core(a), Core(b)) && !EndsInDot(a) && !EndsInDot(b)
  {
    CoreForm(a);
    CoreForm(b);
    assert EndsInDot(a) ==> EndsInDot(Lower(a));
    assert EndsInDot(b) ==> EndsInDot(Lower(b));
  }

  lemma CoresOf(words: seq<string>, n: nat)
    requires n <= |words|
    ensures Cores(words)[n..] == Cores(words[n..])
  {}

  lemma MergedHasNoDot(v: Vocabulary, a: string, b: string)
    ensures Core(Merged(v, a, b)) == Merged(v, a, b) && IsDotted(Merged(v, a, b))
  {
    OrdinalForm(v.tens(Lower(a)) + Ones(v, Lower(b)));
    CoreForm(Merged(v, a, b));
  }

  lemma NoPairAfter(v: Vocabulary, words: seq<string>, n: nat)
    requires n <= |words| && NoDottedPair(v, words)
    ensures NoDottedPair(v, words[n..])
  {
    forall i: nat | i + 1 < |words[n..]| ensures !DottedPair(v, words[n..], i) {
      assert !DottedPair(v, words, n + i);
    }
  }

  lemma MergeFirst(v: Vocabulary, words: seq<string>)
    requires |words| >= 2 && IsCompound(v, words[0], words[1])
    requires Core(words[0]) == words[0] && Core(words[1]) == words[1]
    ensures Compound(v, Cores(words)) == [Merged(v, words[0], words[1])] + Compound(v, Cores(words[2..]))
  {
    CoresOf(words, 2);
  }

  lemma SkipFirst(v: Vocabulary, words: seq<string>)
    requires |words| >= 2 && !IsCompound(v, Core(words[0]), Core(words[1]))
    ensures Compound(v, Cores(words)) == [Core(words[0])] + Compound(v, Cores(words[1..]))
  {
    CoresOf(words, 1);
  }

  lemma CoresCons(w: string, rest: seq<string>)
    ensures Cores([w] + rest) == [Core(w)] + Cores(rest)
    ensures IsDotted(w) && AreDotted(rest) ==> AreDotted([w] + rest)
  {}

  /** Without such pairs dots do not matter. */
  lemma {:induction false} MergingIgnoresDots(v: Vocabulary, words: seq<string>)
    requires Consistent(v) && AreDotted(words) && NoDottedPair(v, words)
    ensures AreDotted(Compound(v, words)) && Cores(Compound(v, words)) == Compound(v, Cores(words))
    decreases |words|
  {
    if |words| >= 2 {
      var a, b := words[0], words[1];
      DotsPreventMerging(v, a, b);
      assert !DottedPair(v, words, 0);
      if IsCompound(v, a, b) {
        CoreForm(a);
        CoreForm(b);
        NoPairAfter(v, words, 2);
        MergingIgnoresDots(v, words[2..]);
        MergeFirst(v, words);
        MergedHasNoDot(v, a, b);
        CoresCons(Merged(v, a, b), Compound(v, words[2..]));
      } else {
        NoPairAfter(v, words, 1);
        MergingIgnoresDots(v, words[1..]);
        SkipFirst(v, words);
        CoresCons(a, Compound(v, words[1..]));
      }
    }
  }

  lemma OnesAreNoTens(v: Vocabulary, a: string, b: string, c: string)
    requires Consistent(v) && IsCompound(v, a, b)
    ensures !IsCompound(v, b, c)
  {}

  lemma NotMergedFirst(v: Vocabulary, words: seq<string>)
    requires words != [] && (|words| >= 2 ==> !IsCompound(v, words[0], words[1]))
    ensures |Compound(v, words)| == 1 + |Compound(v, words[1..])|
  {}

  /** The first two are a pair that a dot keeps apart. */
  lemma PairStaysApart(v: Vocabulary, words: seq<string>)
    requires Consistent(v) && |words| >= 2 && DottedPair(v, words, 0)
    ensures |Compound(v, words)| == 2 + |Compound(v, words[2..])|
    ensures |Compound(v, Cores(words))| == 1 + |Compound(v, Cores(words[2..]))|
  {
    DotsPreventMerging(v, words[0], words[1]);
    NotMergedFirst(v, words);
    if |words| >= 3 {
      OnesAreNoTens(v, Core(words[0]), Core(words[1]), Core(words[2]));
      DotsPreventMerging(v, words[1], words[2]);
    }
    NotMergedFirst(v, words[1..]);
    assert words[1..][1..] == words[2..];
    CoresOf(words, 2);
  }

  /** With such a pair more words are left, and without one as many. */
  lemma {:induction false} DottedPairsStay(v: Vocabulary, words: seq<string>)
    requires Consistent(v)
    ensures |Compound(v, words)| >= |Compound(v, Cores(words))|
    ensures !NoDottedPair(v, words) ==> |Compound(v, words)| > |Compound(v, Cores(words))|
    decreases |words|
  {
    if |words| >= 2 {
      DotsPreventMerging(v, words[0], words[1]);
      if DottedPair(v, words, 0) {
        PairStaysApart(v, words);
        DottedPairsStay(v, words[2..]);
      } else if IsCompound(v, words[0], words[1]) {
        DottedPairsStay(v, words[2..]);
        CoresOf(words, 2);
        PairsLater(v, words, 2);
      } else {
        DottedPairsStay(v, words[1..]);
        CoresOf(words, 1);
        PairsLater(v, words, 1);
      }
    }
  }

  lemma NoPairAtOne(v: Vocabulary, words: seq<string>)
    requires Consistent(v) && |words| >= 3 && IsCompound(v, words[0], words[1])
    ensures !DottedPair(v, words, 1)
  {
    DotsPreventMerging(v, words[0], words[1]);
    OnesAreNoTens(v, Core(words[0]), Core(words[1]), Core(words[2]));
  }

  lemma PairAfter(v: Vocabulary, words: seq<string>, n: nat, i: nat)
    requires n <= i < i + 1 < |words| && NoDottedPair(v, words[n..])
    ensures !DottedPair(v, words, i)
  {
    assert !DottedPair(v, words[n..], i - n);
  }

  lemma PairsLater(v: Vocabulary, words: seq<string>, n: nat)
    requires Consistent(v) && 0 < n <= 2 <= |words| && !DottedPair(v, words, 0)
    requires n == 2 ==> IsCompound(v, words[0], words[1])
    ensures NoDottedPair(v, words[n..]) ==> NoDottedPair(v, words)
  {
    if NoDottedPair(v, words[n..]) {
      forall i: nat | i + 1 < |words| ensures !DottedPair(v, words, i) {
        if i >= n {
          PairAfter(v, words, n, i);
        } else if i == 1 {
          NoPairAtOne(v, words);
        }
      }
    }
  }

  // --- The index side ---

  lemma DotFree(w: string)
    requires IsWord(IsSeparator, w)
    ensures Core(w) == w && IsDotted(w)
  {
    CoreForm(w);
  }

  lemma {:induction false} CompoundDotted(v: Vocabulary, words: seq<string>)
    requires AreDotted(words)
    ensures AreDotted(Compound(v, words))
    ensures |Compound(v, words)| <= |words| && (|Compound(v, words)| == |words| ==> Compound(v, words) == words)
    decreases |words|
  {
    if |words| >= 2 {
      if IsCompound(v, words[0], words[1]) {
        CompoundDotted(v, words[2..]);
        MergedHasNoDot(v, words[0], words[1]);
      } else {
        CompoundDotted(v, words[1..]);
        assert words == [words[0]] + words[1..];
      }
    }
  }

  lemma KeysAreCores(words: seq<string>)
    ensures Keys(IsDot, words) == LowerAll(Cores(words))
    ensures AreDotted(words) ==> Keys(IsDotOrComma, words) == LowerAll(Cores(words))
  {
    if AreDotted(words) {
      forall i | 0 <= i < |words| ensures TrimEnd(IsDotOrComma, words[i]) == Core(words[i]) {
        DottedWord(words[i]);
      }
    }
  }

  /** A word is replaced only if it is no number, and by a lower-case word that is none. */
  lemma ReplacementFits(v: Vocabulary, keys: seq<string>, i: nat)
    requires Consistent(v) && i < |keys| && Replacement(v, keys, i).Some?
    ensures var w := Replacement(v, keys, i).value;
            IsLowerWord(w) && v.tens(w) == v.ordinalWord(w) == v.tens(keys[i]) == v.ordinalWord(keys[i]) == 0
  {
    var key := keys[i];
    assert v.abbreviation(key).Some? ==> IsFullForm(v, v.abbreviation(key).value);
    assert v.place(key).Some? ==> IsPlaceWord(v, key) && IsPlaceWord(v, v.place(key).value);
    assert IsFullForm(v, "street") && IsFullForm(v, "doctor") && IsPlaceWord(v, "st") && v.abbreviation("dr").Some?;
  }

  /** The phrase word `w` is as good as the word `was` when numbers are merged. */
  ghost predicate SameNumeral(v: Vocabulary, w: string, was: string) {
    && v.tens(Lower(Core(w))) == v.tens(Lower(Core(was)))
    && v.ordinalWord(Lower(Core(w))) == v.ordinalWord(Lower(Core(was)))
    && (v.tens(Lower(Core(was))) > 0 || v.ordinalWord(Lower(Core(was))) > 0 ==> w == was)
  }

  lemma DottedPhraseWord(v: Vocabulary, words: seq<string>, low: seq<string>, i: nat)
    requires Consistent(v) && AreDotted(words) && low == LowerAll(Cores(words)) && i < |words|
    ensures var w := PhraseWord(v, words, low, i);
            IsDotted(w) && Lower(Core(w)) == PhraseWord(v, low, low, i) && SameNumeral(v, w, words[i])
  {
    assert IsDotted(words[i]) && low[i] == Lower(Core(words[i]));
    if Replacement(v, low, i).Some? {
      ReplacementFits(v, low, i);
      DotFree(Replacement(v, low, i).value);
    }
  }

  lemma SamePair(v: Vocabulary, words: seq<string>, phrase: seq<string>, i: nat)
    requires i + 1 < |words| == |phrase|
    requires SameNumeral(v, phrase[i], words[i]) && SameNumeral(v, phrase[i + 1], words[i + 1])
    ensures DottedPair(v, phrase, i) <==> DottedPair(v, words, i)
  {}

  lemma DottedPhraseWords(v: Vocabulary, words: seq<string>, low: seq<string>, phrase: seq<string>)
    requires Consistent(v) && AreDotted(words) && low == LowerAll(Cores(words))
    requires phrase == PhraseWords(v, words, low)
    ensures AreDotted(phrase) && LowerAll(Cores(phrase)) == PhraseWords(v, low, low)
    ensures NoDottedPair(v, phrase) <==> NoDottedPair(v, words)
  {
    forall i: nat | i < |words|
      ensures IsDotted(phrase[i]) && Lower(Core(phrase[i])) == PhraseWord(v, low, low, i)
      ensures SameNumeral(v, phrase[i], words[i])
    {
      DottedPhraseWord(v, words, low, i);
    }
    forall i: nat | i + 1 < |words| ensures DottedPair(v, phrase, i) <==> DottedPair(v, words, i) {
      SamePair(v, words, phrase, i);
    }
  }

  lemma DottedUpdated(v: Vocabulary, words: seq<string>, tokens: seq<string>, after: seq<string>)
    requires AreDotted(words) && tokens == LowerAll(Cores(words)) && after == Ordinals(v, tokens, false)
    ensures AreDotted(Updated(words, tokens, after)) && LowerAll(Cores(Updated(words, tokens, after))) == after
  {
    var updated := Updated(words, tokens, after);
    forall i: nat | i < |words| ensures IsDotted(updated[i]) && Lower(Core(updated[i])) == after[i] {
      assert IsDotted(words[i]);
      var n := OrdinalValue(v, tokens[i], NextWord(tokens, i), false);
      if n.Some? {
        OrdinalForm(n.value);
        DotFree(Ordinal(n.value));
      }
    }
  }

  /** The pieces of what the index side stores. */
  lemma DottedOrdinalPhrase(v: Vocabulary, words: seq<string>)
    requires AreDotted(words)
    ensures Fields(IsSeparator, Lower(OrdinalPhrase(v, Join(words))))
            == Ordinals(v, LowerAll(Cores(Compound(v, words))), false)
  {
    DottedJoined(words);
    CompoundDotted(v, words);
    var merged := Compound(v, words);
    KeysAreCores(merged);
    var tokens := LowerAll(Cores(merged));
    var after := Ordinals(v, tokens, false);
    DottedUpdated(v, merged, tokens, after);
    DottedJoined(Updated(merged, tokens, after));
  }

  // --- Agreement ---

  lemma LowerCores(words: seq<string>)
    ensures AllLower(LowerAll(Cores(words)))
  {
    forall i | 0 <= i < |words| ensures Lower(Lower(Core(words[i]))) == Lower(Core(words[i])) {
      LowerTwice(Core(words[i]));
    }
  }

  lemma SameLength(v: Vocabulary, low: seq<string>)
    requires Consistent(v) && AllLower(low)
    ensures |PlaceFold(v, PartTokens(v, low))| == |Compound(v, PhraseWords(v, low, low))|
  {
    var x := Expanded(v, low);
    forall i: nat | i < |x| ensures Lower(x[i]) == x[i] {
      ExpandedWord(v, low, i);
    }
    StreetEitherWay(v, low);
    PhraseIsFolded(v, low);
    CompoundThenFold(v, x);
  }

  /**
   Names whose words may end in dots.  The tokens of the query are the pieces of what the index
   stores, exactly unless a number leads before a street type, or a dot stands at a pair of words
   for a number: "Twenty. First" is one number to the query side and two words to the index side.
   */
  lemma DottedSidesAgree(v: Vocabulary, s: string)
    requires Consistent(v) && IsDottedText(s)
    ensures var words := SplitWhitespace(s);
            QueryTokens(v, s) == Fields(IsSeparator, Lower(Phrase(v, s)))
            <==> !LeadsWithNumber(v, Expanded(v, LowerAll(Cores(words)))) && NoDottedPair(v, words)
  {
    var words := SplitWhitespace(s);
    var low := LowerAll(Cores(words));
    DottedQuery(v, s);
    KeysAreCores(words);
    LowerCores(words);
    if words != [] {
      DottedPhraseWords(v, words, low, PhraseWords(v, words, low));
      DottedOrdinalPhrase(v, PhraseWords(v, words, low));
      DottedWordsAgree(v, words, low, PhraseWords(v, words, low));
    }
  }

  lemma DottedWordsAgree(v: Vocabulary, words: seq<string>, low: seq<string>, phrase: seq<string>)
    requires Consistent(v) && AllLower(low) && AreDotted(phrase) && LowerAll(Cores(phrase)) == PhraseWords(v, low, low)
    requires NoDottedPair(v, phrase) <==> NoDottedPair(v, words)
    ensures PlaceFold(v, PartTokens(v, low)) == Ordinals(v, LowerAll(Cores(Compound(v, phrase))), false)
            <==> !LeadsWithNumber(v, Expanded(v, low)) && NoDottedPair(v, words)
  {
    CompoundLower(v, Cores(phrase));
    if NoDottedPair(v, phrase) {
      MergingIgnoresDots(v, phrase);
      WordsAgree(v, low);
    } else {
      DottedPairsStay(v, phrase);
      SameLength(v, low);
      assert |LowerAll(Compound(v, Cores(phrase)))| == |Compound(v, PhraseWords(v, low, low))|;
    }
  }
}
