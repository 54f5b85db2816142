/** Names for which the street-name rewriters do not do what one would wish, with the repository's tables. */
module StreetNameExamples {
  import opened DottedNames
  import opened EnglishTables
  import opened Numerals
  import opened Rewriting
  import opened Spellings
  import opened Text
  import opened Tokens
  import opened TokenSettling
  import opened TokenSymmetry
  import opened Vocabulary
  import opened Wrappers

  /** A name, a word for Saint and a compass word: tokenizing the tokens gives other tokens. */
  lemma SaintUnsettled(v: Vocabulary, name: string, saint: string, compass: string)
    requires Consistent(v) && IsLowerWord(name) && IsLowerWord(saint) && IsLowerWord(compass)
    requires |saint| > 2 && v.place(saint) == Some("st") && v.isDirectional(compass)
    ensures var s := Join([name, saint, compass]);
            QueryTokens(v, Join(QueryTokens(v, s))) != QueryTokens(v, s)
  {
    var words := [name, saint, compass];
    WordsOfJoined(words);
    SaintStands(v, words);
    PlainWords(Join(words));
    TokensSettleExactly(v, Join(words));
  }

  lemma SaintStands(v: Vocabulary, words: seq<string>)
    requires Consistent(v) && |words| == 3 && AllLower(words)
    requires |words[1]| > 2 && v.place(words[1]) == Some("st") && v.isDirectional(words[2])
    ensures SaintAsStreet(v, words)
  {
    assert IsPlaceWord(v, words[1]);
    NamedLengthUnique(v, words, 2);
  }

  /** A number before a street type: the name is indexed as an ordinal and queried as a number. */
  lemma NumberBeforeType(v: Vocabulary, n: string, word: string)
    requires Consistent(v) && n != "" && AllDigits(n) && ParseU32(n).Some?
    requires v.isStreetType(word) && IsFullForm(v, word)
    ensures QueryTokens(v, Join([n, word])) != LowerAll(SplitWhitespace(Phrase(v, Join([n, word]))))
  {
    var words := [n, word];
    assert Lower(n) == n && IsName(v, n);
    WordsOfJoined(words);
    assert Expanded(v, words)[0] == n && Expanded(v, words)[1] == word;
    SidesAgree(v, Join(words));
  }

  lemma EnglishWords()
    ensures ENGLISH.place("saint") == Some("st") && ENGLISH.isDirectional("north") && ENGLISH.isStreetType("street")
  {}

  /** "main saint north", with the repository's tables. */
  lemma SaintBecomesStreet()
    ensures var s := Join(["main", "saint", "north"]);
            QueryTokens(ENGLISH, Join(QueryTokens(ENGLISH, s))) != QueryTokens(ENGLISH, s)
  {
    ShortLowerIsLowerWord("main");
    ShortLowerIsLowerWord("saint");
    ShortLowerIsLowerWord("north");
    EnglishIsConsistent();
    EnglishWords();
    SaintUnsettled(ENGLISH, "main", "saint", "north");
  }

  lemma SevenIsNumber()
    ensures AllDigits("7") && ParseU32("7") == Some(7)
  {
    var s := "7";
    assert s[..0] == "" && ValueOf(s[..0]) == 0;
  }

  /** "7 street", with the repository's tables. */
  lemma HouseNumberOrOrdinal()
    ensures var s := Join(["7", "street"]);
            QueryTokens(ENGLISH, s) != LowerAll(SplitWhitespace(Phrase(ENGLISH, s)))
  {
    EnglishIsConsistent();
    EnglishWords();
    SevenIsNumber();
    assert IsFullForm(ENGLISH, "street");
    NumberBeforeType(ENGLISH, "7", "street");
  }

  lemma ThirtySeven()
    ensures Ordinal(37) == "37th" && ENGLISH.tens("thirty") == 30 && ENGLISH.ordinalWord("seventh") == 7
  {
    assert DigitsOf(37) == DigitsOf(3) + "7" && DigitsOf(3) == "3";
  }

  lemma PairExpanded(v: Vocabulary, tens: string, ones: string)
    requires Consistent(v) && IsPlainWord(v, tens) && IsPlainWord(v, ones)
    ensures Expanded(v, [tens, ones, "st"]) == [tens, ones, "street"]
  {
    var words := [tens, ones, "st"];
    assert IsPlaceWord(v, "st");
    NamedLengthUnique(v, words, 3);
    assert Expanded(v, words)[0] == tens && Expanded(v, words)[1] == ones && Expanded(v, words)[2] == "street";
  }

  lemma OrdinalAndType(v: Vocabulary, n: nat, word: string)
    requires Consistent(v) && n < U32_LIMIT && IsFullForm(v, word)
    ensures PlaceFold(v, Ordinals(v, [Ordinal(n), word], true)) == [Ordinal(n), word]
  {
    var y := [Ordinal(n), word];
    OrdinalIsName(v, n);
    OrdinalReadsBack(n);
    OnlyNumbersBecomeOrdinals(v, word, NextWord(y, 1), false);
    assert OrdinalAt(v, y, 0, true) == Ordinal(n) && OrdinalAt(v, y, 1, true) == word;
    assert Ordinals(v, y, true) == y;
  }

  lemma PairMerged(v: Vocabulary, tens: string, ones: string, last: string)
    requires Lower(tens) == tens && Lower(ones) == ones && v.tens(tens) > 0 && 0 < v.ordinalWord(ones) < 10
    ensures Compound(v, [tens, ones, last]) == [Ordinal(v.tens(tens) + v.ordinalWord(ones)), last]
  {
    assert [tens, ones, last][2..] == [last] && Compound(v, [last]) == [last];
  }

  lemma PairTokens(v: Vocabulary, words: seq<string>, tens: string, ones: string, last: string)
    requires Consistent(v) && AllLower(words) && Expanded(v, words) == [tens, ones, last] && IsFullForm(v, last)
    requires Lower(tens) == tens && Lower(ones) == ones && v.tens(tens) > 0 && 0 < v.ordinalWord(ones) < 10
    ensures Tokenized(v, words) == [Ordinal(v.tens(tens) + v.ordinalWord(ones)), last]
  {
    TokensOfExpanded(v, words);
    PairMerged(v, tens, ones, last);
    OrdinalAndType(v, v.tens(tens) + v.ordinalWord(ones), last);
  }

  lemma PairArePlain(v: Vocabulary, tens: string, ones: string)
    requires Consistent(v) && IsLowerWord(tens) && IsLowerWord(ones) && v.tens(tens) > 0 && v.ordinalWord(ones) > 0
    ensures IsPlainWord(v, tens) && IsPlainWord(v, ones) && !AllDigits(tens) && IsFullForm(v, "street")
    ensures AllLower([tens, ones, "st"]) && AreWords(IsSeparator, [tens, ones, "st"])
  {
    NumeralIsPlain(v, tens);
    NumeralIsPlain(v, ones);
    assert !IsDigit(tens[0]);
    assert v.place("st").Some? && IsPlaceWord(v, "st");
  }

  /** A compound ordinal before "st": figures and Street on both sides. */
  lemma PairBeforeSt(v: Vocabulary, tens: string, ones: string)
    requires Consistent(v) && IsLowerWord(tens) && IsLowerWord(ones)
    requires v.tens(tens) > 0 && 0 < v.ordinalWord(ones) < 10
    ensures var s, figure := Join([tens, ones, "st"]), Ordinal(v.tens(tens) + v.ordinalWord(ones));
            && QueryTokens(v, s) == [figure, "street"]
            && LowerAll(SplitWhitespace(Phrase(v, s))) == [figure, "street"]
  {
    PairArePlain(v, tens, ones);
    PairExpanded(v, tens, ones);
    var words := [tens, ones, "st"];
    PairTokens(v, words, tens, ones, "street");
    BothSides(v, words);
  }

  /** "thirty seventh st", with the repository's tables. */
  lemma ThirtySeventhStreet()
    ensures var s := Join(["thirty", "seventh", "st"]);
            && QueryTokens(ENGLISH, s) == ["37th", "street"]
            && LowerAll(SplitWhitespace(Phrase(ENGLISH, s))) == ["37th", "street"]
  {
    ShortLowerIsLowerWord("thirty");
    ShortLowerIsLowerWord("seventh");
    EnglishIsConsistent();
    ThirtySeven();
    PairBeforeSt(ENGLISH, "thirty", "seventh");
  }

  lemma HyphenatedPieces(a: string, b: string)
    requires IsWord(IsSeparator, a) && IsWord(IsSeparator, b)
    ensures Fields(IsSeparator, a + "-" + b) == [a, b] && SplitWhitespace(a + "-" + b) == [a + "-" + b]
  {
    var s := a + "-" + b;
    assert s == a + ("-" + b) && ("-" + b)[1..] == b;
    FieldsConcat(IsSeparator, a, "-" + b);
    JoinedComeApart(IsSeparator, [a]);
    JoinedComeApart(IsSeparator, [b]);
    JoinedComeApart(IsWhitespace, [s]);
  }

  lemma HyphenatedText(a: string, b: string, s: string)
    requires IsLowerWord(a) && IsLowerWord(b) && s == a + "-" + b
    ensures Lower(s) == s && !StartsWithDigit(s)
    ensures forall k :: 0 <= k < |s| ==> s[k] != '.' && s[k] != ','
  {
    forall k | 0 <= k < |s| ensures s[k] != '.' && s[k] != ',' && LowerChar(s[k]) == s[k] {
      if k < |a| {
        assert s[k] == a[k] == Lower(a)[k];
      } else if k > |a| {
        assert s[k] == b[k - |a| - 1] == Lower(b)[k - |a| - 1];
      }
    }
    assert s[0] == a[0];
  }

  lemma HyphenatedQuery(v: Vocabulary, a: string, b: string, s: string)
    requires IsLowerWord(a) && IsLowerWord(b) && s == a + "-" + b
    ensures QueryTokens(v, s) == Tokenized(v, [a, b])
  {
    HyphenatedText(a, b, s);
    HyphenatedPieces(a, b);
    NoDotsNoChange(s, 0);
    assert s[0..] == s;
    OneComponent(v, s);
  }

  /** A word that the tables do not know is stored as it is. */
  lemma UnknownWordStays(v: Vocabulary, w: string)
    requires SplitWhitespace(w) == [w] && w != "" && !StartsWithDigit(w) && Lower(w) == w
    requires Core(w) == w && TrimEnd(IsDotOrComma, w) == w
    requires v.abbreviation(w).None? && v.ordinalWord(w) == 0
    ensures Phrase(v, w) == w
  {
    assert Keys(IsDot, [w]) == [w] && Keys(IsDotOrComma, [w]) == [w];
    assert NamedLength(v, [w]) <= 1;
    assert PhraseWords(v, [w], [w]) == [w];
    OnlyNumbersBecomeOrdinals(v, w, None, false);
    assert Ordinals(v, [w], false) == [w];
  }

  lemma NothingTrimmed(s: string)
    requires s != "" && s[|s| - 1] != '.' && s[|s| - 1] != ','
    ensures Core(s) == s && TrimEnd(IsDotOrComma, s) == s
  {}

  /** What the first step makes of two words. */
  lemma TwoExpanded(v: Vocabulary, a: string, b: string)
    requires Consistent(v) && IsLowerWord(a) && IsLowerWord(b)
    ensures var x := Expanded(v, [a, b]);
            && x[0] == Expand(v, a) && AllLower(x)
            && x[1] == if b == "st" then "street" else Expand(v, b)
  {
    var words := [a, b];
    var x := Expanded(v, words);
    assert v.place("st").Some? && IsPlaceWord(v, "st");
    if b == "st" {
      NamedLengthUnique(v, words, 2);
    }
    forall i: nat | i < 2 ensures Lower(x[i]) == x[i] {
      ExpandedWord(v, words, i);
    }
  }

  /** What the other steps make of two words that are no numbers, or of which one is. */
  lemma TwoTokens(v: Vocabulary, x: seq<string>)
    requires Consistent(v) && |x| == 2 && AllLower(x) && !StartsWithDigit(x[0]) && !StartsWithDigit(x[1])
    ensures var t := PlaceFold(v, Ordinals(v, Compound(v, x), true));
            t == x <==> Fold(v, x[0]) == x[0] && v.ordinalWord(x[0]) == 0 && v.ordinalWord(x[1]) == 0
  {
    if IsCompound(v, x[0], x[1]) {
      assert Compound(v, x) == [Merged(v, x[0], x[1])];
    } else {
      assert x[1..] == [x[1]] && Compound(v, [x[1]]) == [x[1]];
      assert Compound(v, x) == [x[0], x[1]] == x;
      TwoOrdinals(v, x);
    }
  }

  lemma TwoOrdinals(v: Vocabulary, x: seq<string>)
    requires Consistent(v) && |x| == 2 && AllLower(x) && !StartsWithDigit(x[0]) && !StartsWithDigit(x[1])
    ensures var t := PlaceFold(v, Ordinals(v, x, true));
            t == x <==> Fold(v, x[0]) == x[0] && v.ordinalWord(x[0]) == 0 && v.ordinalWord(x[1]) == 0
  {
    var o := Ordinals(v, x, true);
    forall i: nat | i < 2 ensures o[i] == if v.ordinalWord(x[i]) == 0 then x[i] else Ordinal(v.ordinalWord(x[i])) {
      if v.ordinalWord(x[i]) == 0 {
        OnlyNumbersBecomeOrdinals(v, x[i], NextWord(x, i), i == 0);
      }
      assert o[i] == OrdinalAt(v, x, i, true);
    }
    forall i: nat | i < 2 && v.ordinalWord(x[i]) > 0 ensures o[i] != x[i] && Fold(v, o[i]) == o[i] {
      OrdinalForm(v.ordinalWord(x[i]));
      OrdinalIsName(v, v.ordinalWord(x[i]));
    }
    assert PlaceFold(v, o) == [Fold(v, o[0]), o[1]];
    assert x == [x[0], x[1]];
  }

  /** A full form is still there in the end. */
  lemma FullFormStays(v: Vocabulary, x: seq<string>, i: nat)
    requires Consistent(v) && |x| == 2 && AllLower(x) && i < 2 && IsFullForm(v, x[i])
    ensures var t := PlaceFold(v, Ordinals(v, Compound(v, x), true)); |t| == 2 && t[i] == x[i]
  {
    assert Lower(x[i]) == x[i] && !IsCompound(v, x[0], x[1]);
    assert x[1..] == [x[1]] && Compound(v, [x[1]]) == [x[1]] && x == [x[0], x[1]];
    assert Compound(v, x) == x;
    OnlyNumbersBecomeOrdinals(v, x[i], NextWord(x, i), i == 0);
    assert Ordinals(v, x, true)[i] == OrdinalAt(v, x, i, true);
  }

  /** No step of the query side has anything to do to these two words. */
  ghost predicate Untouched(v: Vocabulary, a: string, b: string) {
    && v.abbreviation(a).None? && v.abbreviation(b).None? && Fold(v, a) == a
    && v.ordinalWord(a) == 0 && v.ordinalWord(b) == 0 && b != "st"
  }

  lemma TwoWordsStay(v: Vocabulary, a: string, b: string)
    requires Consistent(v) && IsLowerWord(a) && IsLowerWord(b)
    ensures Tokenized(v, [a, b]) == [a, b] <==> Untouched(v, a, b)
  {
    var x := Expanded(v, [a, b]);
    StreetEitherWay(v, [a, b]);
    TwoExpanded(v, a, b);
    if v.abbreviation(a).Some? {
      assert IsFullForm(v, x[0]) && x[0] != a;
      FullFormStays(v, x, 0);
    } else if v.abbreviation(b).Some? || b == "st" {
      assert IsFullForm(v, x[1]) && x[1] != b;
      FullFormStays(v, x, 1);
    } else {
      assert x == [a, b];
      TwoTokens(v, x);
    }
  }

  lemma HyphenatedPhrase(v: Vocabulary, a: string, b: string, s: string)
    requires IsLowerWord(a) && IsLowerWord(b) && s == a + "-" + b
    requires v.abbreviation(s).None? && v.ordinalWord(s) == 0
    ensures Fields(IsSeparator, Lower(Phrase(v, s))) == [a, b]
  {
    HyphenatedText(a, b, s);
    HyphenatedPieces(a, b);
    NothingTrimmed(s);
    UnknownWordStays(v, s);
  }

  /**
   Two words with a hyphen between them, of which the tables do not know the whole.  It is stored as
   it is, while the query side sees the two words; so the sides agree exactly if these are left alone.
   */
  lemma HyphenAgreesExactly(v: Vocabulary, a: string, b: string, s: string)
    requires Consistent(v) && IsLowerWord(a) && IsLowerWord(b) && s == a + "-" + b
    requires v.abbreviation(s).None? && v.ordinalWord(s) == 0
    ensures QueryTokens(v, s) == Fields(IsSeparator, Lower(Phrase(v, s))) <==> Untouched(v, a, b)
  {
    HyphenatedQuery(v, a, b, s);
    HyphenatedPhrase(v, a, b, s);
    TwoWordsStay(v, a, b);
  }

  /**
   A hyphen hides a place word from the index side only: "saint-denis" is stored with "saint" and
   queried with "st".
   */
  lemma HyphenHidesPlace(v: Vocabulary, a: string, b: string, s: string)
    requires Consistent(v) && IsLowerWord(a) && IsLowerWord(b) && s == a + "-" + b
    requires v.place(a).Some? && v.place(a).value != a && v.abbreviation(s).None? && v.ordinalWord(s) == 0
    ensures QueryTokens(v, s) != Fields(IsSeparator, Lower(Phrase(v, s)))
  {
    HyphenAgreesExactly(v, a, b, s);
  }
}
