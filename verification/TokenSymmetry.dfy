/** The query side and the index side bring a street name to the same words. */
module TokenSymmetry {
  import opened Numerals
  import opened Rewriting
  import opened Text
  import opened Tokens
  import opened Vocabulary

  // --- Lower-case words ---

  lemma ExpandAtKeeps(v: Vocabulary, words: seq<string>, i: nat)
    requires Consistent(v) && i < |words| && Lower(words[i]) == words[i]
    ensures Lower(ExpandAt(v, words, i)) == ExpandAt(v, words, i)
    ensures v.isDirectional(ExpandAt(v, words, i)) == v.isDirectional(words[i])
    ensures ExpandAt(v, words, i) == "st" <==> words[i] == "st"
    ensures ExpandAt(v, words, i) != words[i] ==> IsFullForm(v, ExpandAt(v, words, i)) && v.abbreviation(words[i]).Some?
  {
    var w := words[i];
    assert v.abbreviation(w).Some? ==> IsFullForm(v, v.abbreviation(w).value);
  }

  lemma ExpandKeepsPosition(v: Vocabulary, words: seq<string>)
    requires Consistent(v) && AllLower(words)
    ensures StPosition(v, ExpandEach(v, words)) == StPosition(v, words)
  {
    forall i: nat | i < |words|
      ensures v.isDirectional(Lower(ExpandAt(v, words, i))) == v.isDirectional(Lower(words[i]))
    {
      ExpandAtKeeps(v, words, i);
    }
    NamedLengthUnique(v, ExpandEach(v, words), NamedLength(v, words));
  }

  /** The two ways to put Street for "st" come to the same. */
  lemma StreetEitherWay(v: Vocabulary, words: seq<string>)
    requires Consistent(v) && AllLower(words)
    ensures WithStreet(v, ExpandEach(v, words)) == Expanded(v, words)
  {
    ExpandKeepsPosition(v, words);
    var each, at := ExpandEach(v, words), StPosition(v, words);
    if at.Some? {
      ExpandAtKeeps(v, words, at.value);
    }
    forall i: nat | i < |words| ensures WithStreet(v, each)[i] == Expanded(v, words)[i] {}
  }

  lemma ExpandedWord(v: Vocabulary, words: seq<string>, i: nat)
    requires Consistent(v) && AllLower(words) && i < |words|
    ensures Lower(Expanded(v, words)[i]) == Expanded(v, words)[i]
  {
    ExpandAtKeeps(v, words, i);
  }

  /** The phrase rewriter folds place words while it expands; the tokenizer folds them later. */
  lemma PhraseIsFolded(v: Vocabulary, words: seq<string>)
    requires Consistent(v) && AllLower(words)
    ensures PhraseWords(v, words, words) == PlaceFold(v, Expanded(v, words))
  {
    forall i: nat | i < |words| ensures PhraseWord(v, words, words, i) == PlaceFold(v, Expanded(v, words))[i] {
      ExpandAtKeeps(v, words, i);
    }
  }

  lemma CompoundIgnoresCase(v: Vocabulary, a: string, b: string)
    ensures IsCompound(v, Lower(a), Lower(b)) == IsCompound(v, a, b)
    ensures Merged(v, Lower(a), Lower(b)) == Merged(v, a, b) && Lower(Merged(v, a, b)) == Merged(v, a, b)
  {
    LowerTwice(a);
    LowerTwice(b);
    OrdinalForm(v.tens(Lower(a)) + Ones(v, Lower(b)));
  }

  lemma {:induction false} CompoundLower(v: Vocabulary, words: seq<string>)
    ensures LowerAll(Compound(v, words)) == Compound(v, LowerAll(words))
    decreases |words|
  {
    if |words| >= 2 {
      var low := LowerAll(words);
      CompoundIgnoresCase(v, words[0], words[1]);
      if IsCompound(v, words[0], words[1]) {
        CompoundLower(v, words[2..]);
        assert low[2..] == LowerAll(words[2..]);
      } else {
        CompoundLower(v, words[1..]);
        assert low[1..] == LowerAll(words[1..]);
      }
    }
  }

  /** Merging compounds does not change whether a number and a street type come first. */
  lemma CompoundKeepsLead(v: Vocabulary, x: seq<string>)
    requires Consistent(v) && AllLower(x)
    ensures LeadsWithNumber(v, Compound(v, x)) <==> LeadsWithNumber(v, x)
  {
    if |x| >= 2 {
      if IsCompound(v, x[0], x[1]) {
        var n := v.tens(Lower(x[0])) + Ones(v, Lower(x[1]));
        OrdinalForm(n);
        assert AllDigits(x[0]) && x[0] != "" ==> IsName(v, x[0]);
      } else {
        CompoundSecond(v, x[1..]);
      }
    }
  }

  lemma CompoundSecond(v: Vocabulary, x: seq<string>)
    requires Consistent(v) && AllLower(x) && x != []
    ensures Compound(v, x) != [] && v.isStreetType(Compound(v, x)[0]) == v.isStreetType(x[0])
  {
    if |x| >= 2 && IsCompound(v, x[0], x[1]) {
      OrdinalIsName(v, v.tens(x[0]) + Ones(v, x[1]));
    }
  }

  lemma FoldedAgree(v: Vocabulary, y: seq<string>, asQuery: seq<string>, asName: seq<string>)
    requires Consistent(v) && AllLower(y) && asQuery == Ordinals(v, y, true) && asName == Ordinals(v, y, false)
    ensures PlaceFold(v, asQuery) == PlaceFold(v, asName) <==> !LeadsWithNumber(v, y)
  {
    HouseNumberMatters(v, y);
    if LeadsWithNumber(v, y) {
      FirstOrdinal(v, y);
      assert StartsWithDigit(y[0]);
      FoldIsNoNumeral(v, y[0]);
      OrdinalIsName(v, ValueOf(y[0]));
      assert PlaceFold(v, asQuery)[0] != PlaceFold(v, asName)[0];
    }
  }

  /** For lower-case words: the two sides agree unless a house number may stand before a street type. */
  lemma WordsAgree(v: Vocabulary, words: seq<string>)
    requires Consistent(v) && AllLower(words)
    ensures PlaceFold(v, PartTokens(v, words)) == Ordinals(v, Compound(v, PhraseWords(v, words, words)), false)
            <==> !LeadsWithNumber(v, Expanded(v, words))
  {
    var x := Expanded(v, words);
    forall i: nat | i < |x| ensures Lower(x[i]) == x[i] {
      ExpandedWord(v, words, i);
    }
    StreetEitherWay(v, words);
    PhraseIsFolded(v, words);
    CompoundThenFold(v, x);
    CompoundLower(v, x);
    assert LowerAll(x) == x;
    var y := Compound(v, x);
    assert LowerAll(y) == y;
    OrdinalsThenFold(v, y, false);
    FoldedAgree(v, y, Ordinals(v, y, true), Ordinals(v, y, false));
    CompoundKeepsLead(v, x);
  }

  // --- Text ---

  /** Where `sep` cuts as white space does, the words hold no separators. */
  lemma WordsWithout(sep: char -> bool, s: string)
    requires forall i :: 0 <= i < |s| ==> sep(s[i]) == IsWhitespace(s[i])
    ensures AreWords(sep, SplitWhitespace(s))
  {
    FieldsAgree(IsWhitespace, sep, c => c, s, s);
    var a, b := SplitWhitespace(s), Fields(sep, s);
    forall k | 0 <= k < |a| ensures a[k] == b[k] {
      assert |a[k]| == |b[k]|;
    }
    FieldsAreWords(sep, s);
  }

  lemma NothingToTrim(p: char -> bool, words: seq<string>)
    requires p == IsDot || p == IsDotOrComma
    requires AreWords(IsSeparator, words)
    ensures Keys(p, words) == LowerAll(words)
  {
    forall i | 0 <= i < |words| ensures TrimEnd(p, words[i]) == words[i] {
      assert IsWord(IsSeparator, words[i]);
    }
  }

  lemma SplitJoined(words: seq<string>)
    requires AreWords(IsSeparator, words)
    ensures SplitWhitespace(Join(words)) == words
  {
    forall i | 0 <= i < |words| ensures IsWord(IsWhitespace, words[i]) {
      assert IsWord(IsSeparator, words[i]);
    }
    JoinedComeApart(IsWhitespace, words);
  }

  lemma PhraseWordIsWord(v: Vocabulary, words: seq<string>, i: nat)
    requires Consistent(v) && AreWords(IsSeparator, words) && i < |words|
    ensures var low := LowerAll(words);
            && IsWord(IsSeparator, PhraseWord(v, words, low, i))
            && Lower(PhraseWord(v, words, low, i)) == PhraseWord(v, low, low, i)
  {
    var low := LowerAll(words);
    var key := low[i];
    assert v.abbreviation(key).Some? ==> IsFullForm(v, v.abbreviation(key).value);
    assert v.place(key).Some? ==> IsPlaceWord(v, v.place(key).value);
    assert IsWord(IsSeparator, words[i]) && IsFullForm(v, "street") && IsFullForm(v, "doctor");
  }

  lemma PhraseWordsLower(v: Vocabulary, words: seq<string>)
    requires Consistent(v) && AreWords(IsSeparator, words)
    ensures AreWords(IsSeparator, PhraseWords(v, words, LowerAll(words)))
    ensures LowerAll(PhraseWords(v, words, LowerAll(words))) == PhraseWords(v, LowerAll(words), LowerAll(words))
  {
    forall i: nat | i < |words|
      ensures IsWord(IsSeparator, PhraseWord(v, words, LowerAll(words), i))
      ensures Lower(PhraseWord(v, words, LowerAll(words), i)) == PhraseWord(v, LowerAll(words), LowerAll(words), i)
    {
      PhraseWordIsWord(v, words, i);
    }
  }

  lemma {:induction false} CompoundWords(v: Vocabulary, words: seq<string>)
    requires AreWords(IsSeparator, words)
    ensures AreWords(IsSeparator, Compound(v, words))
    ensures |Compound(v, words)| <= |words| && (|Compound(v, words)| == |words| ==> Compound(v, words) == words)
    decreases |words|
  {
    if |words| >= 2 {
      if IsCompound(v, words[0], words[1]) {
        CompoundWords(v, words[2..]);
        OrdinalForm(v.tens(Lower(words[0])) + Ones(v, Lower(words[1])));
      } else {
        CompoundWords(v, words[1..]);
        assert words == [words[0]] + words[1..];
      }
    }
  }

  lemma UpdatedWords(v: Vocabulary, words: seq<string>, after: seq<string>)
    requires AreWords(IsSeparator, words) && after == Ordinals(v, LowerAll(words), false)
    ensures AreWords(IsSeparator, Updated(words, LowerAll(words), after))
    ensures LowerAll(Updated(words, LowerAll(words), after)) == after
  {
    var low := LowerAll(words);
    forall i: nat | i < |words|
      ensures IsWord(IsSeparator, Updated(words, low, after)[i]) && Lower(Updated(words, low, after)[i]) == after[i]
    {
      assert IsWord(IsSeparator, words[i]);
      var n := OrdinalValue(v, low[i], NextWord(low, i), false);
      if n.Some? {
        OrdinalForm(n.value);
      }
    }
  }

  /** The words the index side stores for plain text, in lower case. */
  lemma PhraseTokens(v: Vocabulary, s: string)
    requires Consistent(v) && IsPlain(s)
    ensures var low := LowerAll(SplitWhitespace(s));
            LowerAll(SplitWhitespace(Phrase(v, s))) == Ordinals(v, Compound(v, PhraseWords(v, low, low)), false)
  {
    var words := SplitWhitespace(s);
    if words != [] {
      WordsWithout(IsSeparator, s);
      NothingToTrim(IsDot, words);
      PhraseWordsLower(v, words);
      OrdinalPhraseTokens(v, PhraseWords(v, words, LowerAll(words)));
    }
  }

  lemma OrdinalPhraseTokens(v: Vocabulary, words: seq<string>)
    requires AreWords(IsSeparator, words)
    ensures LowerAll(SplitWhitespace(OrdinalPhrase(v, Join(words)))) == Ordinals(v, Compound(v, LowerAll(words)), false)
  {
    SplitJoined(words);
    CompoundWords(v, words);
    CompoundLower(v, words);
    var merged := Compound(v, words);
    NothingToTrim(IsDotOrComma, merged);
    var after := Ordinals(v, LowerAll(merged), false);
    UpdatedWords(v, merged, after);
    SplitJoined(Updated(merged, LowerAll(merged), after));
  }

  lemma PlainTokens(v: Vocabulary, s: string)
    requires IsPlain(s)
    ensures QueryTokens(v, s) == PlaceFold(v, PartTokens(v, LowerAll(SplitWhitespace(s))))
  {
    NoDotsNoChange(Lower(s), 0);
    assert Lower(s)[0..] == Lower(s);
    OnePart(Lower(s));
    SameWords(s);
    OnePartTokens(v, Lower(s));
  }

  lemma OnePartTokens(v: Vocabulary, part: string)
    ensures AllPartTokens(v, [part]) == PartTokens(v, Fields(IsSeparator, part))
  {
    assert [part][..0] == [];
    assert AllPartTokens(v, []) == [];
  }

  lemma {:induction false} OnePart(s: string)
    requires forall i :: 0 <= i < |s| ==> s[i] != ','
    ensures SplitCommas(s) == [s]
  {
    if s != "" {
      OnePart(s[1..]);
      assert s == [s[0]] + s[1..];
    }
  }

  /**
   Index and query meet.  For every text of letters, digits and white space the tokens of a query
   are the words that the index stores for that text, unless it starts with a number, of at most
   32 bits, before a street type: that number is a house number in a query, "7 Street", and an
   ordinal in a name.  In exactly those texts the two differ.
   */
  lemma SidesAgree(v: Vocabulary, s: string)
    requires Consistent(v) && IsPlain(s)
    ensures QueryTokens(v, s) == LowerAll(SplitWhitespace(Phrase(v, s)))
            <==> !LeadsWithNumber(v, Expanded(v, LowerAll(SplitWhitespace(s))))
  {
    PhraseTokens(v, s);
    PlainTokens(v, s);
    var low := LowerAll(SplitWhitespace(s));
    forall i | 0 <= i < |low| ensures Lower(low[i]) == low[i] {
      LowerTwice(SplitWhitespace(s)[i]);
    }
    WordsAgree(v, low);
  }

  predicate IsNoLetter(c: char) {
    !IsLetter(c)
  }

  lemma LettersLead(v: Vocabulary, words: seq<string>)
    requires Consistent(v) && words != [] && AreWords(IsNoLetter, words)
    ensures !AllDigits(Expanded(v, LowerAll(words))[0])
  {
    var low := LowerAll(words);
    var w, x := low[0], Expanded(v, low)[0];
    assert IsWord(IsNoLetter, words[0]) && !IsDigit(w[0]);
    assert v.abbreviation(w).Some? ==> IsFullForm(v, v.abbreviation(w).value);
    assert IsFullForm(v, "street") && IsFullForm(v, "doctor");
    assert x == w || IsFullForm(v, x);
    assert x != "" && !IsDigit(x[0]);
  }

  /** So for text without digits they always agree. */
  lemma LettersAgree(v: Vocabulary, s: string)
    requires Consistent(v) && forall i :: 0 <= i < |s| ==> IsLetter(s[i]) || IsWhitespace(s[i])
    ensures QueryTokens(v, s) == LowerAll(SplitWhitespace(Phrase(v, s)))
  {
    var words := SplitWhitespace(s);
    WordsWithout(IsNoLetter, s);
    if words != [] {
      LettersLead(v, words);
    }
    SidesAgree(v, s);
  }
}
