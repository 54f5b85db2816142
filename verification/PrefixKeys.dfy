/** The normal form of autocomplete keys, which the builder and the server compute alike. */
module PrefixKeys {
  import opened Bytes
  import opened Text

  // --- Place abbreviations in a key ---

  function FoldedPlace(w: string): string {
    if w == "saint" || w == "sainte" || w == "st" || w == "ste" then "st"
    else if w == "mount" || w == "mt" then "mt"
    else if w == "fort" || w == "ft" then "ft"
    else w
  }

  /** A trailing "st" is Street, any other is Saint; a single word stays. */
  function FoldAt(words: seq<string>, i: nat): string
    requires i < |words|
  {
    if |words| < 2 then words[i]
    else if i < |words| - 1 then FoldedPlace(words[i])
    else if words[i] == "st" then "street"
    else words[i]
  }

  function FoldPlaces(words: seq<string>): (r: seq<string>)
    ensures |r| == |words| && forall i: nat :: i < |words| ==> r[i] == FoldAt(words, i)
  {
    seq(|words|, i requires 0 <= i < |words| => FoldAt(words, i))
  }

  /** The words of a query in lower case. */
  function KeyWords(q: string): seq<string> {
    Fields(IsSeparator, Lower(q))
  }

  /** The normal form: the words, folded, with single spaces. */
  function Key(q: string): string {
    Join(FoldPlaces(KeyWords(q)))
  }

  // --- The loop of `normalise_prefix` ---

  /** Text read so far: its words with single spaces, and one more space after a separator. */
  function Squashed(s: string): string {
    var words := Fields(IsSeparator, s);
    Join(words) + if words != [] && IsSeparator(s[|s| - 1]) then " " else ""
  }

  lemma {:induction false} RunMore(sep: char -> bool, s: string, c: char)
    ensures RunLength(sep, s + [c])
            == if RunLength(sep, s) < |s| || sep(c) then RunLength(sep, s) else |s| + 1
  {
    if s != "" && !sep(s[0]) {
      RunMore(sep, s[1..], c);
      assert (s + [c])[1..] == s[1..] + [c];
    }
  }

  /** What one more character does to the words of a text. */
  ghost predicate GrewBy(sep: char -> bool, s: string, c: char, before: seq<string>, after: seq<string>) {
    if sep(c) then after == before
    else if s == "" || sep(s[|s| - 1]) then after == before + [[c]]
    else before != [] && after == before[..|before| - 1] + [before[|before| - 1] + [c]]
  }

  lemma GrewAfter(
    sep: char -> bool, s: string, t: string, c: char, first: seq<string>, before: seq<string>, after: seq<string>)
    requires GrewBy(sep, t, c, before, after) && t != "" && s != "" && s[|s| - 1] == t[|t| - 1]
    ensures GrewBy(sep, s, c, first + before, first + after)
  {
    if !sep(c) && !sep(s[|s| - 1]) {
      assert (first + before)[..|first + before| - 1] == first + before[..|before| - 1];
    }
  }

  lemma OneRun(sep: char -> bool, s: string)
    requires s != "" && RunLength(sep, s) == |s|
    ensures Fields(sep, s) == [s]
  {
    assert s[|s|..] == "" && s[..|s|] == s;
  }

  lemma OneCharacter(sep: char -> bool, c: char)
    ensures Fields(sep, [c]) == if sep(c) then [] else [[c]]
  {
    assert [c][1..] == "";
    if !sep(c) {
      RunMore(sep, "", c);
      assert "" + [c] == [c];
      OneRun(sep, [c]);
    }
  }

  lemma {:induction false} FieldsMore(sep: char -> bool, s: string, c: char)
    ensures GrewBy(sep, s, c, Fields(sep, s), Fields(sep, s + [c]))
    decreases |s|
  {
    if s == "" {
      OneCharacter(sep, c);
      assert s + [c] == [c];
    } else if sep(s[0]) {
      FieldsMore(sep, s[1..], c);
      assert (s + [c])[1..] == s[1..] + [c];
    } else {
      var n := RunLength(sep, s);
      RunMore(sep, s, c);
      if n < |s| {
        FieldsMore(sep, s[n..], c);
        assert (s + [c])[..n] == s[..n] && (s + [c])[n..] == s[n..] + [c];
        GrewAfter(sep, s, s[n..], c, [s[..n]], Fields(sep, s[n..]), Fields(sep, s[n..] + [c]));
      } else {
        OneRun(sep, s);
        if sep(c) {
          OneCharacter(sep, c);
          assert (s + [c])[..n] == s && (s + [c])[n..] == [c];
        } else {
          OneRun(sep, s + [c]);
        }
      }
    }
  }

  lemma {:induction false} JoinGrows(words: seq<string>, c: char)
    requires words != []
    ensures Join(words[..|words| - 1] + [words[|words| - 1] + [c]]) == Join(words) + [c]
  {
    if |words| > 1 {
      JoinGrows(words[1..], c);
      var longer := words[..|words| - 1] + [words[|words| - 1] + [c]];
      assert longer[1..] == words[1..][..|words| - 2] + [words[1..][|words| - 2] + [c]];
    }
  }

  /** One turn of the loop. */
  lemma SquashedMore(s: string, c: char)
    ensures Squashed(s + [c]) ==
            if !IsSeparator(c) then Squashed(s) + [c]
            else if Squashed(s) == "" || Squashed(s)[|Squashed(s)| - 1] == ' ' then Squashed(s)
            else Squashed(s) + " "
  {
    FieldsMore(IsSeparator, s, c);
    var before, after := Fields(IsSeparator, s), Fields(IsSeparator, s + [c]);
    EndsWithWord(s);
    if !IsSeparator(c) {
      if s == "" || IsSeparator(s[|s| - 1]) {
        if before != [] {
          JoinMore(before, [c]);
        }
      } else {
        JoinGrows(before, c);
      }
    }
  }

  /** Joined words end as the last word does, not with a space. */
  lemma EndsWithWord(s: string)
    ensures var words := Fields(IsSeparator, s);
            words != [] ==> Join(words) != "" && Join(words)[|Join(words)| - 1] != ' '
  {
    FieldsAreWords(IsSeparator, s);
    JoinEnd(Fields(IsSeparator, s));
  }

  lemma {:induction false} JoinEnd(words: seq<string>)
    requires AreWords(IsSeparator, words)
    ensures words != [] ==> Join(words) != "" && Join(words)[|Join(words)| - 1] != ' '
    ensures words != [] ==> Join(words)[0] != ' '
  {
    if words != [] {
      assert IsWord(IsSeparator, words[0]);
      JoinEnd(words[1..]);
    }
  }

  function Trim(s: string): string {
    if s == "" then s
    else if s[0] == ' ' then Trim(s[1..])
    else if s[|s| - 1] == ' ' then Trim(s[..|s| - 1])
    else s
  }

  lemma TrimSquashed(s: string)
    ensures Trim(Squashed(s)) == Join(Fields(IsSeparator, s))
  {
    FieldsAreWords(IsSeparator, s);
    var words := Fields(IsSeparator, s);
    JoinEnd(words);
    var joined := Join(words);
    assert words != [] ==> Trim(joined) == joined;
    assert (joined + " ")[..|joined|] == joined && joined + "" == joined;
  }

  predicate IsSpace(c: char) {
    c == ' '
  }

  /** `fold_place_abbreviations`. */
  method FoldPlaceAbbreviations(s: string) returns (out: string)
    ensures out == if |Fields(IsSpace, s)| < 2 then s else Join(FoldPlaces(Fields(IsSpace, s)))
  {
    var parts := Fields(IsSpace, s);
    ghost var all := FoldPlaces(parts);
    if |parts| < 2 {
      return s;
    }
    out := "";
    for i := 0 to |parts|
      invariant out == Join(all[..i])
    {
      AppendWord(all, i);
      if i > 0 {
        out := out + " ";
      }
      out := out + FoldAt(parts, i);
    }
    assert all[..|parts|] == all;
  }

  /** `normalise_prefix`: one pass over the characters, then the fold. */
  method NormalisePrefix(q: string) returns (out: string)
    ensures out == Key(q)
  {
    var low := Lower(q);
    out := "";
    for i := 0 to |q|
      invariant out == Squashed(low[..i])
    {
      assert low[..i + 1] == low[..i] + [low[i]];
      SquashedMore(low[..i], low[i]);
      if IsAlphanumeric(q[i]) {
        out := out + [LowerChar(q[i])];
      } else if out != "" && out[|out| - 1] != ' ' {
        out := out + " ";
      }
    }
    assert low[..|q|] == low;
    TrimSquashed(low);
    SpacedWords(low);
    assert |KeyWords(q)| < 2 ==> FoldPlaces(KeyWords(q)) == KeyWords(q);
    out := FoldPlaceAbbreviations(Trim(out));
  }

  /** Cut at spaces, the trimmed text falls into the same words. */
  lemma SpacedWords(s: string)
    ensures Fields(IsSpace, Join(Fields(IsSeparator, s))) == Fields(IsSeparator, s)
  {
    FieldsAreWords(IsSeparator, s);
    var words := Fields(IsSeparator, s);
    forall i | 0 <= i < |words| ensures IsWord(IsSpace, words[i]) {
      assert IsWord(IsSeparator, words[i]);
    }
    JoinedComeApart(IsSpace, words);
  }

  // --- A normal form ---

  lemma FoldedTwice(words: seq<string>, i: nat)
    requires i < |words| && IsWord(IsSeparator, words[i]) && Lower(words[i]) == words[i]
    ensures FoldAt(FoldPlaces(words), i) == FoldAt(words, i)
    ensures IsWord(IsSeparator, FoldAt(words, i)) && Lower(FoldAt(words, i)) == FoldAt(words, i)
  {}

  /** Normalising a key again changes nothing, so a stored key is found under its own name. */
  lemma KeyIsNormal(q: string)
    ensures Key(Key(q)) == Key(q)
  {
    var words := KeyWords(q);
    var folded := FoldPlaces(words);
    FieldsAreWords(IsSeparator, Lower(q));
    FieldsAgree(IsSeparator, IsSeparator, LowerChar, Lower(q), Lower(q));
    forall i: nat | i < |words|
      ensures FoldAt(folded, i) == FoldAt(words, i)
      ensures IsWord(IsSeparator, folded[i]) && Lower(folded[i]) == folded[i]
    {
      assert IsWord(IsSeparator, words[i]);
      FoldedTwice(words, i);
    }
    JoinedComeApart(IsSeparator, folded);
    JoinLower(folded);
    assert FoldPlaces(folded) == folded;
  }

  lemma {:induction false} JoinLower(words: seq<string>)
    requires forall i :: 0 <= i < |words| ==> Lower(words[i]) == words[i]
    ensures Lower(Join(words)) == Join(words)
  {
    if |words| > 1 {
      JoinLower(words[1..]);
      var s := Join(words);
      forall k | 0 <= k < |s| ensures LowerChar(s[k]) == s[k] {
        if k < |words[0]| {
          assert s[k] == Lower(words[0])[k];
        } else if k > |words[0]| {
          assert s[k] == Lower(Join(words[1..]))[k - |words[0]| - 1];
        }
      }
    }
  }

  lemma {:induction false} JoinIsPlain(words: seq<string>)
    requires forall i :: 0 <= i < |words| ==> IsPlain(words[i])
    ensures IsPlain(Join(words))
  {
    if |words| > 1 {
      JoinIsPlain(words[1..]);
    }
  }

  lemma KeyIsPlain(q: string)
    ensures IsPlain(Key(q))
  {
    var words := KeyWords(q);
    FieldsAreWords(IsSeparator, Lower(q));
    forall i: nat | i < |words| ensures IsPlain(FoldPlaces(words)[i]) {
      assert IsWord(IsSeparator, words[i]);
    }
    JoinIsPlain(FoldPlaces(words));
  }

  /** The bytes of a normal form, which is plain ASCII. */
  function KeyBytes(q: string): (bytes: seq<Byte>)
    ensures |bytes| == |Key(q)| && forall i :: 0 <= i < |bytes| ==> bytes[i] == Key(q)[i] as nat
  {
    KeyIsPlain(q);
    var key := Key(q);
    seq(|key|, i requires 0 <= i < |key| && IsPlain(key) => key[i] as nat)
  }
}
