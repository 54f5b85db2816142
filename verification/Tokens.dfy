/**
 The two programs that bring street names to one form: the phrase rewriter of the index side and
 the tokenizer of the query side.
 */
module Tokens {
  import opened Rewriting
  import opened Text
  import opened Vocabulary
  import opened Wrappers

  // --- Dotted initials ---

  /** Where single letters with a dot after each, read from `j`, come to an end. */
  function DottedEnd(s: string, j: nat): (k: nat)
    requires j <= |s|
    ensures j <= k <= |s|
    decreases |s| - j
  {
    if j + 1 < |s| && IsLetter(s[j]) && s[j + 1] == '.' then DottedEnd(s, j + 2) else j
  }

  /** Those letters without their dots. */
  function DottedLetters(s: string, j: nat): string
    requires j <= |s|
    decreases |s| - j
  {
    if j + 1 < |s| && IsLetter(s[j]) && s[j + 1] == '.' then [s[j]] + DottedLetters(s, j + 2) else ""
  }

  /** The letters of a word of dotted initials at `i`, and where it ends; the last dot may be missing. */
  function InitialsAt(s: string, i: nat): (r: (string, nat))
    requires i < |s|
    ensures r.1 <= |s| && (|r.0| >= 2 ==> i < r.1)
  {
    if i > 0 && IsAlphanumeric(s[i - 1]) then ("", i)
    else
      var letters, j := DottedLetters(s, i), DottedEnd(s, i);
      if letters != "" && j < |s| && IsLetter(s[j]) then (letters + [s[j]], j + 1) else (letters, j)
  }

  /** What is written for the text at `i`, and where to go on. */
  function PieceAt(s: string, i: nat): (r: (string, nat))
    requires i < |s|
    ensures i < r.1 <= |s|
  {
    var (letters, j) := InitialsAt(s, i);
    if |letters| >= 2 && (j == |s| || !IsAlphanumeric(s[j])) then (letters, j) else ([s[i]], i + 1)
  }

  function JoinedFrom(s: string, i: nat): string
    requires i <= |s|
    decreases |s| - i
  {
    if i == |s| then "" else PieceAt(s, i).0 + JoinedFrom(s, PieceAt(s, i).1)
  }

  method ReadInitials(s: string, i: nat) returns (letters: string, j: nat)
    requires i < |s|
    ensures (letters, j) == InitialsAt(s, i)
  {
    letters, j := "", i;
    if i > 0 && IsAlphanumeric(s[i - 1]) {
      return;
    }
    while j + 1 < |s| && IsLetter(s[j]) && s[j + 1] == '.'
      invariant i <= j <= |s|
      invariant letters + DottedLetters(s, j) == DottedLetters(s, i) && DottedEnd(s, j) == DottedEnd(s, i)
    {
      Regroup(letters, [s[j]], DottedLetters(s, j + 2));
      letters, j := letters + [s[j]], j + 2;
    }
    assert letters + "" == letters;
    if letters != "" && j < |s| && IsLetter(s[j]) {
      letters, j := letters + [s[j]], j + 1;
    }
  }

  method ReadPiece(s: string, i: nat) returns (piece: string, next: nat)
    requires i < |s|
    ensures (piece, next) == PieceAt(s, i)
  {
    var letters, j := ReadInitials(s, i);
    if |letters| >= 2 && (j == |s| || !IsAlphanumeric(s[j])) {
      return letters, j;
    }
    return [s[i]], i + 1;
  }

  /** `join_dotted_initials`: "n.y.c." becomes "nyc". */
  method JoinDottedInitials(s: string) returns (out: string)
    ensures out == JoinedFrom(s, 0)
  {
    out := "";
    var i := 0;
    while i < |s|
      invariant i <= |s| && out + JoinedFrom(s, i) == JoinedFrom(s, 0)
    {
      var piece, next := ReadPiece(s, i);
      Regroup(out, piece, JoinedFrom(s, next));
      out, i := out + piece, next;
    }
    assert out + "" == out;
  }

  /** Text without dots has no initials to join. */
  lemma {:induction false} NoDotsNoChange(s: string, i: nat)
    requires i <= |s| && forall k :: 0 <= k < |s| ==> s[k] != '.'
    ensures JoinedFrom(s, i) == s[i..]
    decreases |s| - i
  {
    if i < |s| {
      NoDotsNoChange(s, i + 1);
    }
  }

  // --- Expanding abbreviations, the first step of both ---

  /** What the table of abbreviations makes of a lower-case word; a leading Dr is Doctor. */
  function ExpandAt(v: Vocabulary, words: seq<string>, i: nat): string
    requires i < |words|
  {
    if i == 0 && words[i] == "dr" && |words| > 2 then "doctor" else Expand(v, words[i])
  }

  function ExpandEach(v: Vocabulary, words: seq<string>): (r: seq<string>)
    ensures |r| == |words| && forall i: nat :: i < |words| ==> r[i] == ExpandAt(v, words, i)
  {
    seq(|words|, i requires 0 <= i < |words| => ExpandAt(v, words, i))
  }

  predicate IsStreetSt(v: Vocabulary, words: seq<string>, i: nat)
    requires i < |words|
  {
    StPosition(v, words) == Some(i) && words[i] == "st"
  }

  /** The words with "st" in the place of a street type as Street, and the others expanded. */
  function Expanded(v: Vocabulary, words: seq<string>): (r: seq<string>)
    ensures |r| == |words|
    ensures forall i: nat :: i < |words| ==>
              r[i] == if IsStreetSt(v, words, i) then "street" else ExpandAt(v, words, i)
  {
    seq(|words|, i requires 0 <= i < |words| =>
      if IsStreetSt(v, words, i) then "street" else ExpandAt(v, words, i))
  }

  // --- The query side ---

  function WithStreet(v: Vocabulary, part: seq<string>): seq<string> {
    var at := StPosition(v, part);
    if at.Some? && part[at.value] == "st" then part[at.value := "street"] else part
  }

  /** The tokens of one part between commas, given its words in lower case. */
  function PartTokens(v: Vocabulary, words: seq<string>): seq<string> {
    Ordinals(v, Compound(v, WithStreet(v, ExpandEach(v, words))), true)
  }

  function SplitCommas(s: string): (parts: seq<string>)
    ensures parts != []
  {
    if s == "" then [""]
    else
      var rest := SplitCommas(s[1..]);
      if s[0] == ',' then [""] + rest else [[s[0]] + rest[0]] + rest[1..]
  }

  function AllPartTokens(v: Vocabulary, parts: seq<string>): seq<string> {
    if parts == [] then []
    else AllPartTokens(v, parts[..|parts| - 1]) + PartTokens(v, Fields(IsSeparator, parts[|parts| - 1]))
  }

  function QueryTokens(v: Vocabulary, s: string): seq<string> {
    PlaceFold(v, AllPartTokens(v, SplitCommas(JoinedFrom(Lower(s), 0))))
  }

  method TokenizePart(v: Vocabulary, words: seq<string>) returns (part: seq<string>)
    ensures part == PartTokens(v, words)
  {
    part := ExpandEach(v, words);
    var at := StPosition(v, part);
    if at.Some? && part[at.value] == "st" {
      part := part[at.value := "street"];
    }
    part := CanonicaliseCompoundOrdinals(v, part);
    var tokens := new string[|part|](i requires 0 <= i < |part| => part[i]);
    assert tokens[..] == part;
    CanonicaliseOrdinals(v, tokens, true);
    part := tokens[..];
  }

  lemma PartsStep(v: Vocabulary, parts: seq<string>, i: nat)
    requires i < |parts|
    ensures AllPartTokens(v, parts[..i + 1])
            == AllPartTokens(v, parts[..i]) + PartTokens(v, Fields(IsSeparator, parts[i]))
  {
    assert parts[..i + 1][..i] == parts[..i];
  }

  /** `tokenize_user_input`. */
  method TokenizeUserInput(v: Vocabulary, s: string) returns (tokens: seq<string>)
    ensures tokens == QueryTokens(v, s)
  {
    var folded := JoinDottedInitials(Lower(s));
    var parts := SplitCommas(folded);
    tokens := [];
    for i := 0 to |parts|
      invariant tokens == AllPartTokens(v, parts[..i])
    {
      var part := TokenizePart(v, Fields(IsSeparator, parts[i]));
      tokens := tokens + part;
      PartsStep(v, parts, i);
    }
    assert parts[..|parts|] == parts;
    tokens := ApplyPlaceAbbreviationFold(v, tokens);
  }

  // --- The index side ---

  predicate IsDot(c: char) {
    c == '.'
  }

  predicate IsDotOrComma(c: char) {
    c == '.' || c == ','
  }

  function TrimEnd(p: char -> bool, s: string): string {
    if s == "" || !p(s[|s| - 1]) then s else TrimEnd(p, s[..|s| - 1])
  }

  function Keys(p: char -> bool, words: seq<string>): (r: seq<string>)
    ensures |r| == |words| && forall i :: 0 <= i < |words| ==> r[i] == Lower(TrimEnd(p, words[i]))
  {
    seq(|words|, i requires 0 <= i < |words| => Lower(TrimEnd(p, words[i])))
  }

  /** What the phrase rewriter has for the word with key `i`, if anything. */
  function Replacement(v: Vocabulary, keys: seq<string>, i: nat): Option<string>
    requires i < |keys|
  {
    var key := keys[i];
    if IsStreetSt(v, keys, i) then Some("street")
    else if i == 0 && key == "dr" && |keys| > 2 then Some("doctor")
    else if v.abbreviation(key).Some? then v.abbreviation(key)
    else if i != |keys| - 1 then v.place(key)
    else None
  }

  /** What it writes for word `i`. */
  function PhraseWord(v: Vocabulary, words: seq<string>, keys: seq<string>, i: nat): string
    requires i < |words| == |keys|
  {
    if Replacement(v, keys, i).Some? then Replacement(v, keys, i).value else words[i]
  }

  function PhraseWords(v: Vocabulary, words: seq<string>, keys: seq<string>): (r: seq<string>)
    requires |words| == |keys|
    ensures |r| == |words| && forall i: nat :: i < |words| ==> r[i] == PhraseWord(v, words, keys, i)
  {
    seq(|words|, i requires 0 <= i < |words| => PhraseWord(v, words, keys, i))
  }

  /** The words that became ordinals in their new form, the others as they were. */
  function Updated(words: seq<string>, before: seq<string>, after: seq<string>): (r: seq<string>)
    requires |words| == |before| == |after|
    ensures |r| == |words|
    ensures forall i :: 0 <= i < |words| ==> r[i] == if after[i] == before[i] then words[i] else after[i]
  {
    seq(|words|, i requires 0 <= i < |words| => if after[i] == before[i] then words[i] else after[i])
  }

  function OrdinalPhrase(v: Vocabulary, out: string): string {
    var words := Compound(v, SplitWhitespace(out));
    var tokens := Keys(IsDotOrComma, words);
    var after := Ordinals(v, tokens, false);
    if after == tokens && |words| == |SplitWhitespace(out)| then out else Join(Updated(words, tokens, after))
  }

  function Phrase(v: Vocabulary, s: string): string {
    var words := SplitWhitespace(s);
    if words == [] then "" else OrdinalPhrase(v, Join(PhraseWords(v, words, Keys(IsDot, words))))
  }

  method WritePhrase(v: Vocabulary, words: seq<string>) returns (out: string)
    ensures out == Join(PhraseWords(v, words, Keys(IsDot, words)))
  {
    var keys := Keys(IsDot, words);
    ghost var all := PhraseWords(v, words, keys);
    out := "";
    var first := true;
    for i := 0 to |words|
      invariant first <==> i == 0
      invariant out == Join(all[..i])
    {
      var word := PhraseWord(v, words, keys, i);
      AppendWord(all, i);
      if !first {
        out := out + " ";
      }
      first := false;
      out := out + word;
    }
    assert all[..|words|] == all;
  }

  method RewriteOrdinals(v: Vocabulary, out: string) returns (phrase: string)
    ensures phrase == OrdinalPhrase(v, out)
  {
    var words := CanonicaliseCompoundOrdinals(v, SplitWhitespace(out));
    var changed := |words| != |SplitWhitespace(out)|;
    var before := Keys(IsDotOrComma, words);
    var tokens := new string[|before|](i requires 0 <= i < |before| => before[i]);
    assert tokens[..] == before;
    CanonicaliseOrdinals(v, tokens, false);
    if tokens[..] == before && !changed {
      return out;
    }
    phrase := Join(Updated(words, before, tokens[..]));
  }

  /** `canonicalise_phrase`. */
  method CanonicalisePhrase(v: Vocabulary, s: string) returns (phrase: string)
    ensures phrase == Phrase(v, s)
  {
    var words := SplitWhitespace(s);
    if words == [] {
      return "";
    }
    var out := WritePhrase(v, words);
    phrase := RewriteOrdinals(v, out);
  }
}
