/** ASCII characters, and cutting text into words and joining words to text. */
module Text {

  lemma Regroup(a: string, b: string, c: string)
    ensures a + (b + c) == (a + b) + c
  {}

  predicate IsDigit(c: char) {
    '0' <= c <= '9'
  }

  predicate IsUpper(c: char) {
    'A' <= c <= 'Z'
  }

  predicate IsLetter(c: char) {
    IsUpper(c) || 'a' <= c <= 'z'
  }

  predicate IsAlphanumeric(c: char) {
    IsLetter(c) || IsDigit(c)
  }

  predicate IsWhitespace(c: char) {
    c == ' ' || '\t' <= c <= '\r'
  }

  predicate IsSeparator(c: char) {
    !IsAlphanumeric(c)
  }

  function LowerChar(c: char): char {
    if IsUpper(c) then c + ' ' else c
  }

  /** Capitals go to the small letter at the same place of the alphabet. */
  lemma LowerCharMeans(c: char)
    ensures !IsUpper(LowerChar(c)) && IsLetter(LowerChar(c)) == IsLetter(c) && IsDigit(LowerChar(c)) == IsDigit(c)
    ensures IsUpper(c) ==> LowerChar(c) as int - 'a' as int == c as int - 'A' as int
    ensures !IsUpper(c) ==> LowerChar(c) == c
  {}

  function Lower(s: string): (r: string)
    ensures |r| == |s| && forall i :: 0 <= i < |s| ==> r[i] == LowerChar(s[i])
  {
    seq(|s|, i requires 0 <= i < |s| => LowerChar(s[i]))
  }

  lemma LowerTwice(s: string)
    ensures Lower(Lower(s)) == Lower(s)
  {}

  function LowerAll(words: seq<string>): (r: seq<string>)
    ensures |r| == |words| && forall i :: 0 <= i < |words| ==> r[i] == Lower(words[i])
  {
    seq(|words|, i requires 0 <= i < |words| => Lower(words[i]))
  }

  /** The length of the run of characters at the start that do not satisfy `sep`. */
  function RunLength(sep: char -> bool, s: string): (n: nat)
    ensures n <= |s| && (forall i :: 0 <= i < n ==> !sep(s[i])) && (n < |s| ==> sep(s[n]))
  {
    if s == [] || sep(s[0]) then 0 else 1 + RunLength(sep, s[1..])
  }

  /** The non-empty runs between separators. */
  function Fields(sep: char -> bool, s: string): seq<string>
    decreases |s|
  {
    if s == [] then []
    else if sep(s[0]) then Fields(sep, s[1..])
    else [s[..RunLength(sep, s)]] + Fields(sep, s[RunLength(sep, s)..])
  }

  function SplitWhitespace(s: string): seq<string> {
    Fields(IsWhitespace, s)
  }

  /** Words with one space between them. */
  function Join(words: seq<string>): string {
    if words == [] then ""
    else if |words| == 1 then words[0]
    else words[0] + " " + Join(words[1..])
  }

  /** A word that no cut by `sep` takes apart. */
  ghost predicate IsWord(sep: char -> bool, w: string) {
    w != "" && forall i :: 0 <= i < |w| ==> !sep(w[i])
  }

  ghost predicate AreWords(sep: char -> bool, words: seq<string>) {
    forall i :: 0 <= i < |words| ==> IsWord(sep, words[i])
  }

  lemma {:induction false} RunLengthUnique(sep: char -> bool, s: string, n: nat)
    requires n <= |s| && (forall i :: 0 <= i < n ==> !sep(s[i])) && (n < |s| ==> sep(s[n]))
    ensures RunLength(sep, s) == n
  {
    if n > 0 {
      RunLengthUnique(sep, s[1..], n - 1);
    }
  }

  lemma {:induction false} FieldsAreWords(sep: char -> bool, s: string)
    ensures AreWords(sep, Fields(sep, s))
    decreases |s|
  {
    if s != [] {
      if sep(s[0]) {
        FieldsAreWords(sep, s[1..]);
      } else {
        FieldsAreWords(sep, s[RunLength(sep, s)..]);
      }
    }
  }

  lemma {:induction false} JoinMore(words: seq<string>, w: string)
    requires words != []
    ensures Join(words + [w]) == Join(words) + " " + w
  {
    if |words| > 1 {
      JoinMore(words[1..], w);
      assert (words + [w])[1..] == words[1..] + [w];
    }
  }

  lemma AppendWord(words: seq<string>, i: nat)
    requires i < |words|
    ensures Join(words[..i + 1]) == (if i == 0 then "" else Join(words[..i]) + " ") + words[i]
  {
    if i > 0 {
      JoinMore(words[..i], words[i]);
      assert words[..i + 1] == words[..i] + [words[i]];
    }
  }

  /** Words that are joined come apart again. */
  lemma {:induction false} JoinedComeApart(sep: char -> bool, words: seq<string>)
    requires AreWords(sep, words) && sep(' ')
    ensures Fields(sep, Join(words)) == words
  {
    if words != [] {
      var w, s := words[0], Join(words);
      assert s[..|w|] == w && IsWord(sep, w);
      RunLengthUnique(sep, s, |w|);
      if |words| > 1 {
        JoinedComeApart(sep, words[1..]);
        assert s[|w|..] == " " + Join(words[1..]);
        assert (" " + Join(words[1..]))[1..] == Join(words[1..]);
        assert words == [w] + words[1..];
      } else {
        assert s[|w|..] == [];
      }
    }
  }

  /** Cutting sees only where separators are, and not what the other characters are. */
  lemma {:induction false} FieldsAgree(p: char -> bool, q: char -> bool, f: char -> char, s: string, t: string)
    requires |s| == |t| && forall i :: 0 <= i < |s| ==> t[i] == f(s[i]) && q(t[i]) == p(s[i])
    ensures |Fields(q, t)| == |Fields(p, s)|
    ensures forall k :: 0 <= k < |Fields(p, s)| ==>
              |Fields(q, t)[k]| == |Fields(p, s)[k]|
              && forall i :: 0 <= i < |Fields(p, s)[k]| ==> Fields(q, t)[k][i] == f(Fields(p, s)[k][i])
    decreases |s|
  {
    if s != [] {
      if p(s[0]) {
        FieldsAgree(p, q, f, s[1..], t[1..]);
      } else {
        var n := RunLength(p, s);
        RunLengthUnique(q, t, n);
        FieldsAgree(p, q, f, s[n..], t[n..]);
      }
    }
  }

  /** Letters, digits and white space only. */
  predicate IsPlain(s: string) {
    forall i :: 0 <= i < |s| ==> IsAlphanumeric(s[i]) || IsWhitespace(s[i])
  }

  /** In such text the query side and the index side cut out the same words. */
  lemma SameWords(s: string)
    requires IsPlain(s)
    ensures Fields(IsSeparator, Lower(s)) == LowerAll(SplitWhitespace(s))
  {
    FieldsAgree(IsWhitespace, IsSeparator, LowerChar, s, Lower(s));
    var a, b := Fields(IsSeparator, Lower(s)), LowerAll(SplitWhitespace(s));
    forall k | 0 <= k < |a| ensures a[k] == b[k] {
      assert |a[k]| == |b[k]|;
    }
  }
}
