/** The repair of a missing or an extra space: every name one edit away that the index knows. */
module WhitespaceRepair {
  import opened Lexicographic
  import opened Text
  import opened Wrappers

  const MAX_LENGTH: nat := 128
  const MAX_WORDS: nat := 12
  const MAX_CANDIDATES: nat := 16

  /** The dictionary: which words the index knows. */
  type Dictionary = string -> bool

  predicate IsAlphabetic(w: string) {
    forall i :: 0 <= i < |w| ==> IsLetter(w[i])
  }

  // --- One edit ---

  predicate CanSplit(indexed: Dictionary, words: seq<string>, i: nat, at: nat) {
    i < |words| && IsAlphabetic(words[i]) && 0 < at < |words[i]|
    && indexed(words[i][..at]) && indexed(words[i][at..])
  }

  function SplitAt(words: seq<string>, i: nat, at: nat): seq<string>
    requires i < |words| && at <= |words[i]|
  {
    words[..i] + [words[i][..at], words[i][at..]] + words[i + 1..]
  }

  predicate CanJoin(indexed: Dictionary, words: seq<string>, i: nat) {
    i + 1 < |words| && IsAlphabetic(words[i]) && IsAlphabetic(words[i + 1]) && indexed(words[i] + words[i + 1])
  }

  function JoinAt(words: seq<string>, i: nat): seq<string>
    requires i + 1 < |words|
  {
    words[..i] + [words[i] + words[i + 1]] + words[i + 2..]
  }

  /** `c` comes from `words` by one split or one join whose new words are indexed. */
  ghost predicate IsEdit(indexed: Dictionary, words: seq<string>, c: string) {
    || (exists i: nat, at: nat :: CanSplit(indexed, words, i, at) && c == Join(SplitAt(words, i, at)))
    || (exists i: nat :: CanJoin(indexed, words, i) && c == Join(JoinAt(words, i)))
  }

  // --- All edits as a set ---

  /** The splits of word `i` before position `n`. */
  function SplitsBefore(indexed: Dictionary, words: seq<string>, i: nat, n: nat): set<string>
    requires i < |words|
  {
    if n == 0 then {}
    else if CanSplit(indexed, words, i, n - 1) then
      SplitsBefore(indexed, words, i, n - 1) + {Join(SplitAt(words, i, n - 1))}
    else SplitsBefore(indexed, words, i, n - 1)
  }

  function SplitsAt(indexed: Dictionary, words: seq<string>, i: nat): set<string>
    requires i < |words|
  {
    SplitsBefore(indexed, words, i, |words[i]|)
  }

  lemma {:induction false} SplitsExact(indexed: Dictionary, words: seq<string>, i: nat, n: nat, c: string)
    requires i < |words|
    ensures c in SplitsBefore(indexed, words, i, n) <==>
            exists at: nat :: at < n && CanSplit(indexed, words, i, at) && c == Join(SplitAt(words, i, at))
  {
    if n > 0 {
      SplitsExact(indexed, words, i, n - 1, c);
    }
  }

  function JoinsAt(indexed: Dictionary, words: seq<string>, i: nat): set<string>
    requires i < |words|
  {
    if CanJoin(indexed, words, i) then {Join(JoinAt(words, i))} else {}
  }

  function EditsBefore(indexed: Dictionary, words: seq<string>, n: nat): set<string>
    requires n <= |words|
  {
    if n == 0 then {}
    else EditsBefore(indexed, words, n - 1) + SplitsAt(indexed, words, n - 1) + JoinsAt(indexed, words, n - 1)
  }

  lemma {:induction false} EditsBeforeExact(indexed: Dictionary, words: seq<string>, n: nat, c: string)
    requires n <= |words|
    ensures c in EditsBefore(indexed, words, n) <==>
            (exists i: nat, at: nat :: i < n && CanSplit(indexed, words, i, at) && c == Join(SplitAt(words, i, at)))
            || (exists i: nat :: i < n && CanJoin(indexed, words, i) && c == Join(JoinAt(words, i)))
  {
    if n > 0 {
      EditsBeforeExact(indexed, words, n - 1, c);
      SplitsExact(indexed, words, n - 1, |words[n - 1]|, c);
    }
  }

  function AllEdits(indexed: Dictionary, words: seq<string>): set<string> {
    EditsBefore(indexed, words, |words|)
  }

  lemma AllEditsExact(indexed: Dictionary, words: seq<string>, c: string)
    ensures c in AllEdits(indexed, words) <==> IsEdit(indexed, words, c)
  {
    EditsBeforeExact(indexed, words, |words|, c);
  }

  lemma {:induction false} EditsGrow(indexed: Dictionary, words: seq<string>, n: nat, m: nat)
    requires n <= m <= |words|
    ensures EditsBefore(indexed, words, n) <= EditsBefore(indexed, words, m)
    decreases m
  {
    if n < m {
      EditsGrow(indexed, words, n, m - 1);
    }
  }

  lemma MoreEdits(small: set<string>, large: set<string>)
    requires small <= large
    ensures |small| <= |large|
  {
    assert large == small + (large - small);
  }

  /** A word with a space in it joins like the two words. */
  lemma {:induction false} JoinWithSpace(front: seq<string>, left: string, right: string, back: seq<string>)
    ensures Join(front + [left + " " + right] + back) == Join(front + [left, right] + back)
  {
    var one, two := front + [left + " " + right] + back, front + [left, right] + back;
    if front == [] {
      assert one[1..] == back && two[1..] == [right] + back && two[1..][1..] == back;
      if back != [] {
        assert one[0] + " " + Join(back) == left + " " + (right + " " + Join(back));
      }
    } else {
      JoinWithSpace(front[1..], left, right, back);
      assert one[1..] == front[1..] + [left + " " + right] + back;
      assert two[1..] == front[1..] + [left, right] + back;
    }
  }

  // --- The repairer ---

  method AddSplits(indexed: Dictionary, words: seq<string>, i: nat, before: set<string>) returns (r: set<string>)
    requires i < |words| && IsAlphabetic(words[i])
    ensures r == before + SplitsAt(indexed, words, i)
  {
    var word := words[i];
    r := before;
    if word == "" {
      return;
    }
    var at := 1;
    while at < |word|
      invariant 1 <= at <= |word| && r == before + SplitsBefore(indexed, words, i, at)
    {
      var left, right := word[..at], word[at..];
      if indexed(left) && indexed(right) {
        var parts := words[i := left + " " + right];
        assert parts == words[..i] + [left + " " + right] + words[i + 1..];
        JoinWithSpace(words[..i], left, right, words[i + 1..]);
        r := r + {Join(parts)};
      }
      at := at + 1;
    }
  }

  method AddJoin(indexed: Dictionary, words: seq<string>, i: nat, before: set<string>) returns (r: set<string>)
    requires i < |words| && IsAlphabetic(words[i])
    ensures r == before + JoinsAt(indexed, words, i)
  {
    r := before;
    if i + 1 < |words| && IsAlphabetic(words[i + 1]) {
      var joined := words[i] + words[i + 1];
      if indexed(joined) {
        var parts := words[i := joined];
        parts := parts[..i + 1] + parts[i + 2..];
        assert parts == JoinAt(words, i);
        r := r + {Join(parts)};
      }
    }
  }

  lemma {:induction false} NoSplits(indexed: Dictionary, words: seq<string>, i: nat, n: nat)
    requires i < |words| && !IsAlphabetic(words[i])
    ensures SplitsBefore(indexed, words, i, n) == {}
  {
    if n > 0 {
      NoSplits(indexed, words, i, n - 1);
    }
  }

  /** `whitespace_candidates`. */
  method WhitespaceCandidates(indexed: Dictionary, street: string) returns (r: Option<seq<string>>)
    ensures r.None? <==> |street| > MAX_LENGTH || |SplitWhitespace(street)| > MAX_WORDS
                         || |AllEdits(indexed, SplitWhitespace(street))| > MAX_CANDIDATES
    ensures r.Some? ==> Alphabetical(r.value)
                        && forall c :: c in r.value <==> IsEdit(indexed, SplitWhitespace(street), c)
  {
    if |street| > MAX_LENGTH {
      return None;
    }
    var words := SplitWhitespace(street);
    if |words| > MAX_WORDS {
      return None;
    }
    var candidates: set<string> := {};
    for i := 0 to |words|
      invariant candidates == EditsBefore(indexed, words, i) && |candidates| <= MAX_CANDIDATES
    {
      if !IsAlphabetic(words[i]) {
        NoSplits(indexed, words, i, |words[i]|);
        continue;
      }
      candidates := AddSplits(indexed, words, i, candidates);
      candidates := AddJoin(indexed, words, i, candidates);
      if |candidates| > MAX_CANDIDATES {
        EditsGrow(indexed, words, i + 1, |words|);
        MoreEdits(candidates, AllEdits(indexed, words));
        return None;
      }
    }
    forall c ensures c in candidates <==> IsEdit(indexed, words, c) {
      AllEditsExact(indexed, words, c);
    }
    var sorted := InOrder(candidates);
    return Some(sorted);
  }

  // --- An edit moves spaces only ---

  /** A text without its white space. */
  function Squeezed(s: string): string {
    if s == "" then ""
    else if IsWhitespace(s[0]) then Squeezed(s[1..])
    else [s[0]] + Squeezed(s[1..])
  }

  function Concat(words: seq<string>): string {
    if words == [] then "" else words[0] + Concat(words[1..])
  }

  lemma {:induction false} SqueezedWord(w: string, s: string)
    requires forall i :: 0 <= i < |w| ==> !IsWhitespace(w[i])
    ensures Squeezed(w + s) == w + Squeezed(s)
  {
    if w == "" {
      assert w + s == s;
    } else {
      SqueezedWord(w[1..], s);
      assert (w + s)[1..] == w[1..] + s;
    }
  }

  lemma {:induction false} SqueezedIsConcat(s: string)
    ensures Squeezed(s) == Concat(SplitWhitespace(s))
    decreases |s|
  {
    if s != "" {
      if IsWhitespace(s[0]) {
        SqueezedIsConcat(s[1..]);
      } else {
        var n := RunLength(IsWhitespace, s);
        SqueezedIsConcat(s[n..]);
        SqueezedWord(s[..n], s[n..]);
        assert s == s[..n] + s[n..];
      }
    }
  }

  lemma {:induction false} ConcatParts(front: seq<string>, back: seq<string>)
    ensures Concat(front + back) == Concat(front) + Concat(back)
  {
    if front == [] {
      assert front + back == back;
    } else {
      ConcatParts(front[1..], back);
      assert (front + back)[0] == front[0] && (front + back)[1..] == front[1..] + back;
      Regroup(front[0], Concat(front[1..]), Concat(back));
    }
  }

  lemma ConcatMiddle(front: seq<string>, one: seq<string>, two: seq<string>, back: seq<string>)
    requires Concat(one) == Concat(two)
    ensures Concat(front + one + back) == Concat(front + two + back)
  {
    ConcatParts(front + one, back);
    ConcatParts(front, one);
    ConcatParts(front + two, back);
    ConcatParts(front, two);
  }

  lemma ConcatTwo(a: string, b: string)
    ensures Concat([a, b]) == Concat([a + b]) == a + b
  {
    assert [a, b][1..] == [b] && [b][1..] == [] && [a + b][1..] == [];
    assert Concat([b]) == b + "" && Concat([a + b]) == a + b + "";
  }

  lemma SplitKeepsLetters(words: seq<string>, i: nat, at: nat)
    requires i < |words| && 0 < at < |words[i]| && AreWords(IsWhitespace, words)
    ensures Concat(SplitAt(words, i, at)) == Concat(words) && AreWords(IsWhitespace, SplitAt(words, i, at))
  {
    var left, right := words[i][..at], words[i][at..];
    assert IsWord(IsWhitespace, words[i]);
    ConcatTwo(left, right);
    assert left + right == words[i];
    ConcatMiddle(words[..i], [left, right], [words[i]], words[i + 1..]);
    assert words == words[..i] + [words[i]] + words[i + 1..];
  }

  lemma JoinKeepsLetters(words: seq<string>, i: nat)
    requires i + 1 < |words|
    ensures Concat(JoinAt(words, i)) == Concat(words)
  {
    ConcatTwo(words[i], words[i + 1]);
    TwoWords(words, i);
    ConcatMiddle(words[..i], [words[i], words[i + 1]], [words[i] + words[i + 1]], words[i + 2..]);
  }

  lemma TwoWords(words: seq<string>, i: nat)
    requires i + 1 < |words|
    ensures words == words[..i] + [words[i], words[i + 1]] + words[i + 2..]
  {}

  lemma JoinKeepsWords(words: seq<string>, i: nat)
    requires i + 1 < |words| && AreWords(IsWhitespace, words)
    ensures AreWords(IsWhitespace, JoinAt(words, i))
  {
    assert IsWord(IsWhitespace, words[i]) && IsWord(IsWhitespace, words[i + 1]);
    assert IsWord(IsWhitespace, words[i] + words[i + 1]);
  }

  /**
   A candidate has the characters of the street in the same order once spaces are removed, and one
   word more or less than it.
   */
  lemma CandidateMovesSpaces(indexed: Dictionary, street: string, c: string)
    requires IsEdit(indexed, SplitWhitespace(street), c)
    ensures Squeezed(c) == Squeezed(street)
    ensures |SplitWhitespace(c)| == |SplitWhitespace(street)| + 1
            || |SplitWhitespace(c)| == |SplitWhitespace(street)| - 1
  {
    var words := SplitWhitespace(street);
    FieldsAreWords(IsWhitespace, street);
    SqueezedIsConcat(street);
    SqueezedIsConcat(c);
    if i: nat, at: nat :| CanSplit(indexed, words, i, at) && c == Join(SplitAt(words, i, at)) {
      SplitKeepsLetters(words, i, at);
      JoinedComeApart(IsWhitespace, SplitAt(words, i, at));
    } else {
      var i: nat :| CanJoin(indexed, words, i) && c == Join(JoinAt(words, i));
      JoinKeepsLetters(words, i);
      JoinKeepsWords(words, i);
      JoinedComeApart(IsWhitespace, JoinAt(words, i));
    }
  }

  // --- One edit undoes another ---

  lemma SplitThenJoin(words: seq<string>, i: nat, at: nat)
    requires i < |words| && at <= |words[i]|
    ensures JoinAt(SplitAt(words, i, at), i) == words
  {
    var split := SplitAt(words, i, at);
    assert split[..i] == words[..i] && split[i + 2..] == words[i + 1..];
    assert split[i] + split[i + 1] == words[i];
  }

  lemma JoinThenSplit(words: seq<string>, i: nat)
    requires i + 1 < |words|
    ensures SplitAt(JoinAt(words, i), i, |words[i]|) == words
  {
    var joined := JoinAt(words, i);
    assert joined[..i] == words[..i] && joined[i + 1..] == words[i + 2..];
    assert joined[i] == words[i] + words[i + 1];
  }

  /** Joining the new words at `i` gives the old ones back: an alphabetic word fell into two indexed ones. */
  ghost predicate SplitsInto(indexed: Dictionary, words: seq<string>, now: seq<string>, i: nat) {
    && i + 1 < |now| && JoinAt(now, i) == words && IsAlphabetic(now[i] + now[i + 1])
    && indexed(now[i]) && indexed(now[i + 1])
  }

  /** Joining the old words at `i` gives the new ones: two alphabetic words became an indexed one. */
  ghost predicate JoinsInto(indexed: Dictionary, words: seq<string>, now: seq<string>, i: nat) {
    && i + 1 < |words| && JoinAt(words, i) == now && IsAlphabetic(words[i]) && IsAlphabetic(words[i + 1])
    && indexed(now[i])
  }

  lemma SplitEdit(indexed: Dictionary, words: seq<string>, now: seq<string>, i: nat)
    requires AreWords(IsWhitespace, now) && SplitsInto(indexed, words, now, i)
    ensures IsEdit(indexed, words, Join(now))
  {
    JoinThenSplit(now, i);
    assert IsWord(IsWhitespace, now[i]) && IsWord(IsWhitespace, now[i + 1]);
    assert words[i] == now[i] + now[i + 1];
    assert CanSplit(indexed, words, i, |now[i]|);
  }

  lemma EditSplits(indexed: Dictionary, words: seq<string>, now: seq<string>, i: nat, at: nat)
    requires AreWords(IsWhitespace, words) && AreWords(IsWhitespace, now)
    requires CanSplit(indexed, words, i, at) && Join(now) == Join(SplitAt(words, i, at))
    ensures SplitsInto(indexed, words, now, i)
  {
    SplitKeepsLetters(words, i, at);
    SameJoined(now, SplitAt(words, i, at));
    SplitThenJoin(words, i, at);
    assert now[i] + now[i + 1] == words[i];
  }

  lemma EditJoins(indexed: Dictionary, words: seq<string>, now: seq<string>, i: nat)
    requires AreWords(IsWhitespace, words) && AreWords(IsWhitespace, now)
    requires CanJoin(indexed, words, i) && Join(now) == Join(JoinAt(words, i))
    ensures JoinsInto(indexed, words, now, i)
  {
    JoinKeepsWords(words, i);
    SameJoined(now, JoinAt(words, i));
  }

  lemma SameJoined(a: seq<string>, b: seq<string>)
    requires AreWords(IsWhitespace, a) && AreWords(IsWhitespace, b) && Join(a) == Join(b)
    ensures a == b
  {
    JoinedComeApart(IsWhitespace, a);
    JoinedComeApart(IsWhitespace, b);
  }

  /**
   Which word lists are candidates: those of which an adjacent pair of indexed words joined gives
   the street's words, and those that the street's words become when a pair is joined to an indexed word.
   */
  lemma EditExactly(indexed: Dictionary, words: seq<string>, now: seq<string>)
    requires AreWords(IsWhitespace, words) && AreWords(IsWhitespace, now)
    ensures IsEdit(indexed, words, Join(now)) <==>
            || (exists i: nat :: SplitsInto(indexed, words, now, i))
            || (exists i: nat :: JoinsInto(indexed, words, now, i))
  {
    var c := Join(now);
    if IsEdit(indexed, words, c) {
      if i: nat, at: nat :| CanSplit(indexed, words, i, at) && c == Join(SplitAt(words, i, at)) {
        EditSplits(indexed, words, now, i, at);
      } else {
        var i: nat :| CanJoin(indexed, words, i) && c == Join(JoinAt(words, i));
        EditJoins(indexed, words, now, i);
      }
    }
    if i: nat :| SplitsInto(indexed, words, now, i) {
      SplitEdit(indexed, words, now, i);
    } else if i: nat :| JoinsInto(indexed, words, now, i) {
      assert CanJoin(indexed, words, i);
    }
  }
}
