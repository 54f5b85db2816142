/** Decimal numbers and English ordinals such as "22nd". */
module Numerals {
  import opened Text
  import opened Wrappers

  const U32_LIMIT: nat := 0x1_0000_0000

  predicate AllDigits(s: string) {
    forall i :: 0 <= i < |s| ==> IsDigit(s[i])
  }

  function DigitChar(d: nat): char
    requires d < 10
  {
    '0' + d as char
  }

  function DigitsOf(n: nat): (s: string)
    ensures s != "" && AllDigits(s)
  {
    if n < 10 then [DigitChar(n)] else DigitsOf(n / 10) + [DigitChar(n % 10)]
  }

  function ValueOf(s: string): nat
    requires AllDigits(s)
  {
    if s == "" then 0 else 10 * ValueOf(s[..|s| - 1]) + (s[|s| - 1] - '0') as nat
  }

  /** `parse::<u32>` of a text of digits. */
  function ParseU32(s: string): Option<nat>
    requires AllDigits(s)
  {
    if s == "" || ValueOf(s) >= U32_LIMIT then None else Some(ValueOf(s))
  }

  lemma {:induction false} DigitsReadBack(n: nat)
    ensures ValueOf(DigitsOf(n)) == n
  {
    if n >= 10 {
      DigitsReadBack(n / 10);
      assert DigitsOf(n)[..|DigitsOf(n)| - 1] == DigitsOf(n / 10);
    } else {
      assert ValueOf([DigitChar(n)][..0]) == 0;
    }
  }

  function SuffixOf(n: nat): (s: string)
    ensures |s| == 2 && IsSuffix(s)
  {
    if 11 <= n % 100 <= 13 then "th"
    else if n % 10 == 1 then "st"
    else if n % 10 == 2 then "nd"
    else if n % 10 == 3 then "rd"
    else "th"
  }

  predicate IsSuffix(s: string) {
    s == "st" || s == "nd" || s == "rd" || s == "th"
  }

  /** "1st", "22nd", "113th". */
  function Ordinal(n: nat): string {
    DigitsOf(n) + SuffixOf(n)
  }

  /** "st" after one, "nd" after two and "rd" after three, but not after eleven, twelve and thirteen. */
  lemma SuffixMeans(n: nat)
    ensures SuffixOf(n) == "st" <==> n % 10 == 1 && n % 100 != 11
    ensures SuffixOf(n) == "nd" <==> n % 10 == 2 && n % 100 != 12
    ensures SuffixOf(n) == "rd" <==> n % 10 == 3 && n % 100 != 13
    ensures SuffixOf(n) != "st" && SuffixOf(n) != "nd" && SuffixOf(n) != "rd" ==> SuffixOf(n) == "th"
  {
    LastDigit(n, n / 100, n % 100);
  }

  lemma LastDigit(n: nat, hundreds: nat, rest: nat)
    requires n == 100 * hundreds + rest && rest < 100
    ensures n % 10 == rest % 10
  {
    Remainder(n, 10 * hundreds + rest / 10, rest % 10);
  }

  lemma Remainder(n: nat, q: nat, r: nat)
    requires n == 10 * q + r && r < 10
    ensures n % 10 == r
  {}

  /** Digits before an ordinal suffix. */
  predicate IsOrdinal(s: string) {
    |s| > 2 && IsSuffix(s[|s| - 2..]) && AllDigits(s[..|s| - 2])
  }

  /** A text that starts with a digit is no dictionary word. */
  predicate StartsWithDigit(s: string) {
    s != "" && IsDigit(s[0])
  }

  lemma OrdinalStartsWithDigit(s: string)
    ensures IsOrdinal(s) ==> StartsWithDigit(s)
  {
    assert IsOrdinal(s) ==> s[0] == s[..|s| - 2][0];
  }

  lemma DigitsAreNoOrdinal(s: string)
    ensures AllDigits(s) ==> !IsOrdinal(s)
  {
    assert |s| > 2 ==> s[|s| - 2..][0] == s[|s| - 2];
  }

  lemma OrdinalForm(n: nat)
    ensures IsOrdinal(Ordinal(n)) && Ordinal(n)[..|Ordinal(n)| - 2] == DigitsOf(n)
    ensures StartsWithDigit(Ordinal(n)) && !AllDigits(Ordinal(n)) && Lower(Ordinal(n)) == Ordinal(n)
    ensures IsWord(IsSeparator, Ordinal(n))
  {
    var s := Ordinal(n);
    assert s[|s| - 2..] == SuffixOf(n) && s[..|s| - 2] == DigitsOf(n);
    assert s[|s| - 2] == SuffixOf(n)[0];
    forall i | 0 <= i < |s| ensures LowerChar(s[i]) == s[i] && !IsSeparator(s[i]) {
      if i < |s| - 2 {
        assert s[i] == DigitsOf(n)[i];
      } else {
        assert s[i] == SuffixOf(n)[i - (|s| - 2)];
      }
    }
  }

  lemma OrdinalReadsBack(n: nat)
    requires n < U32_LIMIT
    ensures IsOrdinal(Ordinal(n)) && ParseU32(Ordinal(n)[..|Ordinal(n)| - 2]) == Some(n)
  {
    OrdinalForm(n);
    DigitsReadBack(n);
  }
}
