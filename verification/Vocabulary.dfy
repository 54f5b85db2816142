/** The word tables of the street-name rewriters, and what they must not mix up. */
module Vocabulary {
  import opened Numerals
  import opened Text
  import opened Wrappers

  /** Looks words up in lower case. */
  datatype Vocabulary = Vocabulary(
    abbreviation: string -> Option<string>,  // street types: "rd" is "road"
    place: string -> Option<string>,         // Saint, Mount and Fort: "saint" is "st"
    isStreetType: string -> bool,
    isDirectional: string -> bool,
    tens: string -> nat,                     // "twenty" is 20, other words 0
    ordinalWord: string -> nat)              // "first" is 1, other words 0

  function Expand(v: Vocabulary, w: string): string {
    if v.abbreviation(w).Some? then v.abbreviation(w).value else w
  }

  function Fold(v: Vocabulary, w: string): string {
    if v.place(w).Some? then v.place(w).value else w
  }

  function Ones(v: Vocabulary, w: string): nat {
    if v.ordinalWord(w) < 10 then v.ordinalWord(w) else 0
  }

  /** Words with no meaning to the rewriters but as a name. */
  ghost predicate IsName(v: Vocabulary, w: string) {
    && v.abbreviation(w).None? && v.place(w).None? && !v.isStreetType(w) && !v.isDirectional(w)
    && v.tens(w) == 0 && v.ordinalWord(w) == 0 && w != "st" && w != "street" && w != "dr" && w != "doctor"
  }

  ghost predicate NumbersAreNames(v: Vocabulary) {
    forall w :: StartsWithDigit(w) ==> IsName(v, w)
  }

  ghost predicate IsLowerWord(w: string) {
    IsWord(IsSeparator, w) && Lower(w) == w && !StartsWithDigit(w)
  }

  /** What an abbreviation stands for: a word that the rewriters leave alone. */
  ghost predicate IsFullForm(v: Vocabulary, w: string) {
    && v.abbreviation(w).None? && v.place(w).None? && !v.isDirectional(w)
    && v.tens(w) == 0 && v.ordinalWord(w) == 0 && w != "st" && w != "dr" && IsLowerWord(w)
  }

  ghost predicate ExpandsOnce(v: Vocabulary) {
    && (forall w :: v.abbreviation(w).Some? ==>
          v.place(w).None? && !v.isDirectional(w) && !v.isStreetType(w)
          && v.tens(w) == 0 && v.ordinalWord(w) == 0
          && w != "st" && IsFullForm(v, v.abbreviation(w).value))
    && v.abbreviation("dr").Some? && IsFullForm(v, "street") && IsFullForm(v, "doctor")
  }

  /** A place word, abbreviated or not, is nothing else. */
  ghost predicate IsPlaceWord(v: Vocabulary, w: string) {
    && v.place(w).Some? && v.abbreviation(w).None? && !v.isStreetType(w) && !v.isDirectional(w)
    && v.tens(w) == 0 && v.ordinalWord(w) == 0 && w != "dr" && IsLowerWord(w)
  }

  ghost predicate FoldsOnce(v: Vocabulary) {
    && (forall w :: v.place(w).Some? ==>
          IsPlaceWord(v, w) && IsPlaceWord(v, v.place(w).value)
          && v.place(v.place(w).value) == v.place(w))
    && v.place("st") == Some("st")
  }

  predicate EndsInDot(w: string) {
    w != "" && w[|w| - 1] == '.'
  }

  ghost predicate NumeralsApart(v: Vocabulary) {
    && (forall w :: v.isDirectional(w) ==> v.tens(w) == 0 && v.ordinalWord(w) == 0)
    && (forall w :: v.ordinalWord(w) > 0 ==> v.tens(w) == 0 && !v.isStreetType(w) && v.ordinalWord(w) <= 20)
    && (forall w :: v.tens(w) > 0 ==> v.tens(w) <= 90 && !v.isStreetType(w))
    && (forall w :: EndsInDot(w) ==> v.tens(w) == 0 && v.ordinalWord(w) == 0)
  }

  /**
   What the tables must satisfy for the two rewriters to agree.  A row added to a table keeps
   agreement and settling as long as it keeps this.
   */
  ghost predicate Consistent(v: Vocabulary) {
    NumbersAreNames(v) && ExpandsOnce(v) && FoldsOnce(v) && NumeralsApart(v)
  }
}
