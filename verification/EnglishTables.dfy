/** The word tables of the repository, and that they are consistent. */
module EnglishTables {
  import opened Numerals
  import opened Text
  import opened Vocabulary
  import opened Wrappers

  // --- Street types ---

  function Abbreviations1(w: string): Option<string> {
    if w == "hwy" then Some("highway")
    else if w == "pde" then Some("parade")
    else if w == "tce" then Some("terrace")
    else if w == "ter" then Some("terrace")
    else if w == "cres" then Some("crescent")
    else if w == "blvd" then Some("boulevard")
    else if w == "blv" then Some("boulevard")
    else if w == "bvd" then Some("boulevard")
    else None
  }

  function Abbreviations2(w: string): Option<string> {
    if w == "ln" then Some("lane")
    else if w == "ave" then Some("avenue")
    else if w == "av" then Some("avenue")
    else if w == "rd" then Some("road")
    else if w == "dr" then Some("drive")
    else if w == "tr" then Some("trail")
    else if w == "ct" then Some("court")
    else if w == "cl" then Some("close")
    else None
  }

  function Abbreviations3(w: string): Option<string> {
    if w == "pl" then Some("place")
    else if w == "pkwy" then Some("parkway")
    else if w == "sq" then Some("square")
    else if w == "cir" then Some("circle")
    else if w == "trl" then Some("trail")
    else if w == "xing" then Some("crossing")
    else if w == "aly" then Some("alley")
    else if w == "fwy" then Some("freeway")
    else None
  }

  function Abbreviations4(w: string): Option<string> {
    if w == "expy" then Some("expressway")
    else if w == "plz" then Some("plaza")
    else if w == "hts" then Some("heights")
    else if w == "pt" then Some("point")
    else if w == "ctr" then Some("center")
    else if w == "cv" then Some("cove")
    else if w == "gdns" then Some("gardens")
    else if w == "grv" then Some("grove")
    else None
  }

  function Abbreviations5(w: string): Option<string> {
    if w == "gve" then Some("grove")
    else if w == "gr" then Some("grove")
    else if w == "jct" then Some("junction")
    else if w == "mnr" then Some("manor")
    else if w == "pk" then Some("park")
    else if w == "rdg" then Some("ridge")
    else if w == "rte" then Some("route")
    else if w == "vlg" then Some("village")
    else None
  }

  function Abbreviations6(w: string): Option<string> {
    if w == "vw" then Some("view")
    else if w == "wy" then Some("way")
    else if w == "esp" then Some("esplanade")
    else if w == "cct" then Some("circuit")
    else if w == "crs" then Some("crescent")
    else if w == "qy" then Some("quay")
    else if w == "tpke" then Some("turnpike")
    else if w == "wk" then Some("walk")
    else None
  }

  function Abbreviations7(w: string): Option<string> {
    if w == "wlk" then Some("walk")
    else if w == "cswy" then Some("causeway")
    else if w == "brg" then Some("bridge")
    else if w == "byp" then Some("bypass")
    else if w == "lp" then Some("loop")
    else if w == "pwy" then Some("parkway")
    else if w == "jr" then Some("junior")
    else if w == "sr" then Some("senior")
    else None
  }

  /** The table of abbreviations, which the source searches from its first row on. */
  function StreetTypeAbbreviation(w: string): Option<string> {
    if Abbreviations1(w).Some? then Abbreviations1(w)
    else if Abbreviations2(w).Some? then Abbreviations2(w)
    else if Abbreviations3(w).Some? then Abbreviations3(w)
    else if Abbreviations4(w).Some? then Abbreviations4(w)
    else if Abbreviations5(w).Some? then Abbreviations5(w)
    else if Abbreviations6(w).Some? then Abbreviations6(w)
    else Abbreviations7(w)
  }

  predicate StreetTypes1(w: string) {
    || w == "highway" || w == "parade" || w == "terrace" || w == "crescent"
    || w == "boulevard" || w == "lane" || w == "avenue" || w == "road"
    || w == "drive" || w == "trail" || w == "court" || w == "close"
    || w == "place" || w == "parkway" || w == "square" || w == "circle"
  }

  predicate StreetTypes2(w: string) {
    || w == "crossing" || w == "alley" || w == "freeway" || w == "expressway"
    || w == "plaza" || w == "heights" || w == "point" || w == "center"
    || w == "cove" || w == "gardens" || w == "grove" || w == "junction"
    || w == "manor" || w == "park" || w == "ridge" || w == "route"
  }

  predicate StreetTypes3(w: string) {
    || w == "village" || w == "view" || w == "way" || w == "esplanade"
    || w == "circuit" || w == "quay" || w == "turnpike" || w == "walk"
    || w == "causeway" || w == "bridge" || w == "bypass" || w == "loop"
    || w == "street"
  }

  /** "street", "way", and what the table has in full but for the name suffixes junior and senior. */
  predicate IsStreetType(w: string) {
    StreetTypes1(w) || StreetTypes2(w) || StreetTypes3(w)
  }

  // --- Other words ---

  function PlaceAbbreviation(w: string): Option<string> {
    if w == "saint" || w == "sainte" || w == "st" || w == "ste" then Some("st")
    else if w == "mount" || w == "mt" then Some("mt")
    else if w == "fort" || w == "ft" then Some("ft")
    else None
  }

  predicate IsDirectional(w: string) {
    || w == "n" || w == "s" || w == "e" || w == "w"
    || w == "ne" || w == "nw" || w == "se" || w == "sw"
    || w == "north" || w == "south" || w == "east" || w == "west"
    || w == "northeast" || w == "northwest" || w == "southeast" || w == "southwest"
  }

  function Tens(w: string): nat {
    if w == "twenty" then 20
    else if w == "thirty" then 30
    else if w == "forty" then 40
    else if w == "fifty" then 50
    else if w == "sixty" then 60
    else if w == "seventy" then 70
    else if w == "eighty" then 80
    else if w == "ninety" then 90
    else 0
  }

  function OnesWord(w: string): nat {
    if w == "first" then 1
    else if w == "second" then 2
    else if w == "third" then 3
    else if w == "fourth" then 4
    else if w == "fifth" then 5
    else if w == "sixth" then 6
    else if w == "seventh" then 7
    else if w == "eighth" then 8
    else if w == "ninth" then 9
    else 0
  }

  function TeensWord(w: string): nat {
    if w == "tenth" then 10
    else if w == "eleventh" then 11
    else if w == "twelfth" then 12
    else if w == "thirteenth" then 13
    else if w == "fourteenth" then 14
    else if w == "fifteenth" then 15
    else if w == "sixteenth" then 16
    else if w == "seventeenth" then 17
    else if w == "eighteenth" then 18
    else if w == "nineteenth" then 19
    else if w == "twentieth" then 20
    else 0
  }

  function OrdinalWord(w: string): nat {
    if OnesWord(w) > 0 then OnesWord(w) else TeensWord(w)
  }

  const ENGLISH := Vocabulary(w => StreetTypeAbbreviation(w), w => PlaceAbbreviation(w), w => IsStreetType(w),
                              w => IsDirectional(w), w => Tens(w), w => OrdinalWord(w))

  // --- Telling the tables apart by a few letters ---

  predicate PlaceShape(w: string) {
    if |w| < 2 then false
    else if w[0] == 's' then w[1] == 'a' || (w[1] == 't' && |w| <= 3)
    else (w[0] == 'm' || (w[0] == 'f' && |w| <= 4)) && (w[1] == 'o' || w[1] == 't')
  }

  predicate CompassShape(w: string) {
    if |w| == 0 then false
    else if |w| == 1 then w[0] == 'n' || w[0] == 's' || w[0] == 'e' || w[0] == 'w'
    else if w[0] == 'n' then w[1] == 'e' || w[1] == 'w' || w[1] == 'o'
    else if w[0] == 's' then ((w[1] == 'e' || w[1] == 'w') && |w| == 2) || w[1] == 'o'
    else (w[0] == 'e' && w[1] == 'a') || (w[0] == 'w' && w[1] == 'e')
  }

  predicate NumberShape(w: string) {
    if |w| < 5 then false
    else if w[0] == 'f' then w[1] == 'i' || w[1] == 'o'
    else if w[0] == 's' then w[1] == 'i' || (w[1] == 'e' && (w[2] == 'c' || w[2] == 'v'))
    else if w[0] == 't' then w[1] == 'h' || w[1] == 'w' || (w[1] == 'e' && w[2] == 'n')
    else (w[0] == 'e' && (w[1] == 'i' || w[1] == 'l')) || (w[0] == 'n' && w[1] == 'i')
  }

  predicate RoadShape(w: string) {
    |w| >= 2 && !IsDigit(w[0]) && !PlaceShape(w) && !CompassShape(w) && !NumberShape(w)
  }

  predicate FullShape(w: string) {
    || |w| >= 5
    || (|w| >= 3 && (w[1] == 'a' || w[1] == 'o' || w[1] == 'u'))
    || (|w| == 4 && w[1] == 'i' && w[2] == 'e')
  }

  predicate IsLow(c: char) {
    'a' <= c <= 'z'
  }

  /** Up to ten lower-case letters. */
  predicate ShortLower(w: string) {
    && 0 < |w| <= 10 && IsLow(w[0]) && (|w| < 2 || IsLow(w[1])) && (|w| < 3 || IsLow(w[2]))
    && (|w| < 4 || IsLow(w[3])) && (|w| < 5 || IsLow(w[4])) && (|w| < 6 || IsLow(w[5]))
    && (|w| < 7 || IsLow(w[6])) && (|w| < 8 || IsLow(w[7])) && (|w| < 9 || IsLow(w[8]))
    && (|w| < 10 || IsLow(w[9]))
  }

  lemma ShortLowerIsLowerWord(w: string)
    requires ShortLower(w)
    ensures IsLowerWord(w)
  {}

  ghost predicate RowFits(w: string, full: string) {
    RoadShape(w) && !FullShape(w) && RoadShape(full) && FullShape(full) && ShortLower(full)
  }

  lemma Rows1Fit(w: string)
    ensures Abbreviations1(w).Some? ==> RowFits(w, Abbreviations1(w).value)
  {}

  lemma Rows2Fit(w: string)
    ensures Abbreviations2(w).Some? ==> RowFits(w, Abbreviations2(w).value)
  {}

  lemma Rows3Fit(w: string)
    ensures Abbreviations3(w).Some? ==> RowFits(w, Abbreviations3(w).value)
  {}

  lemma Rows4Fit(w: string)
    ensures Abbreviations4(w).Some? ==> RowFits(w, Abbreviations4(w).value)
  {}

  lemma Rows5Fit(w: string)
    ensures Abbreviations5(w).Some? ==> RowFits(w, Abbreviations5(w).value)
  {}

  lemma Rows6Fit(w: string)
    ensures Abbreviations6(w).Some? ==> RowFits(w, Abbreviations6(w).value)
  {}

  lemma Rows7Fit(w: string)
    ensures Abbreviations7(w).Some? ==> RowFits(w, Abbreviations7(w).value)
  {}

  lemma Types1Fit(w: string)
    ensures StreetTypes1(w) ==> RoadShape(w) && FullShape(w)
  {}

  lemma Types2Fit(w: string)
    ensures StreetTypes2(w) ==> RoadShape(w) && FullShape(w)
  {}

  lemma Types3Fit(w: string)
    ensures StreetTypes3(w) ==> RoadShape(w) && FullShape(w)
  {}

  lemma PlacesFit(w: string)
    ensures PlaceAbbreviation(w).Some? ==>
              PlaceShape(w) && ShortLower(w) && PlaceShape(PlaceAbbreviation(w).value)
              && ShortLower(PlaceAbbreviation(w).value)
              && PlaceAbbreviation(PlaceAbbreviation(w).value) == PlaceAbbreviation(w)
  {}

  lemma DirectionsFit(w: string)
    ensures IsDirectional(w) ==> CompassShape(w)
  {}

  lemma TensFit(w: string)
    ensures Tens(w) > 0 ==> NumberShape(w) && Tens(w) <= 90 && w[|w| - 1] == 'y'
  {}

  lemma OnesFit(w: string)
    ensures OnesWord(w) > 0 ==> NumberShape(w) && OnesWord(w) <= 9 && w[|w| - 1] != 'y' && w[|w| - 1] != '.'
  {}

  lemma TeensFit(w: string)
    ensures TeensWord(w) > 0 ==> NumberShape(w) && TeensWord(w) <= 20 && w[|w| - 1] != 'y' && w[|w| - 1] != '.'
  {}

  lemma AbbreviationsFit(w: string)
    ensures StreetTypeAbbreviation(w).Some? ==> RowFits(w, StreetTypeAbbreviation(w).value)
  {
    Rows1Fit(w);
    Rows2Fit(w);
    Rows3Fit(w);
    Rows4Fit(w);
    Rows5Fit(w);
    Rows6Fit(w);
    Rows7Fit(w);
  }

  lemma StreetTypesFit(w: string)
    ensures IsStreetType(w) ==> RoadShape(w) && FullShape(w)
  {
    Types1Fit(w);
    Types2Fit(w);
    Types3Fit(w);
  }

  /** What the shapes say about the tables of a vocabulary, word by word. */
  ghost predicate WordFits(v: Vocabulary, w: string) {
    && (v.abbreviation(w).Some? ==> RowFits(w, v.abbreviation(w).value))
    && (v.isStreetType(w) ==> RoadShape(w) && FullShape(w))
    && (v.place(w).Some? ==>
          PlaceShape(w) && ShortLower(w) && PlaceShape(v.place(w).value) && ShortLower(v.place(w).value)
          && v.place(v.place(w).value) == v.place(w))
    && (v.isDirectional(w) ==> CompassShape(w))
    && (v.tens(w) > 0 ==> NumberShape(w) && v.tens(w) <= 90 && w[|w| - 1] == 'y')
    && (v.ordinalWord(w) > 0 ==>
          NumberShape(w) && v.ordinalWord(w) <= 20 && w[|w| - 1] != 'y' && w[|w| - 1] != '.')
  }

  ghost predicate Fits(v: Vocabulary) {
    (forall w :: WordFits(v, w)) && v.abbreviation("dr").Some? && v.place("st") == Some("st")
  }

  lemma ShapesApart(v: Vocabulary, w: string)
    requires WordFits(v, w)
    ensures StartsWithDigit(w) ==> IsName(v, w)
    ensures RoadShape(w) && FullShape(w) && ShortLower(w) && w != "dr" ==> IsFullForm(v, w)
    ensures v.place(w).Some? ==> IsPlaceWord(v, w)
    ensures v.isDirectional(w) ==> v.tens(w) == 0 && v.ordinalWord(w) == 0
    ensures v.ordinalWord(w) > 0 ==> v.tens(w) == 0 && !v.isStreetType(w)
    ensures v.tens(w) > 0 ==> !v.isStreetType(w)
    ensures EndsInDot(w) ==> v.tens(w) == 0 && v.ordinalWord(w) == 0
  {
    if ShortLower(w) {
      ShortLowerIsLowerWord(w);
    }
  }

  lemma FittingIsConsistent(v: Vocabulary)
    requires Fits(v)
    ensures Consistent(v)
  {
    forall w ensures StartsWithDigit(w) ==> IsName(v, w) {
      assert WordFits(v, w);
      ShapesApart(v, w);
    }
    FittingExpands(v);
    FittingFolds(v);
    forall w
      ensures v.isDirectional(w) ==> v.tens(w) == 0 && v.ordinalWord(w) == 0
      ensures v.ordinalWord(w) > 0 ==> v.tens(w) == 0 && !v.isStreetType(w) && v.ordinalWord(w) <= 20
      ensures v.tens(w) > 0 ==> v.tens(w) <= 90 && !v.isStreetType(w)
      ensures EndsInDot(w) ==> v.tens(w) == 0 && v.ordinalWord(w) == 0
    {
      assert WordFits(v, w);
      ShapesApart(v, w);
    }
  }

  lemma FittingExpands(v: Vocabulary)
    requires Fits(v)
    ensures ExpandsOnce(v)
  {
    forall w | v.abbreviation(w).Some?
      ensures v.place(w).None? && !v.isDirectional(w) && !v.isStreetType(w)
      ensures v.tens(w) == 0 && v.ordinalWord(w) == 0 && w != "st" && IsFullForm(v, v.abbreviation(w).value)
    {
      AbbreviationFits(v, w);
    }
    assert WordFits(v, "street") && WordFits(v, "doctor");
    ShapesApart(v, "street");
    ShapesApart(v, "doctor");
  }

  lemma AbbreviationFits(v: Vocabulary, w: string)
    requires Fits(v) && v.abbreviation(w).Some?
    ensures v.place(w).None? && !v.isDirectional(w) && !v.isStreetType(w)
    ensures v.tens(w) == 0 && v.ordinalWord(w) == 0 && w != "st" && IsFullForm(v, v.abbreviation(w).value)
  {
    var full := v.abbreviation(w).value;
    assert WordFits(v, w) && WordFits(v, full);
    ShapesApart(v, full);
  }

  lemma FittingFolds(v: Vocabulary)
    requires Fits(v)
    ensures FoldsOnce(v)
  {
    forall w | v.place(w).Some?
      ensures IsPlaceWord(v, w) && IsPlaceWord(v, v.place(w).value) && v.place(v.place(w).value) == v.place(w)
    {
      assert WordFits(v, w) && WordFits(v, v.place(w).value);
      ShapesApart(v, w);
      ShapesApart(v, v.place(w).value);
    }
  }

  lemma EveryWordFits(w: string)
    ensures WordFits(ENGLISH, w)
  {
    AbbreviationsFit(w);
    StreetTypesFit(w);
    PlacesFit(w);
    DirectionsFit(w);
    TensFit(w);
    OnesFit(w);
    TeensFit(w);
  }

  /** The repository's tables meet every requirement of the rewriters. */
  lemma EnglishIsConsistent()
    ensures Consistent(ENGLISH)
  {
    forall w ensures WordFits(ENGLISH, w) {
      EveryWordFits(w);
    }
    FittingIsConsistent(ENGLISH);
  }

  /** An abbreviation and what it stands for are no compass, place or number words, and are not each other. */
  lemma AbbreviationsApart(w: string)
    requires StreetTypeAbbreviation(w).Some?
    ensures var full := StreetTypeAbbreviation(w).value;
            && StreetTypeAbbreviation(full).None? && ENGLISH.place(w).None? && ENGLISH.place(full).None?
            && !ENGLISH.isDirectional(w) && !ENGLISH.isDirectional(full)
            && ENGLISH.tens(w) == ENGLISH.tens(full) == 0
            && ENGLISH.ordinalWord(w) == ENGLISH.ordinalWord(full) == 0
  {
    EnglishIsConsistent();
    assert ENGLISH.abbreviation(w).Some? && IsFullForm(ENGLISH, ENGLISH.abbreviation(w).value);
  }
}
