/** Well-formed UTF-8 as a reader checks it, and the characters it encodes. */
module Utf8 {
  import opened Bytes

  predicate Continues(s: seq<Byte>, i: nat) {
    i < |s| && 0x80 <= s[i] <= 0xBF
  }

  /** The length of the well-formed character at the start, or zero. */
  function CharLength(s: seq<Byte>): (n: nat)
    ensures n <= |s| && n <= 4 && forall i :: 0 < i < n ==> s[i] >= 0x80
  {
    if s == [] then 0
    else if s[0] < 0x80 then 1
    else if !Continues(s, 1) then 0
    else if 0xC2 <= s[0] <= 0xDF then 2
    else if !Continues(s, 2) then 0
    else if s[0] == 0xE0 then if 0xA0 <= s[1] then 3 else 0
    else if s[0] == 0xED then if s[1] <= 0x9F then 3 else 0
    else if 0xE1 <= s[0] <= 0xEF then 3
    else if !Continues(s, 3) then 0
    else if s[0] == 0xF0 then if 0x90 <= s[1] then 4 else 0
    else if 0xF1 <= s[0] <= 0xF3 then 4
    else if s[0] == 0xF4 then if s[1] <= 0x8F then 4 else 0
    else 0
  }

  predicate IsUtf8(s: seq<Byte>) {
    s == [] || (CharLength(s) > 0 && IsUtf8(s[CharLength(s)..]))
  }

  lemma CharLengthLocal(s: seq<Byte>, t: seq<Byte>)
    requires CharLength(s) > 0 && CharLength(s) <= |t| && s[..CharLength(s)] == t[..CharLength(s)]
    ensures CharLength(t) == CharLength(s)
  {
    assert forall i :: 0 <= i < CharLength(s) ==> s[..CharLength(s)][i] == t[..CharLength(s)][i];
  }

  // --- The characters ---

  /** A Unicode scalar value: a code point that is no surrogate. */
  predicate IsScalar(c: nat) {
    c < 0x11_0000 && !(0xD800 <= c <= 0xDFFF)
  }

  function Tail(c: nat): Byte {
    0x80 + c % 64
  }

  /** The bytes of a character, in the shortest form. */
  function Encode(c: nat): (bytes: seq<Byte>)
    requires IsScalar(c)
    ensures bytes != []
  {
    if c < 0x80 then [c]
    else if c < 0x800 then [0xC0 + c / 64, Tail(c)]
    else if c < 0x1_0000 then [0xE0 + c / 4096, Tail(c / 64), Tail(c)]
    else [0xF0 + c / 262144, Tail(c / 4096), Tail(c / 64), Tail(c)]
  }

  type Scalar = c: nat | IsScalar(c)

  function EncodeAll(text: seq<Scalar>): seq<Byte> {
    if text == [] then [] else Encode(text[0]) + EncodeAll(text[1..])
  }

  lemma EncodedLength(c: nat, rest: seq<Byte>)
    requires IsScalar(c)
    ensures CharLength(Encode(c) + rest) == |Encode(c)|
  {
    var s := Encode(c) + rest;
    assert forall i :: 0 <= i < |Encode(c)| ==> s[i] == Encode(c)[i];
    if 0x800 <= c < 0x1_0000 {
      ThreeByteLength(c, c / 4096, c / 64 % 64, s);
    } else if c >= 0x1_0000 {
      FourByteLength(c, c / 262144, c / 4096 % 64, s);
    }
  }

  lemma ThreeByteLength(c: nat, x: nat, y: nat, s: seq<Byte>)
    requires IsScalar(c) && 0x800 <= c < 0x1_0000 && x == c / 4096 && y == c / 64 % 64
    requires |s| >= 3 && s[0] == 0xE0 + x && s[1] == 0x80 + y && 0x80 <= s[2] < 0xC0
    ensures CharLength(s) == 3
  {
    assert c / 64 == 64 * x + y;
  }

  lemma FourByteLength(c: nat, x: nat, y: nat, s: seq<Byte>)
    requires IsScalar(c) && c >= 0x1_0000 && x == c / 262144 && y == c / 4096 % 64
    requires |s| >= 4 && s[0] == 0xF0 + x && s[1] == 0x80 + y && 0x80 <= s[2] < 0xC0 && 0x80 <= s[3] < 0xC0
    ensures CharLength(s) == 4
  {
    assert c / 4096 == 64 * x + y;
  }

  lemma TwoBytes(x: nat, y: nat)
    requires 2 <= x < 32 && y < 64
    ensures IsScalar(64 * x + y) && Encode(64 * x + y) == [0xC0 + x, 0x80 + y]
  {
    assert (64 * x + y) / 64 == x && (64 * x + y) % 64 == y;
  }

  lemma ThreeBytes(x: nat, y: nat, z: nat)
    requires x < 16 && y < 64 && z < 64 && (x == 0 ==> y >= 32) && (x == 13 ==> y < 32)
    ensures var c := 4096 * x + 64 * y + z; IsScalar(c) && Encode(c) == [0xE0 + x, 0x80 + y, 0x80 + z]
  {
    var c := 4096 * x + 64 * y + z;
    assert c / 64 == 64 * x + y && c % 64 == z;
    assert c / 4096 == x && (c / 64) % 64 == y;
  }

  lemma FourBytes(x: nat, y: nat, z: nat, w: nat)
    requires x <= 4 && y < 64 && z < 64 && w < 64 && (x == 0 ==> y >= 16) && (x == 4 ==> y < 16)
    ensures var c := 262144 * x + 4096 * y + 64 * z + w;
            IsScalar(c) && Encode(c) == [0xF0 + x, 0x80 + y, 0x80 + z, 0x80 + w]
  {
    var c := 262144 * x + 4096 * y + 64 * z + w;
    assert c / 64 == 4096 * x + 64 * y + z && c % 64 == w;
    assert c / 4096 == 64 * x + y && (c / 64) % 64 == z;
    assert c / 262144 == x && (c / 4096) % 64 == y;
  }

  /** The bytes at the start that pass as a character are those of one. */
  lemma FirstCharacter(s: seq<Byte>) returns (c: Scalar)
    requires CharLength(s) > 0
    ensures Encode(c) == s[..CharLength(s)]
  {
    var n := CharLength(s);
    if n == 1 {
      c := s[0];
    } else if n == 2 {
      var x: nat, y: nat := s[0] - 0xC0, s[1] - 0x80;
      TwoBytes(x, y);
      c := 64 * x + y;
    } else if n == 3 {
      var x: nat, y: nat, z: nat := s[0] - 0xE0, s[1] - 0x80, s[2] - 0x80;
      ThreeBytes(x, y, z);
      c := 4096 * x + 64 * y + z;
    } else {
      var x: nat, y: nat, z: nat, w: nat := s[0] - 0xF0, s[1] - 0x80, s[2] - 0x80, s[3] - 0x80;
      FourBytes(x, y, z, w);
      c := 262144 * x + 4096 * y + 64 * z + w;
    }
  }

  lemma {:induction false} DecodeAll(s: seq<Byte>) returns (text: seq<Scalar>)
    requires IsUtf8(s)
    ensures EncodeAll(text) == s
  {
    if s == [] {
      text := [];
    } else {
      var n := CharLength(s);
      var c := FirstCharacter(s);
      var rest := DecodeAll(s[n..]);
      text := [c] + rest;
      assert text[1..] == rest && s == s[..n] + s[n..];
    }
  }

  lemma {:induction false} EncodedIsUtf8(text: seq<Scalar>)
    ensures IsUtf8(EncodeAll(text))
  {
    if text != [] {
      var first, rest := Encode(text[0]), EncodeAll(text[1..]);
      EncodedLength(text[0], rest);
      EncodedIsUtf8(text[1..]);
      assert (first + rest)[|first|..] == rest;
    }
  }

  /** The check passes exactly for the encodings of texts of Unicode characters. */
  lemma Utf8Exactly(s: seq<Byte>)
    ensures IsUtf8(s) <==> exists text :: EncodeAll(text) == s
  {
    if IsUtf8(s) {
      var text := DecodeAll(s);
    } else {
      forall text ensures EncodeAll(text) != s {
        EncodedIsUtf8(text);
      }
    }
  }
}
