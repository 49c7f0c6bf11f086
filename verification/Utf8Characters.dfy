/** UTF-8 strings are exactly the encodings of sequences of Unicode characters (section 3.9 of the Unicode Standard). */
module Utf8Characters {
  import opened ByteStrings
  import opened PercentCoding

  /** Code points that are not surrogates. */
  predicate IsScalar(c: nat) {
    c < 0xD800 || 0xE000 <= c <= 0x10FFFF
  }

  function Leading(mark: Byte, bits: nat): Byte
    requires mark as int + bits < 256
  {
    (mark as int + bits) as Byte
  }

  function Trailing(bits: nat): Byte {
    (0x80 + bits % 64) as Byte
  }

  /** The bits of a byte behind its mark. */
  function Bits(b: Byte, mark: Byte): nat
    requires b >= mark
  {
    (b - mark) as nat
  }

  /** The bytes of a character: its bits, six to every byte after the first (Table 3-6). */
  function Encode(c: nat): (r: Bytes)
    requires IsScalar(c)
    ensures 1 <= |r| <= 4
  {
    if c < 0x80 then [c as Byte]
    else if c < 0x800 then [Leading(0xC0, c / 64), Trailing(c)]
    else if c < 0x10000 then [Leading(0xE0, c / 4096), Trailing(c / 64), Trailing(c)]
    else [Leading(0xF0, c / 262144), Trailing(c / 4096), Trailing(c / 64), Trailing(c)]
  }

  lemma EncodedCharacter(c: nat, rest: Bytes)
    requires IsScalar(c)
    ensures CharLength(Encode(c) + rest) == |Encode(c)|
  {
  }

  lemma SixMoreBits(high: nat, low: nat)
    requires low < 64
    ensures (high * 64 + low) / 64 == high && (high * 64 + low) % 64 == low
  {
  }

  lemma TwoByteCharacter(s: Bytes) returns (c: nat)
    requires CharLength(s) == 2
    ensures IsScalar(c) && s[..2] == Encode(c)
  {
    var low := Bits(s[1], 0x80);
    c := Bits(s[0], 0xC0) * 64 + low;
    SixMoreBits(Bits(s[0], 0xC0), low);
  }

  lemma ThreeByteCharacter(s: Bytes) returns (c: nat)
    requires CharLength(s) == 3
    ensures IsScalar(c) && s[..3] == Encode(c)
  {
    var middle := Bits(s[0], 0xE0) * 64 + Bits(s[1], 0x80);
    c := middle * 64 + Bits(s[2], 0x80);
    SixMoreBits(Bits(s[0], 0xE0), Bits(s[1], 0x80));
    SixMoreBits(middle, Bits(s[2], 0x80));
    assert c / 4096 == middle / 64;
  }

  lemma FourByteCharacter(s: Bytes) returns (c: nat)
    requires CharLength(s) == 4
    ensures IsScalar(c) && s[..4] == Encode(c)
  {
    var high := Bits(s[0], 0xF0) * 64 + Bits(s[1], 0x80);
    var middle := high * 64 + Bits(s[2], 0x80);
    c := middle * 64 + Bits(s[3], 0x80);
    SixMoreBits(Bits(s[0], 0xF0), Bits(s[1], 0x80));
    SixMoreBits(high, Bits(s[2], 0x80));
    SixMoreBits(middle, Bits(s[3], 0x80));
    assert c / 4096 == middle / 64 && c / 262144 == high / 64;
  }

  lemma CharacterIsEncoded(s: Bytes) returns (c: nat)
    requires CharLength(s) > 0
    ensures IsScalar(c) && s[..CharLength(s)] == Encode(c)
  {
    match CharLength(s)
    case 1 => c := s[0] as nat;
    case 2 => c := TwoByteCharacter(s);
    case 3 => c := ThreeByteCharacter(s);
    case _ => c := FourByteCharacter(s);
  }

  predicate AreScalars(text: seq<nat>) {
    forall i :: 0 <= i < |text| ==> IsScalar(text[i])
  }

  function EncodeAll(text: seq<nat>): Bytes
    requires AreScalars(text)
  {
    if text == [] then [] else Encode(text[0]) + EncodeAll(text[1..])
  }

  /** Every text is encoded as UTF-8, character by character. */
  lemma {:induction false} TextIsUtf8(text: seq<nat>)
    requires AreScalars(text)
    ensures Utf8(EncodeAll(text)) && CharCount(EncodeAll(text)) == |text|
  {
    if text != [] {
      TextIsUtf8(text[1..]);
      EncodedCharacter(text[0], EncodeAll(text[1..]));
      assert EncodeAll(text)[|Encode(text[0])|..] == EncodeAll(text[1..]);
    }
  }

  /** Every UTF-8 string encodes a text. */
  lemma {:induction false} Utf8IsText(s: Bytes) returns (text: seq<nat>)
    requires Utf8(s)
    ensures AreScalars(text) && EncodeAll(text) == s
    decreases |s|
  {
    text := [];
    if s != [] {
      var c := CharacterIsEncoded(s);
      var rest := Utf8IsText(s[CharLength(s)..]);
      text := [c] + rest;
      assert text[1..] == rest && s == s[..CharLength(s)] + s[CharLength(s)..];
    }
  }

  /** Valid UTF-8 is what some text is encoded as. */
  lemma Utf8Iff(s: Bytes)
    ensures Utf8(s) <==> exists text :: AreScalars(text) && EncodeAll(text) == s
  {
    if Utf8(s) {
      var text := Utf8IsText(s);
      assert AreScalars(text) && EncodeAll(text) == s;
    }
    if text :| AreScalars(text) && EncodeAll(text) == s {
      TextIsUtf8(text);
    }
  }
}
