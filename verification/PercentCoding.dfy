/** UTF-8 strings as byte sequences, and percent decoding (app/terminal.rs). */
module PercentCoding {
  import opened Wrappers
  import opened ByteStrings

  const PERCENT: Byte := 0x25

  // ----- UTF-8 -----

  predicate Continuation(b: Byte) {
    0x80 <= b <= 0xBF
  }

  /** The length of the well-formed character at the start of `s`, or zero (Table 3-7 of the Unicode Standard). */
  function CharLength(s: Bytes): (n: nat)
    ensures n <= 4 && n <= |s|
  {
    if s == [] then 0
    else if s[0] <= 0x7F then 1
    else if 0xC2 <= s[0] <= 0xDF then if |s| >= 2 && Continuation(s[1]) then 2 else 0
    else if 0xE0 <= s[0] <= 0xEF then
      if |s| >= 3 && Continuation(s[1]) && Continuation(s[2])
         && (s[0] == 0xE0 ==> s[1] >= 0xA0) && (s[0] == 0xED ==> s[1] <= 0x9F) then 3 else 0
    else if 0xF0 <= s[0] <= 0xF4 then
      if |s| >= 4 && Continuation(s[1]) && Continuation(s[2]) && Continuation(s[3])
         && (s[0] == 0xF0 ==> s[1] >= 0x90) && (s[0] == 0xF4 ==> s[1] <= 0x8F) then 4 else 0
    else 0
  }

  predicate Utf8(s: Bytes) {
    s == [] || (CharLength(s) > 0 && Utf8(s[CharLength(s)..]))
  }

  function CharCount(s: Bytes): (n: nat)
    requires Utf8(s)
    ensures n <= |s| <= 4 * n
  {
    if s == [] then 0 else 1 + CharCount(s[CharLength(s)..])
  }

  predicate IsSuffix(r: Bytes, s: Bytes) {
    |r| <= |s| && r == s[|s| - |r|..]
  }

  lemma SuffixOfTail(r: Bytes, s: Bytes, n: nat)
    requires n <= |s| && IsSuffix(r, s[n..])
    ensures IsSuffix(r, s)
  {
  }

  function DropChars(s: Bytes, k: nat): (r: Bytes)
    requires Utf8(s) && k <= CharCount(s)
    ensures Utf8(r) && CharCount(r) == CharCount(s) - k
    ensures IsSuffix(r, s)
  {
    if k == 0 then s
    else
      var n := CharLength(s);
      var r := DropChars(s[n..], k - 1);
      SuffixOfTail(r, s, n);
      r
  }

  /** The last `n` characters: `chars().rev().take(n)`, back in order. */
  function LastChars(s: Bytes, n: nat): (r: Bytes)
    requires Utf8(s)
    ensures Utf8(r) && IsSuffix(r, s)
    ensures CharCount(r) == if CharCount(s) <= n then CharCount(s) else n
  {
    if CharCount(s) <= n then s else DropChars(s, CharCount(s) - n)
  }

  lemma {:induction false} CharLengthOfExtension(s: Bytes, t: Bytes)
    requires CharLength(s) > 0
    ensures CharLength(s + t) == CharLength(s)
  {
  }

  lemma {:induction false} Utf8Concat(s: Bytes, t: Bytes)
    requires Utf8(s) && Utf8(t)
    ensures Utf8(s + t)
    decreases |s|
  {
    if s == [] {
      assert s + t == t;
    } else {
      var n := CharLength(s);
      CharLengthOfExtension(s, t);
      assert (s + t)[n..] == s[n..] + t;
      Utf8Concat(s[n..], t);
    }
  }

  /** An ASCII byte ends a character, so a string can be cut after it. */
  lemma {:induction false} CutAfterAscii(s: Bytes, c: nat)
    requires Utf8(s) && 0 < c <= |s| && s[c - 1] <= 0x7F
    ensures Utf8(s[..c]) && Utf8(s[c..])
    decreases |s|
  {
    var n := CharLength(s);
    FirstCharacter(s, c);
    if c == n {
      assert s[..c][n..] == [];
    } else {
      CutAfterAscii(s[n..], c - n);
      assert s[..c][n..] == s[n..][..c - n];
      assert s[c..] == s[n..][c - n..];
    }
  }

  lemma FirstCharacter(s: Bytes, c: nat)
    requires CharLength(s) > 0 && 0 < c <= |s| && s[c - 1] <= 0x7F
    ensures c >= CharLength(s)
    ensures CharLength(s[..c]) == CharLength(s)
  {
  }

  // ----- Percent decoding -----

  /** `hex_value`. */
  function HexValue(b: Byte): Option<nat> {
    if 0x30 <= b <= 0x39 then Some((b - 0x30) as nat)
    else if 0x61 <= b <= 0x66 then Some((b - 0x61 + 10) as nat)
    else if 0x41 <= b <= 0x46 then Some((b - 0x41 + 10) as nat)
    else None
  }

  const LOWER_DIGITS := "0123456789abcdef"
  const UPPER_DIGITS := "0123456789ABCDEF"

  /** The hexadecimal digits of either case, and no other byte, have their value; they follow a percent sign. */
  lemma HexDigits(b: Byte, v: nat)
    ensures HexValue(b) == Some(v) <==>
            v < 16 && (b as int == LOWER_DIGITS[v] as int || b as int == UPPER_DIGITS[v] as int)
    ensures PERCENT as int == '%' as int
  {
  }

  function DecodeBytes(input: Bytes): Option<Bytes> {
    if input == [] then Some([])
    else if input[0] != PERCENT then
      var rest := DecodeBytes(input[1..]);
      if rest.None? then None else Some([input[0]] + rest.value)
    else if |input| < 3 || HexValue(input[1]).None? || HexValue(input[2]).None? then None
    else
      var rest := DecodeBytes(input[3..]);
      if rest.None? then None
      else Some([(HexValue(input[1]).value * 16 + HexValue(input[2]).value) as Byte] + rest.value)
  }

  /** `percent_decode`: decoded bytes that are not UTF-8 are refused. */
  function PercentDecode(input: Bytes): (r: Option<Bytes>)
    ensures r.Some? ==> Utf8(r.value)
  {
    var decoded := DecodeBytes(input);
    if decoded.Some? && Utf8(decoded.value) then decoded else None
  }

  /** What decoding gives when `decoded` is done and `rest` is left. */
  function DecodeRest(decoded: Bytes, rest: Bytes): Option<Bytes> {
    var tail := DecodeBytes(rest);
    if tail.None? then None else Some(decoded + tail.value)
  }

  lemma DecodeStep(decoded: Bytes, rest: Bytes, n: nat, b: Byte)
    requires n <= |rest| && rest != []
    requires DecodeBytes(rest) == DecodeRest([b], rest[n..])
    ensures DecodeRest(decoded, rest) == DecodeRest(decoded + [b], rest[n..])
  {
    var tail := DecodeBytes(rest[n..]);
    if tail.Some? {
      assert decoded + ([b] + tail.value) == decoded + [b] + tail.value;
    }
  }

  /** The decoding loop. */
  method DecodeLoop(input: Bytes) returns (r: Option<Bytes>)
    ensures r == PercentDecode(input)
  {
    var decoded: Bytes := [];
    var index := 0;
    assert input[0..] == input;
    assert DecodeBytes(input).Some? ==> [] + DecodeBytes(input).value == DecodeBytes(input).value;
    while index < |input|
      invariant 0 <= index <= |input|
      invariant DecodeRest(decoded, input[index..]) == DecodeBytes(input)
    {
      ghost var rest := input[index..];
      if input[index] == PERCENT {
        if index + 2 >= |input| || HexValue(input[index + 1]).None? || HexValue(input[index + 2]).None? {
          return None;
        }
        var b := (HexValue(input[index + 1]).value * 16 + HexValue(input[index + 2]).value) as Byte;
        assert rest[3..] == input[index + 3..];
        DecodeStep(decoded, rest, 3, b);
        decoded := decoded + [b];
        index := index + 3;
      } else {
        assert rest[1..] == input[index + 1..];
        DecodeStep(decoded, rest, 1, input[index]);
        decoded := decoded + [input[index]];
        index := index + 1;
      }
    }
    assert input[index..] == [] && decoded + [] == decoded;
    return if Utf8(decoded) then Some(decoded) else None;
  }

  /**
   A percent-encoding of `text` (section 2.1 of RFC 3986): each byte stands for itself, unless it is
   the percent sign, or is a percent sign with two hexadecimal digits of either case.
   */
  predicate Encodes(encoded: Bytes, text: Bytes) {
    if text == [] then encoded == []
    else
      (encoded != [] && encoded[0] == text[0] != PERCENT && Encodes(encoded[1..], text[1..]))
      || (|encoded| >= 3 && encoded[0] == PERCENT && HexValue(encoded[1]).Some? && HexValue(encoded[2]).Some?
          && HexValue(encoded[1]).value * 16 + HexValue(encoded[2]).value == text[0] as nat
          && Encodes(encoded[3..], text[1..]))
  }

  lemma {:induction false} DecodeOfEncoding(encoded: Bytes, text: Bytes)
    requires Encodes(encoded, text)
    ensures DecodeBytes(encoded) == Some(text)
    decreases |text|
  {
    if text != [] {
      if encoded[0] == text[0] != PERCENT && Encodes(encoded[1..], text[1..]) {
        DecodeOfEncoding(encoded[1..], text[1..]);
      } else {
        DecodeOfEncoding(encoded[3..], text[1..]);
      }
      assert [text[0]] + text[1..] == text;
    }
  }

  lemma {:induction false} DecodedIsEncoded(encoded: Bytes)
    requires DecodeBytes(encoded).Some?
    ensures Encodes(encoded, DecodeBytes(encoded).value)
    decreases |encoded|
  {
    if encoded != [] {
      DecodedIsEncoded(encoded[if encoded[0] == PERCENT then 3 else 1..]);
    }
  }

  /** Decoding yields a string exactly when the input is a percent-encoding of it. */
  lemma DecodingInvertsEncoding(encoded: Bytes, text: Bytes)
    ensures PercentDecode(encoded) == Some(text) <==> Utf8(text) && Encodes(encoded, text)
  {
    if Encodes(encoded, text) {
      DecodeOfEncoding(encoded, text);
    }
    if PercentDecode(encoded) == Some(text) {
      DecodedIsEncoded(encoded);
    }
  }
}
