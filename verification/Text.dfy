/**
 String helpers with the meaning of Rust's `str` methods: `trim`, `split`, `join`, `lines`,
 `to_ascii_lowercase`. A string is a sequence of Unicode scalar values.
 */
module Text {

  /** `char::is_whitespace`: the Unicode White_Space property. */
  predicate IsWhitespace(c: char) {
    var n := c as int;
    9 <= n <= 13 || n == 0x20 || n == 0x85 || n == 0xA0 || n == 0x1680 || 0x2000 <= n <= 0x200A
    || n == 0x2028 || n == 0x2029 || n == 0x202F || n == 0x205F || n == 0x3000
  }

  /** The White_Space characters by name: controls, spaces, no-break spaces, typographic spaces and separators. */
  lemma WhitespaceCharacters(c: char)
    ensures IsWhitespace(c) <==>
            c as int in {9, 10, 11, 12, 13, 32, 133, 160, 5760, 8192, 8193, 8194, 8195, 8196, 8197, 8198, 8199, 8200,
                         8201, 8202, 8232, 8233, 8239, 8287, 12288}
  {
  }

  function TrimStart(s: string): (r: string)
    ensures |r| <= |s|
    ensures r == "" || !IsWhitespace(r[0])
    ensures r == s <==> s == "" || !IsWhitespace(s[0])
  {
    if s != "" && IsWhitespace(s[0]) then TrimStart(s[1..]) else s
  }

  function TrimEnd(s: string): (r: string)
    ensures r <= s
    ensures r == "" || !IsWhitespace(r[|r| - 1])
    ensures r == s <==> s == "" || !IsWhitespace(s[|s| - 1])
  {
    if s != "" && IsWhitespace(s[|s| - 1]) then TrimEnd(s[..|s| - 1]) else s
  }

  /** No whitespace at either end. */
  predicate Trimmed(s: string) {
    s == "" || (!IsWhitespace(s[0]) && !IsWhitespace(s[|s| - 1]))
  }

  function Trim(s: string): (r: string)
    ensures |r| <= |s|
    ensures Trimmed(r)
    ensures r == s <==> Trimmed(s)
  {
    TrimEnd(TrimStart(s))
  }

  /** `trim_end_matches('\r')`. */
  function TrimCr(s: string): (r: string)
    ensures r <= s
    ensures r == "" || r[|r| - 1] != '\r'
    ensures r == s <==> s == "" || s[|s| - 1] != '\r'
  {
    if s != "" && s[|s| - 1] == '\r' then TrimCr(s[..|s| - 1]) else s
  }

  /** `replace(from, to)` for single characters. */
  function Replace(s: string, from: char, to: char): (r: string)
    ensures |r| == |s|
    ensures forall i :: 0 <= i < |s| ==> r[i] == if s[i] == from then to else s[i]
  {
    seq(|s|, i requires 0 <= i < |s| => if s[i] == from then to else s[i])
  }

  /** `to_ascii_lowercase`. */
  function AsciiLower(s: string): (r: string)
    ensures |r| == |s|
    ensures forall i :: 0 <= i < |s| ==> r[i] == if 'A' <= s[i] <= 'Z' then s[i] + ' ' else s[i]
  {
    seq(|s|, i requires 0 <= i < |s| => if 'A' <= s[i] <= 'Z' then s[i] + ' ' else s[i])
  }

  /** `split(separator)`: never empty, a string without separators is one piece. */
  function Split(s: string, separator: char): (parts: seq<string>)
    ensures |parts| >= 1
    ensures forall p :: p in parts ==> separator !in p
  {
    if s == "" then [""]
    else
      var rest := Split(s[1..], separator);
      if s[0] == separator then [""] + rest else [[s[0]] + rest[0]] + rest[1..]
  }

  function Join(parts: seq<string>, separator: string): string {
    if |parts| == 0 then ""
    else if |parts| == 1 then parts[0]
    else parts[0] + separator + Join(parts[1..], separator)
  }

  lemma {:induction false} SplitFirst(a: string, separator: char, rest: string)
    requires separator !in a
    ensures Split(a + [separator] + rest, separator) == [a] + Split(rest, separator)
  {
    var s := a + [separator] + rest;
    if a == "" {
      assert s[1..] == rest;
    } else {
      assert s[1..] == a[1..] + [separator] + rest;
      SplitFirst(a[1..], separator, rest);
      assert [a[0]] + a[1..] == a;
    }
  }

  lemma {:induction false} SplitSingle(a: string, separator: char)
    requires separator !in a
    ensures Split(a, separator) == [a]
  {
    if a != "" {
      SplitSingle(a[1..], separator);
      assert [a[0]] + a[1..] == a;
    }
  }

  /** Splitting undoes joining when no part contains the separator. */
  lemma {:induction false} SplitJoin(parts: seq<string>, separator: char)
    requires |parts| >= 1
    requires forall p :: p in parts ==> separator !in p
    ensures Split(Join(parts, [separator]), separator) == parts
  {
    if |parts| == 1 {
      SplitSingle(parts[0], separator);
    } else {
      SplitJoin(parts[1..], separator);
      SplitFirst(parts[0], separator, Join(parts[1..], [separator]));
    }
  }

  /** Joining undoes splitting. */
  lemma {:induction false} JoinSplit(s: string, separator: char)
    ensures Join(Split(s, separator), [separator]) == s
  {
    if s != "" {
      var rest := Split(s[1..], separator);
      JoinSplit(s[1..], separator);
      if s[0] != separator && |rest| > 1 {
        assert Split(s, separator)[1..] == rest[1..];
      }
    }
  }

  /** `lines()`: pieces between line feeds, a final empty piece dropped, one `\r` before a line feed dropped. */
  function Lines(s: string): seq<string> {
    var parts := Split(s, '\n');
    var last := parts[|parts| - 1];
    StripLineEnds(parts[..|parts| - 1]) + if last == "" then [] else [last]
  }

  function StripLineEnds(parts: seq<string>): (r: seq<string>)
    ensures |r| == |parts|
    ensures forall i :: 0 <= i < |parts| ==> r[i] == StripCr(parts[i])
  {
    seq(|parts|, i requires 0 <= i < |parts| => StripCr(parts[i]))
  }

  function StripCr(s: string): string {
    if s != "" && s[|s| - 1] == '\r' then s[..|s| - 1] else s
  }

  /** The lines with a carriage return and a line feed after each. */
  function CrlfText(lines: seq<string>): string {
    if lines == [] then "" else lines[0] + "\r" + ['\n'] + CrlfText(lines[1..])
  }

  lemma LinesOfFirst(a: string, rest: string)
    requires '\n' !in a
    ensures Lines(a + ['\n'] + rest) == [StripCr(a)] + Lines(rest)
  {
    SplitFirst(a, '\n', rest);
    var parts := Split(rest, '\n');
    assert ([a] + parts)[..|parts|] == [a] + parts[..|parts| - 1];
    assert StripLineEnds([a] + parts[..|parts| - 1]) == [StripCr(a)] + StripLineEnds(parts[..|parts| - 1]);
  }

  /** Line ends of either kind are dropped. */
  lemma {:induction false} LinesOfCrlfText(lines: seq<string>)
    requires forall i :: 0 <= i < |lines| ==> '\n' !in lines[i]
    ensures Lines(CrlfText(lines)) == lines
  {
    if lines != [] {
      LinesOfCrlfText(lines[1..]);
      LinesOfFirst(lines[0] + "\r", CrlfText(lines[1..]));
      assert StripCr(lines[0] + "\r") == lines[0];
    }
  }

  predicate StartsWith(s: string, prefix: string) {
    prefix <= s
  }
}
