/** What the raw lines of skill frontmatter mean to the parsers (app/skills.rs). */
module FrontmatterLines {
  import opened Wrappers
  import opened Text
  import opened Searching
  import opened Frontmatter

  /** The text in front of the first colon and the text behind it. */
  predicate SplitsAtColon(text: string, before: string, rest: string) {
    text == before + ":" + rest && ':' !in before
  }

  lemma OneSplit(text: string, before: string, rest: string)
    requires SplitsAtColon(text, before, rest)
    ensures Colon(text) == Some(|before|) && text[..|before|] == before && text[|before| + 1..] == rest
  {
    assert text[|before|] == ':';
    assert forall k :: 0 <= k < |before| ==> text[k] == before[k];
  }

  lemma EntryOfSplit(text: string)
    ensures ':' in text <==> Colon(text).Some?
    ensures Colon(text).Some? ==> SplitsAtColon(text, text[..Colon(text).value], text[Colon(text).value + 1..])
  {
  }

  predicate Indented(line: string) {
    StartsWith(line, " ") || StartsWith(line, "\t")
  }

  /** Exactly comments and lines without a colon say nothing; others give what is on both sides of the first colon. */
  lemma LineMeaning(line: string)
    ensures Read(line).indented <==> Indented(line)
    ensures Read(line).text == Trim(line)
    ensures Read(line).entry.None? <==> StartsWith(Trim(line), "#") || ':' !in Trim(line)
    ensures Read(line).entry.Some? ==>
              exists before ::
                SplitsAtColon(Trim(line), before, Read(line).entry.value.rest)
                && Read(line).entry.value.key == Trim(before)
  {
    EntryOfSplit(Trim(line));
  }

  predicate OneWord(s: string) {
    s != "" && forall c :: c in s ==> !IsWhitespace(c)
  }

  /** The line is `key:` or `key: value`, where the key is one word. */
  predicate IsFieldLine(line: string, before: string, rest: string) {
    SplitsAtColon(Trim(line), before, rest) && OneWord(Trim(before)) && (rest == "" || IsWhitespace(rest[0]))
  }

  lemma EntryOfFieldLine(line: string, before: string, rest: string)
    requires SplitsAtColon(Trim(line), before, rest)
    ensures Read(line).entry.Some? ==>
              Read(line).entry.value.key == Trim(before) && Read(line).entry.value.rest == rest
  {
    OneSplit(Trim(line), before, rest);
  }

  lemma BoundsLine(line: string)
    requires IsTopLevelKey(Read(line))
    ensures exists before, rest :: IsFieldLine(line, before, rest)
  {
    LineMeaning(line);
    var before :| SplitsAtColon(Trim(line), before, Read(line).entry.value.rest)
      && Read(line).entry.value.key == Trim(before);
    assert IsFieldLine(line, before, Read(line).entry.value.rest);
  }

  lemma FieldLineBounds(line: string, before: string, rest: string)
    requires !Indented(line) && !StartsWith(Trim(line), "#") && IsFieldLine(line, before, rest)
    ensures IsTopLevelKey(Read(line))
  {
    LineMeaning(line);
    assert Trim(line)[|before|] == ':';
    EntryOfFieldLine(line, before, rest);
  }

  /** Exactly the unindented lines of a field, comments aside, bound a description. */
  lemma TopLevelKeyIff(line: string)
    ensures IsTopLevelKey(Read(line)) <==>
            !Indented(line) && !StartsWith(Trim(line), "#") && exists before, rest :: IsFieldLine(line, before, rest)
  {
    LineMeaning(line);
    if IsTopLevelKey(Read(line)) {
      BoundsLine(line);
    }
    if before, rest :| !Indented(line) && !StartsWith(Trim(line), "#") && IsFieldLine(line, before, rest) {
      FieldLineBounds(line, before, rest);
    }
  }

  // ----- Lines that a continued description skips -----

  lemma {:induction false} TextsAppend(a: seq<Line>, b: seq<Line>)
    ensures Texts(a + b) == Texts(a) + Texts(b)
    decreases |b|
  {
    if b == [] {
      assert a + b == a;
    } else {
      TextsAppend(a, b[..|b| - 1]);
      assert (a + b)[..|a + b| - 1] == a + b[..|b| - 1];
    }
  }

  lemma SkippedLines(line: string, block: bool)
    requires Trim(line) == "" || StartsWith(line, "#")
    ensures Texts([Read(line)]) == [] && !StopTest(block)(Read(line))
  {
    assert [Read(line)][..0] == [];
    if Trim(line) != "" {
      TrimKeepsTheStart(line);
    }
  }

  lemma TrimKeepsTheStart(line: string)
    requires line != "" && !IsWhitespace(line[0])
    ensures Trim(line) != "" && Trim(line)[0] == line[0]
  {
    assert TrimStart(line) == line;
    TrimEndKeepsTheStart(line);
  }

  lemma {:induction false} TrimEndKeepsTheStart(line: string)
    requires line != "" && !IsWhitespace(line[0])
    ensures TrimEnd(line) != "" && TrimEnd(line)[0] == line[0]
    decreases |line|
  {
    if IsWhitespace(line[|line| - 1]) {
      TrimEndKeepsTheStart(line[..|line| - 1]);
    }
  }

  function Inserted(lines: seq<Line>, k: nat, line: Line): seq<Line>
    requires k <= |lines|
  {
    lines[..k] + [line] + lines[k..]
  }

  lemma TextsAround(a: seq<Line>, line: Line, b: seq<Line>)
    requires Texts([line]) == []
    ensures Texts(a + [line] + b) == Texts(a + b)
  {
    TextsAppend(a, [line]);
    TextsAppend(a + [line], b);
    TextsAppend(a, b);
  }

  lemma PrefixOfInserted<T>(s: seq<T>, k: nat, x: T, n: nat)
    requires k <= n <= |s|
    ensures (s[..k] + [x] + s[k..])[..n + 1] == s[..k] + [x] + s[k..n]
    ensures s[..k] + s[k..n] == s[..n]
  {
  }

  lemma SuffixOfInserted<T>(s: seq<T>, i: nat, k: nat, x: T)
    requires i <= k <= |s|
    ensures (s[..k] + [x] + s[k..])[i..] == s[i..][..k - i] + [x] + s[i..][k - i..]
  {
  }

  lemma FirstBeforeInserted(lines: seq<Line>, i: nat, k: nat, line: Line)
    requires IsFirst(FieldTest(DESCRIPTION), lines, i) && i < k <= |lines|
    ensures IsFirst(FieldTest(DESCRIPTION), Inserted(lines, k, line), i)
    ensures Inserted(lines, k, line)[i] == lines[i]
  {
    assert forall j :: 0 <= j <= i ==> Inserted(lines, k, line)[j] == lines[j];
  }

  lemma TextsOfInserted(lines: seq<Line>, k: nat, line: Line, n: nat)
    requires k <= |lines| && n <= |lines| && Texts([line]) == []
    ensures Texts(Inserted(lines, k, line)[..if n < k then n else n + 1]) == Texts(lines[..n])
  {
    if n < k {
      assert Inserted(lines, k, line)[..n] == lines[..n];
    } else {
      TextsAround(lines[..k], line, lines[k..n]);
      PrefixOfInserted(lines, k, line, n);
    }
  }

  lemma ContinuesAfterInserted(lines: seq<Line>, k: nat, line: Line, block: bool, n: nat)
    requires k <= n <= |lines| && !StopTest(block)(line) && Continues(lines, block, n)
    ensures Continues(Inserted(lines, k, line), block, n + 1)
  {
    var longer := Inserted(lines, k, line);
    forall i | 0 <= i < n + 1 ensures !StopTest(block)(longer[i]) {
      assert longer[i] == if i < k then lines[i] else if i == k then line else lines[i - 1];
    }
  }

  lemma SomewhereItEnds(lines: seq<Line>, block: bool) returns (n: nat)
    ensures EndsAt(lines, block, n)
  {
    n := |Before(StopTest(block), lines)|;
  }

  lemma EndsAfterInserted(lines: seq<Line>, k: nat, line: Line, block: bool, n: nat)
    requires k <= |lines| && !StopTest(block)(line) && EndsAt(lines, block, n)
    ensures EndsAt(Inserted(lines, k, line), block, if n < k then n else n + 1)
  {
    if k <= n {
      ContinuesAfterInserted(lines, k, line, block, n);
    }
  }

  lemma ContinuationSkips(after: seq<Line>, k: nat, skipped: Line, block: bool)
    requires k <= |after| && Texts([skipped]) == [] && !StopTest(block)(skipped)
    ensures Continuation(Inserted(after, k, skipped), block) == Continuation(after, block)
  {
    var n := SomewhereItEnds(after, block);
    ContinuationOf(after, block, n);
    EndsAfterInserted(after, k, skipped, block, n);
    ContinuationOf(Inserted(after, k, skipped), block, if n < k then n else n + 1);
    TextsOfInserted(after, k, skipped, n);
  }

  lemma FormSkips(form: Form, after: seq<Line>, k: nat, line: string)
    requires k <= |after| && (Trim(line) == "" || StartsWith(line, "#"))
    ensures ReadForm(form, Inserted(after, k, Read(line))) == ReadForm(form, after)
  {
    if form.Continued? {
      SkippedLines(line, form.block);
      ContinuationSkips(after, k, Read(line), form.block);
    }
  }

  /** A blank line or an unindented comment anywhere below the description line changes nothing. */
  lemma CommentsAreSkipped(lines: seq<Line>, i: nat, k: nat, line: string)
    requires IsFirst(FieldTest(DESCRIPTION), lines, i) && i < k <= |lines|
    requires Trim(line) == "" || StartsWith(line, "#")
    ensures Description(Inserted(lines, k, Read(line))) == Description(lines)
  {
    FormSkips(FormOf(lines[i]), lines[i + 1..], k - i - 1, line);
    FirstBeforeInserted(lines, i, k, Read(line));
    SuffixOfInserted(lines, i + 1, k, Read(line));
    DescriptionOfFirst(lines, i);
    DescriptionOfFirst(Inserted(lines, k, Read(line)), i);
  }

  // ----- Forms of a description line -----

  lemma AfterSpace(value: string)
    requires Trimmed(value)
    ensures Trim(" " + value) == value
  {
    assert (" " + value)[1..] == value;
    assert TrimStart(" " + value) == TrimStart(value) == value;
  }

  lemma KeyLineIsSplit(key: string, value: string)
    requires OneWord(key) && ':' !in key && value != "" && Trimmed(value)
    ensures Trim(key + ": " + value) == key + ": " + value
    ensures SplitsAtColon(key + ": " + value, key, " " + value)
  {
    var line := key + ": " + value;
    assert line == key + ":" + (" " + value);
    assert key[0] in key && line[0] == key[0] && line[|line| - 1] == value[|value| - 1];
  }

  lemma KeyLine(key: string, value: string)
    requires OneWord(key) && ':' !in key && key[0] != '#' && value != "" && Trimmed(value)
    ensures Read(key + ": " + value).entry == Some(Entry(key, " " + value, Trim(Unquote(value))))
  {
    KeyLineIsSplit(key, value);
    OneSplit(key + ": " + value, key, " " + value);
    assert (key + ": " + value)[0] == key[0];
    assert Trim(key) == key;
    AfterSpace(value);
  }

  /** Tab, line feed, form feed, carriage return and space. */
  const BLANKS := {9, 10, 12, 13, 32}

  /** No comment starts in the value. */
  predicate WithoutCommentSign(value: string) {
    forall i :: 0 <= i < |value| && value[i] == '#' ==> i > 0 && value[i - 1] as int !in BLANKS
  }

  /** A comment behind the value is dropped with the gap before it; a value without a comment is kept. */
  lemma CommentIsDropped(value: string, blank: char, comment: string)
    requires WithoutCommentSign(value) && Trimmed(value) && blank as int in BLANKS
    ensures WithoutComment(value) == value
    ensures WithoutComment(value + [blank, '#'] + comment) == value
  {
    var all := value + [blank, '#'] + comment;
    assert forall i :: 0 <= i < |value| ==> all[i] == value[i];
    assert CommentAt(all, |value| + 1);
    assert CommentStart(all, 0) == |value| + 1;
    assert all[..|value| + 1] == value + [blank] && (value + [blank])[..|value|] == value;
    assert TrimEnd(value + [blank]) == TrimEnd(value) == value;
  }

  /** The value decides how a description on its own line is read. */
  lemma FormOfValue(value: string)
    requires value != "" && Trimmed(value)
    ensures FieldTest(DESCRIPTION)(Read(DESCRIPTION + ": " + value))
    ensures FormOf(Read(DESCRIPTION + ": " + value))
            == if BlockHeader(WithoutComment(value)) then Continued(true) else Inline(Trim(Unquote(value)))
  {
    KeyLine(DESCRIPTION, value);
    AfterSpace(value);
  }

  /** Without a value on its line the description is the text below. */
  lemma FormOfNothing()
    ensures FieldTest(DESCRIPTION)(Read(DESCRIPTION + ":"))
    ensures FormOf(Read(DESCRIPTION + ":")) == Continued(false)
  {
    var line := DESCRIPTION + ":";
    assert line == DESCRIPTION + ":" + "" && Trim(line) == line && SplitsAtColon(line, DESCRIPTION, "");
    OneSplit(line, DESCRIPTION, "");
  }

  lemma HeadersAreClean(header: string)
    requires BlockHeader(header)
    ensures Trimmed(header) && WithoutCommentSign(header)
  {
  }

  /** The header of a block scalar may be followed by a comment. */
  lemma HeaderLine(header: string, blank: char, comment: string)
    requires BlockHeader(header) && blank as int in BLANKS && comment != "" && Trimmed(comment)
    ensures FormOf(Read(DESCRIPTION + ": " + header)) == Continued(true)
    ensures FormOf(Read(DESCRIPTION + ": " + (header + [blank, '#'] + comment))) == Continued(true)
  {
    HeadersAreClean(header);
    CommentIsDropped(header, blank, comment);
    FormOfValue(header);
    var all := header + [blank, '#'] + comment;
    assert all[0] == header[0] && all[|all| - 1] == comment[|comment| - 1];
    FormOfValue(all);
  }
}
