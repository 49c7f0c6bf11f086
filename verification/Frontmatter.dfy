/** The fields and the description of skill frontmatter (app/skills.rs). */
module Frontmatter {
  import opened Wrappers
  import opened Text
  import opened Searching

  // ----- Lines -----

  /** `split_once(':')`: where the first colon stands. */
  function Colon(line: string): (r: Option<nat>)
    ensures r.Some? ==> r.value < |line| && line[r.value] == ':' && forall k :: 0 <= k < r.value ==> line[k] != ':'
    ensures r.None? ==> ':' !in line
  {
    if line == "" then None
    else if line[0] == ':' then Some(0)
    else
      var rest := Colon(line[1..]);
      if rest.None? then None else Some(rest.value + 1)
  }

  /** A `key: rest` line: the trimmed key, what follows the first colon, and that as a plain value. */
  datatype Entry = Entry(key: string, rest: string, plain: string)

  /** Quotes around a value of at least two characters are dropped. */
  function Unquote(value: string): string {
    if |value| >= 2 && (value[0] == '"' || value[0] == '\'') && value[|value| - 1] == value[0]
    then value[1..|value| - 1] else value
  }

  predicate IsQuote(c: char) {
    c == '"' || c == '\''
  }

  /** Exactly the values in a pair of equal quotes lose these, and nothing else. */
  lemma QuotesAreDropped(inner: string, quote: char, value: string)
    ensures IsQuote(quote) ==> Unquote([quote] + inner + [quote]) == inner
    ensures Unquote(value) != value ==>
              |value| >= 2 && IsQuote(value[0]) && value == [value[0]] + Unquote(value) + [value[0]]
  {
    assert ([quote] + inner + [quote])[1..|inner| + 1] == inner;
  }

  function EntryAt(line: string, colon: nat): Entry
    requires colon < |line|
  {
    var rest := line[colon + 1..];
    Entry(Trim(line[..colon]), rest, Trim(Unquote(Trim(rest))))
  }

  /** A line as the parsers read it; `text` is the trimmed line. */
  datatype Line = Line(entry: Option<Entry>, indented: bool, text: string)

  /** Blank lines, comments and lines without a colon have no entry. */
  function Read(line: string): (r: Line)
    ensures Trimmed(r.text)
  {
    var trimmed := Trim(line);
    var colon := Colon(trimmed);
    var entry :=
      if trimmed == "" || trimmed[0] == '#' || colon.None? then None
      else Some(EntryAt(trimmed, colon.value));
    Line(entry, line != "" && (line[0] == ' ' || line[0] == '\t'), trimmed)
  }

  function ReadAll(lines: seq<string>): (r: seq<Line>)
    ensures |r| == |lines| && forall i :: 0 <= i < |r| ==> r[i] == Read(lines[i])
  {
    seq(|lines|, i requires 0 <= i < |lines| => Read(lines[i]))
  }

  // ----- Fields -----

  datatype FieldError = EmptyField | MissingField

  function FieldTest(field: string): Line -> bool {
    (line: Line) => line.entry.Some? && line.entry.value.key == field
  }

  function NonEmpty(value: string): Result<string, FieldError> {
    if value == "" then Err(EmptyField) else Ok(value)
  }

  /** What a field is worth: its first line decides. */
  function Field(lines: seq<Line>, field: string): Result<string, FieldError> {
    var i := FirstIndex(FieldTest(field), lines);
    if i.None? then Err(MissingField) else NonEmpty(lines[i.value].entry.value.plain)
  }

  /** Line `i` is the first one of the field and its value is `value`. */
  predicate Decides(lines: seq<Line>, field: string, i: nat, value: string) {
    IsFirst(FieldTest(field), lines, i) && lines[i].entry.value.plain == value
  }

  /** The first line of a field gives its value; without one the field is missing, with a blank one it is empty. */
  ghost predicate FirstLineDecides(lines: seq<Line>, field: string, r: Result<string, FieldError>) {
    (forall value :: r == Ok(value) <==> value != "" && exists i :: Decides(lines, field, i, value))
    && (r == Err(EmptyField) <==> exists i :: Decides(lines, field, i, ""))
    && (r == Err(MissingField) <==> NoneOf(FieldTest(field), lines))
  }

  lemma FieldMeaning(lines: seq<Line>, field: string)
    ensures FirstLineDecides(lines, field, Field(lines, field))
  {
    forall i, value | Decides(lines, field, i, value) ensures Field(lines, field) == NonEmpty(value) {
      FirstIsUnique(FieldTest(field), lines, i);
    }
    var first := FirstIndex(FieldTest(field), lines);
    if first.Some? {
      assert Decides(lines, field, first.value, lines[first.value].entry.value.plain);
    }
  }

  /** `skill_frontmatter_field`. */
  method FindField(lines: seq<Line>, field: string) returns (r: Result<string, FieldError>)
    ensures FirstLineDecides(lines, field, r)
    ensures r == Field(lines, field)
  {
    FieldMeaning(lines, field);
    for i := 0 to |lines|
      invariant forall k :: 0 <= k < i ==> !FieldTest(field)(lines[k])
    {
      if !FieldTest(field)(lines[i]) {
        continue;
      }
      FirstIsUnique(FieldTest(field), lines, i);
      return NonEmpty(lines[i].entry.value.plain);
    }
    return Err(MissingField);
  }

  // ----- The description -----

  const DESCRIPTION := "description"

  predicate IsChomp(c: char) {
    c == '-' || c == '+'
  }

  predicate IsIndentDigit(c: char) {
    '1' <= c <= '9'
  }

  /** A YAML block scalar header: the style, then at most one chomping and one indentation indicator in either order. */
  predicate BlockHeader(value: string) {
    value != "" && (value[0] == '>' || value[0] == '|')
    && match |value|
       case 1 => true
       case 2 => IsChomp(value[1]) || IsIndentDigit(value[1])
       case 3 => (IsChomp(value[1]) && IsIndentDigit(value[2])) || (IsIndentDigit(value[1]) && IsChomp(value[2]))
       case _ => false
  }

  /** `>` or `|`, and behind it at most one sign and at most one digit from 1 to 9. */
  lemma BlockHeaderIff(value: string)
    ensures BlockHeader(value) <==>
            1 <= |value| <= 3 && value[0] in {'>', '|'}
            && (forall i :: 1 <= i < |value| ==> value[i] in {'-', '+'} || 49 <= value[i] as int <= 57)
            && (|value| == 3 ==> (value[1] in {'-', '+'} <==> value[2] !in {'-', '+'}))
  {
  }

  /** `is_yaml_block_scalar_indicator`. */
  method IsBlockScalarIndicator(value: string) returns (r: bool)
    ensures r <==> BlockHeader(value)
  {
    if value == "" || (value[0] != '>' && value[0] != '|') {
      return false;
    }
    var sawChomp, sawIndent := false, false;
    var i := 1;
    while i < |value|
      invariant 1 <= i <= |value| && i <= 3
      invariant i == 1 ==> !sawChomp && !sawIndent
      invariant i == 2 ==>
                  (sawChomp != sawIndent) && (sawChomp <==> IsChomp(value[1]))
                  && (sawIndent <==> IsIndentDigit(value[1]))
      invariant i == 3 ==> sawChomp && sawIndent && BlockHeader(value[..3])
    {
      if !sawChomp && IsChomp(value[i]) {
        sawChomp := true;
        i := i + 1;
        continue;
      }
      if !sawIndent && IsIndentDigit(value[i]) {
        sawIndent := true;
        i := i + 1;
        continue;
      }
      return false;
    }
    assert value[..|value|] == value;
    return true;
  }

  predicate AsciiWhitespace(c: char) {
    c == ' ' || c == '\t' || c == '\n' || c == '\r' || c as int == 12
  }

  /** A `#` at the start or after whitespace opens a comment. */
  predicate CommentAt(value: string, i: nat) {
    i < |value| && value[i] == '#' && (i == 0 || AsciiWhitespace(value[i - 1]))
  }

  function CommentStart(value: string, i: nat): (r: nat)
    requires i <= |value|
    ensures i <= r <= |value| && (r < |value| ==> CommentAt(value, r))
    ensures forall k :: i <= k < r ==> !CommentAt(value, k)
    decreases |value| - i
  {
    if i == |value| || CommentAt(value, i) then i else CommentStart(value, i + 1)
  }

  function WithoutComment(value: string): string {
    var c := CommentStart(value, 0);
    if c == |value| then value else TrimEnd(value[..c])
  }

  /** `frontmatter_value_without_inline_comment`. */
  method StripInlineComment(value: string) returns (r: string)
    ensures r == WithoutComment(value)
  {
    for i := 0 to |value|
      invariant CommentStart(value, 0) == CommentStart(value, i)
    {
      if CommentAt(value, i) {
        return TrimEnd(value[..i]);
      }
    }
    return value;
  }

  /** `is_top_level_frontmatter_key_line`: an unindented `key:` with a gap before its value. */
  predicate IsTopLevelKey(line: Line) {
    !line.indented && line.entry.Some?
    && line.entry.value.key != ""
    && (forall i :: 0 <= i < |line.entry.value.key| ==> !IsWhitespace(line.entry.value.key[i]))
    && (line.entry.value.rest == "" || IsWhitespace(line.entry.value.rest[0]))
  }

  /** Neither blank nor an unindented comment. */
  predicate IsText(line: Line) {
    line.text != "" && (line.indented || line.text[0] != '#')
  }

  /** Lines that end a continued description; a block scalar also ends at unindented text. */
  function StopTest(block: bool): Line -> bool {
    (line: Line) => IsTopLevelKey(line) || (block && IsText(line) && !line.indented)
  }

  function TextOf(line: Line): seq<string> {
    if IsText(line) then [line.text] else []
  }

  /** The text lines. */
  function Texts(lines: seq<Line>): seq<string> {
    if lines == [] then [] else Texts(lines[..|lines| - 1]) + TextOf(lines[|lines| - 1])
  }

  /** The text lines before the first stop, folded into one line. */
  function Continuation(lines: seq<Line>, block: bool): Result<string, FieldError> {
    NonEmpty(Join(Texts(Before(StopTest(block), lines)), " "))
  }

  function IfPresent(part: string): seq<string> {
    if part == "" then [] else [part]
  }

  function WithoutEmpty(parts: seq<string>): seq<string> {
    if parts == [] then [] else WithoutEmpty(parts[..|parts| - 1]) + IfPresent(parts[|parts| - 1])
  }

  lemma WithoutEmptyAppend(parts: seq<string>, part: string)
    ensures WithoutEmpty(parts + [part]) == WithoutEmpty(parts) + IfPresent(part)
  {
  }

  lemma TextsOfNext(lines: seq<Line>, i: nat)
    requires i < |lines|
    ensures Texts(lines[..i + 1]) == Texts(lines[..i]) + TextOf(lines[i])
  {
    assert lines[..i + 1][..i] == lines[..i];
  }

  /** One line of the continuation; `taken` is false at unindented text inside a block scalar. */
  method TakeLine(parts: seq<string>, line: Line, block: bool, sawIndented: bool)
    returns (taken: bool, r: seq<string>, saw: bool)
    ensures !taken <==> block && IsText(line) && !line.indented
    ensures taken ==> WithoutEmpty(r) == WithoutEmpty(parts) + TextOf(line)
  {
    taken, r, saw := true, parts, sawIndented;
    WithoutEmptyAppend(parts, "");
    WithoutEmptyAppend(parts, line.text);
    if line.text == "" || (!line.indented && line.text[0] == '#') {
      if parts != [] {
        r := parts + [""];
      }
    } else if block {
      if line.indented {
        saw, r := true, parts + [line.text];
      } else if !sawIndented {
        taken := false;
      } else {
        taken := false;
      }
    } else {
      r := parts + [line.text];
    }
  }

  /** No line before `i` ends the continuation. */
  predicate Continues(lines: seq<Line>, block: bool, i: nat) {
    i <= |lines| && forall k :: 0 <= k < i ==> !StopTest(block)(lines[k])
  }

  /** The continuation ends in front of line `i`. */
  predicate EndsAt(lines: seq<Line>, block: bool, i: nat) {
    Continues(lines, block, i) && (i < |lines| ==> StopTest(block)(lines[i]))
  }

  lemma ContinuationOf(lines: seq<Line>, block: bool, i: nat)
    requires EndsAt(lines, block, i)
    ensures Continuation(lines, block) == NonEmpty(Join(Texts(lines[..i]), " "))
  {
    BeforeIsUnique(StopTest(block), lines, i);
  }

  /** The lines before `i` belong to the continuation and these parts were taken from them. */
  predicate TakenFrom(parts: seq<string>, lines: seq<Line>, block: bool, i: nat) {
    Continues(lines, block, i) && WithoutEmpty(parts) == Texts(lines[..i])
  }

  lemma TakeNext(parts: seq<string>, more: seq<string>, lines: seq<Line>, block: bool, i: nat)
    requires TakenFrom(parts, lines, block, i) && i < |lines| && !StopTest(block)(lines[i])
    requires WithoutEmpty(more) == WithoutEmpty(parts) + TextOf(lines[i])
    ensures TakenFrom(more, lines, block, i + 1)
  {
    TextsOfNext(lines, i);
  }

  /** `collect_description_continuation`, on the lines after the description line. */
  method CollectContinuation(lines: seq<Line>, block: bool) returns (r: Result<string, FieldError>)
    ensures r == Continuation(lines, block)
  {
    var parts: seq<string> := [];
    var sawIndented := false;
    var i := 0;
    while i < |lines| && !IsTopLevelKey(lines[i])
      invariant 0 <= i <= |lines| && TakenFrom(parts, lines, block, i)
    {
      var taken, more, saw := TakeLine(parts, lines[i], block, sawIndented);
      if !taken {
        break;
      }
      TakeNext(parts, more, lines, block, i);
      parts, sawIndented, i := more, saw, i + 1;
    }
    ContinuationOf(lines, block, i);
    return NonEmpty(Join(WithoutEmpty(parts), " "));
  }

  /** How a description is written: on its own line, or on the lines after it. */
  datatype Form = Inline(value: string) | Continued(block: bool)

  function FormOf(line: Line): Form {
    var value := if line.entry.Some? then Trim(line.entry.value.rest) else "";
    if value == "" then Continued(false)
    else if BlockHeader(WithoutComment(value)) then Continued(true)
    else Inline(Trim(Unquote(value)))
  }

  function ReadForm(form: Form, after: seq<Line>): Result<string, FieldError> {
    match form
    case Inline(value) => NonEmpty(value)
    case Continued(block) => Continuation(after, block)
  }

  function DescriptionReader(): (Line, seq<Line>) -> Result<string, FieldError> {
    (line: Line, after: seq<Line>) => ReadForm(FormOf(line), after)
  }

  /** What the first `description` line and the lines after it say. */
  function Description(lines: seq<Line>): Result<string, FieldError> {
    AtFirst(FieldTest(DESCRIPTION), DescriptionReader(), lines, Err(MissingField))
  }

  method ReadDescription(line: Line, after: seq<Line>) returns (r: Result<string, FieldError>)
    requires line.entry.Some?
    ensures r == ReadForm(FormOf(line), after)
  {
    var value := Trim(line.entry.value.rest);
    if value == "" {
      r := CollectContinuation(after, false);
      return;
    }
    var header := StripInlineComment(value);
    var block := IsBlockScalarIndicator(header);
    if block {
      r := CollectContinuation(after, true);
      return;
    }
    var plain := Trim(Unquote(value));
    return if plain == "" then Err(EmptyField) else Ok(plain);
  }

  /** `skill_frontmatter_description`. */
  method FindDescription(lines: seq<Line>) returns (r: Result<string, FieldError>)
    ensures r == Description(lines)
  {
    for i := 0 to |lines|
      invariant forall k :: 0 <= k < i ==> !FieldTest(DESCRIPTION)(lines[k])
    {
      if !FieldTest(DESCRIPTION)(lines[i]) {
        continue;
      }
      DescriptionOfFirst(lines, i);
      r := ReadDescription(lines[i], lines[i + 1..]);
      return;
    }
    return Err(MissingField);
  }

  lemma DescriptionOfFirst(lines: seq<Line>, i: nat)
    requires IsFirst(FieldTest(DESCRIPTION), lines, i)
    ensures Description(lines) == ReadForm(FormOf(lines[i]), lines[i + 1..])
  {
    AtFirstContinues(FieldTest(DESCRIPTION), DescriptionReader(), lines, Err(MissingField), i);
  }

  // ----- What a description is -----

  predicate AllTrimmed(parts: seq<string>) {
    forall i :: 0 <= i < |parts| ==> parts[i] != "" && Trimmed(parts[i])
  }

  lemma {:induction false} JoinedTexts(parts: seq<string>)
    requires AllTrimmed(parts)
    ensures Trimmed(Join(parts, " ")) && (Join(parts, " ") == "" <==> parts == [])
  {
    if |parts| > 1 {
      JoinedTexts(parts[1..]);
    }
  }

  lemma {:induction false} TextsAreTrimmed(lines: seq<Line>)
    requires forall i :: 0 <= i < |lines| ==> Trimmed(lines[i].text)
    ensures AllTrimmed(Texts(lines))
  {
    if lines != [] {
      TextsAreTrimmed(lines[..|lines| - 1]);
    }
  }

  lemma FormIsTrimmed(line: Line)
    ensures FormOf(line).Inline? ==> Trimmed(FormOf(line).value)
  {
  }

  predicate GivesText(r: Result<string, FieldError>) {
    r != Err(MissingField) && (r.Ok? ==> r.value != "" && Trimmed(r.value))
  }

  lemma FormGivesText(form: Form, after: seq<Line>)
    requires form.Inline? ==> Trimmed(form.value)
    requires forall i :: 0 <= i < |after| ==> Trimmed(after[i].text)
    ensures GivesText(ReadForm(form, after))
  {
    if form.Continued? {
      var lines := Before(StopTest(form.block), after);
      TextsAreTrimmed(lines);
      JoinedTexts(Texts(lines));
    }
  }

  lemma ReaderGivesText(line: Line, after: seq<Line>)
    requires forall i :: 0 <= i < |after| ==> Trimmed(after[i].text)
    ensures GivesText(DescriptionReader()(line, after))
  {
    FormIsTrimmed(line);
    FormGivesText(FormOf(line), after);
  }

  /** A description has text and no whitespace at its ends; it is missing exactly when no line names it. */
  lemma DescriptionIsTrimmed(lines: seq<Line>)
    requires forall i :: 0 <= i < |lines| ==> Trimmed(lines[i].text)
    ensures Description(lines).Ok? ==> Description(lines).value != "" && Trimmed(Description(lines).value)
    ensures Description(lines) == Err(MissingField) <==> NoneOf(FieldTest(DESCRIPTION), lines)
  {
    var i := FirstIndex(FieldTest(DESCRIPTION), lines);
    if i.Some? {
      ReaderGivesText(lines[i.value], lines[i.value + 1..]);
      AtFirstContinues(FieldTest(DESCRIPTION), DescriptionReader(), lines, Err(MissingField), i.value);
    }
  }

  lemma FormIgnoresSiblings(form: Form, after: seq<Line>, k: nat, others: seq<Line>)
    requires k < |after| && IsTopLevelKey(after[k])
    requires others == [] || IsTopLevelKey(others[0])
    ensures ReadForm(form, after[..k] + others) == ReadForm(form, after)
  {
    if form.Continued? {
      BeforeIgnoresTheRest(StopTest(form.block), after, k, others);
    }
  }

  lemma {:induction false} ReaderIgnoresSiblings(line: Line, after: seq<Line>, k: nat, others: seq<Line>)
    requires k < |after| && IsTopLevelKey(after[k])
    requires others == [] || IsTopLevelKey(others[0])
    ensures DescriptionReader()(line, after[..k] + others) == DescriptionReader()(line, after)
  {
    FormIgnoresSiblings(FormOf(line), after, k, others);
  }

  /**
   Sibling fields are never swallowed: replacing everything from a top-level key on by other fields
   keeps the description.
   */
  lemma SiblingsAreNotSwallowed(lines: seq<Line>, i: nat, k: nat, others: seq<Line>)
    requires IsFirst(FieldTest(DESCRIPTION), lines, i) && i < k < |lines| && IsTopLevelKey(lines[k])
    requires others == [] || IsTopLevelKey(others[0])
    ensures Description(lines[..k] + others) == Description(lines)
  {
    ReaderIgnoresSiblings(lines[i], lines[i + 1..], k - i - 1, others);
    AtFirstIgnoresTheRest(FieldTest(DESCRIPTION), DescriptionReader(), lines, Err(MissingField), i, k, others);
  }

  lemma {:induction false} TextsOfTexts(lines: seq<Line>, texts: seq<string>)
    requires |texts| == |lines| && forall i :: 0 <= i < |lines| ==> IsText(lines[i]) && lines[i].text == texts[i]
    ensures Texts(lines) == texts
  {
    if lines != [] {
      TextsOfTexts(lines[..|lines| - 1], texts[..|texts| - 1]);
    }
  }

  /** Lines with these texts that belong to the description; in a block scalar they are indented. */
  predicate IsContinued(lines: seq<Line>, texts: seq<string>, block: bool) {
    |lines| == |texts| && texts != [] && AllTrimmed(texts)
    && forall i :: 0 <= i < |lines| ==>
         lines[i].text == texts[i]
         && (lines[i].indented || (!block && texts[i][0] != '#' && !IsTopLevelKey(lines[i])))
  }

  lemma NoneStops(lines: seq<Line>, texts: seq<string>, block: bool)
    requires IsContinued(lines, texts, block)
    ensures forall i :: 0 <= i < |lines| ==> IsText(lines[i]) && !StopTest(block)(lines[i])
  {
  }

  /** A line that ends a description: the next field, and below a block scalar any unindented text. */
  predicate Bounds(line: Line, block: bool) {
    IsTopLevelKey(line) || (block && !line.indented && line.text != "" && line.text[0] != '#')
  }

  lemma FoldedContinuation(lines: seq<Line>, texts: seq<string>, block: bool, others: seq<Line>)
    requires IsContinued(lines, texts, block)
    requires others == [] || Bounds(others[0], block)
    ensures Continuation(lines + others, block) == Ok(Join(texts, " "))
  {
    NoneStops(lines, texts, block);
    ContinuationOf(lines + others, block, |lines|);
    assert (lines + others)[..|lines|] == lines;
    TextsOfTexts(lines, texts);
    JoinedTexts(texts);
  }

  /** A description on the lines after its own, closed by a line that bounds it or the end, is folded into one line. */
  lemma {:induction false} ContinuationIsFolded(
    header: Line, block: bool, lines: seq<Line>, texts: seq<string>, others: seq<Line>)
    requires FieldTest(DESCRIPTION)(header) && FormOf(header) == Continued(block) && IsContinued(lines, texts, block)
    requires others == [] || Bounds(others[0], block)
    ensures Description([header] + (lines + others)) == Ok(Join(texts, " "))
  {
    var all := [header] + (lines + others);
    FoldedContinuation(lines, texts, block, others);
    AtFirstContinues(FieldTest(DESCRIPTION), DescriptionReader(), all, Err(MissingField), 0);
    assert all[1..] == lines + others;
  }
}
