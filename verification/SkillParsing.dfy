/** The two parsers of skill documents and the keys of skills (app/skills.rs). */
module SkillParsing {
  import opened Wrappers
  import opened Text
  import opened Searching
  import opened Frontmatter

  const BOM := '\U{FEFF}'
  const DELIMITER := "---"
  const NAME := "name"

  datatype ParseError =
    | MissingOpening | MissingClosing | EmptyBody | InvalidId
    | BadName(error: FieldError) | BadDescription(error: FieldError)

  function WithoutBom(content: string): string {
    if content != "" && content[0] == BOM then content[1..] else content
  }

  /** One byte order mark at the start is dropped. */
  lemma BomIsDropped(content: string)
    ensures WithoutBom(['\U{FEFF}'] + content) == content
    ensures content == "" || content[0] != '\U{FEFF}' ==> WithoutBom(content) == content
  {
  }

  predicate HasWhitespace(s: string) {
    exists i :: 0 <= i < |s| && IsWhitespace(s[i])
  }

  /** `validate_skill_id`. */
  predicate ValidId(id: string) {
    Trim(id) != "" && !HasWhitespace(id)
  }

  predicate IsDelimiter(line: string) {
    Trim(line) == DELIMITER
  }

  /** A document cut at its delimiters: the frontmatter and the lines after it. */
  datatype Parts = Parts(frontmatter: seq<string>, body: seq<string>)

  predicate Opens(lines: seq<string>) {
    lines != [] && IsDelimiter(lines[0])
  }

  /** The frontmatter runs from the opening delimiter to the first line after it that is a delimiter again. */
  function Cut(lines: seq<string>): Result<Parts, ParseError> {
    if !Opens(lines) then Err(MissingOpening)
    else
      var rest := lines[1..];
      var e := FirstIndex(IsDelimiter, rest);
      if e.None? then Err(MissingClosing) else Ok(Parts(rest[..e.value], rest[e.value + 1..]))
  }

  /** Cutting gives back the document around two delimiters, and there is no delimiter in the frontmatter. */
  lemma CutMeaning(lines: seq<string>)
    ensures Cut(lines).Ok? ==>
              var parts := Cut(lines).value;
              NoneOf(IsDelimiter, parts.frontmatter)
              && exists a, b :: IsDelimiter(a) && IsDelimiter(b) && lines == [a] + parts.frontmatter + [b] + parts.body
    ensures Cut(lines) == Err(MissingClosing) <==> Opens(lines) && NoneOf(IsDelimiter, lines[1..])
  {
    if Cut(lines).Ok? {
      var rest := lines[1..];
      var e := FirstIndex(IsDelimiter, rest).value;
      assert lines == [lines[0]] + rest[..e] + [rest[e]] + rest[e + 1..];
    }
  }

  /** The name field, if it makes a valid id. */
  function IdOf(frontmatter: seq<string>): Result<string, ParseError> {
    var id := Field(ReadAll(frontmatter), NAME);
    if id.Err? then Err(BadName(id.error)) else if !ValidId(id.value) then Err(InvalidId) else Ok(id.value)
  }

  /** What the id parser makes of the lines of a document. */
  function IdFromLines(lines: seq<string>): Result<string, ParseError> {
    var parts := Cut(lines);
    if parts.Err? then Err(parts.error) else IdOf(parts.value.frontmatter)
  }

  datatype Skill = Skill(id: string, description: string)

  /** The instructions after the frontmatter. */
  function Instructions(body: seq<string>): string {
    Trim(Join(body, "\n"))
  }

  function SkillOf(parts: Parts): Result<Skill, ParseError> {
    if Instructions(parts.body) == "" then Err(EmptyBody)
    else
      var id := IdOf(parts.frontmatter);
      if id.Err? then Err(id.error)
      else
        var description := Description(ReadAll(parts.frontmatter));
        if description.Err? then Err(BadDescription(description.error)) else Ok(Skill(id.value, description.value))
  }

  /** What the full parser makes of the lines of a document. */
  function SkillFromLines(lines: seq<string>): Result<Skill, ParseError> {
    var parts := Cut(lines);
    if parts.Err? then Err(parts.error) else SkillOf(parts.value)
  }

  method ParseName(frontmatter: seq<string>) returns (r: Result<string, ParseError>)
    ensures r == IdOf(frontmatter)
  {
    var id := FindField(ReadAll(frontmatter), NAME);
    if id.Err? {
      return Err(BadName(id.error));
    }
    if !ValidId(id.value) {
      return Err(InvalidId);
    }
    return Ok(id.value);
  }

  /** The loop of both parsers: collects lines up to the closing delimiter. */
  method ReadFrontmatter(lines: seq<string>) returns (r: Result<Parts, ParseError>)
    ensures r == Cut(lines)
  {
    if !Opens(lines) {
      return Err(MissingOpening);
    }
    var rest := lines[1..];
    var frontmatter: seq<string> := [];
    for i := 0 to |rest|
      invariant frontmatter == rest[..i]
      invariant forall k :: 0 <= k < i ==> !IsDelimiter(rest[k])
    {
      if IsDelimiter(rest[i]) {
        FirstIsUnique(IsDelimiter, rest, i);
        return Ok(Parts(frontmatter, rest[i + 1..]));
      }
      frontmatter := frontmatter + [rest[i]];
    }
    return Err(MissingClosing);
  }

  /** `parse_skill_markdown_id`. */
  method ParseId(content: string) returns (r: Result<string, ParseError>)
    ensures r == IdFromLines(Lines(WithoutBom(content)))
    ensures r.Ok? ==> ValidId(r.value)
  {
    var parts := ReadFrontmatter(Lines(WithoutBom(content)));
    if parts.Err? {
      return Err(parts.error);
    }
    r := ParseName(parts.value.frontmatter);
  }

  /** `parse_skill_markdown`. */
  method ParseSkill(content: string) returns (r: Result<Skill, ParseError>)
    ensures r == SkillFromLines(Lines(WithoutBom(content)))
    ensures r.Ok? ==> ValidId(r.value.id) && r.value.description != "" && Trimmed(r.value.description)
  {
    var parts := ReadFrontmatter(Lines(WithoutBom(content)));
    if parts.Err? {
      return Err(parts.error);
    }
    if Instructions(parts.value.body) == "" {
      return Err(EmptyBody);
    }
    var id := ParseName(parts.value.frontmatter);
    if id.Err? {
      return Err(id.error);
    }
    var description := FindDescription(ReadAll(parts.value.frontmatter));
    DescriptionIsTrimmed(ReadAll(parts.value.frontmatter));
    if description.Err? {
      return Err(BadDescription(description.error));
    }
    return Ok(Skill(id.value, description.value));
  }

  /**
   The full parser accepts a document exactly when the id parser does, instructions follow the
   frontmatter and the description parses; it then gives the same id.
   */
  lemma ParsersAgreeOnTheId(lines: seq<string>)
    ensures SkillFromLines(lines).Ok? ==> IdFromLines(lines) == Ok(SkillFromLines(lines).value.id)
    ensures SkillFromLines(lines).Ok? <==>
            IdFromLines(lines).Ok?
            && var parts := Cut(lines).value;
               Instructions(parts.body) != "" && Description(ReadAll(parts.frontmatter)).Ok?
  {
  }

  // ----- Printed documents -----

  /** A value that is read back as it is written: text on one line, not quoted and no block scalar header. */
  predicate IsPlain(value: string) {
    value != "" && Trimmed(value) && '\n' !in value && Unquote(value) == value && !BlockHeader(WithoutComment(value))
  }

  /** An id, a description and instructions that a document can be printed from. */
  predicate IsPrintable(id: string, description: string, body: string) {
    ValidId(id) && Unquote(id) == id && IsPlain(description) && Instructions(Lines(body)) != ""
  }

  function FieldText(field: string, value: string): string {
    field + [':'] + ([' '] + value)
  }

  /** A document with a name, a description and instructions. */
  function SkillDocument(id: string, description: string, body: string): string {
    DELIMITER + ['\n']
    + (FieldText(NAME, id) + ['\n'] + (FieldText(DESCRIPTION, description) + ['\n'] + (DELIMITER + ['\n'] + body)))
  }

  /** The texts of a document. */
  lemma DocumentTexts(line: string)
    ensures DELIMITER == "---" && NAME == "name" && Frontmatter.DESCRIPTION == "description"
    ensures IsDelimiter(line) <==> Trim(line) == "---"
  {
  }

  lemma FirstColon(before: string, after: string)
    requires ':' !in before
    ensures Colon(before + [':'] + after) == Some(|before|)
  {
    var line := before + [':'] + after;
    assert line[|before|] == ':';
    assert forall k :: 0 <= k < |before| ==> line[k] == before[k];
  }

  lemma TrimAfterSpace(value: string)
    requires Trimmed(value)
    ensures Trim([' '] + value) == value
  {
  }

  predicate IsField(field: string) {
    field != "" && Trimmed(field) && ':' !in field && field[0] != '#' && field[0] != '-'
  }

  lemma FieldTextIsTrimmed(field: string, value: string)
    requires IsField(field) && value != "" && Trimmed(value)
    ensures var line := FieldText(field, value);
            Trim(line) == line && line[0] == field[0]
  {
  }

  lemma EntryOfFieldText(field: string, value: string)
    requires IsField(field) && Trimmed(value) && Unquote(value) == value
    ensures EntryAt(FieldText(field, value), |field|) == Entry(field, [' '] + value, value)
  {
    var line := FieldText(field, value);
    TrimAfterSpace(value);
    assert line[..|field|] == field && line[|field| + 1..] == [' '] + value;
  }

  /** A printed field is read back. */
  lemma FieldIsRead(field: string, value: string)
    requires IsField(field) && value != "" && Trimmed(value) && Unquote(value) == value
    ensures var line := Read(FieldText(field, value));
            line.entry == Some(Entry(field, [' '] + value, value))
  {
    FieldTextIsTrimmed(field, value);
    FirstColon(field, [' '] + value);
    EntryOfFieldText(field, value);
  }

  lemma FieldIsNoDelimiter(field: string, value: string)
    requires IsField(field) && value != "" && Trimmed(value)
    ensures !IsDelimiter(FieldText(field, value))
  {
  }

  lemma FieldNames()
    ensures IsField(NAME) && IsField(DESCRIPTION) && '\n' !in NAME && '\n' !in DESCRIPTION
  {
  }

  lemma IdsArePlainText(id: string)
    requires ValidId(id)
    ensures id != "" && Trimmed(id) && '\n' !in id
  {
  }

  lemma LinesOfField(field: string, value: string, rest: string)
    requires IsField(field) && '\n' !in field && value != "" && Trimmed(value) && '\n' !in value
    ensures Lines(FieldText(field, value) + ['\n'] + rest) == [FieldText(field, value)] + Lines(rest)
  {
    var line := FieldText(field, value);
    assert line[|line| - 1] == value[|value| - 1] && IsWhitespace('\r');
    LinesOfFirst(line, rest);
  }

  lemma LinesOfDocument(id: string, description: string, body: string)
    requires ValidId(id) && IsPlain(description)
    ensures Lines(SkillDocument(id, description, body))
         == [DELIMITER]
            + ([FieldText(NAME, id)] + ([FieldText(DESCRIPTION, description)] + ([DELIMITER] + Lines(body))))
  {
    IdsArePlainText(id);
    FieldNames();
    var closing := DELIMITER + ['\n'] + body;
    var described := FieldText(DESCRIPTION, description) + ['\n'] + closing;
    LinesOfFirst(DELIMITER, body);
    LinesOfField(DESCRIPTION, description, closing);
    LinesOfField(NAME, id, described);
    LinesOfFirst(DELIMITER, FieldText(NAME, id) + ['\n'] + described);
  }

  lemma CutAt(opening: string, rest: seq<string>, e: nat)
    requires IsDelimiter(opening) && IsFirst(IsDelimiter, rest, e)
    ensures Cut([opening] + rest) == Ok(Parts(rest[..e], rest[e + 1..]))
  {
  }

  lemma ClosesThird(name: string, description: string, closing: string, body: seq<string>)
    requires !IsDelimiter(name) && !IsDelimiter(description) && IsDelimiter(closing)
    ensures IsFirst(IsDelimiter, [name] + ([description] + ([closing] + body)), 2)
  {
  }

  lemma TwoThenOne(a: string, b: string, c: string, rest: seq<string>)
    ensures var all := [a] + ([b] + ([c] + rest));
            all[..2] == [a, b] && all[3..] == rest
  {
  }

  lemma CutOfDocument(name: string, description: string, closing: string, body: seq<string>)
    requires !IsDelimiter(name) && !IsDelimiter(description) && IsDelimiter(closing)
    ensures Cut([closing] + ([name] + ([description] + ([closing] + body)))) == Ok(Parts([name, description], body))
  {
    var rest := [name] + ([description] + ([closing] + body));
    ClosesThird(name, description, closing, body);
    CutAt(closing, rest, 2);
    TwoThenOne(name, description, closing, body);
  }

  lemma FormOfPlain(line: Line, description: string)
    requires IsPlain(description) && line.entry == Some(Entry(DESCRIPTION, [' '] + description, description))
    ensures FormOf(line) == Inline(description)
  {
  }

  lemma TwoFields(name: Line, description: Line)
    requires name.entry.Some? && name.entry.value.key == NAME && name.entry.value.plain != ""
    requires description.entry.Some? && description.entry.value.key == DESCRIPTION
    ensures Field([name, description], NAME) == Ok(name.entry.value.plain)
    ensures Description([name, description]) == ReadForm(FormOf(description), [])
  {
    var lines := [name, description];
    FirstIsUnique(FieldTest(NAME), lines, 0);
    assert NAME != DESCRIPTION by { assert |NAME| != |DESCRIPTION|; }
    DescriptionOfFirst(lines, 1);
  }

  lemma ReadPair(x: string, y: string)
    ensures ReadAll([x, y]) == [Read(x), Read(y)]
  {
  }

  lemma {:induction false} ReadTwoFields(field: string, value: string, other: string, otherValue: string)
    returns (a: Line, b: Line)
    requires IsField(field) && value != "" && Trimmed(value) && Unquote(value) == value
    requires IsField(other) && otherValue != "" && Trimmed(otherValue) && Unquote(otherValue) == otherValue
    ensures ReadAll([FieldText(field, value), FieldText(other, otherValue)]) == [a, b]
    ensures a.entry == Some(Entry(field, [' '] + value, value))
    ensures b.entry == Some(Entry(other, [' '] + otherValue, otherValue))
  {
    FieldIsRead(field, value);
    FieldIsRead(other, otherValue);
    ReadPair(FieldText(field, value), FieldText(other, otherValue));
    a, b := Read(FieldText(field, value)), Read(FieldText(other, otherValue));
  }

  lemma {:induction false} FieldsOfDocument(id: string, description: string)
    requires ValidId(id) && Unquote(id) == id && IsPlain(description)
    ensures Field(ReadAll([FieldText(NAME, id), FieldText(DESCRIPTION, description)]), NAME) == Ok(id)
    ensures Description(ReadAll([FieldText(NAME, id), FieldText(DESCRIPTION, description)])) == Ok(description)
  {
    IdsArePlainText(id);
    FieldNames();
    var name, described := ReadTwoFields(NAME, id, DESCRIPTION, description);
    FormOfPlain(described, description);
    TwoFields(name, described);
  }

  lemma {:induction false} SkillOfDocument(id: string, description: string, body: seq<string>)
    requires ValidId(id) && Unquote(id) == id && IsPlain(description) && Instructions(body) != ""
    ensures SkillOf(Parts([FieldText(NAME, id), FieldText(DESCRIPTION, description)], body))
            == Ok(Skill(id, description))
  {
    FieldsOfDocument(id, description);
  }

  lemma DocumentIsCut(id: string, description: string, body: string)
    requires ValidId(id) && IsPlain(description)
    ensures Cut(Lines(SkillDocument(id, description, body)))
         == Ok(Parts([FieldText(NAME, id), FieldText(DESCRIPTION, description)], Lines(body)))
  {
    LinesOfDocument(id, description, body);
    IdsArePlainText(id);
    FieldNames();
    FieldIsNoDelimiter(NAME, id);
    FieldIsNoDelimiter(DESCRIPTION, description);
    assert IsDelimiter(DELIMITER);
    CutOfDocument(FieldText(NAME, id), FieldText(DESCRIPTION, description), DELIMITER, Lines(body));
  }

  lemma DocumentHasNoBom(id: string, description: string, body: string)
    ensures WithoutBom(SkillDocument(id, description, body)) == SkillDocument(id, description, body)
  {
  }

  /** Parsing a printed document gives back its id and its description. */
  lemma PrintedDocumentIsParsed(id: string, description: string, body: string)
    requires IsPrintable(id, description, body)
    ensures SkillFromLines(Lines(WithoutBom(SkillDocument(id, description, body)))) == Ok(Skill(id, description))
  {
    DocumentHasNoBom(id, description, body);
    DocumentIsCut(id, description, body);
    SkillOfDocument(id, description, Lines(body));
  }

  /** Without instructions the document is refused, but its id can still be read. */
  lemma DocumentWithoutInstructions(id: string, description: string, body: string)
    requires ValidId(id) && Unquote(id) == id && IsPlain(description) && Instructions(Lines(body)) == ""
    ensures SkillFromLines(Lines(WithoutBom(SkillDocument(id, description, body)))) == Err(EmptyBody)
    ensures IdFromLines(Lines(WithoutBom(SkillDocument(id, description, body)))) == Ok(id)
  {
    DocumentHasNoBom(id, description, body);
    DocumentIsCut(id, description, body);
    FieldsOfDocument(id, description);
  }

  lemma PlainTexts()
    ensures IsPlain("Text") && Instructions(Lines("Steps")) != ""
  {
    assert Trimmed("Text") && Trimmed("Steps");
    assert CommentStart("Text", 0) == 4;
    SplitSingle("Steps", '\n');
    assert Lines("Steps") == ["Steps"];
  }

  // ----- Keys -----

  datatype Scope = Global | Workspace(workspaceId: string)

  const GLOBAL_PREFIX := "global:"
  const WORKSPACE_PREFIX := "workspace:"

  /** `skill_key`. */
  function SkillKey(scope: Scope, id: string): string {
    match scope
    case Global => GLOBAL_PREFIX + id
    case Workspace(workspaceId) => WORKSPACE_PREFIX + (workspaceId + [':'] + id)
  }

  /** The texts of keys. */
  lemma KeyTexts(id: string, workspaceId: string)
    ensures SkillKey(Global, id) == "global:" + id
    ensures SkillKey(Workspace(workspaceId), id) == "workspace:" + (workspaceId + ":" + id)
  {
  }

  lemma PrefixesDiffer(a: string, b: string)
    ensures GLOBAL_PREFIX + a != WORKSPACE_PREFIX + b
  {
    assert (GLOBAL_PREFIX + a)[0] == 'g' && (WORKSPACE_PREFIX + b)[0] == 'w';
  }

  lemma CancelPrefix(prefix: string, a: string, b: string)
    requires prefix + a == prefix + b
    ensures a == b
  {
    assert (prefix + a)[|prefix|..] == a && (prefix + b)[|prefix|..] == b;
  }

  /** One workspace id is another one, a colon, and more without whitespace. */
  predicate Extends(longer: string, shorter: string) {
    StartsWith(longer, shorter + [':']) && !HasWhitespace(longer[|shorter| + 1..])
  }

  lemma {:induction false} ColonSeparates(w: string, id: string, v: string, jd: string)
    requires w + [':'] + id == v + [':'] + jd
    ensures w == v ==> id == jd
    ensures |w| == |v| ==> w == v
    ensures |w| < |v| ==> StartsWith(v, w + [':']) && id == v[|w| + 1..] + [':'] + jd
  {
    var whole := w + [':'] + id;
    assert w == whole[..|w|] && v == whole[..|v|];
    assert id == whole[|w| + 1..] && jd == whole[|v| + 1..];
    if |w| < |v| {
      assert v[..|w| + 1] == whole[..|w| + 1] == w + [':'];
      assert whole[|w| + 1..] == v[|w| + 1..] + [':'] + jd;
    }
  }

  predicate SameKey(a: Scope, id: string, b: Scope, jd: string) {
    ValidId(id) && ValidId(jd) && SkillKey(a, id) == SkillKey(b, jd)
  }

  lemma WorkspaceKeysExtend(w: string, id: string, v: string, jd: string)
    requires SameKey(Workspace(w), id, Workspace(v), jd) && |w| < |v|
    ensures Extends(v, w)
  {
    CancelPrefix(WORKSPACE_PREFIX, w + [':'] + id, v + [':'] + jd);
    ColonSeparates(w, id, v, jd);
    var rest := v[|w| + 1..];
    assert forall i :: 0 <= i < |rest| ==> id[i] == rest[i];
  }

  lemma SameKeyMeansExtension(a: Scope, id: string, b: Scope, jd: string)
    requires a != b && SameKey(a, id, b, jd)
    ensures a.Workspace? && b.Workspace?
    ensures Extends(a.workspaceId, b.workspaceId) || Extends(b.workspaceId, a.workspaceId)
  {
    if a.Global? {
      PrefixesDiffer(id, b.workspaceId + [':'] + jd);
    } else if b.Global? {
      PrefixesDiffer(jd, a.workspaceId + [':'] + id);
    } else {
      var w, v := a.workspaceId, b.workspaceId;
      CancelPrefix(WORKSPACE_PREFIX, w + [':'] + id, v + [':'] + jd);
      ColonSeparates(w, id, v, jd);
      if |w| < |v| {
        WorkspaceKeysExtend(w, id, v, jd);
      } else if |v| < |w| {
        WorkspaceKeysExtend(v, jd, w, id);
      }
    }
  }

  /**
   The keys that collide: in the shorter workspace the id is the extension, a colon and the id in the
   longer one.
   */
  lemma {:induction false} CollidingIds(shorter: string, longer: string, jd: string)
    requires Extends(longer, shorter) && ValidId(jd)
    ensures SameKey(Workspace(shorter), longer[|shorter| + 1..] + [':'] + jd, Workspace(longer), jd)
  {
    var rest := longer[|shorter| + 1..];
    var id := rest + [':'] + jd;
    assert longer == shorter + [':'] + rest;
    assert shorter + [':'] + id == longer + [':'] + jd;
    forall i | 0 <= i < |id| ensures !IsWhitespace(id[i]) {
      assert i < |rest| ==> id[i] == rest[i];
      assert i == |rest| ==> id[i] == ':';
      assert i > |rest| ==> id[i] == jd[i - |rest| - 1];
    }
    assert Trimmed(id) && Trim(id) == id;
  }

  lemma SomeIdCollides(shorter: string, longer: string)
    requires Extends(longer, shorter)
    ensures exists id, jd :: SameKey(Workspace(shorter), id, Workspace(longer), jd)
    ensures exists id, jd :: SameKey(Workspace(longer), id, Workspace(shorter), jd)
  {
    var jd := "x";
    assert ValidId(jd) by { assert Trimmed(jd); }
    CollidingIds(shorter, longer, jd);
    var id := longer[|shorter| + 1..] + [':'] + jd;
    assert SameKey(Workspace(shorter), id, Workspace(longer), jd);
    assert SameKey(Workspace(longer), jd, Workspace(shorter), id);
  }

  /** Skills of different scopes can get the same key exactly when one workspace id extends the other by a colon. */
  lemma KeysCollideIff(a: Scope, b: Scope)
    requires a != b
    ensures (exists id, jd :: SameKey(a, id, b, jd)) <==>
            a.Workspace? && b.Workspace?
            && (Extends(a.workspaceId, b.workspaceId) || Extends(b.workspaceId, a.workspaceId))
  {
    if id, jd :| SameKey(a, id, b, jd) {
      SameKeyMeansExtension(a, id, b, jd);
    }
    if a.Workspace? && b.Workspace? {
      if Extends(a.workspaceId, b.workspaceId) {
        SomeIdCollides(b.workspaceId, a.workspaceId);
      } else if Extends(b.workspaceId, a.workspaceId) {
        SomeIdCollides(a.workspaceId, b.workspaceId);
      }
    }
  }

  lemma NoWhitespaceInTheRest(s: string, from: nat)
    requires !HasWhitespace(s)
    ensures from <= |s| ==> !HasWhitespace(s[from..])
  {
  }

  /** For workspace ids without whitespace, which the configuration demands, the colon alone decides. */
  lemma ConfiguredKeysCollideIff(w: string, v: string)
    requires w != v && !HasWhitespace(w) && !HasWhitespace(v)
    ensures (exists id, jd :: SameKey(Workspace(w), id, Workspace(v), jd)) <==>
            StartsWith(v, w + [':']) || StartsWith(w, v + [':'])
  {
    KeysCollideIff(Workspace(w), Workspace(v));
    NoWhitespaceInTheRest(v, |w| + 1);
    NoWhitespaceInTheRest(w, |v| + 1);
  }

  /** The skill `a:x` of workspace `w` and the skill `x` of workspace `w:a`. */
  lemma TwoSkillsWithOneKey()
    ensures SameKey(Workspace("w"), "a:x", Workspace("w:a"), "x")
  {
  }

  /** Within one scope the key determines the id. */
  lemma KeysAreInjectivePerScope(scope: Scope, id: string, jd: string)
    requires SkillKey(scope, id) == SkillKey(scope, jd)
    ensures id == jd
  {
    match scope
    case Global => CancelPrefix(GLOBAL_PREFIX, id, jd);
    case Workspace(w) =>
      CancelPrefix(WORKSPACE_PREFIX, w + [':'] + id, w + [':'] + jd);
      ColonSeparates(w, id, w, jd);
  }
}
