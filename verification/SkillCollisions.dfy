/** Skills of two workspaces with one key: what discovery makes of them (app/skills.rs). */
module SkillCollisions {
  import opened Wrappers
  import opened Text
  import opened Ordering
  import opened Frontmatter
  import opened SkillParsing
  import opened SkillListing
  import opened SkillDiscovery

  lemma {:induction false} ListingOfTwo(c: Candidate, d: Candidate)
    requires c.valid && d.valid && c.key == d.key
    ensures ListedValid([c]) == [c] && ListedValid([c] + [d]) == [c]
  {
    AppendValid([], c);
    assert [] + [c] == [c];
    AppendValid([c], d);
    assert HasKey([c], d.key) by { assert [c][0].key == d.key; }
  }

  lemma {:induction false} NoneInvalid(c: Candidate, d: Candidate)
    requires c.valid && d.valid
    ensures ListedInvalid([c] + [d]) == []
  {
    AppendValid([], c);
    assert [] + [c] == [c];
    AppendValid([c], d);
  }

  lemma {:induction false} CandidatesOfTwo(c: Candidate, d: Candidate)
    ensures CandidatesOf([Sound(c)]) == [c] && CandidatesOf([Sound(c)] + [Sound(d)]) == [c] + [d]
    ensures Errors([Sound(c)] + [Sound(d)]) == Errors([Sound(c)]) + ErrorOf(Sound(d), ListedValid([c]))
  {
    FindingsAppend([], Sound(c));
    assert [] + [Sound(c)] == [Sound(c)] && [] + [c] == [c];
    FindingsAppend([Sound(c)], Sound(d));
  }

  lemma {:induction false} ErrorsOfTwo(c: Candidate, d: Candidate)
    requires c.valid && d.valid && c.key == d.key
    ensures Errors([Sound(c)] + [Sound(d)]) == [DiscoveryError(d.path, DuplicateId(d.id))]
  {
    CandidatesOfTwo(c, d);
    ListingOfTwo(c, d);
    assert HasKey([c], d.key) by { assert [c][0].key == d.key; }
    FindingsAppend([], Sound(c));
    assert [] + [Sound(c)] == [Sound(c)];
  }

  lemma SingleCandidate(c: Candidate)
    ensures SortBy(CandidateLe, [c] + []) == [c]
  {
  }

  lemma FindingsOfOneRoot(a: Root, f: SkillFile, read: Reader)
    requires a.candidates == Some([f])
    ensures AllFindings([a], read) == [read(a, f)]
  {
    assert [a][..0] == [];
    assert RootFindings(a, read) == [read(a, f)];
    assert AllFindings([], read) + RootFindings(a, read) == RootFindings(a, read);
  }

  lemma FindingsOfTwoRoots(a: Root, b: Root, f: SkillFile, g: SkillFile, read: Reader)
    requires a.candidates == Some([f]) && b.candidates == Some([g])
    ensures AllFindings([a, b], read) == [read(a, f)] + [read(b, g)]
  {
    FindingsOfOneRoot(a, f, read);
    assert [a, b][..1] == [a];
    assert RootFindings(b, read) == [read(b, g)];
  }

  /**
   Of two valid skills with one key, discovery lists the first and reports the second as a duplicate,
   whatever their workspaces.
   */
  lemma {:induction false} SecondSkillIsDropped(
    a: Root, b: Root, f: SkillFile, g: SkillFile, c: Candidate, d: Candidate, read: Reader)
    requires a.candidates == Some([f]) && b.candidates == Some([g])
    requires read(a, f) == Sound(c) && read(b, g) == Sound(d) && c.valid && d.valid && c.key == d.key
    ensures DiscoveryOf(AllFindings([a, b], read)) == Discovery([c], [DiscoveryError(d.path, DuplicateId(d.id))], [])
  {
    FindingsOfTwoRoots(a, b, f, g, read);
    CandidatesOfTwo(c, d);
    ListingOfTwo(c, d);
    NoneInvalid(c, d);
    ErrorsOfTwo(c, d);
    SingleCandidate(c);
  }

  function PrintedFile(path: Path, id: string, description: string, body: string): SkillFile {
    SkillFile(path, Some(SkillDocument(id, description, body)))
  }

  lemma {:induction false} PrintedFileIsSound(root: Root, path: Path, id: string, description: string, body: string)
    requires IsPrintable(id, description, body)
    ensures FindingOf(root, PrintedFile(path, id, description, body))
            == Sound(CandidateIn(root, path, id, description, true))
  {
    PrintedDocumentIsParsed(id, description, body);
  }

  /** One root with one file. */
  function RootWith(scope: Scope, file: SkillFile): Root {
    Root(scope, [], None, Some([file]))
  }

  /** The id in the shorter workspace that gets the key of `id` in the longer one. */
  function OuterId(shorter: string, longer: string, id: string): string
    requires Extends(longer, shorter)
  {
    longer[|shorter| + 1..] + [':'] + id
  }

  lemma {:induction false} CollidingSkillIsDropped(
    shorter: string, longer: string, id: string, description: string, body: string, p: Path, q: Path)
    requires Extends(longer, shorter) && IsPrintable(id, description, body)
    requires IsPrintable(OuterId(shorter, longer, id), description, body)
    ensures var outer := OuterId(shorter, longer, id);
            var a := RootWith(Workspace(shorter), PrintedFile(p, outer, description, body));
            var b := RootWith(Workspace(longer), PrintedFile(q, id, description, body));
            DiscoveryOf(AllFindings([a, b], SkillReader()))
            == Discovery([CandidateIn(a, p, outer, description, true)], [DiscoveryError(q, DuplicateId(id))], [])
  {
    var outer := OuterId(shorter, longer, id);
    var f, g := PrintedFile(p, outer, description, body), PrintedFile(q, id, description, body);
    var a, b := RootWith(Workspace(shorter), f), RootWith(Workspace(longer), g);
    CollidingIds(shorter, longer, id);
    PrintedFileIsSound(a, p, outer, description, body);
    PrintedFileIsSound(b, q, id, description, body);
    var c, d := CandidateIn(a, p, outer, description, true), CandidateIn(b, q, id, description, true);
    SecondSkillIsDropped(a, b, f, g, c, d, SkillReader());
  }

  /** An id that does not end in a quote is never quoted, and neither is its outer id. */
  lemma OuterIdIsPrintable(shorter: string, longer: string, id: string, description: string, body: string)
    requires Extends(longer, shorter) && IsPrintable(id, description, body)
    requires id != "" && id[|id| - 1] != '"' && id[|id| - 1] != '\''
    ensures IsPrintable(OuterId(shorter, longer, id), description, body)
    ensures OuterId(shorter, longer, id) != id
  {
    CollidingIds(shorter, longer, id);
    var outer := OuterId(shorter, longer, id);
    assert outer[|outer| - 1] == id[|id| - 1];
    assert |outer| > |id|;
  }

  /** A document that can be printed, with an id that does not end in a quote. */
  lemma SomePrintable() returns (id: string, description: string, body: string)
    ensures IsPrintable(id, description, body) && id != "" && id[|id| - 1] != '"' && id[|id| - 1] != '\''
  {
    id, description, body := "x", "Text", "Steps";
    PlainTexts();
    assert ValidId("x") by { assert Trimmed("x"); }
  }

  /**
   Whenever one workspace id extends another by a colon, there are valid documents in the two
   workspaces, with different ids, of which discovery lists only the first.
   */
  lemma {:induction false} SkillOfOtherWorkspaceIsDropped(shorter: string, longer: string)
    returns (a: Root, b: Root, c: Candidate, d: Candidate)
    requires Extends(longer, shorter)
    ensures a.scope == Workspace(shorter) && b.scope == Workspace(longer)
    ensures AllFindings([a], SkillReader()) == [Sound(c)] && AllFindings([b], SkillReader()) == [Sound(d)]
    ensures c.valid && d.valid && c.id != d.id
    ensures DiscoveryOf(AllFindings([a, b], SkillReader()))
            == Discovery([c], [DiscoveryError(d.path, DuplicateId(d.id))], [])
  {
    var id, description, body := SomePrintable();
    OuterIdIsPrintable(shorter, longer, id, description, body);
    var outer := OuterId(shorter, longer, id);
    var f, g := PrintedFile([], outer, description, body), PrintedFile([], id, description, body);
    a, b := RootWith(Workspace(shorter), f), RootWith(Workspace(longer), g);
    c, d := CandidateIn(a, [], outer, description, true), CandidateIn(b, [], id, description, true);
    PrintedFileIsSound(a, [], outer, description, body);
    PrintedFileIsSound(b, [], id, description, body);
    FindingsOfOneRoot(a, f, SkillReader());
    FindingsOfOneRoot(b, g, SkillReader());
    CollidingSkillIsDropped(shorter, longer, id, description, body, [], []);
  }

  // ----- A broken document -----

  lemma BrokenFile(root: Root, path: Path, id: string, description: string, body: string)
    requires ValidId(id) && Unquote(id) == id && IsPlain(description) && Instructions(Lines(body)) == ""
    ensures FindingOf(root, PrintedFile(path, id, description, body))
            == Broken(
                 DiscoveryError(path, BadDocument(EmptyBody)),
                 Some(CandidateIn(root, path, id, "Invalid skill frontmatter.", false)))
  {
    DocumentWithoutInstructions(id, description, body);
  }

  lemma {:induction false} ListingOfInvalid(c: Candidate)
    requires !c.valid
    ensures ListedValid([c]) == [] && ListedInvalid([c]) == [c]
  {
    assert [c][..0] == [] && [] + [c] == [c];
    assert WithValidity([], true) == [] && WithValidity([c], true) == [];
    assert WithValidity([], false) == [] && WithValidity([c], false) == [c];
    assert Firsts([], []) == [] && Firsts([c], []) == [c];
  }

  lemma {:induction false} DiscoveryOfBroken(error: DiscoveryError, c: Candidate)
    requires !c.valid
    ensures DiscoveryOf([Broken(error, Some(c))]) == Discovery([c], [error], [c.key])
  {
    var finding := Broken(error, Some(c));
    FindingsAppend([], finding);
    assert [] + [finding] == [finding] && [] + [c] == [c] && [] + [error] == [error];
    ListingOfInvalid(c);
    SingleCandidate(c);
    assert Keys([c]) == [c.key];
    assert SortBy(StringLe, [c.key]) == [c.key] by { assert [c.key][..0] == []; }
  }

  /** A document without instructions is reported, listed as invalid under its id, and its key is to be disabled. */
  lemma {:induction false} BrokenSkillIsDisabled(a: Root, path: Path, id: string, description: string, body: string)
    requires ValidId(id) && Unquote(id) == id && IsPlain(description) && Instructions(Lines(body)) == ""
    requires a.candidates == Some([PrintedFile(path, id, description, body)])
    ensures var c := CandidateIn(a, path, id, "Invalid skill frontmatter.", false);
            DiscoveryOf(AllFindings([a], SkillReader()))
            == Discovery([c], [DiscoveryError(path, BadDocument(EmptyBody))], [SkillKey(a.scope, id)])
  {
    BrokenFile(a, path, id, description, body);
    FindingsOfOneRoot(a, PrintedFile(path, id, description, body), SkillReader());
    DiscoveryOfBroken(
      DiscoveryError(path, BadDocument(EmptyBody)), CandidateIn(a, path, id, "Invalid skill frontmatter.", false));
  }
}
