/** Discovery of skills under several roots (app/skills.rs). */
module SkillDiscovery {
  import opened Wrappers
  import opened Text
  import opened Bags
  import opened Ordering
  import opened SkillParsing
  import opened SkillListing

  /** A candidate file; the content is absent when the file cannot be loaded. */
  datatype SkillFile = SkillFile(path: Path, content: Option<string>)

  /** A root and the candidate files found under it, or nothing when its directory cannot be read. */
  datatype Root = Root(scope: Scope, directory: Path, workspaceName: Option<string>, candidates: Option<seq<SkillFile>>)

  datatype Problem = UnreadableRoot | UnloadableFile | BadDocument(error: ParseError) | DuplicateId(id: string)

  datatype DiscoveryError = DiscoveryError(path: Path, problem: Problem)

  /** What one look at the file system gives: a skill, or an error and perhaps the id of a broken skill. */
  datatype Finding = Sound(skill: Candidate) | Broken(error: DiscoveryError, fallback: Option<Candidate>)

  const INVALID_DESCRIPTION := "Invalid skill frontmatter."

  function CandidateIn(root: Root, path: Path, id: string, description: string, valid: bool): Candidate {
    Candidate(SkillKey(root.scope, id), id, description, path, root.scope, root.workspaceName, valid)
  }

  /** A valid document is a skill; of an invalid one at least the id may be readable. */
  function FindingOf(root: Root, file: SkillFile): Finding {
    if file.content.None? then Broken(DiscoveryError(file.path, UnloadableFile), None)
    else
      var lines := Lines(WithoutBom(file.content.value));
      var skill := SkillFromLines(lines);
      if skill.Ok? then Sound(CandidateIn(root, file.path, skill.value.id, skill.value.description, true))
      else
        var id := IdFromLines(lines);
        Broken(
          DiscoveryError(file.path, BadDocument(skill.error)),
          if id.Ok? then Some(CandidateIn(root, file.path, id.value, INVALID_DESCRIPTION, false)) else None)
  }

  /** How a file under a root is read. */
  type Reader = (Root, SkillFile) -> Finding

  function RootFindings(root: Root, read: Reader): seq<Finding> {
    if root.candidates.None? then [Broken(DiscoveryError(root.directory, UnreadableRoot), None)]
    else MapAll((file: SkillFile) => read(root, file), root.candidates.value)
  }

  /** Everything found, in discovery order. */
  function AllFindings(roots: seq<Root>, read: Reader): seq<Finding> {
    if roots == [] then [] else AllFindings(roots[..|roots| - 1], read) + RootFindings(roots[|roots| - 1], read)
  }

  /** A root adds one broken finding if it cannot be read, and else one finding per file, in order. */
  lemma FindingsOfRoot(root: Root, read: Reader)
    ensures var own := RootFindings(root, read);
            (root.candidates.None? ==> |own| == 1 && own[0].Broken?)
            && (root.candidates.Some? ==>
                  |own| == |root.candidates.value|
                  && forall i :: 0 <= i < |own| ==> own[i] == read(root, root.candidates.value[i]))
  {
  }

  /** The findings of one more root come last. */
  lemma OneMoreRoot(roots: seq<Root>, root: Root, read: Reader)
    ensures AllFindings([], read) == []
    ensures AllFindings(roots + [root], read) == AllFindings(roots, read) + RootFindings(root, read)
  {
    assert (roots + [root])[..|roots|] == roots;
  }

  function CandidateOf(finding: Finding): seq<Candidate> {
    match finding
    case Sound(skill) => [skill]
    case Broken(_, fallback) => if fallback.Some? then [fallback.value] else []
  }

  function CandidatesOf(findings: seq<Finding>): seq<Candidate> {
    if findings == [] then [] else CandidatesOf(findings[..|findings| - 1]) + CandidateOf(findings[|findings| - 1])
  }

  function ErrorOf(finding: Finding, listed: seq<Candidate>): seq<DiscoveryError> {
    match finding
    case Sound(skill) => if HasKey(listed, skill.key) then [DiscoveryError(skill.path, DuplicateId(skill.id))] else []
    case Broken(error, _) => [error]
  }

  /** The reported errors, in discovery order. */
  function Errors(findings: seq<Finding>): seq<DiscoveryError> {
    if findings == [] then []
    else
      var before := findings[..|findings| - 1];
      Errors(before) + ErrorOf(findings[|findings| - 1], ListedValid(CandidatesOf(before)))
  }

  // ----- The order of the result -----

  predicate OptionLe(a: Option<string>, b: Option<string>) {
    a.None? || (b.Some? && StringLe(a.value, b.value))
  }

  function ScopeName(scope: Scope): string {
    if scope.Global? then "global" else "workspace"
  }

  function PathKey(path: seq<string>): seq<Option<string>> {
    MapAll((part: string) => Some(part), path)
  }

  /** Skills are ordered by scope, workspace name, id and path, in this order. */
  function SortKey(c: Candidate): seq<Option<string>> {
    [Some(ScopeName(c.scope)), c.workspaceName, Some(c.id)] + PathKey(c.path)
  }

  predicate CandidateLe(c: Candidate, d: Candidate) {
    Lex(OptionLe, SortKey(c), SortKey(d))
  }

  lemma {:induction false} PathKeysAscend(path: seq<string>, other: seq<string>)
    ensures Lex(OptionLe, PathKey(path), PathKey(other)) <==> Lex(StringLe, path, other)
  {
    if path != [] && other != [] {
      PathKeysAscend(path[1..], other[1..]);
      assert PathKey(path)[1..] == PathKey(path[1..]) && PathKey(other)[1..] == PathKey(other[1..]);
    }
  }

  lemma ScopeNamesAscend(a: Scope, b: Scope)
    requires OptionLe(Some(ScopeName(a)), Some(ScopeName(b)))
    ensures a.Workspace? ==> b.Workspace?
  {
    assert !CharLe("workspace"[0], "global"[0]);
  }

  /** Global skills come first, then those of unnamed workspaces, then by name, id and path. */
  lemma CandidateOrder(c: Candidate, d: Candidate)
    requires CandidateLe(c, d)
    ensures c.scope.Workspace? ==> d.scope.Workspace?
    ensures c.scope.Global? == d.scope.Global? ==> OptionLe(c.workspaceName, d.workspaceName)
    ensures c.scope.Global? == d.scope.Global? && c.workspaceName == d.workspaceName ==> StringLe(c.id, d.id)
    ensures c.scope.Global? == d.scope.Global? && c.workspaceName == d.workspaceName && c.id == d.id ==>
              Lex(StringLe, c.path, d.path)
  {
    var named, other := [Some(c.id)] + PathKey(c.path), [Some(d.id)] + PathKey(d.path);
    assert SortKey(c) == [Some(ScopeName(c.scope))] + ([c.workspaceName] + named);
    assert SortKey(d) == [Some(ScopeName(d.scope))] + ([d.workspaceName] + other);
    LexOfHead(OptionLe, Some(ScopeName(c.scope)), [c.workspaceName] + named, Some(ScopeName(d.scope)),
              [d.workspaceName] + other);
    LexOfHead(OptionLe, c.workspaceName, named, d.workspaceName, other);
    LexOfHead(OptionLe, Some(c.id), PathKey(c.path), Some(d.id), PathKey(d.path));
    PathKeysAscend(c.path, d.path);
    ScopeNamesAscend(c.scope, d.scope);
  }

  lemma OptionsAreOrdered()
    ensures TotalOrder(OptionLe)
  {
    StringsAreOrdered();
  }

  lemma CandidatesAreOrdered()
    ensures Preorder(CandidateLe)
  {
    OptionsAreOrdered();
    forall c, d ensures CandidateLe(c, d) || CandidateLe(d, c) {
      LexIsTotal(OptionLe, SortKey(c), SortKey(d));
    }
    forall c, d, e | CandidateLe(c, d) && CandidateLe(d, e) ensures CandidateLe(c, e) {
      LexIsTransitive(OptionLe, SortKey(c), SortKey(d), SortKey(e));
    }
  }

  /** `dedup`: drops repetitions of the element before. */
  function Dedup(s: seq<string>): seq<string> {
    if |s| <= 1 then s
    else
      var before := Dedup(s[..|s| - 1]);
      if s[|s| - 1] == s[|s| - 2] then before else before + [s[|s| - 1]]
  }

  lemma {:induction false} DedupOfDistinct(s: seq<string>)
    requires Distinct(s)
    ensures Dedup(s) == s
    decreases |s|
  {
    if |s| > 1 {
      DedupOfDistinct(s[..|s| - 1]);
      assert s == s[..|s| - 1] + [s[|s| - 1]];
    }
  }

  // ----- Discovery -----

  datatype Discovery = Discovery(skills: seq<Candidate>, errors: seq<DiscoveryError>, requiredDisabled: seq<string>)

  function Listed(candidates: seq<Candidate>): seq<Candidate> {
    ListedValid(candidates) + ListedInvalid(candidates)
  }

  /** What discovery makes of everything found. */
  function DiscoveryOf(findings: seq<Finding>): Discovery {
    var candidates := CandidatesOf(findings);
    Discovery(
      SortBy(CandidateLe, Listed(candidates)),
      Errors(findings),
      Dedup(SortBy(StringLe, Keys(ListedInvalid(candidates)))))
  }

  /** The variables of the collecting loop. */
  datatype Progress = Progress(
    skills: seq<Candidate>, seenKeys: set<string>, invalid: seq<Candidate>, errors: seq<DiscoveryError>)

  /** The loop's variables when these candidates and errors have been seen. */
  ghost predicate Keeps(candidates: seq<Candidate>, errors: seq<DiscoveryError>, p: Progress) {
    p.skills == ListedValid(candidates) && p.invalid == WithValidity(candidates, false) && p.errors == errors
    && forall key :: key in p.seenKeys <==> HasKey(p.skills, key)
  }

  lemma AppendInvalid(candidates: seq<Candidate>, c: Candidate)
    requires !c.valid
    ensures ListedValid(candidates + [c]) == ListedValid(candidates)
    ensures WithValidity(candidates + [c], false) == WithValidity(candidates, false) + [c]
  {
    assert (candidates + [c])[..|candidates|] == candidates;
    assert WithValidity(candidates, true) + [] == WithValidity(candidates, true);
  }

  lemma KeepInvalid(candidates: seq<Candidate>, errors: seq<DiscoveryError>, p: Progress, c: Candidate)
    requires Keeps(candidates, errors, p) && !c.valid
    ensures Keeps(candidates + [c], errors, p.(invalid := p.invalid + [c]))
  {
    AppendInvalid(candidates, c);
  }

  lemma AppendValid(candidates: seq<Candidate>, c: Candidate)
    requires c.valid
    ensures WithValidity(candidates + [c], false) == WithValidity(candidates, false)
    ensures ListedValid(candidates + [c])
            == ListedValid(candidates) + if HasKey(ListedValid(candidates), c.key) then [] else [c]
  {
  }

  lemma KeepValid(candidates: seq<Candidate>, errors: seq<DiscoveryError>, p: Progress, c: Candidate)
    requires Keeps(candidates, errors, p) && c.valid
    ensures c.key in p.seenKeys ==> Keeps(candidates + [c], errors, p)
    ensures c.key !in p.seenKeys ==>
              Keeps(candidates + [c], errors, p.(seenKeys := p.seenKeys + {c.key}, skills := p.skills + [c]))
  {
    AppendValid(candidates, c);
    assert p.skills + [] == p.skills;
    forall key ensures HasKey(p.skills + [c], key) <==> HasKey(p.skills, key) || c.key == key {
      HasKeyAppend(p.skills, c, key);
    }
  }

  /** Skills are valid candidates, fallbacks are not. */
  predicate WellTyped(f: Finding) {
    match f
    case Sound(skill) => skill.valid
    case Broken(_, fallback) => fallback.Some? ==> !fallback.value.valid
  }

  /** One look at the file system. */
  method CollectOne(ghost candidates: seq<Candidate>, ghost errors: seq<DiscoveryError>, p: Progress, f: Finding)
    returns (r: Progress)
    requires Keeps(candidates, errors, p) && WellTyped(f)
    ensures Keeps(candidates + CandidateOf(f), errors + ErrorOf(f, ListedValid(candidates)), r)
  {
    match f
    case Broken(error, fallback) =>
      if fallback.None? {
        assert candidates + [] == candidates;
        return p.(errors := p.errors + [error]);
      }
      KeepInvalid(candidates, errors, p, fallback.value);
      return p.(invalid := p.invalid + [fallback.value], errors := p.errors + [error]);
    case Sound(skill) =>
      KeepValid(candidates, errors, p, skill);
      if skill.key in p.seenKeys {
        return p.(errors := p.errors + [DiscoveryError(skill.path, DuplicateId(skill.id))]);
      }
      assert errors + [] == errors;
      return p.(seenKeys := p.seenKeys + {skill.key}, skills := p.skills + [skill]);
  }

  ghost predicate Collected(findings: seq<Finding>, p: Progress) {
    Keeps(CandidatesOf(findings), Errors(findings), p)
  }

  lemma FindingsAppend(findings: seq<Finding>, f: Finding)
    ensures CandidatesOf(findings + [f]) == CandidatesOf(findings) + CandidateOf(f)
    ensures Errors(findings + [f]) == Errors(findings) + ErrorOf(f, ListedValid(CandidatesOf(findings)))
  {
  }

  method CollectFinding(ghost sofar: seq<Finding>, p: Progress, f: Finding) returns (r: Progress)
    requires Collected(sofar, p) && WellTyped(f)
    ensures Collected(sofar + [f], r)
  {
    FindingsAppend(sofar, f);
    r := CollectOne(CandidatesOf(sofar), Errors(sofar), p, f);
  }

  ghost predicate ReadsWell(read: Reader) {
    forall root, file :: WellTyped(read(root, file))
  }

  lemma OneMore<T>(before: seq<T>, s: seq<T>, i: nat)
    requires i < |s|
    ensures before + s[..i + 1] == before + s[..i] + [s[i]]
  {
  }

  method CollectFiles(
    ghost sofar: seq<Finding>, p: Progress, root: Root, files: seq<SkillFile>, read: Reader,
    ghost findings: seq<Finding>)
    returns (r: Progress)
    requires Collected(sofar, p) && ReadsWell(read)
    requires |findings| == |files| && forall i :: 0 <= i < |files| ==> findings[i] == read(root, files[i])
    ensures Collected(sofar + findings, r)
  {
    r := p;
    assert sofar + findings[..0] == sofar;
    for i := 0 to |files|
      invariant Collected(sofar + findings[..i], r)
    {
      OneMore(sofar, findings, i);
      r := CollectFinding(sofar + findings[..i], r, read(root, files[i]));
    }
    assert findings[..|files|] == findings;
  }

  /** One root. */
  method CollectRoot(ghost sofar: seq<Finding>, p: Progress, root: Root, read: Reader) returns (r: Progress)
    requires Collected(sofar, p) && ReadsWell(read)
    ensures Collected(sofar + RootFindings(root, read), r)
  {
    if root.candidates.None? {
      r := CollectFinding(sofar, p, Broken(DiscoveryError(root.directory, UnreadableRoot), None));
    } else {
      r := CollectFiles(sofar, p, root, root.candidates.value, read, RootFindings(root, read));
    }
  }

  /** The invalid skills that are listed after the valid ones. */
  method ListInvalid(valid: seq<Candidate>, seenKeys: set<string>, invalid: seq<Candidate>)
    returns (listed: seq<Candidate>)
    requires forall key :: key in seenKeys <==> HasKey(valid, key)
    ensures listed == Firsts(invalid, valid)
  {
    listed := [];
    for i := 0 to |invalid|
      invariant listed == Firsts(invalid[..i], valid)
    {
      assert invalid[..i + 1][..i] == invalid[..i];
      if invalid[i].key in seenKeys || HasKey(listed, invalid[i].key) {
        continue;
      }
      listed := listed + [invalid[i]];
    }
    assert invalid[..|invalid|] == invalid;
  }

  /** `discover_skills_in_roots`. */
  method Discover(roots: seq<Root>, read: Reader) returns (r: Discovery)
    requires ReadsWell(read)
    ensures r == DiscoveryOf(AllFindings(roots, read))
  {
    var p := Progress([], {}, [], []);
    for i := 0 to |roots|
      invariant Collected(AllFindings(roots[..i], read), p)
    {
      assert roots[..i + 1][..i] == roots[..i];
      p := CollectRoot(AllFindings(roots[..i], read), p, roots[i], read);
    }
    assert roots[..|roots|] == roots;
    var listed := ListInvalid(p.skills, p.seenKeys, p.invalid);
    return Discovery(SortBy(CandidateLe, p.skills + listed), p.errors, Dedup(SortBy(StringLe, Keys(listed))));
  }

  // ----- What discovery means -----

  /**
   Sorted, with distinct keys; the first file of each key, valid exactly when some file of the key
   is; no key is missing.
   */
  ghost predicate ListsSkills(all: seq<Candidate>, skills: seq<Candidate>) {
    DistinctKeys(skills) && Sorted(CandidateLe, skills)
    && (forall c :: c in skills ==> Wins(all, c) && (c.valid <==> FromValidFile(all, c.key)))
    && (forall key :: HasKey(skills, key) <==> HasKey(all, key))
  }

  /** Exactly the keys that no valid file provides, each once, sorted. */
  ghost predicate ListsDisabled(all: seq<Candidate>, keys: seq<string>) {
    Distinct(keys) && Sorted(StringLe, keys)
    && forall key :: key in keys <==> HasKey(all, key) && !FromValidFile(all, key)
  }

  lemma SameElementsSameKeys(s: seq<Candidate>, t: seq<Candidate>, key: string)
    requires multiset(s) == multiset(t) && HasKey(s, key)
    ensures HasKey(t, key)
  {
    var i :| 0 <= i < |s| && s[i].key == key;
    assert s[i] in multiset(t);
    var j :| 0 <= j < |t| && t[j] == s[i];
  }

  lemma ListedMeaning(all: seq<Candidate>)
    ensures DistinctKeys(Listed(all))
    ensures forall c :: c in Listed(all) ==> Wins(all, c) && (c.valid <==> FromValidFile(all, c.key))
    ensures forall key :: HasKey(Listed(all), key) <==> HasKey(all, key)
  {
    DiscoveryMeaning(all);
    forall key ensures HasKey(Listed(all), key) <==> HasKey(all, key) {
      HasKeyConcat(ListedValid(all), ListedInvalid(all), key);
    }
    forall c | c in Listed(all) ensures c.valid <==> FromValidFile(all, c.key) {
      if c in ListedInvalid(all) {
        var k :| 0 <= k < |ListedInvalid(all)| && ListedInvalid(all)[k] == c;
        assert HasKey(ListedInvalid(all), c.key);
      } else {
        var k :| 0 <= k < |ListedValid(all)| && ListedValid(all)[k] == c;
        assert HasKey(ListedValid(all), c.key);
      }
    }
  }

  lemma SortedListing(all: seq<Candidate>)
    ensures ListsSkills(all, SortBy(CandidateLe, Listed(all)))
  {
    var listed, skills := Listed(all), SortBy(CandidateLe, Listed(all));
    CandidatesAreOrdered();
    SortIsSorted(CandidateLe, listed);
    ListedMeaning(all);
    PermutationKeepsDistinct((c: Candidate) => c.key, listed, skills);
    forall c | c in skills ensures c in listed {
      assert c in multiset(listed);
    }
    forall key ensures HasKey(skills, key) <==> HasKey(listed, key) {
      if HasKey(listed, key) {
        SameElementsSameKeys(listed, skills, key);
      }
      if HasKey(skills, key) {
        SameElementsSameKeys(skills, listed, key);
      }
    }
  }

  lemma DisabledKeys(all: seq<Candidate>)
    ensures ListsDisabled(all, Dedup(SortBy(StringLe, Keys(ListedInvalid(all)))))
  {
    var invalid := ListedInvalid(all);
    var keys, sorted := Keys(invalid), SortBy(StringLe, Keys(invalid));
    FirstsAreDistinct(WithValidity(all, false), ListedValid(all));
    StringsAreOrdered();
    SortIsSorted(StringLe, keys);
    PermutationKeepsDistinct((x: string) => x, keys, sorted);
    DedupOfDistinct(sorted);
    forall key ensures key in sorted <==> HasKey(all, key) && !FromValidFile(all, key) {
      ListedKeys(all, key);
      assert key in sorted <==> key in multiset(keys);
      if HasKey(invalid, key) {
        var i :| 0 <= i < |invalid| && invalid[i].key == key;
        assert keys[i] == key;
      }
    }
  }

  ghost predicate AllWellTyped(findings: seq<Finding>) {
    forall i :: 0 <= i < |findings| ==> WellTyped(findings[i])
  }

  predicate SoundBefore(findings: seq<Finding>, i: nat, key: string)
    requires i <= |findings|
  {
    exists k :: 0 <= k < i && findings[k].Sound? && findings[k].skill.key == key
  }

  /** What finding `i` is reported for: being broken, or having the key of an earlier sound skill. */
  function ErrorAt(findings: seq<Finding>, i: nat): seq<DiscoveryError>
    requires i < |findings|
  {
    match findings[i]
    case Broken(error, _) => [error]
    case Sound(skill) =>
      if SoundBefore(findings, i, skill.key) then [DiscoveryError(skill.path, DuplicateId(skill.id))] else []
  }

  /** The reports on the first `n` findings, in order. */
  function ErrorsUpTo(findings: seq<Finding>, n: nat): seq<DiscoveryError>
    requires n <= |findings|
  {
    if n == 0 then [] else ErrorsUpTo(findings, n - 1) + ErrorAt(findings, n - 1)
  }

  lemma ListedKeysAppend(candidates: seq<Candidate>, f: Finding, key: string)
    requires WellTyped(f)
    ensures var listed, more := ListedValid(candidates), ListedValid(candidates + CandidateOf(f));
            (HasKey(more, key) <==> HasKey(listed, key) || (f.Sound? && f.skill.key == key))
            && |more| == |listed| + if f.Sound? && !HasKey(listed, f.skill.key) then 1 else 0
  {
    match f
    case Sound(skill) =>
      AppendValid(candidates, skill);
      HasKeyAppend(ListedValid(candidates), skill, key);
      assert ListedValid(candidates) + [] == ListedValid(candidates);
    case Broken(_, fallback) =>
      if fallback.Some? {
        AppendInvalid(candidates, fallback.value);
      } else {
        assert candidates + [] == candidates;
      }
  }

  lemma SoundInPrefix(findings: seq<Finding>, n: nat, key: string)
    requires n <= |findings|
    ensures SoundBefore(findings[..n], n, key) <==> SoundBefore(findings, n, key)
  {
  }

  lemma SoundBeforeNext(findings: seq<Finding>, n: nat, key: string)
    requires n < |findings|
    ensures SoundBefore(findings, n + 1, key) <==>
            SoundBefore(findings, n, key) || (findings[n].Sound? && findings[n].skill.key == key)
  {
  }

  lemma {:induction false} ListedKeysAreSound(findings: seq<Finding>, key: string)
    requires AllWellTyped(findings)
    ensures HasKey(ListedValid(CandidatesOf(findings)), key) <==> SoundBefore(findings, |findings|, key)
    decreases |findings|
  {
    if findings != [] {
      var n := |findings| - 1;
      ListedKeysAreSound(findings[..n], key);
      SoundInPrefix(findings, n, key);
      SoundBeforeNext(findings, n, key);
      ListedKeysAppend(CandidatesOf(findings[..n]), findings[n], key);
    }
  }

  lemma CountOfNext(candidates: seq<Candidate>, f: Finding)
    requires WellTyped(f)
    ensures |ListedValid(candidates + CandidateOf(f))| + |ErrorOf(f, ListedValid(candidates))|
            == |ListedValid(candidates)| + 1
  {
    ListedKeysAppend(candidates, f, "");
  }

  /** The number of valid skills that are listed. */
  function ListedCount(candidates: seq<Candidate>): nat {
    |ListedValid(candidates)|
  }

  lemma CountsOfLast(findings: seq<Finding>, n: nat)
    requires AllWellTyped(findings) && |findings| == n + 1
    ensures ListedCount(CandidatesOf(findings)) + |Errors(findings)|
         == ListedCount(CandidatesOf(findings[..n])) + |Errors(findings[..n])| + 1
  {
    CountOfNext(CandidatesOf(findings[..n]), findings[n]);
  }

  /** Every look at the file system gives a listed valid skill or one error. */
  lemma {:induction false} NothingIsLost(findings: seq<Finding>)
    requires AllWellTyped(findings)
    ensures ListedCount(CandidatesOf(findings)) + |Errors(findings)| == |findings|
    decreases |findings|
  {
    if findings != [] {
      var n := |findings| - 1;
      NothingIsLost(findings[..n]);
      CountsOfLast(findings, n);
    }
  }

  lemma ErrorOfNext(findings: seq<Finding>, n: nat)
    requires AllWellTyped(findings) && n < |findings|
    ensures ErrorOf(findings[n], ListedValid(CandidatesOf(findings[..n]))) == ErrorAt(findings, n)
  {
    if findings[n].Sound? {
      ListedKeysAreSound(findings[..n], findings[n].skill.key);
      SoundInPrefix(findings, n, findings[n].skill.key);
    }
  }

  /** The errors are those of broken files and roots and of valid files whose key was taken, in discovery order. */
  lemma {:induction false} ErrorsMeaning(findings: seq<Finding>, n: nat)
    requires AllWellTyped(findings) && n <= |findings|
    ensures Errors(findings[..n]) == ErrorsUpTo(findings, n)
  {
    if n > 0 {
      ErrorsMeaning(findings, n - 1);
      ErrorOfNext(findings, n - 1);
      assert findings[..n][..n - 1] == findings[..n - 1];
    }
  }

  function SkillReader(): Reader {
    (root: Root, file: SkillFile) => FindingOf(root, file)
  }

  lemma {:induction false} FindingsAreWellTyped(roots: seq<Root>, read: Reader)
    requires ReadsWell(read)
    ensures AllWellTyped(AllFindings(roots, read))
    decreases |roots|
  {
    if roots != [] {
      FindingsAreWellTyped(roots[..|roots| - 1], read);
    }
  }

  /** What a discovery is, given everything found. */
  ghost predicate IsDiscovery(all: seq<Finding>, r: Discovery) {
    ListsSkills(CandidatesOf(all), r.skills)
    && ListsDisabled(CandidatesOf(all), r.requiredDisabled)
    && r.errors == ErrorsUpTo(all, |all|)
    && ListedCount(CandidatesOf(all)) + |r.errors| == |all|
  }

  lemma {:induction false} DiscoveryIsMeant(all: seq<Finding>)
    requires AllWellTyped(all)
    ensures IsDiscovery(all, DiscoveryOf(all))
  {
    SortedListing(CandidatesOf(all));
    DisabledKeys(CandidatesOf(all));
    NothingIsLost(all);
    ErrorsMeaning(all, |all|);
    assert all[..|all|] == all;
  }

  lemma DocumentsReadWell()
    ensures ReadsWell(SkillReader())
  {
  }

  /** Discovery with the document parsers. */
  method DiscoverSkills(roots: seq<Root>) returns (r: Discovery)
    ensures IsDiscovery(AllFindings(roots, SkillReader()), r)
    ensures r == DiscoveryOf(AllFindings(roots, SkillReader()))
  {
    DocumentsReadWell();
    FindingsAreWellTyped(roots, SkillReader());
    r := Discover(roots, SkillReader());
    DiscoveryIsMeant(AllFindings(roots, SkillReader()));
  }
}
