/** Slash paths of index entries and their parts (app/git_backend.rs). */
module IndexPaths {
  import opened ByteStrings

  const SLASH: Byte := 47

  /** Directory and file names: not empty and without a slash. */
  predicate IsName(part: Bytes) {
    part != [] && SLASH !in part
  }

  predicate AreNames(parts: seq<Bytes>) {
    forall i :: 0 <= i < |parts| ==> IsName(parts[i])
  }

  /** The non-empty parts of a path between slashes. */
  function Parts(path: Bytes): (r: seq<Bytes>)
    ensures AreNames(r)
  {
    PartsAfter(path, [])
  }

  function PartsAfter(path: Bytes, part: Bytes): (r: seq<Bytes>)
    requires SLASH !in part
    ensures AreNames(r)
    decreases |path|
  {
    var done := if part == [] then [] else [part];
    if path == [] then done
    else if path[0] == SLASH then done + PartsAfter(path[1..], [])
    else PartsAfter(path[1..], part + [path[0]])
  }

  /** The parts with slashes between them. */
  function JoinParts(parts: seq<Bytes>): Bytes {
    if |parts| == 0 then [] else if |parts| == 1 then parts[0] else parts[0] + [SLASH] + JoinParts(parts[1..])
  }

  /** The path without empty parts: where the file of an index entry ends up. */
  function NormalPath(path: Bytes): Bytes {
    JoinParts(Parts(path))
  }

  /** No slash at the ends and no two in a row. */
  predicate CleanPath(path: Bytes) {
    path != [] && path[0] != SLASH && path[|path| - 1] != SLASH
    && forall i :: 0 < i < |path| && path[i] == SLASH ==> path[i - 1] != SLASH
  }

  lemma CleanAfterSlash(part: Bytes, rest: Bytes)
    requires CleanPath(part + [SLASH] + rest)
    ensures part != [] && CleanPath(rest)
  {
    var whole := part + [SLASH] + rest;
    assert whole[|part|] == SLASH;
    assert forall i :: 0 <= i < |rest| ==> rest[i] == whole[|part| + 1 + i];
  }

  lemma JoinCons(part: Bytes, parts: seq<Bytes>)
    requires parts != []
    ensures JoinParts([part] + parts) == part + [SLASH] + JoinParts(parts)
  {
  }

  lemma {:induction false} JoinOfPartsAfter(path: Bytes, part: Bytes)
    requires SLASH !in part && CleanPath(part + path)
    ensures PartsAfter(path, part) != [] && JoinParts(PartsAfter(path, part)) == part + path
    decreases |path|
  {
    if path == [] {
      assert part + path == part;
    } else if path[0] == SLASH {
      var rest := path[1..];
      assert part + path == part + [SLASH] + rest;
      CleanAfterSlash(part, rest);
      assert [] + rest == rest;
      JoinOfPartsAfter(rest, []);
      JoinCons(part, PartsAfter(rest, []));
    } else {
      assert (part + [path[0]]) + path[1..] == part + path;
      JoinOfPartsAfter(path[1..], part + [path[0]]);
    }
  }

  /** A path has no part exactly when it has nothing but slashes. */
  lemma {:induction false} NoPartsIff(path: Bytes, part: Bytes)
    requires SLASH !in part
    ensures PartsAfter(path, part) == [] <==> part == [] && forall i :: 0 <= i < |path| ==> path[i] == 0x2F
    decreases |path|
  {
    if path != [] {
      if path[0] == SLASH {
        NoPartsIff(path[1..], []);
      } else {
        NoPartsIff(path[1..], part + [path[0]]);
      }
      assert forall i :: 0 <= i < |path| - 1 ==> path[1..][i] == path[i + 1];
      assert forall i :: 1 <= i < |path| ==> path[i] == path[1..][i - 1];
    }
  }

  lemma {:induction false} JoinIsClean(parts: seq<Bytes>)
    requires parts != [] && AreNames(parts)
    ensures CleanPath(JoinParts(parts))
  {
    assert IsName(parts[0]);
    if |parts| > 1 {
      JoinIsClean(parts[1..]);
    }
  }

  /** Normalising leaves a path alone exactly when it is clean or has no part at all. */
  lemma NormalPathIff(path: Bytes)
    ensures NormalPath(path) == path <==> path == [] || CleanPath(path)
    ensures NormalPath(path) == [] || CleanPath(NormalPath(path))
  {
    if CleanPath(path) {
      assert [] + path == path;
      JoinOfPartsAfter(path, []);
    }
    if Parts(path) != [] {
      JoinIsClean(Parts(path));
    }
  }

  // ----- Paths and parts -----

  predicate ProperPrefix(a: seq<Bytes>, b: seq<Bytes>) {
    |a| < |b| && a == b[..|a|]
  }

  /** Neither the same nor one inside the other. */
  predicate Apart(a: seq<Bytes>, b: seq<Bytes>) {
    a != b && !ProperPrefix(a, b) && !ProperPrefix(b, a)
  }

  /** `inner` lies in the directory `outer`. */
  predicate Inside(inner: Bytes, outer: Bytes) {
    |outer| < |inner| && inner[..|outer|] == outer && inner[|outer|] == SLASH
  }

  predicate PathsApart(a: Bytes, b: Bytes) {
    a != b && !Inside(a, b) && !Inside(b, a)
  }

  lemma FirstNamesAgree(a: Bytes, x: Bytes, b: Bytes, y: Bytes)
    requires SLASH !in a && SLASH !in b && a + [SLASH] + x == b + [SLASH] + y
    ensures a == b && x == y
  {
    var s := a + [SLASH] + x;
    assert s[|a|] == SLASH && s[|b|] == SLASH;
    assert forall k :: 0 <= k < |a| ==> s[k] == a[k];
    assert forall k :: 0 <= k < |b| ==> s[k] == b[k];
    assert |a| == |b|;
    assert a == s[..|a|] && b == s[..|b|] && x == s[|a| + 1..] && y == s[|b| + 1..];
  }

  lemma SlashMeansSeveralNames(parts: seq<Bytes>, a: Bytes, x: Bytes)
    requires AreNames(parts) && JoinParts(parts) == a + [SLASH] + x
    ensures |parts| > 1
  {
  }

  /** The names of a path are determined by the path. */
  lemma {:induction false} JoinIsInjective(p: seq<Bytes>, q: seq<Bytes>)
    requires AreNames(p) && AreNames(q) && JoinParts(p) == JoinParts(q)
    ensures p == q
  {
    assert |p| > 0 ==> IsName(p[0]);
    assert |q| > 0 ==> IsName(q[0]);
    if |p| > 1 || |q| > 1 {
      if |p| > 1 {
        SlashMeansSeveralNames(q, p[0], JoinParts(p[1..]));
      } else {
        SlashMeansSeveralNames(p, q[0], JoinParts(q[1..]));
      }
      FirstNamesAgree(p[0], JoinParts(p[1..]), q[0], JoinParts(q[1..]));
      JoinIsInjective(p[1..], q[1..]);
      assert p == [p[0]] + p[1..] && q == [q[0]] + q[1..];
    }
  }

  lemma PrefixIsInside(p: seq<Bytes>, q: seq<Bytes>)
    requires p != [] && ProperPrefix(p, q)
    ensures Inside(JoinParts(q), JoinParts(p))
  {
  }

  lemma {:induction false} InsideIsPrefix(p: seq<Bytes>, q: seq<Bytes>)
    requires p != [] && q != [] && AreNames(p) && AreNames(q) && Inside(JoinParts(q), JoinParts(p))
    ensures ProperPrefix(p, q)
  {
    assert IsName(p[0]) && IsName(q[0]);
    var inner, outer := JoinParts(q), JoinParts(p);
    var rest := inner[|outer| + 1..];
    assert inner == outer + [SLASH] + rest;
    SlashMeansSeveralNames(q, outer, rest);
    if |p| == 1 {
      FirstNamesAgree(p[0], rest, q[0], JoinParts(q[1..]));
    } else {
      assert inner == p[0] + [SLASH] + (JoinParts(p[1..]) + [SLASH] + rest);
      FirstNamesAgree(p[0], JoinParts(p[1..]) + [SLASH] + rest, q[0], JoinParts(q[1..]));
      InsideIsPrefix(p[1..], q[1..]);
      assert p == [p[0]] + p[1..] && q[..|p|] == [q[0]] + q[1..][..|p| - 1];
    }
  }

  /** Parts are apart exactly when the normalised paths are. */
  lemma ApartIff(a: Bytes, b: Bytes)
    requires Parts(a) != [] && Parts(b) != []
    ensures Apart(Parts(a), Parts(b)) <==> PathsApart(NormalPath(a), NormalPath(b))
  {
    var p, q := Parts(a), Parts(b);
    if JoinParts(p) == JoinParts(q) {
      JoinIsInjective(p, q);
    }
    if Inside(NormalPath(b), NormalPath(a)) {
      InsideIsPrefix(p, q);
    }
    if Inside(NormalPath(a), NormalPath(b)) {
      InsideIsPrefix(q, p);
    }
    if ProperPrefix(p, q) {
      PrefixIsInside(p, q);
    }
    if ProperPrefix(q, p) {
      PrefixIsInside(q, p);
    }
  }
}
