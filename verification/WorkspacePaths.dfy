/** Normalisation of workspace paths into lock keys (agent/lib.rs). */
module WorkspacePaths {
  import opened Text

  /** Path segments that survive normalisation. */
  predicate Kept(part: string) {
    part != "" && part != "."
  }

  function KeepSegments(parts: seq<string>): (r: seq<string>)
    ensures forall p :: p in r ==> Kept(p) && p in parts
    ensures (forall p :: p in parts ==> Kept(p)) ==> r == parts
  {
    if parts == [] then []
    else if Kept(parts[0]) then [parts[0]] + KeepSegments(parts[1..])
    else KeepSegments(parts[1..])
  }

  /** The segments of a path: trimmed, backslashes read as slashes, empty and `.` segments dropped. */
  function Segments(path: string): (r: seq<string>)
    ensures forall p :: p in r ==> Kept(p) && '/' !in p
  {
    KeepSegments(Split(Replace(Trim(path), '\\', '/'), '/'))
  }

  /** `normalize_workspace_path_display`. */
  function Display(path: string): string {
    Join(Segments(path), "/")
  }

  /** `normalize_workspace_path_key`. */
  function Key(path: string): string {
    AsciiLower(Display(path))
  }

  lemma {:induction false} JoinKeptIsNoLonger(parts: seq<string>)
    ensures |Join(KeepSegments(parts), "/")| <= |Join(parts, "/")|
  {
    if |parts| > 0 {
      JoinKeptIsNoLonger(parts[1..]);
      if Kept(parts[0]) {
        assert KeepSegments(parts)[1..] == KeepSegments(parts[1..]);
      }
    }
  }

  lemma DisplayIsNoLonger(path: string)
    ensures |Display(path)| <= |Trim(path)|
  {
    var slashed := Replace(Trim(path), '\\', '/');
    JoinKeptIsNoLonger(Split(slashed, '/'));
    JoinSplit(slashed, '/');
  }

  lemma {:induction false} JoinedCharacters(parts: seq<string>, c: char)
    requires forall p :: p in parts ==> c !in p
    requires c != '/'
    ensures c !in Join(parts, "/")
  {
    if |parts| > 1 {
      JoinedCharacters(parts[1..], c);
    }
  }

  lemma {:induction false} SplitKeepsOut(s: string, c: char)
    requires c !in s
    ensures forall p :: p in Split(s, '/') ==> c !in p
  {
    if s != "" {
      SplitKeepsOut(s[1..], c);
    }
  }

  lemma {:induction false} JoinOfKept(parts: seq<string>)
    requires forall p :: p in parts ==> Kept(p)
    ensures Join(parts, "/") == "" <==> parts == []
    ensures Join(parts, "/") != "."
  {
    if |parts| > 1 {
      assert Kept(parts[0]);
      assert |Join(parts, "/")| >= |parts[0]| + 1;
    } else if |parts| == 1 {
      assert Kept(parts[0]);
    }
  }

  /**
   A normalised path is never `.`, so the planner's test for it never fires; it is empty exactly when
   no segment is left.
   */
  lemma DisplayIsNeverDot(path: string)
    ensures Display(path) != "."
    ensures Display(path) == "" <==> Segments(path) == []
  {
    JoinOfKept(Segments(path));
  }

  function LowerAll(parts: seq<string>): (r: seq<string>)
    ensures |r| == |parts| && forall i :: 0 <= i < |r| ==> r[i] == AsciiLower(parts[i])
  {
    seq(|parts|, i requires 0 <= i < |parts| => AsciiLower(parts[i]))
  }

  lemma {:induction false} LowerOfJoin(parts: seq<string>)
    ensures AsciiLower(Join(parts, "/")) == Join(LowerAll(parts), "/")
  {
    if |parts| > 1 {
      LowerOfJoin(parts[1..]);
      assert LowerAll(parts)[1..] == LowerAll(parts[1..]);
      LowerOfSum(parts[0] + "/", Join(parts[1..], "/"));
      LowerOfSum(parts[0], "/");
      assert AsciiLower("/") == "/";
    }
  }

  lemma LowerOfSum(a: string, b: string)
    ensures AsciiLower(a + b) == AsciiLower(a) + AsciiLower(b)
  {
  }

  lemma LowerKeepsSlashesOut(part: string)
    requires '/' !in part
    ensures '/' !in AsciiLower(part)
  {
  }

  lemma KeyDeterminesSegments(parts: seq<string>)
    requires parts != [] && forall p :: p in parts ==> '/' !in p
    ensures Split(AsciiLower(Join(parts, "/")), '/') == LowerAll(parts)
  {
    LowerOfJoin(parts);
    forall p | p in LowerAll(parts) ensures '/' !in p {
      var i :| 0 <= i < |parts| && LowerAll(parts)[i] == p;
      assert parts[i] in parts;
      LowerKeepsSlashesOut(parts[i]);
    }
    SplitJoin(LowerAll(parts), '/');
  }

  /** Two spellings of a path get the same lock key exactly when their segments agree up to ASCII case. */
  lemma KeysEqualIff(path: string, other: string)
    ensures Key(path) == Key(other) <==> LowerAll(Segments(path)) == LowerAll(Segments(other))
  {
    LowerOfJoin(Segments(path));
    LowerOfJoin(Segments(other));
    DisplayIsNeverDot(path);
    DisplayIsNeverDot(other);
    if Segments(path) != [] && Segments(other) != [] {
      KeyDeterminesSegments(Segments(path));
      KeyDeterminesSegments(Segments(other));
    }
  }

  predicate BeginsBlank(s: string) {
    s != "" && IsWhitespace(s[0])
  }

  predicate EndsBlank(s: string) {
    s != "" && IsWhitespace(s[|s| - 1])
  }

  /** The first segment does not begin and the last one does not end with whitespace. */
  predicate CleanEnds(segments: seq<string>) {
    segments == [] || (!BeginsBlank(segments[0]) && !EndsBlank(segments[|segments| - 1]))
  }

  lemma {:induction false} EndsOfJoin(parts: seq<string>)
    requires parts != [] && forall i :: 0 <= i < |parts| ==> parts[i] != ""
    ensures var joined := Join(parts, "/");
            joined != "" && (BeginsBlank(joined) <==> BeginsBlank(parts[0]))
            && (EndsBlank(joined) <==> EndsBlank(parts[|parts| - 1]))
  {
    if |parts| > 1 {
      EndsOfJoin(parts[1..]);
    }
  }

  lemma TrimmedDisplayIff(path: string)
    ensures Trimmed(Display(path)) <==> CleanEnds(Segments(path))
  {
    if Segments(path) != [] {
      assert forall i :: 0 <= i < |Segments(path)| ==> Segments(path)[i] in Segments(path);
      EndsOfJoin(Segments(path));
    }
  }

  lemma DisplayOfTrimmedDisplay(path: string)
    requires Trimmed(Display(path))
    ensures Display(Display(path)) == Display(path)
  {
    var d := Display(path);
    if Segments(path) == [] {
      assert d == "" && Display("") == "";
    } else {
      SplitKeepsOut(Replace(Trim(path), '\\', '/'), '\\');
      JoinedCharacters(Segments(path), '\\');
      assert Replace(d, '\\', '/') == d;
      SplitJoin(Segments(path), '/');
    }
  }

  /**
   Normalising twice changes nothing exactly when the path has no segment, or its first segment does
   not begin and its last one does not end with whitespace; otherwise the second pass shortens it.
   */
  lemma DisplayIdempotentIff(path: string)
    ensures Display(Display(path)) == Display(path) <==> CleanEnds(Segments(path))
    ensures !CleanEnds(Segments(path)) ==> |Display(Display(path))| < |Display(path)|
  {
    TrimmedDisplayIff(path);
    if Trimmed(Display(path)) {
      DisplayOfTrimmedDisplay(path);
    } else {
      DisplayIsNoLonger(Display(path));
    }
  }

  /**
   A patch marker is normalised when it is read and again when it becomes a lock key; `edit_file`
   normalises its path once. The two calls lock the same key for the same path exactly when its
   first segment does not begin and its last one does not end with whitespace.
   */
  lemma PatchAndEditKeysAgreeIff(path: string)
    ensures Key(Display(path)) == Key(path) <==> CleanEnds(Segments(path))
  {
    DisplayIdempotentIff(path);
  }

  /** `./ a`: the edit locks ` a`, the patch another key. */
  lemma {:induction false} PatchAndEditKeysCanDiffer()
    ensures Display("./ a") == " a"
    ensures Key(Display("./ a")) != Key("./ a")
  {
    assert Trim("./ a") == "./ a";
    assert Replace("./ a", '\\', '/') == "./ a";
    SplitSingle(" a", '/');
    SplitFirst(".", '/', " a");
    assert "." + ['/'] + " a" == "./ a";
    assert KeepSegments([" a"]) == [" a"];
    assert ([".", " a"])[1..] == [" a"];
    PatchAndEditKeysAgreeIff("./ a");
  }
}
