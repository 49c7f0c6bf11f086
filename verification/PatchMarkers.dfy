/** Extraction of file markers from an `apply_patch` document (agent/lib.rs). */
module PatchMarkers {
  import opened Wrappers
  import opened Text
  import opened Bags
  import opened WorkspacePaths

  const BEGIN := "*** Begin Patch"
  const END := "*** End Patch"
  const ADD := "*** Add File: "
  const DELETE := "*** Delete File: "
  const UPDATE := "*** Update File: "
  const MOVE := "*** Move to: "
  const RESERVED := "*** "

  /** What one line of a patch means to the scheduler. */
  datatype LineKind =
    | EndLine
    | AddLine(path: string)
    | DeleteLine(path: string)
    | UpdateLine(path: string)
    | MoveLine(path: string)
    | UnknownLine
    | BodyLine
  {
    predicate IsMarker() {
      AddLine? || DeleteLine? || UpdateLine? || MoveLine?
    }
  }

  function KindOf(raw: string): LineKind {
    var line := TrimCr(raw);
    if line == END then EndLine
    else if StartsWith(line, ADD) then AddLine(line[|ADD|..])
    else if StartsWith(line, DELETE) then DeleteLine(line[|DELETE|..])
    else if StartsWith(line, UPDATE) then UpdateLine(line[|UPDATE|..])
    else if StartsWith(line, MOVE) then MoveLine(line[|MOVE|..])
    else if StartsWith(line, RESERVED) then UnknownLine
    else BodyLine
  }

  function KindsOf(lines: seq<string>): (r: seq<LineKind>)
    ensures |r| == |lines|
    ensures forall i :: 0 <= i < |lines| ==> r[i] == KindOf(lines[i])
  {
    seq(|lines|, i requires 0 <= i < |lines| => KindOf(lines[i]))
  }

  /** Marker paths the scheduler accepts; every other one makes the document unparsable. */
  predicate ValidMarkerPath(raw: string) {
    Trim(raw) != "" && '\0' !in Trim(raw) && Display(Trim(raw)) != "" && Display(Trim(raw)) != "."
  }

  /** A marker path is accepted exactly when it has a segment and no NUL. */
  lemma ValidMarkerPathIff(raw: string)
    ensures ValidMarkerPath(raw) <==> '\0' !in Trim(raw) && Segments(raw) != []
  {
    DisplayIsNeverDot(raw);
    assert Trim(Trim(raw)) == Trim(raw);
    if Trim(raw) == "" {
      assert Replace("", '\\', '/') == "";
    }
  }

  /** The texts of the markers, and what each line kind stands for. */
  lemma KindMeaning(raw: string)
    ensures BEGIN == "*** Begin Patch"
    ensures var line, kind := TrimCr(raw), KindOf(raw);
            (kind.EndLine? <==> line == "*** End Patch")
            && (kind.AddLine? ==> line == "*** Add File: " + kind.path)
            && (kind.DeleteLine? ==> line == "*** Delete File: " + kind.path)
            && (kind.UpdateLine? ==> line == "*** Update File: " + kind.path)
            && (kind.MoveLine? ==> line == "*** Move to: " + kind.path)
            && (kind.BodyLine? <==> !StartsWith(line, "*** "))
  {
    var line := TrimCr(raw);
    assert forall prefix :: StartsWith(line, prefix) ==> line == prefix + line[|prefix|..];
    MarkersAreReserved(line);
  }

  lemma MarkersAreReserved(line: string)
    ensures line == END || StartsWith(line, ADD) || StartsWith(line, DELETE) ==> StartsWith(line, "*** ")
    ensures StartsWith(line, UPDATE) || StartsWith(line, MOVE) ==> StartsWith(line, "*** ")
  {
  }

  /** Appends the paths not yet listed. */
  function AppendDistinct(acc: seq<string>, more: seq<string>): (r: seq<string>)
    decreases |more|
  {
    if more == [] then acc
    else AppendDistinct(if more[0] in acc then acc else acc + [more[0]], more[1..])
  }

  lemma {:induction false} AppendDistinctContents(acc: seq<string>, more: seq<string>)
    requires Distinct(acc)
    ensures acc <= AppendDistinct(acc, more) && Distinct(AppendDistinct(acc, more))
    ensures forall p :: p in AppendDistinct(acc, more) <==> p in acc || p in more
    decreases |more|
  {
    if more != [] {
      AppendDistinctContents(if more[0] in acc then acc else acc + [more[0]], more[1..]);
    }
  }

  /** `push_apply_patch_marker_path`. */
  function PushMarkerPath(paths: seq<string>, raw: string): Option<seq<string>> {
    if !ValidMarkerPath(raw) then None
    else Some(if Display(Trim(raw)) in paths then paths else paths + [Display(Trim(raw))])
  }

  function NextInUpdate(kind: LineKind, inUpdate: bool): bool {
    if kind.UpdateLine? then true
    else if kind.AddLine? || kind.DeleteLine? then false
    else inUpdate
  }

  /** The scan over the lines after the begin marker; `paths` and `inUpdate` are the loop's variables. */
  function Scan(kinds: seq<LineKind>, paths: seq<string>, inUpdate: bool): Option<seq<string>>
    decreases |kinds|
  {
    if kinds == [] then None
    else if kinds[0].EndLine? then
      if paths == [] then None else Some(paths)
    else if kinds[0].UnknownLine? || (kinds[0].MoveLine? && !inUpdate) then None
    else if kinds[0].IsMarker() then
      var pushed := PushMarkerPath(paths, kinds[0].path);
      if pushed.None? then None else Scan(kinds[1..], pushed.value, NextInUpdate(kinds[0], inUpdate))
    else Scan(kinds[1..], paths, inUpdate)
  }

  /** The line kinds after the begin marker, if the document opens with one. */
  function Body(patch: string): Option<seq<LineKind>> {
    var lines := Lines(patch);
    if lines == [] || TrimCr(lines[0]) != BEGIN then None else Some(KindsOf(lines[1..]))
  }

  /** A document is opened by its first line, and what follows are the lines of the rest. */
  lemma OpeningLine(first: string, rest: string)
    requires '\n' !in first
    ensures Body("").None?
    ensures Body(first + ['\n'] + rest)
            == if TrimCr(first) == "*** Begin Patch" then Some(KindsOf(Lines(rest))) else None
  {
    LinesOfFirst(first, rest);
    assert TrimCr(StripCr(first)) == TrimCr(first);
    assert ([StripCr(first)] + Lines(rest))[1..] == Lines(rest);
  }

  /** `apply_patch_marker_paths`. */
  function MarkerPaths(patch: Option<string>): Option<seq<string>> {
    if patch.None? || Body(patch.value).None? then None else Scan(Body(patch.value).value, [], false)
  }

  /** The loop of the program computes the scan. */
  method ExtractMarkerPaths(patch: Option<string>) returns (r: Option<seq<string>>)
    ensures r == MarkerPaths(patch)
  {
    if patch.None? || Body(patch.value).None? {
      return None;
    }
    var kinds := Body(patch.value).value;
    var paths: seq<string> := [];
    var inUpdate := false;
    for i := 0 to |kinds|
      invariant Scan(kinds[i..], paths, inUpdate) == MarkerPaths(patch)
    {
      var kind := kinds[i];
      assert kinds[i..][0] == kind && kinds[i..][1..] == kinds[i + 1..];
      if kind.EndLine? {
        return if paths == [] then None else Some(paths);
      }
      if kind.AddLine? || kind.DeleteLine? {
        var pushed := PushMarkerPath(paths, kind.path);
        if pushed.None? {
          return None;
        }
        paths := pushed.value;
        inUpdate := false;
      } else if kind.UpdateLine? {
        var pushed := PushMarkerPath(paths, kind.path);
        if pushed.None? {
          return None;
        }
        paths := pushed.value;
        inUpdate := true;
      } else if kind.MoveLine? {
        if !inUpdate {
          return None;
        }
        var pushed := PushMarkerPath(paths, kind.path);
        if pushed.None? {
          return None;
        }
        paths := pushed.value;
      } else if kind.UnknownLine? {
        return None;
      }
    }
    return None;
  }

  // ----- What an accepted document looks like -----

  /** Display paths of the markers, in order and with repetitions. */
  function MarkedPaths(kinds: seq<LineKind>): seq<string> {
    if kinds == [] then []
    else (if kinds[0].IsMarker() then [Display(Trim(kinds[0].path))] else []) + MarkedPaths(kinds[1..])
  }

  /** Whether an update section is open just before line `i`. */
  function UpdateOpen(kinds: seq<LineKind>, i: nat, initially: bool): bool
    requires i <= |kinds|
  {
    if i == 0 then initially else NextInUpdate(kinds[i - 1], UpdateOpen(kinds, i - 1, initially))
  }

  predicate LineAccepted(kinds: seq<LineKind>, i: nat, initially: bool)
    requires i < |kinds|
  {
    !kinds[i].EndLine? && !kinds[i].UnknownLine?
    && (kinds[i].IsMarker() ==> ValidMarkerPath(kinds[i].path))
    && (kinds[i].MoveLine? ==> UpdateOpen(kinds, i, initially))
  }

  /** `e` is the first end marker and every line before it is acceptable. */
  predicate AcceptedUpTo(kinds: seq<LineKind>, e: nat, initially: bool) {
    e < |kinds| && kinds[e].EndLine? && forall i :: 0 <= i < e ==> LineAccepted(kinds, i, initially)
  }

  lemma {:induction false} UpdateOpenShift(kinds: seq<LineKind>, i: nat, initially: bool)
    requires 1 <= i <= |kinds|
    ensures UpdateOpen(kinds, i, initially) == UpdateOpen(kinds[1..], i - 1, NextInUpdate(kinds[0], initially))
  {
    if i > 1 {
      UpdateOpenShift(kinds, i - 1, initially);
    }
  }

  lemma LineAcceptedShift(kinds: seq<LineKind>, i: nat, initially: bool)
    requires i + 1 < |kinds|
    ensures LineAccepted(kinds, i + 1, initially) <==> LineAccepted(kinds[1..], i, NextInUpdate(kinds[0], initially))
  {
    UpdateOpenShift(kinds, i + 1, initially);
    assert kinds[1..][i] == kinds[i + 1];
  }

  lemma AcceptedTail(kinds: seq<LineKind>, e: nat, initially: bool)
    requires 1 <= e && AcceptedUpTo(kinds, e, initially)
    ensures AcceptedUpTo(kinds[1..], e - 1, NextInUpdate(kinds[0], initially))
  {
    forall i | 0 <= i < e - 1 ensures LineAccepted(kinds[1..], i, NextInUpdate(kinds[0], initially)) {
      LineAcceptedShift(kinds, i, initially);
    }
  }

  lemma AcceptedCons(kinds: seq<LineKind>, e: nat, initially: bool)
    requires kinds != [] && LineAccepted(kinds, 0, initially)
    requires AcceptedUpTo(kinds[1..], e, NextInUpdate(kinds[0], initially))
    ensures AcceptedUpTo(kinds, e + 1, initially)
  {
    forall i | 0 <= i < e + 1 ensures LineAccepted(kinds, i, initially) {
      if i > 0 {
        LineAcceptedShift(kinds, i - 1, initially);
      }
    }
  }

  /** The path list after one accepted line. */
  function Listed(kind: LineKind, paths: seq<string>): seq<string> {
    if kind.IsMarker() && Display(Trim(kind.path)) !in paths then paths + [Display(Trim(kind.path))] else paths
  }

  lemma ScanAcceptedLine(kinds: seq<LineKind>, paths: seq<string>, inUpdate: bool)
    requires kinds != [] && LineAccepted(kinds, 0, inUpdate)
    ensures Scan(kinds, paths, inUpdate) == Scan(kinds[1..], Listed(kinds[0], paths), NextInUpdate(kinds[0], inUpdate))
  {
  }

  lemma AppendMarkedLine(kinds: seq<LineKind>, paths: seq<string>)
    requires kinds != []
    ensures AppendDistinct(paths, MarkedPaths(kinds))
            == AppendDistinct(Listed(kinds[0], paths), MarkedPaths(kinds[1..]))
  {
    var rest := MarkedPaths(kinds[1..]);
    if kinds[0].IsMarker() {
      assert ([Display(Trim(kinds[0].path))] + rest)[1..] == rest;
    } else {
      assert [] + rest == rest;
    }
  }

  lemma {:induction false} ScanOfAccepted(kinds: seq<LineKind>, e: nat, paths: seq<string>, inUpdate: bool)
    requires AcceptedUpTo(kinds, e, inUpdate)
    ensures var all := AppendDistinct(paths, MarkedPaths(kinds[..e]));
            Scan(kinds, paths, inUpdate) == if all == [] then None else Some(all)
    decreases e
  {
    if e > 0 {
      assert LineAccepted(kinds, 0, inUpdate);
      AcceptedTail(kinds, e, inUpdate);
      ScanAcceptedLine(kinds, paths, inUpdate);
      ScanOfAccepted(kinds[1..], e - 1, Listed(kinds[0], paths), NextInUpdate(kinds[0], inUpdate));
      AppendMarkedLine(kinds[..e], paths);
      assert kinds[..e][1..] == kinds[1..][..e - 1];
    }
  }

  lemma ScanAcceptsFirstLine(kinds: seq<LineKind>, paths: seq<string>, inUpdate: bool)
    requires kinds != [] && !kinds[0].EndLine? && Scan(kinds, paths, inUpdate).Some?
    ensures LineAccepted(kinds, 0, inUpdate)
    ensures Scan(kinds[1..], Listed(kinds[0], paths), NextInUpdate(kinds[0], inUpdate)).Some?
  {
  }

  lemma {:induction false} ScanFindsAccepted(kinds: seq<LineKind>, paths: seq<string>, inUpdate: bool) returns (e: nat)
    requires Scan(kinds, paths, inUpdate).Some?
    ensures AcceptedUpTo(kinds, e, inUpdate)
    decreases |kinds|
  {
    if kinds[0].EndLine? {
      e := 0;
    } else {
      ScanAcceptsFirstLine(kinds, paths, inUpdate);
      var rest := ScanFindsAccepted(kinds[1..], Listed(kinds[0], paths), NextInUpdate(kinds[0], inUpdate));
      e := rest + 1;
      AcceptedCons(kinds, rest, inUpdate);
    }
  }

  /**
   A document yields paths exactly when it opens with the begin marker, has an end marker, every
   line before the first end marker is acceptable and at least one of them is a marker. The paths
   are then those of all the markers before that end marker, in order of first occurrence, each once.
   */
  lemma {:induction false} MarkerPathsMeaning(patch: string)
    ensures MarkerPaths(Some(patch)).Some? <==>
            Body(patch).Some?
            && exists e: nat :: AcceptedUpTo(Body(patch).value, e, false) && MarkedPaths(Body(patch).value[..e]) != []
    ensures forall e: nat ::
              (MarkerPaths(Some(patch)).Some? && AcceptedUpTo(Body(patch).value, e, false)) ==>
                MarkerPaths(Some(patch)).value == AppendDistinct([], MarkedPaths(Body(patch).value[..e]))
    ensures MarkerPaths(Some(patch)).Some? ==>
              var paths := MarkerPaths(Some(patch)).value;
              paths != [] && Distinct(paths)
  {
    if Body(patch).Some? {
      var kinds := Body(patch).value;
      forall e: nat | AcceptedUpTo(kinds, e, false)
        ensures var all := AppendDistinct([], MarkedPaths(kinds[..e]));
                MarkerPaths(Some(patch)) == (if all == [] then None else Some(all))
                && (all == [] <==> MarkedPaths(kinds[..e]) == [])
      {
        ScanOfAccepted(kinds, e, [], false);
        var marked := MarkedPaths(kinds[..e]);
        AppendDistinctContents([], marked);
        if marked != [] {
          assert marked[0] in AppendDistinct([], marked);
        }
      }
      if Scan(kinds, [], false).Some? {
        var e := ScanFindsAccepted(kinds, [], false);
        AppendDistinctContents([], MarkedPaths(kinds[..e]));
      }
    }
  }

  // ----- Printed documents -----

  /** One file operation of a patch; `body` holds its hunk lines. */
  datatype PatchOperation =
    | AddFile(path: string, body: seq<string>)
    | DeleteFile(path: string)
    | UpdateFile(path: string, moveTo: Option<string>, body: seq<string>)

  predicate PrintablePath(path: string) {
    '\n' !in path && ValidMarkerPath(path)
  }

  predicate PrintableBody(body: seq<string>) {
    forall line :: line in body ==> '\n' !in line && !StartsWith(TrimCr(line), RESERVED)
  }

  predicate Printable(op: PatchOperation) {
    PrintablePath(op.path)
    && (op.UpdateFile? && op.moveTo.Some? ==> PrintablePath(op.moveTo.value))
    && (!op.DeleteFile? ==> PrintableBody(op.body))
  }

  function MarkerLines(op: PatchOperation): seq<string> {
    match op
    case AddFile(path, _) => [ADD + path]
    case DeleteFile(path) => [DELETE + path]
    case UpdateFile(path, moveTo, _) => [UPDATE + path] + if moveTo.Some? then [MOVE + moveTo.value] else []
  }

  function BodyOf(op: PatchOperation): seq<string> {
    if op.DeleteFile? then [] else op.body
  }

  function OperationLines(op: PatchOperation): seq<string> {
    MarkerLines(op) + BodyOf(op)
  }

  function PrintedLines(ops: seq<PatchOperation>): seq<string> {
    if ops == [] then [END] else OperationLines(ops[0]) + PrintedLines(ops[1..])
  }

  function PrintPatch(ops: seq<PatchOperation>): string {
    Join([BEGIN] + PrintedLines(ops), "\n") + "\n"
  }

  function OperationPaths(op: PatchOperation): seq<string> {
    [Display(op.path)] + if op.UpdateFile? && op.moveTo.Some? then [Display(op.moveTo.value)] else []
  }

  function AllPaths(ops: seq<PatchOperation>): seq<string> {
    if ops == [] then [] else OperationPaths(ops[0]) + AllPaths(ops[1..])
  }

  lemma {:induction false} JoinEndingInNewline(lines: seq<string>)
    requires |lines| >= 1
    ensures Join(lines, "\n") + "\n" == Join(lines + [""], "\n")
  {
    if |lines| > 1 {
      JoinEndingInNewline(lines[1..]);
      assert (lines + [""])[1..] == lines[1..] + [""];
    } else {
      assert (lines + [""])[1..] == [""];
    }
  }

  lemma {:induction false} LinesOfJoined(lines: seq<string>)
    requires |lines| >= 1
    requires forall line :: line in lines ==> '\n' !in line
    ensures Lines(Join(lines, "\n") + "\n") == StripLineEnds(lines)
  {
    JoinEndingInNewline(lines);
    SplitJoin(lines + [""], '\n');
    assert (lines + [""])[..|lines|] == lines;
  }

  lemma {:induction false} TrimCrAfterPrefix(prefix: string, path: string)
    requires prefix != "" && prefix[|prefix| - 1] != '\r'
    ensures TrimCr(prefix + path) == prefix + TrimCr(path)
  {
    if path == "" {
      assert prefix + path == prefix;
    } else if path[|path| - 1] == '\r' {
      TrimCrAfterPrefix(prefix, path[..|path| - 1]);
      assert (prefix + path)[..|prefix + path| - 1] == prefix + path[..|path| - 1];
    }
  }

  lemma {:induction false} TrimStartBeforeWhitespace(s: string, w: char)
    requires IsWhitespace(w)
    ensures TrimStart(s + [w]) == if TrimStart(s) == "" then "" else TrimStart(s) + [w]
  {
    if s == "" {
      assert (s + [w])[1..] == "";
    } else {
      assert (s + [w])[1..] == s[1..] + [w];
      TrimStartBeforeWhitespace(s[1..], w);
    }
  }

  lemma {:induction false} TrimIgnoresTrailingCr(s: string)
    ensures Trim(TrimCr(s)) == Trim(s)
  {
    if s != "" && s[|s| - 1] == '\r' {
      var front := s[..|s| - 1];
      TrimIgnoresTrailingCr(front);
      TrimStartBeforeWhitespace(front, '\r');
      assert s == front + ['\r'];
      var t := TrimStart(front);
      assert t != "" ==> (t + ['\r'])[..|t|] == t;
    }
  }

  lemma HasPrefix(line: string, prefix: string, rest: string)
    requires line == prefix + rest
    ensures StartsWith(line, prefix) && line[|prefix|..] == rest
  {
  }

  lemma LacksPrefix(line: string, prefix: string, k: nat)
    requires k < |prefix| && k < |line| && line[k] != prefix[k]
    ensures !StartsWith(line, prefix) && line != prefix
  {
  }

  /** The character after `*** ` tells the markers apart. */
  lemma MarkerLetters()
    ensures |ADD| > 4 && |DELETE| > 4 && |UPDATE| > 4 && |MOVE| > 4 && |END| > 4
    ensures ADD[4] == 'A' && DELETE[4] == 'D' && UPDATE[4] == 'U' && MOVE[4] == 'M' && END[4] == 'E'
  {
  }

  lemma MarkerEnds()
    ensures ADD[|ADD| - 1] == ' ' && DELETE[|DELETE| - 1] == ' ' && UPDATE[|UPDATE| - 1] == ' '
            && MOVE[|MOVE| - 1] == ' '
  {
  }

  lemma {:induction false} KindOfAdd(path: string)
    ensures KindOf(ADD + path) == AddLine(TrimCr(path))
  {
    MarkerLetters();
    MarkerEnds();
    TrimCrAfterPrefix(ADD, path);
    var line := ADD + TrimCr(path);
    HasPrefix(line, ADD, TrimCr(path));
    LacksPrefix(line, END, 4);
  }

  lemma {:induction false} KindOfDelete(path: string)
    ensures KindOf(DELETE + path) == DeleteLine(TrimCr(path))
  {
    MarkerLetters();
    MarkerEnds();
    TrimCrAfterPrefix(DELETE, path);
    var line := DELETE + TrimCr(path);
    HasPrefix(line, DELETE, TrimCr(path));
    LacksPrefix(line, END, 4);
    LacksPrefix(line, ADD, 4);
  }

  lemma {:induction false} KindOfUpdate(path: string)
    ensures KindOf(UPDATE + path) == UpdateLine(TrimCr(path))
  {
    MarkerLetters();
    MarkerEnds();
    TrimCrAfterPrefix(UPDATE, path);
    var line := UPDATE + TrimCr(path);
    HasPrefix(line, UPDATE, TrimCr(path));
    LacksPrefix(line, END, 4);
    LacksPrefix(line, ADD, 4);
    LacksPrefix(line, DELETE, 4);
  }

  lemma {:induction false} KindOfMove(path: string)
    ensures KindOf(MOVE + path) == MoveLine(TrimCr(path))
  {
    MarkerLetters();
    MarkerEnds();
    TrimCrAfterPrefix(MOVE, path);
    var line := MOVE + TrimCr(path);
    HasPrefix(line, MOVE, TrimCr(path));
    LacksPrefix(line, END, 4);
    LacksPrefix(line, ADD, 4);
    LacksPrefix(line, DELETE, 4);
    LacksPrefix(line, UPDATE, 4);
  }

  lemma MarkerPathIgnoresTrailingCr(path: string)
    ensures Display(Trim(TrimCr(path))) == Display(path)
    ensures ValidMarkerPath(TrimCr(path)) <==> ValidMarkerPath(path)
  {
    TrimIgnoresTrailingCr(path);
    assert Trim(Trim(path)) == Trim(path);
  }

  /** The first marker line of an operation, as the scan reads it. */
  function FirstKind(op: PatchOperation): LineKind {
    match op
    case AddFile(path, _) => AddLine(TrimCr(path))
    case DeleteFile(path) => DeleteLine(TrimCr(path))
    case UpdateFile(path, _, _) => UpdateLine(TrimCr(path))
  }

  function MarkerKinds(op: PatchOperation): seq<LineKind> {
    [FirstKind(op)] + if op.UpdateFile? && op.moveTo.Some? then [MoveLine(TrimCr(op.moveTo.value))] else []
  }

  lemma KindsOfMarkerLines(op: PatchOperation)
    ensures KindsOf(MarkerLines(op)) == MarkerKinds(op)
  {
    match op
    case AddFile(path, _) => KindOfAdd(path);
    case DeleteFile(path) => KindOfDelete(path);
    case UpdateFile(path, moveTo, _) =>
      KindOfUpdate(path);
      if moveTo.Some? {
        KindOfMove(moveTo.value);
      }
  }

  lemma KindsOfAppend(a: seq<string>, b: seq<string>)
    ensures KindsOf(a + b) == KindsOf(a) + KindsOf(b)
  {
  }

  lemma KindsIgnoreLineEnds(lines: seq<string>)
    ensures KindsOf(StripLineEnds(lines)) == KindsOf(lines)
  {
  }

  lemma {:induction false} ScanSkipsBody(body: seq<string>, rest: seq<LineKind>, paths: seq<string>, inUpdate: bool)
    requires PrintableBody(body)
    ensures Scan(KindsOf(body) + rest, paths, inUpdate) == Scan(rest, paths, inUpdate)
    decreases |body|
  {
    var all := KindsOf(body) + rest;
    if body == [] {
      assert all == rest;
    } else {
      assert KindOf(body[0]).BodyLine?;
      assert all[1..] == KindsOf(body[1..]) + rest;
      ScanSkipsBody(body[1..], rest, paths, inUpdate);
    }
  }

  lemma ScanReadsMarker(kind: LineKind, rest: seq<LineKind>, paths: seq<string>, inUpdate: bool)
    requires kind.IsMarker() && ValidMarkerPath(kind.path) && (kind.MoveLine? ==> inUpdate)
    ensures Scan([kind] + rest, paths, inUpdate) == Scan(rest, Listed(kind, paths), NextInUpdate(kind, inUpdate))
  {
  }

  lemma {:induction false} AppendDistinctConcat(acc: seq<string>, a: seq<string>, b: seq<string>)
    ensures AppendDistinct(acc, a + b) == AppendDistinct(AppendDistinct(acc, a), b)
    decreases |a|
  {
    if a == [] {
      assert a + b == b;
    } else {
      assert (a + b)[1..] == a[1..] + b;
      AppendDistinctConcat(if a[0] in acc then acc else acc + [a[0]], a[1..], b);
    }
  }

  lemma AppendDistinctOne(paths: seq<string>, kind: LineKind)
    requires kind.IsMarker()
    ensures AppendDistinct(paths, [Display(Trim(kind.path))]) == Listed(kind, paths)
  {
  }

  lemma {:induction false} ScanReadsMove(
    update: LineKind, move: LineKind, rest: seq<LineKind>, paths: seq<string>, inUpdate: bool)
    requires update.UpdateLine? && ValidMarkerPath(update.path) && move.MoveLine? && ValidMarkerPath(move.path)
    ensures Scan([update] + ([move] + rest), paths, inUpdate)
         == Scan(rest, AppendDistinct(paths, [Display(Trim(update.path))] + [Display(Trim(move.path))]), true)
  {
    ScanReadsMarker(update, [move] + rest, paths, inUpdate);
    ScanReadsMarker(move, rest, Listed(update, paths), true);
    AppendDistinctConcat(paths, [Display(Trim(update.path))], [Display(Trim(move.path))]);
    AppendDistinctOne(paths, update);
    AppendDistinctOne(Listed(update, paths), move);
  }

  lemma {:induction false} ScanReadsOne(kind: LineKind, rest: seq<LineKind>, paths: seq<string>, inUpdate: bool)
    requires kind.AddLine? || kind.DeleteLine? || kind.UpdateLine?
    requires ValidMarkerPath(kind.path)
    ensures Scan([kind] + rest, paths, inUpdate)
         == Scan(rest, AppendDistinct(paths, [Display(Trim(kind.path))]), kind.UpdateLine?)
  {
  }

  predicate ValidPaths(op: PatchOperation) {
    ValidMarkerPath(op.path) && (op.UpdateFile? && op.moveTo.Some? ==> ValidMarkerPath(op.moveTo.value))
  }

  lemma MovedMarkers(op: PatchOperation, rest: seq<LineKind>)
    requires op.UpdateFile? && op.moveTo.Some?
    ensures MarkerKinds(op) + rest == [FirstKind(op)] + ([MoveLine(TrimCr(op.moveTo.value))] + rest)
    ensures OperationPaths(op) == [Display(Trim(TrimCr(op.path)))] + [Display(Trim(TrimCr(op.moveTo.value)))]
  {
    MarkerPathIgnoresTrailingCr(op.path);
    MarkerPathIgnoresTrailingCr(op.moveTo.value);
  }

  lemma {:induction false} ScanReadsMovedMarkers(
    op: PatchOperation, rest: seq<LineKind>, paths: seq<string>, inUpdate: bool)
    requires ValidPaths(op) && op.UpdateFile? && op.moveTo.Some?
    ensures Scan(MarkerKinds(op) + rest, paths, inUpdate) == Scan(rest, AppendDistinct(paths, OperationPaths(op)), true)
  {
    MarkerPathIgnoresTrailingCr(op.path);
    MarkerPathIgnoresTrailingCr(op.moveTo.value);
    MovedMarkers(op, rest);
    ScanReadsMove(FirstKind(op), MoveLine(TrimCr(op.moveTo.value)), rest, paths, inUpdate);
  }

  lemma {:induction false} ScanReadsMarkers(op: PatchOperation, rest: seq<LineKind>, paths: seq<string>, inUpdate: bool)
    requires ValidPaths(op)
    ensures Scan(MarkerKinds(op) + rest, paths, inUpdate)
         == Scan(rest, AppendDistinct(paths, OperationPaths(op)), op.UpdateFile?)
  {
    if op.UpdateFile? && op.moveTo.Some? {
      ScanReadsMovedMarkers(op, rest, paths, inUpdate);
    } else {
      MarkerPathIgnoresTrailingCr(op.path);
      assert MarkerKinds(op) == [FirstKind(op)] && OperationPaths(op) == [Display(op.path)];
      ScanReadsOne(FirstKind(op), rest, paths, inUpdate);
    }
  }

  lemma KindsOfOperation(op: PatchOperation, rest: seq<LineKind>)
    ensures KindsOf(OperationLines(op)) + rest == MarkerKinds(op) + (KindsOf(BodyOf(op)) + rest)
  {
    KindsOfAppend(MarkerLines(op), BodyOf(op));
    KindsOfMarkerLines(op);
  }

  lemma {:induction false} ScanReadsOperation(
    op: PatchOperation, rest: seq<LineKind>, paths: seq<string>, inUpdate: bool)
    requires Printable(op)
    ensures Scan(KindsOf(OperationLines(op)) + rest, paths, inUpdate)
         == Scan(rest, AppendDistinct(paths, OperationPaths(op)), op.UpdateFile?)
  {
    KindsOfOperation(op, rest);
    ScanReadsMarkers(op, KindsOf(BodyOf(op)) + rest, paths, inUpdate);
    ScanSkipsBody(BodyOf(op), rest, AppendDistinct(paths, OperationPaths(op)), op.UpdateFile?);
  }

  lemma {:induction false} ScanOfPrinted(ops: seq<PatchOperation>, paths: seq<string>, inUpdate: bool)
    requires forall op :: op in ops ==> Printable(op)
    ensures var all := AppendDistinct(paths, AllPaths(ops));
            Scan(KindsOf(PrintedLines(ops)), paths, inUpdate) == if all == [] then None else Some(all)
    decreases |ops|
  {
    if ops == [] {
      assert KindsOf([END]) == [EndLine];
    } else {
      var rest := KindsOf(PrintedLines(ops[1..]));
      var listed := AppendDistinct(paths, OperationPaths(ops[0]));
      KindsOfAppend(OperationLines(ops[0]), PrintedLines(ops[1..]));
      ScanReadsOperation(ops[0], rest, paths, inUpdate);
      ScanOfPrinted(ops[1..], listed, ops[0].UpdateFile?);
      AppendDistinctConcat(paths, OperationPaths(ops[0]), AllPaths(ops[1..]));
    }
  }

  lemma MarkerLinesHaveNoNewline(op: PatchOperation, i: nat)
    requires '\n' !in op.path && (op.UpdateFile? && op.moveTo.Some? ==> '\n' !in op.moveTo.value)
    requires i < |MarkerLines(op)|
    ensures '\n' !in MarkerLines(op)[i]
  {
  }

  lemma {:induction false} OperationLinesHaveNoNewline(op: PatchOperation)
    requires Printable(op)
    ensures forall line :: line in OperationLines(op) ==> '\n' !in line
  {
    forall line | line in MarkerLines(op) ensures '\n' !in line {
      var i :| 0 <= i < |MarkerLines(op)| && MarkerLines(op)[i] == line;
      MarkerLinesHaveNoNewline(op, i);
    }
    assert forall line :: line in BodyOf(op) ==> '\n' !in line;
  }

  lemma {:induction false} PrintedLinesHaveNoNewline(ops: seq<PatchOperation>)
    requires forall op :: op in ops ==> Printable(op)
    ensures forall line :: line in PrintedLines(ops) ==> '\n' !in line
    decreases |ops|
  {
    if ops != [] {
      PrintedLinesHaveNoNewline(ops[1..]);
      OperationLinesHaveNoNewline(ops[0]);
    } else {
      assert '\n' !in END;
    }
  }

  lemma BodyOfPrinted(ops: seq<PatchOperation>)
    requires forall op :: op in ops ==> Printable(op)
    ensures Body(PrintPatch(ops)) == Some(KindsOf(PrintedLines(ops)))
  {
    var lines := [BEGIN] + PrintedLines(ops);
    PrintedLinesHaveNoNewline(ops);
    assert '\n' !in BEGIN;
    LinesOfJoined(lines);
    var read := StripLineEnds(lines);
    assert read[0] == StripCr(BEGIN) == BEGIN;
    assert read[1..] == StripLineEnds(PrintedLines(ops));
    KindsIgnoreLineEnds(PrintedLines(ops));
  }

  /** Printing operations and extracting the markers gives their paths, in order of first occurrence, each once. */
  lemma {:induction false} PrintThenExtract(ops: seq<PatchOperation>)
    requires forall op :: op in ops ==> Printable(op)
    ensures MarkerPaths(Some(PrintPatch(ops))) == if ops == [] then None else Some(AppendDistinct([], AllPaths(ops)))
  {
    BodyOfPrinted(ops);
    ScanOfPrinted(ops, [], false);
    if ops != [] {
      AppendDistinctContents([], AllPaths(ops));
      assert AllPaths(ops)[0] in AppendDistinct([], AllPaths(ops));
    }
  }
}
