/** The plans of two calls: readers and writers of one file, and an edit and a patch of one path (agent/lib.rs). */
module CallPairs {
  import opened Wrappers
  import opened WorkspacePaths
  import opened PatchMarkers
  import opened ToolCalls
  import opened ToolNames
  import opened ToolPlanner
  import opened CallRoles

  /** The plan of two calls that may run in parallel: one after the other, or together. */
  function PlanOfTwo(ordered: bool): seq<Group> {
    if ordered then [Parallel([0]), Parallel([1])] else [Parallel([0, 1])]
  }

  lemma {:induction false} GroupsOfTwo(calls: seq<Analysis>)
    requires |calls| == 2 && !calls[0].sequential && !calls[1].sequential
    ensures Groups(calls, 0) == PlanOfTwo(Orderable(calls[0], calls[1]))
  {
    assert Range(0, 1) == [0] && Range(1, 2) == [1] && Range(0, 2) == [0, 1];
    assert ConflictsWithPending(calls, Range(0, 1), 1) <==> Orderable(calls[0], calls[1]);
    assert GroupEnd(calls, 1, 2) == 2 && Groups(calls, 2) == [];
    if Orderable(calls[0], calls[1]) {
      assert GroupEnd(calls, 0, 1) == 1;
      assert Groups(calls, 1) == [Parallel(Range(1, 2))];
    } else {
      assert GroupEnd(calls, 0, 1) == GroupEnd(calls, 0, 2) == 2;
    }
  }

  /** The planner accepts the batch `[c, d]` and runs the two in this way. */
  predicate PlannedAs(c: ToolCall, d: ToolCall, groups: seq<Group>) {
    Accepts(AnalyzeAll([c, d])) && Groups(AnalyzeAll([c, d]), 0) == groups
  }

  /** Two calls with roles are rejected if they clash, ordered if they are to be ordered, and else run together. */
  lemma PlanOfPair(c: ToolCall, d: ToolCall)
    requires RoleOfCall(c).Some? && RoleOfCall(d).Some?
    ensures Accepts(AnalyzeAll([c, d])) <==> !Related(c, d, Clash)
    ensures Groups(AnalyzeAll([c, d]), 0) == PlanOfTwo(Related(c, d, Ordered))
  {
    EveryCallHasItsRole(c);
    EveryCallHasItsRole(d);
    AcceptedIffNoClash([c, d]);
    CompatibleIff(c, d);
    GroupsOfTwo(AnalyzeAll([c, d]));
  }

  // ----- Readers and writers of one file -----

  /** A call that reads this file, or queries the whole workspace. */
  predicate ReadsKey(call: ToolCall, key: string) {
    RoleOfCall(call) == Some(ReadsFile(key)) || RoleOfCall(call) == Some(ReadsWorkspace)
  }

  predicate WritesKey(call: ToolCall, key: string) {
    RoleOfCall(call) == Some(OverwritesFile(key)) || RoleOfCall(call) == Some(EditsFiles([key]))
  }

  /** The tools behind these roles. */
  lemma RolesByTool(call: ToolCall, path: string)
    requires call.path == Some(path)
    ensures call.name == "read_file" ==> RoleOfCall(call) == Some(ReadsFile(Key(path)))
    ensures call.name == "search_text" ==> RoleOfCall(call) == Some(ReadsWorkspace)
    ensures call.name == "write_file" ==> RoleOfCall(call) == Some(OverwritesFile(Key(path)))
    ensures call.name == "edit_file" ==> RoleOfCall(call) == Some(EditsFiles([Key(path)]))
  {
    FileToolNames(call.name, ReadFile);
    FileToolNames(call.name, WorkspaceQuery);
    FileToolNames(call.name, WriteFile);
    FileToolNames(call.name, EditFile);
  }

  lemma FileRelations(r: Role, s: Role, key: string)
    requires s == OverwritesFile(key) || s == EditsFiles([key])
    ensures r == ReadsFile(key) || r == ReadsWorkspace ==> RelationOf(r, s).Ordered? && RelationOf(s, r).Ordered?
    ensures r == OverwritesFile(key) ==> RelationOf(r, s).Clash? && RelationOf(s, r).Clash?
    ensures r == EditsFiles([key]) ==> RelationOf(r, s) == if s.OverwritesFile? then Clash else Ordered
  {
    assert key in FilesOf(s);
  }

  /** A reader and a writer of one file are planned one after the other, in either order. */
  lemma ReaderAndWriter(reader: ToolCall, writer: ToolCall, key: string)
    requires ReadsKey(reader, key) && WritesKey(writer, key)
    ensures PlannedAs(reader, writer, [Parallel([0]), Parallel([1])])
    ensures PlannedAs(writer, reader, [Parallel([0]), Parallel([1])])
  {
    FileRelations(RoleOfCall(reader).value, RoleOfCall(writer).value, key);
    PlanOfPair(reader, writer);
    PlanOfPair(writer, reader);
  }

  /** Two writers of one file are rejected exactly when one of them overwrites it; two edits run in batch order. */
  lemma TwoWriters(c: ToolCall, d: ToolCall, key: string)
    requires WritesKey(c, key) && WritesKey(d, key)
    ensures var edits := RoleOfCall(c).value.EditsFiles? && RoleOfCall(d).value.EditsFiles?;
            (Accepts(AnalyzeAll([c, d])) <==> edits)
            && (edits ==> PlannedAs(c, d, [Parallel([0]), Parallel([1])]))
  {
    FileRelations(RoleOfCall(c).value, RoleOfCall(d).value, key);
    PlanOfPair(c, d);
  }

  /** Calls on two different files run together. */
  lemma DifferentFiles(c: ToolCall, d: ToolCall)
    requires RoleOfCall(c).Some? && RoleOfCall(d).Some? && !Meet(RoleOfCall(c).value, RoleOfCall(d).value)
    ensures PlannedAs(c, d, [Parallel([0, 1])])
  {
    PlanOfPair(c, d);
  }

  /** Two edits of one file each run in batch order if the files are the same, else together. */
  lemma TwoEdits(c: ToolCall, k: string, d: ToolCall, m: string)
    requires RoleOfCall(c) == Some(EditsFiles([k])) && RoleOfCall(d) == Some(EditsFiles([m]))
    ensures PlannedAs(c, d, PlanOfTwo(k == m))
  {
    if k == m {
      TwoWriters(c, d, k);
    } else {
      DifferentFiles(c, d);
    }
  }

  // ----- An edit and a patch of one path -----

  predicate IsEditOf(call: ToolCall, path: string) {
    call.name == "edit_file" && call.path == Some(path)
  }

  /** A patch that a single operation on `path` was printed into. */
  predicate IsPatchOf(call: ToolCall, op: PatchOperation, path: string) {
    call.name == "apply_patch" && call.patch == Some(PrintPatch([op]))
    && Printable(op) && op.path == path && (op.UpdateFile? ==> op.moveTo.None?)
  }

  lemma OnePath(op: PatchOperation)
    requires op.UpdateFile? ==> op.moveTo.None?
    ensures AllPaths([op]) == [Display(op.path)]
  {
    assert [op][1..] == [];
  }

  lemma AppendToNothing(path: string)
    ensures AppendDistinct([], [path]) == [path]
  {
    assert [] + [path] == [path];
  }

  lemma PathsOfPatch(op: PatchOperation)
    requires Printable(op) && (op.UpdateFile? ==> op.moveTo.None?)
    ensures MarkerPaths(Some(PrintPatch([op]))) == Some([Display(op.path)])
  {
    OnePath(op);
    PrintThenExtract([op]);
    AppendToNothing(Display(op.path));
  }

  lemma RoleOfPatch(call: ToolCall, op: PatchOperation, path: string)
    requires IsPatchOf(call, op, path)
    ensures RoleOfCall(call) == Some(EditsFiles([Key(Display(path))]))
  {
    PathsOfPatch(op);
    FileToolNames(call.name, ApplyPatch);
    assert KeysOf([Display(path)]) == [Key(Display(path))];
  }

  /**
   A batch of an edit and a patch of the same path, in either order, is accepted. The two run one
   after the other exactly when the first segment of the path does not begin and its last one does
   not end with whitespace; otherwise the planner takes them for different files and runs them in
   parallel.
   */
  lemma EditAndPatchOfOnePath(edit: ToolCall, patch: ToolCall, op: PatchOperation, path: string)
    requires IsEditOf(edit, path) && IsPatchOf(patch, op, path)
    ensures PlannedAs(edit, patch, PlanOfTwo(CleanEnds(Segments(path))))
    ensures PlannedAs(patch, edit, PlanOfTwo(CleanEnds(Segments(path))))
  {
    RolesByTool(edit, path);
    RoleOfPatch(patch, op, path);
    PatchAndEditKeysAgreeIff(path);
    TwoEdits(edit, Key(path), patch, Key(Display(path)));
    TwoEdits(patch, Key(Display(path)), edit, Key(path));
  }
}
