/**
 What the planner makes of every batch, said in terms of what its calls do to files and to the
 project specification (agent/lib.rs).
 */
module CallRoles {
  import opened Wrappers
  import opened Text
  import opened WorkspacePaths
  import opened PatchMarkers
  import opened ToolCalls
  import opened ToolPlanner
  import opened PlanProperties

  /** What a call that may run in parallel does, as far as other calls are concerned. */
  datatype Role =
    | ReadsFile(key: string)
    | ReadsWorkspace
    | EditsFiles(keys: seq<string>)
    | OverwritesFile(key: string)
    | ReadsSpec
    | WritesSpec
    | Neutral

  function KeysOf(paths: seq<string>): (r: seq<string>)
    ensures |r| == |paths| && forall i :: 0 <= i < |r| ==> r[i] == Key(paths[i])
  {
    seq(|paths|, i requires 0 <= i < |paths| => Key(paths[i]))
  }

  /** The role of a call; nothing for a call that runs alone. */
  function RoleOf(tool: Tool, call: ToolCall): Option<Role> {
    match tool
    case AskQuestion | RunCommand | StopCommand | TodoWrite | PlanWrite | MemoryWrite | Mcp => None
    case ApplyPatch =>
      var paths := MarkerPaths(call.patch);
      if paths.None? then None else Some(EditsFiles(KeysOf(paths.value)))
    case ReadFile => Some(if call.path.Some? then ReadsFile(Key(call.path.value)) else Neutral)
    case EditFile => Some(if call.path.Some? then EditsFiles([Key(call.path.value)]) else Neutral)
    case WriteFile => Some(if call.path.Some? then OverwritesFile(Key(call.path.value)) else Neutral)
    case WorkspaceQuery => Some(ReadsWorkspace)
    case SpecRead => Some(ReadsSpec)
    case SpecWrite => Some(WritesSpec)
    case _ => Some(Neutral)
  }

  function RoleOfCall(call: ToolCall): Option<Role> {
    RoleOf(ToolOf(call.name), call)
  }

  // ----- How two roles relate -----

  function FilesOf(role: Role): seq<string> {
    match role
    case ReadsFile(key) => [key]
    case EditsFiles(keys) => keys
    case OverwritesFile(key) => [key]
    case _ => []
  }

  predicate Writes(role: Role) {
    role.EditsFiles? || role.OverwritesFile? || role.WritesSpec?
  }

  predicate UsesSpec(role: Role) {
    role.ReadsSpec? || role.WritesSpec?
  }

  /** The two touch a common file, or both the specification. */
  predicate Meet(r: Role, s: Role) {
    (UsesSpec(r) && UsesSpec(s))
    || (r.ReadsWorkspace? && FilesOf(s) != [])
    || (s.ReadsWorkspace? && FilesOf(r) != [])
    || exists key :: key in FilesOf(r) && key in FilesOf(s)
  }

  datatype Relation = Apart | Ordered | Clash

  /**
   Calls that touch nothing in common, or only read it, do not concern each other. Of the others,
   files can be shared in batch order unless both write and one overwrites; the specification cannot.
   */
  function RelationOf(r: Role, s: Role): Relation {
    if !Meet(r, s) || (!Writes(r) && !Writes(s)) then Apart
    else if UsesSpec(r) || (Writes(r) && Writes(s) && (r.OverwritesFile? || s.OverwritesFile?)) then Clash
    else Ordered
  }

  // ----- The locks of a role -----

  const LEASE := Lock(WorkspaceMutationLease, Exclusive)

  function FileLocks(keys: seq<string>, access: Access): (r: seq<Lock>)
    ensures |r| == |keys| && forall i :: 0 <= i < |r| ==> r[i] == Lock(File(keys[i]), access)
  {
    seq(|keys|, i requires 0 <= i < |keys| => Lock(File(keys[i]), access))
  }

  predicate Harmless(l: Lock) {
    l == LEASE
    || (l.access.Read? && !l.resource.File? && !l.resource.WorkspaceFiles? && !l.resource.ProjectSpec?
        && !l.resource.WorkspaceMutationLease?)
  }

  /** The analysis of a call with this role. */
  predicate Fits(a: Analysis, role: Role) {
    !a.sequential
    && match role
       case ReadsFile(key) => a.locks == FileLocks([key], Read)
       case ReadsWorkspace => a.locks == [Lock(WorkspaceFiles, Read)]
       case EditsFiles(keys) => a.locks == FileLocks(keys, Write) + [LEASE] && IsContextualEdit(a.writeKind)
       case OverwritesFile(key) =>
         a.locks == FileLocks([key], Write) + [LEASE] && a.writeKind == Some(LineRangeOrFull)
       case ReadsSpec => a.locks == [Lock(ProjectSpec, Read)]
       case WritesSpec => a.locks == [Lock(ProjectSpec, Write)]
       case Neutral => forall l :: l in a.locks ==> Harmless(l)
  }

  /** A lock of a fitting analysis is harmless or a lock on what the role touches. */
  predicate IsLockOf(l: Lock, role: Role) {
    Harmless(l)
    || (l.resource.File? && l.resource.key in FilesOf(role) && l.access == if Writes(role) then Write else Read)
    || (role.ReadsWorkspace? && l == Lock(WorkspaceFiles, Read))
    || (UsesSpec(role) && l == Lock(ProjectSpec, if Writes(role) then Write else Read))
  }

  lemma LocksOfRole(a: Analysis, role: Role, l: Lock)
    requires Fits(a, role) && l in a.locks
    ensures IsLockOf(l, role)
  {
  }

  lemma LocksOnFiles(a: Analysis, role: Role, key: string)
    requires Fits(a, role) && key in FilesOf(role)
    ensures Lock(File(key), if Writes(role) then Write else Read) in a.locks
  {
    var i :| 0 <= i < |FilesOf(role)| && FilesOf(role)[i] == key;
    assert a.locks[i] == Lock(File(key), if Writes(role) then Write else Read);
  }

  lemma ConflictMeansMeeting(r: Role, l: Lock, s: Role, m: Lock)
    requires IsLockOf(l, r) && IsLockOf(m, s) && Conflict(l, m) && !BothLeases(l, m)
    ensures Meet(r, s) && (Writes(r) || Writes(s))
    ensures l.resource.ProjectSpec? <==> UsesSpec(r)
    ensures l.resource.ProjectSpec? <==> m.resource.ProjectSpec?
  {
  }

  /** A conflict of locks can be ordered exactly when the roles say so. */
  lemma OrderableIffOrdered(a: Analysis, r: Role, l: Lock, b: Analysis, s: Role, m: Lock)
    requires Fits(a, r) && Fits(b, s) && l in a.locks && m in b.locks && Conflict(l, m) && !BothLeases(l, m)
    ensures OrderableLocks(l, a, m, b) <==> RelationOf(r, s).Ordered?
    ensures !RelationOf(r, s).Apart?
  {
    LocksOfRole(a, r, l);
    LocksOfRole(b, s, m);
    ConflictMeansMeeting(r, l, s, m);
  }

  lemma MeetingMeansConflict(a: Analysis, r: Role, b: Analysis, s: Role) returns (l: Lock, m: Lock)
    requires Fits(a, r) && Fits(b, s) && !RelationOf(r, s).Apart?
    ensures l in a.locks && m in b.locks && Conflict(l, m) && !BothLeases(l, m)
  {
    if UsesSpec(r) && UsesSpec(s) {
      l, m := a.locks[0], b.locks[0];
    } else if r.ReadsWorkspace? && FilesOf(s) != [] {
      LocksOnFiles(b, s, FilesOf(s)[0]);
      l, m := a.locks[0], Lock(File(FilesOf(s)[0]), if Writes(s) then Write else Read);
    } else if s.ReadsWorkspace? && FilesOf(r) != [] {
      LocksOnFiles(a, r, FilesOf(r)[0]);
      l, m := Lock(File(FilesOf(r)[0]), if Writes(r) then Write else Read), b.locks[0];
    } else {
      var key :| key in FilesOf(r) && key in FilesOf(s);
      LocksOnFiles(a, r, key);
      LocksOnFiles(b, s, key);
      l := Lock(File(key), if Writes(r) then Write else Read);
      m := Lock(File(key), if Writes(s) then Write else Read);
    }
  }

  /** The planner's two tests on a pair of calls, in terms of their roles. */
  lemma PairIsAsItsRoles(a: Analysis, r: Role, b: Analysis, s: Role)
    requires Fits(a, r) && Fits(b, s)
    ensures Orderable(a, b) <==> RelationOf(r, s).Ordered?
    ensures HardConflict(a, b) <==> RelationOf(r, s).Clash?
  {
    forall l, m | l in a.locks && m in b.locks && Conflict(l, m) && !BothLeases(l, m)
      ensures OrderableLocks(l, a, m, b) <==> RelationOf(r, s).Ordered?
      ensures !RelationOf(r, s).Apart?
    {
      OrderableIffOrdered(a, r, l, b, s, m);
    }
    if !RelationOf(r, s).Apart? {
      var l, m := MeetingMeansConflict(a, r, b, s);
      assert OrderableLocks(l, a, m, b) || HardLocks(l, a, m, b);
    }
  }

  // ----- Every call has its role -----

  /** What the planner makes of a call of this tool. */
  function AnalysisOf(tool: Tool, call: ToolCall): Analysis {
    var locks := ResourceLocks(tool, call);
    Analysis(false, if locks.Ok? then locks.value else [], WriteKindOf(tool))
  }

  lemma FileToolFits(tool: Tool, call: ToolCall)
    requires tool.ReadFile? || tool.EditFile? || tool.WriteFile?
    ensures Fits(AnalysisOf(tool, call), RoleOf(tool, call).value)
  {
    if call.path.Some? {
      var key := Key(call.path.value);
      assert FileLocks([key], Read) == [Lock(File(key), Read)];
      assert FileLocks([key], Write) == [Lock(File(key), Write)];
    }
  }

  lemma PatchFits(call: ToolCall)
    requires MarkerPaths(call.patch).Some?
    ensures Fits(AnalysisOf(ApplyPatch, call), RoleOf(ApplyPatch, call).value)
  {
    var paths := MarkerPaths(call.patch).value;
    assert PatchLocks(paths) == FileLocks(KeysOf(paths), Write);
  }

  lemma OtherToolFits(tool: Tool, call: ToolCall)
    requires !tool.ReadFile? && !tool.EditFile? && !tool.WriteFile? && !tool.ApplyPatch?
    requires RoleOf(tool, call).Some?
    ensures Fits(AnalysisOf(tool, call), RoleOf(tool, call).value)
  {
  }

  lemma RoleFits(tool: Tool, call: ToolCall)
    requires RoleOf(tool, call).Some?
    ensures Fits(AnalysisOf(tool, call), RoleOf(tool, call).value)
  {
    if tool.ReadFile? || tool.EditFile? || tool.WriteFile? {
      FileToolFits(tool, call);
    } else if tool.ApplyPatch? {
      PatchFits(call);
    } else {
      OtherToolFits(tool, call);
    }
  }

  lemma AloneIff(tool: Tool, call: ToolCall)
    ensures AlwaysSequential(tool) || (tool.ApplyPatch? && MarkerPaths(call.patch).None?) <==> RoleOf(tool, call).None?
  {
  }

  lemma AnalyzeByTool(call: ToolCall)
    ensures Analyze(call).sequential <==> RoleOfCall(call).None?
    ensures !Analyze(call).sequential ==> Analyze(call) == AnalysisOf(ToolOf(call.name), call)
  {
    AloneIff(ToolOf(call.name), call);
  }

  /** A call runs alone exactly when it has no role, and otherwise takes the locks of its role. */
  lemma EveryCallHasItsRole(call: ToolCall)
    ensures Analyze(call).sequential <==> RoleOfCall(call).None?
    ensures RoleOfCall(call).Some? ==> Fits(Analyze(call), RoleOfCall(call).value)
  {
    AnalyzeByTool(call);
    if RoleOfCall(call).Some? {
      RoleFits(ToolOf(call.name), call);
    }
  }

  // ----- Batches -----

  /** Two calls that may run in parallel stand in this relation. */
  predicate Related(c: ToolCall, d: ToolCall, relation: Relation) {
    RoleOfCall(c).Some? && RoleOfCall(d).Some? && RelationOf(RoleOfCall(c).value, RoleOfCall(d).value) == relation
  }

  lemma CompatibleIff(c: ToolCall, d: ToolCall)
    ensures Compatible(Analyze(c), Analyze(d)) <==> !Related(c, d, Clash)
    ensures !Analyze(c).sequential && !Analyze(d).sequential ==>
              (Orderable(Analyze(c), Analyze(d)) <==> Related(c, d, Ordered))
  {
    EveryCallHasItsRole(c);
    EveryCallHasItsRole(d);
    if RoleOfCall(c).Some? && RoleOfCall(d).Some? {
      PairIsAsItsRoles(Analyze(c), RoleOfCall(c).value, Analyze(d), RoleOfCall(d).value);
    }
  }

  /** A batch is accepted exactly when no two of its calls clash. */
  lemma AcceptedIffNoClash(calls: seq<ToolCall>)
    ensures Accepts(AnalyzeAll(calls)) <==> forall i, j :: 0 <= i < j < |calls| ==> !Related(calls[i], calls[j], Clash)
  {
    var analyzed := AnalyzeAll(calls);
    forall i, j | 0 <= i < j < |calls|
      ensures Compatible(analyzed[i], analyzed[j]) <==> !Related(calls[i], calls[j], Clash)
    {
      CompatibleIff(calls[i], calls[j]);
    }
  }

  /** A group as the roles allow it: a call without a role alone, or calls no two of which are to be ordered. */
  predicate AllowedGroup(calls: seq<ToolCall>, group: Group) {
    match group
    case Sequential(i) => i < |calls| && RoleOfCall(calls[i]).None?
    case Parallel(indices) =>
      indices != []
      && (forall x :: 0 <= x < |indices| ==> indices[x] < |calls| && RoleOfCall(calls[indices[x]]).Some?)
      && (forall x, y :: 0 <= x < y < |indices| ==> !Related(calls[indices[x]], calls[indices[y]], Ordered))
  }

  lemma ValidIffAllowed(calls: seq<ToolCall>, group: Group)
    ensures ValidGroup(AnalyzeAll(calls), group) <==> AllowedGroup(calls, group)
  {
    var analyzed := AnalyzeAll(calls);
    forall i | 0 <= i < |calls| ensures analyzed[i].sequential <==> RoleOfCall(calls[i]).None? {
      EveryCallHasItsRole(calls[i]);
    }
    forall i, j | 0 <= i < |calls| && 0 <= j < |calls| && !analyzed[i].sequential && !analyzed[j].sequential
      ensures Orderable(analyzed[i], analyzed[j]) <==> Related(calls[i], calls[j], Ordered)
    {
      CompatibleIff(calls[i], calls[j]);
    }
  }

  /** A way to cut the batch into allowed groups that keep batch order. */
  predicate AllowedPlan(calls: seq<ToolCall>, groups: seq<Group>) {
    Flatten(groups) == Range(0, |calls|) && forall g :: g in groups ==> AllowedGroup(calls, g)
  }

  lemma PartitionIffAllowed(calls: seq<ToolCall>, groups: seq<Group>)
    ensures Partition(AnalyzeAll(calls), groups, 0) <==> AllowedPlan(calls, groups)
  {
    forall g | g in groups ensures ValidGroup(AnalyzeAll(calls), g) <==> AllowedGroup(calls, g) {
      ValidIffAllowed(calls, g);
    }
  }

  // ----- Why a batch is rejected -----

  function AccessOf(role: Role): Access {
    if Writes(role) then Write else Read
  }

  /** The error of two calls that clash. */
  predicate ExplainsClash(error: ConflictError, c: ToolCall, r: Role, d: ToolCall, s: Role) {
    if UsesSpec(r) then error == ResourceConflict(ProjectSpec, c.id, AccessOf(r), d.id, AccessOf(s))
    else
      exists key :: key in FilesOf(r) && key in FilesOf(s)
        && error == if r.OverwritesFile? && s.OverwritesFile? then SameFileWrite(key, c.id, d.id)
                    else MixedFileWriteMethods(key, c.id, d.id)
  }

  lemma VerdictExplainsClash(c: ToolCall, a: Analysis, r: Role, l: Lock, d: ToolCall, b: Analysis, s: Role, m: Lock)
    requires Fits(a, r) && Fits(b, s) && l in a.locks && m in b.locks && LockVerdict(c, a, l, d, b, m).Some?
    ensures ExplainsClash(LockVerdict(c, a, l, d, b, m).value, c, r, d, s)
  {
    LocksOfRole(a, r, l);
    LocksOfRole(b, s, m);
    ConflictMeansMeeting(r, l, s, m);
  }

  /** The first two calls that clash, and their error. */
  ghost predicate FirstClash(calls: seq<ToolCall>, i: nat, j: nat, error: ConflictError) {
    i < j < |calls| && Related(calls[i], calls[j], Clash)
    && (forall k, l :: 0 <= k < l < |calls| && (k < i || (k == i && l < j)) ==> !Related(calls[k], calls[l], Clash))
    && ExplainsClash(error, calls[i], RoleOfCall(calls[i]).value, calls[j], RoleOfCall(calls[j]).value)
  }

  lemma RejectedForFirstClash(calls: seq<ToolCall>, error: ConflictError)
    requires RejectedFor(calls, AnalyzeAll(calls), error)
    ensures exists i, j :: FirstClash(calls, i, j, error)
  {
    var analyzed := AnalyzeAll(calls);
    var i, j :| 0 <= i < j < |calls| && !Compatible(analyzed[i], analyzed[j]) && CompatibleBefore(analyzed, i, j)
      && FirstVerdict(calls[i], analyzed[i], calls[j], analyzed[j], error);
    forall k, l | 0 <= k < l < |calls|
      ensures Compatible(analyzed[k], analyzed[l]) <==> !Related(calls[k], calls[l], Clash)
    {
      CompatibleIff(calls[k], calls[l]);
    }
    EveryCallHasItsRole(calls[i]);
    EveryCallHasItsRole(calls[j]);
    var p, q :| 0 <= p < |analyzed[i].locks| && 0 <= q < |analyzed[j].locks|
      && LockVerdict(calls[i], analyzed[i], analyzed[i].locks[p], calls[j], analyzed[j], analyzed[j].locks[q])
         == Some(error);
    VerdictExplainsClash(
      calls[i], analyzed[i], RoleOfCall(calls[i]).value, analyzed[i].locks[p],
      calls[j], analyzed[j], RoleOfCall(calls[j]).value, analyzed[j].locks[q]);
    assert FirstClash(calls, i, j, error);
  }

  /**
   The planner on every batch, in terms of roles: it answers with a plan exactly when no two calls
   clash, and the plan is a shortest one whose groups are allowed; otherwise it explains the first clash.
   */
  method PlanByRoles(calls: seq<ToolCall>) returns (r: Result<seq<Group>, ConflictError>)
    ensures r.Ok? <==> forall i, j :: 0 <= i < j < |calls| ==> !Related(calls[i], calls[j], Clash)
    ensures r.Ok? ==> AllowedPlan(calls, r.value)
    ensures r.Ok? ==> forall other :: AllowedPlan(calls, other) ==> |r.value| <= |other|
    ensures r.Err? ==> exists i, j :: FirstClash(calls, i, j, r.error)
  {
    r := PlanToolExecution(calls);
    AcceptedIffNoClash(calls);
    if r.Err? {
      RejectedForFirstClash(calls, r.error);
    }
    if r.Ok? {
      FewestGroups(AnalyzeAll(calls));
      PartitionIffAllowed(calls, r.value);
      forall other | AllowedPlan(calls, other) ensures |r.value| <= |other| {
        PartitionIffAllowed(calls, other);
      }
    }
  }
}
