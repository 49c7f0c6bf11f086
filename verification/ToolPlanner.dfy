/** The tool-batch planner: hard conflicts reject the batch, the rest is split into ordered groups (agent/lib.rs). */
module ToolPlanner {
  import opened Wrappers
  import opened ToolCalls

  predicate IsContextualEdit(kind: Option<WriteKind>) {
    kind == Some(ReplaceExact) || kind == Some(PatchEdit)
  }

  predicate IsWorkspaceFile(resource: Resource) {
    resource.WorkspaceFiles? || resource.File?
  }

  /** `is_orderable_workspace_file_conflict`: a conflict that running in batch order resolves. */
  predicate OrderableLocks(l: Lock, a: Analysis, m: Lock, b: Analysis) {
    Conflict(l, m) && IsWorkspaceFile(l.resource) && IsWorkspaceFile(m.resource)
    && ((l.access.Read? && m.access.Write?) || (l.access.Write? && m.access.Read?)
        || (l.resource.File? && m.resource.File? && IsContextualEdit(a.writeKind) && IsContextualEdit(b.writeKind)))
  }

  predicate Orderable(a: Analysis, b: Analysis) {
    exists l, m :: l in a.locks && m in b.locks && OrderableLocks(l, a, m, b)
  }

  predicate BothLeases(l: Lock, m: Lock) {
    l.resource.WorkspaceMutationLease? && m.resource.WorkspaceMutationLease?
  }

  /** A conflict that is neither lease against lease nor orderable. */
  predicate HardLocks(l: Lock, a: Analysis, m: Lock, b: Analysis) {
    Conflict(l, m) && !BothLeases(l, m) && !OrderableLocks(l, a, m, b)
  }

  predicate HardConflict(a: Analysis, b: Analysis) {
    exists l, m :: l in a.locks && m in b.locks && HardLocks(l, a, m, b)
  }

  /** The pair does not stand in the way of the batch. */
  predicate Compatible(a: Analysis, b: Analysis) {
    a.sequential || b.sequential || !HardConflict(a, b)
  }

  /** No two calls that may run in parallel conflict beyond repair. */
  predicate Accepts(calls: seq<Analysis>) {
    forall i, j :: 0 <= i < j < |calls| ==> Compatible(calls[i], calls[j])
  }

  /** Only sequential calls lock the whole workspace for writing. */
  predicate WholeWorkspaceWritesAreSequential(calls: seq<Analysis>) {
    forall i :: 0 <= i < |calls| && !calls[i].sequential ==> WHOLE_WORKSPACE_WRITE !in calls[i].locks
  }

  lemma AnalyzedWholeWorkspaceWritesAreSequential(calls: seq<ToolCall>)
    ensures WholeWorkspaceWritesAreSequential(AnalyzeAll(calls))
  {
    forall i | 0 <= i < |calls| && !AnalyzeAll(calls)[i].sequential
      ensures WHOLE_WORKSPACE_WRITE !in AnalyzeAll(calls)[i].locks
    {
      ParallelCallsNeverLockWholeWorkspaceForWrite(calls[i]);
    }
  }

  /** `is_recoverable_tool_conflict`. */
  predicate Recoverable(error: ConflictError) {
    error.SameFileWrite? || error.MixedFileWriteMethods? || error.ResourceConflict?
  }

  /** Conflicts between two calls can be repaired by another batch, missing arguments cannot. */
  lemma RecoverableIff(error: ConflictError)
    ensures Recoverable(error) <==> !error.MissingPath? && !error.MissingScope?
  {
  }

  /** The reject pass on one pair of locks, branch by branch. */
  function LockVerdict(c: ToolCall, a: Analysis, l: Lock, d: ToolCall, b: Analysis, m: Lock): Option<ConflictError> {
    if !Conflict(l, m) then None
    else if BothLeases(l, m) then None
    else if l.access.Write? && m.access.Write? && l.resource.File? then
      if IsContextualEdit(a.writeKind) && IsContextualEdit(b.writeKind) then None
      else if (a.writeKind == Some(LineRangeOrFull) && IsContextualEdit(b.writeKind))
           || (IsContextualEdit(a.writeKind) && b.writeKind == Some(LineRangeOrFull)) then
        Some(MixedFileWriteMethods(l.resource.key, c.id, d.id))
      else Some(SameFileWrite(l.resource.key, c.id, d.id))
    else if OrderableLocks(l, a, m, b) then None
    else Some(ResourceConflict(l.resource, c.id, l.access, d.id, m.access))
  }

  predicate NoVerdict(c: ToolCall, a: Analysis, d: ToolCall, b: Analysis) {
    forall p, q :: 0 <= p < |a.locks| && 0 <= q < |b.locks| ==> LockVerdict(c, a, a.locks[p], d, b, b.locks[q]).None?
  }

  /** `error` is the verdict on the first offending pair of locks. */
  predicate FirstVerdict(c: ToolCall, a: Analysis, d: ToolCall, b: Analysis, error: ConflictError) {
    exists p, q :: 0 <= p < |a.locks| && 0 <= q < |b.locks|
      && LockVerdict(c, a, a.locks[p], d, b, b.locks[q]) == Some(error)
      && (forall p', q' :: 0 <= p' < p && 0 <= q' < |b.locks| ==>
           LockVerdict(c, a, a.locks[p'], d, b, b.locks[q']).None?)
      && (forall q' :: 0 <= q' < q ==> LockVerdict(c, a, a.locks[p], d, b, b.locks[q']).None?)
  }

  /** `reject_conflicting_parallel_tool_calls`. */
  method RejectConflicting(c: ToolCall, a: Analysis, d: ToolCall, b: Analysis) returns (r: Option<ConflictError>)
    ensures r.None? ==> NoVerdict(c, a, d, b)
    ensures r.Some? ==> FirstVerdict(c, a, d, b, r.value)
  {
    for p := 0 to |a.locks|
      invariant forall p', q' :: 0 <= p' < p && 0 <= q' < |b.locks| ==>
        LockVerdict(c, a, a.locks[p'], d, b, b.locks[q']).None?
    {
      for q := 0 to |b.locks|
        invariant forall q' :: 0 <= q' < q ==> LockVerdict(c, a, a.locks[p], d, b, b.locks[q']).None?
      {
        var verdict := LockVerdict(c, a, a.locks[p], d, b, b.locks[q]);
        if verdict.Some? {
          return verdict;
        }
      }
    }
    return None;
  }

  /**
   The early exit for contextual writes also covers a file against the whole workspace, which the
   grouping would not order. A call that may run in parallel never writes the whole workspace, so
   the reject pass still finds exactly the hard conflicts.
   */
  lemma VerdictsAreHardConflicts(c: ToolCall, a: Analysis, d: ToolCall, b: Analysis)
    requires WHOLE_WORKSPACE_WRITE !in b.locks
    ensures NoVerdict(c, a, d, b) <==> !HardConflict(a, b)
  {
    forall p, q | 0 <= p < |a.locks| && 0 <= q < |b.locks|
      ensures LockVerdict(c, a, a.locks[p], d, b, b.locks[q]).None? <==> !HardLocks(a.locks[p], a, b.locks[q], b)
    {
      assert b.locks[q] != WHOLE_WORKSPACE_WRITE;
    }
  }

  lemma FirstVerdictRejects(c: ToolCall, a: Analysis, d: ToolCall, b: Analysis, error: ConflictError)
    requires FirstVerdict(c, a, d, b, error)
    ensures !NoVerdict(c, a, d, b) && Recoverable(error)
  {
  }

  datatype Group = Sequential(index: nat) | Parallel(indices: seq<nat>)

  function Range(from: nat, to: nat): (r: seq<nat>)
    requires from <= to
    ensures |r| == to - from
    ensures forall i :: 0 <= i < |r| ==> r[i] == from + i
  {
    seq(to - from, i requires 0 <= i < to - from => from + i)
  }

  predicate ConflictsWithPending(calls: seq<Analysis>, pending: seq<nat>, current: nat)
    requires current < |calls| && forall i :: i in pending ==> i < |calls|
  {
    exists i :: i in pending && Orderable(calls[i], calls[current])
  }

  /** Where the parallel group that holds `start..k` ends. */
  function GroupEnd(calls: seq<Analysis>, start: nat, k: nat): (e: nat)
    requires start <= k <= |calls|
    ensures k <= e <= |calls|
    decreases |calls| - k
  {
    if k == |calls| || calls[k].sequential || ConflictsWithPending(calls, Range(start, k), k) then k
    else GroupEnd(calls, start, k + 1)
  }

  /** The groups of the calls from `i` on: each parallel group is as long as it can be. */
  function Groups(calls: seq<Analysis>, i: nat): seq<Group>
    requires i <= |calls|
    decreases |calls| - i, 0
  {
    if i == |calls| then []
    else if calls[i].sequential then [Sequential(i)] + Groups(calls, i + 1)
    else GroupsFrom(calls, i, i + 1)
  }

  /** The groups when `start..k` is already pending. */
  function GroupsFrom(calls: seq<Analysis>, start: nat, k: nat): seq<Group>
    requires start < k <= |calls|
    decreases |calls| - k, 1
  {
    var e := GroupEnd(calls, start, k);
    [Parallel(Range(start, e))] + Groups(calls, e)
  }

  /** The groups when `pending` is what has been collected just before `k`. */
  function GroupsWith(calls: seq<Analysis>, pending: seq<nat>, k: nat): seq<Group>
    requires |pending| <= k <= |calls|
  {
    if pending == [] then Groups(calls, k) else GroupsFrom(calls, k - |pending|, k)
  }

  /** All pairs of calls before the pair `(i, j)` are compatible. */
  ghost predicate CompatibleBefore(analyzed: seq<Analysis>, i: nat, j: nat) {
    forall k, l :: 0 <= k < l < |analyzed| && (k < i || (k == i && l < j)) ==> Compatible(analyzed[k], analyzed[l])
  }

  /**
   The error is that of the first pair of calls, in batch order, that may run in parallel and
   conflict beyond repair.
   */
  ghost predicate RejectedFor(calls: seq<ToolCall>, analyzed: seq<Analysis>, error: ConflictError)
    requires |calls| == |analyzed|
  {
    Recoverable(error)
    && exists i, j :: 0 <= i < j < |calls| && !Compatible(analyzed[i], analyzed[j]) && CompatibleBefore(analyzed, i, j)
         && FirstVerdict(calls[i], analyzed[i], calls[j], analyzed[j], error)
  }

  /** The reject pass over all pairs of calls. */
  method FindConflict(calls: seq<ToolCall>, analyzed: seq<Analysis>) returns (r: Option<ConflictError>)
    requires |calls| == |analyzed|
    requires WholeWorkspaceWritesAreSequential(analyzed)
    ensures r.None? <==> Accepts(analyzed)
    ensures r.Some? ==> RejectedFor(calls, analyzed, r.value)
  {
    for i := 0 to |calls|
      invariant forall i', j :: 0 <= i' < i && i' < j < |calls| ==> Compatible(analyzed[i'], analyzed[j])
    {
      for j := i + 1 to |calls|
        invariant forall j' :: i < j' < j ==> Compatible(analyzed[i], analyzed[j'])
      {
        if !analyzed[i].sequential && !analyzed[j].sequential {
          var error := RejectConflicting(calls[i], analyzed[i], calls[j], analyzed[j]);
          VerdictsAreHardConflicts(calls[i], analyzed[i], calls[j], analyzed[j]);
          if error.Some? {
            FirstVerdictRejects(calls[i], analyzed[i], calls[j], analyzed[j], error.value);
            assert !Compatible(analyzed[i], analyzed[j]) && CompatibleBefore(analyzed, i, j);
            return error;
          }
        }
      }
    }
    return None;
  }

  /** `pending` holds the indices just before `k`. */
  predicate IsPending(pending: seq<nat>, k: nat) {
    |pending| <= k && pending == Range(k - |pending|, k)
  }

  lemma PendingIsFlushed(calls: seq<Analysis>, pending: seq<nat>, k: nat)
    requires pending != [] && IsPending(pending, k) && k <= |calls|
    requires k == |calls| || calls[k].sequential || ConflictsWithPending(calls, pending, k)
    ensures GroupsWith(calls, pending, k) == [Parallel(pending)] + GroupsWith(calls, [], k)
  {
  }

  lemma SequentialIsPushed(calls: seq<Analysis>, groups: seq<Group>, k: nat)
    requires k < |calls| && calls[k].sequential
    ensures groups + [Sequential(k)] + GroupsWith(calls, [], k + 1) == groups + GroupsWith(calls, [], k)
  {
  }

  lemma PendingGrows(calls: seq<Analysis>, pending: seq<nat>, k: nat)
    requires IsPending(pending, k) && k < |calls|
    requires !calls[k].sequential && !ConflictsWithPending(calls, pending, k)
    ensures IsPending(pending + [k], k + 1)
    ensures GroupsWith(calls, pending, k) == GroupsWith(calls, pending + [k], k + 1)
  {
    if pending != [] {
      assert GroupEnd(calls, k - |pending|, k) == GroupEnd(calls, k - |pending|, k + 1);
    }
  }

  /** `push_parallel_group`. */
  method PushParallelGroup(calls: seq<Analysis>, groups: seq<Group>, pending: seq<nat>, k: nat) returns (r: seq<Group>)
    requires IsPending(pending, k) && k <= |calls|
    requires k == |calls| || calls[k].sequential || ConflictsWithPending(calls, pending, k)
    ensures r == groups + if pending == [] then [] else [Parallel(pending)]
    ensures r + GroupsWith(calls, [], k) == groups + GroupsWith(calls, pending, k)
  {
    if pending == [] {
      return groups;
    }
    PendingIsFlushed(calls, pending, k);
    assert groups + ([Parallel(pending)] + GroupsWith(calls, [], k))
        == groups + [Parallel(pending)] + GroupsWith(calls, [], k);
    return groups + [Parallel(pending)];
  }

  /** The grouping loop. */
  method CollectGroups(calls: seq<Analysis>) returns (groups: seq<Group>)
    ensures groups == Groups(calls, 0)
  {
    groups := [];
    var pending: seq<nat> := [];
    for k := 0 to |calls|
      invariant IsPending(pending, k)
      invariant groups + GroupsWith(calls, pending, k) == GroupsWith(calls, [], 0)
    {
      if calls[k].sequential {
        groups := PushParallelGroup(calls, groups, pending, k);
        pending := [];
        SequentialIsPushed(calls, groups, k);
        groups := groups + [Sequential(k)];
      } else {
        if ConflictsWithPending(calls, pending, k) {
          groups := PushParallelGroup(calls, groups, pending, k);
          pending := [];
        }
        PendingGrows(calls, pending, k);
        pending := pending + [k];
      }
    }
    groups := PushParallelGroup(calls, groups, pending, |calls|);
  }

  /** `plan_tool_execution`. */
  method PlanToolExecution(calls: seq<ToolCall>) returns (r: Result<seq<Group>, ConflictError>)
    ensures r.Ok? <==> Accepts(AnalyzeAll(calls))
    ensures r.Ok? ==> r.value == Groups(AnalyzeAll(calls), 0)
    ensures r.Err? ==> RejectedFor(calls, AnalyzeAll(calls), r.error)
  {
    var analyzed := AnalyzeAll(calls);
    AnalyzedWholeWorkspaceWritesAreSequential(calls);
    var conflict := FindConflict(calls, analyzed);
    if conflict.Some? {
      return Err(conflict.value);
    }
    var groups := CollectGroups(analyzed);
    return Ok(groups);
  }
}
