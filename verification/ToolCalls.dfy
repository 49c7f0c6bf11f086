/** Tool calls and the resource locks each one declares (agent/lib.rs). */
module ToolCalls {
  import opened Wrappers
  import opened Text
  import opened WorkspacePaths
  import opened PatchMarkers

  /** A pending call; the JSON arguments are reduced to the string fields the planner reads. */
  datatype ToolCall = ToolCall(
    id: string,
    name: string,
    path: Option<string>,
    patch: Option<string>,
    scope: Option<string>,
    processId: Option<string>)

  /** Tools that every table of the planner treats alike. */
  datatype Tool =
    | ReadFile | WriteFile | EditFile | ApplyPatch
    | WorkspaceQuery
    | TodoWrite | TodoRead
    | PlanWrite | PlanRead
    | SpecRead | SpecWrite
    | AgentQuery | AgentControl
    | MemorySearch | MemoryWrite
    | WebRead
    | CommandOutput | StopCommand | RunCommand
    | AskQuestion | Sleep
    | Mcp
    | Unknown

  const MCP_PREFIX := "mcp__"

  /** The tools on files of the workspace. */
  function FileTool(name: string): Option<Tool> {
    if name == "read_file" then Some(ReadFile)
    else if name == "write_file" then Some(WriteFile)
    else if name == "edit_file" then Some(EditFile)
    else if name == "apply_patch" then Some(ApplyPatch)
    else if name in [
      "find_files", "search_text", "graph_find_symbols", "graph_find_callers", "graph_find_callees",
      "graph_find_children", "graph_find_references", "graph_find_imports", "graph_find_importers",
      "graph_related_files", "graph_explore"] then Some(WorkspaceQuery)
    else None
  }

  /** The tools on what a project keeps beside its files. */
  function ProjectTool(name: string): Option<Tool> {
    if name in ["create_todo_graph", "update_todo_graph"] then Some(TodoWrite)
    else if name == "get_todo_graph" then Some(TodoRead)
    else if name in ["create_plan", "update_plan", "update_plan_step", "delete_plan"] then Some(PlanWrite)
    else if name == "get_plans" then Some(PlanRead)
    else if name == "read_spec" then Some(SpecRead)
    else if name == "update_spec" then Some(SpecWrite)
    else if name == "memory_search" then Some(MemorySearch)
    else if name == "memory_write" then Some(MemoryWrite)
    else None
  }

  /** The tools on agents, the web, commands and the user. */
  function OutsideTool(name: string): Option<Tool> {
    if name in ["agent_list", "agent_get_task"] then Some(AgentQuery)
    else if name in [
      "agent_send_message", "agent_delegate_task", "agent_cancel_task", "agent_wait_tasks",
      "agent_transfer_task", "agent_create_instances"] then Some(AgentControl)
    else if name in ["web_search", "web_fetch"] then Some(WebRead)
    else if name == "get_command_output" then Some(CommandOutput)
    else if name == "stop_command" then Some(StopCommand)
    else if name == "run_command" then Some(RunCommand)
    else if name == "ask_question" then Some(AskQuestion)
    else if name == "sleep" then Some(Sleep)
    else None
  }

  function ToolOf(name: string): Tool {
    if FileTool(name).Some? then FileTool(name).value
    else if ProjectTool(name).Some? then ProjectTool(name).value
    else if OutsideTool(name).Some? then OutsideTool(name).value
    else if StartsWith(name, MCP_PREFIX) then Mcp
    else Unknown
  }

  datatype Resource =
    | WorkspaceMutationLease
    | WorkspaceFiles
    | File(key: string)
    | TodoGraph
    | Plan
    | ProjectSpec
    | Memory(scope: string)
    | CommandProcess(process: string)
    | ExternalTool(tool: string)

  datatype Access = Read | Write | Exclusive

  datatype Lock = Lock(resource: Resource, access: Access)

  datatype ConflictError =
    | MissingPath(callId: string)
    | MissingScope(callId: string)
    | SameFileWrite(key: string, firstCallId: string, secondCallId: string)
    | MixedFileWriteMethods(key: string, firstCallId: string, secondCallId: string)
    | ResourceConflict(
        resource: Resource, firstCallId: string, firstAccess: Access, secondCallId: string, secondAccess: Access)

  datatype Effect = ReadOnly | WorkspaceMutation | ExternalOrUnknown

  /** `tool_effect`. */
  function EffectOf(tool: Tool): Effect {
    match tool
    case ReadFile | WorkspaceQuery | TodoRead | PlanRead | SpecRead | MemorySearch | WebRead
       | CommandOutput | AgentQuery | Sleep => ReadOnly
    case WriteFile | EditFile | ApplyPatch | TodoWrite | PlanWrite | SpecWrite | MemoryWrite => WorkspaceMutation
    case RunCommand | StopCommand | AgentControl | AskQuestion | Mcp | Unknown => ExternalOrUnknown
  }

  /** Whether a call also takes the workspace mutation lease. */
  predicate TakesLease(tool: Tool) {
    EffectOf(tool).ExternalOrUnknown? || tool.WriteFile? || tool.EditFile? || tool.ApplyPatch?
  }

  /** `tool_call_requires_sequential_execution`. */
  predicate AlwaysSequential(tool: Tool) {
    tool.AskQuestion? || tool.RunCommand? || tool.StopCommand? || tool.TodoWrite? || tool.PlanWrite?
    || tool.MemoryWrite? || tool.Mcp?
  }

  datatype WriteKind = ReplaceExact | PatchEdit | LineRangeOrFull

  /** `file_write_kind`. */
  function WriteKindOf(tool: Tool): Option<WriteKind> {
    match tool
    case EditFile => Some(ReplaceExact)
    case ApplyPatch => Some(PatchEdit)
    case WriteFile => Some(LineRangeOrFull)
    case _ => None
  }

  /** `memory_scope_key`: the scope `auto` stands for every scope. */
  function ScopeKey(scope: string): string {
    if Trim(scope) == "auto" then "all" else Trim(scope)
  }

  function PatchLocks(paths: seq<string>): (r: seq<Lock>)
    ensures |r| == |paths|
    ensures forall i :: 0 <= i < |paths| ==> r[i] == Lock(File(Key(paths[i])), Write)
  {
    seq(|paths|, i requires 0 <= i < |paths| => Lock(File(Key(paths[i])), Write))
  }

  /** The locks before the lease is added. */
  function OwnLocks(tool: Tool, call: ToolCall): (r: Result<seq<Lock>, ConflictError>)
    ensures r.Err? ==> r.error.MissingPath? || r.error.MissingScope?
  {
    match tool
    case ReadFile =>
      if call.path.None? then Err(MissingPath(call.id)) else Ok([Lock(File(Key(call.path.value)), Read)])
    case WriteFile | EditFile =>
      if call.path.None? then Err(MissingPath(call.id)) else Ok([Lock(File(Key(call.path.value)), Write)])
    case ApplyPatch =>
      var paths := MarkerPaths(call.patch);
      Ok(if paths.Some? then PatchLocks(paths.value) else [Lock(WorkspaceFiles, Write)])
    case WorkspaceQuery => Ok([Lock(WorkspaceFiles, Read)])
    case TodoWrite => Ok([Lock(TodoGraph, Write)])
    case TodoRead => Ok([Lock(TodoGraph, Read)])
    case PlanWrite => Ok([Lock(Plan, Write)])
    case PlanRead => Ok([Lock(Plan, Read)])
    case SpecRead => Ok([Lock(ProjectSpec, Read)])
    case SpecWrite => Ok([Lock(ProjectSpec, Write)])
    case MemorySearch =>
      if call.scope.None? then Err(MissingScope(call.id)) else Ok([Lock(Memory(ScopeKey(call.scope.value)), Read)])
    case MemoryWrite =>
      if call.scope.None? then Err(MissingScope(call.id)) else Ok([Lock(Memory(ScopeKey(call.scope.value)), Write)])
    case WebRead => Ok([Lock(ExternalTool(call.name), Read)])
    case CommandOutput =>
      if call.processId.None? || Trim(call.processId.value) == "" then Err(MissingScope(call.id))
      else Ok([Lock(CommandProcess(Trim(call.processId.value)), Read)])
    case StopCommand =>
      if call.processId.None? || Trim(call.processId.value) == "" then Err(MissingScope(call.id))
      else Ok([Lock(CommandProcess(Trim(call.processId.value)), Exclusive)])
    case Mcp => Ok([Lock(ExternalTool(call.name), Exclusive)])
    case AgentQuery | AgentControl | RunCommand | AskQuestion | Sleep | Unknown => Ok([])
  }

  /** `tool_resource_locks`. */
  function ResourceLocks(tool: Tool, call: ToolCall): (r: Result<seq<Lock>, ConflictError>)
    ensures r.Err? ==> r.error.MissingPath? || r.error.MissingScope?
  {
    var own := OwnLocks(tool, call);
    if own.Ok? && TakesLease(tool) then Ok(own.value + [Lock(WorkspaceMutationLease, Exclusive)]) else own
  }

  /** `resources_overlap`. */
  predicate Overlap(first: Resource, second: Resource) {
    match (first, second)
    case (WorkspaceFiles, File(_)) => true
    case (File(_), WorkspaceFiles) => true
    case (Memory(a), Memory(b)) => a == b || a == "all" || b == "all"
    case _ => first == second
  }

  /** `tool_resource_locks_conflict`. */
  predicate Conflict(first: Lock, second: Lock) {
    Overlap(first.resource, second.resource) && !(first.access.Read? && second.access.Read?)
  }

  /** What the planner keeps about a call. */
  datatype Analysis = Analysis(sequential: bool, locks: seq<Lock>, writeKind: Option<WriteKind>)

  /** A call whose arguments are missing is planned without locks, so that the tool reports the error. */
  function Analyze(call: ToolCall): Analysis {
    var tool := ToolOf(call.name);
    var locks := ResourceLocks(tool, call);
    Analysis(
      AlwaysSequential(tool) || (tool.ApplyPatch? && MarkerPaths(call.patch).None?),
      if locks.Ok? then locks.value else [],
      WriteKindOf(tool))
  }

  function AnalyzeAll(calls: seq<ToolCall>): (r: seq<Analysis>)
    ensures |r| == |calls|
    ensures forall i :: 0 <= i < |calls| ==> r[i] == Analyze(calls[i])
  {
    seq(|calls|, i requires 0 <= i < |calls| => Analyze(calls[i]))
  }

  /** The lock an unparsable patch takes. */
  const WHOLE_WORKSPACE_WRITE := Lock(WorkspaceFiles, Write)

  lemma OwnLocksOfFileWriters(tool: Tool, call: ToolCall)
    requires OwnLocks(tool, call).Ok?
    requires WHOLE_WORKSPACE_WRITE in OwnLocks(tool, call).value
    ensures tool.ApplyPatch? && MarkerPaths(call.patch).None?
  {
  }

  /** Only an unparsable patch writes the whole workspace, and such a call is sequential. */
  lemma ParallelCallsNeverLockWholeWorkspaceForWrite(call: ToolCall)
    requires !Analyze(call).sequential
    ensures WHOLE_WORKSPACE_WRITE !in Analyze(call).locks
  {
    var tool := ToolOf(call.name);
    if WHOLE_WORKSPACE_WRITE in Analyze(call).locks {
      assert WHOLE_WORKSPACE_WRITE in OwnLocks(tool, call).value;
      OwnLocksOfFileWriters(tool, call);
    }
  }

  /** The tool needs an argument that the call does not give. */
  predicate LacksArgument(tool: Tool, call: ToolCall) {
    ((tool.ReadFile? || tool.WriteFile? || tool.EditFile?) && call.path.None?)
    || ((tool.MemorySearch? || tool.MemoryWrite?) && call.scope.None?)
    || ((tool.CommandOutput? || tool.StopCommand?) && (call.processId.None? || Trim(call.processId.value) == ""))
  }

  /** Exactly the calls that lack an argument are planned without any lock that their tool would take. */
  lemma NoLocksWithoutArgument(tool: Tool, call: ToolCall)
    ensures ResourceLocks(tool, call).Err? <==> LacksArgument(tool, call)
    ensures tool == ToolOf(call.name) && LacksArgument(tool, call) ==> Analyze(call).locks == []
  {
  }

  /** Which resources a tool locks: those it works on, the external ones by its name. */
  lemma LocksNameTheirResource(tool: Tool, call: ToolCall, l: Lock)
    requires OwnLocks(tool, call).Ok? && l in OwnLocks(tool, call).value
    ensures l.resource.TodoGraph? <==> tool.TodoRead? || tool.TodoWrite?
    ensures l.resource.Plan? <==> tool.PlanRead? || tool.PlanWrite?
    ensures l.resource.ProjectSpec? <==> tool.SpecRead? || tool.SpecWrite?
    ensures l.resource.Memory? <==> tool.MemorySearch? || tool.MemoryWrite?
    ensures l.resource.CommandProcess? <==> tool.CommandOutput? || tool.StopCommand?
    ensures l.resource.ExternalTool? <==> tool.WebRead? || tool.Mcp?
    ensures l.resource.ExternalTool? ==> l.resource.tool == call.name
    ensures l.access.Exclusive? <==> tool.StopCommand? || tool.Mcp?
  {
  }

  /** Every tool takes one lock of its own, but for patches and for tools whose work nothing else shares. */
  lemma OneOwnLock(tool: Tool, call: ToolCall)
    requires OwnLocks(tool, call).Ok? && !tool.ApplyPatch?
    ensures |OwnLocks(tool, call).value|
            == if tool in {AgentQuery, AgentControl, RunCommand, AskQuestion, Sleep, Unknown} then 0 else 1
  {
  }

  /** A search of the scope `auto` touches every scope, of another scope its own and `all`. */
  lemma MemoryLocks(search: ToolCall, write: ToolCall)
    requires search.scope.Some? && write.scope.Some?
    ensures var s, w := Trim(search.scope.value), Trim(write.scope.value);
            var l, m := OwnLocks(MemorySearch, search).value, OwnLocks(MemoryWrite, write).value;
            |l| == |m| == 1
            && (Conflict(l[0], m[0]) <==> s == w || s in {"auto", "all"} || w in {"auto", "all"})
  {
  }

  /** Reading the output of a command and stopping it concern each other exactly when it is the same process. */
  lemma CommandLocks(read: ToolCall, stop: ToolCall)
    requires read.processId.Some? && Trim(read.processId.value) != ""
    requires stop.processId.Some? && Trim(stop.processId.value) != ""
    ensures var l, m := OwnLocks(CommandOutput, read).value, OwnLocks(StopCommand, stop).value;
            |l| == |m| == 1 && (Conflict(l[0], m[0]) <==> Trim(read.processId.value) == Trim(stop.processId.value))
  {
  }

  /**
   The lock table and the effect table agree: a call declares only read locks exactly when its tool
   is read-only, and every call that writes workspace files also takes the mutation lease.
   */
  lemma EffectMatchesLocks(tool: Tool, call: ToolCall)
    requires ResourceLocks(tool, call).Ok?
    ensures var locks := ResourceLocks(tool, call).value;
            (EffectOf(tool).ReadOnly? <==> forall l :: l in locks ==> l.access.Read?)
            && (forall l :: l in locks && l.access.Write? && (l.resource.File? || l.resource.WorkspaceFiles?) ==>
                  Lock(WorkspaceMutationLease, Exclusive) in locks)
  {
  }
}
