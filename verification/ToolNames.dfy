/** The names of the tools (agent/lib.rs). */
module ToolNames {
  import opened Wrappers
  import opened Text
  import opened ToolCalls

  predicate NamesFileTool(name: string, tool: Tool) {
    match tool
    case ReadFile => name == "read_file"
    case WriteFile => name == "write_file"
    case EditFile => name == "edit_file"
    case ApplyPatch => name == "apply_patch"
    case WorkspaceQuery =>
      name == "find_files" || name == "search_text" || name == "graph_find_symbols" || name == "graph_find_callers"
      || name == "graph_find_callees" || name == "graph_find_children" || name == "graph_find_references"
      || name == "graph_find_imports" || name == "graph_find_importers" || name == "graph_related_files"
      || name == "graph_explore"
    case _ => false
  }

  predicate NamesProjectTool(name: string, tool: Tool) {
    match tool
    case TodoWrite => name == "create_todo_graph" || name == "update_todo_graph"
    case TodoRead => name == "get_todo_graph"
    case PlanWrite =>
      name == "create_plan" || name == "update_plan" || name == "update_plan_step" || name == "delete_plan"
    case PlanRead => name == "get_plans"
    case SpecRead => name == "read_spec"
    case SpecWrite => name == "update_spec"
    case MemorySearch => name == "memory_search"
    case MemoryWrite => name == "memory_write"
    case _ => false
  }

  predicate NamesOutsideTool(name: string, tool: Tool) {
    match tool
    case AgentQuery => name == "agent_list" || name == "agent_get_task"
    case AgentControl =>
      name == "agent_send_message" || name == "agent_delegate_task" || name == "agent_cancel_task"
      || name == "agent_wait_tasks" || name == "agent_transfer_task" || name == "agent_create_instances"
    case WebRead => name == "web_search" || name == "web_fetch"
    case CommandOutput => name == "get_command_output"
    case StopCommand => name == "stop_command"
    case RunCommand => name == "run_command"
    case AskQuestion => name == "ask_question"
    case Sleep => name == "sleep"
    case _ => false
  }

  lemma FileToolNames(name: string, tool: Tool)
    ensures FileTool(name) == Some(tool) <==> NamesFileTool(name, tool)
  {
  }

  lemma ProjectToolNames(name: string, tool: Tool)
    ensures ProjectTool(name) == Some(tool) <==> NamesProjectTool(name, tool)
  {
  }

  lemma OutsideToolNames(name: string, tool: Tool)
    ensures OutsideTool(name) == Some(tool) <==> NamesOutsideTool(name, tool)
  {
  }

  /** A name that stands for no tool of these kinds is that of a tool of an external server, or unknown. */
  lemma ToolOfName(name: string)
    ensures var tool := ToolOf(name);
            if tool.Mcp? || tool.Unknown? then
              FileTool(name).None? && ProjectTool(name).None? && OutsideTool(name).None?
              && (tool.Mcp? <==> StartsWith(name, "mcp__"))
            else Some(tool) in {FileTool(name), ProjectTool(name), OutsideTool(name)}
  {
    FileToolNames(name, ToolOf(name));
    ProjectToolNames(name, ToolOf(name));
    OutsideToolNames(name, ToolOf(name));
  }
}
