/** The names that route a tool call. */
module ToolNames {
  /** `is_history_tool_name` */
  predicate IsHistoryTool(name: string) {
    name == "history_search" || name == "history_turn" || name == "history_artifact"
  }

  /** `starts_with("history_")` */
  predicate InNamespace(name: string) { "history_" <= name }

  lemma {:induction false} HistoryToolsAreInNamespace(name: string)
    ensures IsHistoryTool(name) ==> InNamespace(name)
  {
    assert "history_search"[..8] == "history_" && "history_turn"[..8] == "history_"
           && "history_artifact"[..8] == "history_";
  }
}
