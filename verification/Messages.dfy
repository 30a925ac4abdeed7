/** Conversation messages (crates/quine-llm/src/types.rs). */
module Messages {
  import opened Wrappers
  import opened QwenBlocks

  datatype Role = System | User | Assistant | Tool

  datatype ToolUseRequest = ToolUseRequest(toolUseId: string, toolName: string, arguments: Json)

  datatype Content =
    | Text(text: string)
    | ToolResult(toolUseId: string, output: string, isError: bool)
    | ToolUse(lead: Option<string>, toolCalls: seq<ToolUseRequest>)

  datatype Message = Message(role: Role, content: Content)
}
