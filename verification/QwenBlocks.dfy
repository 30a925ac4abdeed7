/**
  One tool-call block as Qwen models write it into their text
  (crates/quine-llm/src/openai_compat.rs):
  `<tool_call><function=NAME><parameter=KEY>VALUE</parameter>...</function></tool_call>`.
 */
module QwenBlocks {
  import opened Wrappers
  import opened Strings

  const OPEN := "<tool_call>"
  const CLOSE := "</tool_call>"

  datatype Json =
    | JsonNull
    | JsonBool(bool)
    | JsonNumber(string)
    | JsonString(string)
    | JsonArray(seq<Json>)
    | JsonObject(map<string, Json>)

  /** The JSON reader is a library: a partial function from text to values. */
  type JsonReader = string -> Option<Json>

  datatype Event =
    | TextDelta(text: string)
    | ToolCall(toolUseId: string, toolName: string, arguments: Json)

  function ParameterValue(reader: JsonReader, text: string): Json {
    var trimmed := Trim(text);
    match reader(trimmed)
    case Some(value) => value
    case None => JsonString(trimmed)
  }

  function ParseParameters(reader: JsonReader, remaining: string, arguments: map<string, Json>)
    : Option<map<string, Json>>
    decreases |remaining|
  {
    var trimmed := TrimStart(remaining);
    if trimmed == "" then Some(arguments) else
    match StripPrefix(trimmed, "<parameter=")
    case None => None
    case Some(parameterBody) =>
      match Find(parameterBody, ">")
      case None => None
      case Some(nameEnd) =>
        var name := Trim(parameterBody[..nameEnd]);
        var parameterRest := parameterBody[nameEnd + 1..];
        match Find(parameterRest, "</parameter>")
        case None => None
        case Some(end) =>
          ParseParameters(reader,
                          parameterRest[end + |"</parameter>"|..],
                          arguments[name := ParameterValue(reader, parameterRest[..end])])
  }

  /** The text between the tags, cut into the function name and the parameter section. */
  function BlockHeader(block: string): Option<(string, string)> {
    match StripPrefix(block, OPEN)
    case None => None
    case Some(afterOpen) =>
      match StripSuffix(afterOpen, CLOSE)
      case None => None
      case Some(inside) =>
        match StripPrefix(Trim(inside), "<function=")
        case None => None
        case Some(functionBody) =>
          match Find(functionBody, ">")
          case None => None
          case Some(nameEnd) =>
            var functionRest := functionBody[nameEnd + 1..];
            match Find(functionRest, "</function>")
            case None => None
            case Some(functionEnd) =>
              Some((Trim(functionBody[..nameEnd]), functionRest[..functionEnd]))
  }

  function ParseBlock(reader: JsonReader, block: string, toolUseId: string): Option<Event> {
    match BlockHeader(block)
    case None => None
    case Some((toolName, parameters)) =>
      match ParseParameters(reader, parameters, map[])
      case None => None
      case Some(arguments) => Some(ToolCall(toolUseId, toolName, JsonObject(arguments)))
  }

  method ParseToolCallBlock(reader: JsonReader, block: string, toolUseId: string)
    returns (event: Option<Event>)
    ensures event == ParseBlock(reader, block, toolUseId)
  {
    hide Find, Trim, TrimStart, ParameterValue, BlockHeader;
    var header := BlockHeader(block);
    if header.None? {
      return None;
    }
    var (toolName, remaining) := header.value;
    var arguments := map[];
    while true
      invariant ParseParameters(reader, remaining, arguments)
             == ParseParameters(reader, header.value.1, map[])
      decreases |remaining|
    {
      var trimmed := TrimStart(remaining);
      if trimmed == "" {
        break;
      }
      var parameterBody := StripPrefix(trimmed, "<parameter=");
      if parameterBody.None? {
        return None;
      }
      var nameEnd := Find(parameterBody.value, ">");
      if nameEnd.None? {
        return None;
      }
      var name := Trim(parameterBody.value[..nameEnd.value]);
      var parameterRest := parameterBody.value[nameEnd.value + 1..];
      var end := Find(parameterRest, "</parameter>");
      if end.None? {
        return None;
      }
      arguments := arguments[name := ParameterValue(reader, parameterRest[..end.value])];
      remaining := parameterRest[end.value + |"</parameter>"|..];
    }
    event := Some(ToolCall(toolUseId, toolName, JsonObject(arguments)));
  }
}
