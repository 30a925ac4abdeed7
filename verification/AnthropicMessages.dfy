/**
  Turning a conversation into the message list of the Anthropic API (convert_messages in
  crates/quine-llm/src/anthropic.rs): consecutive tool results share one user message.
 */
module AnthropicMessages {
  import opened Wrappers
  import opened QwenBlocks
  import opened Messages
  import opened Compaction
  import opened CompactionRuns

  datatype Block =
    | TextBlock(text: string)
    | ToolUseBlock(id: string, name: string, input: Json)
    | ToolResultBlock(toolUseId: string, content: string, isError: bool)

  datatype ApiContent = Plain(text: string) | Blocks(blocks: seq<Block>)

  datatype ApiRole = ApiUser | ApiAssistant

  datatype ApiMessage = ApiMessage(role: ApiRole, content: ApiContent)

  function CallBlocks(calls: seq<ToolUseRequest>): seq<Block> {
    seq(|calls|, i requires 0 <= i < |calls| => ToolUseBlock(calls[i].toolUseId, calls[i].toolName, calls[i].arguments))
  }

  function ToolUseBlocks(lead: Option<string>, calls: seq<ToolUseRequest>): seq<Block> {
    (if lead.Some? then [TextBlock(lead.value)] else []) + CallBlocks(calls)
  }

  predicate AllResults(blocks: seq<Block>) {
    forall i | 0 <= i < |blocks| :: blocks[i].ToolResultBlock?
  }

  /** A message that further tool results are merged into. */
  predicate TakesResults(m: ApiMessage) {
    m.role == ApiUser && m.content.Blocks? && AllResults(m.content.blocks)
  }

  function WithResult(api: seq<ApiMessage>, block: Block): seq<ApiMessage> {
    if api != [] && TakesResults(api[|api| - 1]) then
      api[|api| - 1 := ApiMessage(ApiUser, Blocks(api[|api| - 1].content.blocks + [block]))]
    else
      api + [ApiMessage(ApiUser, Blocks([block]))]
  }

  function ConvertOne(api: seq<ApiMessage>, m: Message): seq<ApiMessage> {
    match (m.role, m.content)
    case (User, Text(text)) => api + [ApiMessage(ApiUser, Plain(text))]
    case (Assistant, Text(text)) => api + [ApiMessage(ApiAssistant, Plain(text))]
    case (Assistant, ToolUse(lead, calls)) => api + [ApiMessage(ApiAssistant, Blocks(ToolUseBlocks(lead, calls)))]
    case (Tool, ToolResult(id, output, isError)) => WithResult(api, ToolResultBlock(id, output, isError))
    case _ => api
  }

  function Converted(messages: seq<Message>): seq<ApiMessage> {
    if messages == [] then []
    else ConvertOne(Converted(messages[..|messages| - 1]), messages[|messages| - 1])
  }

  /** The text of the last system message. */
  function SystemPrompt(messages: seq<Message>): Option<string> {
    if messages == [] then None
    else
      var last := messages[|messages| - 1];
      if last.role == System && last.content.Text? then Some(last.content.text)
      else SystemPrompt(messages[..|messages| - 1])
  }

  method ConvertMessages(messages: seq<Message>) returns (system: Option<string>, apiMessages: seq<ApiMessage>)
    ensures system == SystemPrompt(messages) && apiMessages == Converted(messages)
  {
    system, apiMessages := None, [];
    for i := 0 to |messages|
      invariant system == SystemPrompt(messages[..i]) && apiMessages == Converted(messages[..i])
    {
      assert messages[..i + 1][..i] == messages[..i];
      var msg := messages[i];
      match msg.role {
        case System =>
          if msg.content.Text? {
            system := Some(msg.content.text);
          }
        case User =>
          if msg.content.Text? {
            apiMessages := apiMessages + [ApiMessage(ApiUser, Plain(msg.content.text))];
          }
        case Assistant =>
          match msg.content {
            case Text(text) => apiMessages := apiMessages + [ApiMessage(ApiAssistant, Plain(text))];
            case ToolUse(lead, calls) =>
              var blocks := [];
              if lead.Some? {
                blocks := blocks + [TextBlock(lead.value)];
              }
              blocks := AppendCalls(blocks, calls);
              assert blocks == ToolUseBlocks(lead, calls);
              apiMessages := apiMessages + [ApiMessage(ApiAssistant, Blocks(blocks))];
            case _ =>
          }
        case Tool =>
          if msg.content.ToolResult? {
            var block := ToolResultBlock(msg.content.toolUseId, msg.content.output, msg.content.isError);
            if apiMessages != [] && TakesResults(apiMessages[|apiMessages| - 1]) {
              var last := apiMessages[|apiMessages| - 1];
              apiMessages := apiMessages[|apiMessages| - 1 := last.(content := Blocks(last.content.blocks + [block]))];
            } else {
              apiMessages := apiMessages + [ApiMessage(ApiUser, Blocks([block]))];
            }
          }
      }
    }
    assert messages[..|messages|] == messages;
  }

  method AppendCalls(start: seq<Block>, calls: seq<ToolUseRequest>) returns (blocks: seq<Block>)
    ensures blocks == start + CallBlocks(calls)
  {
    blocks := start;
    for i := 0 to |calls|
      invariant blocks == start + CallBlocks(calls[..i])
    {
      blocks := blocks + [ToolUseBlock(calls[i].toolUseId, calls[i].toolName, calls[i].arguments)];
    }
    assert calls[..|calls|] == calls;
  }

  // ----- Reading the conversation back -----

  function CallsOf(blocks: seq<Block>): seq<ToolUseRequest> {
    if blocks == [] then []
    else
      CallsOf(blocks[..|blocks| - 1])
      + match blocks[|blocks| - 1]
        case ToolUseBlock(id, name, input) => [ToolUseRequest(id, name, input)]
        case _ => []
  }

  function ResultsOf(blocks: seq<Block>): seq<Message> {
    if blocks == [] then []
    else
      ResultsOf(blocks[..|blocks| - 1])
      + match blocks[|blocks| - 1]
        case ToolResultBlock(id, output, isError) => [Message(Tool, ToolResult(id, output, isError))]
        case _ => []
  }

  /** The conversation messages an API message stands for. */
  function ReadBack(m: ApiMessage): seq<Message> {
    match (m.role, m.content)
    case (ApiUser, Plain(text)) => [Message(User, Text(text))]
    case (ApiAssistant, Plain(text)) => [Message(Assistant, Text(text))]
    case (ApiAssistant, Blocks(blocks)) =>
      var lead := if blocks != [] && blocks[0].TextBlock? then Some(blocks[0].text) else None;
      [Message(Assistant, ToolUse(lead, CallsOf(blocks)))]
    case (ApiUser, Blocks(blocks)) => ResultsOf(blocks)
  }

  function Flattened(api: seq<ApiMessage>): seq<Message> {
    if api == [] then [] else Flattened(api[..|api| - 1]) + ReadBack(api[|api| - 1])
  }

  function NonSystem(messages: seq<Message>): seq<Message> {
    if messages == [] then []
    else
      var last := messages[|messages| - 1];
      NonSystem(messages[..|messages| - 1]) + if last.role == System then [] else [last]
  }

  lemma {:induction false} CallsReadBack(front: seq<Block>, calls: seq<ToolUseRequest>)
    requires forall b | b in front :: b.TextBlock?
    ensures CallsOf(front + CallBlocks(calls)) == calls
  {
    var blocks := front + CallBlocks(calls);
    if calls == [] {
      assert blocks == front;
      NoCallsInText(front);
    } else {
      var rest := calls[..|calls| - 1];
      CallsReadBack(front, rest);
      assert blocks[..|blocks| - 1] == front + CallBlocks(rest);
      assert calls == rest + [calls[|calls| - 1]];
    }
  }

  lemma {:induction false} NoCallsInText(blocks: seq<Block>)
    requires forall b | b in blocks :: b.TextBlock?
    ensures CallsOf(blocks) == []
  {
    if blocks != [] {
      assert blocks[|blocks| - 1] in blocks;
      NoCallsInText(blocks[..|blocks| - 1]);
    }
  }

  lemma FlattenedAdd(api: seq<ApiMessage>, m: ApiMessage)
    ensures Flattened(api + [m]) == Flattened(api) + ReadBack(m)
  {
    assert (api + [m])[..|api|] == api;
  }

  lemma ResultReadsBack(api: seq<ApiMessage>, id: string, output: string, isError: bool)
    ensures Flattened(WithResult(api, ToolResultBlock(id, output, isError)))
         == Flattened(api) + [Message(Tool, ToolResult(id, output, isError))]
  {
    var block, message := ToolResultBlock(id, output, isError), Message(Tool, ToolResult(id, output, isError));
    if api != [] && TakesResults(api[|api| - 1]) {
      var front, blocks := api[..|api| - 1], api[|api| - 1].content.blocks;
      assert (blocks + [block])[..|blocks|] == blocks;
      assert WithResult(api, block) == front + [ApiMessage(ApiUser, Blocks(blocks + [block]))];
      FlattenedAdd(front, ApiMessage(ApiUser, Blocks(blocks + [block])));
      assert Flattened(front) + (ResultsOf(blocks) + [message]) == Flattened(front) + ResultsOf(blocks) + [message];
    } else {
      assert [block][..0] == [];
      assert ResultsOf([block]) == [message];
      FlattenedAdd(api, ApiMessage(ApiUser, Blocks([block])));
    }
  }

  lemma ToolUseReadsBack(lead: Option<string>, calls: seq<ToolUseRequest>)
    ensures ReadBack(ApiMessage(ApiAssistant, Blocks(ToolUseBlocks(lead, calls)))) == [Message(Assistant, ToolUse(lead, calls))]
  {
    CallsReadBack(if lead.Some? then [TextBlock(lead.value)] else [], calls);
  }

  /** Converting a message adds the message itself when its role fits its content, and nothing otherwise. */
  lemma OneReadsBack(api: seq<ApiMessage>, m: Message)
    ensures Flattened(ConvertOne(api, m))
         == Flattened(api) + if m.role != System && RoleConsistent(m) then [m] else []
  {
    hide Flattened, ReadBack, WithResult, ToolUseBlocks;
    match (m.role, m.content)
    case (User, Text(text)) =>
      FlattenedAdd(api, ApiMessage(ApiUser, Plain(text)));
      PlainReadsBack(text);
    case (Assistant, Text(text)) =>
      FlattenedAdd(api, ApiMessage(ApiAssistant, Plain(text)));
      PlainReadsBack(text);
    case (Assistant, ToolUse(lead, calls)) =>
      FlattenedAdd(api, ApiMessage(ApiAssistant, Blocks(ToolUseBlocks(lead, calls))));
      ToolUseReadsBack(lead, calls);
    case (Tool, ToolResult(id, output, isError)) => ResultReadsBack(api, id, output, isError);
    case _ =>
  }

  lemma PlainReadsBack(text: string)
    ensures ReadBack(ApiMessage(ApiUser, Plain(text))) == [Message(User, Text(text))]
    ensures ReadBack(ApiMessage(ApiAssistant, Plain(text))) == [Message(Assistant, Text(text))]
  {
  }

  lemma {:induction false} FlattenedIsBounded(messages: seq<Message>)
    ensures |Flattened(Converted(messages))| <= |NonSystem(messages)|
  {
    hide ConvertOne, Flattened;
    if messages == [] {
      NothingFlattened();
    } else {
      FlattenedIsBounded(messages[..|messages| - 1]);
      OneReadsBack(Converted(messages[..|messages| - 1]), messages[|messages| - 1]);
    }
  }

  lemma NothingFlattened()
    ensures Flattened([]) == []
  {
  }

  /**
    Main result: reading the converted messages back gives all non-system messages, in
    order, exactly when each of them carries the content of its role.
   */
  lemma {:induction false} ConversionLosesNothingIff(messages: seq<Message>)
    ensures Flattened(Converted(messages)) == NonSystem(messages)
       <==> forall m | m in messages && m.role != System :: RoleConsistent(m)
  {
    hide ConvertOne, Flattened, RoleConsistent;
    if messages == [] {
      NothingFlattened();
    } else {
      var front, last := messages[..|messages| - 1], messages[|messages| - 1];
      assert messages == front + [last];
      assert forall m :: m in messages <==> m in front || m == last;
      ConversionLosesNothingIff(front);
      FlattenedIsBounded(front);
      OneReadsBack(Converted(front), last);
      if last.role != System && RoleConsistent(last) {
        SameEnd(Flattened(Converted(front)), NonSystem(front), last);
      } else {
        assert Flattened(Converted(messages)) == Flattened(Converted(front));
        assert last.role == System ==> NonSystem(messages) == NonSystem(front);
        assert last.role != System ==> |NonSystem(messages)| == |NonSystem(front)| + 1;
      }
    }
  }

  lemma SameEnd(a: seq<Message>, b: seq<Message>, m: Message)
    ensures a + [m] == b + [m] <==> a == b
  {
    assert (a + [m])[..|a|] == a && (b + [m])[..|b|] == b;
  }

  // ----- Alternation -----

  /** Two messages of tool results are never next to each other. */
  lemma {:induction false} ResultsNeverAdjacent(messages: seq<Message>)
    ensures forall i | 0 < i < |Converted(messages)| ::
              !(TakesResults(Converted(messages)[i - 1]) && TakesResults(Converted(messages)[i]))
  {
    hide ToolUseBlocks;
    if messages != [] {
      ResultsNeverAdjacent(messages[..|messages| - 1]);
    }
  }

  // ----- Results follow their tool use -----

  /** The tool use ids a message offers to the results behind it. */
  predicate Offers(m: ApiMessage, id: string) {
    m.role == ApiAssistant && m.content.Blocks? &&
    exists k :: 0 <= k < |m.content.blocks| && m.content.blocks[k].ToolUseBlock? && m.content.blocks[k].id == id
  }

  ghost predicate ResultsFollow(api: seq<ApiMessage>) {
    forall i | 0 <= i < |api| && TakesResults(api[i]) ::
      i > 0 && forall k | 0 <= k < |api[i].content.blocks| :: Offers(api[i - 1], api[i].content.blocks[k].toolUseId)
  }

  /** How the end of the converted list reflects the end of the conversation. */
  ghost predicate EndMatches(messages: seq<Message>, api: seq<ApiMessage>) {
    var start := RunStart(messages, |messages|);
    if start == |messages| then
      start > 0 && messages[start - 1].role != System ==>
        && api != []
        && (IsToolUse(messages[start - 1]) ==> IsConversionOf(api[|api| - 1], messages[start - 1]))
        && !TakesResults(api[|api| - 1])
    else
      && |api| >= 1 && TakesResults(api[|api| - 1])
      && (start > 0 && IsToolUse(messages[start - 1]) ==> |api| >= 2 && IsConversionOf(api[|api| - 2], messages[start - 1]))
  }

  ghost predicate IsConversionOf(api: ApiMessage, m: Message) {
    IsToolUse(m) && api == ApiMessage(ApiAssistant, Blocks(ToolUseBlocks(m.content.lead, m.content.toolCalls)))
  }

  lemma ConversionOffers(api: ApiMessage, m: Message, id: string)
    requires IsConversionOf(api, m) && Names(m, id)
    ensures Offers(api, id)
  {
    var calls := m.content.toolCalls;
    var k :| 0 <= k < |calls| && calls[k].toolUseId == id;
    var at := k + if m.content.lead.Some? then 1 else 0;
    assert api.content.blocks[at] == CallBlocks(calls)[k];
  }

  lemma ResultStep(front: seq<Message>, api: seq<ApiMessage>, m: Message)
    requires IsToolResult(m) && m.role == Tool && Anchored(front, |front|, m.content.toolUseId)
    requires EndMatches(front, api) && ResultsFollow(api)
    requires forall k | k in front :: RoleConsistent(k)
    ensures ResultsFollow(ConvertOne(api, m)) && EndMatches(front + [m], ConvertOne(api, m))
  {
    hide ToolUseBlocks, Names, Offers;
    var start, after := RunStart(front, |front|), ConvertOne(api, m);
    var block := ToolResultBlock(m.content.toolUseId, m.content.output, m.content.isError);
    var use := front[start - 1];
    NamesIsToolUse(use, m.content.toolUseId);
    assert use in front && use.role != System;
    RunStartPrefix(front + [m], front, |front|);
    assert (front + [m])[|front|] == m;
    if start == |front| {
      ConversionOffers(api[|api| - 1], use, m.content.toolUseId);
      assert after == api + [ApiMessage(ApiUser, Blocks([block]))];
    } else {
      ConversionOffers(api[|api| - 2], use, m.content.toolUseId);
      assert |after| == |api| && after[|api| - 1].content.blocks == api[|api| - 1].content.blocks + [block];
    }
  }

  lemma NamesIsToolUse(m: Message, id: string)
    requires Names(m, id)
    ensures IsToolUse(m)
  {
  }

  lemma OtherStep(front: seq<Message>, api: seq<ApiMessage>, m: Message)
    requires !IsToolResult(m) && RoleConsistent(m)
    requires ResultsFollow(api)
    ensures ResultsFollow(ConvertOne(api, m)) && EndMatches(front + [m], ConvertOne(api, m))
  {
    var after := ConvertOne(api, m);
    assert (front + [m])[|front|] == m;
    assert RunStart(front + [m], |front| + 1) == |front| + 1;
    assert m.role != System ==> |after| == |api| + 1 && !TakesResults(after[|api|]);
  }

  lemma {:induction false} ConversionKeepsPairs(messages: seq<Message>)
    requires WellFormed(messages) && RolesConsistent(messages)
    ensures ResultsFollow(Converted(messages)) && EndMatches(messages, Converted(messages))
  {
    hide ResultsFollow, EndMatches, ConvertOne, RoleConsistent, Anchored;
    if messages == [] {
      NothingToFollow();
    } else {
      var front, last := messages[..|messages| - 1], messages[|messages| - 1];
      assert messages == front + [last];
      assert last in messages && forall m | m in front :: m in messages;
      FrontIsWellFormed(messages);
      ConversionKeepsPairs(front);
      if IsToolResult(last) {
        RoleOfResult(last);
        LastIsAnchored(messages);
        ResultStep(front, Converted(front), last);
      } else {
        OtherStep(front, Converted(front), last);
      }
    }
  }

  lemma NothingToFollow()
    ensures ResultsFollow([]) && EndMatches([], [])
  {
  }

  lemma RoleOfResult(m: Message)
    requires IsToolResult(m) && RoleConsistent(m)
    ensures m.role == Tool
  {
  }

  lemma FrontIsWellFormed(messages: seq<Message>)
    requires messages != [] && WellFormed(messages)
    ensures WellFormed(messages[..|messages| - 1])
  {
    var front := messages[..|messages| - 1];
    forall i | 0 <= i < |front| && IsToolResult(front[i])
      ensures Anchored(front, i, front[i].content.toolUseId)
    {
      assert Anchored(messages, i, messages[i].content.toolUseId);
      RunStartPrefix(messages, front, i);
    }
  }

  lemma LastIsAnchored(messages: seq<Message>)
    requires messages != [] && WellFormed(messages) && IsToolResult(messages[|messages| - 1])
    ensures var last := |messages| - 1; Anchored(messages[..last], last, messages[last].content.toolUseId)
  {
    var last := |messages| - 1;
    assert Anchored(messages, last, messages[last].content.toolUseId);
    RunStartPrefix(messages, messages[..last], last);
  }

  /**
    Main result: after any run of appends, archiving and compactions, every message of
    tool results directly follows the assistant message whose tool uses name its ids.
   */
  lemma ConvertedRunsKeepPairs(ops: seq<Op>, history: seq<Message>)
    requires Runs(ops, history)
    ensures ResultsFollow(Converted(history))
    ensures Flattened(Converted(history)) == NonSystem(history)
  {
    RunsStayWellFormed(ops, history);
    ConversionKeepsPairs(history);
    ConversionLosesNothingIff(history);
  }

  // ----- The system prompt -----

  predicate IsPrompt(m: Message) {
    m.role == System && m.content.Text?
  }

  ghost predicate LastPromptAt(messages: seq<Message>, i: nat) {
    i < |messages| && IsPrompt(messages[i]) && forall j | i < j < |messages| :: !IsPrompt(messages[j])
  }

  /** Main result: the system prompt is the text of the last system message that is a text, if there is one. */
  lemma {:induction false} PromptIsLast(messages: seq<Message>) returns (at: nat)
    ensures SystemPrompt(messages) == None <==> forall i | 0 <= i < |messages| :: !IsPrompt(messages[i])
    ensures SystemPrompt(messages).Some? ==> LastPromptAt(messages, at) && SystemPrompt(messages) == Some(messages[at].content.text)
  {
    at := 0;
    if messages != [] {
      var front, last := messages[..|messages| - 1], messages[|messages| - 1];
      var before := PromptIsLast(front);
      assert forall i | 0 <= i < |front| :: messages[i] == front[i];
      at := if IsPrompt(last) then |front| else before;
      assert !IsPrompt(last) ==> SystemPrompt(messages) == SystemPrompt(front);
    }
  }

  /** What each message becomes on its own. */
  lemma OneConverts(m: Message)
    ensures m.role == User && m.content.Text? ==> Converted([m]) == [ApiMessage(ApiUser, Plain(m.content.text))]
    ensures m.role == Assistant && m.content.Text? ==> Converted([m]) == [ApiMessage(ApiAssistant, Plain(m.content.text))]
    ensures m.role == Tool && m.content.ToolResult? ==>
              Converted([m]) == [ApiMessage(ApiUser, Blocks([ToolResultBlock(m.content.toolUseId, m.content.output, m.content.isError)]))]
    ensures m.role == Assistant && m.content.ToolUse? ==>
              var calls := m.content.toolCalls;
              Converted([m]) == [ApiMessage(ApiAssistant, Blocks(
                (if m.content.lead.Some? then [TextBlock(m.content.lead.value)] else [])
                + seq(|calls|, i requires 0 <= i < |calls| =>
                    ToolUseBlock(calls[i].toolUseId, calls[i].toolName, calls[i].arguments))))]
    ensures m.role == System ==> Converted([m]) == []
  {
    assert [m][..0] == [];
  }
}
