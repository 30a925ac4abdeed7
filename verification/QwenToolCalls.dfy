/**
  The incremental decoder for tool calls in Qwen text
  (crates/quine-llm/src/openai_compat.rs).  A block `<tool_call> ... </tool_call>`
  becomes a tool call; everything else is visible text.  The decoder sees the
  text in arbitrary chunks and holds back a tail that might be the start of a tag.
 */
module QwenToolCalls {
  import opened Strings
  import opened Decimals
  import opened QwenBlocks

  function ToolUseId(index: nat): string {
    "qwen-tool-call-" + Decimal(index)
  }

  /** Turns the complete block with the given ordinal into an event. */
  type BlockReader = (string, nat) -> Event

  /** A block that does not parse is shown as text. */
  function BlockEvents(reader: JsonReader): BlockReader {
    (block: string, index: nat) =>
      match ParseBlock(reader, block, ToolUseId(index))
      case Some(event) => event
      case None => TextDelta(block)
  }

  function TextEvent(text: string): seq<Event> {
    if text == "" then [] else [TextDelta(text)]
  }

  /** How much of a text without an opening tag can be shown at once. */
  function SafePrefixLen(text: string): (len: nat)
    ensures len <= |text|
    ensures IsSafePrefix(text, len)
  {
    match FindLastChar(text, '<')
    case Some(index) =>
      FindsCharacter(text[index..], '>');
      if !Contains(text[index..], ">") then
        assert IsUnclosed(text, index);
        index
      else
        assert forall i | 0 <= i < |text| && text[i] == '<' :: i <= index;
        |text|
    case None => |text|
  }

  /** What is held back starts at the last '<' and has no '>'; nothing is held back exactly when there is no such place. */
  ghost predicate IsSafePrefix(text: string, len: nat)
    requires len <= |text|
  {
    && (len < |text| ==> IsUnclosed(text, len))
    && (len == |text| <==> forall i | 0 <= i < |text| :: !IsUnclosed(text, i))
  }

  /** The last '<' of a text, with no '>' behind it. */
  predicate IsUnclosed(text: string, at: nat)
    requires at < |text|
  {
    && text[at] == '<'
    && forall k | at < k < |text| :: text[k] != '<' && text[k] != '>'
  }

  datatype Progress = Progress(events: seq<Event>, pending: string, used: nat)

  /** What one push does with the pending text: the events added, the text still pending, the identifiers used. */
  function Drain(read: BlockReader, text: string, events: seq<Event>, used: nat): Progress
    decreases |text|
  {
    match Find(text, OPEN)
    case Some(start) =>
      var shown := events + TextEvent(text[..start]);
      var fromTag := text[start..];
      (match Find(fromTag, CLOSE)
       case Some(endStart) =>
         var end := endStart + |CLOSE|;
         Drain(read, fromTag[end..], shown + [read(fromTag[..end], used + 1)], used + 1)
       case None => Progress(shown, fromTag, used))
    case None =>
      var len := SafePrefixLen(text);
      Progress(events + TextEvent(text[..len]), text[len..], used)
  }

  /** One round of Drain, for proofs. */
  lemma DrainStep(read: BlockReader, text: string, events: seq<Event>, used: nat)
    ensures
      var len := SafePrefixLen(text);
      Find(text, OPEN).None? ==>
        Drain(read, text, events, used) == Progress(events + TextEvent(text[..len]), text[len..], used)
    ensures
      Find(text, OPEN).Some? ==>
        var start := Find(text, OPEN).value;
        var shown, fromTag := events + TextEvent(text[..start]), text[start..];
        if Find(fromTag, CLOSE).None? then Drain(read, text, events, used) == Progress(shown, fromTag, used)
        else
          var end := Find(fromTag, CLOSE).value + |CLOSE|;
          Drain(read, text, events, used)
          == Drain(read, fromTag[end..], shown + [read(fromTag[..end], used + 1)], used + 1)
  {
    hide Find, SafePrefixLen, IsSafePrefix;
  }

  class QwenToolCallParser {
    const reader: JsonReader
    var pending: string
    var nextToolCallIndex: nat

    constructor (reader: JsonReader)
      ensures this.reader == reader && pending == "" && nextToolCallIndex == 0
    {
      this.reader := reader;
      pending := "";
      nextToolCallIndex := 0;
    }

    method NextToolUseId() returns (id: string)
      modifies this`nextToolCallIndex
      ensures nextToolCallIndex == old(nextToolCallIndex) + 1
      ensures id == ToolUseId(nextToolCallIndex)
    {
      nextToolCallIndex := nextToolCallIndex + 1;
      id := "qwen-tool-call-" + Decimal(nextToolCallIndex);
    }

    /** A complete block always uses up an identifier, even when it turns out not to parse. */
    method ReadBlock(block: string) returns (event: Event)
      modifies this`nextToolCallIndex
      ensures nextToolCallIndex == old(nextToolCallIndex) + 1
      ensures event == BlockEvents(reader)(block, nextToolCallIndex)
    {
      var id := NextToolUseId();
      var call := ParseToolCallBlock(reader, block, id);
      match call {
        case Some(e) => event := e;
        case None => event := TextDelta(block);
      }
    }

    method PushText(text: string) returns (events: seq<Event>)
      modifies this
      ensures Progress(events, pending, nextToolCallIndex)
           == Drain(BlockEvents(reader), old(pending) + text, [], old(nextToolCallIndex))
    {
      hide ParseBlock, Find, SafePrefixLen, IsSafePrefix, Drain, BlockEvents;
      pending := pending + text;
      events := [];
      while true
        invariant Drain(BlockEvents(reader), pending, events, nextToolCallIndex)
               == Drain(BlockEvents(reader), old(pending) + text, [], old(nextToolCallIndex))
        decreases |pending|
      {
        DrainStep(BlockEvents(reader), pending, events, nextToolCallIndex);
        var start := Find(pending, OPEN);
        if start.Some? {
          ghost var fromTag, shown := pending[start.value..], events + TextEvent(pending[..start.value]);
          if start.value > 0 {
            events := events + [TextDelta(pending[..start.value])];
            pending := pending[start.value..];
          }
          assert pending == fromTag && events == shown;
          var endStart := Find(pending, CLOSE);
          if endStart.Some? {
            var end := endStart.value + |CLOSE|;
            var block := pending[..end];
            pending := pending[end..];
            var event := ReadBlock(block);
            events := events + [event];
            continue;
          }
          break;
        }
        var safePrefixLen := SafePrefixLen(pending);
        ghost var held, all := pending[safePrefixLen..], events + TextEvent(pending[..safePrefixLen]);
        if safePrefixLen > 0 {
          events := events + [TextDelta(pending[..safePrefixLen])];
          pending := pending[safePrefixLen..];
        }
        assert pending == held && events == all;
        break;
      }
      assert Progress(events, pending, nextToolCallIndex)
          == Drain(BlockEvents(reader), old(pending) + text, [], old(nextToolCallIndex));
    }

    method Finish() returns (events: seq<Event>)
      modifies this`pending
      ensures events == TextEvent(old(pending)) && pending == ""
    {
      if pending == "" {
        events := [];
      } else {
        events := [TextDelta(pending)];
        pending := "";
      }
    }
  }
}
