/**
  The decoding loop of an Anthropic response stream (chat_stream in
  crates/quine-llm/src/anthropic.rs): blocks separated by an empty line are taken from a
  buffer that grows by whatever the transport delivers.
 */
module AnthropicStream {
  import opened Wrappers
  import opened Strings
  import opened QwenBlocks
  import opened ToolCallAccumulation
  import opened AnthropicToolCalls

  const SEPARATOR := "\n\n"

  /** What one block says. */
  datatype Signal =
    | ToolStart(index: Option<nat>, id: string, name: string)
    | ArgumentsDelta(index: Option<nat>, partialJson: string)
    | TextPart(text: string)
    | UsageReport(outputTokens: nat)
    | MessageStop
    | Ignored

  /** Reading the lines and the JSON of one block is left to a library. */
  type SseReader = string -> Signal

  datatype Output = Content(event: Event) | Done(outputTokens: Option<nat>)

  datatype Decoding = Decoding(tracked: Tracked, usage: Option<nat>)

  const FRESH := Decoding(UNTRACKED, None)

  function OpsOf(signal: Signal): seq<Op> {
    match signal
    case ToolStart(index, id, name) => [StartTool(if index.Some? then index.value else 0, id, name)]
    case ArgumentsDelta(Some(index), json) => [AppendArguments(index, json)]
    case _ => []
  }

  function TextOf(signal: Signal): seq<Output> {
    if signal.TextPart? && signal.text != "" then [Content(TextDelta(signal.text))] else []
  }

  function Handled(d: Decoding, signal: Signal): Decoding {
    Decoding(TrackAll(d.tracked, OpsOf(signal)), if signal.UsageReport? then Some(signal.outputTokens) else d.usage)
  }

  function Contents(events: seq<Event>): seq<Output> {
    seq(|events|, i requires 0 <= i < |events| => Content(events[i]))
  }

  function Finished(reader: JsonReader, d: Decoding): seq<Output> {
    Contents(Announced(reader, d.tracked.calls)) + [Done(d.usage)]
  }

  /** Decoding a text that is known as a whole. */
  function Decoded(read: SseReader, reader: JsonReader, d: Decoding, text: string): seq<Output>
    decreases |text|
  {
    match Find(text, SEPARATOR)
    case None => Finished(reader, d)
    case Some(at) =>
      var signal := read(text[..at]);
      if signal.MessageStop? then Finished(reader, d)
      else TextOf(signal) + Decoded(read, reader, Handled(d, signal), text[at + 2..])
  }

  method FinishCalls(tracker: ToolCallTracker, reader: JsonReader, usage: Option<nat>) returns (outputs: seq<Output>)
    ensures outputs == Finished(reader, Decoding(tracker.Abstract(), usage))
  {
    var events := tracker.TakeCompleted(reader);
    outputs := Contents(events) + [Done(usage)];
  }

  method HandleSignal(tracker: ToolCallTracker, usage: Option<nat>, signal: Signal)
    returns (texts: seq<Output>, after: Option<nat>)
    modifies tracker
    ensures texts == TextOf(signal)
    ensures Decoding(tracker.Abstract(), after) == Handled(Decoding(old(tracker.Abstract()), usage), signal)
  {
    texts, after := [], usage;
    match signal {
      case ToolStart(index, id, name) =>
        tracker.Start(if index.Some? then index.value else 0, id, name);
        TrackOne(old(tracker.Abstract()), OpsOf(signal)[0]);
      case ArgumentsDelta(index, json) =>
        if index.Some? {
          tracker.Append(index.value, json);
          TrackOne(old(tracker.Abstract()), OpsOf(signal)[0]);
        }
      case TextPart(text) =>
        if text != "" {
          texts := [Content(TextDelta(text))];
        }
      case UsageReport(outputTokens) => after := Some(outputTokens);
      case _ =>
    }
  }

  lemma TrackOne(t: Tracked, op: Op)
    ensures TrackAll(t, [op]) == Track(t, op)
  {
    assert [op][1..] == [];
  }

  /** Main result: however the text is cut into chunks, decoding the stream is decoding the text. */
  method DecodeStream(read: SseReader, reader: JsonReader, chunks: seq<string>) returns (outputs: seq<Output>)
    ensures outputs == Decoded(read, reader, FRESH, Concat(chunks))
  {
    hide Find, Handled, TextOf, Finished, Decoded, Concat;
    var tracker := new ToolCallTracker();
    var buffer, usage: Option<nat>, next: nat := "", None, 0;
    outputs := [];
    assert chunks[0..] == chunks && "" + Concat(chunks) == Concat(chunks);
    assert [] + Decoded(read, reader, FRESH, Concat(chunks)) == Decoded(read, reader, FRESH, Concat(chunks));
    while true
      invariant next <= |chunks| && fresh(tracker)
      invariant outputs + Decoded(read, reader, Decoding(tracker.Abstract(), usage), buffer + Concat(chunks[next..]))
             == Decoded(read, reader, FRESH, Concat(chunks))
      decreases |chunks| - next, |buffer|
    {
      ghost var state, rest := Decoding(tracker.Abstract(), usage), Concat(chunks[next..]);
      var at := Find(buffer, SEPARATOR);
      if at.Some? {
        var signal := read(buffer[..at.value]);
        DecodeBlock(read, reader, state, buffer, rest);
        if signal.MessageStop? {
          var last := FinishCalls(tracker, reader, usage);
          return outputs + last;
        }
        buffer := buffer[at.value + 2..];
        var texts;
        texts, usage := HandleSignal(tracker, usage, signal);
        outputs := Emit(outputs, texts, Decoded(read, reader, Handled(state, signal), buffer + rest));
      } else if next < |chunks| {
        assert chunks[next..] == [chunks[next]] + chunks[next + 1..];
        ConcatFirst(chunks[next], chunks[next + 1..]);
        SameText(buffer, chunks[next], Concat(chunks[next + 1..]));
        buffer := buffer + chunks[next];
        next := next + 1;
      } else {
        NothingLeft(chunks, next);
        assert buffer + "" == buffer;
        DecodeEnd(read, reader, state, buffer);
        var last := FinishCalls(tracker, reader, usage);
        return outputs + last;
      }
    }
  }

  lemma NothingLeft(chunks: seq<string>, next: nat)
    requires next == |chunks|
    ensures Concat(chunks[next..]) == ""
  {
  }

  method Emit(outputs: seq<Output>, texts: seq<Output>, ghost more: seq<Output>) returns (after: seq<Output>)
    ensures after == outputs + texts && after + more == outputs + (texts + more)
  {
    after := outputs + texts;
  }

  /** A separator that is in the buffer stays the first one, whatever follows. */
  lemma DecodeBlock(read: SseReader, reader: JsonReader, d: Decoding, buffer: string, rest: string)
    requires Find(buffer, SEPARATOR).Some?
    ensures
      var at := Find(buffer, SEPARATOR).value;
      var signal := read(buffer[..at]);
      Decoded(read, reader, d, buffer + rest)
      == if signal.MessageStop? then Finished(reader, d)
         else TextOf(signal) + Decoded(read, reader, Handled(d, signal), buffer[at + 2..] + rest)
  {
    hide Find, Handled, TextOf, Finished;
    FindExtend(buffer, rest, SEPARATOR);
    var at := Find(buffer, SEPARATOR).value;
    assert (buffer + rest)[..at] == buffer[..at] && (buffer + rest)[at + 2..] == buffer[at + 2..] + rest;
  }

  lemma DecodeEnd(read: SseReader, reader: JsonReader, d: Decoding, buffer: string)
    requires Find(buffer, SEPARATOR) == None
    ensures Decoded(read, reader, d, buffer) == Finished(reader, d)
  {
  }

  // ----- What a text says -----

  /** What the blocks before the first stop say; a block without its separator is not read. */
  function Signals(read: SseReader, text: string): seq<Signal>
    decreases |text|
  {
    match Find(text, SEPARATOR)
    case None => []
    case Some(at) =>
      if read(text[..at]).MessageStop? then [] else [read(text[..at])] + Signals(read, text[at + 2..])
  }

  function AllOps(signals: seq<Signal>): seq<Op> {
    if signals == [] then [] else OpsOf(signals[0]) + AllOps(signals[1..])
  }

  function AllTexts(signals: seq<Signal>): seq<Output> {
    if signals == [] then [] else TextOf(signals[0]) + AllTexts(signals[1..])
  }

  function LastUsage(signals: seq<Signal>): Option<nat> {
    if signals == [] then None
    else if signals[|signals| - 1].UsageReport? then Some(signals[|signals| - 1].outputTokens)
    else LastUsage(signals[..|signals| - 1])
  }

  lemma {:induction false} TrackJoined(t: Tracked, a: seq<Op>, b: seq<Op>)
    ensures TrackAll(t, a + b) == TrackAll(TrackAll(t, a), b)
    decreases |a|
  {
    hide Track;
    if a == [] {
      assert a + b == b;
    } else {
      assert (a + b)[1..] == a[1..] + b;
      TrackJoined(Track(t, a[0]), a[1..], b);
    }
  }

  lemma {:induction false} LastUsageFrom(signal: Signal, rest: seq<Signal>)
    ensures LastUsage([signal] + rest)
         == if LastUsage(rest).Some? then LastUsage(rest)
            else if signal.UsageReport? then Some(signal.outputTokens) else None
  {
    var all := [signal] + rest;
    if rest == [] {
      assert all[..0] == [];
    } else {
      assert all[..|all| - 1] == [signal] + rest[..|rest| - 1];
      LastUsageFrom(signal, rest[..|rest| - 1]);
    }
  }

  lemma {:induction false} DecodedFrom(read: SseReader, reader: JsonReader, d: Decoding, text: string)
    ensures
      var signals := Signals(read, text);
      Decoded(read, reader, d, text)
      == AllTexts(signals)
         + Finished(reader, Decoding(TrackAll(d.tracked, AllOps(signals)),
                                     if LastUsage(signals).Some? then LastUsage(signals) else d.usage))
    decreases |text|
  {
    hide Find, TextOf, Finished, OpsOf;
    var found := Find(text, SEPARATOR);
    if found.Some? && !read(text[..found.value]).MessageStop? {
      var signal, rest := read(text[..found.value]), text[found.value + 2..];
      var more := Signals(read, rest);
      DecodedFrom(read, reader, Handled(d, signal), rest);
      TrackJoined(d.tracked, OpsOf(signal), AllOps(more));
      LastUsageFrom(signal, more);
      assert ([signal] + more)[1..] == more;
    }
  }

  // ----- The same, in terms of what the blocks say -----

  function BlockOf(index: Option<nat>): nat {
    if index.Some? then index.value else 0
  }

  /** The JSON that is said for a block before that block is started again. */
  function JsonSaid(signals: seq<Signal>, block: nat): string {
    if signals == [] then ""
    else
      match signals[0]
      case ToolStart(index, _, _) => if BlockOf(index) == block then "" else JsonSaid(signals[1..], block)
      case ArgumentsDelta(index, json) =>
        if index == Some(block) then json + JsonSaid(signals[1..], block) else JsonSaid(signals[1..], block)
      case _ => JsonSaid(signals[1..], block)
  }

  /** One call for every tool that is started, in order; a start without an index is a start of block 0. */
  function CallsSaid(signals: seq<Signal>): seq<Call> {
    if signals == [] then []
    else
      (match signals[0]
       case ToolStart(index, id, name) => [Call(id, name, JsonSaid(signals[1..], BlockOf(index)))]
       case _ => [])
      + CallsSaid(signals[1..])
  }

  /** The texts that are not empty, in order. */
  function TextsSaid(signals: seq<Signal>): seq<Event> {
    if signals == [] then []
    else
      (match signals[0]
       case TextPart(text) => if text != "" then [TextDelta(text)] else []
       case _ => [])
      + TextsSaid(signals[1..])
  }

  /** Arguments that are no JSON count as no arguments. */
  function ReadCalls(reader: JsonReader, calls: seq<Call>): seq<Event> {
    seq(|calls|, i requires 0 <= i < |calls| =>
      ToolCall(calls[i].id, calls[i].name,
               match reader(calls[i].arguments) case Some(value) => value case None => JsonObject(map[])))
  }

  lemma {:induction false} FragmentsAreSaid(signals: seq<Signal>, block: nat)
    ensures AnthropicToolCalls.FragmentsOf(AllOps(signals), block) == JsonSaid(signals, block)
  {
    if signals != [] {
      var ops, rest := OpsOf(signals[0]), AllOps(signals[1..]);
      FragmentsAreSaid(signals[1..], block);
      if ops == [] {
        assert ops + rest == rest;
      } else {
        assert (ops + rest)[1..] == rest;
      }
    }
  }

  lemma {:induction false} CallsAreSaid(signals: seq<Signal>)
    ensures CallsStarted(AllOps(signals)) == CallsSaid(signals)
  {
    hide AnthropicToolCalls.FragmentsOf, JsonSaid;
    if signals != [] {
      var ops, rest := OpsOf(signals[0]), AllOps(signals[1..]);
      CallsAreSaid(signals[1..]);
      if ops == [] {
        assert ops + rest == rest;
      } else {
        assert (ops + rest)[1..] == rest;
        if signals[0].ToolStart? {
          FragmentsAreSaid(signals[1..], BlockOf(signals[0].index));
        }
      }
    }
  }

  lemma {:induction false} TextsAreSaid(signals: seq<Signal>)
    ensures AllTexts(signals) == Contents(TextsSaid(signals))
  {
    if signals != [] {
      TextsAreSaid(signals[1..]);
    }
  }

  lemma AnnouncedIsRead(reader: JsonReader, calls: seq<Call>)
    ensures Announced(reader, calls) == ReadCalls(reader, calls)
  {
  }

  /**
    Main result: the response is its texts in order, then one call for every started
    block with the JSON said for that block, then the last usage that was reported.
   */
  lemma DecodedMeans(read: SseReader, reader: JsonReader, text: string)
    ensures
      var signals := Signals(read, text);
      Decoded(read, reader, FRESH, text)
      == Contents(TextsSaid(signals)) + Contents(ReadCalls(reader, CallsSaid(signals))) + [Done(LastUsage(signals))]
  {
    hide Announced, Contents, ReadCalls;
    var signals := Signals(read, text);
    DecodedFrom(read, reader, FRESH, text);
    TrackerRebuildsCalls(AllOps(signals));
    CallsAreSaid(signals);
    TextsAreSaid(signals);
    AnnouncedIsRead(reader, CallsSaid(signals));
  }

  /** Blocks end at the first empty line; what follows a stop is not read, nor is a block without its empty line. */
  lemma SignalsRead(read: SseReader, block: string, rest: string)
    ensures Find(rest, "\n\n") == None ==> Signals(read, rest) == []
    ensures Find(block + ("\n\n" + rest), "\n\n") == Some(|block|) ==>
              Signals(read, block + ("\n\n" + rest))
              == if read(block).MessageStop? then [] else [read(block)] + Signals(read, rest)
  {
    hide Find;
    var text := block + ("\n\n" + rest);
    assert text[..|block|] == block && text[|block| + 2..] == rest;
  }
}
