/**
  Rebuilding tool calls from the content blocks of an Anthropic response
  (ToolCallTracker in crates/quine-llm/src/anthropic.rs).
 */
module AnthropicToolCalls {
  import opened QwenBlocks
  import opened ToolCallAccumulation

  datatype Op =
    | StartTool(blockIndex: nat, id: string, name: string)
    | AppendArguments(blockIndex: nat, json: string)

  datatype Tracked = Tracked(calls: seq<Call>, blockToTool: map<nat, nat>)

  const UNTRACKED := Tracked([], map[])

  function Track(t: Tracked, op: Op): Tracked {
    match op
    case StartTool(block, id, name) => Tracked(t.calls + [Call(id, name, "")], t.blockToTool[block := |t.calls|])
    case AppendArguments(block, json) =>
      if block in t.blockToTool && t.blockToTool[block] < |t.calls| then
        var call := t.calls[t.blockToTool[block]];
        t.(calls := t.calls[t.blockToTool[block] := call.(arguments := call.arguments + json)])
      else t
  }

  function TrackAll(t: Tracked, ops: seq<Op>): Tracked
    decreases |ops|
  {
    if ops == [] then t else TrackAll(Track(t, ops[0]), ops[1..])
  }

  /** The events of finished calls; arguments that are not JSON count as no arguments. */
  function Announced(reader: JsonReader, calls: seq<Call>): seq<Event> {
    seq(|calls|, i requires 0 <= i < |calls| =>
      ToolCall(calls[i].id, calls[i].name, ArgumentValue(reader, calls[i].arguments)))
  }

  class ToolCallTracker {
    var calls: seq<Call>
    var blockToTool: map<nat, nat>

    ghost function Abstract(): Tracked
      reads this
    {
      Tracked(calls, blockToTool)
    }

    constructor ()
      ensures Abstract() == UNTRACKED
    {
      calls, blockToTool := [], map[];
    }

    method Start(blockIndex: nat, id: string, name: string)
      modifies this
      ensures Abstract() == Track(old(Abstract()), StartTool(blockIndex, id, name))
    {
      var toolIndex := |calls|;
      blockToTool := blockToTool[blockIndex := toolIndex];
      calls := calls + [Call(id, name, "")];
    }

    method Append(blockIndex: nat, json: string)
      modifies this
      ensures Abstract() == Track(old(Abstract()), AppendArguments(blockIndex, json))
    {
      if blockIndex in blockToTool {
        var toolIndex := blockToTool[blockIndex];
        if toolIndex < |calls| {
          calls := calls[toolIndex := calls[toolIndex].(arguments := calls[toolIndex].arguments + json)];
        }
      }
    }

    method TakeCompleted(reader: JsonReader) returns (events: seq<Event>)
      ensures events == Announced(reader, calls)
    {
      events := [];
      for i := 0 to |calls|
        invariant events == Announced(reader, calls[..i])
      {
        events := events + [ToolCall(calls[i].id, calls[i].name, ArgumentValue(reader, calls[i].arguments))];
      }
      assert calls[..|calls|] == calls;
    }
  }

  // ----- What the tracker means -----

  /** The fragments for a block up to the point where the block is started again. */
  function FragmentsOf(ops: seq<Op>, block: nat): string {
    if ops == [] then ""
    else if ops[0].blockIndex != block then FragmentsOf(ops[1..], block)
    else if ops[0].StartTool? then ""
    else ops[0].json + FragmentsOf(ops[1..], block)
  }

  /** One call for every start, in order, with the fragments that follow it. */
  function CallsStarted(ops: seq<Op>): seq<Call> {
    if ops == [] then []
    else if ops[0].StartTool? then
      [Call(ops[0].id, ops[0].name, FragmentsOf(ops[1..], ops[0].blockIndex))] + CallsStarted(ops[1..])
    else CallsStarted(ops[1..])
  }

  /** Blocks point to different calls. */
  ghost predicate Sound(t: Tracked) {
    && (forall b | b in t.blockToTool :: t.blockToTool[b] < |t.calls|)
    && (forall b, c | b in t.blockToTool && c in t.blockToTool && b != c :: t.blockToTool[b] != t.blockToTool[c])
  }

  ghost predicate IsOpen(t: Tracked, k: nat) {
    exists b :: b in t.blockToTool && t.blockToTool[b] == k
  }

  /** The calls that are there already, completed by what follows, and the new ones behind them. */
  ghost predicate CompletedBy(t: Tracked, ops: seq<Op>, calls: seq<Call>) {
    && KeepsKnown(t, calls) && OpenGrow(t, ops, calls)
    && calls[|t.calls|..] == CallsStarted(ops)
  }

  /** Identifiers and names stay, and so do calls to which no block points. */
  ghost predicate KeepsKnown(t: Tracked, calls: seq<Call>) {
    && |t.calls| <= |calls|
    && (forall k | 0 <= k < |t.calls| :: calls[k].id == t.calls[k].id && calls[k].name == t.calls[k].name)
    && (forall k | 0 <= k < |t.calls| && !IsOpen(t, k) :: calls[k] == t.calls[k])
  }

  ghost predicate OpenGrow(t: Tracked, ops: seq<Op>, calls: seq<Call>)
    requires |t.calls| <= |calls|
  {
    forall b | b in t.blockToTool && t.blockToTool[b] < |t.calls| ::
      calls[t.blockToTool[b]].arguments == t.calls[t.blockToTool[b]].arguments + FragmentsOf(ops, b)
  }

  lemma StartKeepsKnown(t: Tracked, start: Op, calls: seq<Call>)
    requires start.StartTool? && Sound(t) && KeepsKnown(Track(t, start), calls)
    ensures KeepsKnown(t, calls)
  {
    var next := Track(t, start);
    assert forall k | 0 <= k < |t.calls| :: next.calls[k] == t.calls[k];
    forall k | 0 <= k < |t.calls| && !IsOpen(t, k)
      ensures calls[k] == t.calls[k]
    {
      assert !IsOpen(next, k);
    }
  }

  lemma StartKeepsOpen(t: Tracked, ops: seq<Op>, calls: seq<Call>)
    requires ops != [] && ops[0].StartTool? && Sound(t)
    requires KeepsKnown(Track(t, ops[0]), calls) && OpenGrow(Track(t, ops[0]), ops[1..], calls)
    ensures OpenGrow(t, ops, calls)
  {
    var next, block := Track(t, ops[0]), ops[0].blockIndex;
    forall b | b in t.blockToTool
      ensures calls[t.blockToTool[b]].arguments == t.calls[t.blockToTool[b]].arguments + FragmentsOf(ops, b)
    {
      var k := t.blockToTool[b];
      assert next.calls[k] == t.calls[k];
      if b == block {
        assert !IsOpen(next, k);
        assert t.calls[k].arguments + "" == t.calls[k].arguments;
      } else {
        assert next.blockToTool[b] == k;
      }
    }
  }

  lemma StartAddsCall(t: Tracked, ops: seq<Op>, calls: seq<Call>)
    requires ops != [] && ops[0].StartTool?
    requires CompletedBy(Track(t, ops[0]), ops[1..], calls)
    ensures calls[|t.calls|..] == CallsStarted(ops)
  {
    hide FragmentsOf, IsOpen;
    var next, block, n := Track(t, ops[0]), ops[0].blockIndex, |t.calls|;
    assert next.calls[n] == Call(ops[0].id, ops[0].name, "") && next.blockToTool[block] == n;
    assert "" + FragmentsOf(ops[1..], block) == FragmentsOf(ops[1..], block);
    assert calls[n..] == [calls[n]] + calls[n + 1..];
  }

  lemma StartCompletes(t: Tracked, ops: seq<Op>, calls: seq<Call>)
    requires ops != [] && ops[0].StartTool? && Sound(t)
    requires CompletedBy(Track(t, ops[0]), ops[1..], calls)
    ensures CompletedBy(t, ops, calls)
  {
    StartAddsCall(t, ops, calls);
    hide KeepsKnown, OpenGrow, FragmentsOf, CallsStarted, Track;
    StartKeepsKnown(t, ops[0], calls);
    StartKeepsOpen(t, ops, calls);
  }

  lemma AppendKeepsKnown(t: Tracked, append: Op, calls: seq<Call>)
    requires append.AppendArguments? && Sound(t) && KeepsKnown(Track(t, append), calls)
    ensures KeepsKnown(t, calls)
  {
    var next := Track(t, append);
    forall k | 0 <= k < |t.calls| && !IsOpen(t, k)
      ensures calls[k] == t.calls[k]
    {
      assert !IsOpen(next, k) && next.calls[k] == t.calls[k];
    }
  }

  lemma AppendKeepsOpen(t: Tracked, ops: seq<Op>, calls: seq<Call>)
    requires ops != [] && ops[0].AppendArguments? && Sound(t)
    requires |t.calls| <= |calls| && OpenGrow(Track(t, ops[0]), ops[1..], calls)
    ensures OpenGrow(t, ops, calls)
  {
    var next, block := Track(t, ops[0]), ops[0].blockIndex;
    forall b | b in t.blockToTool
      ensures calls[t.blockToTool[b]].arguments == t.calls[t.blockToTool[b]].arguments + FragmentsOf(ops, b)
    {
      assert next.blockToTool[b] == t.blockToTool[b];
      if b == block {
        var before, json, more := t.calls[t.blockToTool[b]].arguments, ops[0].json, FragmentsOf(ops[1..], b);
        assert before + json + more == before + (json + more);
      } else {
        assert next.calls[t.blockToTool[b]] == t.calls[t.blockToTool[b]];
      }
    }
  }

  lemma AppendCompletes(t: Tracked, ops: seq<Op>, calls: seq<Call>)
    requires ops != [] && ops[0].AppendArguments? && Sound(t)
    requires CompletedBy(Track(t, ops[0]), ops[1..], calls)
    ensures CompletedBy(t, ops, calls)
  {
    assert |Track(t, ops[0]).calls| == |t.calls|;
    hide OpenGrow, FragmentsOf, Track, IsOpen;
    AppendKeepsKnown(t, ops[0], calls);
    AppendKeepsOpen(t, ops, calls);
  }

  lemma {:induction false} TrackAllCompletes(t: Tracked, ops: seq<Op>)
    requires Sound(t)
    ensures CompletedBy(t, ops, TrackAll(t, ops).calls)
    decreases |ops|
  {
    hide CompletedBy, FragmentsOf;
    if ops == [] {
      NothingCompletes(t);
    } else {
      TrackAllCompletes(Track(t, ops[0]), ops[1..]);
      if ops[0].StartTool? {
        StartCompletes(t, ops, TrackAll(t, ops).calls);
      } else {
        AppendCompletes(t, ops, TrackAll(t, ops).calls);
      }
    }
  }

  lemma NothingCompletes(t: Tracked)
    requires Sound(t)
    ensures CompletedBy(t, [], t.calls)
  {
    assert forall k | 0 <= k < |t.calls| :: t.calls[k].arguments + "" == t.calls[k].arguments;
  }

  /**
    Main result: for every interleaving, there is one call for every started block, in
    the order of the starts, and its arguments are the fragments of its own block.
   */
  lemma TrackerRebuildsCalls(ops: seq<Op>)
    ensures TrackAll(UNTRACKED, ops).calls == CallsStarted(ops)
  {
    TrackAllCompletes(UNTRACKED, ops);
    assert TrackAll(UNTRACKED, ops).calls[0..] == TrackAll(UNTRACKED, ops).calls;
  }

  /** Fragments for a block that was never started change nothing. */
  lemma {:induction false} StrayFragmentsAreDropped(before: seq<Op>, stray: Op, after: seq<Op>)
    requires stray.AppendArguments?
    requires forall op | op in before && op.StartTool? :: op.blockIndex != stray.blockIndex
    ensures CallsStarted(before + [stray] + after) == CallsStarted(before + after)
  {
    if before == [] {
      assert [stray] + after == before + [stray] + after && before + after == after;
    } else {
      var rest := before[1..];
      assert (before + [stray] + after)[1..] == rest + [stray] + after && (before + after)[1..] == rest + after;
      assert forall op | op in rest :: op in before;
      StrayFragmentsAreDropped(rest, stray, after);
      if before[0].StartTool? {
        StrayIsSkipped(rest, stray, after, before[0].blockIndex);
      }
    }
  }

  lemma {:induction false} StrayIsSkipped(before: seq<Op>, stray: Op, after: seq<Op>, block: nat)
    requires stray.blockIndex != block
    ensures FragmentsOf(before + [stray] + after, block) == FragmentsOf(before + after, block)
  {
    if before == [] {
      assert [stray] + after == before + [stray] + after && before + after == after;
    } else {
      var rest := before[1..];
      assert (before + [stray] + after)[1..] == rest + [stray] + after && (before + after)[1..] == rest + after;
      StrayIsSkipped(rest, stray, after, block);
    }
  }
}
