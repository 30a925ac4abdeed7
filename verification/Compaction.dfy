/**
  Shrinking a conversation (crates/quine-core/src/compaction.rs): finding the live tail,
  replacing what comes before it by a summary, and archiving old tool results.
 */
module Compaction {
  import opened Wrappers
  import opened Strings
  import opened Decimals
  import opened Messages

  type History = seq<Message>

  predicate IsToolResult(m: Message) {
    m.content.ToolResult?
  }

  predicate IsToolUse(m: Message) {
    m.content.ToolUse?
  }

  // ----- The live tail -----

  /** Where the run of tool results that ends before `end` starts. */
  function RunStart(history: History, end: nat): (start: nat)
    requires end <= |history|
    ensures start <= end
    ensures forall i | start <= i < end :: IsToolResult(history[i])
    ensures start > 0 ==> !IsToolResult(history[start - 1])
  {
    if end > 0 && IsToolResult(history[end - 1]) then RunStart(history, end - 1) else end
  }

  function PreviousLiveSegmentStart(history: History, end: nat): (start: Option<nat>)
    ensures start.Some? ==> start.value < end <= |history|
  {
    if end == 0 || end > |history| then None
    else
      var last := history[end - 1];
      match last.content
      case ToolResult(_, _, _) =>
        var start := RunStart(history, end - 1);
        Some(if start > 0 && IsToolUse(history[start - 1]) then start - 1 else start)
      case ToolUse(_, _) => Some(end - 1)
      case Text(_) => if last.role == User then Some(end - 1) else None
  }

  method FindPreviousLiveSegmentStart(history: History, end: nat) returns (segmentStart: Option<nat>)
    ensures segmentStart == PreviousLiveSegmentStart(history, end)
  {
    if end == 0 || end > |history| {
      return None;
    }
    var last := history[end - 1];
    match last.content {
      case ToolResult(_, _, _) =>
        var start: nat := end - 1;
        while start > 0 && IsToolResult(history[start - 1])
          invariant start < end && RunStart(history, start) == RunStart(history, end - 1)
        {
          start := start - 1;
        }
        if start > 0 && IsToolUse(history[start - 1]) {
          start := start - 1;
        }
        return Some(start);
      case ToolUse(_, _) => return Some(end - 1);
      case Text(_) => return if last.role == User then Some(end - 1) else None;
    }
  }

  function TailFrom(history: History, start: nat, segments: nat): (tail: Option<nat>)
    requires start <= |history|
    ensures tail.Some? ==> tail.value <= start
    decreases segments
  {
    if segments == 0 then Some(start)
    else
      match PreviousLiveSegmentStart(history, start)
      case None => None
      case Some(next) => if next == 0 then Some(0) else TailFrom(history, next, segments - 1)
  }

  /** The start of the last `segments` live segments; nothing when fewer are found before an assistant text. */
  function LiveTailStart(history: History, segments: nat): (tail: Option<nat>)
    ensures tail.Some? ==> tail.value <= |history|
  {
    TailFrom(history, |history|, segments)
  }

  method FindLiveTailStart(history: History, preserveSegments: nat) returns (tail: Option<nat>)
    ensures tail == LiveTailStart(history, preserveSegments)
  {
    if preserveSegments == 0 {
      return Some(|history|);
    }
    var start: nat, remainingSegments := |history|, preserveSegments;
    while remainingSegments > 0
      invariant start <= |history|
      invariant TailFrom(history, start, remainingSegments) == LiveTailStart(history, preserveSegments)
    {
      var next := FindPreviousLiveSegmentStart(history, start);
      if next.None? {
        return None;
      }
      start := next.value;
      remainingSegments := remainingSegments - 1;
      if start == 0 {
        return Some(start);
      }
    }
    return Some(start);
  }

  /** Callers keep nothing when no live tail is found. */
  function TailOrEnd(history: History, segments: nat): (start: nat)
    ensures start <= |history|
  {
    match LiveTailStart(history, segments) case Some(start) => start case None => |history|
  }

  /** Moves a boundary that falls into a run of tool results back to the tool use in front of it. */
  function ProviderSafeTailStart(history: History, candidate: nat): (start: Option<nat>)
    ensures start.Some? ==> start.value <= candidate <= |history|
  {
    if candidate > |history| then None
    else if candidate == |history| || !IsToolResult(history[candidate]) then Some(candidate)
    else
      var start := RunStart(history, candidate);
      if start > 0 && IsToolUse(history[start - 1]) then Some(start - 1) else None
  }

  method FindProviderSafeTailStart(history: History, candidate: nat) returns (safe: Option<nat>)
    ensures safe == ProviderSafeTailStart(history, candidate)
  {
    if candidate > |history| {
      return None;
    }
    if candidate == |history| || !IsToolResult(history[candidate]) {
      return Some(candidate);
    }
    var start: nat := candidate;
    while start > 0 && IsToolResult(history[start - 1])
      invariant start <= candidate && RunStart(history, start) == RunStart(history, candidate)
    {
      start := start - 1;
    }
    return if start > 0 && IsToolUse(history[start - 1]) then Some(start - 1) else None;
  }

  // ----- Plans -----

  datatype CompactionSource = SessionMemory | LegacySummarizer

  datatype CompactionPlan = CompactionPlan(source: CompactionSource, summary: string, tailStart: nat)

  datatype Snapshot = Snapshot(summaryMarkdown: string, lastSummarizedMessageIndex: nat)

  const USIZE_MAX := 0xFFFF_FFFF_FFFF_FFFF

  /** One past the last summarised message; at the largest machine index the whole history. */
  function RawTailStart(history: History, lastSummarized: nat): nat {
    if lastSummarized >= USIZE_MAX then |history| else lastSummarized + 1
  }

  function PlanFromSnapshot(lastSummarized: Option<nat>, history: History, snapshot: Snapshot): (plan: Option<CompactionPlan>)
    ensures plan.Some? ==> plan.value.tailStart <= |history|
  {
    var liveTailStart := TailOrEnd(history, 1);
    match ProviderSafeTailStart(history, RawTailStart(history, snapshot.lastSummarizedMessageIndex))
    case None => None
    case Some(tailStart) =>
      if tailStart > liveTailStart then None
      else if lastSummarized.Some? && lastSummarized.value != snapshot.lastSummarizedMessageIndex then None
      else Some(CompactionPlan(SessionMemory, Trim(snapshot.summaryMarkdown), tailStart))
  }

  function LegacyPlan(history: History, summary: string): (plan: CompactionPlan)
    ensures plan.tailStart <= |history|
  {
    CompactionPlan(LegacySummarizer, summary, TailOrEnd(history, 1))
  }

  function SummaryMessage(summary: string, archiveRef: string): Message {
    Message(Assistant, Text("Context compacted from archive `" + archiveRef + "`.\n\n" + summary))
  }

  function LeadingSystem(history: History): History {
    if history != [] && history[0].role == System then [history[0]] else []
  }

  function CompactedHistory(history: History, summary: string, archiveRef: string, tail: History): History {
    LeadingSystem(history) + [SummaryMessage(summary, archiveRef)] + tail
  }

  function ApplyPlan(history: History, archiveRef: string, plan: CompactionPlan): History
    requires plan.tailStart <= |history|
  {
    CompactedHistory(history, plan.summary, archiveRef, history[plan.tailStart..])
  }

  // ----- Archiving old tool results -----

  const PREVIEW_HEAD_CHARS := 8000
  const PREVIEW_TAIL_CHARS := 2000
  const ARCHIVED_MARK := "[tool result archived:"

  function Preview(output: string): string {
    if |output| <= PREVIEW_HEAD_CHARS then output
    else output[..PREVIEW_HEAD_CHARS] + "\n\n[... elided ...]\n\n" + output[|output| - PREVIEW_TAIL_CHARS..]
  }

  function RenderArchivedToolResult(toolName: string, toolUseId: string, isError: bool, output: string, archiveRef: string): string {
    ARCHIVED_MARK + " " + toolName + ", " + (if isError then "error" else "ok") + ", " + Decimal(|output|)
    + " chars, id=" + toolUseId + ", archive=" + archiveRef + "]\n" + Preview(output)
  }

  /** The name last given to a tool use anywhere in the history. */
  function ToolNameOf(history: History, toolUseId: string): Option<string> {
    if history == [] then None
    else
      var last := history[|history| - 1].content;
      var here := if last.ToolUse? then NameIn(last.toolCalls, toolUseId) else None;
      if here.Some? then here else ToolNameOf(history[..|history| - 1], toolUseId)
  }

  function NameIn(calls: seq<ToolUseRequest>, toolUseId: string): Option<string> {
    if calls == [] then None
    else if calls[|calls| - 1].toolUseId == toolUseId then Some(calls[|calls| - 1].toolName)
    else NameIn(calls[..|calls| - 1], toolUseId)
  }

  predicate IsArchived(m: Message) {
    m.content.ToolResult? && StartsWith(m.content.output, ARCHIVED_MARK)
  }

  predicate NeedsArchiving(m: Message) {
    IsToolResult(m) && !IsArchived(m)
  }

  function ArchivedMessage(history: History, m: Message, archiveRef: string): Message
    requires IsToolResult(m)
  {
    var name := match ToolNameOf(history, m.content.toolUseId) case Some(n) => n case None => "unknown";
    Message(m.role, ToolResult(m.content.toolUseId,
                               RenderArchivedToolResult(name, m.content.toolUseId, m.content.isError, m.content.output, archiveRef),
                               m.content.isError))
  }

  /** Writing the result at an index to the archive gives a reference, unless it fails. */
  type Archive = nat -> Option<string>

  function ArchivedAt(history: History, preserveFrom: nat, archive: Archive, i: nat): Option<Message>
    requires i < |history|
  {
    if i < preserveFrom && NeedsArchiving(history[i]) then
      match archive(i)
      case Some(archiveRef) => Some(ArchivedMessage(history, history[i], archiveRef))
      case None => None
    else Some(history[i])
  }

  ghost predicate ArchivingFails(history: History, preserveFrom: nat, archive: Archive) {
    exists i :: 0 <= i < |history| && ArchivedAt(history, preserveFrom, archive, i) == None
  }

  method ArchiveOldToolResults(history: History, preserveSegments: nat, archive: Archive)
    returns (remapped: Result<History, ()>)
    ensures remapped.Err? <==> ArchivingFails(history, TailOrEnd(history, preserveSegments), archive)
    ensures remapped.Ok? ==>
      && |remapped.value| == |history|
      && forall i | 0 <= i < |history| ::
           ArchivedAt(history, TailOrEnd(history, preserveSegments), archive, i) == Some(remapped.value[i])
  {
    var tail := FindLiveTailStart(history, preserveSegments);
    var preserveFrom := match tail case Some(start) => start case None => |history|;
    var rewritten: History := [];
    for i := 0 to |history|
      invariant |rewritten| == i
      invariant forall k | 0 <= k < i :: ArchivedAt(history, preserveFrom, archive, k) == Some(rewritten[k])
    {
      if i < preserveFrom && IsToolResult(history[i]) && !StartsWith(history[i].content.output, ARCHIVED_MARK) {
        var archived := archive(i);
        match archived {
          case None =>
            assert ArchivedAt(history, preserveFrom, archive, i) == None;
            return Err(());
          case Some(archiveRef) => rewritten := rewritten + [ArchivedMessage(history, history[i], archiveRef)];
        }
      } else {
        rewritten := rewritten + [history[i]];
      }
    }
    return Ok(rewritten);
  }

  /** The result of archiving, as a relation between histories. */
  ghost predicate IsArchiving(history: History, preserveSegments: nat, archive: Archive, after: History) {
    && |after| == |history|
    && forall i | 0 <= i < |history| ::
         ArchivedAt(history, TailOrEnd(history, preserveSegments), archive, i) == Some(after[i])
  }

  lemma RenderedIsMarked(toolName: string, toolUseId: string, isError: bool, output: string, archiveRef: string)
    ensures StartsWith(RenderArchivedToolResult(toolName, toolUseId, isError, output, archiveRef), ARCHIVED_MARK)
  {
    var text := RenderArchivedToolResult(toolName, toolUseId, isError, output, archiveRef);
    assert text[0..|ARCHIVED_MARK|] == ARCHIVED_MARK;
  }

  /** Equal in everything but the output of a tool result. */
  ghost predicate SameButOutput(a: Message, b: Message) {
    && a.role == b.role
    && if IsToolResult(a) then
         IsToolResult(b) && a.content.toolUseId == b.content.toolUseId && a.content.isError == b.content.isError
       else a == b
  }

  /** Archiving keeps length, roles, identifiers and error flags, and everything from the preserved tail on; the rest is marked. */
  lemma {:induction false} ArchivingKeepsShape(history: History, preserveSegments: nat, archive: Archive, after: History)
    requires IsArchiving(history, preserveSegments, archive, after)
    ensures |after| == |history|
    ensures forall i | 0 <= i < |history| :: SameButOutput(history[i], after[i])
    ensures after[TailOrEnd(history, preserveSegments)..] == history[TailOrEnd(history, preserveSegments)..]
    ensures forall i | 0 <= i < TailOrEnd(history, preserveSegments) :: !NeedsArchiving(after[i])
  {
    hide RenderArchivedToolResult, LiveTailStart, ToolNameOf;
    var tail := TailOrEnd(history, preserveSegments);
    forall i | 0 <= i < |history|
      ensures SameButOutput(history[i], after[i]) && (i >= tail ==> after[i] == history[i])
      ensures i < tail ==> !NeedsArchiving(after[i])
    {
      assert ArchivedAt(history, tail, archive, i) == Some(after[i]);
      if i < tail && NeedsArchiving(history[i]) {
        ArchivedIsMarked(history, history[i], archive(i).value);
      }
    }
  }

  lemma ArchivedIsMarked(history: History, m: Message, archiveRef: string)
    requires IsToolResult(m)
    ensures IsArchived(ArchivedMessage(history, m, archiveRef))
  {
    hide RenderArchivedToolResult;
    var name := match ToolNameOf(history, m.content.toolUseId) case Some(n) => n case None => "unknown";
    RenderedIsMarked(name, m.content.toolUseId, m.content.isError, m.content.output, archiveRef);
  }

  // ----- Shape decides the tail -----

  ghost predicate SameShape(history: History, other: History) {
    |history| == |other| && forall i | 0 <= i < |history| :: SameButOutput(history[i], other[i])
  }

  lemma {:induction false} SameShapeSameRun(history: History, other: History, end: nat)
    requires SameShape(history, other) && end <= |history|
    ensures RunStart(history, end) == RunStart(other, end)
  {
    if end > 0 && IsToolResult(history[end - 1]) {
      SameShapeSameRun(history, other, end - 1);
    }
  }

  lemma {:induction false} SameShapeSameTail(history: History, other: History, start: nat, segments: nat)
    requires SameShape(history, other) && start <= |history|
    ensures TailFrom(history, start, segments) == TailFrom(other, start, segments)
    decreases segments
  {
    if segments > 0 {
      SameShapeSameSegment(history, other, start);
      hide PreviousLiveSegmentStart, SameShape;
      match PreviousLiveSegmentStart(history, start)
      case None =>
      case Some(next) => SameShapeSameTail(history, other, next, segments - 1);
    }
  }

  lemma SameShapeSameSegment(history: History, other: History, start: nat)
    requires SameShape(history, other) && start <= |history|
    ensures PreviousLiveSegmentStart(history, start) == PreviousLiveSegmentStart(other, start)
  {
    if start > 0 {
      SameShapeSameRun(history, other, start - 1);
    }
  }

  /** Main result for archiving: a second pass changes nothing, wherever it would archive to. */
  lemma ArchivingTwiceIsOnce(history: History, preserveSegments: nat, archive: Archive, after: History, archive': Archive, again: History)
    requires IsArchiving(history, preserveSegments, archive, after)
    requires IsArchiving(after, preserveSegments, archive', again)
    ensures again == after
  {
    ArchivingKeepsShape(history, preserveSegments, archive, after);
    SameShapeSameTail(history, after, |history|, preserveSegments);
  }
}
