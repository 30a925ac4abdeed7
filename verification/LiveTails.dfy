/**
  What the live tail of a conversation is, what a compaction keeps of it, and what an
  archived tool result says, each on the messages themselves.
 */
module LiveTails {
  import opened Wrappers
  import opened Strings
  import opened Decimals
  import opened Messages
  import opened Compaction

  // ----- Segments -----

  predicate AreResults(messages: History) {
    forall i | 0 <= i < |messages| :: messages[i].content.ToolResult?
  }

  /** A user's text, or a tool use together with the results behind it. */
  predicate IsSegment(segment: History) {
    && segment != []
    && if segment[0].content.Text? then |segment| == 1 && segment[0].role == User
       else segment[0].content.ToolUse? && AreResults(segment[1..])
  }

  /** Results whose tool use is missing. */
  predicate AreStray(front: History, results: History) {
    && results != [] && AreResults(results)
    && (front != [] ==> !front[|front| - 1].content.ToolUse? && !front[|front| - 1].content.ToolResult?)
  }

  /** Nothing live ends here: the end of an empty history, or of a text that is not the user's. */
  predicate EndsDead(history: History) {
    history == [] || (history[|history| - 1].content.Text? && history[|history| - 1].role != User)
  }

  lemma {:induction false} RunStartsBehind(front: History, results: History, n: nat)
    requires AreResults(results) && n <= |results|
    requires front != [] ==> !front[|front| - 1].content.ToolResult?
    ensures RunStart(front + results, |front| + n) == |front|
  {
    if n > 0 {
      assert (front + results)[|front| + n - 1] == results[n - 1];
      RunStartsBehind(front, results, n - 1);
    }
  }

  lemma SegmentStartsAtFront(front: History, segment: History)
    requires IsSegment(segment) || AreStray(front, segment)
    ensures PreviousLiveSegmentStart(front + segment, |front + segment|) == Some(|front|)
  {
    var history, last := front + segment, segment[|segment| - 1];
    assert history[|history| - 1] == last;
    if !IsSegment(segment) {
      RunStartsBehind(front, segment, |segment| - 1);
    } else if |segment| > 1 {
      var results := segment[1..];
      assert segment[|segment| - 1] == results[|results| - 1];
      assert history == (front + [segment[0]]) + results;
      RunStartsBehind(front + [segment[0]], results, |results| - 1);
    }
  }

  lemma DeadEndHasNoSegment(history: History)
    ensures PreviousLiveSegmentStart(history, |history|) == None <==> EndsDead(history)
  {
  }

  lemma {:induction false} TailOfFront(front: History, more: History, start: nat, segments: nat)
    requires start <= |front|
    ensures TailFrom(front + more, start, segments) == TailFrom(front, start, segments)
    decreases segments
  {
    if segments > 0 {
      SegmentOfFront(front, more, start);
      hide PreviousLiveSegmentStart;
      match PreviousLiveSegmentStart(front, start)
      case None =>
      case Some(next) => TailOfFront(front, more, next, segments - 1);
    }
  }

  lemma SegmentOfFront(front: History, more: History, end: nat)
    requires end <= |front|
    ensures PreviousLiveSegmentStart(front + more, end) == PreviousLiveSegmentStart(front, end)
  {
    if end > 0 {
      assert (front + more)[end - 1] == front[end - 1];
      RunOfFront(front, more, end - 1);
    }
  }

  lemma {:induction false} RunOfFront(front: History, more: History, end: nat)
    requires end <= |front|
    ensures RunStart(front + more, end) == RunStart(front, end)
  {
    if end > 0 && IsToolResult(front[end - 1]) {
      RunOfFront(front, more, end - 1);
    }
  }

  // ----- The live tail -----

  /**
    Main result: no segments are the end of the history; one more segment is the one that
    ends there and the tail of what comes before it; there is none at a dead end.
   */
  lemma LiveTailIs(front: History, segment: History, segments: nat)
    ensures LiveTailStart(front, 0) == Some(|front|)
    ensures EndsDead(front) <==> LiveTailStart(front, 1) == None
    ensures EndsDead(front) ==> LiveTailStart(front, segments + 1) == None
    ensures IsSegment(segment) || AreStray(front, segment) ==>
              LiveTailStart(front + segment, segments + 1) == if front == [] then Some(0) else LiveTailStart(front, segments)
  {
    DeadEndHasNoSegment(front);
    OneSegment(front);
    if IsSegment(segment) || AreStray(front, segment) {
      SegmentStartsAtFront(front, segment);
      TailOfFront(front, segment, |front|, segments);
    }
  }

  lemma OneSegment(history: History)
    ensures LiveTailStart(history, 1) == PreviousLiveSegmentStart(history, |history|)
  {
    hide PreviousLiveSegmentStart;
    match PreviousLiveSegmentStart(history, |history|)
    case None =>
    case Some(next) => assert TailFrom(history, next, 0) == Some(next);
  }

  function Joined(segments: seq<History>): History {
    if segments == [] then [] else Joined(segments[..|segments| - 1]) + segments[|segments| - 1]
  }

  /** Main result: the tail of k segments is exactly the last k segments, whole. */
  lemma {:induction false} LastSegmentsAreLive(front: History, segments: seq<History>)
    requires forall s | s in segments :: IsSegment(s)
    ensures LiveTailStart(front + Joined(segments), |segments|) == Some(|front|)
  {
    if segments == [] {
      assert front + [] == front;
      LiveTailIs(front, [], 0);
    } else {
      var before, last := segments[..|segments| - 1], segments[|segments| - 1];
      assert last in segments && forall s | s in before :: s in segments;
      assert front + Joined(segments) == (front + Joined(before)) + last;
      LastSegmentsAreLive(front, before);
      LiveTailIs(front + Joined(before), last, |before|);
      if front + Joined(before) == [] {
        assert |front| == 0;
      }
    }
  }

  // ----- What a compaction keeps -----

  /** The first message of a compacted history that is not kept from the old one. */
  function Announcement(archiveRef: string, summary: string): Message {
    Message(Assistant, Text("Context compacted from archive `" + archiveRef + "`.\n\n" + summary))
  }

  /** Main result: a compacted history is a leading system message, the announcement with the summary, and the tail. */
  lemma CompactedIs(history: History, archiveRef: string, plan: CompactionPlan)
    requires plan.tailStart <= |history|
    ensures ApplyPlan(history, archiveRef, plan)
         == (if history != [] && history[0].role == System then history[..1] else [])
            + [Announcement(archiveRef, plan.summary)]
            + history[plan.tailStart..]
  {
  }

  /** Main result: the summarizer's plan keeps the last segment whole, such as a running tool use with its results. */
  lemma LegacyKeepsSegment(front: History, segment: History, summary: string, archiveRef: string)
    requires IsSegment(segment)
    ensures
      var history := front + segment;
      ApplyPlan(history, archiveRef, LegacyPlan(history, summary))
      == (if history[0].role == System then history[..1] else []) + [Announcement(archiveRef, summary)] + segment
  {
    var history := front + segment;
    LiveTailIs(front, segment, 0);
    CompactedIs(history, archiveRef, LegacyPlan(history, summary));
    assert history[|front|..] == segment;
  }

  /** At a dead end it keeps nothing but the announcement. */
  lemma LegacyKeepsNothing(history: History, summary: string, archiveRef: string)
    requires history != [] && EndsDead(history)
    ensures ApplyPlan(history, archiveRef, LegacyPlan(history, summary))
         == (if history[0].role == System then history[..1] else []) + [Announcement(archiveRef, summary)]
  {
    LiveTailIs(history, [], 0);
    CompactedIs(history, archiveRef, LegacyPlan(history, summary));
  }

  // ----- What an archived result says -----

  predicate IsMarked(output: string) {
    |"[tool result archived:"| <= |output| && output[..|"[tool result archived:"|] == "[tool result archived:"
  }

  lemma MarkedIff(output: string)
    ensures StartsWith(output, ARCHIVED_MARK) <==> IsMarked(output)
  {
  }

  /** The head and, of a long output, the tail. */
  function Shortened(output: string): string {
    if |output| <= 8000 then output
    else output[..8000] + "\n\n[... elided ...]\n\n" + output[|output| - 2000..]
  }

  /** The tool use that names the identifier last. */
  ghost predicate LastNamed(history: History, toolUseId: string, toolName: string) {
    exists i, k ::
      && 0 <= i < |history| && history[i].content.ToolUse? && 0 <= k < |history[i].content.toolCalls|
      && history[i].content.toolCalls[k].toolUseId == toolUseId && history[i].content.toolCalls[k].toolName == toolName
      && (forall m | k < m < |history[i].content.toolCalls| :: history[i].content.toolCalls[m].toolUseId != toolUseId)
      && (forall j | i < j < |history| :: NamesNot(history[j], toolUseId))
  }

  predicate NamesNot(m: Message, toolUseId: string) {
    m.content.ToolUse? ==> forall k | 0 <= k < |m.content.toolCalls| :: m.content.toolCalls[k].toolUseId != toolUseId
  }

  lemma {:induction false} NameInIs(calls: seq<ToolUseRequest>, toolUseId: string) returns (k: nat)
    ensures
      match NameIn(calls, toolUseId)
      case None => forall m | 0 <= m < |calls| :: calls[m].toolUseId != toolUseId
      case Some(name) =>
        && k < |calls| && calls[k].toolUseId == toolUseId && calls[k].toolName == name
        && forall m | k < m < |calls| :: calls[m].toolUseId != toolUseId
  {
    k := 0;
    if calls != [] {
      if calls[|calls| - 1].toolUseId == toolUseId {
        k := |calls| - 1;
      } else {
        k := NameInIs(calls[..|calls| - 1], toolUseId);
      }
    }
  }

  lemma {:induction false} ToolNameIs(history: History, toolUseId: string)
    ensures
      match ToolNameOf(history, toolUseId)
      case None => forall j | 0 <= j < |history| :: NamesNot(history[j], toolUseId)
      case Some(name) => LastNamed(history, toolUseId, name)
  {
    if history != [] {
      var front, last := history[..|history| - 1], history[|history| - 1];
      var k: nat := 0;
      if last.content.ToolUse? {
        k := NameInIs(last.content.toolCalls, toolUseId);
      }
      if last.content.ToolUse? && NameIn(last.content.toolCalls, toolUseId).Some? {
        assert LastNamed(history, toolUseId, NameIn(last.content.toolCalls, toolUseId).value) by {
          assert history[|history| - 1].content.toolCalls[k].toolUseId == toolUseId;
        }
      } else {
        ToolNameIs(front, toolUseId);
        assert forall j | 0 <= j < |front| :: front[j] == history[j];
        if ToolNameOf(front, toolUseId).Some? {
          LastNamedStays(front, last, toolUseId, ToolNameOf(front, toolUseId).value);
          assert history == front + [last];
        }
      }
    }
  }

  lemma LastNamedStays(front: History, last: Message, toolUseId: string, toolName: string)
    requires LastNamed(front, toolUseId, toolName) && NamesNot(last, toolUseId)
    ensures LastNamed(front + [last], toolUseId, toolName)
  {
    var history := front + [last];
    var i, k :|
      && 0 <= i < |front| && front[i].content.ToolUse? && 0 <= k < |front[i].content.toolCalls|
      && front[i].content.toolCalls[k].toolUseId == toolUseId && front[i].content.toolCalls[k].toolName == toolName
      && (forall m | k < m < |front[i].content.toolCalls| :: front[i].content.toolCalls[m].toolUseId != toolUseId)
      && (forall j | i < j < |front| :: NamesNot(front[j], toolUseId));
    assert history[i] == front[i];
    forall j | i < j < |history|
      ensures NamesNot(history[j], toolUseId)
    {
      assert j < |front| ==> history[j] == front[j];
    }
    assert history[i].content.toolCalls[k].toolUseId == toolUseId;
  }

  /** What is put in the place of an old output. */
  function ArchivedText(name: string, content: Content, archiveRef: string): string
    requires content.ToolResult?
  {
    "[tool result archived: " + name + ", " + (if content.isError then "error" else "ok") + ", " + Decimal(|content.output|)
    + " chars, id=" + content.toolUseId + ", archive=" + archiveRef + "]\n" + Shortened(content.output)
  }

  /**
    Main result: archiving rewrites exactly the tool results before the preserved tail
    that are not marked yet, and each says which tool gave what under which identifier,
    where it is archived, and how it begins and ends.
   */
  lemma ArchivingRewrites(history: History, preserveSegments: nat, archive: Archive, after: History, i: nat)
    requires IsArchiving(history, preserveSegments, archive, after) && i < |history|
    ensures
      var tail := match LiveTailStart(history, preserveSegments) case Some(start) => start case None => |history|;
      var content := history[i].content;
      if i < tail && content.ToolResult? && !IsMarked(content.output) then
        exists name ::
          && (LastNamed(history, content.toolUseId, name)
              || (name == "unknown" && forall j | 0 <= j < |history| :: NamesNot(history[j], content.toolUseId)))
          && archive(i).Some?
          && after[i] == history[i].(content := ToolResult(content.toolUseId, ArchivedText(name, content, archive(i).value),
                                                           content.isError))
      else after[i] == history[i]
  {
    hide ToolNameOf, LiveTailStart, Decimal, LastNamed, NamesNot;
    var content := history[i].content;
    assert ArchivedAt(history, TailOrEnd(history, preserveSegments), archive, i) == Some(after[i]);
    if content.ToolResult? {
      MarkedIff(content.output);
      ToolNameIs(history, content.toolUseId);
      if i < TailOrEnd(history, preserveSegments) && !IsMarked(content.output) {
        var found := ToolNameOf(history, content.toolUseId);
        var name := if found.Some? then found.value else "unknown";
        RenderedIs(name, content, archive(i).value);
      }
    }
  }

  lemma RenderedIs(name: string, content: Content, archiveRef: string)
    requires content.ToolResult?
    ensures RenderArchivedToolResult(name, content.toolUseId, content.isError, content.output, archiveRef)
         == ArchivedText(name, content, archiveRef)
  {
    hide Decimal;
    assert ARCHIVED_MARK + " " == "[tool result archived: ";
  }
}
