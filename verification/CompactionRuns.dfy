/**
  Every run of appends, archiving and compactions keeps tool results behind the tool use
  that asked for them, and a compaction drops only what has been summarised.
 */
module CompactionRuns {
  import opened Wrappers
  import opened Strings
  import opened Messages
  import opened Compaction

  /** The tool use names the identifier. */
  predicate Names(m: Message, toolUseId: string) {
    IsToolUse(m) && exists k :: 0 <= k < |m.content.toolCalls| && m.content.toolCalls[k].toolUseId == toolUseId
  }

  /** The run of tool results that i is in, or would continue, stands directly behind a tool use that names the identifier. */
  predicate Anchored(history: History, i: nat, toolUseId: string)
    requires i <= |history|
  {
    var start := RunStart(history, i);
    start > 0 && Names(history[start - 1], toolUseId)
  }

  ghost predicate WellFormed(history: History) {
    forall i | 0 <= i < |history| && IsToolResult(history[i]) :: Anchored(history, i, history[i].content.toolUseId)
  }

  /** Each role carries the content that belongs to it. */
  predicate RoleConsistent(m: Message) {
    match m.role
    case System => m.content.Text?
    case User => m.content.Text?
    case Assistant => m.content.Text? || m.content.ToolUse?
    case Tool => m.content.ToolResult?
  }

  ghost predicate RolesConsistent(history: History) {
    forall m | m in history :: RoleConsistent(m)
  }

  // ----- Boundaries -----

  /** A boundary that does not cut a run of tool results off from its tool use. */
  predicate IsSafe(history: History, boundary: nat) {
    boundary <= |history| && (boundary < |history| ==> !IsToolResult(history[boundary]))
  }

  lemma {:induction false} RunStartPrefix(history: History, front: History, end: nat)
    requires end <= |front| && front <= history
    ensures RunStart(history, end) == RunStart(front, end)
  {
    if end > 0 && IsToolResult(front[end - 1]) {
      RunStartPrefix(history, front, end - 1);
    }
  }

  /** Behind a safe boundary, runs start behind the boundary too, and move with it. */
  lemma {:induction false} RunStartShift(history: History, boundary: nat, front: History, end: nat)
    requires IsSafe(history, boundary) && boundary < end <= |history|
    ensures RunStart(history, end) > boundary
    ensures RunStart(front + history[boundary..], |front| + end - boundary)
         == |front| + RunStart(history, end) - boundary
    decreases end
  {
    var moved := front + history[boundary..];
    assert moved[|front| + end - boundary - 1] == history[end - 1];
    if IsToolResult(history[end - 1]) {
      RunStartShift(history, boundary, front, end - 1);
    }
  }

  lemma AnchorMoves(history: History, boundary: nat, front: History, i: nat, toolUseId: string)
    requires IsSafe(history, boundary) && boundary < i <= |history| && Anchored(history, i, toolUseId)
    ensures Anchored(front + history[boundary..], |front| + i - boundary, toolUseId)
  {
    hide RunStart, Names;
    var moved := front + history[boundary..];
    RunStartShift(history, boundary, front, i);
    assert moved[RunStart(moved, |front| + i - boundary) - 1] == history[RunStart(history, i) - 1];
  }

  /** What stays behind a safe boundary stays well formed behind any messages that are no tool results. */
  lemma SafeTailIsWellFormed(history: History, boundary: nat, front: History)
    requires WellFormed(history) && IsSafe(history, boundary)
    requires forall m | m in front :: !IsToolResult(m)
    ensures WellFormed(front + history[boundary..])
  {
    hide Anchored;
    var moved := front + history[boundary..];
    assert forall i | 0 <= i < |front| :: moved[i] == front[i] && front[i] in front;
    forall i | |front| <= i < |moved| && IsToolResult(moved[i])
      ensures Anchored(moved, i, moved[i].content.toolUseId)
    {
      var at := i - |front| + boundary;
      assert moved[i] == history[at];
      AnchorMoves(history, boundary, front, at, history[at].content.toolUseId);
    }
  }

  /** In a well-formed history every tool result run has its tool use in front. */
  lemma RunHasToolUse(history: History, i: nat)
    requires WellFormed(history) && i < |history| && IsToolResult(history[i])
    ensures RunStart(history, i) > 0 && IsToolUse(history[RunStart(history, i) - 1])
  {
    assert Anchored(history, i, history[i].content.toolUseId);
  }

  /**
    Main result for the boundary repair: on a well-formed history it succeeds for every
    candidate inside the history, and picks the greatest safe boundary up to it.
   */
  lemma {:induction false} RepairPicksGreatestSafe(history: History, candidate: nat)
    requires WellFormed(history)
    ensures ProviderSafeTailStart(history, candidate).Some? <==> candidate <= |history|
    ensures
      match ProviderSafeTailStart(history, candidate)
      case None => true
      case Some(start) => IsSafe(history, start) && forall k | start < k <= candidate :: !IsSafe(history, k)
  {
    if candidate < |history| && IsToolResult(history[candidate]) {
      RunHasToolUse(history, candidate);
    }
  }

  lemma PreviousIsSafe(history: History, start: nat)
    requires WellFormed(history) && PreviousLiveSegmentStart(history, start).Some?
    ensures IsSafe(history, PreviousLiveSegmentStart(history, start).value)
  {
    hide WellFormed;
    if IsToolResult(history[start - 1]) {
      RunHasToolUse(history, start - 1);
    }
  }

  /** The live tail of a well-formed history starts at a safe boundary. */
  lemma {:induction false} TailIsSafe(history: History, start: nat, segments: nat)
    requires WellFormed(history) && IsSafe(history, start)
    ensures TailFrom(history, start, segments).Some? ==> IsSafe(history, TailFrom(history, start, segments).value)
    decreases segments
  {
    hide PreviousLiveSegmentStart, WellFormed, IsSafe;
    if segments > 0 && PreviousLiveSegmentStart(history, start).Some? {
      var next := PreviousLiveSegmentStart(history, start).value;
      PreviousIsSafe(history, start);
      if next > 0 {
        TailIsSafe(history, next, segments - 1);
      }
    }
  }

  lemma LiveTailIsSafe(history: History, segments: nat)
    requires WellFormed(history)
    ensures IsSafe(history, TailOrEnd(history, segments))
  {
    TailIsSafe(history, |history|, segments);
  }

  // ----- What a compaction keeps -----

  /** A system message in front is not part of the live tail. */
  lemma SystemIsNotLive(history: History)
    requires RolesConsistent(history) && WellFormed(history)
    requires history != [] && history[0].role == System
    ensures TailOrEnd(history, 1) >= 1
  {
    assert history[0] in history;
    LiveTailIsSafe(history, 1);
    var end := |history|;
    if IsToolResult(history[end - 1]) {
      RunHasToolUse(history, end - 1);
    }
  }

  /**
    Main result for plans from session memory: the compacted history is the leading
    system message (once), the summary, and a tail that starts at or before the first
    message not summarised and at or before the live segment.
   */
  lemma SnapshotPlanKeepsUnsummarised(history: History, lastSummarized: Option<nat>, snapshot: Snapshot, archiveRef: string)
    requires WellFormed(history) && RolesConsistent(history)
    requires PlanFromSnapshot(lastSummarized, history, snapshot).Some?
    ensures
      var plan := PlanFromSnapshot(lastSummarized, history, snapshot).value;
      var compacted := ApplyPlan(history, archiveRef, plan);
      && compacted == LeadingSystem(history) + [SummaryMessage(plan.summary, archiveRef)] + history[plan.tailStart..]
      && (|history| <= USIZE_MAX ==> plan.tailStart <= snapshot.lastSummarizedMessageIndex + 1)
      && plan.tailStart <= TailOrEnd(history, 1)
      && (LeadingSystem(history) != [] ==> plan.tailStart >= 1)
      && IsSafe(history, plan.tailStart)
  {
    hide ProviderSafeTailStart, TailOrEnd, IsSafe, WellFormed, RolesConsistent;
    var candidate := RawTailStart(history, snapshot.lastSummarizedMessageIndex);
    RepairPicksGreatestSafe(history, candidate);
    if LeadingSystem(history) != [] {
      RepairKeepsSystem(history, candidate);
    }
  }

  /**
    Main result: on a well-formed history there is a plan from session memory exactly when
    the summary reaches no further than the history, is of the expected position, and no
    boundary behind the live tail could be kept up to it; the plan then keeps from the
    greatest safe boundary on.
   */
  lemma SnapshotPlanExistsIff(history: History, lastSummarized: Option<nat>, snapshot: Snapshot)
    requires WellFormed(history)
    ensures
      var plan := PlanFromSnapshot(lastSummarized, history, snapshot);
      var last := snapshot.lastSummarizedMessageIndex;
      var candidate := if last >= 0xFFFF_FFFF_FFFF_FFFF then |history| else last + 1;
      && (plan.Some? <==>
            && candidate <= |history|
            && (lastSummarized.Some? ==> lastSummarized.value == snapshot.lastSummarizedMessageIndex)
            && forall k | TailOrEnd(history, 1) < k <= candidate :: !IsSafe(history, k))
      && (plan.Some? ==>
            && plan.value.source == SessionMemory && plan.value.summary == Trim(snapshot.summaryMarkdown)
            && IsSafe(history, plan.value.tailStart)
            && forall k | plan.value.tailStart < k <= candidate :: !IsSafe(history, k))
  {
    hide ProviderSafeTailStart, TailOrEnd, IsSafe, WellFormed, Trim;
    var candidate := RawTailStart(history, snapshot.lastSummarizedMessageIndex);
    RepairPicksGreatestSafe(history, candidate);
    match ProviderSafeTailStart(history, candidate)
    case None =>
    case Some(start) =>
      if start <= TailOrEnd(history, 1) {
        assert forall k | TailOrEnd(history, 1) < k <= candidate :: !IsSafe(history, k);
      }
  }

  lemma RepairKeepsSystem(history: History, candidate: nat)
    requires RolesConsistent(history) && LeadingSystem(history) != []
    requires candidate >= 1 && ProviderSafeTailStart(history, candidate).Some?
    ensures ProviderSafeTailStart(history, candidate).value >= 1
  {
    assert history[0] in history;
    assert !IsToolUse(history[0]);
  }

  /** A plan of the summarizer keeps exactly the live tail. */
  lemma LegacyPlanKeepsLiveTail(history: History, summary: string, archiveRef: string)
    requires WellFormed(history) && RolesConsistent(history)
    ensures
      var plan := LegacyPlan(history, summary);
      && ApplyPlan(history, archiveRef, plan)
         == LeadingSystem(history) + [SummaryMessage(summary, archiveRef)] + history[TailOrEnd(history, 1)..]
      && (LeadingSystem(history) != [] ==> plan.tailStart >= 1)
      && IsSafe(history, plan.tailStart)
  {
    LiveTailIsSafe(history, 1);
    if LeadingSystem(history) != [] {
      SystemIsNotLive(history);
    }
  }

  // ----- Runs -----

  datatype Op =
    | Append(message: Message)
    | ArchiveOld(preserveSegments: nat, archive: Archive)
    | CompactFromMemory(lastSummarized: Option<nat>, snapshot: Snapshot, archiveRef: string)
    | CompactFromSummary(summary: string, archiveRef: string)

  /** One operation; archiving may fail, and a memory plan may not be available, in which case nothing changes. */
  ghost predicate Leads(history: History, op: Op, after: History) {
    match op
    case Append(message) => after == history + [message]
    case ArchiveOld(preserveSegments, archive) => after == history || IsArchiving(history, preserveSegments, archive, after)
    case CompactFromMemory(lastSummarized, snapshot, archiveRef) =>
      (match PlanFromSnapshot(lastSummarized, history, snapshot)
       case None => after == history
       case Some(plan) => after == ApplyPlan(history, archiveRef, plan))
    case CompactFromSummary(summary, archiveRef) => after == ApplyPlan(history, archiveRef, LegacyPlan(history, summary))
  }

  /** A tool result is appended only behind the tool use that named it, and roles fit contents. */
  predicate MayAppend(history: History, message: Message) {
    && RoleConsistent(message)
    && (IsToolResult(message) ==> Anchored(history, |history|, message.content.toolUseId))
  }

  ghost predicate Runs(ops: seq<Op>, history: History) {
    if ops == [] then history == []
    else
      var last := ops[|ops| - 1];
      exists before: History ::
        && Runs(ops[..|ops| - 1], before)
        && (last.Append? ==> MayAppend(before, last.message))
        && Leads(before, last, history)
  }

  lemma AppendKeepsWellFormed(history: History, message: Message)
    requires WellFormed(history) && MayAppend(history, message)
    ensures WellFormed(history + [message])
  {
    hide Anchored, RoleConsistent;
    var after := history + [message];
    forall i | 0 <= i < |after| && IsToolResult(after[i])
      ensures Anchored(after, i, after[i].content.toolUseId)
    {
      if i < |history| {
        assert Anchored(history, i, history[i].content.toolUseId);
      }
      AnchorStays(history, message, i, after[i].content.toolUseId);
    }
  }

  lemma AnchorStays(history: History, message: Message, i: nat, toolUseId: string)
    requires i <= |history| && Anchored(history, i, toolUseId)
    ensures Anchored(history + [message], i, toolUseId)
  {
    hide Names;
    RunStartPrefix(history + [message], history, i);
  }

  lemma ArchivingKeepsWellFormed(history: History, preserveSegments: nat, archive: Archive, after: History)
    requires WellFormed(history) && IsArchiving(history, preserveSegments, archive, after)
    ensures WellFormed(after)
  {
    ArchivingKeepsShape(history, preserveSegments, archive, after);
    forall i | 0 <= i < |after| && IsToolResult(after[i])
      ensures Anchored(after, i, after[i].content.toolUseId)
    {
      assert SameButOutput(history[i], after[i]);
      assert Anchored(history, i, history[i].content.toolUseId);
      SameShapeSameRun(history, after, i);
      assert SameButOutput(history[RunStart(history, i) - 1], after[RunStart(history, i) - 1]);
    }
  }

  lemma CompactionKeepsWellFormed(history: History, plan: CompactionPlan, archiveRef: string)
    requires WellFormed(history) && RolesConsistent(history) && IsSafe(history, plan.tailStart)
    ensures WellFormed(ApplyPlan(history, archiveRef, plan)) && RolesConsistent(ApplyPlan(history, archiveRef, plan))
  {
    var front := LeadingSystem(history) + [SummaryMessage(plan.summary, archiveRef)];
    forall m | m in front
      ensures !IsToolResult(m)
    {
      if history != [] {
        assert history[0] in history;
      }
    }
    SafeTailIsWellFormed(history, plan.tailStart, front);
  }

  lemma StepKeepsWellFormed(history: History, op: Op, after: History)
    requires WellFormed(history) && RolesConsistent(history) && Leads(history, op, after)
    requires op.Append? ==> MayAppend(history, op.message)
    ensures WellFormed(after) && RolesConsistent(after)
  {
    hide WellFormed, PlanFromSnapshot, ApplyPlan, Anchored, IsArchiving;
    match op
    case Append(message) => AppendKeepsWellFormed(history, message);
    case ArchiveOld(preserveSegments, archive) =>
      if after != history {
        ArchivingKeepsWellFormed(history, preserveSegments, archive, after);
        ArchivingKeepsRoles(history, preserveSegments, archive, after);
      }
    case CompactFromMemory(lastSummarized, snapshot, archiveRef) =>
      if PlanFromSnapshot(lastSummarized, history, snapshot).Some? {
        SnapshotPlanKeepsUnsummarised(history, lastSummarized, snapshot, archiveRef);
        CompactionKeepsWellFormed(history, PlanFromSnapshot(lastSummarized, history, snapshot).value, archiveRef);
      }
    case CompactFromSummary(summary, archiveRef) =>
      LegacyPlanKeepsLiveTail(history, summary, archiveRef);
      CompactionKeepsWellFormed(history, LegacyPlan(history, summary), archiveRef);
  }

  lemma ArchivingKeepsRoles(history: History, preserveSegments: nat, archive: Archive, after: History)
    requires RolesConsistent(history) && IsArchiving(history, preserveSegments, archive, after)
    ensures RolesConsistent(after)
  {
    ArchivingKeepsShape(history, preserveSegments, archive, after);
    forall m | m in after
      ensures RoleConsistent(m)
    {
      var i :| 0 <= i < |after| && after[i] == m;
      assert SameButOutput(history[i], after[i]) && history[i] in history;
    }
  }

  /** Main result: in every run each tool result stands in a run directly behind the tool use that names it. */
  lemma {:induction false} RunsStayWellFormed(ops: seq<Op>, history: History)
    requires Runs(ops, history)
    ensures WellFormed(history) && RolesConsistent(history)
  {
    hide WellFormed, Leads, MayAppend;
    if ops == [] {
      NothingIsWellFormed();
    } else {
      var last := ops[|ops| - 1];
      var before: History :|
        && Runs(ops[..|ops| - 1], before)
        && (last.Append? ==> MayAppend(before, last.message))
        && Leads(before, last, history);
      RunsStayWellFormed(ops[..|ops| - 1], before);
      StepKeepsWellFormed(before, last, history);
    }
  }

  lemma NothingIsWellFormed()
    ensures WellFormed([])
  {
  }
}
