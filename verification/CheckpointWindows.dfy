/**
  Which messages the sections of CheckpointCycles extract.  A section extracts before it
  commits, so a section that crashes while it commits has extracted all the same.  An
  update lists each session once; of several entries only the last is looked at.
 */
module CheckpointWindows {
  import opened Wrappers
  import opened SessionTrees
  import opened Checkpoints
  import opened CheckpointMemory
  import opened Storage
  import opened CheckpointCycles

  predicate Completes(cycle: Cycle) {
    cycle.steps >= COMMIT_LENGTH
  }

  /** What a section is told about a session. */
  function ReportIn(cycle: Cycle, id: SessionId): Option<Report> {
    match LastWith(cycle.update.sessions, id)
    case None => None
    case Some(session) => Some(Report(session.history, session.memoryState, session.details, cycle.storeFails(id)))
  }

  /** What the completed sections have been told about a session. */
  function ReportsOf(cycles: seq<Cycle>, id: SessionId): seq<Report> {
    if cycles == [] then []
    else
      var last := cycles[|cycles| - 1];
      ReportsOf(cycles[..|cycles| - 1], id)
      + if Completes(last) && ReportIn(last, id).Some? then [ReportIn(last, id).value] else []
  }

  /** The message indexes that a section extracts, after some others. */
  function CycleWindow(before: seq<Cycle>, cycle: Cycle, id: SessionId): seq<nat> {
    match ReportIn(cycle, id)
    case None => []
    case Some(report) => WindowOf(report.Session(id), StoredSession(before, id), report.storeFails)
  }

  /** The indexes extracted by the sections that complete, or by those that crash. */
  function Windows(cycles: seq<Cycle>, id: SessionId, completed: bool): seq<nat> {
    if cycles == [] then []
    else
      var front, last := cycles[..|cycles| - 1], cycles[|cycles| - 1];
      Windows(front, id, completed) + if Completes(last) == completed then CycleWindow(front, last, id) else []
  }

  /** All indexes extracted, in order. */
  function AllWindows(cycles: seq<Cycle>, id: SessionId): seq<nat> {
    if cycles == [] then []
    else
      var front, last := cycles[..|cycles| - 1], cycles[|cycles| - 1];
      AllWindows(front, id) + CycleWindow(front, last, id)
  }

  lemma {:induction false} LastWithIs(sessions: seq<PersistedSession>, id: SessionId)
    ensures LastWith(sessions, id).Some? ==> LastWith(sessions, id).value.sessionId == id
  {
    if sessions != [] {
      LastWithIs(sessions[..|sessions| - 1], id);
    }
  }

  /** What merging sections store is what their reports say should be stored. */
  lemma {:induction false} StoredIsReported(cycles: seq<Cycle>, id: SessionId)
    requires Merging(cycles)
    ensures StoredSession(cycles, id) == StoredAfter(id, ReportsOf(cycles, id))
  {
    hide Updated, EnrichedSession, Lookup;
    if cycles != [] {
      var front, last := cycles[..|cycles| - 1], cycles[|cycles| - 1];
      assert forall c | c in front :: c in cycles;
      assert last in cycles;
      StoredIsReported(front, id);
      LastWithIs(last.update.sessions, id);
      if Completes(last) {
        MergeStores(StoredAfterCycles(front), last.section, last.update, last.storeFails, id);
        if ReportIn(last, id).Some? {
          OneMoreReport(id, ReportsOf(front, id), ReportIn(last, id).value);
        }
      }
      assert ReportsOf(front, id) + [] == ReportsOf(front, id);
    }
  }

  lemma OneMoreReport(id: SessionId, reports: seq<Report>, last: Report)
    ensures StoredAfter(id, reports + [last]) == Some(EnrichedSession(last.Session(id), StoredAfter(id, reports), last.storeFails))
    ensures Processed(id, reports + [last])
         == Processed(id, reports) + WindowOf(last.Session(id), StoredAfter(id, reports), last.storeFails)
  {
    hide EnrichedSession, WindowOf;
    assert (reports + [last])[..|reports|] == reports;
  }

  /** The completed sections extract what their reports say. */
  lemma {:induction false} CompletedIsProcessed(cycles: seq<Cycle>, id: SessionId)
    requires Merging(cycles)
    ensures Windows(cycles, id, true) == Processed(id, ReportsOf(cycles, id))
  {
    hide StoredSession, StoredAfter, WindowOf, Completes;
    if cycles != [] {
      var front, last := cycles[..|cycles| - 1], cycles[|cycles| - 1];
      assert forall c | c in front :: c in cycles;
      CompletedIsProcessed(front, id);
      StoredIsReported(front, id);
      if Completes(last) && ReportIn(last, id).Some? {
        OneMoreReport(id, ReportsOf(front, id), ReportIn(last, id).value);
      }
      assert ReportsOf(front, id) + [] == ReportsOf(front, id);
      assert Windows(front, id, true) + [] == Windows(front, id, true);
    }
  }

  lemma {:induction false} WindowsSplit(cycles: seq<Cycle>, id: SessionId)
    ensures multiset(AllWindows(cycles, id)) == multiset(Windows(cycles, id, true)) + multiset(Windows(cycles, id, false))
  {
    hide CycleWindow, Completes;
    if cycles != [] {
      var front, last := cycles[..|cycles| - 1], cycles[|cycles| - 1];
      WindowsSplit(front, id);
      var window := CycleWindow(front, last, id);
      assert Windows(front, id, true) + [] == Windows(front, id, true);
      assert Windows(front, id, false) + [] == Windows(front, id, false);
    }
  }

  /**
    Main result: over merging sections whose history only grows and whose extractions
    succeed, the completed ones extract every message up to the stored cursor exactly
    once; the crashed ones extract again what they had extracted, and nothing is skipped.
   */
  lemma SectionsExtractOnce(cycles: seq<Cycle>, id: SessionId)
    requires Merging(cycles) && Continuous(id, ReportsOf(cycles, id))
    ensures
      var cursor := if StoredSession(cycles, id).Some? then Cursor(StoredSession(cycles, id).value) else None;
      && Windows(cycles, id, true) == Indexes(0, NextIndex(cursor))
      && multiset(AllWindows(cycles, id))
         == multiset(Indexes(0, NextIndex(cursor))) + multiset(Windows(cycles, id, false))
  {
    hide StoredSession, Windows, AllWindows, ReportsOf, Processed, StoredAfter;
    CompletedIsProcessed(cycles, id);
    StoredIsReported(cycles, id);
    WindowsPartitionHistory(id, ReportsOf(cycles, id));
    WindowsSplit(cycles, id);
  }

  /**
    Main result: what a section extracts before it crashes is extracted again, first, by
    the next section that is told of at least that history.
   */
  lemma CrashedWindowRunsAgain(cycles: seq<Cycle>, crashed: Cycle, next: Cycle, id: SessionId)
    requires Merging(cycles) && Continuous(id, ReportsOf(cycles, id)) && !Completes(crashed)
    requires ReportIn(crashed, id).Some? && Continues(id, ReportsOf(cycles, id), ReportIn(crashed, id).value)
    requires ReportIn(next, id).Some? && Continues(id, ReportsOf(cycles, id), ReportIn(next, id).value)
    requires ReportIn(crashed, id).value.history <= ReportIn(next, id).value.history
    requires ReportIn(crashed, id).value.memoryState.Some? ==> ReportIn(next, id).value.memoryState.Some?
    ensures StoredSession(cycles + [crashed], id) == StoredSession(cycles, id)
    ensures CycleWindow(cycles, crashed, id) <= CycleWindow(cycles + [crashed], next, id)
  {
    hide Continues, Continuous, UpToDate, WindowOf;
    assert (cycles + [crashed])[..|cycles|] == cycles;
    assert StoredSession(cycles + [crashed], id) == StoredSession(cycles, id);
    var reports := ReportsOf(cycles, id);
    StoredIsReported(cycles, id);
    StaysUpToDate(id, reports);
    LongerHistoryReadsMore(id, reports, ReportIn(crashed, id).value, ReportIn(next, id).value);
  }

  lemma LongerHistoryReadsMore(id: SessionId, reports: seq<Report>, first: Report, second: Report)
    requires UpToDate(id, reports) && Continues(id, reports, first) && Continues(id, reports, second)
    requires first.history <= second.history && (first.memoryState.Some? ==> second.memoryState.Some?)
    ensures WindowOf(first.Session(id), StoredAfter(id, reports), first.storeFails)
         <= WindowOf(second.Session(id), StoredAfter(id, reports), second.storeFails)
  {
    hide StoredAfter;
    var stored := StoredAfter(id, reports);
    WindowStartsAtCursor(first.Session(id), stored);
    WindowStartsAtCursor(second.Session(id), stored);
  }

  lemma WindowStartsAtCursor(session: PersistedSession, previous: Option<PersistedSession>)
    requires previous.Some? ==> previous.value.memoryState.Some?
    requires previous.Some? && MemoryOf(previous.value).Some? ==> MemoryOf(previous.value).value.enabled
    requires MemoryOf(session).Some? ==> MemoryOf(session).value.enabled
    requires !Later(Cursor(session), if previous.Some? then Cursor(previous.value) else None)
    ensures
      WindowOf(session, previous, false)
      == if previous.None? && session.memoryState.None? then []
         else Indexes(NextIndex(if previous.Some? then Cursor(previous.value) else None), |session.history|)
  {
  }
}
