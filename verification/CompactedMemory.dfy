/**
  Compaction shortens a history under a cursor that stays where it is
  (compact_session_history in crates/quine-core/src/engine.rs, read by the extraction in
  crates/quine-harness/src/memory_store.rs): when messages added later are still read.
 */
module CompactedMemory {
  import opened Wrappers
  import opened SessionTrees
  import opened Messages
  import opened Compaction
  import opened Checkpoints
  import opened CheckpointMemory

  /**
    Main result: after a history has been read to its end and then compacted, the messages
    added to it are all read exactly when the tail that was kept starts at or before the
    place right behind the leading system message and one more: when the compaction has
    not made the history shorter.
   */
  lemma AddedAfterCompactionIff(id: SessionId, reports: seq<Report>, plan: CompactionPlan, archiveRef: string,
                                added: History, next: Report)
    requires |reports| >= 2 && Continuous(id, reports)
    requires plan.tailStart <= |reports[|reports| - 1].history|
    requires added != [] && next.history == ApplyPlan(reports[|reports| - 1].history, archiveRef, plan) + added
    requires !next.storeFails && !Later(Cursor(next.Session(id)), CursorAfter(id, reports))
    requires MemoryOf(next.Session(id)).Some? ==> MemoryOf(next.Session(id)).value.enabled
    ensures
      var history := reports[|reports| - 1].history;
      var kept := |ApplyPlan(history, archiveRef, plan)|;
      (forall i: nat | kept <= i < |next.history| :: i in WindowOf(next.Session(id), StoredAfter(id, reports), false))
      <==> plan.tailStart <= |LeadingSystem(history)| + 1
  {
    hide StoredAfter, WindowOf, CarriedOver, Continuous;
    var history := reports[|reports| - 1].history;
    CursorReachesEnd(id, reports);
    StaysUpToDate(id, reports);
    StoredIsKnown(id, reports);
    CarriedCursor(next.Session(id), StoredAfter(id, reports).value);
    AddedAreProcessedIff(next.Session(id), StoredAfter(id, reports), false, |ApplyPlan(history, archiveRef, plan)|);
  }

  lemma StoredIsKnown(id: SessionId, reports: seq<Report>)
    requires reports != []
    ensures StoredAfter(id, reports).Some?
  {
  }

  /** A stored cursor that is not behind is taken over. */
  lemma CarriedCursor(session: PersistedSession, stored: PersistedSession)
    requires stored.memoryState.Some? && !Later(Cursor(session), Cursor(stored))
    requires MemoryOf(stored).Some? ==> MemoryOf(stored).value.enabled
    requires MemoryOf(session).Some? ==> MemoryOf(session).value.enabled
    ensures MayExtract(CarriedOver(session, Some(stored)))
    ensures Cursor(CarriedOver(session, Some(stored))) == Cursor(stored)
  {
  }

  /** The conversation of CompactionLosesAMessage. */
  const TALK := [Message(User, Text("a")), Message(Assistant, Text("b")), Message(User, Text("c"))]

  const ADDED := Message(User, Text("d"))

  lemma CompactedTalk(summary: string, archiveRef: string)
    ensures LegacyPlan(TALK, summary).tailStart == 2
    ensures ApplyPlan(TALK, archiveRef, LegacyPlan(TALK, summary)) == [SummaryMessage(summary, archiveRef), TALK[2]]
  {
    assert PreviousLiveSegmentStart(TALK, 3) == Some(2);
  }

  /**
    A conversation of three messages is read, compacted to two, and gets a new message:
    the cursor is already beyond it, and it is never read.
   */
  lemma CompactionLosesAMessage(id: SessionId, summary: string, archiveRef: string)
    ensures
      var compacted := ApplyPlan(TALK, archiveRef, LegacyPlan(TALK, summary));
      var first := Report(TALK, Some(MemoryState(None)), "", false);
      var second := Report(compacted + [ADDED], Some(MemoryState(None)), "", false);
      && Read(id, [first]) == TALK
      && Read(id, [first, second]) == TALK
      && ADDED !in Read(id, [first, second])
      && ADDED in second.history
  {
    var compacted := ApplyPlan(TALK, archiveRef, LegacyPlan(TALK, summary));
    var first := Report(TALK, Some(MemoryState(None)), "", false);
    var second := Report(compacted + [ADDED], Some(MemoryState(None)), "", false);
    CompactedTalk(summary, archiveRef);
    ReadsAll(id, first);
    assert [first, second][..1] == [first];
    var stored := StoredAfter(id, [first]);
    assert |second.history| == 3 && second.history[2] == ADDED;
    ReadsNothing(second.Session(id), stored.value);
    assert TALK + [] == TALK;
  }

  lemma ReadsAll(id: SessionId, first: Report)
    requires first.history != [] && first.memoryState == Some(MemoryState(None)) && !first.storeFails
    ensures Read(id, [first]) == first.history
    ensures StoredAfter(id, [first]) ==
            Some(first.Session(id).(memoryState := Some(MemoryState(Some(PersistentMemory(true, Some(|first.history| - 1)))))))
  {
    assert [first][..0] == [];
    assert [] + first.history == first.history;
  }

  lemma ReadsNothing(session: PersistedSession, stored: PersistedSession)
    requires session.memoryState == Some(MemoryState(None))
    requires MemoryOf(stored).Some? && NextIndex(Cursor(stored)) >= |session.history| && Cursor(stored).Some?
    ensures MessagesOf(session, Some(stored), false) == []
  {
  }
}
