/**
  One extraction as a whole (extract_and_persist_for_session in
  crates/quine-harness/src/memory_store.rs): the window of new messages, and the pass
  over exactly that window.
 */
module MemoryExtraction {
  import opened Wrappers
  import opened Messages
  import opened Checkpoints
  import opened CheckpointMemory
  import opened MemoryStores

  /** The messages an extraction has gone through. */
  function Window(session: PersistedSession, extraction: Extraction): seq<Message>
    requires extraction.from < extraction.to ==> extraction.to <= |session.history|
  {
    if extraction.from < extraction.to then session.history[extraction.from..extraction.to] else []
  }

  /** The new cursor, and a pass over the messages between the old one and the new one. */
  method ExtractAndPersistForSession(session: PersistedSession, scope: WriteScope, stored: Records, storeFails: bool)
    returns (result: Result<Extraction, ()>, tally: Tally, ghost decisions: seq<Decision>)
    ensures result == Extracted(session, storeFails)
    ensures result.Ok? ==>
      && IsPass(Window(session, result.value), scope, Tally(stored, 0, 0, 0, 0), decisions, tally)
      && tally.Handled() == |Window(session, result.value)|
  {
    hide IsPass;
    tally, decisions := Tally(stored, 0, 0, 0, 0), [];
    PassOverNothing(scope, tally);
    if session.memoryState.None? {
      return Ok(Extraction(None, 0, 0)), tally, decisions;
    }
    var state := session.memoryState.value;
    var persistent := if state.persistent.Some? then state.persistent.value else NEW_MEMORY;
    var start := NextIndex(persistent.lastExtracted);
    if !persistent.enabled || start >= |session.history| {
      return Ok(Extraction(Some(persistent), start, start)), tally, decisions;
    }
    if storeFails {
      return Err(()), tally, decisions;
    }
    assert session.history[start..|session.history|] == session.history[start..];
    tally, decisions := ExtractWindow(session.history[start..], scope, stored);
    result := Ok(Extraction(Some(PersistentMemory(true, Some(|session.history| - 1))), start, |session.history|));
  }

  /** What one extraction reads is what its window holds. */
  lemma WindowIsRead(session: PersistedSession, previous: Option<PersistedSession>, storeFails: bool)
    ensures
      var carried := CarriedOver(session, previous);
      match Extracted(carried, storeFails)
      case Ok(extraction) => MessagesOf(session, previous, storeFails) == Window(carried, extraction)
      case Err(_) => MessagesOf(session, previous, storeFails) == []
  {
  }

  /**
    Main result: the extraction of a reported session accounts for every message it reads:
    created, updated, tombstoned and ignored add up to their number, and the live records
    change by created minus tombstoned.
   */
  lemma ExtractionAccounts(session: PersistedSession, previous: Option<PersistedSession>, scope: WriteScope, stored: Records,
                           decisions: seq<Decision>, tally: Tally)
    requires IsPass(MessagesOf(session, previous, false), scope, Tally(stored, 0, 0, 0, 0), decisions, tally)
    ensures tally.Handled() == |MessagesOf(session, previous, false)| == |WindowOf(session, previous, false)|
    ensures |tally.live| + tally.tombstoned == |stored| + tally.created
  {
    hide IsPass;
    PassAccounts(MessagesOf(session, previous, false), scope, Tally(stored, 0, 0, 0, 0), decisions, tally);
  }
}
