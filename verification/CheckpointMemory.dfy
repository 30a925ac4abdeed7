/**
  How a checkpoint update takes over the extraction cursor of the stored checkpoint and
  runs the extraction on what is new (enrich_checkpoint_with_persistent_memory in
  crates/quine-harness/src/local.rs, extract_and_persist_for_session in
  crates/quine-harness/src/memory_store.rs).
 */
module CheckpointMemory {
  import opened Wrappers
  import opened SessionTrees
  import opened Messages
  import opened Checkpoints

  const NEW_MEMORY := PersistentMemory(true, None)

  /** The order of optional message indexes: nothing comes before every index. */
  predicate Later(a: Option<nat>, b: Option<nat>) {
    a.Some? && (b.None? || b.value < a.value)
  }

  function MemoryOf(session: PersistedSession): Option<PersistentMemory> {
    if session.memoryState.Some? then session.memoryState.value.persistent else None
  }

  /** The index of the last message the extraction has seen. */
  function Cursor(session: PersistedSession): Option<nat> {
    if MemoryOf(session).Some? then MemoryOf(session).value.lastExtracted else None
  }

  /** The first message not yet seen. */
  function NextIndex(cursor: Option<nat>): nat {
    match cursor case Some(index) => index + 1 case None => 0
  }

  /** The reported session with the memory state of the stored one, where that is further. */
  function CarriedOver(session: PersistedSession, previous: Option<PersistedSession>): PersistedSession {
    if previous.None? || previous.value.memoryState.None? then session
    else
      var state := if session.memoryState.Some? then session.memoryState.value else MemoryState(None);
      var stored := previous.value.memoryState.value.persistent;
      var current := if state.persistent.Some? then state.persistent.value.lastExtracted else None;
      if stored.Some? && Later(stored.value.lastExtracted, current) then
        session.(memoryState := Some(state.(persistent := stored)))
      else
        session.(memoryState := Some(state))
  }

  /** The memory state after an extraction, and the messages it processed. */
  datatype Extraction = Extraction(persistent: Option<PersistentMemory>, from: nat, to: nat)

  /** Reading or writing the store can fail once there is something to extract. */
  function Extracted(session: PersistedSession, storeFails: bool): (r: Result<Extraction, ()>)
    ensures r.Ok? && r.value.from < r.value.to ==> r.value.to <= |session.history|
  {
    match session.memoryState
    case None => Ok(Extraction(None, 0, 0))
    case Some(state) =>
      var persistent := if state.persistent.Some? then state.persistent.value else NEW_MEMORY;
      var start := NextIndex(persistent.lastExtracted);
      if !persistent.enabled || start >= |session.history| then Ok(Extraction(Some(persistent), start, start))
      else if storeFails then Err(())
      else Ok(Extraction(Some(PersistentMemory(true, Some(|session.history| - 1))), start, |session.history|))
  }

  function EnrichedSession(session: PersistedSession, previous: Option<PersistedSession>, storeFails: bool): PersistedSession {
    var carried := CarriedOver(session, previous);
    match Extracted(carried, storeFails)
    case Err(_) => carried
    case Ok(extraction) => carried.(memoryState := Some(MemoryState(extraction.persistent)))
  }

  function Previous(previous: Option<CoreCheckpoint>, id: SessionId): Option<PersistedSession> {
    match previous case Some(checkpoint) => Lookup(checkpoint.sessions, id) case None => None
  }

  function EnrichedSessions(sessions: seq<PersistedSession>, previous: Option<CoreCheckpoint>, storeFails: SessionId -> bool)
    : (r: seq<PersistedSession>)
    ensures |r| == |sessions|
  {
    seq(|sessions|, i requires 0 <= i < |sessions| =>
      EnrichedSession(sessions[i], Previous(previous, sessions[i].sessionId), storeFails(sessions[i].sessionId)))
  }

  function Enriched(checkpoint: CoreCheckpoint, previous: Option<CoreCheckpoint>, storeFails: SessionId -> bool): CoreCheckpoint {
    checkpoint.(sessions := EnrichedSessions(checkpoint.sessions, previous, storeFails))
  }

  method EnrichCheckpoint(checkpoint: CoreCheckpoint, previous: Option<CoreCheckpoint>, storeFails: SessionId -> bool)
    returns (enriched: CoreCheckpoint)
    ensures enriched == Enriched(checkpoint, previous, storeFails)
  {
    enriched := checkpoint;
    for i := 0 to |checkpoint.sessions|
      invariant enriched.formatVersion == checkpoint.formatVersion && enriched.sessionTree == checkpoint.sessionTree
      invariant |enriched.sessions| == |checkpoint.sessions|
      invariant forall k | 0 <= k < |checkpoint.sessions| ::
                  enriched.sessions[k]
                  == if k < i then EnrichedSessions(checkpoint.sessions, previous, storeFails)[k] else checkpoint.sessions[k]
    {
      var session := checkpoint.sessions[i];
      var stored := Previous(previous, session.sessionId);
      if stored.Some? && stored.value.memoryState.Some? {
        var state := if session.memoryState.Some? then session.memoryState.value else MemoryState(None);
        var storedMemory := stored.value.memoryState.value.persistent;
        if storedMemory.Some? {
          var current := if state.persistent.Some? then state.persistent.value.lastExtracted else None;
          if Later(storedMemory.value.lastExtracted, current) {
            state := state.(persistent := storedMemory);
          }
        }
        session := session.(memoryState := Some(state));
      }
      var extraction := Extracted(session, storeFails(session.sessionId));
      match extraction {
        case Ok(result) => session := session.(memoryState := Some(MemoryState(result.persistent)));
        case Err(_) =>
      }
      assert session == EnrichedSession(checkpoint.sessions[i], stored, storeFails(checkpoint.sessions[i].sessionId));
      enriched := enriched.(sessions := enriched.sessions[i := session]);
    }
    assert enriched.sessions == EnrichedSessions(checkpoint.sessions, previous, storeFails);
  }

  // ----- The cursor never goes back -----

  lemma CursorNeverDecreases(session: PersistedSession, previous: PersistedSession, storeFails: bool)
    ensures !Later(Cursor(previous), Cursor(EnrichedSession(session, Some(previous), storeFails)))
  {
  }

  /** Enrichment changes nothing but the memory state. */
  lemma EnrichmentKeepsTheRest(session: PersistedSession, previous: Option<PersistedSession>, storeFails: bool)
    ensures
      var e := EnrichedSession(session, previous, storeFails);
      e.sessionId == session.sessionId && e.history == session.history && e.details == session.details
  {
  }

  /** Main result: a memory that is disabled stays as it is, with its cursor, and reads nothing. */
  lemma DisabledStaysDisabled(session: PersistedSession, previous: Option<PersistedSession>, storeFails: bool)
    requires
      var carried := MemoryOf(CarriedOver(session, previous));
      carried.Some? && !carried.value.enabled
    ensures MemoryOf(EnrichedSession(session, previous, storeFails)) == MemoryOf(CarriedOver(session, previous))
    ensures MessagesOf(session, previous, storeFails) == [] && WindowOf(session, previous, storeFails) == []
  {
  }

  /** A store that fails changes nothing, so the same messages are tried again. */
  lemma FailureKeepsCursor(session: PersistedSession, previous: Option<PersistedSession>)
    requires Extracted(CarriedOver(session, previous), true).Err?
    ensures EnrichedSession(session, previous, true) == CarriedOver(session, previous)
    ensures MessagesOf(session, previous, true) == []
  {
  }

  /** Which of the two memories is carried over: the stored one exactly when its cursor is further. */
  lemma CarriedIs(session: PersistedSession, previous: PersistedSession)
    requires MemoryOf(previous).Some?
    ensures MemoryOf(CarriedOver(session, Some(previous)))
         == if Later(Cursor(previous), Cursor(session)) then MemoryOf(previous) else MemoryOf(session)
  {
  }

  /** A session that is not known to have a memory state, and is not stored with one, reads nothing. */
  lemma UnknownReadsNothing(session: PersistedSession, storeFails: bool)
    requires session.memoryState == None
    ensures MessagesOf(session, None, storeFails) == []
    ensures MemoryOf(EnrichedSession(session, None, storeFails)) == None
  {
  }

  // ----- Every message is processed once -----

  /** What the core reports for one session at successive checkpoints. */
  datatype Report = Report(history: seq<Message>, memoryState: Option<MemoryState>, details: string, storeFails: bool) {
    function Session(id: SessionId): PersistedSession {
      PersistedSession(id, history, memoryState, details)
    }
  }

  /** The stored session after some reports. */
  function StoredAfter(id: SessionId, reports: seq<Report>): Option<PersistedSession> {
    if reports == [] then None
    else
      var last := reports[|reports| - 1];
      Some(EnrichedSession(last.Session(id), StoredAfter(id, reports[..|reports| - 1]), last.storeFails))
  }

  function Indexes(from: nat, to: nat): seq<nat> {
    if from < to then seq(to - from, i requires 0 <= i => from + i) else []
  }

  /** The message indexes that one extraction processes. */
  function WindowOf(session: PersistedSession, previous: Option<PersistedSession>, storeFails: bool): seq<nat> {
    match Extracted(CarriedOver(session, previous), storeFails)
    case Ok(extraction) => Indexes(extraction.from, extraction.to)
    case Err(_) => []
  }

  /** The messages behind these indexes. */
  function MessagesOf(session: PersistedSession, previous: Option<PersistedSession>, storeFails: bool): seq<Message> {
    var carried := CarriedOver(session, previous);
    match Extracted(carried, storeFails)
    case Ok(extraction) =>
      if extraction.from < extraction.to then carried.history[extraction.from..extraction.to] else []
    case Err(_) => []
  }

  /** The messages processed over some reports, in order. */
  function Read(id: SessionId, reports: seq<Report>): seq<Message> {
    if reports == [] then []
    else
      var front, last := reports[..|reports| - 1], reports[|reports| - 1];
      Read(id, front) + MessagesOf(last.Session(id), StoredAfter(id, front), last.storeFails)
  }

  /** The message indexes processed over some reports, in order. */
  function Processed(id: SessionId, reports: seq<Report>): seq<nat> {
    if reports == [] then []
    else
      var front, last := reports[..|reports| - 1], reports[|reports| - 1];
      Processed(id, front) + WindowOf(last.Session(id), StoredAfter(id, front), last.storeFails)
  }

  function CursorAfter(id: SessionId, reports: seq<Report>): Option<nat> {
    match StoredAfter(id, reports) case Some(session) => Cursor(session) case None => None
  }

  /** The next report: history has only grown, and the core knows of no cursor beyond the stored one. */
  ghost predicate Continues(id: SessionId, before: seq<Report>, report: Report) {
    && (before != [] ==> before[|before| - 1].history <= report.history)
    && !report.storeFails
    && (MemoryOf(report.Session(id)).Some? ==> MemoryOf(report.Session(id)).value.enabled)
    && !Later(Cursor(report.Session(id)), CursorAfter(id, before))
  }

  ghost predicate Continuous(id: SessionId, reports: seq<Report>) {
    reports != [] ==>
      Continuous(id, reports[..|reports| - 1]) && Continues(id, reports[..|reports| - 1], reports[|reports| - 1])
  }

  /** The stored state in a continuous history. */
  ghost predicate UpToDate(id: SessionId, reports: seq<Report>) {
    match StoredAfter(id, reports)
    case None => true
    case Some(session) =>
      && session.memoryState.Some?
      && (MemoryOf(session).Some? ==> MemoryOf(session).value.enabled && NextIndex(Cursor(session)) <= |session.history|)
      && session.history == reports[|reports| - 1].history
  }

  lemma StepIsUpToDate(id: SessionId, reports: seq<Report>)
    requires reports != []
    requires
      var front, last := reports[..|reports| - 1], reports[|reports| - 1];
      UpToDate(id, front) && Continues(id, front, last)
    ensures UpToDate(id, reports)
  {
  }

  lemma {:induction false} StaysUpToDate(id: SessionId, reports: seq<Report>)
    requires Continuous(id, reports)
    ensures UpToDate(id, reports)
  {
    if reports != [] {
      StaysUpToDate(id, reports[..|reports| - 1]);
      StepIsUpToDate(id, reports);
    }
  }

  /** A window starts where the previous cursor says and ends where the new cursor says. */
  lemma WindowOfOne(session: PersistedSession, previous: Option<PersistedSession>)
    requires previous.Some? ==>
               previous.value.memoryState.Some? && NextIndex(Cursor(previous.value)) <= |session.history|
    requires previous.Some? && MemoryOf(previous.value).Some? ==> MemoryOf(previous.value).value.enabled
    requires MemoryOf(session).Some? ==> MemoryOf(session).value.enabled
    requires !Later(Cursor(session), if previous.Some? then Cursor(previous.value) else None)
    ensures
      var before := if previous.Some? then Cursor(previous.value) else None;
      var after := Cursor(EnrichedSession(session, previous, false));
      match Extracted(CarriedOver(session, previous), false)
      case Ok(extraction) =>
        && extraction.from <= extraction.to
        && (extraction.from < extraction.to ==>
              extraction.from == NextIndex(before) && extraction.to == NextIndex(after))
        && (extraction.from == extraction.to ==> after == before)
      case Err(_) => false
  {
  }

  lemma WindowSpansCursors(id: SessionId, front: seq<Report>, last: Report)
    requires UpToDate(id, front) && Continues(id, front, last)
    ensures
      match Extracted(CarriedOver(last.Session(id), StoredAfter(id, front)), last.storeFails)
      case Ok(extraction) =>
        && extraction.from <= extraction.to
        && (extraction.from < extraction.to ==>
              extraction.from == NextIndex(CursorAfter(id, front))
              && extraction.to == NextIndex(CursorAfter(id, front + [last])))
        && (extraction.from == extraction.to ==> CursorAfter(id, front + [last]) == CursorAfter(id, front))
      case Err(_) => false
  {
    hide Extracted, CarriedOver, EnrichedSession;
    assert (front + [last])[..|front|] == front;
    WindowOfOne(last.Session(id), StoredAfter(id, front));
  }

  lemma IndexesJoin(a: nat, b: nat, c: nat)
    requires a <= b <= c
    ensures Indexes(a, b) + Indexes(b, c) == Indexes(a, c)
  {
  }

  /**
    Main result: while history only grows and extractions succeed, the windows processed
    at successive checkpoints join to 0, 1, 2, ... up to the cursor, so every message is
    processed exactly once.
   */
  lemma {:induction false} WindowsPartitionHistory(id: SessionId, reports: seq<Report>)
    requires Continuous(id, reports)
    ensures Processed(id, reports) == Indexes(0, NextIndex(CursorAfter(id, reports)))
  {
    hide Extracted, CarriedOver, EnrichedSession;
    if reports != [] {
      var front, last := reports[..|reports| - 1], reports[|reports| - 1];
      assert reports == front + [last];
      WindowsPartitionHistory(id, front);
      StaysUpToDate(id, front);
      WindowSpansCursors(id, front, last);
      IndexesJoin(0, NextIndex(CursorAfter(id, front)), NextIndex(CursorAfter(id, reports)));
    }
  }

  /** Main result: what has been read is the history up to the cursor, once and in order. */
  lemma {:induction false} ReadsHistoryOnce(id: SessionId, reports: seq<Report>)
    requires Continuous(id, reports) && reports != []
    ensures NextIndex(CursorAfter(id, reports)) <= |reports[|reports| - 1].history|
    ensures Read(id, reports) == reports[|reports| - 1].history[..NextIndex(CursorAfter(id, reports))]
  {
    var front, last := reports[..|reports| - 1], reports[|reports| - 1];
    assert reports == front + [last];
    StaysUpToDate(id, front);
    CursorIsWithin(id, reports);
    ReadsMore(id, front, last);
    hide MessagesOf, CursorAfter, StoredAfter, UpToDate;
    var from, to := NextIndex(CursorAfter(id, front)), NextIndex(CursorAfter(id, reports));
    if front == [] {
      NothingStored(id);
    } else {
      ReadsHistoryOnce(id, front);
      PrefixGrows(front[|front| - 1].history, last.history, from, to);
    }
  }

  lemma PrefixGrows(before: seq<Message>, after: seq<Message>, from: nat, to: nat)
    requires before <= after && from <= |before| && from <= to <= |after|
    ensures before[..from] + after[from..to] == after[..to]
  {
  }

  lemma ReadsMore(id: SessionId, front: seq<Report>, last: Report)
    requires UpToDate(id, front) && Continues(id, front, last)
    requires NextIndex(CursorAfter(id, front + [last])) <= |last.history|
    ensures
      var from, to := NextIndex(CursorAfter(id, front)), NextIndex(CursorAfter(id, front + [last]));
      from <= to && MessagesOf(last.Session(id), StoredAfter(id, front), last.storeFails) == last.history[from..to]
  {
    hide Extracted, CarriedOver, EnrichedSession, StoredAfter, CursorAfter;
    WindowSpansCursors(id, front, last);
    CarriedKeepsHistory(last.Session(id), StoredAfter(id, front));
  }

  lemma NothingStored(id: SessionId)
    ensures StoredAfter(id, []) == None && NextIndex(CursorAfter(id, [])) == 0
  {
  }

  lemma CarriedKeepsHistory(session: PersistedSession, previous: Option<PersistedSession>)
    ensures CarriedOver(session, previous).history == session.history
  {
  }

  lemma CursorIsWithin(id: SessionId, reports: seq<Report>)
    requires Continuous(id, reports) && reports != []
    ensures NextIndex(CursorAfter(id, reports)) <= |reports[|reports| - 1].history|
  {
    StaysUpToDate(id, reports);
  }

  /** Once the memory state is known, the cursor covers the whole reported history. */
  lemma CursorReachesEnd(id: SessionId, reports: seq<Report>)
    requires Continuous(id, reports) && |reports| >= 2
    ensures NextIndex(CursorAfter(id, reports)) == |reports[|reports| - 1].history|
  {
    StaysUpToDate(id, reports[..|reports| - 1]);
  }

  /** Nothing stands in the way of an extraction. */
  predicate MayExtract(session: PersistedSession) {
    session.memoryState.Some? && (MemoryOf(session).Some? ==> MemoryOf(session).value.enabled)
  }

  /**
    Exactly when new messages are all processed: the messages added behind the first
    `kept` are seen if and only if an extraction is possible and the cursor lies within
    those first ones.
   */
  lemma AddedAreProcessedIff(session: PersistedSession, previous: Option<PersistedSession>, storeFails: bool, kept: nat)
    requires kept < |session.history|
    ensures
      var carried := CarriedOver(session, previous);
      (forall i: nat | kept <= i < |session.history| :: i in WindowOf(session, previous, storeFails))
      <==> MayExtract(carried) && !storeFails && NextIndex(Cursor(carried)) <= kept
  {
    var carried := CarriedOver(session, previous);
    var extracted := Extracted(carried, storeFails);
    if extracted.Ok? {
      var extraction, window := extracted.value, WindowOf(session, previous, storeFails);
      assert window == Indexes(extraction.from, extraction.to);
      MembersOfIndexes(extraction.from, extraction.to);
      assert kept in window <==> extraction.from <= kept < extraction.to;
      CarriedKeepsHistory(session, previous);
      assert extraction.from < extraction.to ==> extraction.to == |session.history|;
    } else {
      assert kept !in WindowOf(session, previous, storeFails);
    }
  }

  lemma MembersOfIndexes(from: nat, to: nat)
    ensures forall i: nat :: i in Indexes(from, to) <==> from <= i < to
  {
    forall i: nat
      ensures i in Indexes(from, to) <==> from <= i < to
    {
      if from <= i < to {
        assert Indexes(from, to)[i - from] == i;
      }
    }
  }
}
