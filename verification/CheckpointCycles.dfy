/**
  The locked read-enrich-merge-commit sections (crates/quine-harness/src/local.rs) on top
  of the crash-safe store.  The lock makes the sections follow one another.
 */
module CheckpointCycles {
  import opened Wrappers
  import opened SessionTrees
  import opened Storage
  import opened StorageCrashes
  import opened Checkpoints
  import opened CheckpointMemory

  /** The three places that commit.  Only a full request replaces the stored checkpoint. */
  datatype Section = SessionRequest | Fanout | FullRequest

  /** One section, of whose commit the first `steps` disk operations happen. */
  datatype Cycle = Cycle(section: Section, update: CoreCheckpoint, storeFails: SessionId -> bool, steps: nat)

  /** What a section commits, given what it has loaded. */
  function Updated(previous: Option<CoreCheckpoint>, section: Section, update: CoreCheckpoint, storeFails: SessionId -> bool)
    : CoreCheckpoint
  {
    var enriched := Enriched(update, previous, storeFails);
    if section.FullRequest? then enriched else Merged(previous, enriched)
  }

  /** A failed load stops a request; the fan-out loop goes on as if nothing were stored. */
  function LoadedBy(section: Section, files: Files<CoreCheckpoint>): Result<Option<CoreCheckpoint>, StorageError> {
    match LoadLatest(files)
    case Ok(previous) => Ok(previous)
    case Err(error) => if section.Fanout? then Ok(None) else Err(error)
  }

  function Cycled(files: Files<CoreCheckpoint>, cycle: Cycle): Files<CoreCheckpoint> {
    match LoadedBy(cycle.section, files)
    case Err(_) => files
    case Ok(previous) =>
      Attempted(files, Attempt(Updated(previous, cycle.section, cycle.update, cycle.storeFails), cycle.steps))
  }

  class LocalHarness {
    const storage: StorageManager<CoreCheckpoint>

    constructor (storage: StorageManager<CoreCheckpoint>)
      ensures this.storage == storage
    {
      this.storage := storage;
    }

    /** One section that is not interrupted. */
    method CommitSection(section: Section, update: CoreCheckpoint, storeFails: SessionId -> bool)
      returns (committed: Result<CoreCheckpoint, StorageError>)
      modifies storage.disk
      ensures storage.disk.files
           == Cycled(old(storage.disk.files), Cycle(section, update, storeFails, COMMIT_LENGTH))
      ensures LoadLatest(old(storage.disk.files)).Ok? ==> committed.Ok?
      ensures committed.Ok? ==>
        && LoadedBy(section, old(storage.disk.files)).Ok?
        && committed.value == Updated(LoadedBy(section, old(storage.disk.files)).value, section, update, storeFails)
    {
      var loaded := storage.LoadLatestCheckpoint();
      var previous: Option<CoreCheckpoint> := None;
      match loaded {
        case Ok(stored) => previous := stored;
        case Err(error) =>
          if !section.Fanout? {
            return Err(error);
          }
      }
      var checkpoint := EnrichCheckpoint(update, previous, storeFails);
      if !section.FullRequest? {
        checkpoint := MergeCheckpointUpdate(previous, checkpoint);
      }
      var written := storage.CommitCheckpoint(checkpoint);
      match written {
        case Err(error) => return Err(error);
        case Ok(_) => return Ok(checkpoint);
      }
    }
  }

  // ----- What the store means -----

  function FilesAfter(cycles: seq<Cycle>): Files<CoreCheckpoint> {
    if cycles == [] then map[] else Cycled(FilesAfter(cycles[..|cycles| - 1]), cycles[|cycles| - 1])
  }

  /** The checkpoint a reader should see: only completed cycles count. */
  function StoredAfterCycles(cycles: seq<Cycle>): Option<CoreCheckpoint> {
    if cycles == [] then None
    else
      var before, last := StoredAfterCycles(cycles[..|cycles| - 1]), cycles[|cycles| - 1];
      if last.steps >= COMMIT_LENGTH then Some(Updated(before, last.section, last.update, last.storeFails)) else before
  }

  lemma CycleShows(files: Files<CoreCheckpoint>, cycle: Cycle, committed: Option<CoreCheckpoint>, generation: nat)
    requires Shows(files, committed, generation)
    ensures
      if cycle.steps >= COMMIT_LENGTH
      then Shows(Cycled(files, cycle), Some(Updated(committed, cycle.section, cycle.update, cycle.storeFails)), generation + 1)
      else Shows(Cycled(files, cycle), committed, generation)
  {
    hide Attempted, Updated, Shows;
    ShownIsLoaded(files, committed, generation);
    AttemptShows(files, Attempt(Updated(committed, cycle.section, cycle.update, cycle.storeFails), cycle.steps), committed, generation);
  }

  lemma {:induction false} FilesShowStored(cycles: seq<Cycle>) returns (generation: nat)
    ensures Shows(FilesAfter(cycles), StoredAfterCycles(cycles), generation)
  {
    if cycles == [] {
      generation := 0;
    } else {
      generation := FilesShowStored(cycles[..|cycles| - 1]);
      CycleShows(FilesAfter(cycles[..|cycles| - 1]), cycles[|cycles| - 1], StoredAfterCycles(cycles[..|cycles| - 1]), generation);
      if cycles[|cycles| - 1].steps >= COMMIT_LENGTH {
        generation := generation + 1;
      }
    }
  }

  /**
    Main result: after any sections, each crashed anywhere or completed, loading succeeds
    and gives the checkpoint that the completed sections alone produce; in particular the
    fan-out loop never has to go on with nothing.
   */
  lemma CyclesAreCrashSafe(cycles: seq<Cycle>)
    ensures LoadLatest(FilesAfter(cycles)) == Ok(StoredAfterCycles(cycles))
    ensures LoadedBy(Fanout, FilesAfter(cycles)) == LoadedBy(SessionRequest, FilesAfter(cycles))
  {
    var generation := FilesShowStored(cycles);
    ShownIsLoaded(FilesAfter(cycles), StoredAfterCycles(cycles), generation);
  }

  /** What the last completed section was told. */
  function LastUpdate(cycles: seq<Cycle>): Option<CoreCheckpoint> {
    if cycles == [] then None
    else if cycles[|cycles| - 1].steps >= COMMIT_LENGTH then Some(cycles[|cycles| - 1].update)
    else LastUpdate(cycles[..|cycles| - 1])
  }

  lemma {:induction false} StoredTreeIsLast(cycles: seq<Cycle>)
    ensures
      match LastUpdate(cycles)
      case None => StoredAfterCycles(cycles) == None
      case Some(update) =>
        && StoredAfterCycles(cycles).Some?
        && StoredAfterCycles(cycles).value.sessionTree == update.sessionTree
        && StoredAfterCycles(cycles).value.formatVersion == update.formatVersion
  {
    hide AllUpserted, EnrichedSessions;
    if cycles != [] {
      StoredTreeIsLast(cycles[..|cycles| - 1]);
    }
  }

  /**
    Main result: after any sections of any kind, crashed or completed, what is loaded has
    the session tree and the format version that the last completed section was told; and
    there is nothing to load exactly when none was completed.
   */
  lemma LoadedTreeIsLast(cycles: seq<Cycle>)
    ensures
      match LastUpdate(cycles)
      case None => LoadLatest(FilesAfter(cycles)) == Ok(None)
      case Some(update) =>
        exists loaded: CoreCheckpoint ::
          && LoadLatest(FilesAfter(cycles)) == Ok(Some(loaded))
          && loaded.sessionTree == update.sessionTree && loaded.formatVersion == update.formatVersion
  {
    hide LoadLatest, FilesAfter, StoredAfterCycles;
    CyclesAreCrashSafe(cycles);
    StoredTreeIsLast(cycles);
  }

  /** Should the stored checkpoint be unreadable, a request stops there, while the fan-out loop goes on with nothing. */
  lemma UnreadableStore(section: Section, files: Files<CoreCheckpoint>)
    requires LoadLatest(files).Err?
    ensures section.Fanout? ==> LoadedBy(section, files) == Ok(None)
    ensures !section.Fanout? ==> LoadedBy(section, files).Err?
  {
    hide LoadLatest;
  }

  // ----- No session is lost on the merging paths -----

  ghost predicate Merging(cycles: seq<Cycle>) {
    forall c | c in cycles :: !c.section.FullRequest?
  }

  function StoredSession(cycles: seq<Cycle>, id: SessionId): Option<PersistedSession> {
    Previous(StoredAfterCycles(cycles), id)
  }

  /** What the completed sections were last told about a session. */
  function LatestUpdate(cycles: seq<Cycle>, id: SessionId): Option<PersistedSession> {
    if cycles == [] then None
    else
      var last := cycles[|cycles| - 1];
      if last.steps >= COMMIT_LENGTH && LastWith(last.update.sessions, id).Some? then LastWith(last.update.sessions, id)
      else LatestUpdate(cycles[..|cycles| - 1], id)
  }

  lemma {:induction false} EnrichedLastWith(
    sessions: seq<PersistedSession>, previous: Option<CoreCheckpoint>, storeFails: SessionId -> bool, id: SessionId)
    ensures
      LastWith(EnrichedSessions(sessions, previous, storeFails), id)
      == match LastWith(sessions, id)
         case None => None
         case Some(session) => Some(EnrichedSession(session, Previous(previous, id), storeFails(id)))
  {
    hide EnrichedSession;
    if sessions != [] {
      var last := sessions[|sessions| - 1];
      var enriched := EnrichedSessions(sessions, previous, storeFails);
      EnrichmentKeepsTheRest(last, Previous(previous, last.sessionId), storeFails(last.sessionId));
      assert enriched[..|sessions| - 1] == EnrichedSessions(sessions[..|sessions| - 1], previous, storeFails);
      EnrichedLastWith(sessions[..|sessions| - 1], previous, storeFails, id);
    }
  }

  /** What a merging section stores under an identifier. */
  lemma MergeStores(previous: Option<CoreCheckpoint>, section: Section, update: CoreCheckpoint,
                    storeFails: SessionId -> bool, id: SessionId)
    requires !section.FullRequest?
    ensures
      Lookup(Updated(previous, section, update, storeFails).sessions, id)
      == match LastWith(update.sessions, id)
         case None => Previous(previous, id)
         case Some(session) => Some(EnrichedSession(session, Previous(previous, id), storeFails(id)))
  {
    hide EnrichedSession, AllUpserted;
    EnrichedLastWith(update.sessions, previous, storeFails, id);
    MergeIsOverride(if previous.Some? then previous.value.sessions else [],
                    EnrichedSessions(update.sessions, previous, storeFails), id);
  }

  ghost predicate SameApartFromMemory(a: PersistedSession, b: PersistedSession) {
    a.sessionId == b.sessionId && a.history == b.history && a.details == b.details
  }

  /**
    Main result: along any run of merging sections, a session is stored exactly when a
    completed section has reported it, and then as it was last reported, apart from its
    memory state.
   */
  lemma {:induction false} NoSessionIsLost(cycles: seq<Cycle>, id: SessionId)
    requires Merging(cycles)
    ensures
      match LatestUpdate(cycles, id)
      case None => StoredSession(cycles, id) == None
      case Some(reported) => StoredSession(cycles, id).Some? && SameApartFromMemory(StoredSession(cycles, id).value, reported)
  {
    hide Updated, EnrichedSession, Lookup;
    if cycles != [] {
      var front, last := cycles[..|cycles| - 1], cycles[|cycles| - 1];
      assert forall c | c in front :: c in cycles;
      assert last in cycles;
      NoSessionIsLost(front, id);
      if last.steps >= COMMIT_LENGTH {
        var before := StoredAfterCycles(front);
        MergeStores(before, last.section, last.update, last.storeFails, id);
        if LastWith(last.update.sessions, id).Some? {
          EnrichmentKeepsTheRest(LastWith(last.update.sessions, id).value, Previous(before, id), last.storeFails(id));
        }
      }
    }
  }

  /** Enriching a list changes what is found under an identifier session by session. */
  lemma {:induction false} EnrichedLookup(
    sessions: seq<PersistedSession>, previous: Option<CoreCheckpoint>, storeFails: SessionId -> bool, id: SessionId)
    ensures
      Lookup(EnrichedSessions(sessions, previous, storeFails), id)
      == match Lookup(sessions, id)
         case None => None
         case Some(session) => Some(EnrichedSession(session, Previous(previous, id), storeFails(id)))
  {
    hide EnrichedSession;
    var enriched := EnrichedSessions(sessions, previous, storeFails);
    forall i | 0 <= i < |sessions|
      ensures enriched[i].sessionId == sessions[i].sessionId
    {
      EnrichmentKeepsTheRest(sessions[i], Previous(previous, sessions[i].sessionId), storeFails(sessions[i].sessionId));
    }
    if IndexOf(sessions, id).Some? {
      IndexIs(enriched, id, IndexOf(sessions, id).value);
    }
  }

  /**
    Main result: the extraction cursor of a stored session never goes back from one
    section to the next, whatever section it is, as long as the session stays stored.
   */
  lemma StoredCursorNeverDecreases(cycles: seq<Cycle>, next: Cycle, id: SessionId)
    requires StoredSession(cycles, id).Some? && StoredSession(cycles + [next], id).Some?
    ensures !Later(Cursor(StoredSession(cycles, id).value), Cursor(StoredSession(cycles + [next], id).value))
  {
    hide EnrichedSession, Lookup;
    assert (cycles + [next])[..|cycles|] == cycles;
    if next.steps >= COMMIT_LENGTH {
      var before := StoredAfterCycles(cycles);
      if next.section.FullRequest? {
        EnrichedLookup(next.update.sessions, before, next.storeFails, id);
        CursorNeverDecreases(Lookup(next.update.sessions, id).value, StoredSession(cycles, id).value, next.storeFails(id));
      } else {
        hide Updated;
        MergeStores(before, next.section, next.update, next.storeFails, id);
        if LastWith(next.update.sessions, id).Some? {
          CursorNeverDecreases(LastWith(next.update.sessions, id).value, StoredSession(cycles, id).value, next.storeFails(id));
        }
      }
    }
  }

  /** A stored session stays stored through every section except a full request that does not report it. */
  lemma StaysStoredIff(cycles: seq<Cycle>, next: Cycle, id: SessionId)
    requires StoredSession(cycles, id).Some?
    ensures StoredSession(cycles + [next], id).Some?
       <==> (next.section.FullRequest? && next.steps >= COMMIT_LENGTH ==> LastWith(next.update.sessions, id).Some?)
  {
    hide EnrichedSession, Lookup;
    assert (cycles + [next])[..|cycles|] == cycles;
    if next.steps >= COMMIT_LENGTH {
      var before := StoredAfterCycles(cycles);
      if next.section.FullRequest? {
        FullRequestDrops(before, next.update, next.storeFails, id);
      } else {
        hide Updated;
        MergeStores(before, next.section, next.update, next.storeFails, id);
      }
    }
  }

  /** A full request drops whatever the core does not report. */
  lemma FullRequestDrops(previous: Option<CoreCheckpoint>, update: CoreCheckpoint, storeFails: SessionId -> bool, id: SessionId)
    ensures Lookup(Updated(previous, FullRequest, update, storeFails).sessions, id) == None
       <==> LastWith(update.sessions, id) == None
  {
    FirstOrLast(EnrichedSessions(update.sessions, previous, storeFails), id);
    EnrichedLastWith(update.sessions, previous, storeFails, id);
  }

  lemma {:induction false} FirstOrLast(sessions: seq<PersistedSession>, id: SessionId)
    ensures Lookup(sessions, id) == None <==> LastWith(sessions, id) == None
  {
    if sessions != [] {
      var front := sessions[..|sessions| - 1];
      FirstOrLast(front, id);
      match IndexOf(front, id) {
        case Some(i) =>
          assert forall k | 0 <= k <= i :: sessions[k] == front[k];
          IndexIs(sessions, id, i);
        case None =>
          if sessions[|sessions| - 1].sessionId == id {
            IndexIs(sessions, id, |front|);
          }
      }
    }
  }
}
