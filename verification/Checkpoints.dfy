/**
  Checkpoints of the core and how a partial update is merged into the stored one
  (merge_checkpoint_update in crates/quine-harness/src/local.rs).
 */
module Checkpoints {
  import opened Wrappers
  import opened SessionTrees
  import opened Messages

  datatype PersistentMemory = PersistentMemory(enabled: bool, lastExtracted: Option<nat>)

  datatype MemoryState = MemoryState(persistent: Option<PersistentMemory>)

  /** `details` stands for everything the merge and the extraction only carry along. */
  datatype PersistedSession = PersistedSession(
    sessionId: SessionId, history: seq<Message>, memoryState: Option<MemoryState>, details: string)

  datatype CoreCheckpoint = CoreCheckpoint(
    formatVersion: nat, sessions: seq<PersistedSession>, sessionTree: PersistedSessionTree)

  function IndexOf(sessions: seq<PersistedSession>, id: SessionId): (index: Option<nat>)
    ensures index.Some? ==> index.value < |sessions| && sessions[index.value].sessionId == id
    ensures index.Some? ==> forall k | 0 <= k < index.value :: sessions[k].sessionId != id
    ensures index.None? ==> forall k | 0 <= k < |sessions| :: sessions[k].sessionId != id
  {
    if sessions == [] then None
    else if sessions[0].sessionId == id then Some(0)
    else match IndexOf(sessions[1..], id) case Some(i) => Some(i + 1) case None => None
  }

  /** The session a reader of the list sees under an identifier. */
  function Lookup(sessions: seq<PersistedSession>, id: SessionId): Option<PersistedSession> {
    match IndexOf(sessions, id) case Some(i) => Some(sessions[i]) case None => None
  }

  function Upserted(sessions: seq<PersistedSession>, session: PersistedSession): seq<PersistedSession> {
    match IndexOf(sessions, session.sessionId)
    case Some(i) => sessions[i := session]
    case None => sessions + [session]
  }

  function AllUpserted(sessions: seq<PersistedSession>, updates: seq<PersistedSession>): seq<PersistedSession> {
    if updates == [] then sessions
    else Upserted(AllUpserted(sessions, updates[..|updates| - 1]), updates[|updates| - 1])
  }

  function Merged(previous: Option<CoreCheckpoint>, update: CoreCheckpoint): CoreCheckpoint {
    CoreCheckpoint(update.formatVersion,
                   AllUpserted(if previous.Some? then previous.value.sessions else [], update.sessions),
                   update.sessionTree)
  }

  const CORE_CHECKPOINT_FORMAT_VERSION := 1

  method MergeCheckpointUpdate(previous: Option<CoreCheckpoint>, update: CoreCheckpoint) returns (merged: CoreCheckpoint)
    ensures merged == Merged(previous, update)
  {
    merged := match previous
              case Some(checkpoint) => checkpoint
              case None => CoreCheckpoint(CORE_CHECKPOINT_FORMAT_VERSION, [], update.sessionTree);
    merged := merged.(formatVersion := update.formatVersion);
    merged := merged.(sessionTree := update.sessionTree);
    ghost var base := merged.sessions;
    for i := 0 to |update.sessions|
      invariant merged == CoreCheckpoint(update.formatVersion, AllUpserted(base, update.sessions[..i]), update.sessionTree)
    {
      assert update.sessions[..i + 1][..i] == update.sessions[..i];
      var updatedSession := update.sessions[i];
      var existing := IndexOf(merged.sessions, updatedSession.sessionId);
      match existing {
        case Some(k) => merged := merged.(sessions := merged.sessions[k := updatedSession]);
        case None => merged := merged.(sessions := merged.sessions + [updatedSession]);
      }
    }
    assert update.sessions[..|update.sessions|] == update.sessions;
  }

  // ----- Merging overrides by session identifier -----

  /** The last session in a list with an identifier. */
  function LastWith(sessions: seq<PersistedSession>, id: SessionId): Option<PersistedSession> {
    if sessions == [] then None
    else if sessions[|sessions| - 1].sessionId == id then Some(sessions[|sessions| - 1])
    else LastWith(sessions[..|sessions| - 1], id)
  }

  ghost predicate UniqueIds(sessions: seq<PersistedSession>) {
    forall i, j | 0 <= i < j < |sessions| :: sessions[i].sessionId != sessions[j].sessionId
  }

  lemma IndexIs(sessions: seq<PersistedSession>, id: SessionId, index: nat)
    requires index < |sessions| && sessions[index].sessionId == id
    requires forall k | 0 <= k < index :: sessions[k].sessionId != id
    ensures IndexOf(sessions, id) == Some(index)
  {
  }

  lemma UpsertedLookup(sessions: seq<PersistedSession>, session: PersistedSession, id: SessionId)
    ensures Lookup(Upserted(sessions, session), id)
         == if session.sessionId == id then Some(session) else Lookup(sessions, id)
  {
    var after := Upserted(sessions, session);
    match IndexOf(sessions, id)
    case Some(i) => IndexIs(after, id, i);
    case None =>
      if session.sessionId == id {
        IndexIs(after, id, |sessions|);
      }
  }

  lemma UpsertedKeepsOrder(sessions: seq<PersistedSession>, session: PersistedSession)
    ensures
      var after := Upserted(sessions, session);
      && |sessions| <= |after|
      && (forall i | 0 <= i < |sessions| :: after[i].sessionId == sessions[i].sessionId)
      && (UniqueIds(sessions) ==> UniqueIds(after))
  {
  }

  /**
    Main result: the merge is override by identifier.  Under each identifier it has the
    last update, or else what was there before; it never moves a session, and
    it keeps identifiers unique.
   */
  lemma {:induction false} MergeIsOverride(sessions: seq<PersistedSession>, updates: seq<PersistedSession>, id: SessionId)
    ensures
      var merged := AllUpserted(sessions, updates);
      && Lookup(merged, id) == (if LastWith(updates, id).Some? then LastWith(updates, id) else Lookup(sessions, id))
      && |sessions| <= |merged|
      && (forall i | 0 <= i < |sessions| :: merged[i].sessionId == sessions[i].sessionId)
      && (UniqueIds(sessions) ==> UniqueIds(merged))
  {
    hide Lookup, Upserted, UniqueIds;
    if updates != [] {
      var front, last := updates[..|updates| - 1], updates[|updates| - 1];
      MergeIsOverride(sessions, front, id);
      UpsertedLookup(AllUpserted(sessions, front), last, id);
      UpsertedKeepsOrder(AllUpserted(sessions, front), last);
    }
  }

  /** The merge takes the session tree and the format version from the update, whatever was stored. */
  lemma MergeTakesTree(previous: Option<CoreCheckpoint>, update: CoreCheckpoint)
    ensures Merged(previous, update).sessionTree == update.sessionTree
    ensures Merged(previous, update).formatVersion == update.formatVersion
  {
  }

  /** Without a stored checkpoint the merge has the sessions of the update, the last of each identifier. */
  lemma MergeOfNothing(update: CoreCheckpoint, id: SessionId)
    ensures Lookup(Merged(None, update).sessions, id) == LastWith(update.sessions, id)
  {
    MergeIsOverride([], update.sessions, id);
  }
}
