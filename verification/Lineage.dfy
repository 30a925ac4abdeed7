/**
  The two walks from a session to the root of its tree: over the persisted tree
  (lineage_snapshot in crates/quine-harness/src/storage.rs) and over the listing of
  live sessions (session_lineage in crates/quine-harness/src/local.rs).  Neither has
  a cycle guard, so both need a walk that ends.
 */
module Lineage {
  import opened Wrappers
  import opened SuccessorGraphs
  import opened SessionTrees
  import opened SessionRuns
  import opened Sorting

  datatype LineageSnapshot = LineageSnapshot(
    parentId: Option<SessionId>, rootId: SessionId, depth: nat, childIds: seq<SessionId>)

  datatype SessionListing = SessionListing(parentId: Option<SessionId>)

  /** The textual order of identifiers is the order of the numbers behind them. */
  predicate IdLe(a: SessionId, b: SessionId) {
    a.uuid <= b.uuid
  }

  function ParentsOf(sessions: map<SessionId, SessionListing>): map<SessionId, SessionId> {
    map s | s in sessions && sessions[s].parentId.Some? :: sessions[s].parentId.value
  }

  /** The walk needs nothing but that it ends, which is: that no session on it is above itself. */
  method WalkToRoot(parents: map<SessionId, SessionId>, sessionId: SessionId) returns (rootId: SessionId, depth: nat)
    requires Ends(parents, sessionId)
    ensures EndsAt(parents, sessionId, rootId, depth)
  {
    rootId, depth := sessionId, 0;
    ghost var root, length := EndOf(parents, sessionId);
    while rootId in parents
      invariant depth <= length && Walk(parents, sessionId, depth) == Some(rootId)
      decreases length - depth
    {
      StillWalking(parents, sessionId, rootId, depth, root, length);
      rootId := parents[rootId];
      depth := depth + 1;
    }
  }

  lemma EndOf(parents: map<SessionId, SessionId>, x: SessionId) returns (root: SessionId, length: nat)
    requires Ends(parents, x)
    ensures EndsAt(parents, x, root, length)
  {
    root, length :| EndsAt(parents, x, root, length);
  }

  lemma StillWalking(parents: map<SessionId, SessionId>, x: SessionId, at: SessionId, depth: nat, root: SessionId, length: nat)
    requires EndsAt(parents, x, root, length) && depth <= length && Walk(parents, x, depth) == Some(at) && at in parents
    ensures depth < length && Walk(parents, x, depth + 1) == Some(parents[at])
  {
    WalkAdd(parents, x, depth, 1);
    assert Walk(parents, at, 1) == Walk(parents, parents[at], 0);
  }

  method SnapshotLineage(tree: PersistedSessionTree, sessionId: SessionId) returns (lineage: LineageSnapshot)
    requires Ends(tree.parents, sessionId)
    ensures EndsAt(tree.parents, sessionId, lineage.rootId, lineage.depth)
    ensures lineage.parentId == if sessionId in tree.parents then Some(tree.parents[sessionId]) else None
    ensures multiset(lineage.childIds) == multiset(ListAt(tree.children, sessionId))
    ensures forall i, j | 0 <= i < j < |lineage.childIds| :: lineage.childIds[i].uuid <= lineage.childIds[j].uuid
  {
    var parentId := if sessionId in tree.parents then Some(tree.parents[sessionId]) else None;
    var rootId, depth := WalkToRoot(tree.parents, sessionId);
    var childIds := Sort(IdLe, ListAt(tree.children, sessionId));
    SortSorted(IdLe, ListAt(tree.children, sessionId));
    lineage := LineageSnapshot(parentId, rootId, depth, childIds);
  }

  method SessionLineage(sessions: map<SessionId, SessionListing>) returns (lineage: map<SessionId, (SessionId, nat)>)
    requires forall s | s in sessions :: Ends(ParentsOf(sessions), s)
    ensures lineage.Keys == sessions.Keys
    ensures forall s | s in sessions :: EndsAt(ParentsOf(sessions), s, lineage[s].0, lineage[s].1)
  {
    ghost var parents := ParentsOf(sessions);
    lineage := map[];
    var remaining := sessions.Keys;
    while remaining != {}
      invariant remaining <= sessions.Keys && lineage.Keys == sessions.Keys - remaining
      invariant forall s | s in lineage :: EndsAt(parents, s, lineage[s].0, lineage[s].1)
    {
      var sessionId :| sessionId in remaining;
      var depth, rootId := 0, sessionId;
      ghost var root, length := EndOf(parents, sessionId);
      while rootId in sessions && sessions[rootId].parentId.Some?
        invariant depth <= length && Walk(parents, sessionId, depth) == Some(rootId)
        decreases length - depth
      {
        StillWalking(parents, sessionId, rootId, depth, root, length);
        rootId := sessions[rootId].parentId.value;
        depth := depth + 1;
      }
      lineage := lineage[sessionId := (rootId, depth)];
      remaining := remaining - {sessionId};
    }
  }

  /** Main result: on the same parent relation both walks give the same root and depth. */
  lemma WalksAgree(parents: map<SessionId, SessionId>, s: SessionId, stored: (SessionId, nat), listed: (SessionId, nat))
    requires EndsAt(parents, s, stored.0, stored.1) && EndsAt(parents, s, listed.0, listed.1)
    ensures stored == listed
  {
    EndIsUnique(parents, s, stored.0, stored.1, listed.0, listed.1);
  }

  /** A child has its parent's root and is one deeper. */
  lemma ChildIsOneDeeper(parents: map<SessionId, SessionId>, child: SessionId, root: SessionId, depth: nat)
    requires child in parents
    ensures EndsAt(parents, child, root, depth + 1) <==> EndsAt(parents, parents[child], root, depth)
  {
  }

  /** Both walks end in every run that attaches only roots outside the new parent's ancestry. */
  lemma WalksEndInEveryRun(ops: seq<Op>, s: SessionId)
    requires Attaches(ops)
    ensures Ends(SnapshotOf(Run(ops)).parents, s)
  {
    RunsKeepForestIff(ops);
    assert ops[..|ops|] == ops;
    AcyclicIffWalksEnd(Run(ops).parents);
  }
}
