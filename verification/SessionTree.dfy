/**
  The tree of agent sessions (crates/quine-core/src/session_tree.rs): parents and
  children, exit statuses, one-shot waiters, and which session is blocked on which.
 */
module SessionTrees {
  import opened Wrappers
  import opened SuccessorGraphs

  datatype SessionId = SessionId(uuid: nat)

  datatype ExitStatus = Success(output: string) | Failed(error: string) | Killed | Cancelled

  /** The sending half of a one-shot channel. */
  datatype Waiter = Waiter(channel: nat)

  datatype Delivery = Delivery(waiter: Waiter, status: ExitStatus)

  datatype PersistedSessionTree = PersistedSessionTree(
    parents: map<SessionId, SessionId>,
    children: map<SessionId, seq<SessionId>>,
    exitStatuses: map<SessionId, ExitStatus>)

  /** The tree as a value, together with everything sent to waiters so far. */
  datatype TreeState = TreeState(
    parents: map<SessionId, SessionId>,
    children: map<SessionId, seq<SessionId>>,
    exitStatuses: map<SessionId, ExitStatus>,
    waiters: map<SessionId, seq<Waiter>>,
    activeWaits: map<SessionId, SessionId>,
    deliveries: seq<Delivery>)

  const EMPTY_TREE := TreeState(map[], map[], map[], map[], map[], [])

  function ListAt<V>(m: map<SessionId, seq<V>>, id: SessionId): seq<V> {
    if id in m then m[id] else []
  }

  function AddChildTo(t: TreeState, parent: SessionId, child: SessionId): TreeState {
    t.(parents := t.parents[child := parent],
       children := t.children[parent := ListAt(t.children, parent) + [child]])
  }

  /** Blocking `waiter` on `dependency` is refused when that would close a cycle of waits. */
  ghost function WithActiveWait(t: TreeState, waiter: SessionId, dependency: SessionId): TreeState {
    if Reaches(t.activeWaits, dependency, waiter) then t
    else t.(activeWaits := t.activeWaits[waiter := dependency])
  }

  function WithoutActiveWait(t: TreeState, waiter: SessionId): TreeState {
    t.(activeWaits := t.activeWaits - {waiter})
  }

  function WaitsWithout(activeWaits: map<SessionId, SessionId>, session: SessionId): map<SessionId, SessionId> {
    map w | w in activeWaits && w != session && activeWaits[w] != session :: activeWaits[w]
  }

  function DeliveriesTo(waiters: seq<Waiter>, status: ExitStatus): seq<Delivery> {
    seq(|waiters|, i requires 0 <= i < |waiters| => Delivery(waiters[i], status))
  }

  function WithExit(t: TreeState, session: SessionId, status: ExitStatus): TreeState {
    t.(activeWaits := WaitsWithout(t.activeWaits, session),
       waiters := t.waiters - {session},
       deliveries := t.deliveries + DeliveriesTo(ListAt(t.waiters, session), status),
       exitStatuses := t.exitStatuses[session := status])
  }

  function WithWaiter(t: TreeState, session: SessionId, waiter: Waiter): TreeState {
    if session in t.exitStatuses then
      t.(deliveries := t.deliveries + [Delivery(waiter, t.exitStatuses[session])])
    else
      t.(waiters := t.waiters[session := ListAt(t.waiters, session) + [waiter]])
  }

  function SnapshotOf(t: TreeState): PersistedSessionTree {
    PersistedSessionTree(t.parents, t.children, t.exitStatuses)
  }

  /** A restored tree has lost its waiters and active waits. */
  function Restored(snapshot: PersistedSessionTree): TreeState {
    TreeState(snapshot.parents, snapshot.children, snapshot.exitStatuses, map[], map[], [])
  }

  class SessionTree {
    var parents: map<SessionId, SessionId>
    var children: map<SessionId, seq<SessionId>>
    var exitStatuses: map<SessionId, ExitStatus>
    var waiters: map<SessionId, seq<Waiter>>
    var activeWaits: map<SessionId, SessionId>
    /** What the one-shot channels have carried; the channels themselves are outside the model. */
    var deliveries: seq<Delivery>

    ghost function Abstract(): TreeState
      reads this
    {
      TreeState(parents, children, exitStatuses, waiters, activeWaits, deliveries)
    }

    constructor ()
      ensures Abstract() == EMPTY_TREE
    {
      parents, children, exitStatuses, waiters, activeWaits, deliveries := map[], map[], map[], map[], map[], [];
    }

    constructor Restore(snapshot: PersistedSessionTree)
      ensures Abstract() == Restored(snapshot)
    {
      parents, children, exitStatuses := snapshot.parents, snapshot.children, snapshot.exitStatuses;
      waiters, activeWaits, deliveries := map[], map[], [];
    }

    method Snapshot() returns (snapshot: PersistedSessionTree)
      ensures snapshot == SnapshotOf(Abstract())
    {
      snapshot := PersistedSessionTree(parents, children, exitStatuses);
    }

    method AddChild(parent: SessionId, child: SessionId)
      modifies this
      ensures Abstract() == AddChildTo(old(Abstract()), parent, child)
    {
      parents := parents[child := parent];
      if parent !in children {
        children := children[parent := []];
      }
      children := children[parent := children[parent] + [child]];
      assert children == old(children)[parent := ListAt(old(children), parent) + [child]];
    }

    method ParentOf(session: SessionId) returns (parent: Option<SessionId>)
      ensures parent == if session in parents then Some(parents[session]) else None
    {
      parent := if session in parents then Some(parents[session]) else None;
    }

    method ChildrenOf(session: SessionId) returns (ids: seq<SessionId>)
      ensures ids == ListAt(children, session)
    {
      ids := if session in children then children[session] else [];
    }

    /** Follows the active waits from `dependency`; ends on every graph, even one that already has cycles. */
    method WaitWouldCycle(waiter: SessionId, dependency: SessionId) returns (cycle: bool)
      ensures cycle <==> Reaches(activeWaits, dependency, waiter)
    {
      var current := dependency;
      var visited: set<SessionId> := {};
      assert Walk(activeWaits, dependency, 0) == Some(dependency);
      while current !in visited
        invariant Reaches(activeWaits, dependency, current)
        invariant waiter !in visited && visited <= activeWaits.Keys
        invariant dependency in visited + {current}
        invariant forall v | v in visited :: activeWaits[v] in visited + {current}
        decreases activeWaits.Keys - visited
      {
        visited := visited + {current};
        if current == waiter {
          return true;
        }
        if current !in activeWaits {
          OutsideClosed(activeWaits, visited, dependency, waiter);
          return false;
        }
        StepReaches(activeWaits, dependency, current);
        current := activeWaits[current];
      }
      OutsideClosed(activeWaits, visited, dependency, waiter);
      return false;
    }

    method RegisterActiveWait(waiter: SessionId, dependency: SessionId) returns (accepted: bool)
      modifies this`activeWaits
      ensures accepted <==> !Reaches(old(activeWaits), dependency, waiter)
      ensures Abstract() == WithActiveWait(old(Abstract()), waiter, dependency)
    {
      var cycle := WaitWouldCycle(waiter, dependency);
      if cycle {
        return false;
      }
      activeWaits := activeWaits[waiter := dependency];
      return true;
    }

    method ClearActiveWait(waiter: SessionId)
      modifies this`activeWaits
      ensures Abstract() == WithoutActiveWait(old(Abstract()), waiter)
    {
      activeWaits := activeWaits - {waiter};
    }

    method RecordExit(session: SessionId, status: ExitStatus)
      modifies this
      ensures Abstract() == WithExit(old(Abstract()), session, status)
    {
      activeWaits := map w | w in activeWaits && w != session && activeWaits[w] != session :: activeWaits[w];
      if session in waiters {
        var woken := waiters[session];
        waiters := waiters - {session};
        for i := 0 to |woken|
          invariant parents == old(parents) && children == old(children) && exitStatuses == old(exitStatuses)
          invariant activeWaits == WaitsWithout(old(activeWaits), session) && waiters == old(waiters) - {session}
          invariant deliveries == old(deliveries) + DeliveriesTo(woken[..i], status)
        {
          deliveries := deliveries + [Delivery(woken[i], status)];
        }
        assert woken[..|woken|] == woken;
      } else {
        assert old(waiters) - {session} == waiters;
        assert deliveries == old(deliveries) + DeliveriesTo(ListAt(old(waiters), session), status);
      }
      exitStatuses := exitStatuses[session := status];
    }

    /** True when the session had already exited, in which case its status is sent at once. */
    method RegisterWaiter(session: SessionId, waiter: Waiter) returns (alreadyExited: bool)
      modifies this
      ensures alreadyExited <==> session in old(exitStatuses)
      ensures Abstract() == WithWaiter(old(Abstract()), session, waiter)
    {
      if session in exitStatuses {
        deliveries := deliveries + [Delivery(waiter, exitStatuses[session])];
        return true;
      }
      if session !in waiters {
        waiters := waiters[session := []];
      }
      waiters := waiters[session := waiters[session] + [waiter]];
      assert waiters == old(waiters)[session := ListAt(old(waiters), session) + [waiter]];
      return false;
    }
  }

  lemma OutsideClosed(g: map<SessionId, SessionId>, s: set<SessionId>, x: SessionId, y: SessionId)
    requires x in s && y !in s
    requires forall v | v in s && v in g :: g[v] in s
    ensures !Reaches(g, x, y)
  {
    forall n: nat
      ensures Walk(g, x, n) != Some(y)
    {
      ClosedSet(g, s, x, n);
    }
  }
}
