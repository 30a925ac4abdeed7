/** What holds in every run of operations on the session tree. */
module SessionRuns {
  import opened Wrappers
  import opened SuccessorGraphs
  import opened SessionTrees

  datatype Op =
    | AddChild(parent: SessionId, child: SessionId)
    | RegisterActiveWait(waiting: SessionId, dependency: SessionId)
    | ClearActiveWait(waiting: SessionId)
    | RecordExit(session: SessionId, status: ExitStatus)
    | RegisterWaiter(session: SessionId, waiter: Waiter)
    | SnapshotAndRestore

  ghost function Apply(t: TreeState, op: Op): TreeState {
    match op
    case AddChild(parent, child) => AddChildTo(t, parent, child)
    case RegisterActiveWait(waiting, dependency) => WithActiveWait(t, waiting, dependency)
    case ClearActiveWait(waiting) => WithoutActiveWait(t, waiting)
    case RecordExit(session, status) => WithExit(t, session, status)
    case RegisterWaiter(session, waiter) => WithWaiter(t, session, waiter)
    case SnapshotAndRestore => Restored(SnapshotOf(t))
  }

  ghost function Run(ops: seq<Op>): TreeState {
    if ops == [] then EMPTY_TREE else Apply(Run(ops[..|ops| - 1]), ops[|ops| - 1])
  }

  lemma RunSnoc(ops: seq<Op>, op: Op)
    ensures Run(ops + [op]) == Apply(Run(ops), op)
  {
    assert (ops + [op])[..|ops|] == ops;
  }

  // ----- Deadlock avoidance -----

  /** Main result: whatever is registered, replaced, cleared, exited or restored, no sessions wait in a circle. */
  lemma {:induction false} WaitsStayAcyclic(ops: seq<Op>)
    ensures Acyclic(Run(ops).activeWaits)
  {
    if ops == [] {
    } else {
      var before, op := Run(ops[..|ops| - 1]), ops[|ops| - 1];
      WaitsStayAcyclic(ops[..|ops| - 1]);
      match op
      case RegisterActiveWait(waiting, dependency) =>
        AddEdgeAcyclic(before.activeWaits, waiting, dependency);
      case ClearActiveWait(waiting) =>
        SubgraphIsAcyclic(before.activeWaits, before.activeWaits - {waiting});
      case RecordExit(session, status) =>
        SubgraphIsAcyclic(before.activeWaits, WaitsWithout(before.activeWaits, session));
      case _ =>
    }
  }

  /** A wait is refused exactly when accepting it would have closed a circle. */
  lemma RefusalIsNecessary(ops: seq<Op>, waiting: SessionId, dependency: SessionId)
    ensures
      var before := Run(ops).activeWaits;
      Run(ops + [RegisterActiveWait(waiting, dependency)]).activeWaits
      == if Acyclic(before[waiting := dependency]) then before[waiting := dependency] else before
  {
    WaitsStayAcyclic(ops);
    AddEdgeAcyclic(Run(ops).activeWaits, waiting, dependency);
    RunSnoc(ops, RegisterActiveWait(waiting, dependency));
  }

  ghost predicate InWaitGraph(t: TreeState, session: SessionId) {
    session in t.activeWaits.Keys || session in t.activeWaits.Values
  }

  /** An exited session stays out of the wait graph until a later registration names it. */
  lemma {:induction false} ExitedLeavesWaitGraph(ops: seq<Op>, exitAt: nat, session: SessionId)
    requires exitAt < |ops| && ops[exitAt].RecordExit? && ops[exitAt].session == session
    requires forall k | exitAt < k < |ops| && ops[k].RegisterActiveWait? ::
               ops[k].waiting != session && ops[k].dependency != session
    ensures !InWaitGraph(Run(ops), session)
    decreases |ops|
  {
    hide Apply, InWaitGraph;
    var front, op := ops[..|ops| - 1], ops[|ops| - 1];
    if exitAt < |ops| - 1 {
      ExitedLeavesWaitGraph(front, exitAt, session);
      StaysOutOfWaitGraph(Run(front), op, session);
    } else {
      ExitLeavesWaitGraph(Run(front), session, op.status);
    }
  }

  lemma ExitLeavesWaitGraph(t: TreeState, session: SessionId, status: ExitStatus)
    ensures !InWaitGraph(Apply(t, RecordExit(session, status)), session)
  {
  }

  lemma StaysOutOfWaitGraph(t: TreeState, op: Op, session: SessionId)
    requires !InWaitGraph(t, session)
    requires op.RegisterActiveWait? ==> op.waiting != session && op.dependency != session
    ensures !InWaitGraph(Apply(t, op), session)
  {
  }

  // ----- The forest of sessions -----

  /** Both directions of the relation say the same, and no child is listed twice. */
  ghost predicate MutuallyInverse(parents: map<SessionId, SessionId>, children: map<SessionId, seq<SessionId>>) {
    && (forall c | c in parents :: c in ListAt(children, parents[c]))
    && (forall p, i | p in children && 0 <= i < |children[p]| ::
          children[p][i] in parents && parents[children[p][i]] == p)
    && (forall p, i, j | p in children && 0 <= i < j < |children[p]| :: children[p][i] != children[p][j])
  }

  ghost predicate IsForest(t: TreeState) {
    MutuallyInverse(t.parents, t.children) && Acyclic(t.parents)
  }

  /** The identifier of a new child has not been seen as a child or as a parent. */
  predicate FreshChild(t: TreeState, parent: SessionId, child: SessionId) {
    child != parent && child !in t.parents.Keys && child !in t.parents.Values
  }

  ghost predicate FreshChildren(ops: seq<Op>) {
    forall k | 0 <= k < |ops| && ops[k].AddChild? :: FreshChild(Run(ops[..k]), ops[k].parent, ops[k].child)
  }

  /** What a caller can check before attaching a child: it has no parent yet and is not above the new parent. */
  ghost predicate MayAttach(t: TreeState, parent: SessionId, child: SessionId) {
    child !in t.parents && !Reaches(t.parents, parent, child)
  }

  ghost predicate Attaches(ops: seq<Op>) {
    forall k | 0 <= k < |ops| && ops[k].AddChild? :: MayAttach(Run(ops[..k]), ops[k].parent, ops[k].child)
  }

  /** Main result: attaching a child keeps a forest exactly when the child is a root outside the parent's ancestry. */
  lemma AddChildKeepsForestIff(t: TreeState, parent: SessionId, child: SessionId)
    requires IsForest(t)
    ensures IsForest(AddChildTo(t, parent, child)) <==> MayAttach(t, parent, child)
  {
    AddEdgeAcyclic(t.parents, child, parent);
    if child !in t.parents {
      AttachKeepsInverse(t, parent, child);
    } else {
      SecondParentBreaksInverse(t, parent, child);
    }
  }

  lemma AttachKeepsInverse(t: TreeState, parent: SessionId, child: SessionId)
    requires MutuallyInverse(t.parents, t.children) && child !in t.parents
    ensures var u := AddChildTo(t, parent, child); MutuallyInverse(u.parents, u.children)
  {
    var u, siblings := AddChildTo(t, parent, child), ListAt(t.children, parent);
    forall c | c in u.parents
      ensures c in ListAt(u.children, u.parents[c])
    {
      if c == child {
        assert u.children[parent][|siblings|] == child;
      } else {
        var i :| 0 <= i < |ListAt(t.children, t.parents[c])| && ListAt(t.children, t.parents[c])[i] == c;
        assert ListAt(u.children, t.parents[c])[i] == c;
      }
    }
    forall p, i | p in u.children && 0 <= i < |u.children[p]|
      ensures u.children[p][i] in u.parents && u.parents[u.children[p][i]] == p
    {
      assert p != parent ==> u.children[p] == t.children[p];
      assert p == parent && i < |siblings| ==> u.children[p][i] == t.children[parent][i];
    }
    forall i | 0 <= i < |siblings|
      ensures siblings[i] != child
    {
      assert siblings[i] in t.parents;
    }
  }

  /** A child that is attached again stays in its old list. */
  lemma SecondParentBreaksInverse(t: TreeState, parent: SessionId, child: SessionId)
    requires MutuallyInverse(t.parents, t.children) && child in t.parents
    ensures var u := AddChildTo(t, parent, child); !MutuallyInverse(u.parents, u.children)
  {
    var u, before := AddChildTo(t, parent, child), t.parents[child];
    assert child in ListAt(t.children, before);
    var i :| 0 <= i < |t.children[before]| && t.children[before][i] == child;
    assert u.children[before][i] == child;
    if before == parent {
      assert u.children[parent][|t.children[parent]|] == child;
    }
  }

  lemma FreshMayAttach(t: TreeState, parent: SessionId, child: SessionId)
    requires FreshChild(t, parent, child)
    ensures MayAttach(t, parent, child)
  {
    NobodyBelow(t.parents, parent, child);
  }

  lemma NobodyBelow(parents: map<SessionId, SessionId>, x: SessionId, child: SessionId)
    requires x != child && child !in parents.Values
    ensures !Reaches(parents, x, child)
  {
    forall n: nat
      ensures Walk(parents, x, n) != Some(child)
    {
      NotAStep(parents, x, child, n);
    }
  }

  lemma {:induction false} NotAStep(parents: map<SessionId, SessionId>, x: SessionId, child: SessionId, n: nat)
    requires x != child && child !in parents.Values
    ensures Walk(parents, x, n) != Some(child)
    decreases n
  {
    if n > 0 && x in parents {
      assert parents[x] in parents.Values;
      NotAStep(parents, parents[x], child, n - 1);
    }
  }

  /**
    Main result: a run keeps a forest all along, also across snapshot and restore, exactly
    when every child it attaches is then a root outside the parent's ancestry.
   */
  lemma {:induction false} RunsKeepForestIff(ops: seq<Op>)
    ensures Attaches(ops) <==> forall k | 0 <= k <= |ops| :: IsForest(Run(ops[..k]))
  {
    hide Apply, IsForest, MayAttach;
    assert ops[..|ops|] == ops;
    if ops == [] {
      EmptyIsForest();
    } else {
      var front, op := ops[..|ops| - 1], ops[|ops| - 1];
      assert forall k | 0 <= k <= |front| :: front[..k] == ops[..k];
      RunsKeepForestIff(front);
      assert Attaches(ops) <==> Attaches(front) && (op.AddChild? ==> MayAttach(Run(front), op.parent, op.child)) by {
        assert ops[..|front|] == front && ops[|front|] == op;
      }
      if IsForest(Run(front)) {
        StepKeepsForestIff(Run(front), op);
      }
    }
  }

  /** With fresh child identifiers every run keeps a forest. */
  lemma RunsKeepForest(ops: seq<Op>)
    requires FreshChildren(ops)
    ensures IsForest(Run(ops))
  {
    hide IsForest, FreshChild, MayAttach;
    forall k | 0 <= k < |ops| && ops[k].AddChild?
      ensures MayAttach(Run(ops[..k]), ops[k].parent, ops[k].child)
    {
      FreshMayAttach(Run(ops[..k]), ops[k].parent, ops[k].child);
    }
    RunsKeepForestIff(ops);
    assert ops[..|ops|] == ops;
  }

  lemma EmptyIsForest()
    ensures IsForest(Run([]))
  {
  }

  lemma StepKeepsForestIff(t: TreeState, op: Op)
    requires IsForest(t)
    ensures IsForest(Apply(t, op)) <==> (op.AddChild? ==> MayAttach(t, op.parent, op.child))
  {
    hide IsForest, MayAttach;
    if op.AddChild? {
      AddChildKeepsForestIff(t, op.parent, op.child);
    } else {
      SameForest(t, Apply(t, op));
    }
  }

  lemma SameForest(t: TreeState, u: TreeState)
    requires IsForest(t) && u.parents == t.parents && u.children == t.children
    ensures IsForest(u)
  {
  }

  /** Without fresh identifiers the relation can become circular, and the walk to the root never ends. */
  lemma StaleChildMakesCycle(a: SessionId, b: SessionId)
    requires a != b
    ensures
      var t := Run([AddChild(a, b), AddChild(b, a)]);
      !Acyclic(t.parents) && !Ends(t.parents, a)
  {
    var first, second := AddChild(a, b), AddChild(b, a);
    RunSnoc([], first);
    RunSnoc([first], second);
    assert [] + [first] == [first] && [first] + [second] == [first, second];
    var t := Run([first, second]);
    assert t.parents == map[b := a, a := b];
    assert Walk(t.parents, a, 2) == Some(a) by {
      assert Walk(t.parents, b, 1) == Walk(t.parents, a, 0);
    }
    forall root: SessionId, depth: nat
      ensures !EndsAt(t.parents, a, root, depth)
    {
      CycleNeverEnds(t.parents, a, 2, root, depth);
    }
  }

  // ----- One-shot waiters -----

  /** Everything sent to one waiter. */
  function SentTo(deliveries: seq<Delivery>, waiter: Waiter): seq<ExitStatus> {
    if deliveries == [] then []
    else
      SentTo(deliveries[..|deliveries| - 1], waiter)
      + if deliveries[|deliveries| - 1].waiter == waiter then [deliveries[|deliveries| - 1].status] else []
  }

  /** The status recorded for a session after some operations. */
  function LastExit(ops: seq<Op>, session: SessionId): Option<ExitStatus> {
    if ops == [] then None
    else
      var op := ops[|ops| - 1];
      if op.RecordExit? && op.session == session then Some(op.status)
      else LastExit(ops[..|ops| - 1], session)
  }

  /** The first status recorded for a session from some position on. */
  function FirstExit(ops: seq<Op>, from: nat, session: SessionId): Option<ExitStatus>
    decreases |ops| - from
  {
    if from >= |ops| then None
    else if ops[from].RecordExit? && ops[from].session == session then Some(ops[from].status)
    else FirstExit(ops, from + 1, session)
  }

  /** What a waiter registered at `at` should have been sent. */
  function Owed(ops: seq<Op>, at: nat): Option<ExitStatus>
    requires at < |ops| && ops[at].RegisterWaiter?
  {
    var before := LastExit(ops[..at], ops[at].session);
    if before.Some? then before else FirstExit(ops, at + 1, ops[at].session)
  }

  /** Every registration brings its own channel. */
  ghost predicate DistinctWaiters(ops: seq<Op>) {
    forall i, j | 0 <= i < j < |ops| && ops[i].RegisterWaiter? && ops[j].RegisterWaiter? ::
      ops[i].waiter != ops[j].waiter
  }

  ghost predicate PendingOnce(t: TreeState, session: SessionId, waiter: Waiter) {
    && (session in t.waiters && exists k :: 0 <= k < |t.waiters[session]| && IsOnlyAt(t.waiters[session], waiter, k))
    && forall s | s in t.waiters && s != session :: waiter !in t.waiters[s]
  }

  ghost predicate IsOnlyAt(list: seq<Waiter>, waiter: Waiter, k: nat) {
    k < |list| && list[k] == waiter && forall j | 0 <= j < |list| && j != k :: list[j] != waiter
  }

  ghost predicate NotPending(t: TreeState, waiter: Waiter) {
    forall s | s in t.waiters :: waiter !in t.waiters[s]
  }

  lemma {:induction false} SentToSplit(left: seq<Delivery>, right: seq<Delivery>, waiter: Waiter)
    ensures SentTo(left + right, waiter) == SentTo(left, waiter) + SentTo(right, waiter)
  {
    if right == [] {
      assert left + right == left;
    } else {
      assert (left + right)[..|left + right| - 1] == left + right[..|right| - 1];
      SentToSplit(left, right[..|right| - 1], waiter);
    }
  }

  lemma {:induction false} NoneSent(waiters: seq<Waiter>, status: ExitStatus, waiter: Waiter)
    requires waiter !in waiters
    ensures SentTo(DeliveriesTo(waiters, status), waiter) == []
  {
    if waiters != [] {
      var front := waiters[..|waiters| - 1];
      NoneSent(front, status, waiter);
      assert DeliveriesTo(waiters, status)[..|waiters| - 1] == DeliveriesTo(front, status);
      assert waiters[|waiters| - 1] in waiters;
    }
  }

  lemma {:induction false} OneSent(waiters: seq<Waiter>, status: ExitStatus, waiter: Waiter, k: nat)
    requires IsOnlyAt(waiters, waiter, k)
    ensures SentTo(DeliveriesTo(waiters, status), waiter) == [status]
  {
    var front := waiters[..|waiters| - 1];
    assert DeliveriesTo(waiters, status)[..|waiters| - 1] == DeliveriesTo(front, status);
    if k == |waiters| - 1 {
      NoneSent(front, status, waiter);
    } else {
      OneSent(front, status, waiter, k);
    }
  }

  /** Exit statuses are those recorded last, also across a restore, and an exited session has no pending waiters. */
  lemma {:induction false} ExitsAreLast(ops: seq<Op>, session: SessionId)
    ensures
      var t := Run(ops);
      && (session in t.exitStatuses <==> LastExit(ops, session).Some?)
      && (session in t.exitStatuses ==> Some(t.exitStatuses[session]) == LastExit(ops, session))
      && (session in t.exitStatuses ==> session !in t.waiters)
  {
    hide Apply;
    if ops != [] {
      ExitsAreLast(ops[..|ops| - 1], session);
      ExitStep(Run(ops[..|ops| - 1]), ops[|ops| - 1], session);
    }
  }

  lemma ExitStep(t: TreeState, op: Op, session: SessionId)
    requires session in t.exitStatuses ==> session !in t.waiters
    ensures
      var u := Apply(t, op);
      && (session in u.exitStatuses ==> session !in u.waiters)
      && if op.RecordExit? && op.session == session then session in u.exitStatuses && u.exitStatuses[session] == op.status
         else
           && (session in u.exitStatuses <==> session in t.exitStatuses)
           && (session in t.exitStatuses ==> u.exitStatuses[session] == t.exitStatuses[session])
  {
  }

  lemma SettledStep(t: TreeState, op: Op, waiter: Waiter)
    requires !op.SnapshotAndRestore? && (op.RegisterWaiter? ==> op.waiter != waiter)
    requires NotPending(t, waiter)
    ensures
      var u := Apply(t, op);
      NotPending(u, waiter) && SentTo(u.deliveries, waiter) == SentTo(t.deliveries, waiter)
  {
    if op.RecordExit? {
      NoneSent(ListAt(t.waiters, op.session), op.status, waiter);
      SentToSplit(t.deliveries, DeliveriesTo(ListAt(t.waiters, op.session), op.status), waiter);
    } else if op.RegisterWaiter? && op.session in t.exitStatuses {
      SentToSplit(t.deliveries, [Delivery(op.waiter, t.exitStatuses[op.session])], waiter);
    }
  }

  /** A restored tree has no waiters and has sent nothing yet. */
  lemma RestoreForgets(t: TreeState, waiter: Waiter)
    ensures var u := Apply(t, SnapshotAndRestore); NotPending(u, waiter) && SentTo(u.deliveries, waiter) == []
  {
  }

  /** A waiter that was never registered is not pending and has been sent nothing. */
  lemma {:induction false} UnknownWaiter(ops: seq<Op>, waiter: Waiter)
    requires forall op | op in ops && op.RegisterWaiter? :: op.waiter != waiter
    ensures NotPending(Run(ops), waiter) && SentTo(Run(ops).deliveries, waiter) == []
  {
    hide Apply;
    if ops != [] {
      var front, op := ops[..|ops| - 1], ops[|ops| - 1];
      assert forall o | o in front :: o in ops;
      assert op in ops;
      UnknownWaiter(front, waiter);
      if op.SnapshotAndRestore? {
        RestoreForgets(Run(front), waiter);
      } else {
        SettledStep(Run(front), op, waiter);
      }
    }
  }

  /** What one more operation does to a waiter that is already known. */
  lemma PendingStep(t: TreeState, op: Op, session: SessionId, waiter: Waiter)
    requires !op.SnapshotAndRestore? && (op.RegisterWaiter? ==> op.waiter != waiter)
    requires PendingOnce(t, session, waiter)
    ensures
      var u := Apply(t, op);
      if op.RecordExit? && op.session == session
      then NotPending(u, waiter) && SentTo(u.deliveries, waiter) == SentTo(t.deliveries, waiter) + [op.status]
      else PendingOnce(u, session, waiter) && SentTo(u.deliveries, waiter) == SentTo(t.deliveries, waiter)
  {
    hide SentTo, PendingOnce, NotPending, WithExit, WithWaiter;
    if op.RecordExit? {
      ExitMeetsPending(t, op.session, op.status, session, waiter);
    } else if op.RegisterWaiter? {
      OtherWaiterKeepsPending(t, op.session, op.waiter, session, waiter);
    } else {
      SameWaitersSamePending(t, Apply(t, op), session, waiter);
    }
  }

  lemma SameWaitersSamePending(t: TreeState, u: TreeState, session: SessionId, waiter: Waiter)
    requires PendingOnce(t, session, waiter) && u.waiters == t.waiters
    ensures PendingOnce(u, session, waiter)
  {
  }

  lemma ExitMeetsPending(t: TreeState, exited: SessionId, status: ExitStatus, session: SessionId, waiter: Waiter)
    requires PendingOnce(t, session, waiter)
    ensures
      var u := WithExit(t, exited, status);
      if exited == session
      then NotPending(u, waiter) && SentTo(u.deliveries, waiter) == SentTo(t.deliveries, waiter) + [status]
      else PendingOnce(u, session, waiter) && SentTo(u.deliveries, waiter) == SentTo(t.deliveries, waiter)
  {
    var u, woken := WithExit(t, exited, status), ListAt(t.waiters, exited);
    var k: nat :| IsOnlyAt(t.waiters[session], waiter, k);
    hide SentTo, DeliveriesTo;
    SentToSplit(t.deliveries, DeliveriesTo(woken, status), waiter);
    if exited == session {
      OneSent(woken, status, waiter, k);
    } else {
      NoneSent(woken, status, waiter);
      assert IsOnlyAt(u.waiters[session], waiter, k);
    }
  }

  lemma OtherWaiterKeepsPending(t: TreeState, other: SessionId, added: Waiter, session: SessionId, waiter: Waiter)
    requires PendingOnce(t, session, waiter) && added != waiter
    ensures
      var u := WithWaiter(t, other, added);
      PendingOnce(u, session, waiter) && SentTo(u.deliveries, waiter) == SentTo(t.deliveries, waiter)
  {
    hide SentTo, PendingOnce;
    var u := WithWaiter(t, other, added);
    if other in t.exitStatuses {
      SentToSplit(t.deliveries, [Delivery(added, t.exitStatuses[other])], waiter);
      SentToOther(added, t.exitStatuses[other], waiter);
      SameWaitersSamePending(t, u, session, waiter);
    } else {
      QueuedKeepsPending(t, u, other, added, session, waiter);
    }
  }

  lemma QueuedKeepsPending(t: TreeState, u: TreeState, other: SessionId, added: Waiter, session: SessionId, waiter: Waiter)
    requires PendingOnce(t, session, waiter) && added != waiter
    requires u.waiters == t.waiters[other := ListAt(t.waiters, other) + [added]]
    ensures PendingOnce(u, session, waiter)
  {
    var k: nat :| IsOnlyAt(t.waiters[session], waiter, k);
    if other == session {
      AddedBehind(t.waiters[session], added, waiter, k);
    }
    assert IsOnlyAt(u.waiters[session], waiter, k);
  }

  lemma AddedBehind(list: seq<Waiter>, other: Waiter, waiter: Waiter, k: nat)
    requires IsOnlyAt(list, waiter, k) && other != waiter
    ensures IsOnlyAt(list + [other], waiter, k)
  {
  }

  lemma SentToOther(other: Waiter, status: ExitStatus, waiter: Waiter)
    requires other != waiter
    ensures SentTo([Delivery(other, status)], waiter) == []
  {
  }

  lemma {:induction false} FirstExitSnoc(ops: seq<Op>, op: Op, from: nat, session: SessionId)
    requires from <= |ops|
    ensures
      FirstExit(ops + [op], from, session)
      == if FirstExit(ops, from, session).Some? then FirstExit(ops, from, session)
         else if op.RecordExit? && op.session == session then Some(op.status)
         else None
    decreases |ops| - from
  {
    if from < |ops| {
      FirstExitSnoc(ops, op, from + 1, session);
    }
  }

  /**
    Main result: a registered waiter is sent at most one status.  It is the one its
    session had when the waiter was registered or else the first one recorded later;
    until there is one, the waiter is pending, once, on that session alone.  This lasts
    until the next restore; what came before the registration, restores included, does not matter.
   */
  lemma {:induction false} WaiterIsSentItsStatusOnce(ops: seq<Op>, at: nat)
    requires DistinctWaiters(ops)
    requires at < |ops| && ops[at].RegisterWaiter?
    requires forall k | at < k < |ops| :: !ops[k].SnapshotAndRestore?
    ensures
      var t, waiter := Run(ops), ops[at].waiter;
      match Owed(ops, at)
      case Some(status) => NotPending(t, waiter) && SentTo(t.deliveries, waiter) == [status]
      case None => PendingOnce(t, ops[at].session, waiter) && SentTo(t.deliveries, waiter) == []
                   && ops[at].session !in t.exitStatuses
    decreases |ops|
  {
    hide Apply, Owed, PendingOnce, NotPending, SentTo;
    var front, last := ops[..|ops| - 1], ops[|ops| - 1];
    var session, waiter := ops[at].session, ops[at].waiter;
    assert ops == front + [last];
    if at == |ops| - 1 {
      UnknownBefore(ops, at);
      ExitsAreLast(front, session);
      OwedAtOnce(ops, at);
      Registration(Run(front), session, waiter);
    } else {
      WaiterIsSentItsStatusOnce(front, at);
      OwedSnoc(front, last, at);
      if Owed(front, at).Some? {
        SettledStep(Run(front), last, waiter);
      } else {
        PendingStep(Run(front), last, session, waiter);
        ExitsAreLast(front, session);
        ExitStep(Run(front), last, session);
      }
    }
  }

  /** A restore drops a waiter for good: it is not pending, and the restored tree never sends it anything. */
  lemma {:induction false} RestoreDropsWaiter(ops: seq<Op>, at: nat, restore: nat)
    requires DistinctWaiters(ops)
    requires at < restore < |ops| && ops[at].RegisterWaiter? && ops[restore].SnapshotAndRestore?
    ensures NotPending(Run(ops), ops[at].waiter) && SentTo(Run(ops).deliveries, ops[at].waiter) == []
    decreases |ops|
  {
    hide Apply;
    var front, last := ops[..|ops| - 1], ops[|ops| - 1];
    if restore < |ops| - 1 {
      RestoreDropsWaiter(front, at, restore);
    }
    if last.SnapshotAndRestore? {
      RestoreForgets(Run(front), ops[at].waiter);
    } else {
      SettledStep(Run(front), last, ops[at].waiter);
    }
  }

  lemma UnknownBefore(ops: seq<Op>, at: nat)
    requires DistinctWaiters(ops) && at < |ops| && ops[at].RegisterWaiter?
    ensures NotPending(Run(ops[..at]), ops[at].waiter) && SentTo(Run(ops[..at]).deliveries, ops[at].waiter) == []
  {
    hide NotPending, Run, SentTo;
    var front := ops[..at];
    forall op | op in front && op.RegisterWaiter?
      ensures op.waiter != ops[at].waiter
    {
      var i :| 0 <= i < |front| && front[i] == op;
      assert ops[i] == op;
    }
    UnknownWaiter(front, ops[at].waiter);
  }

  lemma OwedAtOnce(ops: seq<Op>, at: nat)
    requires at == |ops| - 1 && ops[at].RegisterWaiter?
    ensures Owed(ops, at) == LastExit(ops[..at], ops[at].session)
  {
  }

  lemma OwedSnoc(front: seq<Op>, last: Op, at: nat)
    requires at < |front| && front[at].RegisterWaiter?
    ensures
      Owed(front + [last], at)
      == if Owed(front, at).Some? then Owed(front, at)
         else if last.RecordExit? && last.session == front[at].session then Some(last.status)
         else None
  {
    hide LastExit;
    assert (front + [last])[..at] == front[..at];
    FirstExitSnoc(front, last, at + 1, front[at].session);
  }

  lemma Registration(t: TreeState, session: SessionId, waiter: Waiter)
    requires NotPending(t, waiter) && SentTo(t.deliveries, waiter) == []
    ensures
      var u := Apply(t, RegisterWaiter(session, waiter));
      if session in t.exitStatuses
      then NotPending(u, waiter) && SentTo(u.deliveries, waiter) == [t.exitStatuses[session]]
      else PendingOnce(u, session, waiter) && SentTo(u.deliveries, waiter) == [] && u.exitStatuses == t.exitStatuses
  {
    var u := Apply(t, RegisterWaiter(session, waiter));
    if session in t.exitStatuses {
      SentToSplit(t.deliveries, [Delivery(waiter, t.exitStatuses[session])], waiter);
      assert SentTo([Delivery(waiter, t.exitStatuses[session])], waiter) == [t.exitStatuses[session]];
    } else {
      assert IsOnlyAt(u.waiters[session], waiter, |u.waiters[session]| - 1);
    }
  }

  // ----- What the operations leave in the maps -----

  /** What a session waits for: the last wait that was accepted and neither cleared nor ended by an exit or a restore. */
  ghost function WaitOf(ops: seq<Op>, session: SessionId): Option<SessionId> {
    if ops == [] then None
    else
      var front := ops[..|ops| - 1];
      var before := WaitOf(front, session);
      match ops[|ops| - 1]
      case RegisterActiveWait(waiting, dependency) =>
        if waiting == session && Acyclic(Run(front).activeWaits[waiting := dependency]) then Some(dependency) else before
      case ClearActiveWait(waiting) => if waiting == session then None else before
      case RecordExit(exited, _) => if exited == session || before == Some(exited) then None else before
      case SnapshotAndRestore => None
      case _ => before
  }

  /** Main result: each session waits for exactly that. */
  lemma {:induction false} WaitsAreLast(ops: seq<Op>, session: SessionId)
    ensures session in Run(ops).activeWaits <==> WaitOf(ops, session).Some?
    ensures session in Run(ops).activeWaits ==> WaitOf(ops, session) == Some(Run(ops).activeWaits[session])
  {
    hide Acyclic, Reaches;
    if ops != [] {
      var front, last := ops[..|ops| - 1], ops[|ops| - 1];
      WaitsAreLast(front, session);
      if last.RegisterActiveWait? {
        WaitsStayAcyclic(front);
        AddEdgeAcyclic(Run(front).activeWaits, last.waiting, last.dependency);
      }
    }
  }

  /** The children attached to a session, in the order in which they were. */
  function ChildrenAttached(ops: seq<Op>, parent: SessionId): seq<SessionId> {
    if ops == [] then []
    else
      var last := ops[|ops| - 1];
      ChildrenAttached(ops[..|ops| - 1], parent) + if last.AddChild? && last.parent == parent then [last.child] else []
  }

  /** The parent a session was attached to last. */
  function LastParent(ops: seq<Op>, child: SessionId): Option<SessionId> {
    if ops == [] then None
    else
      var last := ops[|ops| - 1];
      if last.AddChild? && last.child == child then Some(last.parent) else LastParent(ops[..|ops| - 1], child)
  }

  /** Main result: in every run the tree is what was attached, in that order, also across snapshot and restore. */
  lemma {:induction false} TreeIsWhatWasAttached(ops: seq<Op>, session: SessionId)
    ensures ListAt(Run(ops).children, session) == ChildrenAttached(ops, session)
    ensures session in Run(ops).parents <==> LastParent(ops, session).Some?
    ensures session in Run(ops).parents ==> LastParent(ops, session) == Some(Run(ops).parents[session])
  {
    hide Apply, ListAt;
    if ops == [] {
      EmptyIsAttached(session);
    } else {
      var front, last := ops[..|ops| - 1], ops[|ops| - 1];
      TreeIsWhatWasAttached(front, session);
      StepAttaches(Run(front), last, session);
      assert ChildrenAttached(front, session) + [] == ChildrenAttached(front, session);
    }
  }

  lemma EmptyIsAttached(session: SessionId)
    ensures ListAt(EMPTY_TREE.children, session) == [] && session !in EMPTY_TREE.parents
  {
  }

  lemma StepAttaches(t: TreeState, op: Op, session: SessionId)
    ensures
      var u := Apply(t, op);
      && ListAt(u.children, session)
         == ListAt(t.children, session) + (if op.AddChild? && op.parent == session then [op.child] else [])
      && if op.AddChild? && op.child == session then session in u.parents && u.parents[session] == op.parent
         else
           && (session in u.parents <==> session in t.parents)
           && (session in t.parents ==> u.parents[session] == t.parents[session])
  {
    assert ListAt(t.children, session) + [] == ListAt(t.children, session);
  }
}
