/**
  The shape of the tree listing: every session once, at the depth of its ancestry,
  followed by exactly what is below it, with siblings in order.
 */
module TreeShapes {
  import opened Wrappers
  import opened SuccessorGraphs
  import opened Sorting
  import opened TreeListings

  type Graph = map<string, string>

  // ----- Depth -----

  ghost predicate HasDepth(g: Graph, x: string, depth: nat) {
    exists root :: EndsAt(g, x, root, depth)
  }

  /** How many parents lie above a session, where that ends. */
  ghost function Depth(g: Graph, x: string): (depth: nat)
    ensures Ends(g, x) ==> HasDepth(g, x, depth)
  {
    if Ends(g, x) then
      DepthExists(g, x);
      var depth: nat :| HasDepth(g, x, depth);
      depth
    else 0
  }

  lemma DepthExists(g: Graph, x: string)
    requires Ends(g, x)
    ensures exists depth: nat :: HasDepth(g, x, depth)
  {
    var root, depth: nat :| EndsAt(g, x, root, depth);
    assert HasDepth(g, x, depth);
  }

  lemma DepthIs(g: Graph, x: string, root: string, depth: nat)
    requires EndsAt(g, x, root, depth)
    ensures Ends(g, x) && Depth(g, x) == depth
  {
    var root' :| EndsAt(g, x, root', Depth(g, x));
    EndIsUnique(g, x, root, depth, root', Depth(g, x));
  }

  lemma DepthIsBounded(g: Graph, x: string)
    requires Ends(g, x)
    ensures Depth(g, x) <= |g|
  {
    EndsIffNoCycle(g, x);
    var root, depth := WalkWithoutCycle(g, x);
    DepthIs(g, x, root, depth);
  }

  lemma WalkChangesDepth(g: Graph, x: string, n: nat, y: string)
    requires Ends(g, y) && Walk(g, x, n) == Some(y)
    ensures Ends(g, x) && Depth(g, x) == n + Depth(g, y)
  {
    var root :| EndsAt(g, y, root, Depth(g, y));
    WalkAdd(g, x, n, Depth(g, y));
    DepthIs(g, x, root, n + Depth(g, y));
  }

  lemma ChildIsDeeper(g: Graph, x: string)
    ensures x in g ==> (Ends(g, x) <==> Ends(g, g[x])) && (Ends(g, x) ==> Depth(g, x) == Depth(g, g[x]) + 1)
    ensures x !in g ==> Ends(g, x) && Depth(g, x) == 0
  {
    if x in g {
      assert Walk(g, x, 1) == Walk(g, g[x], 0);
      if Ends(g, g[x]) {
        WalkChangesDepth(g, x, 1, g[x]);
      }
      if Ends(g, x) {
        var root, depth: nat :| EndsAt(g, x, root, depth);
        assert EndsAt(g, g[x], root, depth - 1);
      }
    } else {
      DepthIs(g, x, x, 0);
    }
  }

  // ----- The shape of a listing -----

  ghost predicate SameParent(g: Graph, x: string, y: string) {
    if x in g then y in g && g[x] == g[y] else y !in g
  }

  predicate AreLines(lines: seq<TreeLine>) {
    forall i | 0 <= i < |lines| :: lines[i].TreeLine?
  }

  ghost predicate Once(lines: seq<TreeLine>)
    requires AreLines(lines)
  {
    forall i, j | 0 <= i < j < |lines| :: lines[i].sessionId != lines[j].sessionId
  }

  ghost predicate AtDepth(g: Graph, marked: set<string>, lines: seq<TreeLine>, shift: int)
    requires AreLines(lines)
  {
    forall i | 0 <= i < |lines| ::
      && lines[i].depth == Depth(g, lines[i].sessionId) + shift
      && lines[i].highlighted == (lines[i].sessionId in marked)
  }

  /** Every line from i to j is indented further than i. */
  predicate Inside(lines: seq<TreeLine>, i: nat, j: nat)
    requires AreLines(lines) && i <= j < |lines|
  {
    forall k | i < k <= j :: lines[i].depth < lines[k].depth
  }

  /** What is below a session is exactly the block of deeper lines after it. */
  ghost predicate Nested(g: Graph, lines: seq<TreeLine>)
    requires AreLines(lines)
  {
    forall i, j | 0 <= i < j < |lines| :: BlockAt(g, lines, i, j)
  }

  ghost predicate BlockAt(g: Graph, lines: seq<TreeLine>, i: nat, j: nat)
    requires AreLines(lines) && i < j < |lines|
  {
    && !Reaches(g, lines[i].sessionId, lines[j].sessionId)
    && (Reaches(g, lines[j].sessionId, lines[i].sessionId) <==> Inside(lines, i, j))
  }

  ghost predicate SiblingsInOrder(g: Graph, records: Records, lines: seq<TreeLine>)
    requires AreLines(lines)
  {
    forall i, j | 0 <= i < j < |lines| && SameParent(g, lines[i].sessionId, lines[j].sessionId) ::
      ComesFirst(records, lines[i].sessionId, lines[j].sessionId)
  }

  ghost predicate IsTree(g: Graph, records: Records, marked: set<string>, lines: seq<TreeLine>, shift: int) {
    && AreLines(lines) && Once(lines) && AtDepth(g, marked, lines, shift)
    && Nested(g, lines) && SiblingsInOrder(g, records, lines)
  }

  ghost predicate Shows(lines: seq<TreeLine>, id: string) {
    exists i :: 0 <= i < |lines| && lines[i].TreeLine? && lines[i].sessionId == id
  }

  ghost predicate BelowSome(g: Graph, tops: seq<string>, id: string) {
    exists t :: t in tops && Reaches(g, id, t)
  }

  // ----- Ancestors at a level -----

  ghost predicate TopIs(g: Graph, level: nat, x: string, top: string) {
    Ends(g, x) && Depth(g, x) >= level && Walk(g, x, Depth(g, x) - level) == Some(top)
  }

  ghost predicate HasTop(g: Graph, level: nat, tops: seq<string>, x: string) {
    exists t :: t in tops && TopIs(g, level, x, t)
  }

  lemma ReachedIsTop(g: Graph, x: string, top: string)
    requires Ends(g, top) && Reaches(g, x, top)
    ensures TopIs(g, Depth(g, top), x, top)
  {
    hide Depth;
    var n: nat :| Walk(g, x, n) == Some(top);
    WalkChangesDepth(g, x, n, top);
  }

  lemma TopIsInherited(g: Graph, level: nat, x: string, y: string, top: string)
    requires Reaches(g, x, y) && TopIs(g, level, y, top)
    ensures TopIs(g, level, x, top)
  {
    hide Depth;
    var n: nat :| Walk(g, x, n) == Some(y);
    WalkChangesDepth(g, x, n, y);
    WalkAdd(g, x, n, Depth(g, y) - level);
  }

  /** Sessions below different ones of the same level have nothing to do with each other. */
  lemma Apart(g: Graph, level: nat, x: string, top: string, x': string, top': string)
    requires TopIs(g, level, x, top) && TopIs(g, level, x', top') && top != top'
    ensures x != x' && !Reaches(g, x, x') && !Reaches(g, x', x)
    ensures SameParent(g, x, x') ==> x == top && x' == top'
  {
    hide Depth;
    if Reaches(g, x, x') {
      TopIsInherited(g, level, x, x', top');
    }
    if Reaches(g, x', x) {
      TopIsInherited(g, level, x', x, top);
    }
    ChildIsDeeper(g, x);
    ChildIsDeeper(g, x');
  }

  // ----- Putting lines together -----

  lemma Join(g: Graph, records: Records, marked: set<string>, a: seq<TreeLine>, b: seq<TreeLine>, shift: int,
             level: nat, tops: seq<string>, top: string)
    requires IsTree(g, records, marked, a, shift) && IsTree(g, records, marked, b, shift)
    requires b != [] ==> b[0].depth == level + shift
    requires forall i | 0 <= i < |a| :: HasTop(g, level, tops, a[i].sessionId)
    requires forall j | 0 <= j < |b| :: TopIs(g, level, b[j].sessionId, top)
    requires top !in tops && forall t | t in tops :: ComesFirst(records, t, top)
    ensures IsTree(g, records, marked, a + b, shift)
  {
    var lines := a + b;
    forall i, j | 0 <= i < |a| && 0 <= j < |b|
      ensures a[i].sessionId != b[j].sessionId
      ensures !Reaches(g, a[i].sessionId, b[j].sessionId) && !Reaches(g, b[j].sessionId, a[i].sessionId)
      ensures SameParent(g, a[i].sessionId, b[j].sessionId) ==> ComesFirst(records, a[i].sessionId, b[j].sessionId)
      ensures !Inside(lines, i, |a| + j)
    {
      hide Depth, Reaches, ComesFirst, SameParent;
      var t :| t in tops && TopIs(g, level, a[i].sessionId, t);
      Apart(g, level, a[i].sessionId, t, b[j].sessionId, top);
      assert lines[|a|].depth <= lines[i].depth;
    }
    JoinNests(g, a, b);
    JoinOrders(g, records, a, b);
  }

  lemma JoinNests(g: Graph, a: seq<TreeLine>, b: seq<TreeLine>)
    requires AreLines(a) && AreLines(b) && Nested(g, a) && Nested(g, b)
    requires forall i, j | 0 <= i < |a| && 0 <= j < |b| ::
               && !Reaches(g, a[i].sessionId, b[j].sessionId) && !Reaches(g, b[j].sessionId, a[i].sessionId)
               && !Inside(a + b, i, |a| + j)
    ensures Nested(g, a + b)
  {
    hide Reaches, Inside, BlockAt;
    var lines := a + b;
    forall i, j | 0 <= i < j < |lines|
      ensures BlockAt(g, lines, i, j)
    {
      if j < |a| {
        BlockBefore(g, a, b, i, j);
      } else if i < |a| {
        BlockAcross(g, a, b, i, j - |a|);
      } else {
        BlockAfter(g, a, b, i - |a|, j - |a|);
      }
    }
  }

  lemma BlockBefore(g: Graph, a: seq<TreeLine>, b: seq<TreeLine>, i: nat, j: nat)
    requires AreLines(a) && AreLines(b) && i < j < |a| && BlockAt(g, a, i, j)
    ensures BlockAt(g, a + b, i, j)
  {
    hide Reaches;
    assert forall k | i <= k <= j :: (a + b)[k] == a[k];
    assert Inside(a + b, i, j) <==> Inside(a, i, j);
  }

  lemma BlockAcross(g: Graph, a: seq<TreeLine>, b: seq<TreeLine>, i: nat, j: nat)
    requires AreLines(a) && AreLines(b) && i < |a| && j < |b|
    requires !Reaches(g, a[i].sessionId, b[j].sessionId) && !Reaches(g, b[j].sessionId, a[i].sessionId)
    requires !Inside(a + b, i, |a| + j)
    ensures BlockAt(g, a + b, i, |a| + j)
  {
    hide Reaches, Inside;
    assert (a + b)[|a| + j] == b[j];
  }

  lemma BlockAfter(g: Graph, a: seq<TreeLine>, b: seq<TreeLine>, i: nat, j: nat)
    requires AreLines(a) && AreLines(b) && i < j < |b| && BlockAt(g, b, i, j)
    ensures BlockAt(g, a + b, |a| + i, |a| + j)
  {
    hide Reaches;
    InsideShifts(a, b, i, j);
    assert (a + b)[|a| + i] == b[i] && (a + b)[|a| + j] == b[j];
  }

  lemma InsideShifts(a: seq<TreeLine>, b: seq<TreeLine>, i: nat, j: nat)
    requires AreLines(a) && AreLines(b) && i <= j < |b|
    ensures Inside(a + b, |a| + i, |a| + j) <==> Inside(b, i, j)
  {
    if Inside(a + b, |a| + i, |a| + j) {
      forall k | i < k <= j
        ensures b[i].depth < b[k].depth
      {
        assert (a + b)[|a| + k] == b[k];
      }
    }
  }

  lemma JoinOrders(g: Graph, records: Records, a: seq<TreeLine>, b: seq<TreeLine>)
    requires AreLines(a) && AreLines(b) && SiblingsInOrder(g, records, a) && SiblingsInOrder(g, records, b)
    requires forall i, j | 0 <= i < |a| && 0 <= j < |b| && SameParent(g, a[i].sessionId, b[j].sessionId) ::
               ComesFirst(records, a[i].sessionId, b[j].sessionId)
    ensures SiblingsInOrder(g, records, a + b)
  {
    hide ComesFirst, SameParent;
    var lines := a + b;
    forall i, j | 0 <= i < j < |lines| && SameParent(g, lines[i].sessionId, lines[j].sessionId)
      ensures ComesFirst(records, lines[i].sessionId, lines[j].sessionId)
    {
      if |a| <= i {
        assert lines[i] == b[i - |a|] && lines[j] == b[j - |a|];
      } else if |a| <= j {
        assert lines[j] == b[j - |a|];
      }
    }
  }

  /** A session above the lines of everything below it. */
  lemma Crown(g: Graph, records: Records, marked: set<string>, top: TreeLine, below: seq<TreeLine>, shift: int)
    requires IsTree(g, records, marked, below, shift)
    requires top.TreeLine? && IsTree(g, records, marked, [top], shift) && Ends(g, top.sessionId)
    requires forall i | 0 <= i < |below| ::
               && Ends(g, below[i].sessionId) && Reaches(g, below[i].sessionId, top.sessionId)
               && Depth(g, below[i].sessionId) > Depth(g, top.sessionId)
    ensures IsTree(g, records, marked, [top] + below, shift)
  {
    hide ComesFirst, Depth, Reaches, Inside, BlockAt, SameParent;
    forall j | 0 <= j < |below|
      ensures top.sessionId != below[j].sessionId && !SameParent(g, top.sessionId, below[j].sessionId)
      ensures !Reaches(g, top.sessionId, below[j].sessionId)
    {
      Deeper(g, below[j].sessionId, top.sessionId);
    }
    assert [top][0] == top;
    forall i, j | 0 <= i < j < |[top] + below|
      ensures BlockAt(g, [top] + below, i, j)
    {
      if i > 0 {
        BlockAfter(g, [top], below, i - 1, j - 1);
      } else {
        BlockOfTop(g, top, below, j - 1);
      }
    }
    JoinOrders(g, records, [top], below);
  }

  lemma BlockOfTop(g: Graph, top: TreeLine, below: seq<TreeLine>, j: nat)
    requires AreLines([top]) && top.TreeLine? && AreLines(below) && j < |below|
    requires Reaches(g, below[j].sessionId, top.sessionId) && !Reaches(g, top.sessionId, below[j].sessionId)
    requires forall i | 0 <= i < |below| :: top.depth < below[i].depth
    ensures BlockAt(g, [top] + below, 0, j + 1)
  {
    hide Reaches;
    var lines := [top] + below;
    forall k | 0 < k <= j + 1
      ensures lines[0].depth < lines[k].depth
    {
      assert lines[k] == below[k - 1];
    }
  }

  lemma Deeper(g: Graph, x: string, y: string)
    requires Ends(g, x) && Ends(g, y) && Depth(g, x) > Depth(g, y)
    ensures x != y && !Reaches(g, y, x) && !SameParent(g, y, x)
  {
    hide Depth;
    if n: nat :| Walk(g, y, n) == Some(x) {
      WalkChangesDepth(g, y, n, x);
    }
    ChildIsDeeper(g, x);
    ChildIsDeeper(g, y);
  }

  // ----- The listing -----

  lemma ReachesItself(g: Graph, x: string)
    ensures Reaches(g, x, x)
  {
    assert Walk(g, x, 0) == Some(x);
  }

  /** What is below a session is the session itself or below one of its children. */
  lemma BelowIsBelowKids(sessions: seq<SessionRecord>, id: string, x: string)
    requires DistinctIds(sessions) && id in RecordsOf(sessions)
    ensures Reaches(Parents(sessions), x, id) <==>
              x == id || BelowSome(Parents(sessions), Kids(sessions, Some(id)), x)
  {
    hide Kids, RecordsOf;
    var g := Parents(sessions);
    KidsAreChildren(sessions, Some(id));
    ReachesItself(g, id);
    if Reaches(g, x, id) && x != id {
      var n: nat :| Walk(g, x, n) == Some(id);
      WalkAdd(g, x, n - 1, 1);
      var y := Walk(g, x, n - 1).value;
      assert Walk(g, y, 1) == Some(id);
      assert y in g && Walk(g, g[y], 0) == Some(id);
      assert Reaches(g, x, y) && y in Kids(sessions, Some(id));
    }
    if t :| t in Kids(sessions, Some(id)) && Reaches(g, x, t) {
      assert g[t] == id;
      StepReaches(g, x, t);
    }
  }

  ghost predicate ListsBelow(sessions: seq<SessionRecord>, tops: seq<string>, lines: seq<TreeLine>) {
    forall s :: Shows(lines, s) <==> s in RecordsOf(sessions) && BelowSome(Parents(sessions), tops, s)
  }

  /** Children are one level deeper. */
  lemma KidsAreDeeper(sessions: seq<SessionRecord>, id: string)
    requires DistinctIds(sessions) && Ends(Parents(sessions), id)
    ensures forall c | c in Kids(sessions, Some(id)) ::
              && c in RecordsOf(sessions) && c in Parents(sessions) && Parents(sessions)[c] == id
              && Ends(Parents(sessions), c) && Depth(Parents(sessions), c) == Depth(Parents(sessions), id) + 1
  {
    hide Depth;
    KidsAreChildren(sessions, Some(id));
    forall c | c in Kids(sessions, Some(id))
      ensures c in Parents(sessions) && Ends(Parents(sessions), c)
      ensures Depth(Parents(sessions), c) == Depth(Parents(sessions), id) + 1
    {
      ChildIsDeeper(Parents(sessions), c);
    }
  }

  lemma {:induction false} SubtreeIsTree(sessions: seq<SessionRecord>, marked: set<string>, id: string, depth: nat, fuel: nat)
    requires DistinctIds(sessions) && Ends(Parents(sessions), id) && id in RecordsOf(sessions) && Settles(sessions, id, fuel)
    ensures var g, lines := Parents(sessions), SubtreeLines(sessions, marked, id, depth, fuel);
            && IsTree(g, RecordsOf(sessions), marked, lines, depth - Depth(g, id))
            && ListsBelow(sessions, [id], lines)
            && lines != [] && lines[0].TreeLine? && lines[0].depth == depth
    decreases fuel, 0, 0
  {
    hide Depth, Kids, Parents, RecordsOf, DistinctIds, SubtreeLines, ForestLines, IsTree, ListsBelow, Ends, Settles;
    var g, kids := Parents(sessions), Kids(sessions, Some(id));
    SubtreeIs(sessions, marked, id, depth, fuel);
    KidsAreDeeper(sessions, id);
    KidsAreChildren(sessions, Some(id));
    ForestIsTree(sessions, marked, kids, depth + 1, fuel - 1, Depth(g, id) + 1);
    CrownSubtree(sessions, marked, id, depth, ForestLines(sessions, marked, kids, depth + 1, fuel - 1));
  }

  lemma CrownSubtree(sessions: seq<SessionRecord>, marked: set<string>, id: string, depth: nat, below: seq<TreeLine>)
    requires DistinctIds(sessions) && Ends(Parents(sessions), id) && id in RecordsOf(sessions)
    requires IsTree(Parents(sessions), RecordsOf(sessions), marked, below, depth - Depth(Parents(sessions), id))
    requires ListsBelow(sessions, Kids(sessions, Some(id)), below)
    ensures
      var g, top := Parents(sessions), TreeLine(depth, id, id in marked);
      && IsTree(g, RecordsOf(sessions), marked, [top] + below, depth - Depth(g, id))
      && ListsBelow(sessions, [id], [top] + below)
  {
    hide Depth, Kids, Parents, RecordsOf, DistinctIds, Ends;
    var g, kids, top := Parents(sessions), Kids(sessions, Some(id)), TreeLine(depth, id, id in marked);
    KidsAreDeeper(sessions, id);
    forall i | 0 <= i < |below|
      ensures Ends(g, below[i].sessionId) && Reaches(g, below[i].sessionId, id)
      ensures Depth(g, below[i].sessionId) > Depth(g, id)
    {
      var x := below[i].sessionId;
      assert Shows(below, x);
      BelowIsBelowKids(sessions, id, x);
      var t :| t in kids && Reaches(g, x, t);
      ReachedIsTop(g, x, t);
    }
    Crown(g, RecordsOf(sessions), marked, top, below, depth - Depth(g, id));
    forall s
      ensures Shows([top] + below, s) <==> s in RecordsOf(sessions) && BelowSome(g, [id], s)
    {
      ShowsJoined([top], below, s);
      BelowIsBelowKids(sessions, id, s);
      assert BelowSome(g, [id], s) <==> Reaches(g, s, id);
      assert Shows([top], s) <==> s == id by {
        assert [top][0] == top;
      }
    }
  }

  lemma ShowsJoined(a: seq<TreeLine>, b: seq<TreeLine>, id: string)
    ensures Shows(a + b, id) <==> Shows(a, id) || Shows(b, id)
  {
    if i :| 0 <= i < |a| && a[i].TreeLine? && a[i].sessionId == id {
      assert (a + b)[i] == a[i];
    }
    if i :| 0 <= i < |b| && b[i].TreeLine? && b[i].sessionId == id {
      assert (a + b)[|a| + i] == b[i];
    }
  }

  lemma {:induction false} ForestIsTree(sessions: seq<SessionRecord>, marked: set<string>, tops: seq<string>, depth: nat,
                                        fuel: nat, level: nat)
    requires DistinctIds(sessions)
    requires forall t | t in tops ::
               && t in RecordsOf(sessions) && Ends(Parents(sessions), t) && Depth(Parents(sessions), t) == level
               && Settles(sessions, t, fuel)
    requires Distinct(tops) && Sorted(ByLastActive(RecordsOf(sessions)), tops)
    ensures var lines := ForestLines(sessions, marked, tops, depth, fuel);
            && IsTree(Parents(sessions), RecordsOf(sessions), marked, lines, depth - level)
            && ListsBelow(sessions, tops, lines)
    decreases fuel, 1, |tops|
  {
    hide Depth, Kids, Parents, RecordsOf, DistinctIds, SubtreeLines, ForestLines, IsTree, ListsBelow, Ends, Settles;
    if tops == [] {
      NoTops(sessions, marked, tops, depth, fuel);
      NothingIsTree(sessions, marked, depth - level);
    } else {
      var n := |tops| - 1;
      ForestStep(sessions, marked, tops, n, depth, fuel);
      assert tops[..n + 1] == tops;
      ForestIsTree(sessions, marked, tops[..n], depth, fuel, level);
      SubtreeIsTree(sessions, marked, tops[n], depth, fuel);
      JoinForest(sessions, marked, tops, depth, level, ForestLines(sessions, marked, tops[..n], depth, fuel),
                 SubtreeLines(sessions, marked, tops[n], depth, fuel));
    }
  }

  lemma NothingIsTree(sessions: seq<SessionRecord>, marked: set<string>, shift: int)
    ensures IsTree(Parents(sessions), RecordsOf(sessions), marked, [], shift) && ListsBelow(sessions, [], [])
  {
    hide Parents, RecordsOf;
  }

  lemma JoinForest(sessions: seq<SessionRecord>, marked: set<string>, tops: seq<string>, depth: nat, level: nat,
                   before: seq<TreeLine>, last: seq<TreeLine>)
    requires tops != []
    requires Distinct(tops) && Sorted(ByLastActive(RecordsOf(sessions)), tops)
    requires forall t | t in tops :: Ends(Parents(sessions), t) && Depth(Parents(sessions), t) == level
    requires IsTree(Parents(sessions), RecordsOf(sessions), marked, before, depth - level)
    requires IsTree(Parents(sessions), RecordsOf(sessions), marked, last, depth - level)
    requires ListsBelow(sessions, tops[..|tops| - 1], before) && ListsBelow(sessions, [tops[|tops| - 1]], last)
    requires last != [] && last[0].TreeLine? && last[0].depth == depth
    ensures IsTree(Parents(sessions), RecordsOf(sessions), marked, before + last, depth - level)
    ensures ListsBelow(sessions, tops, before + last)
  {
    hide Depth, Parents, RecordsOf, Ends, ComesFirst, Reaches, Once, AtDepth, Nested, SiblingsInOrder, Shows, BelowSome, HasTop, TopIs, Distinct;
    var g, records, front, top := Parents(sessions), RecordsOf(sessions), tops[..|tops| - 1], tops[|tops| - 1];
    ShownHaveTop(sessions, front, before, level);
    ShownHaveTop(sessions, [top], last, level);
    forall j | 0 <= j < |last|
      ensures TopIs(g, level, last[j].sessionId, top)
    {
      OnlyTop(g, level, top, last[j].sessionId);
    }
    LastTopComesLast(records, tops);
    Join(g, records, marked, before, last, depth - level, level, front, top);
    forall s
      ensures Shows(before + last, s) <==> s in records && BelowSome(g, tops, s)
    {
      ShowsJoined(before, last, s);
      assert tops == front + [top];
      BelowJoined(g, front, top, s);
    }
  }

  lemma ShownHaveTop(sessions: seq<SessionRecord>, tops: seq<string>, lines: seq<TreeLine>, level: nat)
    requires AreLines(lines) && ListsBelow(sessions, tops, lines)
    requires forall t | t in tops :: Ends(Parents(sessions), t) && Depth(Parents(sessions), t) == level
    ensures forall i | 0 <= i < |lines| :: HasTop(Parents(sessions), level, tops, lines[i].sessionId)
  {
    hide Depth, Parents, RecordsOf, Ends, Reaches, TopIs;
    forall i | 0 <= i < |lines|
      ensures HasTop(Parents(sessions), level, tops, lines[i].sessionId)
    {
      assert Shows(lines, lines[i].sessionId);
      var t :| t in tops && Reaches(Parents(sessions), lines[i].sessionId, t);
      ReachedIsTop(Parents(sessions), lines[i].sessionId, t);
    }
  }

  lemma OnlyTop(g: Graph, level: nat, top: string, x: string)
    requires HasTop(g, level, [top], x)
    ensures TopIs(g, level, x, top)
  {
    hide TopIs;
  }

  lemma BelowJoined(g: Graph, front: seq<string>, top: string, x: string)
    ensures BelowSome(g, front + [top], x) <==> BelowSome(g, front, x) || BelowSome(g, [top], x)
  {
    hide Reaches;
    assert top in front + [top];
  }

  lemma LastTopComesLast(records: Records, tops: seq<string>)
    requires tops != [] && Distinct(tops) && Sorted(ByLastActive(records), tops)
    ensures var front, top := tops[..|tops| - 1], tops[|tops| - 1];
            top !in front && forall t | t in front :: ComesFirst(records, t, top)
  {
    hide ComesFirst;
    var front := tops[..|tops| - 1];
    forall t | t in front
      ensures ComesFirst(records, t, tops[|tops| - 1])
    {
      var i :| 0 <= i < |tops| - 1 && tops[i] == t;
      assert ByLastActive(records)(tops[i], tops[|tops| - 1]);
    }
  }

  // ----- When the listing comes to an end -----

  /** Some session has no parent, so that the listing starts from the sessions without one. */
  ghost predicate HasRoot(sessions: seq<SessionRecord>) {
    exists id :: id in RecordsOf(sessions) && RecordsOf(sessions)[id].parentId == None
  }

  lemma {:induction false} EndsSettles(sessions: seq<SessionRecord>, id: string, fuel: nat)
    requires DistinctIds(sessions) && Ends(Parents(sessions), id)
    requires fuel + Depth(Parents(sessions), id) > |Parents(sessions)|
    ensures Settles(sessions, id, fuel)
    decreases fuel
  {
    hide Depth, Kids, Parents, RecordsOf, DistinctIds, Ends;
    DepthIsBounded(Parents(sessions), id);
    KidsAreDeeper(sessions, id);
    forall c | c in Kids(sessions, Some(id))
      ensures Settles(sessions, c, fuel - 1)
    {
      DepthIsBounded(Parents(sessions), c);
      EndsSettles(sessions, c, fuel - 1);
    }
  }

  /** A session that is above itself is listed below itself again and again. */
  lemma {:induction false} CycleNeverSettles(sessions: seq<SessionRecord>, x: string, n: nat, fuel: nat)
    requires DistinctIds(sessions) && n > 0 && Walk(Parents(sessions), x, n) == Some(x)
    ensures !Settles(sessions, x, fuel)
    decreases fuel
  {
    hide Kids, RecordsOf, DistinctIds;
    if fuel > 0 {
      var g := Parents(sessions);
      WalkAdd(g, x, n - 1, 1);
      var y := Walk(g, x, n - 1).value;
      assert Walk(g, y, 1) == Some(x);
      assert y in g && Walk(g, g[y], 0) == Some(x);
      KidsAreChildren(sessions, Some(x));
      assert y in Kids(sessions, Some(x));
      assert x in g;
      WalkAdd(g, y, 1, n - 1);
      CycleNeverSettles(sessions, y, n, fuel - 1);
    }
  }

  /**
    Main result: with distinct identifiers the listing comes to an end exactly when some
    session has no parent or no session is above itself.
   */
  lemma ListingEndsIff(sessions: seq<SessionRecord>)
    requires DistinctIds(sessions)
    ensures (exists fuel: nat :: AllSettle(sessions, fuel)) <==> HasRoot(sessions) || Acyclic(Parents(sessions))
  {
    hide Depth, Kids, RecordsOf, DistinctIds, Settles, Ends;
    var g := Parents(sessions);
    RootsAre(sessions);
    if HasRoot(sessions) || Acyclic(g) {
      forall t | t in Roots(sessions)
        ensures Settles(sessions, t, |g| + 1)
      {
        if HasRoot(sessions) {
          ChildIsDeeper(g, t);
        } else {
          AcyclicIffWalksEnd(g);
        }
        EndsSettles(sessions, t, |g| + 1);
      }
      assert AllSettle(sessions, |g| + 1);
    } else {
      var x: string, n: nat :| n > 0 && Walk(g, x, n) == Some(x);
      assert x in Roots(sessions);
      forall fuel: nat
        ensures !AllSettle(sessions, fuel)
      {
        CycleNeverSettles(sessions, x, n, fuel);
      }
    }
  }

  lemma NoMembers(ids: seq<string>)
    ensures (forall id :: id !in ids) <==> ids == []
  {
    if ids != [] {
      assert ids[0] in ids;
    }
  }

  lemma RootsAre(sessions: seq<SessionRecord>)
    requires DistinctIds(sessions)
    ensures HasRoot(sessions) ==>
              forall id :: id in Roots(sessions) <==> id in RecordsOf(sessions) && id !in Parents(sessions)
    ensures !HasRoot(sessions) ==> Roots(sessions) == RecordsOf(sessions).Keys
  {
    hide Kids, RecordsOf;
    KidsAreChildren(sessions, None);
    if HasRoot(sessions) {
      var id :| id in RecordsOf(sessions) && RecordsOf(sessions)[id].parentId == None;
      assert id in Kids(sessions, None);
    } else {
      NoMembers(Kids(sessions, None));
    }
  }

  // ----- Main results -----

  ghost predicate ListedParents(sessions: seq<SessionRecord>) {
    forall id | id in Parents(sessions) :: Parents(sessions)[id] in RecordsOf(sessions)
  }

  /** It has a topmost ancestor, which is among the sessions. */
  ghost predicate RootIsListed(sessions: seq<SessionRecord>, id: string) {
    exists root, depth: nat :: EndsAt(Parents(sessions), id, root, depth) && root in RecordsOf(sessions)
  }

  /**
    Main result: with distinct identifiers and some session to start from, the listing is
    the tree, and shows exactly the sessions whose topmost ancestor is listed too; the
    sessions of a cycle and those below them are left out.
   */
  lemma ListingIsTheTree(sessions: seq<SessionRecord>, marked: set<string>, tops: seq<string>, fuel: nat)
    requires DistinctIds(sessions) && HasRoot(sessions)
    requires IsTops(sessions, tops) && forall t | t in tops :: Settles(sessions, t, fuel)
    ensures
      var lines := ForestLines(sessions, marked, tops, 0, fuel);
      && IsTree(Parents(sessions), RecordsOf(sessions), marked, lines, 0)
      && forall s :: Shows(lines, s) <==> s in RecordsOf(sessions) && RootIsListed(sessions, s)
  {
    hide Depth, Kids, RecordsOf, DistinctIds, ForestLines, IsTree, Ends, ComesFirst, Settles, HasRoot, Roots, IsTops, Shows;
    var g := Parents(sessions);
    TopsAreRoots(sessions, tops);
    RootsAre(sessions);
    TopsAreSorted(sessions, tops);
    forall t | t in tops
      ensures t in RecordsOf(sessions) && Ends(g, t) && Depth(g, t) == 0
    {
      ChildIsDeeper(g, t);
    }
    ForestIsTree(sessions, marked, tops, 0, fuel, 0);
    forall s
      ensures BelowSome(g, tops, s) <==> RootIsListed(sessions, s)
    {
      BelowTops(sessions, tops, s);
    }
  }

  lemma TopsAreSorted(sessions: seq<SessionRecord>, tops: seq<string>)
    requires DistinctIds(sessions) && IsTops(sessions, tops)
    ensures Distinct(tops) && Sorted(ByLastActive(RecordsOf(sessions)), tops)
  {
    hide Kids, RecordsOf;
    KidsAreChildren(sessions, None);
  }

  lemma BelowTops(sessions: seq<SessionRecord>, tops: seq<string>, s: string)
    requires forall t :: t in tops <==> t in RecordsOf(sessions) && t !in Parents(sessions)
    ensures BelowSome(Parents(sessions), tops, s) <==> RootIsListed(sessions, s)
  {
    hide RecordsOf, Parents;
    var g := Parents(sessions);
    if t :| t in tops && Reaches(g, s, t) {
      var n: nat :| Walk(g, s, n) == Some(t);
      assert EndsAt(g, s, t, n);
    }
    if root, depth: nat :| EndsAt(g, s, root, depth) && root in RecordsOf(sessions) {
      assert root in tops;
      assert Walk(g, s, depth) == Some(root);
    }
  }

  /** Main result: when every parent is listed and no session is above itself, the listing shows every session. */
  lemma ListingShowsAll(sessions: seq<SessionRecord>, marked: set<string>, tops: seq<string>, fuel: nat)
    requires sessions != [] && DistinctIds(sessions) && Acyclic(Parents(sessions)) && ListedParents(sessions)
    requires IsTops(sessions, tops) && forall t | t in tops :: Settles(sessions, t, fuel)
    ensures
      var lines := ForestLines(sessions, marked, tops, 0, fuel);
      && IsTree(Parents(sessions), RecordsOf(sessions), marked, lines, 0)
      && forall s :: Shows(lines, s) <==> s in RecordsOf(sessions)
  {
    hide Depth, RecordsOf, DistinctIds, ForestLines, IsTree, Acyclic, ComesFirst, IsTops, Roots, HasRoot, RootIsListed, Shows, Settles;
    forall s | s in RecordsOf(sessions)
      ensures RootIsListed(sessions, s) && HasRoot(sessions)
    {
      FindsRoot(sessions, s);
    }
    RecordsHoldAll(sessions);
    assert IdOf(sessions[0]) in RecordsOf(sessions);
    ListingIsTheTree(sessions, marked, tops, fuel);
  }

  lemma FindsRoot(sessions: seq<SessionRecord>, s: string)
    requires Acyclic(Parents(sessions)) && ListedParents(sessions) && s in RecordsOf(sessions)
    ensures RootIsListed(sessions, s) && HasRoot(sessions)
  {
    hide RecordsOf, Acyclic;
    var root, depth := WalkOfAcyclic(Parents(sessions), s);
    ClosedSet(Parents(sessions), RecordsOf(sessions).Keys, s, depth);
    assert RecordsOf(sessions)[root].parentId == None;
  }
}
