/**
  The listing of sessions as an indented tree
  (format_tree_lines and push_tree_lines in crates/quine-cli/src/agent_ctl.rs).
  The text of a line beyond its indentation, identifier and highlight is left out.
 */
module TreeListings {
  import opened Wrappers
  import opened Sorting

  datatype SessionRecord = SessionRecord(
    sessionId: Option<string>, parentId: Option<string>, lastActive: Option<string>)

  datatype TreeLine = NoSessions | TreeLine(depth: nat, sessionId: string, highlighted: bool)

  type Records = map<string, SessionRecord>
  type Children = map<Option<string>, seq<string>>

  function IdOf(session: SessionRecord): string {
    if session.sessionId.Some? then session.sessionId.value else "unknown"
  }

  // ----- The order of siblings -----

  function LastActive(records: Records, id: string): Option<string> {
    if id !in records then None
    else if records[id].lastActive.Some? then records[id].lastActive else Some("")
  }

  predicate OptionLe(a: Option<string>, b: Option<string>) {
    a.None? || (b.Some? && TextLe(a.value, b.value))
  }

  /** The most recently active session comes first; sessions active at the same time come in the order of their ids. */
  predicate ComesFirst(records: Records, left: string, right: string) {
    var l, r := LastActive(records, left), LastActive(records, right);
    if l == r then TextLe(left, right) else OptionLe(r, l)
  }

  function ByLastActive(records: Records): (string, string) -> bool {
    (left, right) => ComesFirst(records, left, right)
  }

  lemma ByLastActiveIsTotal(records: Records)
    ensures TotalOrder(ByLastActive(records))
  {
    forall a, b
      ensures ComesFirst(records, a, b) || ComesFirst(records, b, a)
    {
      TextLeTotal(a, b);
      var l, r := LastActive(records, a), LastActive(records, b);
      if l.Some? && r.Some? {
        TextLeTotal(l.value, r.value);
      }
    }
    forall a, b, c | ComesFirst(records, a, b) && ComesFirst(records, b, c)
      ensures ComesFirst(records, a, c)
    {
      ComesFirstTransitive(records, a, b, c);
    }
  }

  lemma ComesFirstTransitive(records: Records, a: string, b: string, c: string)
    requires ComesFirst(records, a, b) && ComesFirst(records, b, c)
    ensures ComesFirst(records, a, c)
  {
    var x, y, z := LastActive(records, a), LastActive(records, b), LastActive(records, c);
    if x == y == z {
      TextLeTransitive(a, b, c);
    } else if x.Some? && y.Some? && z.Some? {
      TextLeTotal(x.value, x.value);
      TextLeTotal(y.value, y.value);
      TextLeTotal(x.value, y.value);
      TextLeTransitive(z.value, y.value, x.value);
    }
  }

  // ----- What the listing is made from -----

  /** A later record replaces an earlier one with the same identifier. */
  function RecordsOf(sessions: seq<SessionRecord>): Records {
    if sessions == [] then map[]
    else
      var last := sessions[|sessions| - 1];
      RecordsOf(sessions[..|sessions| - 1])[IdOf(last) := last]
  }

  function WithParent(sessions: seq<SessionRecord>, parent: Option<string>): seq<string> {
    if sessions == [] then []
    else
      var last := sessions[|sessions| - 1];
      WithParent(sessions[..|sessions| - 1], parent) + if last.parentId == parent then [IdOf(last)] else []
  }

  function Kids(sessions: seq<SessionRecord>, parent: Option<string>): seq<string> {
    Sort(ByLastActive(RecordsOf(sessions)), WithParent(sessions, parent))
  }

  ghost predicate DistinctIds(sessions: seq<SessionRecord>) {
    forall i, j | 0 <= i < j < |sessions| :: IdOf(sessions[i]) != IdOf(sessions[j])
  }

  function Parents(sessions: seq<SessionRecord>): map<string, string> {
    var records := RecordsOf(sessions);
    map id | id in records && records[id].parentId.Some? :: records[id].parentId.value
  }

  /** The sessions the listing starts from: those listed without a parent, or all of them if there are none. */
  function Roots(sessions: seq<SessionRecord>): set<string> {
    if Kids(sessions, None) != [] then set t | t in Kids(sessions, None) else RecordsOf(sessions).Keys
  }

  lemma {:induction false} RecordsHoldAll(sessions: seq<SessionRecord>)
    ensures forall id :: id in RecordsOf(sessions) <==> exists i :: 0 <= i < |sessions| && IdOf(sessions[i]) == id
    ensures DistinctIds(sessions) ==> forall i | 0 <= i < |sessions| :: RecordsOf(sessions)[IdOf(sessions[i])] == sessions[i]
  {
    if sessions != [] {
      var front, n := sessions[..|sessions| - 1], |sessions| - 1;
      RecordsHoldAll(front);
      forall id
        ensures id in RecordsOf(sessions) <==> exists i :: 0 <= i < |sessions| && IdOf(sessions[i]) == id
      {
        if id in RecordsOf(front) {
          var i :| 0 <= i < |front| && IdOf(front[i]) == id;
          assert IdOf(sessions[i]) == id;
        }
        if i :| 0 <= i < |sessions| && IdOf(sessions[i]) == id {
          assert i == n || (i < n && IdOf(front[i]) == id);
        }
      }
    }
  }

  lemma {:induction false} WithParentHolds(sessions: seq<SessionRecord>, parent: Option<string>)
    ensures forall id :: id in WithParent(sessions, parent) <==>
              exists i :: 0 <= i < |sessions| && IdOf(sessions[i]) == id && sessions[i].parentId == parent
    ensures DistinctIds(sessions) ==> Distinct(WithParent(sessions, parent))
  {
    if sessions != [] {
      var front, n := sessions[..|sessions| - 1], |sessions| - 1;
      WithParentHolds(front, parent);
      var ids := WithParent(front, parent);
      forall id
        ensures id in WithParent(sessions, parent) <==>
          exists i :: 0 <= i < |sessions| && IdOf(sessions[i]) == id && sessions[i].parentId == parent
      {
        if id in ids {
          var i :| 0 <= i < |front| && IdOf(front[i]) == id && front[i].parentId == parent;
          assert IdOf(sessions[i]) == id && sessions[i].parentId == parent;
        }
        if i :| 0 <= i < |sessions| && IdOf(sessions[i]) == id && sessions[i].parentId == parent {
          assert i == n || (i < n && IdOf(front[i]) == id && front[i].parentId == parent);
        }
      }
      if DistinctIds(sessions) {
        assert DistinctIds(front);
        assert IdOf(sessions[n]) !in ids;
      }
    }
  }

  /** With distinct identifiers, the children of a session are those whose record names it, once each and in order. */
  lemma KidsAreChildren(sessions: seq<SessionRecord>, parent: Option<string>)
    requires DistinctIds(sessions)
    ensures var records, kids := RecordsOf(sessions), Kids(sessions, parent);
            && Distinct(kids) && Sorted(ByLastActive(records), kids)
            && forall id :: id in kids <==> id in records && records[id].parentId == parent
  {
    var records, order, ids := RecordsOf(sessions), ByLastActive(RecordsOf(sessions)), WithParent(sessions, parent);
    RecordsHoldAll(sessions);
    WithParentHolds(sessions, parent);
    ByLastActiveIsTotal(records);
    SortSorted(order, ids);
    SortDistinct(order, ids);
    forall id
      ensures id in Sort(order, ids) <==> id in records && records[id].parentId == parent
    {
      SortKeepsMembers(order, ids, id);
      if id in records && records[id].parentId == parent {
        var i :| 0 <= i < |sessions| && IdOf(sessions[i]) == id;
        assert sessions[i].parentId == parent;
      }
    }
  }

  // ----- The lines -----

  /** The listing from a session comes to an end, no deeper than `fuel` levels. */
  ghost predicate Settles(sessions: seq<SessionRecord>, id: string, fuel: nat)
    decreases fuel
  {
    fuel > 0 &&
    (id in RecordsOf(sessions) ==> forall c | c in Kids(sessions, Some(id)) :: Settles(sessions, c, fuel - 1))
  }

  /** The lines of a session and of everything below it. */
  ghost function SubtreeLines(sessions: seq<SessionRecord>, marked: set<string>, id: string, depth: nat, fuel: nat): seq<TreeLine>
    requires Settles(sessions, id, fuel)
    decreases fuel, 0, 0
  {
    if id !in RecordsOf(sessions) then []
    else
      [TreeLine(depth, id, id in marked)] + ForestLines(sessions, marked, Kids(sessions, Some(id)), depth + 1, fuel - 1)
  }

  /** The lines of several sessions in turn. */
  ghost function ForestLines(sessions: seq<SessionRecord>, marked: set<string>, tops: seq<string>, depth: nat, fuel: nat):
      seq<TreeLine>
    requires forall t | t in tops :: Settles(sessions, t, fuel)
    decreases fuel, 1, |tops|
  {
    if tops == [] then []
    else
      var n := |tops| - 1;
      ForestLines(sessions, marked, tops[..n], depth, fuel) + SubtreeLines(sessions, marked, tops[n], depth, fuel)
  }

  ghost predicate Orders(records: Records, tops: seq<string>, ids: set<string>) {
    && Distinct(tops) && Sorted(ByLastActive(records), tops)
    && forall t :: t in tops <==> t in ids
  }

  /** The order of the sessions the listing starts from. */
  ghost predicate IsTops(sessions: seq<SessionRecord>, tops: seq<string>) {
    if Kids(sessions, None) != [] then tops == Kids(sessions, None)
    else Orders(RecordsOf(sessions), tops, RecordsOf(sessions).Keys)
  }

  ghost predicate AllSettle(sessions: seq<SessionRecord>, fuel: nat) {
    forall t | t in Roots(sessions) :: Settles(sessions, t, fuel)
  }

  // ----- The operations -----

  ghost predicate ChildrenOf(sessions: seq<SessionRecord>, children: Children) {
    forall id :: (if Some(id) in children then children[Some(id)] else []) == Kids(sessions, Some(id))
  }

  lemma ForestStep(sessions: seq<SessionRecord>, marked: set<string>, tops: seq<string>, i: nat, depth: nat, fuel: nat)
    requires i < |tops| && forall t | t in tops :: Settles(sessions, t, fuel)
    ensures ForestLines(sessions, marked, tops[..i + 1], depth, fuel)
         == ForestLines(sessions, marked, tops[..i], depth, fuel) + SubtreeLines(sessions, marked, tops[i], depth, fuel)
  {
    hide Settles, Kids, RecordsOf, SubtreeLines;
    assert tops[..i + 1][..i] == tops[..i];
  }

  lemma NoTops(sessions: seq<SessionRecord>, marked: set<string>, tops: seq<string>, depth: nat, fuel: nat)
    ensures ForestLines(sessions, marked, tops[..0], depth, fuel) == []
    ensures ForestLines(sessions, marked, [], depth, fuel) == []
  {
    hide Settles, Kids, RecordsOf;
    assert tops[..0] == [];
  }

  lemma SubtreeIs(sessions: seq<SessionRecord>, marked: set<string>, id: string, depth: nat, fuel: nat)
    requires Settles(sessions, id, fuel)
    ensures id !in RecordsOf(sessions) ==> SubtreeLines(sessions, marked, id, depth, fuel) == []
    ensures id in RecordsOf(sessions) ==>
      && fuel > 0 && (forall t | t in Kids(sessions, Some(id)) :: Settles(sessions, t, fuel - 1))
      && SubtreeLines(sessions, marked, id, depth, fuel)
         == [TreeLine(depth, id, id in marked)] + ForestLines(sessions, marked, Kids(sessions, Some(id)), depth + 1, fuel - 1)
  {
    hide Kids, RecordsOf, ForestLines;
  }

  /** The recursion needs nothing but that it comes to an end. */
  method PushTreeLines(lines: seq<TreeLine>, records: Records, children: Children, sessionId: string, depth: nat,
                       highlighted: set<string>, ghost sessions: seq<SessionRecord>, ghost fuel: nat)
    returns (pushed: seq<TreeLine>)
    requires records == RecordsOf(sessions) && ChildrenOf(sessions, children)
    requires Settles(sessions, sessionId, fuel)
    ensures pushed == lines + SubtreeLines(sessions, highlighted, sessionId, depth, fuel)
    decreases fuel
  {
    hide Kids, RecordsOf, Settles, SubtreeLines, ForestLines;
    pushed := lines;
    SubtreeIs(sessions, highlighted, sessionId, depth, fuel);
    if sessionId in records {
      pushed := pushed + [TreeLine(depth, sessionId, sessionId in highlighted)];
      ghost var above := pushed;
      assert Kids(sessions, Some(sessionId)) == if Some(sessionId) in children then children[Some(sessionId)] else [];
      if Some(sessionId) in children {
        var childIds := children[Some(sessionId)];
        NoTops(sessions, highlighted, childIds, depth + 1, fuel - 1);
        for i := 0 to |childIds|
          invariant forall t | t in childIds[..i] :: t in childIds
          invariant pushed == above + ForestLines(sessions, highlighted, childIds[..i], depth + 1, fuel - 1)
        {
          ForestStep(sessions, highlighted, childIds, i, depth + 1, fuel - 1);
          pushed := PushTreeLines(pushed, records, children, childIds[i], depth + 1, highlighted, sessions, fuel - 1);
        }
        assert childIds[..|childIds|] == childIds;
      } else {
        NoTops(sessions, highlighted, [], depth + 1, fuel - 1);
      }
    }
  }

  lemma OneMoreSession(sessions: seq<SessionRecord>, i: nat)
    requires i < |sessions|
    ensures RecordsOf(sessions[..i + 1]) == RecordsOf(sessions[..i])[IdOf(sessions[i]) := sessions[i]]
    ensures forall p :: WithParent(sessions[..i + 1], p)
                     == WithParent(sessions[..i], p) + if sessions[i].parentId == p then [IdOf(sessions[i])] else []
  {
    assert sessions[..i + 1][..i] == sessions[..i];
  }

  lemma NoSessionsYet(sessions: seq<SessionRecord>)
    ensures RecordsOf(sessions[..0]) == map[] && forall p :: WithParent(sessions[..0], p) == []
  {
  }

  method CollectSessions(sessions: seq<SessionRecord>) returns (records: Records, children: Children)
    ensures records == RecordsOf(sessions)
    ensures forall p :: (if p in children then children[p] else []) == WithParent(sessions, p)
  {
    hide RecordsOf, WithParent, IdOf;
    NoSessionsYet(sessions);
    records, children := map[], map[];
    for i := 0 to |sessions|
      invariant records == RecordsOf(sessions[..i])
      invariant forall p :: (if p in children then children[p] else []) == WithParent(sessions[..i], p)
    {
      OneMoreSession(sessions, i);
      var id, parentId := IdOf(sessions[i]), sessions[i].parentId;
      children := children[parentId := (if parentId in children then children[parentId] else []) + [id]];
      records := records[id := sessions[i]];
    }
    assert sessions[..|sessions|] == sessions;
  }

  method SortChildren(children: Children, records: Records) returns (sorted: Children)
    ensures sorted.Keys == children.Keys
    ensures forall p | p in children :: sorted[p] == Sort(ByLastActive(records), children[p])
  {
    sorted := children;
    var remaining := children.Keys;
    while remaining != {}
      invariant remaining <= children.Keys && sorted.Keys == children.Keys
      invariant forall p | p in remaining :: sorted[p] == children[p]
      invariant forall p | p in children && p !in remaining :: sorted[p] == Sort(ByLastActive(records), children[p])
    {
      var p :| p in remaining;
      sorted := sorted[p := Sort(ByLastActive(records), sorted[p])];
      remaining := remaining - {p};
    }
  }

  method ListIds(ids: set<string>) returns (listed: seq<string>)
    ensures Distinct(listed) && forall t :: t in listed <==> t in ids
  {
    var remaining := ids;
    listed := [];
    while remaining != {}
      invariant remaining <= ids && Distinct(listed)
      invariant forall t :: t in listed <==> t in ids && t !in remaining
    {
      var id :| id in remaining;
      listed, remaining := listed + [id], remaining - {id};
    }
  }

  lemma SortOrders(records: Records, listed: seq<string>, ids: set<string>)
    requires Distinct(listed) && forall t :: t in listed <==> t in ids
    ensures Orders(records, Sort(ByLastActive(records), listed), ids)
  {
    var sorted := Sort(ByLastActive(records), listed);
    ByLastActiveIsTotal(records);
    SortSorted(ByLastActive(records), listed);
    SortDistinct(ByLastActive(records), listed);
    forall t
      ensures t in sorted <==> t in ids
    {
      SortKeepsMembers(ByLastActive(records), listed, t);
    }
  }

  /** The sessions without a parent, or every session if there is none. */
  method SortedRoots(records: Records, children: Children, ghost sessions: seq<SessionRecord>) returns (roots: seq<string>)
    requires records == RecordsOf(sessions)
    requires (if None in children then children[None] else []) == Kids(sessions, None)
    ensures IsTops(sessions, roots)
  {
    hide Kids, RecordsOf, Sort, Orders, Distinct;
    roots := if None in children then children[None] else [];
    if roots == [] {
      roots := ListIds(records.Keys);
      SortOrders(records, roots, records.Keys);
    } else {
      KidsAreSorted(sessions, None);
      SortOfSorted(ByLastActive(records), roots);
    }
    roots := Sort(ByLastActive(records), roots);
  }

  lemma KidsAreSorted(sessions: seq<SessionRecord>, parent: Option<string>)
    ensures Sorted(ByLastActive(RecordsOf(sessions)), Kids(sessions, parent))
  {
    ByLastActiveIsTotal(RecordsOf(sessions));
    SortSorted(ByLastActive(RecordsOf(sessions)), WithParent(sessions, parent));
  }

  lemma TopsAreRoots(sessions: seq<SessionRecord>, tops: seq<string>)
    requires IsTops(sessions, tops)
    ensures forall t :: t in tops <==> t in Roots(sessions)
  {
    hide Kids, RecordsOf, Distinct, Sorted;
  }

  /** Every list of sessions from which the recursion comes to an end; ListingEndsIff says which lists these are. */
  method FormatTreeLines(sessions: seq<SessionRecord>, highlighted: set<string>, ghost fuel: nat)
    returns (lines: seq<TreeLine>, ghost tops: seq<string>)
    requires AllSettle(sessions, fuel)
    ensures sessions == [] ==> lines == [NoSessions]
    ensures sessions != [] ==>
      && IsTops(sessions, tops) && (forall t | t in tops :: Settles(sessions, t, fuel))
      && lines == ForestLines(sessions, highlighted, tops, 0, fuel)
  {
    hide RecordsOf, Sort, Kids, ByLastActive, WithParent, Settles, SubtreeLines, ForestLines, Roots, IsTops;
    if sessions == [] {
      return [NoSessions], [];
    }
    var records, children := CollectSessions(sessions);
    ghost var collected := children;
    children := SortChildren(children, records);
    KidsAre(sessions, collected, children);
    var roots := SortedRoots(records, children, sessions);
    TopsAreRoots(sessions, roots);
    children := children - {None};
    tops := roots;
    lines := [];
    NoTops(sessions, highlighted, roots, 0, fuel);
    for i := 0 to |roots|
      invariant forall t | t in roots[..i] :: t in roots
      invariant lines == ForestLines(sessions, highlighted, roots[..i], 0, fuel)
    {
      ForestStep(sessions, highlighted, roots, i, 0, fuel);
      lines := PushTreeLines(lines, records, children, roots[i], 0, highlighted, sessions, fuel);
    }
    assert roots[..|roots|] == roots;
  }

  lemma KidsAre(sessions: seq<SessionRecord>, collected: Children, children: Children)
    requires forall p :: (if p in collected then collected[p] else []) == WithParent(sessions, p)
    requires children.Keys == collected.Keys
    requires forall p | p in collected :: children[p] == Sort(ByLastActive(RecordsOf(sessions)), collected[p])
    ensures ChildrenOf(sessions, children)
    ensures (if None in children then children[None] else []) == Kids(sessions, None)
  {
    hide ByLastActive, WithParent, RecordsOf;
  }

  // ----- The order of siblings, on their records -----

  /** When a session was last active; a record that does not say counts as never active. */
  function ActiveAt(session: SessionRecord): string {
    match session.lastActive
    case Some(time) => time
    case None => ""
  }

  /** Main result: of two siblings the one that was active later is listed first, and of two active at the same time the one with the lesser identifier. */
  lemma SiblingsByActivity(records: Records, left: string, right: string)
    requires left in records && right in records
    ensures
      var l, r := ActiveAt(records[left]), ActiveAt(records[right]);
      ComesFirst(records, left, right) <==> if l == r then TextLe(left, right) else TextLe(r, l)
  {
  }

  /** So the list of children goes from the latest activity to the earliest. */
  lemma KidsByActivity(sessions: seq<SessionRecord>, parent: Option<string>, i: nat, j: nat)
    requires DistinctIds(sessions) && i < j < |Kids(sessions, parent)|
    ensures
      var records, kids := RecordsOf(sessions), Kids(sessions, parent);
      && kids[i] in records && kids[j] in records
      && var l, r := ActiveAt(records[kids[i]]), ActiveAt(records[kids[j]]);
         if l == r then TextLe(kids[i], kids[j]) else TextLe(r, l)
  {
    hide Kids, RecordsOf, ComesFirst, TextLe, DistinctIds;
    var records, kids := RecordsOf(sessions), Kids(sessions, parent);
    KidsAreChildren(sessions, parent);
    assert kids[i] in kids && kids[j] in kids;
    assert ByLastActive(records)(kids[i], kids[j]);
    SiblingsByActivity(records, kids[i], kids[j]);
  }

  /** A record without an identifier is listed as "unknown", any other under its own. */
  lemma ListedUnder(sessions: seq<SessionRecord>, i: nat)
    requires i < |sessions|
    ensures (match sessions[i].sessionId case Some(id) => id case None => "unknown") in RecordsOf(sessions)
  {
    RecordsHoldAll(sessions);
    assert IdOf(sessions[i]) in RecordsOf(sessions);
  }
}
