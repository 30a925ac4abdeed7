/**
  Graphs in which every node has at most one outgoing edge, stored as a map.
  Both the parent relation of sessions and the active-wait relation have this form.
 */
module SuccessorGraphs {
  import opened Wrappers

  /** The node n steps from x, if the walk gets that far. */
  function Walk<T(==)>(g: map<T, T>, x: T, n: nat): Option<T> {
    if n == 0 then Some(x)
    else if x in g then Walk(g, g[x], n - 1)
    else None
  }

  ghost predicate Reaches<T>(g: map<T, T>, x: T, y: T) {
    exists n: nat :: Walk(g, x, n) == Some(y)
  }

  ghost predicate Acyclic<T(!new)>(g: map<T, T>) {
    forall x: T, n: nat :: n > 0 ==> Walk(g, x, n) != Some(x)
  }

  /** The walk from x ends at `root` after `depth` steps. */
  ghost predicate EndsAt<T>(g: map<T, T>, x: T, root: T, depth: nat) {
    Walk(g, x, depth) == Some(root) && root !in g
  }

  ghost predicate Ends<T(!new)>(g: map<T, T>, x: T) {
    exists root: T, depth: nat :: EndsAt(g, x, root, depth)
  }

  lemma {:induction false} WalkAdd<T>(g: map<T, T>, x: T, m: nat, n: nat)
    ensures Walk(g, x, m + n) == match Walk(g, x, m) case Some(y) => Walk(g, y, n) case None => None
  {
    if m > 0 && x in g {
      WalkAdd(g, g[x], m - 1, n);
    }
  }

  lemma StepReaches<T>(g: map<T, T>, x: T, y: T)
    requires Reaches(g, x, y) && y in g
    ensures Reaches(g, x, g[y])
  {
    var n: nat :| Walk(g, x, n) == Some(y);
    WalkAdd(g, x, n, 1);
    assert Walk(g, y, 1) == Walk(g, g[y], 0);
    assert Walk(g, x, n + 1) == Some(g[y]);
  }

  /** What is reachable from a set that no edge leaves is in the set. */
  lemma {:induction false} ClosedSet<T>(g: map<T, T>, s: set<T>, x: T, n: nat)
    requires x in s
    requires forall v | v in s && v in g :: g[v] in s
    ensures Walk(g, x, n).Some? ==> Walk(g, x, n).value in s
  {
    if n > 0 && x in g {
      ClosedSet(g, s, g[x], n - 1);
    }
  }

  /** A walk that ends has one end and one length. */
  lemma EndIsUnique<T>(g: map<T, T>, x: T, root: T, depth: nat, root': T, depth': nat)
    requires EndsAt(g, x, root, depth) && EndsAt(g, x, root', depth')
    ensures root == root' && depth == depth'
  {
    if depth < depth' {
      WalkAdd(g, x, depth, depth' - depth);
    } else if depth' < depth {
      WalkAdd(g, x, depth', depth - depth');
    }
  }

  /** Removing edges cannot create a walk. */
  lemma {:induction false} SubgraphWalk<T>(g: map<T, T>, h: map<T, T>, x: T, n: nat)
    requires forall v | v in h :: v in g && g[v] == h[v]
    ensures Walk(h, x, n).Some? ==> Walk(g, x, n) == Walk(h, x, n)
  {
    if n > 0 && x in h {
      SubgraphWalk(g, h, h[x], n - 1);
    }
  }

  lemma SubgraphIsAcyclic<T(!new)>(g: map<T, T>, h: map<T, T>)
    requires Acyclic(g)
    requires forall v | v in h :: v in g && g[v] == h[v]
    ensures Acyclic(h)
  {
    forall x: T, n: nat | n > 0
      ensures Walk(h, x, n) != Some(x)
    {
      SubgraphWalk(g, h, x, n);
    }
  }

  /** Two graphs that differ only at `from` agree on walks until they meet it. */
  lemma {:induction false} WalkAvoiding<T>(g: map<T, T>, h: map<T, T>, from: T, x: T, n: nat)
    requires forall v | v != from :: (v in g <==> v in h) && (v in g ==> g[v] == h[v])
    requires forall k: nat | k < n :: Walk(g, x, k) != Some(from)
    ensures Walk(h, x, n) == Walk(g, x, n)
  {
    if n > 0 {
      assert Walk(g, x, 0) == Some(x);
      if x in g {
        forall k: nat | k < n - 1
          ensures Walk(g, g[x], k) != Some(from)
        {
          assert Walk(g, x, k + 1) == Walk(g, g[x], k);
        }
        WalkAvoiding(g, h, from, g[x], n - 1);
      }
    }
  }

  /** The first time a walk meets a node. */
  lemma {:induction false} FirstMeeting<T>(g: map<T, T>, x: T, y: T, n: nat) returns (m: nat)
    requires Walk(g, x, n) == Some(y)
    ensures m <= n && Walk(g, x, m) == Some(y) && forall k: nat | k < m :: Walk(g, x, k) != Some(y)
  {
    m := 0;
    while Walk(g, x, m) != Some(y)
      invariant m <= n && forall k: nat | k < m :: Walk(g, x, k) != Some(y)
      decreases n - m
    {
      m := m + 1;
    }
  }

  /** Main result: a new (or replaced) edge closes a cycle exactly when its target already reaches its source. */
  lemma AddEdgeAcyclic<T(!new)>(g: map<T, T>, from: T, to: T)
    requires Acyclic(g)
    ensures Acyclic(g[from := to]) <==> !Reaches(g, to, from)
  {
    if Reaches(g, to, from) {
      ClosesCycle(g, from, to);
    } else {
      KeepsAcyclic(g, from, to);
    }
  }

  lemma ClosesCycle<T(!new)>(g: map<T, T>, from: T, to: T)
    requires Reaches(g, to, from)
    ensures !Acyclic(g[from := to])
  {
    var h := g[from := to];
    var n: nat :| Walk(g, to, n) == Some(from);
    var m := FirstMeeting(g, to, from, n);
    WalkAvoiding(g, h, from, to, m);
    assert Walk(h, from, m + 1) == Some(from);
  }

  lemma KeepsAcyclic<T(!new)>(g: map<T, T>, from: T, to: T)
    requires Acyclic(g) && !Reaches(g, to, from)
    ensures Acyclic(g[from := to])
  {
    var h := g[from := to];
    forall x: T, n: nat | n > 0
      ensures Walk(h, x, n) != Some(x)
    {
      if Walk(h, x, n) == Some(x) {
        if k: nat :| k < n && Walk(h, x, k) == Some(from) {
          WalkAdd(h, x, k, n - k);
          WalkAdd(h, from, n - k, k);
          assert Walk(h, to, n - 1) == Some(from);
          var m := FirstMeeting(h, to, from, n - 1);
          WalkAvoiding(h, g, from, to, m);
        } else {
          WalkAvoiding(h, g, from, x, n);
        }
      }
    }
  }

  // ----- Walks that end -----

  /** At least one step leads from x to y. */
  ghost predicate Leads<T>(g: map<T, T>, x: T, y: T) {
    exists n: nat :: n > 0 && Walk(g, x, n) == Some(y)
  }

  /** No node on the walk from x leads back to itself. */
  ghost predicate NoCycleFrom<T(!new)>(g: map<T, T>, x: T) {
    forall y: T | Reaches(g, x, y) :: !Leads(g, y, y)
  }

  /** Without a cycle on it, a walk that has not ended has met only new nodes. */
  lemma {:induction false} WalkEndsWithin<T(!new)>(g: map<T, T>, x: T, y: T, met: set<T>, sofar: nat)
    returns (root: T, depth: nat)
    requires NoCycleFrom(g, x)
    requires Walk(g, x, sofar) == Some(y) && y !in met && met <= g.Keys
    requires forall v | v in met :: Leads(g, v, y)
    ensures EndsAt(g, x, root, depth) && depth <= sofar + |g.Keys - met|
    decreases |g.Keys - met|
  {
    if y !in g {
      return y, sofar;
    }
    WalkAdd(g, x, sofar, 1);
    assert Walk(g, y, 1) == Walk(g, g[y], 0);
    assert Walk(g, x, sofar + 1) == Some(g[y]);
    var next := met + {y};
    forall v | v in next
      ensures Leads(g, v, g[y])
    {
      if v == y {
        assert Walk(g, v, 1) == Some(g[y]);
      } else {
        var n: nat :| n > 0 && Walk(g, v, n) == Some(y);
        WalkAdd(g, v, n, 1);
        assert Walk(g, v, n + 1) == Some(g[y]);
      }
    }
    assert Reaches(g, x, g[y]);
    assert g[y] !in next && next <= g.Keys;
    assert g.Keys - met == (g.Keys - next) + {y};
    root, depth := WalkEndsWithin(g, x, g[y], next, sofar + 1);
  }

  lemma WalkWithoutCycle<T(!new)>(g: map<T, T>, x: T) returns (root: T, depth: nat)
    requires NoCycleFrom(g, x)
    ensures EndsAt(g, x, root, depth) && depth <= |g|
  {
    root, depth := WalkEndsWithin(g, x, x, {}, 0);
    assert g.Keys - {} == g.Keys;
    assert |g.Keys| == |g|;
  }

  /** Main result: a walk ends exactly when it meets no node that leads back to itself. */
  lemma EndsIffNoCycle<T(!new)>(g: map<T, T>, x: T)
    ensures Ends(g, x) <==> NoCycleFrom(g, x)
  {
    if Ends(g, x) {
      var root, length: nat :| EndsAt(g, x, root, length);
      forall y: T | Reaches(g, x, y)
        ensures !Leads(g, y, y)
      {
        NoCycleBeforeEnd(g, x, root, length, y);
      }
    } else if NoCycleFrom(g, x) {
      var root, depth := WalkWithoutCycle(g, x);
    }
  }

  lemma NoCycleBeforeEnd<T(!new)>(g: map<T, T>, x: T, root: T, length: nat, y: T)
    requires EndsAt(g, x, root, length) && Reaches(g, x, y)
    ensures !Leads(g, y, y)
  {
    var m: nat :| Walk(g, x, m) == Some(y);
    if m <= length {
      WalkAdd(g, x, m, length - m);
      forall n: nat | n > 0
        ensures Walk(g, y, n) != Some(y)
      {
        if Walk(g, y, n) == Some(y) {
          CycleNeverEnds(g, y, n, root, length - m);
        }
      }
    } else {
      WalkAdd(g, x, length, m - length);
    }
  }

  /** Main result: every walk ends exactly when there is no cycle, and then within as many steps as there are edges. */
  lemma AcyclicIffWalksEnd<T(!new)>(g: map<T, T>)
    ensures Acyclic(g) <==> forall x: T :: Ends(g, x)
  {
    if Acyclic(g) {
      forall x: T
        ensures Ends(g, x)
      {
        var root, depth := WalkOfAcyclic(g, x);
      }
    } else {
      var x: T, n: nat :| n > 0 && Walk(g, x, n) == Some(x);
      forall root: T, depth: nat
        ensures !EndsAt(g, x, root, depth)
      {
        CycleNeverEnds(g, x, n, root, depth);
      }
      assert !Ends(g, x);
    }
  }

  lemma WalkOfAcyclic<T(!new)>(g: map<T, T>, x: T) returns (root: T, depth: nat)
    requires Acyclic(g)
    ensures EndsAt(g, x, root, depth) && depth <= |g|
  {
    assert NoCycleFrom(g, x);
    root, depth := WalkWithoutCycle(g, x);
  }

  lemma {:induction false} CycleNeverEnds<T>(g: map<T, T>, x: T, n: nat, root: T, depth: nat)
    requires n > 0 && Walk(g, x, n) == Some(x)
    ensures !EndsAt(g, x, root, depth)
    decreases depth
  {
    if depth >= n {
      WalkAdd(g, x, n, depth - n);
      CycleNeverEnds(g, x, n, root, depth - n);
    } else {
      WalkAdd(g, x, depth, n - depth);
    }
  }
}
