/** Sorting by an order, and the order of text: what `sort_by` and `cmp` promise. */
module Sorting {
  ghost predicate TotalOrder<T(!new)>(le: (T, T) -> bool) {
    && (forall a, b :: le(a, b) || le(b, a))
    && (forall a, b, c :: le(a, b) && le(b, c) ==> le(a, c))
  }

  ghost predicate Sorted<T>(le: (T, T) -> bool, s: seq<T>) {
    forall i, j | 0 <= i < j < |s| :: le(s[i], s[j])
  }

  function Insert<T>(le: (T, T) -> bool, x: T, s: seq<T>): (r: seq<T>)
    ensures multiset(r) == multiset([x]) + multiset(s)
  {
    if s == [] then [x]
    else if le(x, s[0]) then [x] + s
    else
      assert s == [s[0]] + s[1..];
      [s[0]] + Insert(le, x, s[1..])
  }

  /** A stable sort. */
  function Sort<T>(le: (T, T) -> bool, s: seq<T>): (r: seq<T>)
    ensures multiset(r) == multiset(s)
  {
    if s == [] then []
    else
      assert s == [s[0]] + s[1..];
      Insert(le, s[0], Sort(le, s[1..]))
  }

  lemma {:induction false} InsertSorted<T(!new)>(le: (T, T) -> bool, x: T, s: seq<T>)
    requires TotalOrder(le) && Sorted(le, s)
    ensures Sorted(le, Insert(le, x, s))
  {
    if s != [] && !le(x, s[0]) {
      var r := Insert(le, x, s[1..]);
      InsertSorted(le, x, s[1..]);
      forall i | 0 <= i < |r|
        ensures le(s[0], r[i])
      {
        assert r[i] in multiset(r);
        assert r[i] == x || r[i] in s[1..];
      }
    }
  }

  lemma {:induction false} SortSorted<T(!new)>(le: (T, T) -> bool, s: seq<T>)
    requires TotalOrder(le)
    ensures Sorted(le, Sort(le, s))
  {
    if s != [] {
      SortSorted(le, s[1..]);
      InsertSorted(le, s[0], Sort(le, s[1..]));
    }
  }

  lemma SortKeepsMembers<T>(le: (T, T) -> bool, s: seq<T>, x: T)
    ensures x in Sort(le, s) <==> x in s
    ensures |Sort(le, s)| == |s|
  {
    assert x in Sort(le, s) <==> x in multiset(Sort(le, s));
    assert |Sort(le, s)| == |multiset(Sort(le, s))|;
  }

  lemma {:induction false} SortOfSorted<T(!new)>(le: (T, T) -> bool, s: seq<T>)
    requires Sorted(le, s)
    ensures Sort(le, s) == s
  {
    if s != [] {
      SortOfSorted(le, s[1..]);
    }
  }

  ghost predicate Distinct<T>(s: seq<T>) {
    forall i, j | 0 <= i < j < |s| :: s[i] != s[j]
  }

  lemma {:induction false} DistinctCounts<T>(s: seq<T>)
    ensures Distinct(s) <==> forall x | x in s :: multiset(s)[x] == 1
  {
    if s != [] {
      var rest := s[1..];
      assert s == [s[0]] + rest;
      DistinctCounts(rest);
      if Distinct(s) {
        assert s[0] !in rest;
        assert Distinct(rest);
      } else if forall x | x in s :: multiset(s)[x] == 1 {
        assert multiset(s)[s[0]] == 1 + multiset(rest)[s[0]];
        assert s[0] !in rest;
        forall x | x in rest
          ensures multiset(rest)[x] == 1
        {
          assert x in s;
        }
      }
    }
  }

  lemma SortDistinct<T>(le: (T, T) -> bool, s: seq<T>)
    requires Distinct(s)
    ensures Distinct(Sort(le, s))
  {
    DistinctCounts(s);
    DistinctCounts(Sort(le, s));
    forall x | x in Sort(le, s)
      ensures multiset(Sort(le, s))[x] == 1
    {
      SortKeepsMembers(le, s, x);
    }
  }

  // ----- The order of text -----

  predicate TextLe(a: string, b: string) {
    a == "" || (b != "" && (a[0] < b[0] || (a[0] == b[0] && TextLe(a[1..], b[1..]))))
  }

  lemma {:induction false} TextLeTotal(a: string, b: string)
    ensures TextLe(a, b) || TextLe(b, a)
    ensures TextLe(a, b) && TextLe(b, a) ==> a == b
  {
    if a != "" && b != "" {
      TextLeTotal(a[1..], b[1..]);
      assert a == [a[0]] + a[1..] && b == [b[0]] + b[1..];
    }
  }

  lemma {:induction false} TextLeTransitive(a: string, b: string, c: string)
    requires TextLe(a, b) && TextLe(b, c)
    ensures TextLe(a, c)
  {
    if a != "" {
      if a[0] == b[0] == c[0] {
        TextLeTransitive(a[1..], b[1..], c[1..]);
      }
    }
  }

  /** The order of text is decided by the first character that differs; what has none left comes first. */
  lemma {:induction false} TextLeIs(common: string, a: string, b: string)
    ensures b != "" ==> TextLe(common, common + b)
    ensures b != "" ==> !TextLe(common + b, common)
    ensures a != "" && b != "" && a[0] != b[0] ==> (TextLe(common + a, common + b) <==> a[0] < b[0])
    ensures TextLe(common, common)
  {
    if common == "" {
      assert common + a == a && common + b == b;
    } else {
      var rest := common[1..];
      assert (common + a)[1..] == rest + a && (common + b)[1..] == rest + b;
      TextLeIs(rest, a, b);
    }
  }
}
