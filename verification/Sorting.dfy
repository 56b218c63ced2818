// `toSorted` over strings: a stable sort, for any comparison that is total and transitive.
module Sorting {
  import opened OrderedMap

  type Order = (string, string) -> bool   // "is not after"

  ghost predicate Preorder(le: Order) {
    && (forall a, b :: le(a, b) || le(b, a))
    && (forall a, b, c :: le(a, b) && le(b, c) ==> le(a, c))
  }

  /** No two of these strings tie. */
  ghost predicate TieFree(le: Order, among: seq<string>) {
    forall a, b :: a in among && b in among && le(a, b) && le(b, a) ==> a == b
  }

  function Insert(x: string, s: seq<string>, le: Order): (r: seq<string>)
    ensures multiset(r) == multiset{x} + multiset(s)
  {
    if s == [] then [x]
    else if le(x, s[0]) then [x] + s
    else
      assert s == [s[0]] + s[1..];
      [s[0]] + Insert(x, s[1..], le)
  }

  function Sort(s: seq<string>, le: Order): (r: seq<string>)
    ensures multiset(r) == multiset(s) && |r| == |s|
  {
    if s == [] then []
    else
      assert s == [s[0]] + s[1..];
      var r := Insert(s[0], Sort(s[1..], le), le);
      assert |multiset(r)| == |multiset(s)|;
      r
  }

  ghost predicate Sorted(s: seq<string>, le: Order) {
    forall i, j :: 0 <= i < j < |s| ==> le(s[i], s[j])
  }

  lemma {:induction false} InsertSorted(x: string, s: seq<string>, le: Order)
    requires Preorder(le) && Sorted(s, le)
    ensures Sorted(Insert(x, s, le), le)
  {
    if s != [] && !le(x, s[0]) {
      InsertSorted(x, s[1..], le);
      var r := Insert(x, s[1..], le);
      forall i | 0 <= i < |r| ensures le(s[0], r[i]) {
        assert r[i] in multiset(r);
        assert r[i] == x || r[i] in s[1..];
      }
    }
  }

  lemma {:induction false} SortSorts(s: seq<string>, le: Order)
    requires Preorder(le)
    ensures Sorted(Sort(s, le), le)
  {
    if s != [] {
      SortSorts(s[1..], le);
      InsertSorted(s[0], Sort(s[1..], le), le);
    }
  }

  lemma SameHead(a: seq<string>, b: seq<string>, le: Order)
    requires Preorder(le) && TieFree(le, a) && Sorted(a, le) && Sorted(b, le) && multiset(a) == multiset(b) && a != []
    ensures b != [] && a[0] == b[0]
  {
    assert a[0] in multiset(b) && b != [];
    assert b[0] in multiset(a);
    assert le(a[0], b[0]);
    assert le(b[0], a[0]);
  }

  lemma Tail(s: seq<string>, le: Order)
    requires s != [] && Sorted(s, le)
    ensures Sorted(s[1..], le) && multiset(s[1..]) == multiset(s) - multiset{s[0]}
    ensures TieFree(le, s) ==> TieFree(le, s[1..])
  {
    assert s == [s[0]] + s[1..];
  }

  lemma {:induction false} SortedIsUnique(a: seq<string>, b: seq<string>, le: Order)
    requires Preorder(le) && TieFree(le, a) && Sorted(a, le) && Sorted(b, le) && multiset(a) == multiset(b)
    ensures a == b
  {
    if a == [] {
      assert |multiset(b)| == 0;
    } else {
      SameHead(a, b, le);
      hide Preorder, TieFree, Sorted;
      Tail(a, le);
      Tail(b, le);
      SortedIsUnique(a[1..], b[1..], le);
      assert a == [a[0]] + a[1..] && b == [b[0]] + b[1..];
    }
  }

  lemma {:induction false} SortMembers(s: seq<string>, le: Order)
    ensures forall x :: x in Sort(s, le) <==> x in s
  {
    assert forall x :: x in Sort(s, le) <==> x in multiset(Sort(s, le));
    assert forall x :: x in s <==> x in multiset(s);
  }

  /** Sorting is stable: what is in order already stays as it is, ties included. */
  lemma {:induction false} SortOfSorted(s: seq<string>, le: Order)
    requires Sorted(s, le)
    ensures Sort(s, le) == s
  {
    if s != [] {
      Tail(s, le);
      SortOfSorted(s[1..], le);
      assert s == [s[0]] + s[1..];
    }
  }

  /** The result depends on the elements only, not on the order they come in. */
  lemma {:induction false} SortIgnoresOrder(a: seq<string>, b: seq<string>, le: Order)
    requires Preorder(le) && TieFree(le, a) && multiset(a) == multiset(b)
    ensures Sort(a, le) == Sort(b, le)
  {
    SortSorts(a, le);
    SortSorts(b, le);
    SortMembers(a, le);
    SortedIsUnique(Sort(a, le), Sort(b, le), le);
  }

  lemma {:induction false} DistinctCounts(s: seq<string>)
    ensures Distinct(s) <==> forall x :: multiset(s)[x] <= 1
  {
    if s != [] {
      var init, last := s[..|s| - 1], s[|s| - 1];
      assert s == init + [last];
      DistinctCounts(init);
      if Distinct(s) {
        assert last !in init;
      } else if Distinct(init) {
        assert last in init;
        assert multiset(s)[last] >= 2;
      } else {
        var x :| multiset(init)[x] > 1;
        assert multiset(s)[x] > 1;
      }
    }
  }

  /** Repeat-free lists of the same members sort alike. */
  lemma {:induction false} SortOfSet(a: seq<string>, b: seq<string>, le: Order)
    requires Preorder(le) && TieFree(le, a) && Distinct(a) && Distinct(b)
    requires forall x :: x in a <==> x in b
    ensures Sort(a, le) == Sort(b, le)
  {
    DistinctCounts(a);
    DistinctCounts(b);
    forall x ensures multiset(a)[x] == multiset(b)[x] {
      assert x in a <==> multiset(a)[x] > 0;
      assert x in b <==> multiset(b)[x] > 0;
    }
    SortIgnoresOrder(a, b, le);
  }

  lemma {:induction false} SortKeepsDistinct(s: seq<string>, le: Order)
    requires Distinct(s)
    ensures Distinct(Sort(s, le))
  {
    DistinctCounts(s);
    DistinctCounts(Sort(s, le));
  }
}
