/** The sorts of Go's sort package, as one stable insertion sort. */
module Sorting {

  function Insert<T>(less: (T, T) -> bool, x: T, s: seq<T>): seq<T> {
    if s == [] || !less(x, s[|s| - 1]) then s + [x]
    else Insert(less, x, s[..|s| - 1]) + [s[|s| - 1]]
  }

  /** sort.SliceStable with the given order. */
  function StableSort<T>(less: (T, T) -> bool, s: seq<T>): seq<T> {
    if s == [] then [] else Insert(less, s[|s| - 1], StableSort(less, s[..|s| - 1]))
  }

  /** less is a strict weak order on the elements of s. */
  ghost predicate Orders<T(!new)>(less: (T, T) -> bool, s: seq<T>) {
    && (forall a, b :: a in s && b in s && less(a, b) ==> !less(b, a))
    && (forall a, b, c :: a in s && b in s && c in s && !less(a, b) && !less(b, c) ==> !less(a, c))
  }

  ghost predicate Sorted<T>(less: (T, T) -> bool, s: seq<T>) {
    forall i, j :: 0 <= i < j < |s| ==> !less(s[j], s[i])
  }

  lemma {:induction false} InsertPermutes<T>(less: (T, T) -> bool, x: T, s: seq<T>)
    ensures multiset(Insert(less, x, s)) == multiset(s) + multiset{x}
  {
    if s != [] && less(x, s[|s| - 1]) {
      InsertPermutes(less, x, s[..|s| - 1]);
      assert s == s[..|s| - 1] + [s[|s| - 1]];
    }
  }

  lemma {:induction false} SortPermutes<T>(less: (T, T) -> bool, s: seq<T>)
    ensures multiset(StableSort(less, s)) == multiset(s)
  {
    if s != [] {
      SortPermutes(less, s[..|s| - 1]);
      InsertPermutes(less, s[|s| - 1], StableSort(less, s[..|s| - 1]));
      assert s == s[..|s| - 1] + [s[|s| - 1]];
    }
  }

  lemma SortKeepsElements<T>(less: (T, T) -> bool, s: seq<T>, x: T)
    ensures x in StableSort(less, s) <==> x in s
    ensures |StableSort(less, s)| == |s|
  {
    SortPermutes(less, s);
    assert x in s <==> x in multiset(s);
    assert x in StableSort(less, s) <==> x in multiset(StableSort(less, s));
    assert |s| == |multiset(s)|;
  }

  lemma {:induction false} InsertSorted<T(!new)>(less: (T, T) -> bool, x: T, s: seq<T>)
    requires Orders(less, s + [x]) && Sorted(less, s)
    ensures Sorted(less, Insert(less, x, s))
  {
    hide Orders;
    var n := |s| - 1;
    if s != [] && less(x, s[n]) {
      var t := s[..n];
      OrdersWithin(less, s + [x], t + [x]);
      InsertSorted(less, x, t);
      assert s == t + [s[n]];
      InsertBelow(less, x, t, s[n]);
    } else if s != [] {
      AboveAll(less, x, s);
    }
  }

  lemma InsertBelow<T(!new)>(less: (T, T) -> bool, x: T, t: seq<T>, last: T)
    requires Orders(less, t + [last] + [x]) && Sorted(less, t + [last]) && less(x, last)
    ensures forall y :: y in Insert(less, x, t) ==> !less(last, y)
  {
    InsertPermutes(less, x, t);
    assert x in t + [last] + [x] && last in t + [last] + [x] && (t + [last])[|t|] == last;
    forall y | y in Insert(less, x, t)
      ensures !less(last, y)
    {
      assert y in multiset(Insert(less, x, t));
      assert y == x || y in t;
      if y in t {
        var i :| 0 <= i < |t| && t[i] == y;
        assert (t + [last])[i] == y;
      }
    }
  }

  lemma AboveAll<T(!new)>(less: (T, T) -> bool, x: T, s: seq<T>)
    requires s != [] && Orders(less, s + [x]) && Sorted(less, s) && !less(x, s[|s| - 1])
    ensures forall y :: y in s ==> !less(x, y)
  {
    var n := |s| - 1;
    forall i | 0 <= i < |s|
      ensures !less(x, s[i])
    {
      assert x in s + [x] && s[n] in s + [x] && s[i] in s + [x];
    }
  }

  lemma OrdersWithin<T(!new)>(less: (T, T) -> bool, s: seq<T>, t: seq<T>)
    requires Orders(less, s) && forall x :: x in t ==> x in s
    ensures Orders(less, t)
  {
  }

  lemma {:induction false} SortSorted<T(!new)>(less: (T, T) -> bool, s: seq<T>)
    requires Orders(less, s)
    ensures Sorted(less, StableSort(less, s))
  {
    if s != [] {
      var t := s[..|s| - 1];
      OrdersWithin(less, s, t);
      SortSorted(less, t);
      var x := s[|s| - 1];
      forall y | y in StableSort(less, t) + [x]
        ensures y in s
      {
        SortKeepsElements(less, t, y);
      }
      OrdersWithin(less, s, StableSort(less, t) + [x]);
      InsertSorted(less, x, StableSort(less, t));
    }
  }

  function Filter<T>(p: T -> bool, s: seq<T>): seq<T> {
    if s == [] then [] else Filter(p, s[..|s| - 1]) + (if p(s[|s| - 1]) then [s[|s| - 1]] else [])
  }

  lemma FilterSnoc<T>(p: T -> bool, s: seq<T>, x: T)
    ensures Filter(p, s + [x]) == Filter(p, s) + (if p(x) then [x] else [])
  {
    assert (s + [x])[..|s|] == s;
  }

  lemma {:induction false} InsertStable<T(!new)>(less: (T, T) -> bool, p: T -> bool, x: T, s: seq<T>)
    requires forall a, b :: p(a) && p(b) ==> !less(a, b)
    ensures Filter(p, Insert(less, x, s)) == Filter(p, s + [x])
  {
    FilterSnoc(p, s, x);
    if s != [] && less(x, s[|s| - 1]) {
      var t, last := s[..|s| - 1], s[|s| - 1];
      InsertStable(less, p, x, t);
      FilterSnoc(p, Insert(less, x, t), last);
      FilterSnoc(p, t, x);
    }
  }

  /** Elements of which none is less than another stay in their order. */
  lemma {:induction false} SortStable<T(!new)>(less: (T, T) -> bool, p: T -> bool, s: seq<T>)
    requires forall a, b :: p(a) && p(b) ==> !less(a, b)
    ensures Filter(p, StableSort(less, s)) == Filter(p, s)
  {
    if s != [] {
      var t, x := s[..|s| - 1], s[|s| - 1];
      SortStable(less, p, t);
      InsertStable(less, p, x, StableSort(less, t));
      FilterSnoc(p, StableSort(less, t), x);
    }
  }

  lemma {:induction false} FilterHead<T(!new)>(p: T -> bool, s: seq<T>) returns (k: nat)
    requires Filter(p, s) != []
    ensures k < |s| && s[k] == Filter(p, s)[0] && p(s[k]) && forall j :: 0 <= j < k ==> !p(s[j])
  {
    var n := |s| - 1;
    if Filter(p, s[..n]) != [] {
      k := FilterHead(p, s[..n]);
      assert forall j :: 0 <= j < k ==> s[..n][j] == s[j];
    } else {
      k := n;
      FilterNone(p, s[..n]);
      assert forall j :: 0 <= j < n ==> s[..n][j] == s[j];
    }
  }

  lemma {:induction false} FilterNone<T>(p: T -> bool, s: seq<T>)
    requires Filter(p, s) == []
    ensures forall j :: 0 <= j < |s| ==> !p(s[j])
  {
    if s != [] {
      FilterNone(p, s[..|s| - 1]);
    }
  }

  lemma {:induction false} FilterFirst<T>(p: T -> bool, s: seq<T>)
    requires s != [] && p(s[0])
    ensures Filter(p, s) != [] && Filter(p, s)[0] == s[0]
  {
    if |s| > 1 {
      FilterFirst(p, s[..|s| - 1]);
    } else {
      assert s[..0] == [];
    }
  }

  lemma TwiceCounts<T>(s: seq<T>, i: nat, j: nat)
    requires i < j < |s| && s[i] == s[j]
    ensures multiset(s)[s[i]] >= 2
  {
    assert s == s[..i] + [s[i]] + s[i + 1..j] + [s[j]] + s[j + 1..];
  }
}
