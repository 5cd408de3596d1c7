/** Bitmaps of IDs, kept as sets, and the ascending order in which a bitmap lists its members. */
module Bitmaps {

  lemma {:induction false} HasMin(s: set<nat>)
    requires s != {}
    ensures exists x :: x in s && forall y :: y in s ==> x <= y
  {
    var x :| x in s;
    var below := set y | y in s && y < x;
    if below != {} {
      assert x in s && x !in below;
      HasMin(below);
      var m :| m in below && forall y :: y in below ==> m <= y;
      assert forall y :: y in s ==> y in below || x <= y;
      assert m in s;
    } else {
      assert forall y :: y in s && y < x ==> y in below;
    }
  }

  function Min(s: set<nat>): (m: nat)
    requires s != {}
    ensures m in s && forall y :: y in s ==> m <= y
  {
    HasMin(s);
    var x :| x in s && forall y :: y in s ==> x <= y;
    x
  }

  /** The members of an array, gathered from the front. */
  ghost function Elements(a: seq<nat>): set<nat> {
    if a == [] then {} else Elements(a[..|a| - 1]) + {a[|a| - 1]}
  }

  lemma EmptyElements()
    ensures Elements([]) == {}
  {
  }

  lemma ElementsSnoc(a: seq<nat>, i: nat)
    requires i < |a|
    ensures Elements(a[..i + 1]) == Elements(a[..i]) + {a[i]}
  {
    assert a[..i + 1][..i] == a[..i];
  }

  lemma {:induction false} ElementsOf(a: seq<nat>, x: nat)
    ensures x in Elements(a) <==> x in a
  {
    if a != [] {
      ElementsOf(a[..|a| - 1], x);
      assert a == a[..|a| - 1] + [a[|a| - 1]];
    }
  }

  /** The members of a bitmap in ascending order, each once. */
  function ToArray(s: set<nat>): seq<nat> {
    if s == {} then [] else [Min(s)] + ToArray(s - {Min(s)})
  }

  lemma {:induction false} ToArrayLists(s: set<nat>, x: nat)
    ensures x in ToArray(s) <==> x in s
  {
    if s != {} {
      ToArrayLists(s - {Min(s)}, x);
    }
  }

  lemma {:induction false} ToArrayAscends(s: set<nat>)
    ensures forall i, j :: 0 <= i < j < |ToArray(s)| ==> ToArray(s)[i] < ToArray(s)[j]
  {
    if s != {} {
      var rest := s - {Min(s)};
      ToArrayAscends(rest);
      forall j | 0 <= j < |ToArray(rest)|
        ensures Min(s) < ToArray(rest)[j]
      {
        ToArrayLists(rest, ToArray(rest)[j]);
      }
    }
  }

  lemma ElementsOfArray(s: set<nat>)
    ensures Elements(ToArray(s)) == s
  {
    forall x
      ensures x in Elements(ToArray(s)) <==> x in s
    {
      ElementsOf(ToArray(s), x);
      ToArrayLists(s, x);
    }
  }
}
