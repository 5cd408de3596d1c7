/**
 mergeAliases: which records become one finding, and what merging keeps.
 */
module Merge {
  import opened UnionFind
  import opened Texts
  import opened Findings

  ghost function NamesOfAll(findings: seq<Finding>): (names: seq<seq<string>>)
    ensures |names| == |findings| && forall i :: 0 <= i < |findings| ==> names[i] == NamesOf(findings[i])
  {
    seq(|findings|, i requires 0 <= i < |findings| => NamesOf(findings[i]))
  }

  /** The records of class m, in their order. */
  ghost function Select(findings: seq<Finding>, classOf: seq<nat>, m: nat): seq<Finding>
    requires |classOf| == |findings|
  {
    if findings == [] then []
    else
      var n := |findings| - 1;
      Select(findings[..n], classOf[..n], m) + (if classOf[n] == m then [findings[n]] else [])
  }

  /** Classes are numbered in the order of their first records. */
  ghost predicate NumberedByFirst(classOf: seq<nat>, n: nat) {
    && (forall i {:trigger classOf[i]} :: 0 <= i < |classOf| ==> classOf[i] < n)
    && (forall m: nat {:trigger First(classOf, m)} :: m < n ==> First(classOf, m))
  }

  ghost predicate First(classOf: seq<nat>, m: nat) {
    exists i :: 0 <= i < |classOf| && classOf[i] == m && forall j :: 0 <= j < i ==> classOf[j] < m
  }

  /** merged holds one finding per class of connected records, in the order of the classes' first records. */
  ghost predicate MergesTo(findings: seq<Finding>, classOf: seq<nat>, merged: seq<Finding>) {
    && |classOf| == |findings|
    && NumberedByFirst(classOf, |merged|)
    && (forall i, j {:trigger classOf[i], classOf[j]} :: 0 <= i < |findings| && 0 <= j < |findings| ==>
          (classOf[i] == classOf[j] <==> Connected(NamesOfAll(findings), i, j)))
    && (forall m: nat {:trigger merged[m]} :: m < |merged| ==> Represents(merged[m], Select(findings, classOf, m)))
  }

  lemma {:induction false} SelectHolds(findings: seq<Finding>, classOf: seq<nat>, m: nat, f: Finding)
    requires |classOf| == |findings|
    ensures f in Select(findings, classOf, m) <==>
            exists i :: 0 <= i < |findings| && findings[i] == f && classOf[i] == m
  {
    if findings != [] {
      var n := |findings| - 1;
      SelectHolds(findings[..n], classOf[..n], m, f);
      if i :| 0 <= i < |findings| && findings[i] == f && classOf[i] == m {
        assert i < n ==> findings[..n][i] == f && classOf[..n][i] == m;
      }
      if i :| 0 <= i < n && findings[..n][i] == f && classOf[..n][i] == m {
        assert findings[i] == f && classOf[i] == m;
      }
    }
  }

  /** at lists the positions of class m in ascending order. */
  ghost predicate Positions(classOf: seq<nat>, m: nat, at: seq<nat>) {
    && (forall k, l :: 0 <= k < l < |at| ==> at[k] < at[l])
    && (forall i :: i in at <==> 0 <= i < |classOf| && classOf[i] == m)
  }

  lemma {:induction false} PositionsExist(classOf: seq<nat>, m: nat) returns (at: seq<nat>)
    ensures Positions(classOf, m, at)
  {
    at := [];
    if classOf != [] {
      var n := |classOf| - 1;
      at := PositionsExist(classOf[..n], m);
      assert forall k :: 0 <= k < |at| ==> at[k] in at;
      if classOf[n] == m {
        at := at + [n];
      }
    }
  }

  /** The records of class m are those at the positions of class m, in their order. */
  lemma {:induction false} SelectInOrder(findings: seq<Finding>, classOf: seq<nat>, m: nat, at: seq<nat>)
    requires |classOf| == |findings| && Positions(classOf, m, at)
    ensures |at| == |Select(findings, classOf, m)|
    ensures forall k :: 0 <= k < |at| ==> at[k] < |findings| && Select(findings, classOf, m)[k] == findings[at[k]]
  {
    hide Select, Positions;
    if findings == [] {
      NoPositions(findings, classOf, m, at);
    } else {
      var n := |findings| - 1;
      LastPosition(classOf, m, at);
      SelectLast(findings, classOf, m);
      if classOf[n] == m {
        var before := at[..|at| - 1];
        SelectInOrder(findings[..n], classOf[..n], m, before);
        forall k | 0 <= k < |at|
          ensures Select(findings, classOf, m)[k] == findings[at[k]]
        {
          assert k < |before| ==> before[k] == at[k];
        }
      } else {
        SelectInOrder(findings[..n], classOf[..n], m, at);
      }
    }
  }

  lemma NoPositions(findings: seq<Finding>, classOf: seq<nat>, m: nat, at: seq<nat>)
    requires findings == [] && classOf == [] && Positions(classOf, m, at)
    ensures at == [] && Select(findings, classOf, m) == []
  {
    AscendingFew(at, 0);
  }

  lemma {:induction false} AscendingFew(at: seq<nat>, n: nat)
    requires (forall k, l :: 0 <= k < l < |at| ==> at[k] < at[l]) && forall i :: i in at ==> i < n
    ensures |at| <= n
  {
    if at != [] {
      assert at[|at| - 1] in at;
      AscendingFew(at[..|at| - 1], at[|at| - 1]);
    }
  }

  lemma SelectLast(findings: seq<Finding>, classOf: seq<nat>, m: nat)
    requires |classOf| == |findings| && findings != []
    ensures var n := |findings| - 1;
            Select(findings, classOf, m)
            == Select(findings[..n], classOf[..n], m) + (if classOf[n] == m then [findings[n]] else [])
  {
  }

  lemma LastPosition(classOf: seq<nat>, m: nat, at: seq<nat>)
    requires classOf != [] && Positions(classOf, m, at)
    ensures var n := |classOf| - 1;
            if classOf[n] == m then at != [] && at[|at| - 1] == n && Positions(classOf[..n], m, at[..|at| - 1])
            else Positions(classOf[..n], m, at)
  {
    var n := |classOf| - 1;
    if classOf[n] == m {
      assert n in at;
      var k :| 0 <= k < |at| && at[k] == n;
      assert at[|at| - 1] in at;
      assert k == |at| - 1;
      assert forall i :: i in at <==> i in at[..k] || i == n;
    }
  }

  // ---------- what merging keeps ----------

  /** The merged findings carry all names of the records and no others. */
  lemma MergeKeepsNames(findings: seq<Finding>, classOf: seq<nat>, merged: seq<Finding>)
    requires MergesTo(findings, classOf, merged)
    ensures AllNames(merged) == AllNames(findings)
  {
    forall name
      ensures name in AllNames(merged) <==> name in AllNames(findings)
    {
      if name in AllNames(merged) {
        var out :| out in merged && name in NamesOf(out);
        var m: nat :| m < |merged| && merged[m] == out;
        assert name in AllNames(Select(findings, classOf, m));
        var f :| f in Select(findings, classOf, m) && name in NamesOf(f);
        SelectHolds(findings, classOf, m, f);
      }
      if name in AllNames(findings) {
        var f :| f in findings && name in NamesOf(f);
        var i :| 0 <= i < |findings| && findings[i] == f;
        MergedHasNames(findings, classOf, merged, i);
        assert merged[classOf[i]] in merged && name in NameSet(merged[classOf[i]]);
      }
    }
  }

  /** Every record's names end up in the finding of its class. */
  lemma MergedHasNames(findings: seq<Finding>, classOf: seq<nat>, merged: seq<Finding>, i: nat)
    requires MergesTo(findings, classOf, merged) && i < |findings|
    ensures classOf[i] < |merged| && NameSet(findings[i]) <= NameSet(merged[classOf[i]])
  {
    var m := classOf[i];
    SelectHolds(findings, classOf, m, findings[i]);
    assert Represents(merged[m], Select(findings, classOf, m));
  }

  /** No name belongs to two merged findings. */
  lemma MergedNamesDisjoint(findings: seq<Finding>, classOf: seq<nat>, merged: seq<Finding>, m: nat, n: nat)
    requires MergesTo(findings, classOf, merged) && m < |merged| && n < |merged| && m != n
    ensures NameSet(merged[m]) !! NameSet(merged[n])
  {
    hide Represents, Connected;
    forall name | name in NameSet(merged[m]) && name in NameSet(merged[n])
      ensures false
    {
      var i := ClassMember(findings, classOf, merged, m, name);
      var j := ClassMember(findings, classOf, merged, n, name);
      SharedConnects(findings, i, j, name);
    }
  }

  /** Some record of class m carries a given name of merged finding m. */
  lemma ClassMember(findings: seq<Finding>, classOf: seq<nat>, merged: seq<Finding>, m: nat, name: string)
      returns (i: nat)
    requires MergesTo(findings, classOf, merged) && m < |merged| && name in NameSet(merged[m])
    ensures i < |findings| && classOf[i] == m && name in NamesOf(findings[i])
  {
    assert name in AllNames(Select(findings, classOf, m));
    var f :| f in Select(findings, classOf, m) && name in NamesOf(f);
    SelectHolds(findings, classOf, m, f);
    i :| 0 <= i < |findings| && findings[i] == f && classOf[i] == m;
  }

  lemma SharedConnects(findings: seq<Finding>, i: nat, j: nat, name: string)
    requires i < |findings| && j < |findings| && name in NamesOf(findings[i]) && name in NamesOf(findings[j])
    ensures Connected(NamesOfAll(findings), i, j)
  {
    var names := NamesOfAll(findings);
    assert Share(names, i, j);
    EdgeConnects(names, i, j);
  }

  /** Records that carry one name, be it in different case, become one finding. */
  lemma AlikeMerge(findings: seq<Finding>, classOf: seq<nat>, merged: seq<Finding>, i: nat, j: nat, a: string,
                   b: string)
    requires MergesTo(findings, classOf, merged) && i < |findings| && j < |findings| && Alike(a, b)
    requires a in [findings[i].id] + findings[i].aliases && b in [findings[j].id] + findings[j].aliases
    ensures classOf[i] == classOf[j]
  {
    hide Represents, Connected, Alike, Upper;
    UpperAlike(a, b);
    UpperIn(findings[i], a);
    UpperIn(findings[j], b);
    SharedConnects(findings, i, j, Upper(a));
  }

  lemma UpperIn(f: Finding, a: string)
    requires a in [f.id] + f.aliases
    ensures Upper(a) in NamesOf(f)
  {
    hide Upper;
    var k :| 0 <= k < |f.aliases| + 1 && ([f.id] + f.aliases)[k] == a;
    assert NamesOf(f)[k] == Upper(a);
  }

  // ---------- merging again changes nothing ----------

  lemma MergeAgain(findings: seq<Finding>, classOf: seq<nat>, merged: seq<Finding>, classOf1: seq<nat>,
                   merged1: seq<Finding>)
    requires MergesTo(findings, classOf, merged) && MergesTo(merged, classOf1, merged1)
    ensures merged1 == merged
  {
    hide Represents, Connected;
    forall i, j | 0 <= i < |merged| && 0 <= j < |merged| && classOf1[i] == classOf1[j]
      ensures i == j
    {
      MergedApart(findings, classOf, merged, i, j);
    }
    forall i | 0 <= i < |merged|
      ensures classOf1[i] == i
    {
      DistinctClasses(classOf1, |merged1|, i);
    }
    SameCount(classOf1, |merged1|);
    forall i: nat | i < |merged1|
      ensures merged1[i] == merged[i]
    {
      SelectOne(merged, classOf1, i);
      SingleKept(merged, classOf1, merged1, i);
    }
  }

  lemma MergedApart(findings: seq<Finding>, classOf: seq<nat>, merged: seq<Finding>, i: nat, j: nat)
    requires MergesTo(findings, classOf, merged) && i < |merged| && j < |merged| && Connected(NamesOfAll(merged), i, j)
    ensures i == j
  {
    hide Represents, Connected, MergesTo;
    var names := NamesOfAll(merged);
    forall k {:trigger Share(names, i, k)} | 0 <= k < |names| && Share(names, i, k)
      ensures k == i
    {
      var name :| name in names[i] && name in names[k];
      assert name in NameSet(merged[i]) && name in NameSet(merged[k]);
      if k != i {
        MergedNamesDisjoint(findings, classOf, merged, i, k);
      }
    }
    UnsharedAlone(names, i, j);
  }

  lemma {:induction false} DistinctClasses(classOf: seq<nat>, n: nat, i: nat)
    requires NumberedByFirst(classOf, n) && i < |classOf|
    requires forall i, j :: 0 <= i < |classOf| && 0 <= j < |classOf| && classOf[i] == classOf[j] ==> i == j
    ensures classOf[i] == i
  {
    forall k | 0 <= k < i
      ensures classOf[k] == k
    {
      DistinctClasses(classOf, n, k);
    }
    var c := if classOf[i] < |classOf| then classOf[i] else i;
    assert classOf[c] < |classOf| || c >= i;
    if i < n {
      assert First(classOf, i);
      var a :| 0 <= a < |classOf| && classOf[a] == i && forall j :: 0 <= j < a ==> classOf[j] < i;
      assert a >= i;
    }
  }

  lemma SameCount(classOf: seq<nat>, n: nat)
    requires NumberedByFirst(classOf, n) && forall i :: 0 <= i < |classOf| ==> classOf[i] == i
    ensures n == |classOf|
  {
    if n > 0 {
      assert First(classOf, n - 1);
    }
    if |classOf| > 0 {
      assert classOf[|classOf| - 1] < n;
    }
  }

  lemma {:induction false} SelectOne(findings: seq<Finding>, classOf: seq<nat>, m: nat)
    requires |classOf| == |findings| && forall i :: 0 <= i < |classOf| ==> classOf[i] == i
    ensures Select(findings, classOf, m) == if m < |findings| then [findings[m]] else []
  {
    if findings != [] {
      SelectOne(findings[..|findings| - 1], classOf[..|findings| - 1], m);
    }
  }

  lemma SingleKept(findings: seq<Finding>, classOf: seq<nat>, merged: seq<Finding>, m: nat)
    requires MergesTo(findings, classOf, merged) && m < |merged| && m < |findings|
             && Select(findings, classOf, m) == [findings[m]]
    ensures merged[m] == findings[m]
  {
    assert Represents(merged[m], Select(findings, classOf, m));
  }

  // ---------- mergeAliases ----------

  /** Each class of records is kept under its root, and nothing else is. */
  ghost predicate GroupsAt(order: seq<nat>, groups: map<nat, seq<Finding>>, findings: seq<Finding>, classOf: seq<nat>)
    requires |classOf| == |findings|
  {
    && (forall m {:trigger order[m]} :: 0 <= m < |order| ==>
          order[m] in groups && groups[order[m]] == Select(findings, classOf, m))
    && (forall m, n :: 0 <= m < n < |order| ==> order[m] != order[n])
    && (forall r :: r in groups ==> r in order)
  }

  /** The grouping loop: classes of the records before i, with their roots in order. */
  ghost predicate Grouping(findings: seq<Finding>, root: seq<nat>, i: nat, classOf: seq<nat>, order: seq<nat>,
                           groups: map<nat, seq<Finding>>) {
    && |root| == |findings| && |classOf| == i <= |findings|
    && NumberedByFirst(classOf, |order|)
    && (forall k {:trigger classOf[k]} :: 0 <= k < i ==> classOf[k] < |order| && order[classOf[k]] == root[k])
    && GroupsAt(order, groups, findings[..i], classOf)
  }

  lemma SelectSnoc(findings: seq<Finding>, classOf: seq<nat>, f: Finding, c: nat, m: nat)
    requires |classOf| == |findings|
    ensures Select(findings + [f], classOf + [c], m) == Select(findings, classOf, m) + (if c == m then [f] else [])
  {
    assert (findings + [f])[..|findings|] == findings && (classOf + [c])[..|findings|] == classOf;
  }

  lemma {:induction false} SelectFresh(findings: seq<Finding>, classOf: seq<nat>, m: nat)
    requires |classOf| == |findings| && forall i :: 0 <= i < |classOf| ==> classOf[i] < m
    ensures Select(findings, classOf, m) == []
  {
    if findings != [] {
      SelectFresh(findings[..|findings| - 1], classOf[..|findings| - 1], m);
    }
  }

  lemma FirstStays(classOf: seq<nat>, c: nat, n: nat)
    requires NumberedByFirst(classOf, n) && c <= n
    ensures NumberedByFirst(classOf + [c], if c == n then n + 1 else n)
  {
    var t := classOf + [c];
    forall m: nat {:trigger First(t, m)} | m < (if c == n then n + 1 else n)
      ensures First(t, m)
    {
      if m < n {
        assert First(classOf, m);
        var i :| 0 <= i < |classOf| && classOf[i] == m && forall j :: 0 <= j < i ==> classOf[j] < m;
        assert t[i] == m && forall j :: 0 <= j < i ==> t[j] < m;
      } else {
        assert t[|classOf|] == m && forall j :: 0 <= j < |classOf| ==> t[j] < m;
      }
    }
  }

  /** The groups once record f of class c is appended to its group. */
  ghost predicate Appends(order: seq<nat>, groups: map<nat, seq<Finding>>, r: nat, f: Finding,
                          c: nat, order1: seq<nat>, groups1: map<nat, seq<Finding>>) {
    if r in groups then c < |order| && order[c] == r && order1 == order && groups1 == groups[r := groups[r] + [f]]
    else c == |order| && order1 == order + [r] && groups1 == groups[r := [f]]
  }

  lemma AppendsGroup(order: seq<nat>, groups: map<nat, seq<Finding>>, findings: seq<Finding>, classOf: seq<nat>,
                     r: nat, f: Finding, c: nat, order1: seq<nat>, groups1: map<nat, seq<Finding>>)
    requires |classOf| == |findings| && (forall k :: 0 <= k < |classOf| ==> classOf[k] < |order|)
    requires GroupsAt(order, groups, findings, classOf) && Appends(order, groups, r, f, c, order1, groups1)
    ensures forall m {:trigger order1[m]} :: 0 <= m < |order1| ==>
              order1[m] in groups1 && groups1[order1[m]] == Select(findings + [f], classOf + [c], m)
  {
    hide Select;
    forall m {:trigger order1[m]} | 0 <= m < |order1|
      ensures order1[m] in groups1 && groups1[order1[m]] == Select(findings + [f], classOf + [c], m)
    {
      SelectSnoc(findings, classOf, f, c, m);
      if m < |order| {
        assert order1[m] == order[m];
        assert m != c ==> order[m] != r;
      } else {
        SelectFresh(findings, classOf, m);
      }
    }
  }

  lemma AppendsKeys(order: seq<nat>, groups: map<nat, seq<Finding>>, r: nat, f: Finding,
                    c: nat, order1: seq<nat>, groups1: map<nat, seq<Finding>>)
    requires Appends(order, groups, r, f, c, order1, groups1)
    requires forall m {:trigger order[m]} :: 0 <= m < |order| ==> order[m] in groups
    requires (forall m, n :: 0 <= m < n < |order| ==> order[m] != order[n]) && (forall x :: x in groups ==> x in order)
    ensures (forall m, n :: 0 <= m < n < |order1| ==> order1[m] != order1[n])
            && (forall x :: x in groups1 ==> x in order1)
    ensures c < |order1| && order1[c] == r && order <= order1
  {
    assert forall x :: x in order ==> x in order1;
  }

  lemma GroupingStep(findings: seq<Finding>, root: seq<nat>, i: nat, classOf: seq<nat>, order: seq<nat>,
                     groups: map<nat, seq<Finding>>, c: nat, order1: seq<nat>, groups1: map<nat, seq<Finding>>)
    requires Grouping(findings, root, i, classOf, order, groups) && i < |findings|
    requires Appends(order, groups, root[i], findings[i], c, order1, groups1)
    ensures Grouping(findings, root, i + 1, classOf + [c], order1, groups1)
  {
    hide First, Select;
    FirstStays(classOf, c, |order|);
    assert findings[..i + 1] == findings[..i] + [findings[i]];
    AppendsGroup(order, groups, findings[..i], classOf, root[i], findings[i], c, order1, groups1);
    AppendsKeys(order, groups, root[i], findings[i], c, order1, groups1);
    forall k {:trigger (classOf + [c])[k]} | 0 <= k < i + 1
      ensures (classOf + [c])[k] < |order1| && order1[(classOf + [c])[k]] == root[k]
    {
      if k < i {
        assert classOf[k] < |order|;
      }
    }
  }

  /** mergeAliases. */
  method MergeAliases(findings: seq<Finding>) returns (merged: seq<Finding>)
    ensures exists classOf :: MergesTo(findings, classOf, merged)
  {
    hide Represents, Connected, Forest, Grouping, NumberedByFirst;
    var names := seq(|findings|, i requires 0 <= i < |findings| => NamesOf(findings[i]));
    assert names == NamesOfAll(findings);
    var parent := new nat[|findings|];
    ghost var root, rank := Connect(names, parent);
    var groups: map<nat, seq<Finding>>, order: seq<nat> := map[], [];
    ghost var classOf: seq<nat> := [];
    EmptyGrouping(findings, root);
    for i := 0 to |findings|
      invariant Forest(parent[..], root, rank) && Grouping(findings, root, i, classOf, order, groups)
    {
      var r := Find(parent, i, root, rank);
      ghost var order0, groups0 := order, groups;
      ghost var c := ClassFor(findings, root, i, classOf, order, groups);
      if r !in groups {
        order := order + [r];
        groups := groups[r := [findings[i]]];
      } else {
        groups := groups[r := groups[r] + [findings[i]]];
      }
      GroupingStep(findings, root, i, classOf, order0, groups0, c, order, groups);
      classOf := classOf + [c];
    }
    GroupedAll(findings, root, classOf, order, groups);
    merged := [];
    for m := 0 to |order|
      invariant |merged| == m && forall k: nat {:trigger merged[k]} ::
                  k < m ==> Represents(merged[k], Select(findings, classOf, k))
    {
      var out := MergeGroup(groups[order[m]]);
      merged := merged + [out];
    }
    assert MergesTo(findings, classOf, merged);
  }

  lemma EmptyGrouping(findings: seq<Finding>, root: seq<nat>)
    requires |root| == |findings|
    ensures Grouping(findings, root, 0, [], [], map[])
  {
  }

  lemma ClassFor(findings: seq<Finding>, root: seq<nat>, i: nat, classOf: seq<nat>, order: seq<nat>,
                 groups: map<nat, seq<Finding>>)
      returns (c: nat)
    requires Grouping(findings, root, i, classOf, order, groups) && i < |findings|
    ensures if root[i] in groups then c < |order| && order[c] == root[i] else c == |order|
  {
    if root[i] in groups {
      c :| 0 <= c < |order| && order[c] == root[i];
    } else {
      c := |order|;
    }
  }

  lemma GroupedAll(findings: seq<Finding>, root: seq<nat>, classOf: seq<nat>, order: seq<nat>,
                   groups: map<nat, seq<Finding>>)
    requires Grouping(findings, root, |findings|, classOf, order, groups)
    ensures |classOf| == |findings| && NumberedByFirst(classOf, |order|)
    ensures forall m ::
              0 <= m < |order| ==>
                order[m] in groups && groups[order[m]] == Select(findings, classOf, m) && groups[order[m]] != []
    ensures forall i, j {:trigger classOf[i], classOf[j]} ::
              0 <= i < |findings| && 0 <= j < |findings| ==> (classOf[i] == classOf[j] <==> root[i] == root[j])
  {
    assert findings[..|findings|] == findings;
    forall m | 0 <= m < |order|
      ensures groups[order[m]] != []
    {
      assert First(classOf, m);
      var i :| 0 <= i < |classOf| && classOf[i] == m;
      SelectHolds(findings, classOf, m, findings[i]);
      assert order[m] in groups;
    }
  }
}
