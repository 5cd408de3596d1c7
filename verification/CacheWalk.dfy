/**
 The stack walk of buildCache on plain values: its invariant, and what each of its four steps keeps.

 `g` is the graph in the direction being cached (Children or Parents) and `h` the same edges seen from the other
 end. `val` gives every node the set kept for its group, `todo` and `future` are the neighbours of a node's group in
 `g` and in `h`.
 */
module CacheWalk {
  import opened Graphs
  import opened Bitmaps

  datatype StackElm = StackElm(id: nat, todoIndex: nat)

  /** What stays fixed during one buildCache. */
  datatype Setting = Setting(g: Graph, h: Graph, scc: map<nat, nat>, todo: map<nat, seq<nat>>,
    future: map<nat, seq<nat>>)

  /** What the walk changes. `pushed` holds every node that was ever on the stack. */
  datatype Walk = Walk(stack: seq<StackElm>, marked: set<nat>, val: map<nat, set<nat>>, pushed: set<nat>)

  /** The nodes with the number of x. */
  function Group(scc: map<nat, nat>, x: nat): set<nat>
    requires x in scc
  {
    set y | y in scc && scc[y] == scc[x]
  }

  /** Everything one step away from a node of ks. */
  function OutOf(g: Graph, ks: set<nat>): set<nat> {
    set k, d | k in ks && k in g && d in g[k] :: d
  }

  /** The nodes one step outside the group of x. */
  function Neighbours(scc: map<nat, nat>, g: Graph, x: nat): set<nat>
    requires x in scc
  {
    OutOf(g, Group(scc, x)) - Group(scc, x)
  }

  ghost predicate IsSetting(c: Setting) {
    && Transposed(c.g, c.h) && IsScc(c.g, c.scc)
    && c.scc.Keys == c.g.Keys && c.h.Keys == c.g.Keys
    && c.todo.Keys == c.g.Keys && c.future.Keys == c.g.Keys
    && (forall x {:trigger c.todo[x]} :: x in c.g ==> Elements(c.todo[x]) == Neighbours(c.scc, c.g, x))
    && (forall x {:trigger c.future[x]} :: x in c.g ==> Elements(c.future[x]) == Neighbours(c.scc, c.h, x))
  }

  // ---------- what the neighbours of a group are good for ----------

  lemma NeighbourFacts(c: Setting, r: Relation, x: nat, d: nat)
    requires IsSetting(c) && IsReachability(c.g, r) && x in c.g && d in Elements(c.todo[x])
    ensures d in c.g && c.scc[d] != c.scc[x] && (x, d) in r && (d, x) !in r
    ensures exists z :: z in Elements(c.future[d]) && z in c.g && c.scc[z] == c.scc[x]
  {
    var y :| y in Group(c.scc, x) && d in c.g[y];
    ReachesEdge(c.g, y, d);
    assert Mutual(c.g, x, y) && !Mutual(c.g, x, d);
    ReachesTrans(c.g, x, y, d);
    assert Reaches(c.g, d, x) || !Reaches(c.g, d, x);
    assert y in c.h[d];
    assert d in Group(c.scc, d) && y !in Group(c.scc, d);
    assert y in Elements(c.future[d]);
  }

  /** Whatever a node reaches is in its group or is reached by a neighbour of its group. */
  lemma ReachesThroughNeighbour(c: Setting, r: Relation, x: nat, y: nat)
    requires IsSetting(c) && IsReachability(c.g, r) && x in c.g && y in c.g && (x, y) in r && c.scc[y] != c.scc[x]
    ensures exists d :: d in Elements(c.todo[x]) && (d, y) in r
  {
    if forall d :: d in Elements(c.todo[x]) ==> (d, y) !in r {
      var near := set z | z in c.g && (c.scc[z] == c.scc[x] || (z, y) !in r);
      forall v, w | v in near && w in Succ(c.g, v)
        ensures w in near
      {
        NearIsClosed(c, r, x, y, v, w);
      }
      RelationRefl(c.g, r, y);
      RelationStaysIn(c.g, r, near, x, y);
    }
  }

  lemma NearIsClosed(c: Setting, r: Relation, x: nat, y: nat, v: nat, w: nat)
    requires IsSetting(c) && IsReachability(c.g, r) && x in c.g && v in c.g && w in Succ(c.g, v)
    requires forall d :: d in Elements(c.todo[x]) ==> (d, y) !in r
    requires c.scc[v] == c.scc[x] || (v, y) !in r
    ensures w in c.g && (c.scc[w] == c.scc[x] || (w, y) !in r)
  {
    RelationEdge(c.g, r, v, w);
    if c.scc[w] != c.scc[x] && (w, y) in r {
      if c.scc[v] == c.scc[x] {
        OneStepOut(c, x, v, w);
      } else {
        RelationTrans(c.g, r, v, w, y);
      }
    }
  }

  lemma OneStepOut(c: Setting, x: nat, v: nat, w: nat)
    requires IsSetting(c) && x in c.g && v in c.g && w in c.g[v] && w in c.g
    requires c.scc[v] == c.scc[x] && c.scc[w] != c.scc[x]
    ensures w in Elements(c.todo[x])
  {
    assert v in Group(c.scc, x);
    assert c.todo[x] == c.todo[x];
  }

  // ---------- the invariant that makes marked nodes complete ----------

  ghost predicate Complete(r: Relation, val: map<nat, set<nat>>, x: nat)
    requires x in val
  {
    forall y {:trigger (x, y) in r} :: (x, y) in r ==> y in val[x]
  }

  /** Everything d reaches has been merged into the group of x. */
  ghost predicate Merged(r: Relation, val: map<nat, set<nat>>, x: nat, d: nat)
    requires x in val
  {
    forall y {:trigger (d, y) in r} :: (d, y) in r ==> y in val[x]
  }

  ghost predicate Above(stack: seq<StackElm>, i: nat, id: nat) {
    exists a :: i < a < |stack| && stack[a].id == id
  }

  ghost predicate GroupAbove(scc: map<nat, nat>, stack: seq<StackElm>, i: nat, group: nat) {
    exists a :: i < a < |stack| && stack[a].id in scc && scc[stack[a].id] == group
  }

  /** Why entry i, of node x, may count its neighbour d as dealt with. */
  ghost predicate Justified(c: Setting, r: Relation, w: Walk, i: nat, x: nat, d: nat)
    requires x in w.val && x in c.scc
  {
    || Merged(r, w.val, x, d)
    || (d !in w.marked && Above(w.stack, i, d))
    || GroupAbove(c.scc, w.stack, i, c.scc[x])
    || Complete(r, w.val, x)
  }

  ghost predicate Entry(c: Setting, r: Relation, w: Walk, i: nat)
    requires i < |w.stack|
  {
    var x := w.stack[i].id;
    && x in c.g && x in w.val && x in c.scc && x in c.todo && w.stack[i].todoIndex <= |c.todo[x]|
    && forall j {:trigger c.todo[x][j]} :: 0 <= j < w.stack[i].todoIndex ==> Justified(c, r, w, i, x, c.todo[x][j])
  }

  /** Every set lies between the group and the reachable nodes, and a group shares one set. */
  ghost predicate Sound(c: Setting, r: Relation, val: map<nat, set<nat>>)
    requires c.scc.Keys == c.g.Keys
  {
    && val.Keys == c.g.Keys
    && (forall x, y {:trigger y in val[x]} :: x in c.g && y in val[x] ==> (x, y) in r)
    && (forall x, y {:trigger y in val[x]} :: x in c.g && y in c.g && c.scc[x] == c.scc[y] ==> y in val[x])
    && (forall x, y {:trigger val[x], val[y]} :: x in c.g && y in c.g && c.scc[x] == c.scc[y] ==> val[x] == val[y])
  }

  ghost predicate Inv(c: Setting, r: Relation, w: Walk)
    requires IsSetting(c)
  {
    && Sound(c, r, w.val)
    && w.marked <= c.g.Keys
    && (forall x {:trigger Complete(r, w.val, x)} :: x in w.marked ==> Complete(r, w.val, x))
    && (forall i {:trigger Entry(c, r, w, i)} :: 0 <= i < |w.stack| ==> Entry(c, r, w, i))
  }

  lemma CompleteShared(c: Setting, r: Relation, val: map<nat, set<nat>>, x: nat, y: nat)
    requires IsSetting(c) && IsReachability(c.g, r) && Sound(c, r, val)
    requires x in c.g && y in c.g && c.scc[x] == c.scc[y] && Complete(r, val, x)
    ensures Complete(r, val, y)
  {
    assert Mutual(c.g, x, y);
    forall z {:trigger (y, z) in r} | (y, z) in r
      ensures z in val[y]
    {
      RelationTrans(c.g, r, x, y, z);
      assert val[x] == val[y];
    }
  }

  /** The walk after a marked top entry is popped. */
  ghost function Pop(w: Walk): Walk
    requires w.stack != []
  {
    w.(stack := w.stack[..|w.stack| - 1])
  }

  lemma AboveStays(s: seq<StackElm>, t: seq<StackElm>, i: nat, id: nat)
    requires s != [] && s[..|s| - 1] <= t && Above(s, i, id)
    ensures Above(t, i, id) || s[|s| - 1].id == id
  {
    var a :| i < a < |s| && s[a].id == id;
    if a < |s| - 1 {
      assert t[a] == s[..|s| - 1][a];
    }
  }

  lemma GroupAboveStays(scc: map<nat, nat>, s: seq<StackElm>, t: seq<StackElm>, i: nat, group: nat)
    requires s != [] && s[..|s| - 1] <= t && GroupAbove(scc, s, i, group)
    ensures GroupAbove(scc, t, i, group) || (s[|s| - 1].id in scc && scc[s[|s| - 1].id] == group)
  {
    var a :| i < a < |s| && s[a].id in scc && scc[s[a].id] == group;
    if a < |s| - 1 {
      assert t[a] == s[..|s| - 1][a];
    }
  }

  lemma PopJustified(c: Setting, r: Relation, w: Walk, i: nat, x: nat, d: nat)
    requires IsSetting(c) && IsReachability(c.g, r) && Inv(c, r, w) && i < |w.stack| - 1
    requires w.stack[|w.stack| - 1].id in w.marked && x in c.g && Justified(c, r, w, i, x, d)
    ensures Justified(c, r, Pop(w), i, x, d)
  {
    hide Merged, Complete, Entry, IsReachability, Above, GroupAbove, Transposed, IsScc, Neighbours, Group, Elements,
      Fresh;
    var z := w.stack[|w.stack| - 1].id;
    if d !in w.marked && Above(w.stack, i, d) {
      AboveStays(w.stack, Pop(w).stack, i, d);
    } else if GroupAbove(c.scc, w.stack, i, c.scc[x]) {
      GroupAboveStays(c.scc, w.stack, Pop(w).stack, i, c.scc[x]);
      if c.scc[z] == c.scc[x] {
        assert Complete(r, w.val, z);
        CompleteShared(c, r, w.val, z, x);
      }
    }
  }

  /** Entry i of w stands on as entry i of w1 when its justifications do. */
  lemma EntryStays(c: Setting, r: Relation, w: Walk, w1: Walk, i: nat)
    requires i < |w.stack| && i < |w1.stack| && w1.stack[i] == w.stack[i] && Entry(c, r, w, i)
             && w.stack[i].id in w1.val
    requires var x := w.stack[i].id;
             forall d {:trigger Justified(c, r, w1, i, x, d)} ::
               d in Elements(c.todo[x]) && Justified(c, r, w, i, x, d) ==> Justified(c, r, w1, i, x, d)
    ensures Entry(c, r, w1, i)
  {
    hide Justified;
    var x := w.stack[i].id;
    forall j {:trigger c.todo[x][j]} | 0 <= j < w.stack[i].todoIndex
      ensures Justified(c, r, w1, i, x, c.todo[x][j])
    {
      ElementsOf(c.todo[x], c.todo[x][j]);
      assert Justified(c, r, w, i, x, c.todo[x][j]);
    }
  }

  lemma PopKeepsInv(c: Setting, r: Relation, w: Walk)
    requires IsSetting(c) && IsReachability(c.g, r) && Inv(c, r, w) && w.stack != []
    requires w.stack[|w.stack| - 1].id in w.marked
    ensures Inv(c, r, Pop(w))
  {
    hide Complete, Justified, IsReachability, Sound;
    forall i {:trigger Entry(c, r, Pop(w), i)} | 0 <= i < |Pop(w).stack|
      ensures Entry(c, r, Pop(w), i)
    {
      assert Entry(c, r, w, i);
      var x := w.stack[i].id;
      forall d {:trigger Justified(c, r, Pop(w), i, x, d)} | d in Elements(c.todo[x]) && Justified(c, r, w, i, x, d)
        ensures Justified(c, r, Pop(w), i, x, d)
      {
        PopJustified(c, r, w, i, x, d);
      }
      EntryStays(c, r, w, Pop(w), i);
    }
  }

  // ---------- marking ----------

  function Fresh(ids: seq<nat>): seq<StackElm> {
    seq(|ids|, i requires 0 <= i < |ids| => StackElm(ids[i], 0))
  }

  /** The walk after the top entry has worked through its neighbours: its node is marked, its future nodes pushed. */
  ghost function Mark(c: Setting, w: Walk): Walk
    requires w.stack != [] && w.stack[|w.stack| - 1].id in c.future
  {
    var z := w.stack[|w.stack| - 1].id;
    var next := c.future[z];
    w.(stack := w.stack[..|w.stack| - 1] + Fresh(next),
       marked := w.marked + {z},
       pushed := w.pushed + Elements(next))
  }

  lemma NothingAboveTop(c: Setting, r: Relation, w: Walk, x: nat, d: nat)
    requires w.stack != [] && x in w.val && x in c.scc && Justified(c, r, w, |w.stack| - 1, x, d)
    ensures Merged(r, w.val, x, d) || Complete(r, w.val, x)
  {
  }

  /** A top entry with nothing left to do has a complete group. */
  lemma TopComplete(c: Setting, r: Relation, w: Walk, x: nat)
    requires IsSetting(c) && IsReachability(c.g, r) && Inv(c, r, w) && w.stack != []
    requires x in c.g && w.stack[|w.stack| - 1] == StackElm(x, |c.todo[x]|)
    ensures Complete(r, w.val, x)
  {
    var n := |w.stack| - 1;
    assert Entry(c, r, w, n);
    if !Complete(r, w.val, x) {
      forall y {:trigger (x, y) in r} | (x, y) in r
        ensures y in w.val[x]
      {
        TopReaches(c, r, w, x, y);
      }
    }
  }

  lemma TopReaches(c: Setting, r: Relation, w: Walk, x: nat, y: nat)
    requires IsSetting(c) && IsReachability(c.g, r) && Sound(c, r, w.val) && w.stack != []
    requires x in c.g && w.stack[|w.stack| - 1] == StackElm(x, |c.todo[x]|) && Entry(c, r, w, |w.stack| - 1)
    requires (x, y) in r && !Complete(r, w.val, x)
    ensures y in w.val[x]
  {
    hide Justified, Complete, Neighbours, Group, Transposed, IsScc, Elements;
    RelationNodes(c.g, r, x, y);
    if c.scc[y] != c.scc[x] {
      ReachesThroughNeighbour(c, r, x, y);
      var d :| d in Elements(c.todo[x]) && (d, y) in r;
      ElementsOf(c.todo[x], d);
      var j :| 0 <= j < |c.todo[x]| && c.todo[x][j] == d;
      assert Justified(c, r, w, |w.stack| - 1, x, c.todo[x][j]);
      NothingAboveTop(c, r, w, x, c.todo[x][j]);
    }
  }

  /** The future nodes pushed after z is marked hold a node of the group of every x that has z as a neighbour. */
  lemma FutureRescans(c: Setting, r: Relation, w: Walk, i: nat, x: nat)
    requires IsSetting(c) && IsReachability(c.g, r) && i < |w.stack| - 1
    requires var z := w.stack[|w.stack| - 1].id; z in c.g && x in c.g && z in Elements(c.todo[x])
    ensures GroupAbove(c.scc, Mark(c, w).stack, i, c.scc[x])
  {
    hide Transposed, IsScc, IsReachability, Neighbours, Group, Elements;
    var z := w.stack[|w.stack| - 1].id;
    NeighbourFacts(c, r, x, z);
    var y :| y in Elements(c.future[z]) && y in c.g && c.scc[y] == c.scc[x];
    ElementsOf(c.future[z], y);
    var k :| 0 <= k < |c.future[z]| && c.future[z][k] == y;
    assert Mark(c, w).stack[|w.stack| - 1 + k].id == y;
  }

  lemma MarkJustified(c: Setting, r: Relation, w: Walk, i: nat, x: nat, d: nat)
    requires IsSetting(c) && IsReachability(c.g, r) && Inv(c, r, w) && i < |w.stack| - 1
    requires var z := w.stack[|w.stack| - 1].id; z in c.g && Complete(r, w.val, z)
    requires x in c.g && d in Elements(c.todo[x]) && Justified(c, r, w, i, x, d)
    ensures Justified(c, r, Mark(c, w), i, x, d)
  {
    hide Merged, Complete, Entry, IsReachability, Above, GroupAbove, Transposed, IsScc, Neighbours, Group, Elements,
      Fresh;
    var z := w.stack[|w.stack| - 1].id;
    var t := Mark(c, w);
    if d !in w.marked && Above(w.stack, i, d) {
      AboveStays(w.stack, t.stack, i, d);
      if d == z {
        FutureRescans(c, r, w, i, x);
      }
    } else if GroupAbove(c.scc, w.stack, i, c.scc[x]) {
      GroupAboveStays(c.scc, w.stack, t.stack, i, c.scc[x]);
      if c.scc[z] == c.scc[x] {
        CompleteShared(c, r, w.val, z, x);
      }
    }
  }

  lemma MarkKeepsEntry(c: Setting, r: Relation, w: Walk, i: nat)
    requires IsSetting(c) && IsReachability(c.g, r) && Inv(c, r, w) && i < |w.stack| - 1
    requires var z := w.stack[|w.stack| - 1].id; z in c.g && Complete(r, w.val, z)
    ensures Entry(c, r, Mark(c, w), i)
  {
    hide Complete, Justified, IsReachability, Sound;
    assert Entry(c, r, w, i);
    var x := w.stack[i].id;
    forall d {:trigger Justified(c, r, Mark(c, w), i, x, d)} | d in Elements(c.todo[x]) && Justified(c, r, w, i, x, d)
      ensures Justified(c, r, Mark(c, w), i, x, d)
    {
      MarkJustified(c, r, w, i, x, d);
    }
    EntryStays(c, r, w, Mark(c, w), i);
  }

  /** A fresh entry for a node of the graph needs no justification. */
  lemma FreshEntry(c: Setting, r: Relation, w: Walk, i: nat)
    requires IsSetting(c) && Sound(c, r, w.val) && i < |w.stack| && w.stack[i].id in c.g && w.stack[i].todoIndex == 0
    ensures Entry(c, r, w, i)
  {
  }

  lemma FutureInGraph(c: Setting, x: nat, k: nat)
    requires IsSetting(c) && x in c.g && k < |c.future[x]|
    ensures c.future[x][k] in c.g
  {
    ElementsOf(c.future[x], c.future[x][k]);
    var y :| y in Group(c.scc, x) && c.future[x][k] in c.h[y];
  }

  lemma MarkKeepsInv(c: Setting, r: Relation, w: Walk, x: nat)
    requires IsSetting(c) && IsReachability(c.g, r) && Inv(c, r, w) && w.stack != []
    requires x in c.g && w.stack[|w.stack| - 1] == StackElm(x, |c.todo[x]|)
    ensures Inv(c, r, Mark(c, w))
  {
    hide Complete, Justified, IsReachability, Sound, Neighbours, Group, Elements, Transposed, IsScc;
    TopComplete(c, r, w, x);
    var n := |w.stack| - 1;
    var t := Mark(c, w);
    forall i {:trigger Entry(c, r, t, i)} | 0 <= i < |t.stack|
      ensures Entry(c, r, t, i)
    {
      if i < n {
        MarkKeepsEntry(c, r, w, i);
      } else {
        FutureInGraph(c, x, i - n);
        FreshEntry(c, r, t, i);
      }
    }
  }

  // ---------- merging a marked neighbour, descending into an unmarked one ----------

  /** addToCache on the values: the group of x gains the set kept for d, and x. */
  ghost function MergedVal(scc: map<nat, nat>, val: map<nat, set<nat>>, x: nat, d: nat): map<nat, set<nat>>
    requires x in val && d in val && val.Keys <= scc.Keys
  {
    map y | y in val :: if scc[y] == scc[x] then val[x] + val[d] + {x} else val[y]
  }

  ghost function Merge(c: Setting, w: Walk, x: nat, k: nat): Walk
    requires w.stack != [] && x in c.todo && k < |c.todo[x]|
    requires x in w.val && c.todo[x][k] in w.val && w.val.Keys <= c.scc.Keys
  {
    w.(stack := w.stack[..|w.stack| - 1] + [StackElm(x, k + 1)], val := MergedVal(c.scc, w.val, x, c.todo[x][k]))
  }

  ghost function Descend(c: Setting, w: Walk, x: nat, k: nat): Walk
    requires w.stack != [] && x in c.todo && k < |c.todo[x]|
  {
    var d := c.todo[x][k];
    w.(stack := w.stack[..|w.stack| - 1] + [StackElm(x, k + 1), StackElm(d, 0)], pushed := w.pushed + {d})
  }

  lemma MergeGrows(c: Setting, r: Relation, val: map<nat, set<nat>>, x: nat, d: nat)
    requires c.scc.Keys == c.g.Keys && Sound(c, r, val) && x in c.g && d in c.g
    ensures var t := MergedVal(c.scc, val, x, d);
            t.Keys == val.Keys && forall y {:trigger t[y]} :: y in val ==> val[y] <= t[y]
  {
  }

  lemma MergeSound(c: Setting, r: Relation, val: map<nat, set<nat>>, x: nat, d: nat)
    requires IsSetting(c) && IsReachability(c.g, r) && Sound(c, r, val)
    requires x in c.g && d in c.g && (x, d) in r
    ensures Sound(c, r, MergedVal(c.scc, val, x, d))
  {
    hide Transposed, IsScc, IsReachability, Neighbours, Group, Elements;
    var t := MergedVal(c.scc, val, x, d);
    MergeGrows(c, r, val, x, d);
    forall z, y {:trigger y in t[z]} | z in c.g && y in t[z]
      ensures (z, y) in r
    {
      if c.scc[z] == c.scc[x] {
        MergedReached(c, r, val, x, d, z, y);
      } else {
        assert y in val[z];
      }
    }
    forall z, y {:trigger y in t[z]} | z in c.g && y in c.g && c.scc[z] == c.scc[y]
      ensures y in t[z]
    {
      assert y in val[z];
      assert val[z] <= t[z];
    }
    MergeShares(c, r, val, x, d);
  }

  lemma MergeShares(c: Setting, r: Relation, val: map<nat, set<nat>>, x: nat, d: nat)
    requires c.scc.Keys == c.g.Keys && Sound(c, r, val) && x in c.g && d in c.g
    ensures var t := MergedVal(c.scc, val, x, d);
            forall z, y {:trigger t[z], t[y]} :: z in c.g && y in c.g && c.scc[z] == c.scc[y] ==> t[z] == t[y]
  {
  }

  lemma MergedReached(c: Setting, r: Relation, val: map<nat, set<nat>>, x: nat, d: nat, z: nat, y: nat)
    requires IsSetting(c) && IsReachability(c.g, r) && Sound(c, r, val)
    requires x in c.g && d in c.g && (x, d) in r && z in c.g && c.scc[z] == c.scc[x] && y in val[x] + val[d] + {x}
    ensures (z, y) in r
  {
    hide Transposed, Neighbours, Group, Elements;
    assert Mutual(c.g, z, x);
    if y in val[d] {
      RelationTrans(c.g, r, x, d, y);
    } else {
      RelationRefl(c.g, r, x);
    }
    RelationTrans(c.g, r, z, x, y);
  }

  lemma StepJustified(c: Setting, r: Relation, w: Walk, t: Walk, i: nat, x: nat, d: nat)
    requires w.stack != [] && i < |w.stack| - 1 && x in w.val && x in c.scc && t.val.Keys == w.val.Keys
    requires t.marked == w.marked && (forall y {:trigger t.val[y]} :: y in w.val ==> w.val[y] <= t.val[y])
    requires w.stack[..|w.stack| - 1] <= t.stack && |t.stack| >= |w.stack|
    requires t.stack[|w.stack| - 1].id == w.stack[|w.stack| - 1].id
    requires Justified(c, r, w, i, x, d)
    ensures Justified(c, r, t, i, x, d)
  {
    hide Above, GroupAbove;
    var n := |w.stack| - 1;
    if d !in w.marked && Above(w.stack, i, d) {
      AboveStays(w.stack, t.stack, i, d);
      AboveAt(t.stack, i, n);
    } else if GroupAbove(c.scc, w.stack, i, c.scc[x]) {
      GroupAboveStays(c.scc, w.stack, t.stack, i, c.scc[x]);
      GroupAboveAt(c.scc, t.stack, i, n);
    } else {
      assert w.val[x] <= t.val[x];
    }
  }

  lemma AboveAt(s: seq<StackElm>, i: nat, a: nat)
    requires i < a < |s|
    ensures Above(s, i, s[a].id)
  {
  }

  lemma GroupAboveAt(scc: map<nat, nat>, s: seq<StackElm>, i: nat, a: nat)
    requires i < a < |s|
    ensures s[a].id in scc ==> GroupAbove(scc, s, i, scc[s[a].id])
  {
  }

  /** The entries below the top stand on after a step that keeps the marks and lets the sets grow. */
  lemma StepKeepsEntry(c: Setting, r: Relation, w: Walk, t: Walk, i: nat)
    requires w.stack != [] && i < |w.stack| - 1 && t.val.Keys == w.val.Keys && Entry(c, r, w, i)
    requires t.marked == w.marked && (forall y {:trigger t.val[y]} :: y in w.val ==> w.val[y] <= t.val[y])
    requires w.stack[..|w.stack| - 1] <= t.stack && |t.stack| >= |w.stack|
    requires t.stack[|w.stack| - 1].id == w.stack[|w.stack| - 1].id
    ensures Entry(c, r, t, i)
  {
    hide Justified, Elements;
    var x := w.stack[i].id;
    assert t.stack[i] == w.stack[..|w.stack| - 1][i];
    forall d {:trigger Justified(c, r, t, i, x, d)} | d in Elements(c.todo[x]) && Justified(c, r, w, i, x, d)
      ensures Justified(c, r, t, i, x, d)
    {
      StepJustified(c, r, w, t, i, x, d);
    }
    EntryStays(c, r, w, t, i);
  }

  /** The top entry after its neighbour number k was merged or pushed. */
  lemma StepKeepsTop(c: Setting, r: Relation, w: Walk, t: Walk, x: nat, k: nat)
    requires w.stack != [] && t.val.Keys == w.val.Keys && Entry(c, r, w, |w.stack| - 1)
    requires forall y {:trigger t.val[y]} :: y in w.val ==> w.val[y] <= t.val[y]
    requires w.stack[|w.stack| - 1] == StackElm(x, k) && k < |c.todo[x]|
    requires |t.stack| >= |w.stack| && t.stack[|w.stack| - 1] == StackElm(x, k + 1)
    requires x in c.g && Justified(c, r, t, |w.stack| - 1, x, c.todo[x][k])
    ensures Entry(c, r, t, |w.stack| - 1)
  {
    hide Elements;
    var n := |w.stack| - 1;
    forall j {:trigger c.todo[x][j]} | 0 <= j < k
      ensures Justified(c, r, t, n, x, c.todo[x][j])
    {
      assert Justified(c, r, w, n, x, c.todo[x][j]);
      assert w.val[x] <= t.val[x];
      NothingAboveTop(c, r, w, x, c.todo[x][j]);
    }
  }

  lemma CompleteGrows(c: Setting, r: Relation, w: Walk, t: Walk)
    requires IsSetting(c) && Inv(c, r, w) && t.marked == w.marked && t.val.Keys == w.val.Keys
    requires forall y {:trigger t.val[y]} :: y in w.val ==> w.val[y] <= t.val[y]
    ensures forall x {:trigger Complete(r, t.val, x)} :: x in t.marked ==> Complete(r, t.val, x)
  {
    hide Elements, Neighbours, Group, Transposed, IsScc, Entry;
    forall x {:trigger Complete(r, t.val, x)} | x in t.marked
      ensures Complete(r, t.val, x)
    {
      assert Complete(r, w.val, x);
      assert w.val[x] <= t.val[x];
    }
  }

  lemma MergeKeepsInv(c: Setting, r: Relation, w: Walk, x: nat, k: nat)
    requires IsSetting(c) && IsReachability(c.g, r) && Inv(c, r, w) && w.stack != []
    requires x in c.g && w.stack[|w.stack| - 1] == StackElm(x, k) && k < |c.todo[x]| && c.todo[x][k] in w.marked
    ensures Inv(c, r, Merge(c, w, x, k))
  {
    hide Elements, Neighbours, Group, Transposed, IsScc, IsReachability, Justified, Sound, Complete, Entry, MergedVal;
    var d := c.todo[x][k];
    var n := |w.stack| - 1;
    SoundKeys(c, r, w.val);
    var t := Merge(c, w, x, k);
    ElementsOf(c.todo[x], d);
    NeighbourFacts(c, r, x, d);
    MergeSound(c, r, w.val, x, d);
    MergeGrows(c, r, w.val, x, d);
    CompleteGrows(c, r, w, t);
    assert Entry(c, r, w, n);
    MergeJustified(c, r, w, x, k);
    StepKeepsTop(c, r, w, t, x, k);
    forall i {:trigger Entry(c, r, t, i)} | 0 <= i < |t.stack|
      ensures Entry(c, r, t, i)
    {
      if i < n {
        assert Entry(c, r, w, i);
        StepKeepsEntry(c, r, w, t, i);
      }
    }
  }

  lemma MergeJustified(c: Setting, r: Relation, w: Walk, x: nat, k: nat)
    requires IsSetting(c) && Inv(c, r, w) && w.stack != []
    requires x in c.g && k < |c.todo[x]| && c.todo[x][k] in w.marked
    ensures Justified(c, r, Merge(c, w, x, k), |w.stack| - 1, x, c.todo[x][k])
  {
    hide Elements, Neighbours, Group, Transposed, IsScc, Entry, Above, GroupAbove;
    var d := c.todo[x][k];
    assert Complete(r, w.val, d);
    assert Merge(c, w, x, k).val[x] == w.val[x] + w.val[d] + {x};
  }

  lemma DescendKeepsInv(c: Setting, r: Relation, w: Walk, x: nat, k: nat)
    requires IsSetting(c) && IsReachability(c.g, r) && Inv(c, r, w) && w.stack != []
    requires x in c.g && w.stack[|w.stack| - 1] == StackElm(x, k) && k < |c.todo[x]| && c.todo[x][k] !in w.marked
    ensures Inv(c, r, Descend(c, w, x, k))
  {
    hide Elements, Neighbours, Group, Transposed, IsScc, IsReachability, Sound, Complete, Entry;
    var d := c.todo[x][k];
    var n := |w.stack| - 1;
    var t := Descend(c, w, x, k);
    ElementsOf(c.todo[x], d);
    NeighbourFacts(c, r, x, d);
    assert Entry(c, r, w, n);
    AboveAt(t.stack, n, n + 1);
    SoundKeys(c, r, w.val);
    assert Justified(c, r, t, n, x, d);
    StepKeepsTop(c, r, w, t, x, k);
    FreshEntry(c, r, t, n + 1);
    forall i {:trigger Entry(c, r, t, i)} | 0 <= i < |t.stack|
      ensures Entry(c, r, t, i)
    {
      if i < n {
        assert Entry(c, r, w, i);
        StepKeepsEntry(c, r, w, t, i);
      }
    }
  }

  lemma SoundKeys(c: Setting, r: Relation, val: map<nat, set<nat>>)
    requires c.scc.Keys == c.g.Keys && Sound(c, r, val)
    ensures val.Keys == c.g.Keys
  {
  }

  // ---------- which nodes the walk gets to ----------

  ghost predicate OnStack(stack: seq<StackElm>, id: nat) {
    exists i :: 0 <= i < |stack| && stack[i].id == id
  }

  ghost predicate EntrySpread(c: Setting, w: Walk, i: nat)
    requires i < |w.stack|
  {
    var x := w.stack[i].id;
    && x in w.pushed && x in c.todo && w.stack[i].todoIndex <= |c.todo[x]|
    && Elements(c.todo[x][..w.stack[i].todoIndex]) <= w.pushed
  }

  ghost predicate MarkedSpread(c: Setting, w: Walk, x: nat) {
    x in c.todo && x in c.future && Elements(c.todo[x]) <= w.pushed && Elements(c.future[x]) <= w.pushed
  }

  /** near is closed under neighbours in both directions and under groups. */
  ghost predicate NearClosed(c: Setting, near: set<nat>)
    requires IsSetting(c)
  {
    && near <= c.g.Keys
    && forall x {:trigger x in near} :: x in near ==>
         Elements(c.todo[x]) <= near && Elements(c.future[x]) <= near && Group(c.scc, x) <= near
  }

  /** Pushed nodes stay within near and end up marked; marked nodes have all their neighbours pushed. */
  ghost predicate Spread(c: Setting, near: set<nat>, w: Walk) {
    && (forall i {:trigger EntrySpread(c, w, i)} :: 0 <= i < |w.stack| ==> EntrySpread(c, w, i))
    && (forall x {:trigger MarkedSpread(c, w, x)} :: x in w.marked ==> MarkedSpread(c, w, x))
    && (forall x {:trigger OnStack(w.stack, x)} :: x in w.pushed && x !in w.marked ==> OnStack(w.stack, x))
    && w.marked <= w.pushed <= near
    && (forall x {:trigger w.val[x]} :: x in w.val && x in c.scc && x !in near ==> w.val[x] == Group(c.scc, x))
  }

  lemma PopKeepsSpread(c: Setting, near: set<nat>, w: Walk)
    requires Spread(c, near, w) && w.stack != [] && w.stack[|w.stack| - 1].id in w.marked
    ensures Spread(c, near, Pop(w))
  {
    hide Elements, Group;
    var t := Pop(w);
    forall i {:trigger EntrySpread(c, t, i)} | 0 <= i < |t.stack|
      ensures EntrySpread(c, t, i)
    {
      assert EntrySpread(c, w, i);
    }
    forall x {:trigger MarkedSpread(c, t, x)} | x in t.marked
      ensures MarkedSpread(c, t, x)
    {
      assert MarkedSpread(c, w, x);
    }
    forall x {:trigger OnStack(t.stack, x)} | x in t.pushed && x !in t.marked
      ensures OnStack(t.stack, x)
    {
      OnStackStays(w.stack, t.stack, x);
    }
  }

  lemma OnStackStays(s: seq<StackElm>, t: seq<StackElm>, x: nat)
    requires s != [] && s[..|s| - 1] <= t && OnStack(s, x)
    ensures OnStack(t, x) || s[|s| - 1].id == x
  {
    var i :| 0 <= i < |s| && s[i].id == x;
    if i < |s| - 1 {
      assert t[i] == s[..|s| - 1][i];
    }
  }

  lemma OnStackAt(s: seq<StackElm>, i: nat)
    requires i < |s|
    ensures OnStack(s, s[i].id)
  {
  }

  lemma MarkKeepsSpread(c: Setting, near: set<nat>, w: Walk, x: nat)
    requires IsSetting(c) && NearClosed(c, near) && Spread(c, near, w) && w.stack != []
    requires x in c.g && w.stack[|w.stack| - 1] == StackElm(x, |c.todo[x]|)
    ensures Spread(c, near, Mark(c, w))
  {
    hide Elements, Group, Neighbours, Transposed, IsScc, OnStack;
    var n := |w.stack| - 1;
    var t := Mark(c, w);
    assert EntrySpread(c, w, n);
    assert c.todo[x][..|c.todo[x]|] == c.todo[x];
    assert x in near;
    forall i {:trigger EntrySpread(c, t, i)} | 0 <= i < |t.stack|
      ensures EntrySpread(c, t, i)
    {
      if i < n {
        assert EntrySpread(c, w, i);
        assert t.stack[i] == w.stack[i];
      } else {
        FreshSpread(c, t, i, i - n, x);
      }
    }
    forall y {:trigger MarkedSpread(c, t, y)} | y in t.marked
      ensures MarkedSpread(c, t, y)
    {
      if y != x {
        assert MarkedSpread(c, w, y);
      }
    }
    forall y {:trigger OnStack(t.stack, y)} | y in t.pushed && y !in t.marked
      ensures OnStack(t.stack, y)
    {
      if y in Elements(c.future[x]) {
        ElementsOf(c.future[x], y);
        var k :| 0 <= k < |c.future[x]| && c.future[x][k] == y;
        OnStackAt(t.stack, n + k);
      } else {
        OnStackStays(w.stack, t.stack, y);
      }
    }
  }

  lemma FreshSpread(c: Setting, t: Walk, i: nat, k: nat, x: nat)
    requires IsSetting(c) && x in c.g && k < |c.future[x]| && i < |t.stack| && t.stack[i] == StackElm(c.future[x][k], 0)
    requires Elements(c.future[x]) <= t.pushed
    ensures EntrySpread(c, t, i)
  {
    hide Neighbours, Transposed, IsScc;
    FutureInGraph(c, x, k);
    ElementsOf(c.future[x], c.future[x][k]);
    assert c.todo[c.future[x][k]][..0] == [];
  }

  /** One neighbour of the top entry is dealt with: it is pushed, now or before. */
  lemma StepKeepsSpread(c: Setting, near: set<nat>, w: Walk, t: Walk, x: nat, k: nat)
    requires IsSetting(c) && NearClosed(c, near) && Spread(c, near, w) && w.stack != []
    requires x in c.g && w.stack[|w.stack| - 1] == StackElm(x, k) && k < |c.todo[x]|
    requires var d := c.todo[x][k];
      var base := w.stack[..|w.stack| - 1] + [StackElm(x, k + 1)];
      t.marked == w.marked && t.pushed == w.pushed + {d}
      && ((d in w.marked && t.stack == base) || t.stack == base + [StackElm(d, 0)])
    requires forall y {:trigger t.val[y]} :: y in t.val && y in c.scc && y !in near ==> t.val[y] == Group(c.scc, y)
    ensures Spread(c, near, t)
  {
    hide Elements, Group, Neighbours, Transposed, IsScc, OnStack;
    var n := |w.stack| - 1;
    var d := c.todo[x][k];
    ElementsOf(c.todo[x], d);
    ElementsSnoc(c.todo[x], k);
    assert EntrySpread(c, w, n);
    assert x in near;
    forall i {:trigger EntrySpread(c, t, i)} | 0 <= i < |t.stack|
      ensures EntrySpread(c, t, i)
    {
      if i < n {
        assert EntrySpread(c, w, i);
        assert t.stack[i] == w.stack[i];
      } else if i == n + 1 {
        NeighbourInGraph(c, x, k);
        assert c.todo[d][..0] == [];
        assert Elements([]) == {} by { EmptyElements(); }
      }
    }
    forall y {:trigger MarkedSpread(c, t, y)} | y in t.marked
      ensures MarkedSpread(c, t, y)
    {
      assert MarkedSpread(c, w, y);
    }
    forall y {:trigger OnStack(t.stack, y)} | y in t.pushed && y !in t.marked
      ensures OnStack(t.stack, y)
    {
      if y == d {
        OnStackAt(t.stack, n + 1);
      } else {
        OnStackStays(w.stack, t.stack, y);
        OnStackAt(t.stack, n);
      }
    }
  }

  lemma NeighbourInGraph(c: Setting, x: nat, k: nat)
    requires IsSetting(c) && x in c.g && k < |c.todo[x]|
    ensures c.todo[x][k] in c.g
  {
    ElementsOf(c.todo[x], c.todo[x][k]);
    var y :| y in Group(c.scc, x) && c.todo[x][k] in c.g[y];
  }

  lemma MergeKeepsFar(c: Setting, near: set<nat>, w: Walk, x: nat, d: nat)
    requires IsSetting(c) && NearClosed(c, near) && Spread(c, near, w) && w.val.Keys == c.g.Keys
    requires x in near && d in c.g
    ensures var t := MergedVal(c.scc, w.val, x, d);
            forall y {:trigger t[y]} :: y in t && y in c.scc && y !in near ==> t[y] == Group(c.scc, y)
  {
    hide Elements, Neighbours, Transposed, IsScc, OnStack;
    var t := MergedVal(c.scc, w.val, x, d);
    forall y {:trigger t[y]} | y in t && y in c.scc && y !in near
      ensures t[y] == Group(c.scc, y)
    {
      assert y !in Group(c.scc, x);
      assert t[y] == w.val[y];
    }
  }

  // ---------- the end of the walk ----------

  /** The nodes of the weakly connected components that hold a start. */
  ghost function Near(c: Setting, starts: set<nat>): set<nat>
    requires c.g.Keys == c.h.Keys
  {
    set x | x in c.g && TouchedBy(c.g, c.h, starts, x)
  }

  lemma NearOfStarts(c: Setting, starts: set<nat>)
    requires IsSetting(c) && starts <= c.g.Keys
    ensures NearClosed(c, Near(c, starts)) && starts <= Near(c, starts)
  {
    hide Elements;
    forall x | x in starts
      ensures TouchedBy(c.g, c.h, starts, x)
    {
      ReachesRefl(Undirected(c.g, c.h), x);
    }
    forall x {:trigger x in Near(c, starts)} | x in Near(c, starts)
      ensures Elements(c.todo[x]) <= Near(c, starts) && Elements(c.future[x]) <= Near(c, starts)
      ensures Group(c.scc, x) <= Near(c, starts)
    {
      NearOfNode(c, starts, x);
    }
  }

  lemma NearOfNode(c: Setting, starts: set<nat>, x: nat)
    requires IsSetting(c) && x in Near(c, starts)
    ensures Group(c.scc, x) <= Near(c, starts)
    ensures Elements(c.todo[x]) <= Near(c, starts) && Elements(c.future[x]) <= Near(c, starts)
  {
    hide Elements;
    var near := Near(c, starts);
    forall y | y in Group(c.scc, x)
      ensures y in near
    {
      assert Mutual(c.g, x, y);
      ReachesLinked(c.g, c.h, x, y);
      LinkedNear(c, starts, x, y);
    }
    forall d | d in Elements(c.todo[x])
      ensures d in near
    {
      var y :| y in Group(c.scc, x) && d in c.g[y];
      ReachesEdge(Undirected(c.g, c.h), y, d);
      LinkedNear(c, starts, y, d);
    }
    forall d | d in Elements(c.future[x])
      ensures d in near
    {
      var y :| y in Group(c.scc, x) && d in c.h[y];
      ReachesEdge(Undirected(c.g, c.h), y, d);
      LinkedNear(c, starts, y, d);
    }
  }

  lemma LinkedNear(c: Setting, starts: set<nat>, x: nat, y: nat)
    requires IsSetting(c) && x in Near(c, starts) && y in c.g && Linked(c.g, c.h, x, y)
    ensures y in Near(c, starts)
  {
    var s :| s in starts && Linked(c.g, c.h, s, x);
    ReachesTrans(Undirected(c.g, c.h), s, x, y);
  }

  /** A finished walk has a marked node in every group of every component that holds a start. */
  lemma GroupHasMarked(c: Setting, near: set<nat>, w: Walk, s: nat, x: nat) returns (z: nat)
    requires IsSetting(c) && NearClosed(c, near) && Spread(c, near, w) && w.stack == []
    requires s in w.marked && x in c.g && Linked(c.g, c.h, s, x)
    ensures z in w.marked && z in c.g && c.scc[z] == c.scc[x]
  {
    hide Elements, Neighbours, Group, IsScc, EntrySpread;
    var reached := set y, z | y in c.g && z in w.marked && z in c.g && c.scc[z] == c.scc[y] :: y;
    forall v, d | v in reached && d in Succ(Undirected(c.g, c.h), v)
      ensures d in reached
    {
      var m :| m in w.marked && m in c.g && c.scc[m] == c.scc[v];
      GroupSpreads(c, near, w, m, v, d);
    }
    ReachesStaysIn(Undirected(c.g, c.h), reached, s, x);
    z :| z in w.marked && z in c.g && c.scc[z] == c.scc[x];
  }

  lemma GroupSpreads(c: Setting, near: set<nat>, w: Walk, m: nat, v: nat, d: nat)
    requires IsSetting(c) && Spread(c, near, w) && w.stack == []
    requires m in w.marked && m in c.g && v in c.g && c.scc[m] == c.scc[v] && d in c.g[v] + c.h[v]
    ensures d in c.g && exists z :: z in w.marked && z in c.g && c.scc[z] == c.scc[d]
  {
    hide Elements, IsScc, EntrySpread;
    assert MarkedSpread(c, w, m);
    assert v in Group(c.scc, m);
    if c.scc[d] != c.scc[m] {
      assert d in Neighbours(c.scc, c.g, m) || d in Neighbours(c.scc, c.h, m);
      assert d in w.pushed;
      assert d in w.marked || OnStack(w.stack, d);
    }
  }

  /** What buildCache leaves for a node: all it reaches if its component was touched, else only its own group. */
  ghost function Cached(g: Graph, h: Graph, starts: set<nat>, x: nat): set<nat>
    requires Closed(g) && g.Keys == h.Keys && x in g
  {
    if TouchedBy(g, h, starts, x) then ReachSet(g, x) else Component(g, x)
  }

  lemma WalkExact(c: Setting, r: Relation, w: Walk, starts: set<nat>, x: nat)
    requires IsSetting(c) && IsReachability(c.g, r) && Inv(c, r, w)
    requires starts <= c.g.Keys && Spread(c, Near(c, starts), w) && w.stack == [] && starts <= w.marked && x in c.g
    ensures x in w.val && w.val[x] == Cached(c.g, c.h, starts, x)
  {
    hide Elements, Neighbours, EntrySpread, Transposed, IsScc, MarkedSpread, Linked, Group;
    if TouchedBy(c.g, c.h, starts, x) {
      var s :| s in starts && Linked(c.g, c.h, s, x);
      WalkReaches(c, r, w, starts, s, x);
    } else {
      assert w.val[x] == Group(c.scc, x);
      GroupIsComponent(c, x);
    }
  }

  lemma WalkReaches(c: Setting, r: Relation, w: Walk, starts: set<nat>, s: nat, x: nat)
    requires IsSetting(c) && IsReachability(c.g, r) && Inv(c, r, w)
    requires starts <= c.g.Keys && Spread(c, Near(c, starts), w) && w.stack == [] && s in w.marked
    requires x in c.g && s in starts && Linked(c.g, c.h, s, x)
    ensures x in w.val && w.val[x] == ReachSet(c.g, x)
  {
    hide Elements, Neighbours, EntrySpread, Transposed, IsScc, MarkedSpread, Linked, Near, Spread, NearClosed;
    NearOfStarts(c, starts);
    var z := GroupHasMarked(c, Near(c, starts), w, s, x);
    assert Complete(r, w.val, z);
    CompleteShared(c, r, w.val, z, x);
    CompleteIsReachSet(c, r, w.val, x);
  }

  lemma GroupIsComponent(c: Setting, x: nat)
    requires IsSetting(c) && x in c.g
    ensures Group(c.scc, x) == Component(c.g, x)
  {
  }

  lemma CompleteIsReachSet(c: Setting, r: Relation, val: map<nat, set<nat>>, x: nat)
    requires IsSetting(c) && IsReachability(c.g, r) && Sound(c, r, val) && x in c.g && Complete(r, val, x)
    ensures val[x] == ReachSet(c.g, x)
  {
    hide Elements, Neighbours, Transposed, IsScc;
    forall y
      ensures y in val[x] <==> y in ReachSet(c.g, x)
    {
      if y in val[x] {
        RelationNodes(c.g, r, x, y);
      }
      if y in ReachSet(c.g, x) {
        assert (x, y) in r;
      }
    }
  }

  // ---------- termination ----------

  /** The nodes the top entry reaches. */
  ghost function Below(c: Setting, r: Relation, w: Walk): set<nat> {
    if w.stack == [] then {} else set y | y in c.g && (w.stack[|w.stack| - 1].id, y) in r
  }

  /** Positive only while the next step pops. */
  ghost function PopRank(w: Walk): nat {
    if w.stack != [] && w.stack[|w.stack| - 1].id in w.marked then |w.stack| else 0
  }

  ghost function Remaining(c: Setting, w: Walk): int {
    if w.stack != [] && w.stack[|w.stack| - 1].id in c.todo
    then |c.todo[w.stack[|w.stack| - 1].id]| - w.stack[|w.stack| - 1].todoIndex else 0
  }

  lemma DescendShrinks(c: Setting, r: Relation, w: Walk, x: nat, k: nat)
    requires IsSetting(c) && IsReachability(c.g, r) && w.stack != []
    requires x in c.g && w.stack[|w.stack| - 1] == StackElm(x, k) && k < |c.todo[x]|
    ensures Below(c, r, Descend(c, w, x, k)) < Below(c, r, w)
  {
    hide Neighbours, Group, Transposed, IsScc;
    var d := c.todo[x][k];
    ElementsOf(c.todo[x], d);
    NeighbourFacts(c, r, x, d);
    forall y | y in c.g && (d, y) in r
      ensures (x, y) in r
    {
      RelationTrans(c.g, r, x, d, y);
    }
    RelationRefl(c.g, r, x);
    assert x in Below(c, r, w) && x !in Below(c, r, Descend(c, w, x, k));
  }

  /** Both halves of the walk's invariant. */
  ghost predicate Good(c: Setting, r: Relation, near: set<nat>, w: Walk)
    requires IsSetting(c)
  {
    Inv(c, r, w) && Spread(c, near, w)
  }

  /** t follows w in the order that ends the walk, and nothing marked or pushed is forgotten. */
  ghost predicate Progress(c: Setting, r: Relation, w: Walk, t: Walk) {
    && w.marked <= t.marked <= c.g.Keys && w.pushed <= t.pushed
    && (|| c.g.Keys - t.marked < c.g.Keys - w.marked
        || (t.marked == w.marked && PopRank(t) < PopRank(w))
        || (t.marked == w.marked && PopRank(t) == PopRank(w) && Below(c, r, t) < Below(c, r, w))
        || (t.marked == w.marked && PopRank(t) == PopRank(w) && Below(c, r, t) == Below(c, r, w)
            && 0 <= Remaining(c, t) < Remaining(c, w)))
  }

  ghost function Start(w: Walk, s: nat): Walk {
    w.(stack := [StackElm(s, 0)], pushed := w.pushed + {s})
  }

  lemma StartGood(c: Setting, r: Relation, near: set<nat>, w: Walk, s: nat)
    requires IsSetting(c) && Good(c, r, near, w) && w.stack == [] && s in near && s in c.g
    ensures Good(c, r, near, Start(w, s))
  {
    hide Neighbours, Transposed, IsScc, Group, Complete, Elements, Entry;
    var t := Start(w, s);
    SoundKeys(c, r, w.val);
    FreshEntry(c, r, t, 0);
    assert c.todo[s][..0] == [];
    EmptyElements();
    OnStackAt(t.stack, 0);
    forall x {:trigger MarkedSpread(c, t, x)} | x in t.marked
      ensures MarkedSpread(c, t, x)
    {
      assert MarkedSpread(c, w, x);
    }
    forall x {:trigger OnStack(t.stack, x)} | x in t.pushed && x !in t.marked
      ensures OnStack(t.stack, x)
    {
      assert x == s || OnStack(w.stack, x);
    }
  }

  lemma PopGood(c: Setting, r: Relation, near: set<nat>, w: Walk)
    requires IsSetting(c) && IsReachability(c.g, r) && Good(c, r, near, w) && w.stack != []
    requires w.stack[|w.stack| - 1].id in w.marked
    ensures Good(c, r, near, Pop(w)) && Progress(c, r, w, Pop(w))
  {
    hide Neighbours, Transposed, IsScc, Group, Elements, Entry, EntrySpread, OnStack, Complete, MarkedSpread, Spread,
      IsReachability;
    PopKeepsInv(c, r, w);
    PopKeepsSpread(c, near, w);
  }

  lemma MarkGood(c: Setting, r: Relation, near: set<nat>, w: Walk, x: nat)
    requires IsSetting(c) && IsReachability(c.g, r) && NearClosed(c, near) && Good(c, r, near, w) && w.stack != []
    requires x in c.g && x !in w.marked && w.stack[|w.stack| - 1] == StackElm(x, |c.todo[x]|)
    ensures Good(c, r, near, Mark(c, w)) && Progress(c, r, w, Mark(c, w))
  {
    hide Neighbours, Transposed, IsScc, Group, Elements, Entry, EntrySpread, OnStack, Complete, MarkedSpread, Spread,
      IsReachability;
    MarkKeepsInv(c, r, w, x);
    MarkKeepsSpread(c, near, w, x);
    assert x in c.g.Keys - w.marked && x !in c.g.Keys - Mark(c, w).marked;
  }

  lemma TopInNear(c: Setting, near: set<nat>, w: Walk, x: nat, k: nat)
    requires Spread(c, near, w) && w.stack != [] && w.stack[|w.stack| - 1] == StackElm(x, k)
    ensures x in w.pushed && x in near && x in c.todo
  {
    assert EntrySpread(c, w, |w.stack| - 1);
  }

  lemma MergeGood(c: Setting, r: Relation, near: set<nat>, w: Walk, x: nat, k: nat)
    requires IsSetting(c) && IsReachability(c.g, r) && NearClosed(c, near) && Good(c, r, near, w) && w.stack != []
    requires x in c.g && x !in w.marked && w.stack[|w.stack| - 1] == StackElm(x, k) && k < |c.todo[x]|
             && c.todo[x][k] in w.marked
    ensures x in w.val && c.todo[x][k] in w.val && w.val.Keys <= c.scc.Keys
    ensures Good(c, r, near, Merge(c, w, x, k)) && Progress(c, r, w, Merge(c, w, x, k))
  {
    hide Neighbours, Transposed, IsScc, Group, Elements, Entry, EntrySpread, OnStack, Complete, MarkedSpread,
      IsReachability, MergedVal;
    var d := c.todo[x][k];
    SoundKeys(c, r, w.val);
    TopInNear(c, near, w, x, k);
    var t := Merge(c, w, x, k);
    MergeKeepsInv(c, r, w, x, k);
    MergeKeepsFar(c, near, w, x, d);
    assert w.pushed + {d} == w.pushed;
    StepKeepsSpread(c, near, w, t, x, k);
  }

  lemma DescendGood(c: Setting, r: Relation, near: set<nat>, w: Walk, x: nat, k: nat)
    requires IsSetting(c) && IsReachability(c.g, r) && NearClosed(c, near) && Good(c, r, near, w) && w.stack != []
    requires x in c.g && x !in w.marked && w.stack[|w.stack| - 1] == StackElm(x, k) && k < |c.todo[x]|
             && c.todo[x][k] !in w.marked
    ensures Good(c, r, near, Descend(c, w, x, k)) && Progress(c, r, w, Descend(c, w, x, k))
  {
    hide Neighbours, Transposed, IsScc, Group, Elements, Entry, EntrySpread, OnStack, Complete, MarkedSpread,
      IsReachability, Below;
    var t := Descend(c, w, x, k);
    TopInNear(c, near, w, x, k);
    DescendKeepsInv(c, r, w, x, k);
    StepKeepsSpread(c, near, w, t, x, k);
    DescendShrinks(c, r, w, x, k);
  }
}
