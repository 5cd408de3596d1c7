/**
 addCyclesToBindMap and buildCache: the sets kept for the groups of strongly connected nodes, and the stack walk
 that completes them.

 The bitmaps of allNodes are given as two graphs, Children and Parents.
 */
module CacheBuilder {
  import opened Results
  import opened Bitmaps
  import opened BindMap
  import opened Graphs
  import opened CacheWalk

  /** The keys gathered per group, from the nodes of `done`. */
  ghost predicate Collected(scc: map<nat, nat>, done: set<nat>, parentToKeys: map<nat, seq<nat>>) {
    && done <= scc.Keys
    && (forall v :: v in parentToKeys ==> parentToKeys[v] != [])
    && (forall v, k :: v in parentToKeys && k in parentToKeys[v] ==> k in done && scc[k] == v)
    && (forall k :: k in done ==> scc[k] in parentToKeys && k in parentToKeys[scc[k]])
  }

  /** Every node of the groups in `bound` is bound to its group's slot, which holds val of the node. */
  ghost predicate Bound(km: NativeKeyManagement, scc: map<nat, nat>, p: map<nat, seq<nat>>, bound: set<nat>,
                        val: map<nat, set<nat>>)
    reads km
    requires val.Keys == scc.Keys
  {
    && (forall x {:trigger x in km.keyMap} :: x in km.keyMap <==> x in scc && scc[x] in bound)
    && (forall x {:trigger km.keyMap[x]} :: x in km.keyMap ==>
          scc[x] in p && km.keyMap[x] == Shared(p[scc[x]]) && km.keyMap[x] in km.data
            && km.data[km.keyMap[x]] == val[x])
  }

  method CollectKeys(scc: map<nat, nat>) returns (parentToKeys: map<nat, seq<nat>>)
    ensures Collected(scc, scc.Keys, parentToKeys)
  {
    parentToKeys := map[];
    var rest := scc.Keys;
    while rest != {}
      decreases rest
      invariant rest <= scc.Keys && Collected(scc, scc.Keys - rest, parentToKeys)
    {
      var k :| k in rest;
      var v := scc[k];
      ghost var before := parentToKeys;
      parentToKeys := parentToKeys[v := (if v in parentToKeys then parentToKeys[v] else []) + [k]];
      assert forall u :: u in before && u != v ==> parentToKeys[u] == before[u];
      rest := rest - {k};
    }
  }

  function Members(keys: seq<nat>): set<nat> {
    set k | k in keys
  }

  /** The loop over one group's keys. */
  method GroupSets(keys: seq<nat>, g: Graph, h: Graph)
      returns (keycache: set<nat>, childrenCache: set<nat>, parentCache: set<nat>)
    requires forall k :: k in keys ==> k in g && k in h
    ensures keycache == Members(keys)
    ensures childrenCache == OutOf(g, keycache) - keycache
    ensures parentCache == OutOf(h, keycache) - keycache
  {
    keycache, childrenCache, parentCache := {}, {}, {};
    for i := 0 to |keys|
      invariant keycache == Members(keys[..i])
      invariant childrenCache == OutOf(g, keycache)
      invariant parentCache == OutOf(h, keycache)
    {
      childrenCache := childrenCache + g[keys[i]];
      parentCache := parentCache + h[keys[i]];
      keycache := keycache + {keys[i]};
    }
    assert keys[..|keys|] == keys;
    childrenCache := childrenCache - keycache;
    parentCache := parentCache - keycache;
  }

  /** Binding one more group and setting its value. */
  method BindGroup(km: NativeKeyManagement, scc: map<nat, nat>, p: map<nat, seq<nat>>, ghost bound: set<nat>,
                   ghost val: map<nat, set<nat>>, v: nat, value: set<nat>)
    requires Collected(scc, scc.Keys, p) && v in p && v !in bound && val.Keys == scc.Keys
    requires Bound(km, scc, p, bound, val) && forall x :: x in p[v] ==> val[x] == value
    modifies km
    ensures Bound(km, scc, p, bound + {v}, val)
  {
    var keys := p[v];
    var hashKey := km.BindKeys(keys);
    assert km.Slot(keys[0]) == hashKey;
    km.Set(keys[0], value);
    forall x | x in km.keyMap && x !in keys
      ensures km.keyMap[x] != hashKey
    {
      DistinctLists(scc, p, scc[x], v);
    }
  }

  lemma DistinctLists(scc: map<nat, nat>, p: map<nat, seq<nat>>, u: nat, v: nat)
    requires Collected(scc, scc.Keys, p) && u in p && v in p && u != v
    ensures p[u] != p[v]
  {
    assert scc[p[u][0]] == u && scc[p[v][0]] == v by {
      assert p[u][0] in p[u] && p[v][0] in p[v];
    }
  }

  ghost function Groups(scc: map<nat, nat>): map<nat, set<nat>> {
    map x | x in scc :: Group(scc, x)
  }

  ghost function NeighbourSets(scc: map<nat, nat>, g: Graph): map<nat, set<nat>>
    requires scc.Keys <= g.Keys
  {
    map x | x in scc :: Neighbours(scc, g, x)
  }

  /** Each node is bound to the slot of its group, and that slot holds val of the node. */
  ghost predicate Grouped(km: NativeKeyManagement, scc: map<nat, nat>, val: map<nat, set<nat>>)
    reads km
  {
    && km.keyMap.Keys == scc.Keys && val.Keys == scc.Keys
    && (forall x {:trigger km.keyMap[x]} :: x in scc ==> km.keyMap[x] in km.data && km.data[km.keyMap[x]] == val[x])
    && (forall x, y {:trigger km.keyMap[x], km.keyMap[y]} ::
         x in scc && y in scc ==> (km.keyMap[x] == km.keyMap[y] <==> scc[x] == scc[y]))
  }

  method AddCyclesToBindMap(scc: map<nat, nat>, cache: NativeKeyManagement, children: NativeKeyManagement,
                            parents: NativeKeyManagement, g: Graph, h: Graph)
    requires cache != children && cache != parents && children != parents
    requires cache.keyMap == map[] && children.keyMap == map[] && parents.keyMap == map[]
    requires scc.Keys <= g.Keys && scc.Keys <= h.Keys
    modifies cache, children, parents
    ensures Grouped(cache, scc, Groups(scc))
    ensures Grouped(children, scc, NeighbourSets(scc, g)) && Grouped(parents, scc, NeighbourSets(scc, h))
  {
    hide Bound, Collected, OutOf, Group, Members, Neighbours;
    var parentToKeys := CollectKeys(scc);
    NoneBound(cache, scc, parentToKeys, Groups(scc));
    NoneBound(children, scc, parentToKeys, NeighbourSets(scc, g));
    NoneBound(parents, scc, parentToKeys, NeighbourSets(scc, h));
    var rest := parentToKeys.Keys;
    ghost var bound: set<nat> := {};
    ghost var cv, hv, pv := Groups(scc), NeighbourSets(scc, g), NeighbourSets(scc, h);
    while rest != {}
      decreases rest
      invariant rest <= parentToKeys.Keys && bound == parentToKeys.Keys - rest
      invariant Bound(cache, scc, parentToKeys, bound, cv)
      invariant Bound(children, scc, parentToKeys, bound, hv) && Bound(parents, scc, parentToKeys, bound, pv)
    {
      var v :| v in rest;
      var keysForAParent := parentToKeys[v];
      KeysAreGroup(scc, parentToKeys, g, h, v);
      var keycache, childrenCache, parentCache := GroupSets(keysForAParent, g, h);
      BindGroup(cache, scc, parentToKeys, bound, cv, v, keycache);
      BindGroup(children, scc, parentToKeys, bound, hv, v, childrenCache);
      BindGroup(parents, scc, parentToKeys, bound, pv, v, parentCache);
      bound, rest := bound + {v}, rest - {v};
    }
    assert bound == parentToKeys.Keys;
    AllGrouped(cache, scc, parentToKeys, cv);
    AllGrouped(children, scc, parentToKeys, hv);
    AllGrouped(parents, scc, parentToKeys, pv);
  }

  lemma NoneBound(km: NativeKeyManagement, scc: map<nat, nat>, p: map<nat, seq<nat>>, val: map<nat, set<nat>>)
    requires val.Keys == scc.Keys && km.keyMap == map[]
    ensures Bound(km, scc, p, {}, val)
  {
  }

  lemma KeysAreGroup(scc: map<nat, nat>, p: map<nat, seq<nat>>, g: Graph, h: Graph, v: nat)
    requires Collected(scc, scc.Keys, p) && v in p && scc.Keys <= g.Keys && scc.Keys <= h.Keys
    ensures p[v] != [] && forall x :: x in p[v] ==> x in g && x in h && x in scc
    ensures var all := Members(p[v]);
            forall x :: x in p[v] ==>
              && Groups(scc)[x] == all
              && NeighbourSets(scc, g)[x] == OutOf(g, all) - all
              && NeighbourSets(scc, h)[x] == OutOf(h, all) - all
  {
    var all := Members(p[v]);
    forall x | x in p[v]
      ensures Group(scc, x) == all
    {
    }
  }

  lemma AllGrouped(km: NativeKeyManagement, scc: map<nat, nat>, p: map<nat, seq<nat>>, val: map<nat, set<nat>>)
    requires Collected(scc, scc.Keys, p) && val.Keys == scc.Keys && Bound(km, scc, p, p.Keys, val)
    ensures Grouped(km, scc, val)
  {
    forall x, y | x in scc && y in scc
      ensures km.keyMap[x] == km.keyMap[y] <==> scc[x] == scc[y]
    {
      if scc[x] != scc[y] {
        DistinctLists(scc, p, scc[x], scc[y]);
      }
    }
  }

  /** addToCache: the group of curElem gains the set kept for todoElem. */
  method AddToCache(bm: NativeKeyManagement, curElem: nat, todoElem: nat, ghost scc: map<nat, nat>,
                    ghost val: map<nat, set<nat>>)
    requires Grouped(bm, scc, val) && curElem in scc && todoElem in scc
    modifies bm
    ensures Grouped(bm, scc, MergedVal(scc, val, curElem, todoElem))
  {
    var curElemVal := bm.Get(curElem);
    var todoVal := bm.Get(todoElem);
    bm.Set(curElem, curElemVal.value + todoVal.value + {curElem});
  }

  datatype Direction = ChildrenDirection | ParentsDirection

  /** The edges followed in a direction, and the same edges from the other end. */
  function Along(direction: Direction, children: Graph, parents: Graph): Graph {
    if direction == ChildrenDirection then children else parents
  }

  function Against(direction: Direction, children: Graph, parents: Graph): Graph {
    if direction == ChildrenDirection then parents else children
  }

  ghost function TheSetting(direction: Direction, children: Graph, parents: Graph, scc: map<nat, nat>): Setting
    requires scc.Keys <= children.Keys && children.Keys == parents.Keys
  {
    var g, h := Along(direction, children, parents), Against(direction, children, parents);
    Setting(g, h, scc, map x | x in g && x in scc :: ToArray(Neighbours(scc, g, x)),
            map x | x in g && x in scc :: ToArray(Neighbours(scc, h, x)))
  }

  lemma SccEitherWay(direction: Direction, children: Graph, parents: Graph, scc: map<nat, nat>)
    requires Transposed(children, parents) && IsScc(children, scc)
    ensures var g, h := Along(direction, children, parents), Against(direction, children, parents);
            Transposed(g, h) && IsScc(g, scc)
  {
    hide Mutual;
    forall x, y | x in children && y in children
      ensures Mutual(parents, x, y) <==> Mutual(children, x, y)
    {
      TransposedMutual(children, parents, x, y);
    }
  }

  lemma SccShape(g: Graph, h: Graph, scc: map<nat, nat>)
    requires Transposed(g, h) && IsScc(g, scc)
    ensures g.Keys == h.Keys == scc.Keys
  {
  }

  lemma TheSettingFits(direction: Direction, children: Graph, parents: Graph, scc: map<nat, nat>)
    requires Transposed(children, parents) && IsScc(children, scc)
    ensures IsSetting(TheSetting(direction, children, parents, scc))
  {
    hide Mutual, ToArray, Elements, Neighbours, IsScc, Transposed, Along, Against, Closed;
    SccEitherWay(direction, children, parents, scc);
    SccShape(children, parents, scc);
    SccShape(Along(direction, children, parents), Against(direction, children, parents), scc);
    var c := TheSetting(direction, children, parents, scc);
    forall x | x in c.g
      ensures Elements(c.todo[x]) == Neighbours(scc, c.g, x) && Elements(c.future[x]) == Neighbours(scc, c.h, x)
    {
      ElementsOfArray(Neighbours(scc, c.g, x));
      ElementsOfArray(Neighbours(scc, c.h, x));
    }
  }

  lemma SettingAt(direction: Direction, g: Graph, h: Graph, scc: map<nat, nat>, x: nat)
    requires scc.Keys == g.Keys == h.Keys && x in g
    ensures var c := TheSetting(direction, g, h, scc);
            && x in c.todo && x in c.future && c.scc == scc && c.g.Keys == c.h.Keys == scc.Keys
            && c.todo[x] == ToArray(NeighbourSets(scc, Along(direction, g, h))[x])
            && c.future[x] == ToArray(NeighbourSets(scc, Against(direction, g, h))[x])
  {
    hide Neighbours, Group, ToArray;
  }

  /** The memo of getTodoAndFutureNodesCached holds what getTodoAndFutureNodes would return. */
  ghost predicate MemoFits(c: Setting, memo: map<nat, (seq<nat>, seq<nat>)>) {
    forall x {:trigger memo[x]} :: x in memo ==> x in c.todo && x in c.future && memo[x] == (c.todo[x], c.future[x])
  }

  lemma EmptyMemo(c: Setting)
    ensures MemoFits(c, map[])
  {
  }

  lemma MemoGrows(c: Setting, memo: map<nat, (seq<nat>, seq<nat>)>, x: nat)
    requires MemoFits(c, memo) && x in c.todo && x in c.future
    ensures x in memo ==> memo[x] == (c.todo[x], c.future[x])
    ensures MemoFits(c, memo[x := (c.todo[x], c.future[x])])
  {
  }

  method GetTodoAndFutureNodes(children: NativeKeyManagement, parents: NativeKeyManagement, curNode: nat,
                               direction: Direction)
      returns (todoNodes: seq<nat>, futureNodes: seq<nat>)
    requires curNode in children.keyMap && curNode in parents.keyMap
    ensures children.Lookup(curNode).Ok? && parents.Lookup(curNode).Ok?
    ensures var (out, back) := if direction == ChildrenDirection then (children, parents) else (parents, children);
            todoNodes == ToArray(out.Lookup(curNode).value) && futureNodes == ToArray(back.Lookup(curNode).value)
  {
    if direction == ChildrenDirection {
      var t := children.Get(curNode);
      var f := parents.Get(curNode);
      todoNodes, futureNodes := ToArray(t.value), ToArray(f.value);
    } else {
      var t := parents.Get(curNode);
      var f := children.Get(curNode);
      todoNodes, futureNodes := ToArray(t.value), ToArray(f.value);
    }
  }

  method GetTodoAndFutureNodesCached(children: NativeKeyManagement, parents: NativeKeyManagement, curNode: nat,
                                     direction: Direction,
                                     memo: map<nat, (seq<nat>, seq<nat>)>, ghost g: Graph, ghost h: Graph,
                                     ghost scc: map<nat, nat>)
      returns (todoNodes: seq<nat>, futureNodes: seq<nat>, memo1: map<nat, (seq<nat>, seq<nat>)>)
    requires scc.Keys == g.Keys == h.Keys && curNode in g
    requires Grouped(children, scc, NeighbourSets(scc, g)) && Grouped(parents, scc, NeighbourSets(scc, h))
    requires MemoFits(TheSetting(direction, g, h, scc), memo)
    ensures var c := TheSetting(direction, g, h, scc);
            todoNodes == c.todo[curNode] && futureNodes == c.future[curNode] && MemoFits(c, memo1)
  {
    hide Neighbours, Group, OutOf, TheSetting, ToArray, MemoFits;
    ghost var c := TheSetting(direction, g, h, scc);
    SettingAt(direction, g, h, scc, curNode);
    MemoGrows(c, memo, curNode);
    if curNode in memo {
      return memo[curNode].0, memo[curNode].1, memo;
    }
    todoNodes, futureNodes := GetTodoAndFutureNodes(children, parents, curNode, direction);
    memo1 := memo[curNode := (todoNodes, futureNodes)];
  }

  /** One round of the inner loop of buildCache. */
  method WalkStep(stack: seq<StackElm>, alreadyCached: set<nat>, memo: map<nat, (seq<nat>, seq<nat>)>,
                  direction: Direction,
                  scc: map<nat, nat>, cache: NativeKeyManagement, children: NativeKeyManagement,
                  parents: NativeKeyManagement,
                  ghost g: Graph, ghost h: Graph, ghost c: Setting, ghost r: Relation, ghost near: set<nat>,
                  ghost w: Walk)
      returns (stack1: seq<StackElm>, alreadyCached1: set<nat>, memo1: map<nat, (seq<nat>, seq<nat>)>, ghost t: Walk)
    requires scc.Keys == g.Keys == h.Keys && c == TheSetting(direction, g, h, scc) && c.scc == scc && c.g.Keys == g.Keys
    requires IsSetting(c) && IsReachability(c.g, r) && NearClosed(c, near) && Good(c, r, near, w)
    requires w.stack == stack && stack != [] && w.marked == alreadyCached && MemoFits(c, memo)
    requires cache != children && cache != parents && Grouped(cache, scc, w.val)
    requires Grouped(children, scc, NeighbourSets(scc, g)) && Grouped(parents, scc, NeighbourSets(scc, h))
    modifies cache
    ensures Good(c, r, near, t) && t.stack == stack1 && t.marked == alreadyCached1 && MemoFits(c, memo1)
    ensures Grouped(cache, scc, t.val) && Progress(c, r, w, t)
  {
    hide Good, Progress, NearClosed, IsReachability, Transposed, IsScc, Elements, Neighbours, Group, OutOf, MemoFits,
      Grouped, TheSetting, MergedVal, NeighbourSets;
    var todoIndex := stack[|stack| - 1].todoIndex;
    var curNode := stack[|stack| - 1].id;
    TopFacts(c, r, near, w);
    if curNode in alreadyCached {
      PopGood(c, r, near, w);
      return stack[..|stack| - 1], alreadyCached, memo, Pop(w);
    }
    var todoNodes, futureNodes;
    todoNodes, futureNodes, memo1 :=
      GetTodoAndFutureNodesCached(children, parents, curNode, direction, memo, g, h, scc);
    if todoIndex == |todoNodes| {
      MarkGood(c, r, near, w, curNode);
      return stack[..|stack| - 1] + Fresh(futureNodes), alreadyCached + {curNode}, memo1, Mark(c, w);
    }
    var d := todoNodes[todoIndex];
    NeighbourInOtherGroup(c, r, curNode, todoIndex);
    if scc[curNode] != scc[d] {
      stack1 := stack[..|stack| - 1] + [StackElm(curNode, todoIndex + 1)];
      if d in alreadyCached {
        MergeGood(c, r, near, w, curNode, todoIndex);
        AddToCache(cache, curNode, d, scc, w.val);
        return stack1, alreadyCached, memo1, Merge(c, w, curNode, todoIndex);
      } else {
        DescendGood(c, r, near, w, curNode, todoIndex);
        return stack1 + [StackElm(d, 0)], alreadyCached, memo1, Descend(c, w, curNode, todoIndex);
      }
    }
    assert false;
  }

  lemma TopFacts(c: Setting, r: Relation, near: set<nat>, w: Walk)
    requires IsSetting(c) && Good(c, r, near, w) && w.stack != []
    ensures var e := w.stack[|w.stack| - 1]; e.id in c.g && e.todoIndex <= |c.todo[e.id]|
  {
    assert Entry(c, r, w, |w.stack| - 1);
  }

  lemma NeighbourInOtherGroup(c: Setting, r: Relation, x: nat, k: nat)
    requires IsSetting(c) && IsReachability(c.g, r) && x in c.g && k < |c.todo[x]|
    ensures c.todo[x][k] in c.g && c.scc[c.todo[x][k]] != c.scc[x]
  {
    hide Neighbours, Group, Transposed, IsScc;
    ElementsOf(c.todo[x], c.todo[x][k]);
    NeighbourFacts(c, r, x, c.todo[x][k]);
  }

  lemma SameNodes(g: Graph, h: Graph, scc: map<nat, nat>)
    requires Transposed(g, h) && IsScc(g, scc)
    ensures scc.Keys == g.Keys == h.Keys && Closed(g) && Closed(h)
  {
  }

  lemma WalkBegins(direction: Direction, g: Graph, h: Graph, scc: map<nat, nat>, starts: set<nat>) returns (r: Relation)
    requires Transposed(g, h) && IsScc(g, scc) && starts <= g.Keys
    ensures var c := TheSetting(direction, g, h, scc);
            && IsSetting(c) && c.scc == scc && c.g == Along(direction, g, h) && c.h == Against(direction, g, h)
            && c.g.Keys == c.h.Keys && IsReachability(c.g, r) && starts <= Near(c, starts)
            && NearClosed(c, Near(c, starts)) && Good(c, r, Near(c, starts), Walk([], {}, Groups(scc), {}))
  {
    hide NearClosed, Elements, Neighbours, ToArray, TouchedBy;
    var c := TheSetting(direction, g, h, scc);
    r := ReachabilityExists(c.g);
    TheSettingFits(direction, g, h, scc);
    NearOfStarts(c, starts);
    GroupsSound(c, r);
  }

  lemma GroupsSound(c: Setting, r: Relation)
    requires IsSetting(c) && IsReachability(c.g, r)
    ensures Sound(c, r, Groups(c.scc))
  {
    hide Elements, Neighbours, Transposed, IsReachability;
    var val := Groups(c.scc);
    forall x, y {:trigger y in val[x]} | x in c.g && y in val[x]
      ensures (x, y) in r
    {
      assert Mutual(c.g, x, y);
      GroupPair(c, r, x, y);
    }
  }

  lemma GroupPair(c: Setting, r: Relation, x: nat, y: nat)
    requires IsReachability(c.g, r) && x in c.g && y in c.g && Mutual(c.g, x, y)
    ensures (x, y) in r
  {
  }

  lemma PushedIsMarked(c: Setting, r: Relation, near: set<nat>, w: Walk, s: nat)
    requires IsSetting(c) && Good(c, r, near, w) && w.stack == [] && s in w.pushed
    ensures s in w.marked
  {
    assert s in w.marked || OnStack(w.stack, s);
  }

  /** What the cache answers for one node once the walk is over. */
  ghost predicate AnswersFor(cache: NativeKeyManagement, g: Graph, h: Graph, starts: set<nat>, x: nat)
    requires Closed(g) && g.Keys == h.Keys && x in g
    reads cache
  {
    && x in cache.keyMap && cache.keyMap[x] in cache.data
    && cache.Lookup(x) == Ok(Cached(g, h, starts, x))
  }

  lemma WalkAnswers(c: Setting, r: Relation, w: Walk, starts: set<nat>, cache: NativeKeyManagement)
    requires IsSetting(c) && IsReachability(c.g, r) && starts <= c.g.Keys && Good(c, r, Near(c, starts), w)
    requires w.stack == [] && starts <= w.marked && Grouped(cache, c.scc, w.val)
    ensures cache.keyMap.Keys == c.g.Keys
    ensures forall x :: x in c.g ==> AnswersFor(cache, c.g, c.h, starts, x)
  {
    forall x | x in c.g
      ensures AnswersFor(cache, c.g, c.h, starts, x)
    {
      WalkExact(c, r, w, starts, x);
    }
  }

  /** The inner loop of buildCache: everything pushed from one node on ends up marked. */
  method WalkFrom(nodeID: nat, alreadyCached: set<nat>, memo: map<nat, (seq<nat>, seq<nat>)>, direction: Direction,
                  scc: map<nat, nat>, cache: NativeKeyManagement, children: NativeKeyManagement,
                  parents: NativeKeyManagement,
                  ghost g: Graph, ghost h: Graph, ghost c: Setting, ghost r: Relation, ghost near: set<nat>,
                  ghost w0: Walk)
      returns (alreadyCached1: set<nat>, memo1: map<nat, (seq<nat>, seq<nat>)>, ghost w: Walk)
    requires scc.Keys == g.Keys == h.Keys && c == TheSetting(direction, g, h, scc) && c.scc == scc && c.g.Keys == g.Keys
    requires IsSetting(c) && IsReachability(c.g, r) && NearClosed(c, near) && Good(c, r, near, w0)
    requires w0.stack == [] && w0.marked == alreadyCached && MemoFits(c, memo) && nodeID in near && nodeID in c.g
    requires cache != children && cache != parents && Grouped(cache, scc, w0.val)
    requires Grouped(children, scc, NeighbourSets(scc, g)) && Grouped(parents, scc, NeighbourSets(scc, h))
    modifies cache
    ensures Good(c, r, near, w) && w.stack == [] && w.marked == alreadyCached1 && MemoFits(c, memo1)
    ensures Grouped(cache, scc, w.val) && alreadyCached + {nodeID} <= alreadyCached1
  {
    hide Good, NearClosed, IsReachability, IsSetting, MemoFits, Grouped, TheSetting, NeighbourSets, Elements,
      Neighbours;
    var stack := [StackElm(nodeID, 0)];
    alreadyCached1, memo1, w := alreadyCached, memo, Start(w0, nodeID);
    StartGood(c, r, near, w0, nodeID);
    while |stack| > 0
      decreases c.g.Keys - w.marked, PopRank(w), Below(c, r, w), Remaining(c, w)
      invariant Good(c, r, near, w) && w.stack == stack && w.marked == alreadyCached1 && MemoFits(c, memo1)
      invariant Grouped(cache, scc, w.val)
      invariant Grouped(children, scc, NeighbourSets(scc, g)) && Grouped(parents, scc, NeighbourSets(scc, h))
      invariant alreadyCached <= alreadyCached1 && nodeID in w.pushed
    {
      stack, alreadyCached1, memo1, w :=
        WalkStep(stack, alreadyCached1, memo1, direction, scc, cache, children, parents, g, h, c, r, near, w);
    }
    PushedIsMarked(c, r, near, w, nodeID);
  }

  /** buildCache: the sets of one direction, exact in every component that holds an uncached node. */
  method BuildCache(uncachedNodes: seq<nat>, direction: Direction, scc: map<nat, nat>, g: Graph, h: Graph)
      returns (cache: NativeKeyManagement)
    requires Transposed(g, h) && IsScc(g, scc) && forall id :: id in uncachedNodes ==> id in g
    ensures fresh(cache) && cache.keyMap.Keys == g.Keys
    ensures forall x :: x in g ==>
              AnswersFor(cache, Along(direction, g, h), Against(direction, g, h), Members(uncachedNodes), x)
  {
    hide Good, NearClosed, IsReachability, Transposed, IsScc, Elements, ToArray, Neighbours, Group, OutOf, MemoFits,
      Spread, Near, TheSetting, NeighbourSets, Grouped, AnswersFor;
    SameNodes(g, h, scc);
    cache := new NativeKeyManagement();
    var children := new NativeKeyManagement();
    var parents := new NativeKeyManagement();
    AddCyclesToBindMap(scc, cache, children, parents, g, h);

    ghost var c := TheSetting(direction, g, h, scc);
    ghost var starts := Members(uncachedNodes);
    ghost var r := WalkBegins(direction, g, h, scc, starts);
    ghost var near := Near(c, starts);
    ghost var w := Walk([], {}, Groups(scc), {});

    EmptyMemo(c);
    var alreadyCached: set<nat> := {};
    var memo: map<nat, (seq<nat>, seq<nat>)> := map[];
    var nodesToCache := Members(uncachedNodes);
    var nodesToProcess := ToArray(nodesToCache);
    ElementsOfArray(nodesToCache);
    EmptyElements();
    for i := 0 to |nodesToProcess|
      invariant Good(c, r, near, w) && w.stack == [] && w.marked == alreadyCached && MemoFits(c, memo)
      invariant Grouped(cache, scc, w.val)
      invariant Grouped(children, scc, NeighbourSets(scc, g)) && Grouped(parents, scc, NeighbourSets(scc, h))
      invariant Elements(nodesToProcess[..i]) <= w.marked
    {
      var nodeID := nodesToProcess[i];
      ElementsOf(nodesToProcess, nodeID);
      alreadyCached, memo, w :=
        WalkFrom(nodeID, alreadyCached, memo, direction, scc, cache, children, parents, g, h, c, r, near, w);
      ElementsSnoc(nodesToProcess, i);
    }
    assert nodesToProcess[..|nodesToProcess|] == nodesToProcess;
    WalkAnswers(c, r, w, starts, cache);
  }
}
