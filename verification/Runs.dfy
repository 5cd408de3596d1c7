/**
 Whole runs of AddNode, SetDependency, RemoveAllCaches and Cache from an empty store: when the cached answers are
 the uncached ones.
 */
module Runs {
  import opened Results
  import opened Graphs
  import opened CacheBuilder
  import opened Store
  import opened Queries

  datatype Op =
    | AddNode(typ: string, name: string)
    | SetDependency(from: nat, to: nat)
    | RemoveAllCaches
    | Cache

  ghost function Step(s: State, op: Op): (t: State)
    requires Valid(s)
    ensures Valid(t)
  {
    match op
    case AddNode(typ, name) => AddNodeKeepsValid(s, typ, name); AddNodeStep(s, typ, name)
    case SetDependency(from, to) => SetDependencyKeepsValid(s, from, to); SetDependencyStep(s, from, to)
    case RemoveAllCaches => RemoveAllCachesKeepsValid(s); RemoveAllCachesStep(s)
    case Cache => CacheKeepsValid(s); CacheStep(s)
  }

  /** The state after the operations, in order. */
  ghost function Run(ops: seq<Op>): (s: State)
    ensures Valid(s)
  {
    if ops == [] then EMPTY else Step(Run(ops[..|ops| - 1]), ops[|ops| - 1])
  }

  /** Every answer is the uncached one. */
  ghost predicate Exact(s: State)
    requires Valid(s)
  {
    forall x, direction {:trigger Answer(s, x, direction)} ::
      x in s.nodes ==> Answer(s, x, direction) == Ok(Uncached(s, x, direction))
  }

  /** Nothing lies outside x's own strongly connected component, in either direction. */
  ghost predicate Alone(s: State, x: nat)
    requires Valid(s) && x in s.nodes
  {
    forall direction :: Uncached(s, x, direction) == Component(ChildGraph(s.nodes), x)
  }

  /** Every weakly connected component that is more than one strongly connected one holds a stacked node. */
  ghost predicate Covered(s: State)
    requires Valid(s)
  {
    forall x :: x in s.nodes ==> Alone(s, x) || Touched(s, x)
  }

  ghost predicate Touched(s: State, x: nat)
    requires Valid(s)
  {
    MirroredTransposed(s.nodes);
    TouchedBy(ChildGraph(s.nodes), ParentGraph(s.nodes), s.stacked, x)
  }

  /** What Cache leaves for a node. */
  lemma KeptAfterCache(s: State, x: nat, direction: Direction)
    requires Valid(s) && s.stacked != {} && x in s.nodes
    ensures x in CacheStep(s).cache
    ensures Kept(CacheStep(s).cache[x], direction) == if Touched(s, x) then Uncached(s, x, direction)
            else Component(ChildGraph(s.nodes), x)
  {
    var g, h := ChildGraph(s.nodes), ParentGraph(s.nodes);
    MirroredTransposed(s.nodes);
    assert StoredGraph(s.nodes, ChildrenDirection) == g && StoredGraph(s.nodes, ParentsDirection) == h;
    TouchedEitherWay(g, h, s.stacked, x);
    ComponentEitherWay(g, h, x);
  }

  /** The same for the two fields of a cache entry. */
  lemma CachedFields(s: State, x: nat, y: nat)
    requires Valid(s) && s.stacked != {} && x in s.nodes
    ensures x in CacheStep(s).cache
    ensures var c, g, h := CacheStep(s).cache[x], ChildGraph(s.nodes), ParentGraph(s.nodes);
            && (y in c.allChildren <==> if Touched(s, x) then Reaches(g, x, y)
                 else Reaches(g, x, y) && Reaches(g, y, x))
            && (y in c.allParents <==> if Touched(s, x) then Reaches(h, x, y) else Reaches(g, x, y) && Reaches(g, y, x))
  {
    hide Reaches, Touched, Mirrored, Indexed;
    var g, h := ChildGraph(s.nodes), ParentGraph(s.nodes);
    KeptAfterCache(s, x, ChildrenDirection);
    KeptAfterCache(s, x, ParentsDirection);
    assert StoredGraph(s.nodes, ChildrenDirection) == g && StoredGraph(s.nodes, ParentsDirection) == h;
    FreshCopySeesStore(s, x, ChildrenDirection);
    FreshCopySeesStore(s, x, ParentsDirection);
  }

  lemma TouchedEitherWay(g: Graph, h: Graph, starts: set<nat>, x: nat)
    requires g.Keys == h.Keys
    ensures TouchedBy(g, h, starts, x) <==> TouchedBy(h, g, starts, x)
  {
    assert forall y :: y in g ==> g[y] + h[y] == h[y] + g[y];
    assert Undirected(g, h) == Undirected(h, g);
  }

  lemma ComponentEitherWay(g: Graph, h: Graph, x: nat)
    requires Transposed(g, h)
    ensures Component(g, x) == Component(h, x)
  {
    forall y
      ensures Mutual(g, x, y) <==> Mutual(h, x, y)
    {
      TransposedMutual(g, h, x, y);
    }
  }

  lemma CacheKeepsNodes(s: State)
    requires Valid(s)
    ensures var t := CacheStep(s);
            t.nodes == s.nodes && t.stacked == {} && t.nameToID == s.nameToID && t.idCounter == s.idCounter
  {
  }

  /** Cache leaves exact answers exactly when every component that needs it holds a stacked node. */
  lemma CacheExactIff(s: State)
    requires Valid(s) && s.stacked != {}
    ensures Valid(CacheStep(s)) && (Exact(CacheStep(s)) <==> Covered(s))
  {
    hide ReachSet;
    hide Component, Touched, CacheStep, TouchedBy, ReachSet, Mirrored, Indexed;
    CacheKeepsValid(s);
    CacheKeepsNodes(s);
    var t := CacheStep(s);
    forall x, direction | x in s.nodes
      ensures x in t.cache && Uncached(t, x, direction) == Uncached(s, x, direction)
      ensures Kept(t.cache[x], direction) == if Touched(s, x) then Uncached(s, x, direction)
              else Component(ChildGraph(s.nodes), x)
    {
      KeptAfterCache(s, x, direction);
    }
    if Exact(t) {
      forall x | x in s.nodes && !Touched(s, x)
        ensures Alone(s, x)
      {
        forall direction
          ensures Uncached(s, x, direction) == Component(ChildGraph(s.nodes), x)
        {
          assert Answer(t, x, direction) == Ok(Uncached(t, x, direction));
        }
      }
    }
  }

  lemma StepExactIff(s: State, op: Op)
    requires Valid(s) && Exact(s)
    ensures Exact(Step(s, op)) <==> (op.Cache? && s.stacked != {} ==> Covered(s))
  {
    hide Covered, Mirrored, Indexed;
    match op
    case AddNode(typ, name) =>
    case SetDependency(from, to) =>
    case RemoveAllCaches => RemoveAllCachesKeepsValid(s);
    case Cache =>
      if s.stacked != {} {
        CacheExactIff(s);
      }
  }

  /** The cached answers are exact after every operation of the run. */
  ghost predicate ExactThroughout(ops: seq<Op>) {
    Exact(Run(ops)) && (ops != [] ==> ExactThroughout(ops[..|ops| - 1]))
  }

  /** Every Cache of the run that had something to do was covered when it ran. */
  ghost predicate CachesCovered(ops: seq<Op>) {
    ops != [] ==>
      var before := ops[..|ops| - 1];
      && CachesCovered(before)
      && (ops[|ops| - 1].Cache? && Run(before).stacked != {} ==> Covered(Run(before)))
  }

  /** The cached answers are the uncached ones at every moment of a run exactly when every Cache of the run was
      covered. */
  lemma {:induction false} RunExactIff(ops: seq<Op>)
    ensures ExactThroughout(ops) <==> CachesCovered(ops)
  {
    hide Covered, Exact, Step;
    if ops == [] {
      EmptyExact();
    } else {
      var before := ops[..|ops| - 1];
      RunExactIff(before);
      if ExactThroughout(before) {
        ExactNow(before);
        StepExactIff(Run(before), ops[|ops| - 1]);
      }
    }
  }

  lemma ExactNow(ops: seq<Op>)
    requires ExactThroughout(ops)
    ensures Exact(Run(ops))
  {
  }

  lemma EmptyExact()
    ensures Run([]) == EMPTY && Exact(EMPTY)
  {
  }

  // ---------- when every Cache is covered ----------

  lemma AllStackedCovered(s: State)
    requires Valid(s) && s.stacked == s.nodes.Keys
    ensures Covered(s)
  {
    MirroredTransposed(s.nodes);
    forall x | x in s.nodes
      ensures Touched(s, x)
    {
      ReachesRefl(Undirected(ChildGraph(s.nodes), ParentGraph(s.nodes)), x);
    }
  }

  lemma AllStackedStays(s: State, op: Op)
    requires Valid(s) && (op.RemoveAllCaches? || (s.stacked == s.nodes.Keys && !op.Cache?))
    ensures Step(s, op).stacked == Step(s, op).nodes.Keys
  {
    hide Mirrored, Indexed;
    if op.RemoveAllCaches? {
      RemoveAllCachesKeepsValid(s);
    }
  }

  /** The first Cache of a run, and the first after a RemoveAllCaches, is always covered. */
  lemma {:induction false} FirstCacheCovered(ops: seq<Op>, from: nat)
    requires from <= |ops| && (from == 0 || ops[from - 1].RemoveAllCaches?)
    requires forall k :: from <= k < |ops| ==> !ops[k].Cache?
    ensures Run(ops).stacked == Run(ops).nodes.Keys && Covered(Run(ops))
    decreases |ops|
  {
    hide Covered, Step;
    if |ops| > 0 {
      var n := |ops| - 1;
      if from <= n {
        FirstCacheCovered(ops[..n], from);
      }
      AllStackedStays(Run(ops[..n]), ops[n]);
    }
    AllStackedCovered(Run(ops));
  }

  /** In every state of every run, x is a dependency of y exactly when y is a dependent of x. */
  lemma DependencyIffDependent(ops: seq<Op>, x: nat, y: nat)
    requires x in Run(ops).nodes && y in Run(ops).nodes
    ensures x in Uncached(Run(ops), y, ChildrenDirection) <==> y in Uncached(Run(ops), x, ParentsDirection)
  {
    hide Reaches, Step, Run;
    var s := Run(ops);
    var g, h := ChildGraph(s.nodes), ParentGraph(s.nodes);
    MirroredTransposed(s.nodes);
    assert StoredGraph(s.nodes, ChildrenDirection) == g && StoredGraph(s.nodes, ParentsDirection) == h;
    if Reaches(g, y, x) {
      TransposedReaches(g, h, y, x);
    }
    if Reaches(h, x, y) {
      TransposedReaches(h, g, x, y);
    }
  }

  // ---------- an uncovered Cache loses answers ----------

  /** Two nodes are linked and cached; caching again after an unrelated node is added forgets the link. */
  function UncoveredRun(): seq<Op> {
    [AddNode("library", "a"), AddNode("library", "b"), SetDependency(1, 2), Cache, AddNode("library", "c"), Cache]
  }

  lemma RunSnoc(ops: seq<Op>, op: Op)
    ensures Run(ops + [op]) == Step(Run(ops), op)
  {
    assert (ops + [op])[..|ops|] == ops;
  }

  lemma TwoNodes()
    ensures var s := Run(UncoveredRun()[..2]);
            && s.nodes == map[1 := NodeRecord(1, "library", "a", {}, {}), 2 := NodeRecord(2, "library", "b", {}, {})]
            && s.nameToID.Keys == {"a", "b"} && s.idCounter == 2
  {
    hide Indexed, Mirrored;
    var ops := UncoveredRun();
    EmptyExact();
    RunSnoc([], ops[0]);
    assert ops[..1] == [] + [ops[0]];
    assert AddNodeStep(EMPTY, "library", "a").nameToID == map["a" := 1];
    RunSnoc(ops[..1], ops[1]);
    assert ops[..2] == ops[..1] + [ops[1]];
  }

  lemma OneLink()
    ensures var s := Run(UncoveredRun()[..3]);
            && s.nodes == map[1 := NodeRecord(1, "library", "a", {2}, {}), 2 := NodeRecord(2, "library", "b", {}, {1})]
            && s.nameToID.Keys == {"a", "b"} && s.idCounter == 2
  {
    hide Indexed, Mirrored;
    var ops := UncoveredRun();
    TwoNodes();
    RunSnoc(ops[..2], ops[2]);
    assert ops[..3] == ops[..2] + [ops[2]];
    var s := Run(ops[..2]);
    assert s.nodes[1].children + {2} == {2} && s.nodes[2].parents + {1} == {1};
    assert Run(ops[..3]) == SetDependencyStep(s, 1, 2);
  }

  lemma AfterFirstCache()
    ensures var s := Run(UncoveredRun()[..4]);
            && s.nodes == map[1 := NodeRecord(1, "library", "a", {2}, {}), 2 := NodeRecord(2, "library", "b", {}, {1})]
            && s.nameToID.Keys == {"a", "b"} && s.idCounter == 2 && s.stacked == {}
  {
    hide Indexed, Mirrored, CacheStep;
    var ops := UncoveredRun();
    OneLink();
    RunSnoc(ops[..3], ops[3]);
    assert ops[..4] == ops[..3] + [ops[3]];
    CacheKeepsNodes(Run(ops[..3]));
  }

  lemma BeforeSecondCache()
    ensures var s := Run(UncoveredRun()[..5]);
            && s.stacked == {3} && s.nodes.Keys == {1, 2, 3}
            && s.nodes[1].children == {2} && s.nodes[2].children == {} && s.nodes[3].children == {}
            && s.nodes[1].parents == {} && s.nodes[2].parents == {1} && s.nodes[3].parents == {}
  {
    hide Indexed, Mirrored, CacheStep;
    var ops := UncoveredRun();
    AfterFirstCache();
    RunSnoc(ops[..4], ops[4]);
    assert ops[..5] == ops[..4] + [ops[4]];
    AddsThird(Run(ops[..4]));
  }

  lemma AddsThird(s: State)
    requires "c" !in s.nameToID && s.idCounter == 2
    ensures var t := AddNodeStep(s, "library", "c");
            t.nodes == s.nodes[3 := NodeRecord(3, "library", "c", {}, {})] && t.stacked == s.stacked + {3}
  {
  }

  lemma UncoveredCacheLosesAnswers()
    ensures !Exact(Run(UncoveredRun()))
  {
    hide Step;
    var ops := UncoveredRun();
    var s := Run(ops[..5]);
    BeforeSecondCache();
    assert ops == ops[..5] + [ops[5]];
    RunSnoc(ops[..5], ops[5]);
    NotCovered(s);
    CacheExactIff(s);
    CacheIsStep(s);
  }

  lemma CacheIsStep(s: State)
    requires Valid(s)
    ensures Step(s, Cache) == CacheStep(s)
  {
  }

  lemma NotCovered(s: State)
    requires Valid(s) && s.stacked == {3} && s.nodes.Keys == {1, 2, 3}
    requires s.nodes[1].children == {2} && s.nodes[2].children == {} && s.nodes[3].children == {}
    requires s.nodes[1].parents == {} && s.nodes[2].parents == {1} && s.nodes[3].parents == {}
    ensures !Covered(s)
  {
    hide Reaches;
    var g, h := ChildGraph(s.nodes), ParentGraph(s.nodes);
    assert StoredGraph(s.nodes, ChildrenDirection) == g;
    if Touched(s, 1) {
      ReachesStaysIn(Undirected(g, h), {3}, 3, 1);
    }
    ReachesEdge(g, 1, 2);
    assert 2 in Uncached(s, 1, ChildrenDirection);
    if Reaches(g, 2, 1) {
      ReachesStaysIn(g, {2}, 2, 1);
    }
    assert 2 !in Component(g, 1);
    assert !Alone(s, 1);
  }
}
