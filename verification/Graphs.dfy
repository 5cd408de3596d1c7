/**
 Directed graphs over node IDs, and reachability stated with explicit paths.

 A graph maps an ID to the set of IDs one step away, as the Children and the Parents bitmaps of the stored
 nodes do. Reachability is the reference against which the cache, the breadth-first queries and the report
 are proved.
 */
module Graphs {

  type Graph = map<nat, set<nat>>

  /** The IDs one step away from x; none when x is not a node of the graph. */
  function Succ(g: Graph, x: nat): set<nat> {
    if x in g then g[x] else {}
  }

  ghost predicate Closed(g: Graph) {
    forall x :: x in g ==> g[x] <= g.Keys
  }

  ghost predicate Step(g: Graph, p: seq<nat>, i: nat)
    requires 0 < i < |p|
  {
    p[i] in Succ(g, p[i - 1])
  }

  ghost predicate IsPath(g: Graph, p: seq<nat>) {
    && |p| > 0
    && forall i :: 0 < i < |p| ==> Step(g, p, i)
  }

  ghost predicate PathFromTo(g: Graph, p: seq<nat>, x: nat, y: nat) {
    IsPath(g, p) && p[0] == x && p[|p| - 1] == y
  }

  ghost predicate Reaches(g: Graph, x: nat, y: nat) {
    exists p :: PathFromTo(g, p, x, y)
  }

  lemma ReachesRefl(g: Graph, x: nat)
    ensures Reaches(g, x, x)
  {
    assert PathFromTo(g, [x], x, x);
  }

  lemma ReachesEdge(g: Graph, x: nat, y: nat)
    requires y in Succ(g, x)
    ensures Reaches(g, x, y)
  {
    assert PathFromTo(g, [x, y], x, y);
  }

  lemma ReachesTrans(g: Graph, x: nat, y: nat, z: nat)
    requires Reaches(g, x, y) && Reaches(g, y, z)
    ensures Reaches(g, x, z)
  {
    var p :| PathFromTo(g, p, x, y);
    var q :| PathFromTo(g, q, y, z);
    var pq := p + q[1..];
    forall i | 0 < i < |pq|
      ensures Step(g, pq, i)
    {
      if i < |p| {
        assert Step(g, p, i);
      } else {
        assert Step(g, q, i - |p| + 1);
      }
    }
    assert PathFromTo(g, pq, x, z);
  }

  /** A set that no edge leaves holds everything reachable from its members. */
  lemma ReachesStaysIn(g: Graph, s: set<nat>, x: nat, y: nat)
    requires x in s && Reaches(g, x, y)
    requires forall v :: v in s ==> Succ(g, v) <= s
    ensures y in s
  {
    var p :| PathFromTo(g, p, x, y);
    PathStaysIn(g, s, p);
  }

  lemma {:induction false} PathStaysIn(g: Graph, s: set<nat>, p: seq<nat>)
    requires IsPath(g, p) && p[0] in s
    requires forall v :: v in s ==> Succ(g, v) <= s
    ensures p[|p| - 1] in s
  {
    if |p| > 1 {
      var q := p[..|p| - 1];
      forall i | 0 < i < |q|
        ensures Step(g, q, i)
      {
        assert Step(g, p, i);
      }
      PathStaysIn(g, s, q);
      assert Step(g, p, |p| - 1);
    }
  }

  /** Two nodes are in one strongly connected component. */
  ghost predicate Mutual(g: Graph, x: nat, y: nat) {
    Reaches(g, x, y) && Reaches(g, y, x)
  }

  /** scc numbers the nodes of g so that two nodes share a number exactly when each reaches the other. */
  ghost predicate IsScc(g: Graph, scc: map<nat, nat>) {
    && scc.Keys == g.Keys
    && forall x, y :: x in g && y in g ==> (scc[x] == scc[y] <==> Mutual(g, x, y))
  }

  /** Everything reachable from x, x included. */
  ghost function ReachSet(g: Graph, x: nat): set<nat>
    requires Closed(g) && x in g
  {
    set y | y in g && Reaches(g, x, y)
  }

  /** The strongly connected component of x. */
  ghost function Component(g: Graph, x: nat): set<nat> {
    set y | y in g && Mutual(g, x, y)
  }

  lemma ReachSetComplete(g: Graph, x: nat, y: nat)
    requires Closed(g) && x in g && Reaches(g, x, y)
    ensures y in ReachSet(g, x)
  {
    ReachesStaysIn(g, g.Keys, x, y);
  }

  // ---------- reachability as a set of pairs ----------

  type Relation = set<(nat, nat)>

  /** r is the reachability relation of g. Stated once, so that long proofs can work on plain pairs. */
  ghost predicate IsReachability(g: Graph, r: Relation) {
    && Closed(g)
    && forall x: nat, y: nat {:trigger Reaches(g, x, y)} :: (x, y) in r <==> x in g && y in g && Reaches(g, x, y)
  }

  lemma ReachabilityExists(g: Graph) returns (r: Relation)
    requires Closed(g)
    ensures IsReachability(g, r)
  {
    r := set x, y | x in g && y in g && Reaches(g, x, y) :: (x, y);
  }

  lemma RelationNodes(g: Graph, r: Relation, x: nat, y: nat)
    requires IsReachability(g, r) && (x, y) in r
    ensures x in g && y in g && Reaches(g, x, y)
  {
    assert Reaches(g, x, y) || !Reaches(g, x, y);
  }

  lemma RelationRefl(g: Graph, r: Relation, x: nat)
    requires IsReachability(g, r) && x in g
    ensures (x, x) in r
  {
    ReachesRefl(g, x);
  }

  lemma RelationEdge(g: Graph, r: Relation, x: nat, y: nat)
    requires IsReachability(g, r) && y in Succ(g, x)
    ensures (x, y) in r
  {
    ReachesEdge(g, x, y);
  }

  lemma RelationTrans(g: Graph, r: Relation, x: nat, y: nat, z: nat)
    requires IsReachability(g, r) && (x, y) in r && (y, z) in r
    ensures (x, z) in r
  {
    assert Reaches(g, x, y) || !Reaches(g, x, y);
    assert Reaches(g, y, z) || !Reaches(g, y, z);
    ReachesTrans(g, x, y, z);
  }

  lemma RelationStaysIn(g: Graph, r: Relation, s: set<nat>, x: nat, y: nat)
    requires IsReachability(g, r) && x in s && (x, y) in r
    requires forall v, w :: v in s && w in Succ(g, v) ==> w in s
    ensures y in s
  {
    assert Reaches(g, x, y) || !Reaches(g, x, y);
    ReachesStaysIn(g, s, x, y);
  }

  // ---------- the two directions of one graph ----------

  /** g and h hold the same edges, seen from their two ends. */
  ghost predicate Transposed(g: Graph, h: Graph) {
    && g.Keys == h.Keys
    && Closed(g) && Closed(h)
    && forall x, y :: x in g && y in g ==> (y in g[x] <==> x in h[y])
  }

  lemma TransposedReaches(g: Graph, h: Graph, x: nat, y: nat)
    requires Transposed(g, h) && Reaches(g, x, y)
    ensures Reaches(h, y, x)
  {
    var p :| PathFromTo(g, p, x, y);
    var q := seq(|p|, i requires 0 <= i < |p| => p[|p| - 1 - i]);
    forall i | 0 < i < |q|
      ensures Step(h, q, i)
    {
      assert Step(g, p, |p| - i);
    }
    assert PathFromTo(h, q, y, x);
  }

  lemma TransposedMutual(g: Graph, h: Graph, x: nat, y: nat)
    requires Transposed(g, h)
    ensures Mutual(g, x, y) <==> Mutual(h, x, y)
  {
    if Mutual(g, x, y) {
      TransposedReaches(g, h, x, y);
      TransposedReaches(g, h, y, x);
    }
    if Mutual(h, x, y) {
      TransposedReaches(h, g, x, y);
      TransposedReaches(h, g, y, x);
    }
  }

  /** The graph with the direction of its edges forgotten. */
  ghost function Undirected(g: Graph, h: Graph): Graph
    requires g.Keys == h.Keys
  {
    map x | x in g :: g[x] + h[x]
  }

  /** x and y lie in one weakly connected component. */
  ghost predicate Linked(g: Graph, h: Graph, x: nat, y: nat)
    requires g.Keys == h.Keys
  {
    Reaches(Undirected(g, h), x, y)
  }

  /** The weakly connected component of x holds a node of starts. */
  ghost predicate TouchedBy(g: Graph, h: Graph, starts: set<nat>, x: nat)
    requires g.Keys == h.Keys
  {
    exists s :: s in starts && Linked(g, h, s, x)
  }

  lemma ReachesLinked(g: Graph, h: Graph, x: nat, y: nat)
    requires g.Keys == h.Keys && Reaches(g, x, y)
    ensures Linked(g, h, x, y)
  {
    var p :| PathFromTo(g, p, x, y);
    var u := Undirected(g, h);
    forall i | 0 < i < |p|
      ensures Step(u, p, i)
    {
      assert Step(g, p, i);
    }
    assert PathFromTo(u, p, x, y);
  }
}
