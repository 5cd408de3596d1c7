/** A store with a set of dependency edges added to it: what the loops that link nodes end with. */
module Edges {
  import opened Store

  /** (x, y) stands for "x depends on y". */
  type Edge = (nat, nat)

  ghost function Targets(edges: set<Edge>, x: nat): set<nat> {
    set e | e in edges && e.0 == x :: e.1
  }

  ghost function Sources(edges: set<Edge>, y: nat): set<nat> {
    set e | e in edges && e.1 == y :: e.0
  }

  ghost function Touched(edges: set<Edge>): set<nat> {
    (set e | e in edges :: e.0) + (set e | e in edges :: e.1)
  }

  ghost function LinkedRecord(n: NodeRecord, edges: set<Edge>, x: nat): NodeRecord {
    n.(children := n.children + Targets(edges, x), parents := n.parents + Sources(edges, x))
  }

  /** Every old edge and every edge of the set, recorded at both ends; the touched nodes wait to be cached. */
  ghost function WithEdges(s: State, edges: set<Edge>): State {
    s.(nodes := map x | x in s.nodes :: LinkedRecord(s.nodes[x], edges, x), stacked := s.stacked + Touched(edges))
  }

  lemma WithoutEdges(s: State)
    ensures WithEdges(s, {}) == s
  {
    assert Touched({}) == {};
    forall x | x in s.nodes
      ensures LinkedRecord(s.nodes[x], {}, x) == s.nodes[x]
    {
      assert Targets({}, x) == {} && Sources({}, x) == {};
    }
    assert WithEdges(s, {}).nodes == s.nodes;
  }

  lemma OneMore(edges: set<Edge>, a: nat, b: nat, x: nat)
    ensures Targets(edges + {(a, b)}, x) == Targets(edges, x) + (if x == a then {b} else {})
    ensures Sources(edges + {(a, b)}, x) == Sources(edges, x) + (if x == b then {a} else {})
    ensures Touched(edges + {(a, b)}) == Touched(edges) + {a, b}
  {
    forall y
      ensures y in Targets(edges + {(a, b)}, x) <==> y in Targets(edges, x) || (x == a && y == b)
      ensures y in Sources(edges + {(a, b)}, x) <==> y in Sources(edges, x) || (x == b && y == a)
      ensures y in Touched(edges + {(a, b)}) <==> y in Touched(edges) || y == a || y == b
    {
      assert (a, b) in edges + {(a, b)};
    }
  }

  /** Apart from the two records, SetDependency leaves the store as it is. */
  lemma SetDependencyRest(s: State, a: nat, b: nat)
    requires a in s.nodes && b in s.nodes && a != b && s.nodes[a].id == a && s.nodes[b].id == b
    requires s.nodes[a].name in s.nameToID && s.nameToID[s.nodes[a].name] == a
    requires s.nodes[b].name in s.nameToID && s.nameToID[s.nodes[b].name] == b
    ensures var t := SetDependencyStep(s, a, b);
            t.nameToID == s.nameToID && t.cache == s.cache && t.stacked == s.stacked + {a, b}
              && t.idCounter == s.idCounter
  {
  }

  lemma LinkedIDs(s: State, edges: set<Edge>)
    requires Indexed(s)
    ensures forall x {:trigger WithEdges(s, edges).nodes[x]} :: x in s.nodes ==>
              var n := WithEdges(s, edges).nodes[x]; n.id == x && n.name in s.nameToID && s.nameToID[n.name] == x
  {
    hide Targets, Sources, Touched;
  }

  lemma OneMoreRecord(n: NodeRecord, edges: set<Edge>, a: nat, b: nat, x: nat)
    ensures var m := LinkedRecord(n, edges, x);
            LinkedRecord(n, edges + {(a, b)}, x)
            == m.(children := if x == a then m.children + {b} else m.children, parents := if x == b then m.parents + {a}
              else m.parents)
  {
    hide Targets, Sources, Touched;
    OneMore(edges, a, b, x);
  }

  /** One more SetDependency adds its edge to the set. */
  lemma SetDependencyLinks(s: State, edges: set<Edge>, a: nat, b: nat)
    requires Indexed(s) && a in s.nodes && b in s.nodes && a != b
    ensures SetDependencyStep(WithEdges(s, edges), a, b) == WithEdges(s, edges + {(a, b)})
  {
    hide LinkedRecord, Touched, Indexed, SetDependencyStep;
    var t := WithEdges(s, edges);
    var u := SetDependencyStep(t, a, b);
    var w := WithEdges(s, edges + {(a, b)});
    OneMore(edges, a, b, a);
    LinkedIDs(s, edges);
    SetDependencyAddsEdge(t, a, b);
    SetDependencyRest(t, a, b);
    forall x {:trigger u.nodes[x]} | x in s.nodes
      ensures u.nodes[x] == w.nodes[x]
    {
      OneMoreRecord(s.nodes[x], edges, a, b, x);
      assert t.nodes[x] == LinkedRecord(s.nodes[x], edges, x);
    }
    assert u.nodes.Keys == w.nodes.Keys;
    assert u.nodes == w.nodes;
  }

  lemma LinkedMirrored(s: State, edges: set<Edge>)
    requires Mirrored(s.nodes) && forall e :: e in edges ==> e.0 in s.nodes && e.1 in s.nodes && e.0 != e.1
    ensures Mirrored(WithEdges(s, edges).nodes)
  {
    hide Touched;
    var t := WithEdges(s, edges);
    forall x, y {:trigger y in t.nodes[x].children} {:trigger x in t.nodes[y].parents} | x in t.nodes && y in t.nodes
      ensures y in t.nodes[x].children <==> x in t.nodes[y].parents
    {
      assert y in s.nodes[x].children <==> x in s.nodes[y].parents;
      EdgeAtBothEnds(edges, x, y);
    }
  }

  lemma EdgeAtBothEnds(edges: set<Edge>, x: nat, y: nat)
    ensures y in Targets(edges, x) <==> (x, y) in edges
    ensures x in Sources(edges, y) <==> (x, y) in edges
  {
    if (x, y) in edges {
      assert (x, y).0 == x && (x, y).1 == y;
    }
  }

  /** Symmetry, dense IDs and unique names survive any set of edges between two different stored nodes. */
  lemma WithEdgesKeepsValid(s: State, edges: set<Edge>)
    requires Valid(s) && forall e :: e in edges ==> e.0 in s.nodes && e.1 in s.nodes && e.0 != e.1
    ensures Valid(WithEdges(s, edges))
  {
    hide Mirrored, Targets, Sources;
    LinkedMirrored(s, edges);
    IndexedStays(s, WithEdges(s, edges));
    assert Touched(edges) <= s.nodes.Keys;
  }

  /** No node is added, renamed or given another type. */
  lemma EdgesKeepNames(s: State, edges: set<Edge>)
    ensures var t := WithEdges(s, edges);
            t.nodes.Keys == s.nodes.Keys
              && forall x {:trigger t.nodes[x]} ::
                   x in s.nodes ==> t.nodes[x].typ == s.nodes[x].typ && t.nodes[x].name == s.nodes[x].name
  {
    hide Targets, Sources;
  }

  /** An edge is there afterwards exactly when it was there before or is one of the set. */
  lemma EdgeIff(s: State, edges: set<Edge>, x: nat, y: nat)
    requires x in s.nodes
    ensures y in WithEdges(s, edges).nodes[x].children <==> y in s.nodes[x].children || (x, y) in edges
    ensures y in WithEdges(s, edges).nodes[x].parents <==> y in s.nodes[x].parents || (y, x) in edges
  {
    hide Targets, Sources, Touched;
    EdgeAtBothEnds(edges, x, y);
    EdgeAtBothEnds(edges, y, x);
  }
}
