/**
 The storage contract and the graph operations on it: AddNode, SetDependency, Cache, RemoveAllCaches.

 Storage has the fields of MockStorage; like the SQL and Redis storages, GetNode hands out copies and SaveNode
 overwrites the whole record.
 */
module Store {
  import opened Graphs
  import opened CacheWalk

  /** A node as stored: the bitmaps are sets of IDs. */
  datatype NodeRecord = NodeRecord(id: nat, typ: string, name: string, children: set<nat>, parents: set<nat>)

  datatype NodeCache = NodeCache(id: nat, allParents: set<nat>, allChildren: set<nat>)

  /** The stored values at one moment; `stacked` holds the IDs waiting in toBeCached. */
  datatype State = State(nodes: map<nat, NodeRecord>, nameToID: map<string, nat>, cache: map<nat, NodeCache>,
    stacked: set<nat>, idCounter: nat)

  const LIBRARY_TYPE := "library"
  const VULNERABILITY_TYPE := "vuln"

  const EMPTY := State(map[], map[], map[], {}, 0)

  function ChildGraph(nodes: map<nat, NodeRecord>): Graph {
    map x | x in nodes :: nodes[x].children
  }

  function ParentGraph(nodes: map<nat, NodeRecord>): Graph {
    map x | x in nodes :: nodes[x].parents
  }

  // ---------- what every operation keeps ----------

  /** IDs are dense and names are unique. */
  ghost predicate Indexed(s: State) {
    && (forall id :: id in s.nodes <==> 1 <= id <= s.idCounter)
    && (forall id :: id in s.nodes ==> s.nodes[id].id == id)
    && (forall id :: id in s.nodes ==> s.nodes[id].name in s.nameToID && s.nameToID[s.nodes[id].name] == id)
    && (forall name :: name in s.nameToID ==> s.nameToID[name] in s.nodes && s.nodes[s.nameToID[name]].name == name)
  }

  /** Children and Parents describe the same edges, and no node depends on itself. */
  ghost predicate Mirrored(nodes: map<nat, NodeRecord>) {
    && (forall x ::
         x in nodes ==> nodes[x].children <= nodes.Keys && nodes[x].parents <= nodes.Keys && x !in nodes[x].children)
    && (forall x, y {:trigger y in nodes[x].children} {:trigger x in nodes[y].parents} ::
          x in nodes && y in nodes ==> (y in nodes[x].children <==> x in nodes[y].parents))
  }

  lemma MirroredTransposed(nodes: map<nat, NodeRecord>)
    requires Mirrored(nodes)
    ensures Transposed(ChildGraph(nodes), ParentGraph(nodes))
  {
    forall x, y | x in nodes && y in nodes
      ensures y in ChildGraph(nodes)[x] <==> x in ParentGraph(nodes)[y]
    {
      assert y in nodes[x].children <==> x in nodes[y].parents;
    }
  }

  ghost predicate Valid(s: State) {
    && Indexed(s) && Mirrored(s.nodes)
    && s.cache.Keys + s.stacked == s.nodes.Keys
  }

  // ---------- the operations on values ----------

  function SaveNodeStep(s: State, n: NodeRecord): State {
    s.(nodes := s.nodes[n.id := n], nameToID := s.nameToID[n.name := n.id], stacked := s.stacked + {n.id})
  }

  function AddNodeStep(s: State, typ: string, name: string): State {
    if name in s.nameToID then s
    else
      var id := s.idCounter + 1;
      var t := SaveNodeStep(s.(idCounter := id), NodeRecord(id, typ, name, {}, {}));
      t.(cache := t.cache[id := NodeCache(id, {}, {})])
  }

  function SetDependencyStep(s: State, from: nat, to: nat): State {
    if from !in s.nodes || to !in s.nodes || from == to then s
    else
      var n := s.nodes[from];
      var m := s.nodes[to];
      SaveNodeStep(SaveNodeStep(s, n.(children := n.children + {to})), m.(parents := m.parents + {from}))
  }

  function RemoveAllCachesStep(s: State): State {
    s.(cache := map[], stacked := s.stacked + s.cache.Keys)
  }

  /** Cache, stated by reachability: nothing when no node is waiting, else a new entry for every node. */
  ghost function CacheStep(s: State): State
    requires Valid(s)
  {
    MirroredTransposed(s.nodes);
    if s.stacked == {} then s
    else
      var g, h := ChildGraph(s.nodes), ParentGraph(s.nodes);
      s.(cache :=
        map x | x in s.nodes :: NodeCache(x, Cached(h, g, s.stacked, x), Cached(g, h, s.stacked, x)), stacked :=
        {})
  }

  lemma AddNodeKeepsValid(s: State, typ: string, name: string)
    requires Valid(s)
    ensures Valid(AddNodeStep(s, typ, name))
  {
    var t := AddNodeStep(s, typ, name);
    if name !in s.nameToID {
      assert Indexed(t);
      assert Mirrored(t.nodes) by {
        forall x, y {:trigger y in t.nodes[x].children} {:trigger x in t.nodes[y].parents} | x in t.nodes
          && y in t.nodes
          ensures y in t.nodes[x].children <==> x in t.nodes[y].parents
        {
          if x in s.nodes && y in s.nodes {
            assert y in s.nodes[x].children <==> x in s.nodes[y].parents;
          }
        }
      }
    }
  }

  /** No earlier record is touched by AddNode. */
  lemma AddNodeKeepsRecords(s: State, typ: string, name: string)
    requires Valid(s)
    ensures forall x ::
              x in s.nodes ==> x in AddNodeStep(s, typ, name).nodes && AddNodeStep(s, typ, name).nodes[x] == s.nodes[x]
  {
  }

  /** AddNode leaves a node of the name: the one there was, or a new one of the type, linked to nothing and waiting to
      be
      cached. */
  lemma AddNodeStores(s: State, typ: string, name: string)
    requires Valid(s)
    ensures var t := AddNodeStep(s, typ, name);
            && name in t.nameToID && t.nodes.Keys == s.nodes.Keys + {t.nameToID[name]}
            && (name in s.nameToID ==> t == s)
            && (name !in s.nameToID ==>
                 var id := t.nameToID[name];
                 id !in s.nodes && t.nodes[id] == NodeRecord(id, typ, name, {}, {}) && t.stacked == s.stacked + {id})
  {
  }

  /** Exactly the one edge is added, and nothing else about a node changes. */
  lemma SetDependencyAddsEdge(s: State, from: nat, to: nat)
    requires forall id {:trigger s.nodes[id]} :: id in s.nodes ==> s.nodes[id].id == id
    ensures var t := SetDependencyStep(s, from, to);
            var added := from in s.nodes && to in s.nodes && from != to;
            && t.nodes.Keys == s.nodes.Keys && t.stacked == s.stacked + (if added then {from, to} else {})
            && forall x {:trigger t.nodes[x]} :: x in s.nodes ==>
                 t.nodes[x]
                   == s.nodes[x].(children := if added && x == from then s.nodes[x].children + {to}
                     else s.nodes[x].children,
                                           parents := if added && x == to then s.nodes[x].parents + {from}
                                             else s.nodes[x].parents)
  {
  }

  lemma SetDependencyMirrored(s: State, from: nat, to: nat)
    requires Mirrored(s.nodes) && (forall id :: id in s.nodes ==> s.nodes[id].id == id)
    ensures Mirrored(SetDependencyStep(s, from, to).nodes)
  {
    hide SetDependencyStep;
    var t := SetDependencyStep(s, from, to);
    SetDependencyAddsEdge(s, from, to);
    forall x, y {:trigger y in t.nodes[x].children} {:trigger x in t.nodes[y].parents} | x in t.nodes && y in t.nodes
      ensures y in t.nodes[x].children <==> x in t.nodes[y].parents
    {
      assert y in s.nodes[x].children <==> x in s.nodes[y].parents;
    }
  }

  lemma SameNames(s: State, from: nat, to: nat)
    requires Indexed(s)
    ensures SetDependencyStep(s, from, to).nameToID == s.nameToID
  {
  }

  lemma IndexedIDs(s: State)
    requires Indexed(s)
    ensures forall id {:trigger s.nodes[id]} :: id in s.nodes ==> s.nodes[id].id == id
  {
  }

  lemma ValidIndexed(s: State)
    requires Valid(s)
    ensures Indexed(s)
    ensures forall id {:trigger s.nodes[id]} :: id in s.nodes ==> s.nodes[id].id == id
    ensures forall name :: name in s.nameToID ==> s.nameToID[name] in s.nodes
  {
  }

  lemma IndexedStays(s: State, t: State)
    requires Indexed(s) && t.nodes.Keys == s.nodes.Keys && t.nameToID == s.nameToID && t.idCounter == s.idCounter
    requires forall x {:trigger t.nodes[x]} ::
               x in s.nodes ==> t.nodes[x].id == s.nodes[x].id && t.nodes[x].name == s.nodes[x].name
    ensures Indexed(t)
  {
  }

  lemma SetDependencyKeepsValid(s: State, from: nat, to: nat)
    requires Valid(s)
    ensures Valid(SetDependencyStep(s, from, to))
  {
    hide Indexed, Mirrored;
    IndexedIDs(s);
    SetDependencyMirrored(s, from, to);
    SetDependencyAddsEdge(s, from, to);
    SameNames(s, from, to);
    IndexedStays(s, SetDependencyStep(s, from, to));
  }

  lemma RemoveAllCachesKeepsValid(s: State)
    requires Valid(s)
    ensures Valid(RemoveAllCachesStep(s)) && RemoveAllCachesStep(s).stacked == s.nodes.Keys
    ensures RemoveAllCachesStep(s).cache == map[] && RemoveAllCachesStep(s).nodes == s.nodes
  {
  }

  lemma CacheKeepsValid(s: State)
    requires Valid(s)
    ensures Valid(CacheStep(s)) && CacheStep(s).stacked == {} && CacheStep(s).nodes == s.nodes
  {
    hide Cached, ChildGraph, ParentGraph, Transposed;
  }
}
