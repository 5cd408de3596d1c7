/**
 The storage object and the graph operations as they run: each method is proved to do the step of Store.dfy.

 A Node object is a copy of a stored record; changing it changes nothing in storage until it is saved.
 */
module StorageOps {
  import opened Results
  import opened Graphs
  import opened BindMap
  import opened CacheWalk
  import opened CacheBuilder
  import opened Store
  import Tarjan

  lemma MembersSnoc(keys: seq<nat>, k: nat)
    ensures Members(keys + [k]) == Members(keys) + {k}
  {
  }

  ghost function Ids(caches: seq<NodeCache>): set<nat> {
    set c | c in caches :: c.id
  }

  /** The cache map after entries are saved in order: later entries for one ID win. */
  ghost function Saved(cache: map<nat, NodeCache>, caches: seq<NodeCache>): map<nat, NodeCache> {
    if caches == [] then cache
    else
      var last := caches[|caches| - 1];
      Saved(cache, caches[..|caches| - 1])[last.id := last]
  }

  lemma {:induction false} SavedKeys(cache: map<nat, NodeCache>, caches: seq<NodeCache>)
    ensures Saved(cache, caches).Keys == cache.Keys + Ids(caches)
  {
    if caches != [] {
      SavedKeys(cache, caches[..|caches| - 1]);
      assert caches == caches[..|caches| - 1] + [caches[|caches| - 1]];
    }
  }

  lemma {:induction false} SavedAt(cache: map<nat, NodeCache>, caches: seq<NodeCache>, i: nat)
    requires i < |caches| && forall j :: i < j < |caches| ==> caches[j].id != caches[i].id
    ensures caches[i].id in Saved(cache, caches) && Saved(cache, caches)[caches[i].id] == caches[i]
  {
    if i < |caches| - 1 {
      SavedAt(cache, caches[..|caches| - 1], i);
    }
  }

  class Node {
    const id: nat
    const typ: string
    const name: string
    var children: set<nat>
    var parents: set<nat>

    constructor (n: NodeRecord)
      ensures Record() == n
    {
      id, typ, name, children, parents := n.id, n.typ, n.name, n.children, n.parents;
    }

    /** What SaveNode writes. */
    function Record(): NodeRecord
      reads this
    {
      NodeRecord(id, typ, name, children, parents)
    }
  }

  class Storage {
    var nodes: map<nat, NodeRecord>
    var nameToID: map<string, nat>
    var cache: map<nat, NodeCache>
    var toBeCached: seq<nat>
    var idCounter: nat

    constructor ()
      ensures View() == EMPTY
    {
      nodes, nameToID, cache, toBeCached, idCounter := map[], map[], map[], [], 0;
    }

    ghost function View(): State
      reads this
    {
      State(nodes, nameToID, cache, Members(toBeCached), idCounter)
    }

    method SaveNode(n: Node)
      modifies this
      ensures View() == SaveNodeStep(old(View()), n.Record()) && |toBeCached| > 0
    {
      nameToID := nameToID[n.name := n.id];
      nodes := nodes[n.id := n.Record()];
      toBeCached := toBeCached + [n.id];
    }

    method GetNode(id: nat) returns (r: Result<Node>)
      ensures if id in nodes then r.Ok? else r == Err(NodeNotFound)
      ensures r.Ok? ==> fresh(r.value) && r.value.Record() == nodes[id]
    {
      if id !in nodes {
        return Err(NodeNotFound);
      }
      var n := new Node(nodes[id]);
      return Ok(n);
    }

    method GenerateID() returns (id: nat)
      modifies this`idCounter
      ensures id == idCounter == old(idCounter) + 1
    {
      idCounter := idCounter + 1;
      id := idCounter;
    }

    method SaveCache(c: NodeCache)
      modifies this`cache
      ensures cache == old(cache)[c.id := c]
    {
      cache := cache[c.id := c];
    }

    method SaveCaches(caches: seq<NodeCache>)
      modifies this`cache
      ensures cache == Saved(old(cache), caches)
    {
      for k := 0 to |caches|
        invariant cache == Saved(old(cache), caches[..k])
      {
        assert caches[..k + 1][..k] == caches[..k];
        cache := cache[caches[k].id := caches[k]];
      }
      assert caches[..|caches|] == caches;
    }

    method ClearCacheStack()
      modifies this`toBeCached
      ensures toBeCached == []
    {
      toBeCached := [];
    }

    /** Every cached ID goes back on the stack, in any order. */
    method RemoveAllCaches()
      modifies this
      ensures View() == RemoveAllCachesStep(old(View()))
    {
      var rest := cache.Keys;
      while rest != {}
        decreases rest
        invariant nodes == old(nodes) && nameToID == old(nameToID) && cache == old(cache) && idCounter == old(idCounter)
        invariant rest <= cache.Keys && Members(toBeCached) == old(Members(toBeCached)) + (cache.Keys - rest)
      {
        var id :| id in rest;
        MembersSnoc(toBeCached, id);
        toBeCached, rest := toBeCached + [id], rest - {id};
      }
      cache := map[];
    }
  }

  /** AddNode returns the node of that name, newly stored with a fresh ID if there was none. */
  method AddNode(storage: Storage, typ: string, name: string) returns (r: Result<Node>)
    requires Valid(storage.View())
    modifies storage
    ensures Valid(storage.View()) && storage.View() == AddNodeStep(old(storage.View()), typ, name)
    ensures r.Ok? && fresh(r.value) && r.value.name == name
    ensures r.value.id in storage.nodes && storage.nodes[r.value.id] == r.value.Record()
  {
    hide Mirrored, Indexed;
    AddNodeKeepsValid(storage.View(), typ, name);
    if name in storage.nameToID {
      NamedNode(storage.View(), name);
      r := storage.GetNode(storage.nameToID[name]);
      return;
    }
    var id := storage.GenerateID();
    var n := new Node(NodeRecord(id, typ, name, {}, {}));
    storage.SaveNode(n);
    storage.SaveCache(NodeCache(id, {}, {}));
    return Ok(n);
  }

  /** What SetDependency may change. */
  function Frame(n: Node?, storage: Storage?, neighbor: Node?): set<object> {
    (if n == null then {} else {n}) + (if storage == null then {} else {storage}) + (if neighbor == null then {}
      else {neighbor})
  }

  /** n.SetDependency(storage, neighbor): both objects gain the edge and overwrite their stored records. */
  method SetDependency(n: Node?, storage: Storage?, neighbor: Node?) returns (r: Result<()>)
    modifies Frame(n, storage, neighbor)
    ensures r == if n == null || neighbor == null then Err(NilNode)
                 else if n.id == neighbor.id then Err(SelfDependency)
                 else if storage == null then Err(NilStorage)
                 else Ok(())
    ensures r.Err? ==>
              (n != null ==> unchanged(n)) && (storage != null ==> unchanged(storage))
                && (neighbor != null ==> unchanged(neighbor))
    ensures r.Ok? ==>
      && n.Record() == old(n.Record()).(children := old(n.children) + {neighbor.id})
      && neighbor.Record() == old(neighbor.Record()).(parents := old(neighbor.parents) + {n.id})
      && storage.View() == SaveNodeStep(SaveNodeStep(old(storage.View()), n.Record()), neighbor.Record())
  {
    if n == null || neighbor == null {
      return Err(NilNode);
    }
    if n.id == neighbor.id {
      return Err(SelfDependency);
    }
    if storage == null {
      return Err(NilStorage);
    }
    n.children := n.children + {neighbor.id};
    neighbor.parents := neighbor.parents + {n.id};
    storage.SaveNode(n);
    storage.SaveNode(neighbor);
    return Ok(());
  }

  /** Service.SetDependency: with both nodes read fresh, exactly the one edge is added to storage. */
  method LinkByID(storage: Storage, from: nat, to: nat) returns (r: Result<()>)
    requires Valid(storage.View())
    modifies storage
    ensures Valid(storage.View()) && storage.View() == SetDependencyStep(old(storage.View()), from, to)
    ensures r.Ok? <==> from in storage.nodes && to in storage.nodes && from != to
  {
    SetDependencyKeepsValid(storage.View(), from, to);
    var fromNode := storage.GetNode(from);
    if fromNode.Err? {
      return Err(fromNode.error);
    }
    var toNode := storage.GetNode(to);
    if toNode.Err? {
      return Err(toNode.error);
    }
    r := SetDependency(fromNode.value, storage, toNode.value);
  }

  lemma {:induction false} IntervalSize(s: set<nat>, n: nat)
    requires forall id :: id in s <==> 1 <= id <= n
    ensures |s| == n
  {
    if n == 0 {
      assert s == {};
    } else {
      IntervalSize(s - {n}, n - 1);
    }
  }

  lemma CachedHoldsSelf(g: Graph, h: Graph, starts: set<nat>, x: nat)
    requires Closed(g) && g.Keys == h.Keys && x in g
    ensures x in Cached(g, h, starts, x)
  {
    ReachesRefl(g, x);
  }

  /** caches lists one entry for every node, holding its sets in both directions. */
  ghost predicate Entries(caches: seq<NodeCache>, g: Graph, h: Graph, starts: set<nat>)
    requires Closed(g) && Closed(h) && g.Keys == h.Keys
  {
    && (forall i, j :: 0 <= i < j < |caches| ==> caches[i].id != caches[j].id)
    && (forall x :: x in g ==> exists i :: 0 <= i < |caches| && caches[i].id == x)
    && (forall i :: 0 <= i < |caches| ==> EntryFor(caches[i], caches[i].id, g, h, starts))
  }

  ghost predicate EntryFor(c: NodeCache, id: nat, g: Graph, h: Graph, starts: set<nat>)
    requires Closed(g) && Closed(h) && g.Keys == h.Keys
  {
    id in g && c == NodeCache(id, Cached(h, g, starts, id), Cached(g, h, starts, id))
  }

  /** The entries Cache saves; every lookup succeeds. */
  method CollectCaches(cachedChildren: NativeKeyManagement, cachedParents: NativeKeyManagement, ghost g: Graph,
                       ghost h: Graph, ghost starts: set<nat>)
      returns (caches: seq<NodeCache>)
    requires Transposed(g, h) && cachedChildren.keyMap.Keys == g.Keys
    requires forall x ::
               x in g ==>
                 cachedChildren.keyMap[x] in cachedChildren.data
                   && cachedChildren.Lookup(x) == Ok(Cached(g, h, starts, x))
    requires forall x :: x in g ==> cachedParents.Lookup(x) == Ok(Cached(h, g, starts, x))
    ensures Entries(caches, g, h, starts)
  {
    hide Cached, Transposed, EntryFor;
    assert Closed(g) && Closed(h) && g.Keys == h.Keys by { TransposedShape(g, h); }
    var kv := cachedChildren.GetAllKeysAndValues();
    var keys, values := kv.value.0, kv.value.1;
    caches := [];
    for i := 0 to |keys|
      invariant |caches| == i && forall j ::
                  0 <= j < i ==> caches[j].id == keys[j] && EntryFor(caches[j], keys[j], g, h, starts)
    {
      var childId := keys[i];
      assert values[i] == Cached(g, h, starts, childId);
      var tempValue := cachedParents.Get(childId);
      MakeEntry(g, h, starts, childId);
      caches := caches + [NodeCache(childId, tempValue.value + {childId}, values[i] + {childId})];
    }
    forall x | x in g
      ensures exists i :: 0 <= i < |caches| && caches[i].id == x
    {
      assert x in keys;
      var i :| 0 <= i < |keys| && keys[i] == x;
      assert caches[i].id == x;
    }
  }

  lemma MakeEntry(g: Graph, h: Graph, starts: set<nat>, x: nat)
    requires Closed(g) && Closed(h) && g.Keys == h.Keys && x in g
    ensures EntryFor(NodeCache(x, Cached(h, g, starts, x) + {x}, Cached(g, h, starts, x) + {x}), x, g, h, starts)
  {
    hide Closed;
    CachedHoldsSelf(g, h, starts, x);
    CachedHoldsSelf(h, g, starts, x);
    assert Cached(g, h, starts, x) + {x} == Cached(g, h, starts, x);
    assert Cached(h, g, starts, x) + {x} == Cached(h, g, starts, x);
  }

  lemma TransposedShape(g: Graph, h: Graph)
    requires Transposed(g, h)
    ensures Closed(g) && Closed(h) && g.Keys == h.Keys && Transposed(h, g)
  {
  }

  lemma NamedNode(s: State, name: string)
    requires Indexed(s) && name in s.nameToID
    ensures s.nameToID[name] in s.nodes && s.nodes[s.nameToID[name]].name == name
            && s.nodes[s.nameToID[name]].id == s.nameToID[name]
  {
  }

  /** What the saved entries leave in storage. */
  lemma SavedEntry(cache: map<nat, NodeCache>, caches: seq<NodeCache>, g: Graph, h: Graph, starts: set<nat>, x: nat)
    requires Closed(g) && Closed(h) && g.Keys == h.Keys && Entries(caches, g, h, starts) && x in g
    ensures x in Saved(cache, caches) && EntryFor(Saved(cache, caches)[x], x, g, h, starts)
  {
    hide EntryFor;
    var i :| 0 <= i < |caches| && caches[i].id == x;
    SavedAt(cache, caches, i);
  }

  lemma SavedEntries(s: State, caches: seq<NodeCache>)
    requires Valid(s) && s.stacked != {} && Transposed(ChildGraph(s.nodes), ParentGraph(s.nodes))
    requires Entries(caches, ChildGraph(s.nodes), ParentGraph(s.nodes), s.stacked)
    ensures Saved(s.cache, caches) == CacheStep(s).cache
  {
    hide Cached, Mirrored, Indexed, Saved, Entries;
    var g, h := ChildGraph(s.nodes), ParentGraph(s.nodes);
    var cache := Saved(s.cache, caches);
    SavedKeys(s.cache, caches);
    EntryIds(caches, g, h, s.stacked);
    forall x | x in s.nodes
      ensures x in cache && cache[x] == CacheStep(s).cache[x]
    {
      SavedEntry(s.cache, caches, g, h, s.stacked, x);
    }
    assert cache.Keys == s.nodes.Keys;
  }

  lemma EntryIds(caches: seq<NodeCache>, g: Graph, h: Graph, starts: set<nat>)
    requires Closed(g) && Closed(h) && g.Keys == h.Keys && Entries(caches, g, h, starts)
    ensures Ids(caches) == g.Keys
  {
    hide Cached, Closed;
    forall c | c in caches
      ensures c.id in g
    {
      var i :| 0 <= i < |caches| && caches[i] == c;
      assert EntryFor(caches[i], caches[i].id, g, h, starts);
    }
  }

  /** The part of Cache that reads nothing but the nodes. */
  method ComputeCaches(uncachedNodes: seq<nat>, allNodes: map<nat, NodeRecord>) returns (caches: seq<NodeCache>)
    requires Transposed(ChildGraph(allNodes), ParentGraph(allNodes))
    requires forall id :: id in allNodes <==> 1 <= id <= |allNodes.Keys|
    requires forall id {:trigger id in uncachedNodes} :: id in uncachedNodes ==> id in allNodes
    ensures Entries(caches, ChildGraph(allNodes), ParentGraph(allNodes), Members(uncachedNodes))
  {
    hide Cached, Transposed, IsScc, Entries, Members;
    var g, h := ChildGraph(allNodes), ParentGraph(allNodes);
    TransposedShape(g, h);
    var scc := Tarjan.FindCycles(|allNodes.Keys|, g);
    var cachedChildren := BuildCache(uncachedNodes, ChildrenDirection, scc, g, h);
    var cachedParents := BuildCache(uncachedNodes, ParentsDirection, scc, g, h);
    caches := CollectCaches(cachedChildren, cachedParents, g, h, Members(uncachedNodes));
  }

  /** Cache: the graph walked in both directions, an entry saved for every node, the stack cleared. */
  method Cache(storage: Storage) returns (r: Result<()>)
    requires Valid(storage.View())
    modifies storage
    ensures r.Ok? && Valid(storage.View()) && storage.View() == CacheStep(old(storage.View()))
  {
    hide Cached, Transposed, Mirrored, Indexed, IsScc, Entries, CacheStep, Members, ChildGraph, ParentGraph, Closed;
    ghost var s := storage.View();
    CacheKeepsValid(s);
    var uncachedNodes := storage.toBeCached;
    CacheStepShape(s, uncachedNodes);
    if |uncachedNodes| == 0 {
      return Ok(());
    }
    var allNodes := storage.nodes;
    GraphFacts(s);
    var caches := ComputeCaches(uncachedNodes, allNodes);
    storage.SaveCaches(caches);
    SavedEntries(s, caches);
    storage.ClearCacheStack();
    assert storage.View() == CacheStep(s);
    return Ok(());
  }

  lemma CacheStepShape(s: State, uncached: seq<nat>)
    requires Valid(s) && s.stacked == Members(uncached)
    ensures Members([]) == {}
    ensures uncached == [] ==> CacheStep(s) == s
    ensures uncached != [] ==> s.stacked != {} && CacheStep(s) == s.(cache := CacheStep(s).cache, stacked := {})
    ensures forall id {:trigger id in uncached} :: id in uncached ==> id in s.nodes
  {
    if uncached != [] {
      assert uncached[0] in s.stacked;
    }
    assert forall id :: id in uncached ==> id in s.stacked;
  }

  lemma GraphFacts(s: State)
    requires Valid(s)
    ensures var g, h := ChildGraph(s.nodes), ParentGraph(s.nodes);
            && Transposed(g, h) && Closed(g) && Closed(h) && g.Keys == h.Keys == s.nodes.Keys
            && forall id :: id in g <==> 1 <= id <= |s.nodes.Keys|
  {
    MirroredTransposed(s.nodes);
    IntervalSize(s.nodes.Keys, s.idCounter);
  }
}
