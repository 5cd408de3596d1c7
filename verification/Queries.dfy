/**
 The uncached and the cached answers about one node: queryBitmap, QueryDependents, QueryDependencies.
 */
module Queries {
  import opened Results
  import opened Bitmaps
  import opened Graphs
  import opened CacheBuilder
  import opened Store
  import opened StorageOps

  function Bits(n: NodeRecord, direction: Direction): set<nat> {
    if direction == ChildrenDirection then n.children else n.parents
  }

  function StoredGraph(nodes: map<nat, NodeRecord>, direction: Direction): Graph {
    map x | x in nodes :: Bits(nodes[x], direction)
  }

  /** The graph a query from the object n sees: n's own bitmap first, stored records from there on. */
  function SeenFrom(n: NodeRecord, nodes: map<nat, NodeRecord>, direction: Direction): Graph {
    StoredGraph(nodes, direction)[n.id := Bits(n, direction)]
  }

  /** Every ID that a reached node refers to can be loaded. */
  ghost predicate Loadable(g: Graph, x: nat, stored: set<nat>) {
    forall y, z {:trigger Reaches(g, x, y), z in Succ(g, y)} :: Reaches(g, x, y) && z in Succ(g, y) ==> z in stored
  }

  /** What the queue loop keeps. */
  ghost predicate Searching(g: Graph, x: nat, stored: set<nat>, direction: Direction, queue: seq<NodeRecord>,
                            visited: set<nat>, result: set<nat>) {
    && (visited == {} ==> |queue| == 1 && queue[0].id == x && Bits(queue[0], direction) == Succ(g, x))
    && (visited != {} ==> x in visited)
    && (forall i {:trigger queue[i]} :: 0 <= i < |queue| ==>
          && queue[i].id in stored + {x} && Reaches(g, x, queue[i].id) && queue[i].id in result + {x}
          && (queue[i].id != x ==> Bits(queue[i], direction) == Succ(g, queue[i].id)))
    && (forall v {:trigger v in visited} :: v in visited ==> v in stored + {x} && Reaches(g, x, v) && v in result + {x})
    && (forall v, z {:trigger v in visited, z in Succ(g, v)} ::
         v in visited && z in Succ(g, v) ==> z in stored && z in result && (z in visited || Queued(queue, z)))
    && (forall z {:trigger z in result} :: z in result ==> exists v :: v in visited && z in Succ(g, v))
  }

  ghost predicate Queued(queue: seq<NodeRecord>, id: nat) {
    exists i :: 0 <= i < |queue| && queue[i].id == id
  }

  lemma SearchDone(g: Graph, x: nat, stored: set<nat>, direction: Direction, visited: set<nat>, result: set<nat>)
    requires Searching(g, x, stored, direction, [], visited, result)
    ensures Loadable(g, x, stored)
    ensures forall y :: y in result + {x} <==> Reaches(g, x, y)
  {
    hide Reaches;
    forall v, w | v in visited && w in Succ(g, v)
      ensures w in visited
    {
      assert w in visited || Queued([], w);
    }
    forall y | Reaches(g, x, y)
      ensures y in visited
    {
      ReachesStaysIn(g, visited, x, y);
    }
    forall y | y in result + {x}
      ensures Reaches(g, x, y)
    {
      if y == x {
        ReachesRefl(g, x);
      } else {
        var v :| v in visited && y in Succ(g, v);
        assert y in visited;
      }
    }
  }

  /** The head of the queue was seen before. */
  lemma SearchSkips(g: Graph, x: nat, stored: set<nat>, direction: Direction, queue: seq<NodeRecord>, visited: set<nat>,
                    result: set<nat>)
    requires Searching(g, x, stored, direction, queue, visited, result) && queue != [] && queue[0].id in visited
    ensures Searching(g, x, stored, direction, queue[1..], visited, result)
  {
    hide Reaches;
    forall v, z {:trigger v in visited, z in Succ(g, v)} | v in visited && z in Succ(g, v) && z !in visited
      ensures Queued(queue[1..], z)
    {
      assert Queued(queue, z);
      var i :| 0 <= i < |queue| && queue[i].id == z;
      assert queue[1..][i - 1].id == z;
    }
  }

  /** The head of the queue is visited and the loaded nodes join the queue. */
  lemma SearchVisits(g: Graph, x: nat, stored: set<nat>, direction: Direction, queue: seq<NodeRecord>,
                     visited: set<nat>, result: set<nat>, loaded: seq<NodeRecord>)
    requires Searching(g, x, stored, direction, queue, visited, result) && queue != [] && queue[0].id !in visited
    requires var bits := Bits(queue[0], direction);
             && bits <= stored
             && (forall i {:trigger loaded[i]} :: 0 <= i < |loaded| ==>
                   loaded[i].id in bits && (loaded[i].id != x ==> Bits(loaded[i], direction) == Succ(g, loaded[i].id)))
             && forall z :: z in bits ==> Queued(loaded, z)
    ensures Bits(queue[0], direction) == Succ(g, queue[0].id)
    ensures Searching(g, x, stored, direction, queue[1..] + loaded, visited + {queue[0].id},
            result + Bits(queue[0], direction))
  {
    hide Reaches;
    var u := queue[0].id;
    var bits := Bits(queue[0], direction);
    var queue1, visited1, result1 := queue[1..] + loaded, visited + {u}, result + bits;
    assert u == x ==> visited == {};
    forall i {:trigger queue1[i]} | 0 <= i < |queue1|
      ensures queue1[i].id in stored + {x} && Reaches(g, x, queue1[i].id) && queue1[i].id in result1 + {x}
      ensures queue1[i].id != x ==> Bits(queue1[i], direction) == Succ(g, queue1[i].id)
    {
      if i < |queue| - 1 {
        assert queue1[i] == queue[i + 1];
      } else {
        var k := i - (|queue| - 1);
        assert queue1[i] == loaded[k];
        ReachesEdge(g, u, loaded[k].id);
        ReachesTrans(g, x, u, loaded[k].id);
      }
    }
    forall v, z {:trigger v in visited1, z in Succ(g, v)} | v in visited1 && z in Succ(g, v)
      ensures z in stored && z in result1 && (z in visited1 || Queued(queue1, z))
    {
      QueueGrows(queue, loaded, z);
      if v == u {
        assert Queued(loaded, z);
      } else {
        assert z in visited || Queued(queue, z);
      }
    }
  }

  lemma QueueGrows(queue: seq<NodeRecord>, loaded: seq<NodeRecord>, z: nat)
    requires queue != []
    ensures Queued(loaded, z) ==> Queued(queue[1..] + loaded, z)
    ensures Queued(queue, z) ==> Queued(queue[1..] + loaded, z) || queue[0].id == z
  {
    var t := queue[1..] + loaded;
    if Queued(loaded, z) {
      var i :| 0 <= i < |loaded| && loaded[i].id == z;
      assert t[|queue| - 1 + i].id == z;
    }
    if Queued(queue, z) {
      var i :| 0 <= i < |queue| && queue[i].id == z;
      if i > 0 {
        assert t[i - 1].id == z;
      }
    }
  }

  /** The loop that loads the nodes of one bitmap. */
  method LoadAll(storage: Storage, ids: seq<nat>) returns (r: Result<seq<NodeRecord>>)
    ensures if forall id :: id in ids ==> id in storage.nodes then r.Ok? else r == Err(NodeNotFound)
    ensures r.Ok? ==> |r.value| == |ids| && forall i :: 0 <= i < |ids| ==> r.value[i] == storage.nodes[ids[i]]
  {
    var loaded: seq<NodeRecord> := [];
    for i := 0 to |ids|
      invariant forall j :: 0 <= j < i ==> ids[j] in storage.nodes
      invariant |loaded| == i && forall j :: 0 <= j < i ==> loaded[j] == storage.nodes[ids[j]]
    {
      var node := storage.GetNode(ids[i]);
      if node.Err? {
        return Err(node.error);
      }
      loaded := loaded + [node.value.Record()];
    }
    return Ok(loaded);
  }

  /** queryBitmap: everything reachable in the direction, or an error when a referenced node cannot be loaded. */
  method QueryBitmap(n: Node?, storage: Storage?, direction: Direction) returns (r: Result<set<nat>>)
    requires storage != null ==> forall id :: id in storage.nodes ==> storage.nodes[id].id == id
    ensures n == null ==> r == Err(NilNode)
    ensures n != null && storage == null ==> r == Err(NilStorage)
    ensures n != null && storage != null ==>
              var g := SeenFrom(n.Record(), storage.nodes, direction);
              && (if Loadable(g, n.id, storage.nodes.Keys) then r.Ok? else r == Err(NodeNotFound))
              && (r.Ok? ==> forall y :: y in r.value <==> Reaches(g, n.id, y))
  {
    if n == null {
      return Err(NilNode);
    }
    if storage == null {
      return Err(NilStorage);
    }
    hide Searching, Loadable;
    ghost var g := SeenFrom(n.Record(), storage.nodes, direction);
    ghost var all := storage.nodes.Keys + {n.id};
    var result, visited: set<nat>, queue := {}, {}, [n.Record()];
    SearchStarts(n.Record(), storage.nodes, direction);
    while |queue| > 0
      decreases all - visited, |queue|
      invariant Searching(g, n.id, storage.nodes.Keys, direction, queue, visited, result)
    {
      var curNode := queue[0];
      if curNode.id in visited {
        SearchSkips(g, n.id, storage.nodes.Keys, direction, queue, visited, result);
        queue := queue[1..];
      } else {
        var bitmap := Bits(curNode, direction);
        var loaded := LoadAll(storage, ToArray(bitmap));
        SearchLoads(n.Record(), storage.nodes, direction, queue, visited, result, loaded);
        if loaded.Err? {
          return Err(loaded.error);
        }
        SearchVisits(g, n.id, storage.nodes.Keys, direction, queue, visited, result, loaded.value);
        assert curNode.id in all - visited && curNode.id !in all - (visited + {curNode.id});
        result, visited, queue := result + bitmap, visited + {curNode.id}, queue[1..] + loaded.value;
      }
    }
    assert queue == [];
    SearchDone(g, n.id, storage.nodes.Keys, direction, visited, result);
    return Ok(result + {n.id});
  }

  lemma SearchStarts(n: NodeRecord, nodes: map<nat, NodeRecord>, direction: Direction)
    ensures Searching(SeenFrom(n, nodes, direction), n.id, nodes.Keys, direction, [n], {}, {})
  {
    ReachesRefl(SeenFrom(n, nodes, direction), n.id);
  }

  /** Loading the bitmap of the head of the queue: what it gives, and why failing makes the query fail. */
  lemma SearchLoads(n: NodeRecord, nodes: map<nat, NodeRecord>, direction: Direction, queue: seq<NodeRecord>,
                    visited: set<nat>, result: set<nat>, loaded: Result<seq<NodeRecord>>)
    requires forall id :: id in nodes ==> nodes[id].id == id
    requires Searching(SeenFrom(n, nodes, direction), n.id, nodes.Keys, direction, queue, visited, result)
             && queue != []
    requires queue[0].id !in visited
    requires var ids := ToArray(Bits(queue[0], direction));
             && (loaded.Ok? <==> forall id :: id in ids ==> id in nodes)
             && (loaded.Ok? ==> |loaded.value| == |ids| && forall i ::
                  0 <= i < |ids| ==> loaded.value[i] == nodes[ids[i]])
    ensures queue[0].id in nodes.Keys + {n.id}
    ensures loaded.Err? ==> !Loadable(SeenFrom(n, nodes, direction), n.id, nodes.Keys)
    ensures loaded.Ok? ==>
      var bits := Bits(queue[0], direction);
      && bits <= nodes.Keys
      && (forall i {:trigger loaded.value[i]} :: 0 <= i < |loaded.value| ==>
            loaded.value[i].id in bits
              && (loaded.value[i].id != n.id ==>
                   Bits(loaded.value[i], direction) == Succ(SeenFrom(n, nodes, direction), loaded.value[i].id)))
      && forall z :: z in bits ==> Queued(loaded.value, z)
  {
    hide Reaches;
    var g := SeenFrom(n, nodes, direction);
    var bits := Bits(queue[0], direction);
    var ids := ToArray(bits);
    assert queue[0].id == n.id ==> visited == {};
    assert bits == Succ(g, queue[0].id);
    forall id
      ensures id in ids <==> id in bits
    {
      ToArrayLists(bits, id);
    }
    if loaded.Ok? {
      forall z | z in bits
        ensures Queued(loaded.value, z)
      {
        var i :| 0 <= i < |ids| && ids[i] == z;
        assert loaded.value[i].id == z;
      }
    } else {
      var id :| id in ids && id !in nodes;
      assert Reaches(g, n.id, queue[0].id) && id in Succ(g, queue[0].id);
    }
  }

  // ---------- cached and uncached queries ----------

  function Kept(c: NodeCache, direction: Direction): set<nat> {
    if direction == ChildrenDirection then c.allChildren else c.allParents
  }

  /** For an up-to-date copy of a stored node, the uncached query never fails and is the reachable set. */
  lemma FreshCopySeesStore(s: State, x: nat, direction: Direction)
    requires Valid(s) && x in s.nodes
    ensures var g := StoredGraph(s.nodes, direction);
            && SeenFrom(s.nodes[x], s.nodes, direction) == g && Closed(g) && Loadable(g, x, s.nodes.Keys)
            && forall y :: y in ReachSet(g, x) <==> Reaches(g, x, y)
  {
    hide Reaches;
    var g := StoredGraph(s.nodes, direction);
    assert SeenFrom(s.nodes[x], s.nodes, direction) == g;
    forall y | Reaches(g, x, y)
      ensures y in ReachSet(g, x)
    {
      ReachSetComplete(g, x, y);
    }
  }

  /** The uncached answer for an up-to-date copy of x. */
  ghost function Uncached(s: State, x: nat, direction: Direction): set<nat>
    requires Valid(s) && x in s.nodes
  {
    FreshCopySeesStore(s, x, direction);
    ReachSet(StoredGraph(s.nodes, direction), x)
  }

  /** The answer a query gives for an up-to-date copy of x. */
  ghost function Answer(s: State, x: nat, direction: Direction): Result<set<nat>>
    requires Valid(s) && x in s.nodes
  {
    if s.stacked != {} then Ok(Uncached(s, x, direction))
    else if x in s.cache then Ok(Kept(s.cache[x], direction))
    else Err(CacheNotFound)
  }

  /** QueryDependencies (ChildrenDirection) and QueryDependents (ParentsDirection): the cache when nothing waits to be
      cached. */
  method Query(n: Node, storage: Storage, direction: Direction) returns (r: Result<set<nat>>)
    requires forall id :: id in storage.nodes ==> storage.nodes[id].id == id
    ensures storage.toBeCached == [] ==>
              r == if n.id in storage.cache then Ok(Kept(storage.cache[n.id], direction)) else Err(CacheNotFound)
    ensures storage.toBeCached != [] ==>
              var g := SeenFrom(n.Record(), storage.nodes, direction);
              && (r.Ok? <==> Loadable(g, n.id, storage.nodes.Keys))
              && (r.Ok? ==> forall y :: y in r.value <==> Reaches(g, n.id, y))
    ensures Valid(storage.View()) && n.id in storage.nodes && n.Record() == storage.nodes[n.id] ==>
              r == Answer(storage.View(), n.id, direction)
  {
    hide Reaches, Loadable;
    if |storage.toBeCached| > 0 {
      assert storage.toBeCached[0] in storage.View().stacked;
      r := QueryBitmap(n, storage, direction);
      if Valid(storage.View()) && n.id in storage.nodes && n.Record() == storage.nodes[n.id] {
        FreshCopySeesStore(storage.View(), n.id, direction);
        assert r.value == Uncached(storage.View(), n.id, direction);
      }
      return;
    }
    if n.id !in storage.cache {
      return Err(CacheNotFound);
    }
    return Ok(Kept(storage.cache[n.id], direction));
  }
}
