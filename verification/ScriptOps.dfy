/** ParseAndExecute after parsing: packages are collected, their answers fetched in a batch, and the script evaluated on
    bitmaps. */
module ScriptOps {
  import opened Results
  import opened Bitmaps
  import opened Graphs
  import opened CacheBuilder
  import opened Store
  import opened StorageOps
  import opened Queries
  import opened Script
  import Runs

  /** A bitmap object: the operations change it in place. */
  class Bitmap {
    var bits: set<nat>

    constructor (bits: set<nat>)
      ensures this.bits == bits
    {
      this.bits := bits;
    }

    method Add(x: nat)
      modifies this
      ensures bits == old(bits) + {x}
    {
      bits := bits + {x};
    }

    method Or(other: Bitmap)
      modifies this
      ensures bits == old(bits) + old(other.bits)
    {
      bits := bits + other.bits;
    }

    method And(other: Bitmap)
      modifies this
      ensures bits == old(bits) * old(other.bits)
    {
      bits := bits * other.bits;
    }

    method Xor(other: Bitmap)
      modifies this
      ensures bits == (old(bits) - old(other.bits)) + (old(other.bits) - old(bits))
    {
      bits := (bits - other.bits) + (other.bits - bits);
    }
  }

  /** The bitmaps of a cache entry, shared with whoever asks for them. */
  datatype CacheEntry = CacheEntry(allParents: Bitmap, allChildren: Bitmap)

  function BitmapOf(c: CacheEntry, direction: Direction): Bitmap {
    if direction == ChildrenDirection then c.allChildren else c.allParents
  }

  ghost function Objects(caches: map<nat, CacheEntry>, direction: Direction): set<object> {
    set x | x in caches :: BitmapOf(caches[x], direction) as object
  }

  /** The cached sets of one direction. */
  ghost function CachedSets(caches: map<nat, CacheEntry>, direction: Direction): map<nat, set<nat>>
    reads Objects(caches, direction)
  {
    map x | x in caches :: BitmapOf(caches[x], direction).bits
  }

  ghost function Sets(m: map<nat, Bitmap>): map<nat, set<nat>>
    reads m.Values
  {
    map x | x in m :: m[x].bits
  }

  // ---------- collectPackages ----------

  /** A slice that the collecting functions append to. */
  class PurlList {
    var items: seq<PurlData>

    constructor ()
      ensures items == []
    {
      items := [];
    }

    method Append(p: PurlData)
      modifies this
      ensures items == old(items) + [p]
    {
      items := items + [p];
    }
  }

  method CollectFromExpression(e: Option<Expression>, dependenciesToQuery: PurlList, dependentsToQuery: PurlList,
                               defaultName: string)
    requires dependenciesToQuery != dependentsToQuery
    modifies dependenciesToQuery, dependentsToQuery
    ensures dependenciesToQuery.items == old(dependenciesToQuery.items) + Queried(e, "dependencies", defaultName)
    ensures dependentsToQuery.items == old(dependentsToQuery.items) + Queried(e, "dependents", defaultName)
    decreases e
  {
    hide CollectQuery;
    if e.None? {
      return;
    }
    CollectFromTerm(e.value.left, dependenciesToQuery, dependentsToQuery, defaultName);
    CollectFromExpression(e.value.right, dependenciesToQuery, dependentsToQuery, defaultName);
  }

  method CollectFromTerm(t: Term, dependenciesToQuery: PurlList, dependentsToQuery: PurlList, defaultName: string)
    requires dependenciesToQuery != dependentsToQuery
    modifies dependenciesToQuery, dependentsToQuery
    ensures dependenciesToQuery.items == old(dependenciesToQuery.items) + QueriedTerm(t, "dependencies", defaultName)
    ensures dependentsToQuery.items == old(dependentsToQuery.items) + QueriedTerm(t, "dependents", defaultName)
    decreases t
  {
    if t.query.Some? {
      var q := t.query.value;
      if q.queryType == "dependencies" {
        dependenciesToQuery.Append(PurlData(NameOf(q, defaultName), q.nodeType));
      } else if q.queryType == "dependents" {
        dependentsToQuery.Append(PurlData(NameOf(q, defaultName), q.nodeType));
      }
    }
    if t.expression.Some? {
      CollectFromExpression(t.expression, dependenciesToQuery, dependentsToQuery, defaultName);
    }
  }

  /** collectPackages. */
  method CollectPackages(e: Expression, defaultName: string) returns (wanted: seq<PurlData>, wanted1: seq<PurlData>)
    ensures wanted == Queried(Some(e), "dependencies", defaultName)
            && wanted1 == Queried(Some(e), "dependents", defaultName)
  {
    hide Queried;
    var dependenciesToQuery := new PurlList();
    var dependentsToQuery := new PurlList();
    CollectFromExpression(Some(e), dependenciesToQuery, dependentsToQuery, defaultName);
    wanted, wanted1 := dependenciesToQuery.items, dependentsToQuery.items;
  }

  // ---------- the batch queries ----------

  /** Everything reached from x, when it can all be loaded. */
  ghost function ReachedFrom(g: Graph, x: nat, stored: set<nat>): set<nat> {
    set y | y in stored + {x} && Reaches(g, x, y)
  }

  lemma LoadableReached(g: Graph, x: nat, stored: set<nat>, y: nat)
    requires Loadable(g, x, stored) && Reaches(g, x, y)
    ensures y in ReachedFrom(g, x, stored)
  {
    hide Reaches;
    var reached := ReachedFrom(g, x, stored);
    ReachesRefl(g, x);
    forall v, w | v in reached && w in Succ(g, v)
      ensures w in reached
    {
      ReachesEdge(g, v, w);
      ReachesTrans(g, x, v, w);
    }
    ReachesStaysIn(g, reached, x, y);
  }

  /** The answer for one node, nil or not: from the cached sets, or by the uncached query of that copy. */
  ghost function FetchOne(stored: map<nat, NodeRecord>, isCached: bool, cached: map<nat, set<nat>>,
                          direction: Direction,
                          n: Option<NodeRecord>): Result<set<nat>> {
    if n.None? then Err(NilNode)
    else if isCached then
      if n.value.id in cached then Ok(cached[n.value.id])
      else Err(if direction == ChildrenDirection then KeyNotFound else CacheNotFound)
    else
      var g := SeenFrom(n.value, stored, direction);
      if Loadable(g, n.value.id, stored.Keys) then Ok(ReachedFrom(g, n.value.id, stored.Keys)) else Err(NodeNotFound)
  }

  /** The answers for a list of nodes, by ID, or the first error. */
  ghost function Fetch(stored: map<nat, NodeRecord>, isCached: bool, cached: map<nat, set<nat>>, direction: Direction,
                       nodes: seq<Option<NodeRecord>>): Result<map<nat, set<nat>>> {
    if nodes == [] then Ok(map[])
    else
      var last := nodes[|nodes| - 1];
      var before := Fetch(stored, isCached, cached, direction, nodes[..|nodes| - 1]);
      if before.Err? then before
      else
        var answer := FetchOne(stored, isCached, cached, direction, last);
        if answer.Err? then Err(answer.error) else Ok(before.value[last.value.id := answer.value])
  }

  lemma FetchSnoc(stored: map<nat, NodeRecord>, isCached: bool, cached: map<nat, set<nat>>, direction: Direction,
                  nodes: seq<Option<NodeRecord>>, n: Option<NodeRecord>)
    ensures var before, answer :=
            Fetch(stored, isCached, cached, direction, nodes), FetchOne(stored, isCached, cached, direction, n);
            Fetch(stored, isCached, cached, direction, nodes + [n])
            == if before.Err? then before else if answer.Err? then Err(answer.error)
              else Ok(before.value[n.value.id := answer.value])
  {
    hide FetchOne;
    assert (nodes + [n])[..|nodes|] == nodes;
  }

  lemma {:induction false} FetchPrefix(stored: map<nat, NodeRecord>, isCached: bool, cached: map<nat, set<nat>>,
                                       direction: Direction,
                                       nodes: seq<Option<NodeRecord>>, i: nat)
    requires i <= |nodes| && Fetch(stored, isCached, cached, direction, nodes[..i]).Err?
    ensures Fetch(stored, isCached, cached, direction, nodes) == Fetch(stored, isCached, cached, direction, nodes[..i])
  {
    hide FetchOne;
    if i < |nodes| {
      assert nodes[..|nodes| - 1][..i] == nodes[..i];
      FetchPrefix(stored, isCached, cached, direction, nodes[..|nodes| - 1], i);
    } else {
      assert nodes[..i] == nodes;
    }
  }

  /** The uncached query of one copy. */
  method QueryOne(storage: Storage, record: NodeRecord, direction: Direction) returns (r: Result<set<nat>>)
    requires forall id :: id in storage.nodes ==> storage.nodes[id].id == id
    ensures r == FetchOne(storage.nodes, false, map[], direction, Some(record))
  {
    hide Reaches, Loadable;
    var n := new Node(record);
    ghost var g := SeenFrom(record, storage.nodes, direction);
    r := QueryBitmap(n, storage, direction);
    if r.Ok? {
      forall y
        ensures y in r.value <==> y in ReachedFrom(g, n.id, storage.nodes.Keys)
      {
        if Reaches(g, n.id, y) {
          LoadableReached(g, n.id, storage.nodes.Keys, y);
        }
      }
      assert r.value == ReachedFrom(g, n.id, storage.nodes.Keys);
    }
  }

  /** BatchQueryDependencies (ChildrenDirection) and BatchQueryDependents (ParentsDirection): the answers for the nodes,
      or the first error. Cached answers are the cache's own bitmaps. */
  method BatchQuery(storage: Storage, nodes: seq<Option<NodeRecord>>, caches: map<nat, CacheEntry>, isCached: bool,
                    direction: Direction) returns (r: Result<map<nat, Bitmap>>)
    requires forall id :: id in storage.nodes ==> storage.nodes[id].id == id
    ensures var answers := Fetch(storage.nodes, isCached, CachedSets(caches, direction), direction, nodes);
            if answers.Err? then r == Err(answers.error) else r.Ok? && Sets(r.value) == answers.value
  {
    hide SeenFrom, Loadable, ReachedFrom, Fetch;
    ghost var stored, cached := storage.nodes, CachedSets(caches, direction);
    var result: map<nat, Bitmap> := map[];
    ghost var sets: map<nat, set<nat>> := map[];
    NothingFetched(stored, isCached, cached, direction);
    for i := 0 to |nodes|
      invariant storage.nodes == stored && CachedSets(caches, direction) == cached
      invariant forall x :: x in result ==> allocated(result[x])
      invariant result.Keys == sets.Keys && forall x :: x in result ==> result[x].bits == sets[x]
      invariant Fetch(stored, isCached, cached, direction, nodes[..i]) == Ok(sets)
    {
      assert nodes[..i + 1] == nodes[..i] + [nodes[i]];
      FetchSnoc(stored, isCached, cached, direction, nodes[..i], nodes[i]);
      if Fetch(stored, isCached, cached, direction, nodes[..i + 1]).Err? {
        FetchPrefix(stored, isCached, cached, direction, nodes, i + 1);
      }
      if nodes[i].None? {
        return Err(NilNode);
      }
      var node := nodes[i].value;
      assert nodes[i] == Some(node);
      var bitmap;
      if !isCached {
        var ans := QueryOne(storage, node, direction);
        UncachedAnyway(stored, cached, direction, node);
        assert CachedSets(caches, direction) == cached;
        if ans.Err? {
          return Err(ans.error);
        }
        bitmap := new Bitmap(ans.value);
      } else {
        if node.id !in caches {
          return Err(if direction == ChildrenDirection then KeyNotFound else CacheNotFound);
        }
        bitmap := BitmapOf(caches[node.id], direction);
      }
      result, sets := result[node.id := bitmap], sets[node.id := bitmap.bits];
    }
    assert nodes[..|nodes|] == nodes;
    assert Sets(result) == sets;
    return Ok(result);
  }

  lemma UncachedAnyway(stored: map<nat, NodeRecord>, cached: map<nat, set<nat>>, direction: Direction, n: NodeRecord)
    ensures FetchOne(stored, false, cached, direction, Some(n)) == FetchOne(stored, false, map[], direction, Some(n))
  {
  }

  lemma NothingFetched(stored: map<nat, NodeRecord>, isCached: bool, cached: map<nat, set<nat>>, direction: Direction)
    ensures Fetch(stored, isCached, cached, direction, []) == Ok(map[])
  {
  }

  // ---------- iterateExpression ----------

  ghost function EnvOf(names: map<string, nat>, nodes: map<nat, NodeRecord>, dependencies: map<nat, Bitmap>,
                       dependents: map<nat, Bitmap>, defaultName: string): Env
    reads dependencies.Values + dependents.Values
  {
    Env(names, nodes, Sets(dependencies), Sets(dependents), defaultName)
  }

  /** The loop that keeps the nodes of the queried type. */
  method KeepType(nodes: map<nat, NodeRecord>, from: Bitmap, typ: string, bm: Bitmap)
    requires from != bm && bm.bits == {}
    modifies bm
    ensures bm.bits == OfType(nodes, from.bits, typ)
  {
    var ids := ToArray(from.bits);
    ElementsOfArray(from.bits);
    for k := 0 to |ids|
      invariant bm.bits == OfType(nodes, Elements(ids[..k]), typ)
    {
      ElementsSnoc(ids, k);
      if ids[k] in nodes && nodes[ids[k]].typ == typ {
        bm.Add(ids[k]);
      }
    }
    assert ids[..|ids|] == ids;
  }

  method IterateTerm(t: Term, dependenciesForID: map<nat, Bitmap>, dependentsForID: map<nat, Bitmap>,
                     nameToIDs: map<string, nat>, nodes: map<nat, NodeRecord>, defaultName: string)
      returns (r: Result<Bitmap>)
    ensures r.Ok? ==> fresh(r.value)
    ensures var v := EvalTerm(EnvOf(nameToIDs, nodes, dependenciesForID, dependentsForID, defaultName), t);
            if v.Err? then r == Err(v.error) else r.Ok? && r.value.bits == v.value
    decreases t
  {
    hide OfType;
    ghost var env := EnvOf(nameToIDs, nodes, dependenciesForID, dependentsForID, defaultName);
    var bm := new Bitmap({});
    if t.query.Some? {
      var q := t.query.value;
      var id := 0;
      var name := NameOf(q, defaultName);
      if name in nameToIDs {
        id := nameToIDs[name];
      }
      assert id == IDOf(env, q);
      if q.queryType == "dependencies" {
        if id !in dependenciesForID {
          return Err(KeyNotFound);
        }
        KeepType(nodes, dependenciesForID[id], q.nodeType, bm);
      } else if q.queryType == "dependents" {
        if id !in dependentsForID {
          return Err(KeyNotFound);
        }
        KeepType(nodes, dependentsForID[id], q.nodeType, bm);
      } else {
        return Err(UnknownQuery);
      }
    }
    if t.expression.Some? {
      var inner := IterateExpression(t.expression, dependenciesForID, dependentsForID, nameToIDs, nodes, defaultName);
      if inner.Err? {
        return Err(inner.error);
      }
    }
    return Ok(bm);
  }

  /** The switch on the operator. A missing operand is a nil pointer. */
  method Operate(op: string, bm: Bitmap, bm2: Bitmap?) returns (r: Result<()>)
    modifies bm
    ensures r == if !KnownOperator(op) then Err(UnknownOperator) else if bm2 == null then Err(NilOperand) else Ok(())
    ensures r.Ok? ==> bm.bits == Combine(op, old(bm.bits), old(bm2.bits))
  {
    if !KnownOperator(op) {
      return Err(UnknownOperator);
    }
    if bm2 == null {
      return Err(NilOperand);
    }
    if op == "or" {
      bm.Or(bm2);
    } else if op == "and" {
      bm.And(bm2);
    } else {
      bm.Xor(bm2);
    }
    return Ok(());
  }

  /** iterateExpression: only bitmaps of its own are changed, and its result is that of Eval. */
  method IterateExpression(e: Option<Expression>, dependenciesForID: map<nat, Bitmap>,
                           dependentsForID: map<nat, Bitmap>, nameToIDs: map<string, nat>, nodes: map<nat, NodeRecord>,
                           defaultName: string)
      returns (r: Result<Bitmap?>)
    ensures r.Ok? && r.value != null ==> fresh(r.value)
    ensures var v := Eval(EnvOf(nameToIDs, nodes, dependenciesForID, dependentsForID, defaultName), e);
            if v.Err? then r == Err(v.error)
            else r.Ok? && (if v.value.None? then r.value == null else r.value != null && r.value.bits == v.value.value)
    decreases e
  {
    hide EvalTerm, Combine, KnownOperator;
    if e.None? {
      return Ok(null);
    }
    var left := IterateTerm(e.value.left, dependenciesForID, dependentsForID, nameToIDs, nodes, defaultName);
    if left.Err? {
      return Err(left.error);
    }
    var bm := left.value;
    if e.value.op.Some? {
      var right := IterateExpression(e.value.right, dependenciesForID, dependentsForID, nameToIDs, nodes, defaultName);
      if right.Err? {
        return Err(right.error);
      }
      var done := Operate(e.value.op.value, bm, right.value);
      if done.Err? {
        return Err(done.error);
      }
    }
    return Ok(bm);
  }

  // ---------- ParseAndExecute ----------

  function NodeAt(nodes: map<nat, Option<NodeRecord>>, id: nat): Option<NodeRecord> {
    if id in nodes then nodes[id] else None
  }

  ghost predicate NoneNil(nodes: map<nat, Option<NodeRecord>>) {
    forall k {:trigger nodes[k]} :: k in nodes ==> nodes[k].Some?
  }

  ghost function Present(nodes: map<nat, Option<NodeRecord>>): map<nat, NodeRecord> {
    map k | k in nodes && nodes[k].Some? :: nodes[k].value
  }

  /** names holds every name of the nodes, each with the ID of some node of that name. */
  ghost predicate NamesFrom(nodes: map<nat, Option<NodeRecord>>, names: map<string, nat>) {
    && (forall k {:trigger nodes[k]} :: k in nodes && nodes[k].Some? ==> nodes[k].value.name in names)
    && (forall name {:trigger name in names} :: name in names ==>
          exists k :: k in nodes && nodes[k].Some? && nodes[k].value.name == name && nodes[k].value.id == names[name])
  }

  /** nameToIDs, filled in any order; a nil node is an error. */
  method NameToIDs(nodes: map<nat, Option<NodeRecord>>) returns (r: Result<map<string, nat>>)
    ensures if NoneNil(nodes) then r.Ok? && NamesFrom(nodes, r.value) else r == Err(NilNode)
  {
    var names: map<string, nat> := map[];
    var rest := nodes.Keys;
    while rest != {}
      decreases rest
      invariant rest <= nodes.Keys
      invariant forall name {:trigger name in names} :: name in names ==>
                  exists k ::
                    k in nodes && nodes[k].Some? && nodes[k].value.name == name && nodes[k].value.id == names[name]
      invariant forall k {:trigger nodes[k]} ::
                  k in nodes && k !in rest ==> nodes[k].Some? && nodes[k].value.name in names
    {
      var k :| k in rest;
      if nodes[k].None? {
        return Err(NilNode);
      }
      ghost var before := names;
      names := names[nodes[k].value.name := nodes[k].value.id];
      rest := rest - {k};
      forall name {:trigger name in names} | name in names
        ensures exists j ::
                  j in nodes && nodes[j].Some? && nodes[j].value.name == name && nodes[j].value.id == names[name]
      {
        if name != nodes[k].value.name {
          assert name in before;
        }
      }
    }
    return Ok(names);
  }

  predicate AllIn(wanted: seq<PurlData>, names: map<string, nat>) {
    forall i {:trigger wanted[i]} :: 0 <= i < |wanted| ==> wanted[i].purl in names
  }

  /** The nodes of the collected names. */
  function NodesOf(wanted: seq<PurlData>, names: map<string, nat>,
                   nodes: map<nat, Option<NodeRecord>>): (r: seq<Option<NodeRecord>>)
    requires AllIn(wanted, names)
    ensures |r| == |wanted|
    ensures forall i {:trigger r[i]} {:trigger wanted[i]} :: 0 <= i < |wanted| ==>
              wanted[i].purl in names && r[i] == NodeAt(nodes, names[wanted[i].purl])
  {
    seq(|wanted|, i requires 0 <= i < |wanted| => NodeAt(nodes, names[wanted[i].purl]))
  }

  /** The loop that looks up the collected names, or an error for one that is not there. */
  method NodesFor(wanted: seq<PurlData>, names: map<string, nat>, nodes: map<nat, Option<NodeRecord>>)
      returns (r: Result<seq<Option<NodeRecord>>>)
    ensures if AllIn(wanted, names) then r == Ok(NodesOf(wanted, names, nodes)) else r == Err(NodeNotFound)
  {
    var found: seq<Option<NodeRecord>> := [];
    for i := 0 to |wanted|
      invariant forall k :: 0 <= k < i ==> wanted[k].purl in names
      invariant |found| == i && forall k :: 0 <= k < i ==> found[k] == NodeAt(nodes, names[wanted[k].purl])
    {
      if wanted[i].purl !in names {
        return Err(NodeNotFound);
      }
      found := found + [NodeAt(nodes, names[wanted[i].purl])];
    }
    assert found == NodesOf(wanted, names, nodes);
    return Ok(found);
  }

  /** The sets a script is given, for two lists of queried names. */
  ghost function Outcome(stored: map<nat, NodeRecord>, names: map<string, nat>, nodes: map<nat, Option<NodeRecord>>,
                         isCached: bool, cachedChildren: map<nat, set<nat>>, cachedParents: map<nat, set<nat>>,
                         e: Expression, defaultName: string): Result<Option<set<nat>>> {
    var wanted, wanted1 := Queried(Some(e), "dependencies", defaultName), Queried(Some(e), "dependents", defaultName);
    if !AllIn(wanted, names) || !AllIn(wanted1, names) then Err(NodeNotFound)
    else
      var dependencies := Fetch(stored, isCached, cachedChildren, ChildrenDirection, NodesOf(wanted, names, nodes));
      var dependents := Fetch(stored, isCached, cachedParents, ParentsDirection, NodesOf(wanted1, names, nodes));
      if dependencies.Err? then Err(dependencies.error)
      else if dependents.Err? then Err(dependents.error)
      else Eval(Env(names, Present(nodes), dependencies.value, dependents.value, defaultName), Some(e))
  }

  ghost predicate Gives(r: Result<Bitmap>, v: Result<Option<set<nat>>>)
    reads if r.Ok? then {r.value} else {}
  {
    if v.Err? then r == Err(v.error) else r.Ok? && v.value.Some? && r.value.bits == v.value.value
  }

  /** The two batch queries, one after the other. */
  method BatchBoth(storage: Storage, nodes: seq<Option<NodeRecord>>, nodes1: seq<Option<NodeRecord>>,
                   caches: map<nat, CacheEntry>, isCached: bool)
      returns (r: Result<(map<nat, Bitmap>, map<nat, Bitmap>)>)
    requires forall id :: id in storage.nodes ==> storage.nodes[id].id == id
    ensures var dependencies :=
            Fetch(storage.nodes, isCached, CachedSets(caches, ChildrenDirection), ChildrenDirection, nodes);
            var dependents :=
              Fetch(storage.nodes, isCached, CachedSets(caches, ParentsDirection), ParentsDirection, nodes1);
            if dependencies.Err? then r == Err(dependencies.error)
            else if dependents.Err? then r == Err(dependents.error)
            else r.Ok? && Sets(r.value.0) == dependencies.value && Sets(r.value.1) == dependents.value
  {
    hide Fetch;
    ghost var cachedChildren, cachedParents :=
      CachedSets(caches, ChildrenDirection), CachedSets(caches, ParentsDirection);
    var dependenciesForID := BatchQuery(storage, nodes, caches, isCached, ChildrenDirection);
    if dependenciesForID.Err? {
      return Err(dependenciesForID.error);
    }
    assert CachedSets(caches, ChildrenDirection) == cachedChildren
      && CachedSets(caches, ParentsDirection) == cachedParents;
    ghost var dependencies := Sets(dependenciesForID.value);
    var dependentsForID := BatchQuery(storage, nodes1, caches, isCached, ParentsDirection);
    assert CachedSets(caches, ChildrenDirection) == cachedChildren
      && CachedSets(caches, ParentsDirection) == cachedParents;
    assert Sets(dependenciesForID.value) == dependencies;
    if dependentsForID.Err? {
      return Err(dependentsForID.error);
    }
    return Ok((dependenciesForID.value, dependentsForID.value));
  }

  /** The part of ParseAndExecute after the names are known. */
  method ExecuteNamed(e: Expression, storage: Storage, defaultName: string, names: map<string, nat>,
                      nodes: map<nat, Option<NodeRecord>>, caches: map<nat, CacheEntry>, isCached: bool)
      returns (r: Result<Bitmap>)
    requires forall id :: id in storage.nodes ==> storage.nodes[id].id == id
    ensures Gives(r, Outcome(storage.nodes, names, nodes, isCached, CachedSets(caches, ChildrenDirection),
                             CachedSets(caches, ParentsDirection), e, defaultName))
  {
    hide Fetch, Eval, Queried, NodesOf, AllIn;
    var wanted, wanted1 := CollectPackages(e, defaultName);
    var nodeDependencies := NodesFor(wanted, names, nodes);
    if nodeDependencies.Err? {
      return Err(NodeNotFound);
    }
    var nodeDependents := NodesFor(wanted1, names, nodes);
    if nodeDependents.Err? {
      return Err(NodeNotFound);
    }
    ghost var cachedChildren, cachedParents :=
      CachedSets(caches, ChildrenDirection), CachedSets(caches, ParentsDirection);
    var answers := BatchBoth(storage, nodeDependencies.value, nodeDependents.value, caches, isCached);
    assert CachedSets(caches, ChildrenDirection) == cachedChildren
      && CachedSets(caches, ParentsDirection) == cachedParents;
    if answers.Err? {
      return Err(answers.error);
    }
    var dependenciesForID, dependentsForID := answers.value.0, answers.value.1;
    var present := map k | k in nodes && nodes[k].Some? :: nodes[k].value;
    assert present == Present(nodes);
    ghost var env := EnvOf(names, present, dependenciesForID, dependentsForID, defaultName);
    var bm := IterateExpression(Some(e), dependenciesForID, dependentsForID, names, present, defaultName);
    assert EnvOf(names, present, dependenciesForID, dependentsForID, defaultName) == env;
    assert CachedSets(caches, ChildrenDirection) == cachedChildren
      && CachedSets(caches, ParentsDirection) == cachedParents;
    EvalGives(env, e);
    if bm.Err? {
      return Err(bm.error);
    }
    return Ok(bm.value);
  }

  /** ParseAndExecute on a parsed script, for any nodes, caches and flag. Nothing that existed before, cached bitmaps
      included, is changed. */
  method Execute(e: Expression, storage: Storage, defaultName: string, nodes: map<nat, Option<NodeRecord>>,
                 caches: map<nat, CacheEntry>, isCached: bool) returns (r: Result<Bitmap>)
    requires forall id :: id in storage.nodes ==> storage.nodes[id].id == id
    ensures if NoneNil(nodes) then
              exists names ::
                && NamesFrom(nodes, names)
                && Gives(r, Outcome(storage.nodes, names, nodes, isCached, CachedSets(caches, ChildrenDirection),
                                    CachedSets(caches, ParentsDirection), e, defaultName))
            else r == Err(NilNode)
  {
    hide NoneNil, NamesFrom, Outcome, Gives;
    var names := NameToIDs(nodes);
    if names.Err? {
      return Err(NilNode);
    }
    r := ExecuteNamed(e, storage, defaultName, names.value, nodes, caches, isCached);
  }

  lemma EvalGives(env: Env, e: Expression)
    ensures Eval(env, Some(e)).Ok? ==> Eval(env, Some(e)).value.Some?
  {
  }

  // ---------- a script on the present store ----------

  /** In a valid store every query has an answer. */
  lemma AnswerKnown(s: State, x: nat, direction: Direction)
    requires Valid(s) && x in s.nodes
    ensures Answer(s, x, direction).Ok?
    ensures s.stacked == {} ==> x in s.cache && Answer(s, x, direction) == Ok(Kept(s.cache[x], direction))
    ensures s.stacked != {} ==> Answer(s, x, direction) == Ok(Uncached(s, x, direction))
    ensures s.nodes[x].id == x
  {
    hide Uncached;
  }

  ghost function AnswersOf(s: State, direction: Direction): map<nat, set<nat>>
    requires Valid(s)
  {
    map x | x in s.nodes && Answer(s, x, direction).Ok? :: Answer(s, x, direction).value
  }

  /** What a script sees of a store: names, nodes and the answer to every query. */
  ghost function StoreEnv(s: State, defaultName: string): Env
    requires Valid(s)
  {
    Env(s.nameToID, s.nodes, AnswersOf(s, ChildrenDirection), AnswersOf(s, ParentsDirection), defaultName)
  }

  predicate AllNamed(s: State, e: Expression, defaultName: string) {
    && AllIn(Queried(Some(e), "dependencies", defaultName), s.nameToID)
    && AllIn(Queried(Some(e), "dependents", defaultName), s.nameToID)
  }

  function AllPresent(nodes: map<nat, NodeRecord>): map<nat, Option<NodeRecord>> {
    map k | k in nodes :: Some(nodes[k])
  }

  /** For a stored node, what is fetched is the answer of the store. */
  lemma FetchedOne(s: State, cached: map<nat, set<nat>>, direction: Direction, x: nat)
    requires Valid(s) && x in s.nodes
    requires s.stacked == {} ==> forall y :: y in s.cache ==> y in cached && cached[y] == Kept(s.cache[y], direction)
    ensures FetchOne(s.nodes, s.stacked == {}, cached, direction, Some(s.nodes[x])) == Answer(s, x, direction)
    ensures Answer(s, x, direction).Ok? && s.nodes[x].id == x
  {
    hide Reaches, Loadable, Valid;
    AnswerKnown(s, x, direction);
    if s.stacked != {} {
      FreshCopySeesStore(s, x, direction);
      var g := StoredGraph(s.nodes, direction);
      forall y
        ensures y in ReachedFrom(g, x, s.nodes.Keys) <==> y in Uncached(s, x, direction)
      {
        if Reaches(g, x, y) {
          LoadableReached(g, x, s.nodes.Keys, y);
        }
      }
      assert ReachedFrom(g, x, s.nodes.Keys) == Uncached(s, x, direction);
    }
  }

  ghost predicate StoredAll(s: State, nodes: seq<Option<NodeRecord>>) {
    forall i {:trigger nodes[i]} :: 0 <= i < |nodes| ==>
      nodes[i].Some? && nodes[i].value.id in s.nodes && nodes[i].value == s.nodes[nodes[i].value.id]
  }

  /** For stored nodes fetching cannot fail, and gives the answer of the store for each of them and no others. */
  lemma {:induction false} FetchedAll(s: State, cached: map<nat, set<nat>>, direction: Direction,
                                      nodes: seq<Option<NodeRecord>>)
    requires Valid(s) && StoredAll(s, nodes)
    requires s.stacked == {} ==> forall y :: y in s.cache ==> y in cached && cached[y] == Kept(s.cache[y], direction)
    ensures var r := Fetch(s.nodes, s.stacked == {}, cached, direction, nodes);
            && r.Ok?
            && (forall i :: 0 <= i < |nodes| ==> nodes[i].Some? && nodes[i].value.id in r.value)
            && (forall x :: x in r.value ==> x in AnswersOf(s, direction) && AnswersOf(s, direction)[x] == r.value[x])
  {
    hide Answer, Valid, FetchOne;
    if nodes != [] {
      var n := |nodes| - 1;
      FetchedAll(s, cached, direction, nodes[..n]);
      assert nodes[n].Some?;
      FetchedOne(s, cached, direction, nodes[n].value.id);
    }
  }

  lemma NamesAreStored(s: State, names: map<string, nat>)
    requires Valid(s) && NamesFrom(AllPresent(s.nodes), names)
    ensures names == s.nameToID
  {
    hide Mirrored;
    var nodes := AllPresent(s.nodes);
    forall name
      ensures name in names <==> name in s.nameToID
    {
      if name in s.nameToID {
        assert nodes[s.nameToID[name]].Some?;
      }
    }
    assert names.Keys == s.nameToID.Keys;
  }

  lemma StoredNodes(s: State, wanted: seq<PurlData>)
    requires Valid(s) && AllIn(wanted, s.nameToID)
    ensures StoredAll(s, NodesOf(wanted, s.nameToID, AllPresent(s.nodes)))
  {
    hide Mirrored;
  }

  lemma FetchedAnswers(s: State, cached: map<nat, set<nat>>, direction: Direction, wanted: seq<PurlData>)
    requires Valid(s) && AllIn(wanted, s.nameToID)
    requires s.stacked == {} ==> forall y :: y in s.cache ==> y in cached && cached[y] == Kept(s.cache[y], direction)
    ensures var r :=
            Fetch(s.nodes, s.stacked == {}, cached, direction, NodesOf(wanted, s.nameToID, AllPresent(s.nodes)));
            && r.Ok? && AnswersIn(r.value, s.nameToID, wanted)
            && forall x :: x in r.value ==> x in AnswersOf(s, direction) && AnswersOf(s, direction)[x] == r.value[x]
  {
    hide Answer, Valid, Fetch, AnswersOf;
    ValidIndexed(s);
    var nodes := NodesOf(wanted, s.nameToID, AllPresent(s.nodes));
    StoredNodes(s, wanted);
    FetchedAll(s, cached, direction, nodes);
    forall p {:trigger p in wanted} | p in wanted
      ensures p.purl in s.nameToID
              && s.nameToID[p.purl] in Fetch(s.nodes, s.stacked == {}, cached, direction, nodes).value
    {
      var i :| 0 <= i < |wanted| && wanted[i] == p;
      assert nodes[i] == NodeAt(AllPresent(s.nodes), s.nameToID[p.purl]);
    }
  }

  /** On what the store holds, the outcome is the evaluation over the whole store. */
  lemma OutcomeInStore(s: State, names: map<string, nat>, cachedChildren: map<nat, set<nat>>,
                       cachedParents: map<nat, set<nat>>,
                       e: Expression, defaultName: string)
    requires Valid(s) && NamesFrom(AllPresent(s.nodes), names)
    requires s.stacked == {} ==> forall y :: y in s.cache ==>
               && y in cachedChildren && cachedChildren[y] == Kept(s.cache[y], ChildrenDirection)
               && y in cachedParents && cachedParents[y] == Kept(s.cache[y], ParentsDirection)
    ensures Outcome(s.nodes, names, AllPresent(s.nodes), s.stacked == {}, cachedChildren, cachedParents, e, defaultName)
            == if AllNamed(s, e, defaultName) then Eval(StoreEnv(s, defaultName), Some(e)) else Err(NodeNotFound)
  {
    hide Valid, NamesFrom, Fetch, Eval, Queried, AnswersIn, AnswersOf, NodesOf, AllPresent, Answer;
    NamesAreStored(s, names);
    PresentAll(s.nodes);
    var wanted, wanted1 := Queried(Some(e), "dependencies", defaultName), Queried(Some(e), "dependents", defaultName);
    if AllIn(wanted, names) && AllIn(wanted1, names) {
      FetchedAnswers(s, cachedChildren, ChildrenDirection, wanted);
      FetchedAnswers(s, cachedParents, ParentsDirection, wanted1);
      var nodes := AllPresent(s.nodes);
      var dependencies :=
        Fetch(s.nodes, s.stacked == {}, cachedChildren, ChildrenDirection, NodesOf(wanted, names, nodes)).value;
      var dependents :=
        Fetch(s.nodes, s.stacked == {}, cachedParents, ParentsDirection, NodesOf(wanted1, names, nodes)).value;
      OnlyCollected(Env(names, s.nodes, dependencies, dependents, defaultName), StoreEnv(s, defaultName), Some(e));
    }
  }

  lemma PresentAll(nodes: map<nat, NodeRecord>)
    ensures Present(AllPresent(nodes)) == nodes && NoneNil(AllPresent(nodes))
  {
  }

  /** GetCaches: a bitmap of its own for every stored set. */
  method GetCaches(storage: Storage) returns (caches: map<nat, CacheEntry>)
    ensures caches.Keys == storage.cache.Keys
    ensures forall x :: x in caches ==> fresh(caches[x].allChildren) && fresh(caches[x].allParents)
    ensures forall x :: x in caches ==>
              && BitmapOf(caches[x], ChildrenDirection).bits == Kept(storage.cache[x], ChildrenDirection)
              && BitmapOf(caches[x], ParentsDirection).bits == Kept(storage.cache[x], ParentsDirection)
  {
    caches := map[];
    var rest := storage.cache.Keys;
    while rest != {}
      decreases rest
      invariant rest <= storage.cache.Keys && caches.Keys == storage.cache.Keys - rest
      invariant forall x :: x in caches ==> fresh(caches[x].allChildren) && fresh(caches[x].allParents)
      invariant forall x :: x in caches ==>
                  && BitmapOf(caches[x], ChildrenDirection).bits == Kept(storage.cache[x], ChildrenDirection)
                  && BitmapOf(caches[x], ParentsDirection).bits == Kept(storage.cache[x], ParentsDirection)
    {
      var id :| id in rest;
      var parents := new Bitmap(storage.cache[id].allParents);
      var children := new Bitmap(storage.cache[id].allChildren);
      caches := caches[id := CacheEntry(parents, children)];
      rest := rest - {id};
    }
  }

  /** The service's Query, and one entry of CustomLeaderboard: everything is read from the store, then the script
      runs. */
  method QueryScript(storage: Storage, e: Expression, defaultName: string) returns (r: Result<Bitmap>)
    requires Valid(storage.View())
    ensures var s := storage.View();
            Gives(r, if AllNamed(s, e, defaultName) then Eval(StoreEnv(s, defaultName), Some(e)) else Err(NodeNotFound))
  {
    hide Valid, Eval, NamesFrom, Outcome, AllNamed, StoreEnv, Gives;
    ghost var s := storage.View();
    ValidIndexed(s);
    PresentAll(s.nodes);
    var nodes := AllPresent(storage.nodes);
    var caches := GetCaches(storage);
    var isCached := storage.toBeCached == [];
    StackEmpty(storage.toBeCached);
    r := Execute(e, storage, defaultName, nodes, caches, isCached);
    ghost var names :| NamesFrom(nodes, names) &&
      Gives(r, Outcome(storage.nodes, names, nodes, isCached, CachedSets(caches, ChildrenDirection),
                       CachedSets(caches, ParentsDirection), e, defaultName));
    OutcomeInStore(s, names, CachedSets(caches, ChildrenDirection), CachedSets(caches, ParentsDirection), e,
      defaultName);
  }

  lemma StackEmpty(toBeCached: seq<nat>)
    ensures toBeCached == [] <==> Members(toBeCached) == {}
  {
    if toBeCached != [] {
      assert toBeCached[0] in Members(toBeCached);
    }
  }

  // ---------- main results ----------

  /** The environment whose answers are the reachable sets themselves. */
  ghost function UncachedEnv(s: State, defaultName: string): Env
    requires Valid(s)
  {
    StoreEnv(s, defaultName).(dependencies := map x | x in s.nodes :: Uncached(s, x, ChildrenDirection),
                              dependents := map x | x in s.nodes :: Uncached(s, x, ParentsDirection))
  }

  /** With exact answers a script sees the same with the cache as without. */
  lemma CachedSeesTheSame(s: State, defaultName: string)
    requires Valid(s) && Runs.Exact(s)
    ensures StoreEnv(s, defaultName) == UncachedEnv(s, defaultName)
  {
    hide Uncached, Valid, Answer;
    forall x, direction | x in s.nodes
      ensures Answer(s, x, direction) == Ok(Uncached(s, x, direction))
    {
    }
    assert AnswersOf(s, ChildrenDirection) == map x | x in s.nodes :: Uncached(s, x, ChildrenDirection);
    assert AnswersOf(s, ParentsDirection) == map x | x in s.nodes :: Uncached(s, x, ParentsDirection);
  }

  /** After a run in which every Cache was covered, a script evaluates to the same with the cache as without it. */
  lemma CachedRunSeesTheSame(ops: seq<Runs.Op>, e: Expression, defaultName: string)
    requires Runs.CachesCovered(ops)
    ensures Eval(StoreEnv(Runs.Run(ops), defaultName), Some(e))
            == Eval(UncachedEnv(Runs.Run(ops), defaultName), Some(e))
  {
    hide Eval, Valid;
    Runs.RunExactIff(ops);
    Runs.ExactNow(ops);
    CachedSeesTheSame(Runs.Run(ops), defaultName);
  }

  /** A bracket-free script over stored names evaluates to the right-associated set algebra over type-filtered reachable
      sets. */
  lemma ScriptIsSetAlgebra(s: State, e: Expression, defaultName: string)
    requires Valid(s) && Runs.Exact(s) && WellFormed(e) && BracketFree(e) && AllNamed(s, e, defaultName)
    ensures Eval(StoreEnv(s, defaultName), Some(e)) == Ok(Some(Meaning(UncachedEnv(s, defaultName), e, true)))
  {
    hide Uncached, Valid, Eval, Meaning, Queried;
    CachedSeesTheSame(s, defaultName);
    ValidIndexed(s);
    BracketFreeIsExact(StoreEnv(s, defaultName), e);
  }

  /** A query means the stored nodes of its type that the node it names, or else the default one, reaches through
      children or through parents. */
  lemma QueryMeansReachable(s: State, q: Query, defaultName: string, name: string, x: nat)
    requires Valid(s) && q.queryType in {"dependencies", "dependents"} && name in s.nameToID
    requires q.nodeName == Some(name) || (q.nodeName == None && name == defaultName)
    ensures var g := if q.queryType == "dependencies" then ChildGraph(s.nodes) else ParentGraph(s.nodes);
            x in QueryMeaning(UncachedEnv(s, defaultName), q) <==>
              Reaches(g, s.nameToID[name], x) && x in s.nodes && s.nodes[x].typ == q.nodeType
  {
    hide Reaches, ReachSet;
    var direction := if q.queryType == "dependencies" then ChildrenDirection else ParentsDirection;
    ValidIndexed(s);
    var id := s.nameToID[name];
    FreshCopySeesStore(s, id, direction);
    assert StoredGraph(s.nodes, ChildrenDirection) == ChildGraph(s.nodes);
    assert StoredGraph(s.nodes, ParentsDirection) == ParentGraph(s.nodes);
    assert IDOf(UncachedEnv(s, defaultName), q) == id;
  }
}
