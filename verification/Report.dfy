/**
 buildFinding: the scores and statements of one vulnerability, and which products it reaches by which path.
 */
module Report {
  import opened Results
  import opened Bitmaps
  import opened Graphs
  import opened Store
  import opened Texts
  import opened Sorting
  import opened Findings
  import opened Paths

  // ---------- the walk up ----------

  /** The names of the stored nodes among ids, but for v's own. */
  function DirectNames(nodes: map<nat, NodeRecord>, v: nat, ids: seq<nat>): seq<string> {
    if ids == [] then []
    else
      var last := ids[|ids| - 1];
      DirectNames(nodes, v, ids[..|ids| - 1]) + (if last != v && last in nodes then [nodes[last].name] else [])
  }

  lemma {:induction false} DirectNamesAre(nodes: map<nat, NodeRecord>, v: nat, ids: seq<nat>, name: string)
    ensures name in DirectNames(nodes, v, ids) <==>
            exists p :: p in ids && p != v && p in nodes && nodes[p].name == name
  {
    if ids != [] {
      var n := |ids| - 1;
      DirectNamesAre(nodes, v, ids[..n], name);
      assert ids == ids[..n] + [ids[n]];
    }
  }

  /** A node other than v that nothing depends on. */
  predicate Top(nodes: map<nat, NodeRecord>, v: nat, x: nat) {
    x != v && x in nodes && nodes[x].parents == {}
  }

  /** products lists the top nodes among those done, each once; packages is filled in v's own round. */
  ghost predicate Listing(nodes: map<nat, NodeRecord>, v: nat, done: set<nat>, products: seq<nat>,
                          packages: seq<string>) {
    && (forall x :: x in products <==> x in done && Top(nodes, v, x))
    && (forall i, j :: 0 <= i < j < |products| ==> products[i] != products[j])
    && (v in nodes ==> packages == if v in done then DirectNames(nodes, v, ToArray(nodes[v].parents)) else [])
    && (done != {} ==> v in done)
  }

  /** One round: the parents of c are visited. */
  method Expand(nodes: map<nat, NodeRecord>, v: nat, c: nat, queue: seq<nat>, next: map<nat, nat>, visited: set<nat>,
                packages: seq<string>,
                ghost dist: map<nat, nat>, ghost done: set<nat>)
      returns (queue1: seq<nat>, next1: map<nat, nat>, visited1: set<nat>, packages1: seq<string>,
               ghost dist1: map<nat, nat>)
    requires c in nodes && Expanding(ParentGraph(nodes), v, c, queue, dist, next, done, {}) && visited == dist.Keys
    requires c == v ==> visited == {v} && packages == []
    ensures Walking(ParentGraph(nodes), v, queue1, dist1, next1, done + {c}) && visited1 == dist1.Keys
    ensures packages1 == if c == v then DirectNames(nodes, v, ToArray(nodes[v].parents)) else packages
  {
    hide Expanding, Walking;
    ghost var g := ParentGraph(nodes);
    var parents := ToArray(nodes[c].parents);
    ElementsOfArray(nodes[c].parents);
    EmptyElements();
    queue1, next1, visited1, packages1, dist1 := queue, next, visited, packages, dist;
    ExpandingHolds(g, v, c, queue, dist, next, done, {});
    for j := 0 to |parents|
      invariant Expanding(g, v, c, queue1, dist1, next1, done, Elements(parents[..j])) && visited1 == dist1.Keys
      invariant c in dist1
      invariant c == v ==> visited1 == {v} + Elements(parents[..j])
      invariant packages1 == if c == v then DirectNames(nodes, v, parents[..j]) else packages
    {
      var parent := parents[j];
      ElementsSnoc(parents, j);
      ElementsOf(parents, parent);
      NotYet(nodes[c].parents, j);
      assert parents[..j + 1][..j] == parents[..j];
      ghost var seen := Elements(parents[..j]);
      ExpandingHolds(g, v, c, queue1, dist1, next1, done, seen);
      if parent in visited1 {
        Rediscover(g, v, c, queue1, dist1, next1, done, seen, parent);
      } else {
        Discover(g, v, c, queue1, dist1, next1, done, seen, parent);
        dist1 := dist1[parent := dist1[c] + 1];
        visited1 := visited1 + {parent};
        next1 := next1[parent := c];
        queue1 := queue1 + [parent];
        if c == v {
          if parent in nodes {
            packages1 := packages1 + [nodes[parent].name];
          }
        }
      }
    }
    assert parents[..|parents|] == parents;
    FinishRound(g, v, c, queue1, dist1, next1, done);
  }

  lemma NotYet(s: set<nat>, j: nat)
    requires j < |ToArray(s)|
    ensures ToArray(s)[j] !in Elements(ToArray(s)[..j])
  {
    ToArrayAscends(s);
    ElementsOf(ToArray(s)[..j], ToArray(s)[j]);
  }

  lemma ExpandingHolds(g: Graph, v: nat, c: nat, queue: seq<nat>, dist: map<nat, nat>, next: map<nat, nat>,
                       done: set<nat>, seen: set<nat>)
    requires Expanding(g, v, c, queue, dist, next, done, seen)
    ensures c in dist && v in dist
  {
  }

  /** The queue loop of buildFinding. */
  method WalkUp(nodes: map<nat, NodeRecord>, v: nat)
      returns (products: seq<nat>, packages: seq<string>, next: map<nat, nat>, ghost dist: map<nat, nat>,
               ghost done: set<nat>)
    requires v in nodes
    ensures Walking(ParentGraph(nodes), v, [], dist, next, done) && done == dist.Keys
    ensures forall x :: x in products <==> x in dist && Top(nodes, v, x)
    ensures forall i, j :: 0 <= i < j < |products| ==> products[i] != products[j]
    ensures packages == DirectNames(nodes, v, ToArray(nodes[v].parents))
  {
    hide Walking, Expanding, Top;
    ghost var g := ParentGraph(nodes);
    var queue, visited := [v], {v};
    products, packages, next, dist, done := [], [], map[], map[v := 0], {};
    Begin(g, v);
    while |queue| > 0
      decreases AllIDs(nodes, v) - done, |queue|
      invariant Walking(g, v, queue, dist, next, done) && visited == dist.Keys && dist.Keys <= AllIDs(nodes, v)
      invariant Listing(nodes, v, done, products, packages)
    {
      var current := queue[0];
      HeadIsNew(g, v, queue, dist, next, done);
      assert current in AllIDs(nodes, v) - done && current !in AllIDs(nodes, v) - (done + {current});
      if current !in nodes {
        SkipHead(g, v, queue, dist, next, done);
        NotTop(nodes, v, current);
        queue := queue[1..];
      } else {
        ghost var done0, products0, packages0 := done, products, packages;
        TakeHead(g, v, queue, dist, next, done);
        FirstRound(g, v, queue, dist, next, done);
        if current != v && nodes[current].parents == {} {
          products := products + [current];
        }
        queue, next, visited, packages, dist :=
          Expand(nodes, v, current, queue[1..], next, visited, packages, dist, done);
        VisitedKnown(nodes, v, queue, dist, next, done + {current});
        ListOneMore(nodes, v, done0, products0, packages0, current, products, packages);
      }
      done := done + {current};
    }
    assert queue == [];
    AllDone(g, v, dist, next, done);
  }

  ghost function AllIDs(nodes: map<nat, NodeRecord>, v: nat): set<nat> {
    {v} + nodes.Keys + set x, y | x in nodes && y in nodes[x].parents :: y
  }

  lemma NotTop(nodes: map<nat, NodeRecord>, v: nat, x: nat)
    requires x !in nodes
    ensures !Top(nodes, v, x)
  {
  }

  lemma HeadIsNew(g: Graph, v: nat, queue: seq<nat>, dist: map<nat, nat>, next: map<nat, nat>, done: set<nat>)
    requires Walking(g, v, queue, dist, next, done) && queue != []
    ensures queue[0] in dist && queue[0] !in done && v in dist
    ensures done == {} ==> queue[0] == v
  {
  }

  lemma FirstRound(g: Graph, v: nat, queue: seq<nat>, dist: map<nat, nat>, next: map<nat, nat>, done: set<nat>)
    requires Walking(g, v, queue, dist, next, done) && queue != []
    ensures done == {} ==> queue == [v] && dist.Keys == {v}
  {
  }

  lemma VisitedKnown(nodes: map<nat, NodeRecord>, v: nat, queue: seq<nat>, dist: map<nat, nat>, next: map<nat, nat>,
                     done: set<nat>)
    requires Walking(ParentGraph(nodes), v, queue, dist, next, done)
    ensures dist.Keys <= AllIDs(nodes, v)
  {
    forall x | x in dist
      ensures x in AllIDs(nodes, v)
    {
      if x != v {
        assert x in Succ(ParentGraph(nodes), next[x]);
      }
    }
  }

  lemma ListOneMore(nodes: map<nat, NodeRecord>, v: nat, done: set<nat>, products: seq<nat>, packages: seq<string>,
                    c: nat, products1: seq<nat>, packages1: seq<string>)
    requires Listing(nodes, v, done, products, packages) && c in nodes && c !in done && (done == {} ==> c == v)
    requires products1 == if c != v && nodes[c].parents == {} then products + [c] else products
    requires packages1 == if c == v then DirectNames(nodes, v, ToArray(nodes[v].parents)) else packages
    ensures Listing(nodes, v, done + {c}, products1, packages1)
  {
  }

  lemma AllDone(g: Graph, v: nat, dist: map<nat, nat>, next: map<nat, nat>, done: set<nat>)
    requires Walking(g, v, [], dist, next, done)
    ensures done == dist.Keys && v in dist && done != {}
  {
    assert forall d :: d in done ==> d in dist;
  }

  // ---------- KEV, EPSS and VEX ----------

  /** The readable entries of the KEV, EPSS and VEX tags, by vulnerability name. */
  datatype Data = Data(kev: map<string, KEVEntry>, epss: map<string, EPSSScore>,
    vex: map<string, map<string, VEXStatement>>)

  /** What a readable OSV record says about a vulnerability node. */
  datatype Details = Details(aliases: seq<string>, summary: string, severity: string)

  predicate HasKEV(data: Data, name: string) {
    HasPrefix(name, "CVE-") && name in data.kev
  }

  predicate HasEPSS(data: Data, name: string) {
    HasPrefix(name, "CVE-") && name in data.epss
  }

  predicate HasVEX(data: Data, name: string, product: string) {
    name in data.vex && product in data.vex[name]
  }

  /** The KEV entry is that of the first CVE name that has one. */
  ghost predicate KEVFor(data: Data, names: seq<string>, kev: Option<KEVEntry>) {
    match kev
    case None => forall i {:trigger names[i]} :: 0 <= i < |names| ==> !HasKEV(data, names[i])
    case Some(e) => exists i :: FirstKEV(data, names, e, i)
  }

  ghost predicate FirstKEV(data: Data, names: seq<string>, e: KEVEntry, i: int) {
    && 0 <= i < |names| && HasKEV(data, names[i]) && data.kev[names[i]] == e
    && forall j {:trigger names[j]} :: 0 <= j < i ==> !HasKEV(data, names[j])
  }

  /** The EPSS score is the highest of the CVE names, and the first of equals. */
  ghost predicate EPSSFor(data: Data, names: seq<string>, epss: Option<EPSSScore>) {
    match epss
    case None => forall i {:trigger names[i]} :: 0 <= i < |names| ==> !HasEPSS(data, names[i])
    case Some(e) => exists i :: TopEPSS(data, names, e, i)
  }

  ghost predicate TopEPSS(data: Data, names: seq<string>, e: EPSSScore, i: int) {
    && 0 <= i < |names| && HasEPSS(data, names[i]) && data.epss[names[i]] == e
    && (forall j {:trigger names[j]} ::
         0 <= j < |names| && HasEPSS(data, names[j]) ==> data.epss[names[j]].epss <= e.epss)
    && (forall j {:trigger names[j]} :: 0 <= j < i && HasEPSS(data, names[j]) ==> data.epss[names[j]].epss < e.epss)
  }

  /** A product's statement is that of the last name with a statement about it. */
  ghost predicate VEXFor(data: Data, names: seq<string>, vex: map<string, VEXStatement>) {
    && (forall i, product {:trigger HasVEX(data, names[i], product)} ::
         0 <= i < |names| && HasVEX(data, names[i], product) ==> product in vex)
    && forall product {:trigger product in vex} ::
         product in vex ==> exists i :: LastVEX(data, names, product, vex[product], i)
  }

  ghost predicate LastVEX(data: Data, names: seq<string>, product: string, st: VEXStatement, i: int) {
    && 0 <= i < |names| && HasVEX(data, names[i], product) && data.vex[names[i]][product] == st
    && forall j {:trigger names[j]} :: i < j < |names| ==> !HasVEX(data, names[j], product)
  }

  lemma KEVStep(data: Data, names: seq<string>, kev: Option<KEVEntry>, name: string)
    requires KEVFor(data, names, kev)
    ensures KEVFor(data, names + [name], if kev.None? && HasKEV(data, name) then Some(data.kev[name]) else kev)
  {
    var all := names + [name];
    if kev.Some? {
      var i :| FirstKEV(data, names, kev.value, i);
      assert FirstKEV(data, all, kev.value, i);
    } else if HasKEV(data, name) {
      assert FirstKEV(data, all, data.kev[name], |names|);
    }
  }

  lemma EPSSStep(data: Data, names: seq<string>, epss: Option<EPSSScore>, name: string)
    requires EPSSFor(data, names, epss)
    ensures EPSSFor(data, names + [name],
                    if HasEPSS(data, name)
                      && (epss.None? || data.epss[name].epss > epss.value.epss) then Some(data.epss[name]) else epss)
  {
    var all := names + [name];
    if HasEPSS(data, name) && (epss.None? || data.epss[name].epss > epss.value.epss) {
      assert TopEPSS(data, all, data.epss[name], |names|) by {
        if epss.Some? {
          var i :| TopEPSS(data, names, epss.value, i);
        }
      }
    } else if epss.Some? {
      var i :| TopEPSS(data, names, epss.value, i);
      assert TopEPSS(data, all, epss.value, i);
    }
  }

  lemma VEXStep(data: Data, names: seq<string>, vex: map<string, VEXStatement>, name: string)
    requires VEXFor(data, names, vex)
    ensures VEXFor(data, names + [name], if name in data.vex then vex + data.vex[name] else vex)
  {
    var all := names + [name];
    var vex1 := if name in data.vex then vex + data.vex[name] else vex;
    forall product {:trigger product in vex1} | product in vex1
      ensures exists i :: LastVEX(data, all, product, vex1[product], i)
    {
      if HasVEX(data, name, product) {
        assert LastVEX(data, all, product, vex1[product], |names|);
      } else {
        var i :| LastVEX(data, names, product, vex[product], i);
        assert LastVEX(data, all, product, vex1[product], i);
      }
    }
    forall i, product {:trigger HasVEX(data, all[i], product)} | 0 <= i < |all| && HasVEX(data, all[i], product)
      ensures product in vex1
    {
      if i < |names| {
        assert HasVEX(data, names[i], product);
      }
    }
  }

  /** The loop over a vulnerability's names for KEV and EPSS. */
  method Scores(data: Data, names: seq<string>) returns (kev: Option<KEVEntry>, epss: Option<EPSSScore>)
    ensures KEVFor(data, names, kev) && EPSSFor(data, names, epss)
  {
    hide KEVFor, EPSSFor;
    kev, epss := None, None;
    NoScores(data);
    for i := 0 to |names|
      invariant KEVFor(data, names[..i], kev) && EPSSFor(data, names[..i], epss)
    {
      var name := names[i];
      assert names[..i + 1] == names[..i] + [name];
      KEVStep(data, names[..i], kev, name);
      EPSSStep(data, names[..i], epss, name);
      if !HasPrefix(name, "CVE-") {
        continue;
      }
      if kev.None? {
        if name in data.kev {
          kev := Some(data.kev[name]);
        }
      }
      if name in data.epss {
        if epss.None? || data.epss[name].epss > epss.value.epss {
          epss := Some(data.epss[name]);
        }
      }
    }
    assert names[..|names|] == names;
  }

  lemma NoScores(data: Data)
    ensures KEVFor(data, [], None) && EPSSFor(data, [], None) && VEXFor(data, [], map[])
  {
  }

  /** The loop that overlays the VEX statements of the names. */
  method Statements(data: Data, names: seq<string>) returns (vex: map<string, VEXStatement>)
    ensures VEXFor(data, names, vex)
  {
    hide VEXFor;
    vex := map[];
    NoScores(data);
    for i := 0 to |names|
      invariant VEXFor(data, names[..i], vex)
    {
      assert names[..i + 1] == names[..i] + [names[i]];
      VEXStep(data, names[..i], vex, names[i]);
      if names[i] in data.vex {
        vex := vex + data.vex[names[i]];
      }
    }
    assert names[..|names|] == names;
  }

  // ---------- the product list ----------

  /** A product of vulnerability v: a top node that v reaches upward. */
  ghost predicate IsProduct(nodes: map<nat, NodeRecord>, v: nat, x: nat) {
    Top(nodes, v, x) && Reaches(ParentGraph(nodes), v, x)
  }

  function NamesOn(nodes: map<nat, NodeRecord>, ids: seq<nat>): (path: seq<string>)
    requires forall x :: x in ids ==> x in nodes
    ensures |path| == |ids|
  {
    seq(|ids|, i requires 0 <= i < |ids| => assert ids[i] in ids; nodes[ids[i]].name)
  }

  /** The product at the top of a chain, with a statement about it or about the vulnerable package. */
  function ProductFor(nodes: map<nat, NodeRecord>, vex: map<string, VEXStatement>, ids: seq<nat>): Product
    requires ids != [] && forall x :: x in ids ==> x in nodes
  {
    assert ids[0] in ids;
    var name := nodes[ids[0]].name;
    var path := NamesOn(nodes, ids);
    var last := path[|path| - 1];
    Product(name, path, if name in vex then Some(vex[name]) else if last in vex then Some(vex[last]) else None)
  }

  predicate Hides(p: Product) {
    p.vex.Some? && (p.vex.value.status == "not_affected" || p.vex.value.status == "fixed")
  }

  /** ids is a shortest chain from one of v's products down to v. */
  ghost predicate ShortestChain(nodes: map<nat, NodeRecord>, v: nat, ids: seq<nat>) {
    && ids != [] && (forall x :: x in ids ==> x in nodes)
    && IsProduct(nodes, v, ids[0])
    && Chain(ParentGraph(nodes), v, ids)
    && NoShorter(ParentGraph(nodes), v, ids[0], |ids|)
  }

  ghost predicate Chains(nodes: map<nat, NodeRecord>, v: nat, chains: seq<seq<nat>>) {
    && (forall i {:trigger chains[i]} :: 0 <= i < |chains| ==> ShortestChain(nodes, v, chains[i]))
    && (forall i, j :: 0 <= i < j < |chains| ==> chains[i] != [] && chains[j] != [] && chains[i][0] != chains[j][0])
  }

  ghost function ProductsFor(nodes: map<nat, NodeRecord>, vex: map<string, VEXStatement>,
                             chains: seq<seq<nat>>): multiset<Product>
    requires forall i {:trigger chains[i]} ::
               0 <= i < |chains| ==> chains[i] != [] && forall x :: x in chains[i] ==> x in nodes
  {
    if chains == [] then multiset{}
    else
      var n := |chains| - 1;
      ProductsFor(nodes, vex, chains[..n]) + multiset{ProductFor(nodes, vex, chains[n])}
  }

  /** Each product of v appears once, in exactly one of the two lists, with a shortest path. */
  ghost predicate Accounts(nodes: map<nat, NodeRecord>, v: nat, vex: map<string, VEXStatement>, chains: seq<seq<nat>>,
                           shown: seq<Product>, hidden: seq<Product>) {
    && Chains(nodes, v, chains)
    && multiset(shown) + multiset(hidden) == ProductsFor(nodes, vex, chains)
    && (forall p :: p in shown ==> !Hides(p)) && (forall p :: p in hidden ==> Hides(p))
  }

  ghost predicate AllListed(nodes: map<nat, NodeRecord>, v: nat, chains: seq<seq<nat>>) {
    forall x {:trigger IsProduct(nodes, v, x)} ::
      IsProduct(nodes, v, x) ==> exists i :: 0 <= i < |chains| && chains[i] != [] && chains[i][0] == x
  }

  predicate NameLess(a: Product, b: Product) {
    Compare(a.name, b.name) < 0
  }

  lemma NameOrders(s: seq<Product>)
    ensures Orders(NameLess, s)
  {
    forall a, b
      ensures NameLess(a, b) ==> !NameLess(b, a)
    {
      CompareFlips(a.name, b.name);
    }
    forall a, b, c | !NameLess(a, b) && !NameLess(b, c)
      ensures !NameLess(a, c)
    {
      CompareFlips(a.name, b.name);
      CompareFlips(b.name, c.name);
      CompareFlips(a.name, c.name);
      CompareTrans(c.name, b.name, a.name);
    }
  }

  /** One more chain, its product put on the list it belongs to. */
  lemma AccountsStep(nodes: map<nat, NodeRecord>, v: nat, vex: map<string, VEXStatement>, chains: seq<seq<nat>>,
                     shown: seq<Product>, hidden: seq<Product>,
                     ids: seq<nat>, shown1: seq<Product>, hidden1: seq<Product>)
    requires Accounts(nodes, v, vex, chains, shown, hidden) && ShortestChain(nodes, v, ids)
    requires forall i {:trigger chains[i]} :: 0 <= i < |chains| ==> chains[i] != [] && chains[i][0] != ids[0]
    requires var p := ProductFor(nodes, vex, ids);
             if Hides(p) then shown1 == shown && hidden1 == hidden + [p] else shown1 == shown + [p] && hidden1 == hidden
    ensures Accounts(nodes, v, vex, chains + [ids], shown1, hidden1)
  {
    hide Chains, ShortestChain, ProductFor, ProductsFor, Hides;
    ShortestChainNodes(nodes, v, ids);
    ChainsStep(nodes, v, chains, ids);
    ChainsNodes(nodes, v, chains);
    ProductsSnoc(nodes, vex, chains, ids);
    ListStep(ProductFor(nodes, vex, ids), shown, hidden, shown1, hidden1);
  }

  lemma ProductsSnoc(nodes: map<nat, NodeRecord>, vex: map<string, VEXStatement>, chains: seq<seq<nat>>, ids: seq<nat>)
    requires forall i {:trigger chains[i]} ::
               0 <= i < |chains| ==> chains[i] != [] && forall x :: x in chains[i] ==> x in nodes
    requires ids != [] && forall x :: x in ids ==> x in nodes
    ensures forall i {:trigger (chains + [ids])[i]} ::
              0 <= i <= |chains| ==> (chains + [ids])[i] != [] && forall x :: x in (chains + [ids])[i] ==> x in nodes
    ensures ProductsFor(nodes, vex, chains + [ids])
            == ProductsFor(nodes, vex, chains) + multiset{ProductFor(nodes, vex, ids)}
  {
    hide ProductFor;
    assert (chains + [ids])[..|chains|] == chains;
  }

  /** A product goes on exactly one list. */
  lemma ListStep(p: Product, shown: seq<Product>, hidden: seq<Product>, shown1: seq<Product>, hidden1: seq<Product>)
    requires (forall q :: q in shown ==> !Hides(q)) && (forall q :: q in hidden ==> Hides(q))
    requires if Hides(p) then shown1 == shown && hidden1 == hidden + [p] else shown1 == shown + [p] && hidden1 == hidden
    ensures multiset(shown1) + multiset(hidden1) == multiset(shown) + multiset(hidden) + multiset{p}
    ensures (forall q :: q in shown1 ==> !Hides(q)) && (forall q :: q in hidden1 ==> Hides(q))
  {
    hide Hides;
  }

  lemma ChainsStep(nodes: map<nat, NodeRecord>, v: nat, chains: seq<seq<nat>>, ids: seq<nat>)
    requires Chains(nodes, v, chains) && ShortestChain(nodes, v, ids)
    requires forall i {:trigger chains[i]} :: 0 <= i < |chains| ==> chains[i] != [] && chains[i][0] != ids[0]
    ensures Chains(nodes, v, chains + [ids])
  {
    ShortestChainNodes(nodes, v, ids);
    hide ShortestChain;
  }

  lemma ChainsNodes(nodes: map<nat, NodeRecord>, v: nat, chains: seq<seq<nat>>)
    requires Chains(nodes, v, chains)
    ensures forall i {:trigger chains[i]} ::
              0 <= i < |chains| ==> chains[i] != [] && forall x :: x in chains[i] ==> x in nodes
  {
    hide IsProduct, Chain, NoShorter;
  }

  lemma ShortestChainNodes(nodes: map<nat, NodeRecord>, v: nat, ids: seq<nat>)
    requires ShortestChain(nodes, v, ids)
    ensures ids != [] && (forall x :: x in ids ==> x in nodes)
  {
  }

  lemma NoProducts(nodes: map<nat, NodeRecord>, v: nat, vex: map<string, VEXStatement>)
    ensures Accounts(nodes, v, vex, [], [], [])
  {
  }

  /** The chain found for a visited product is a shortest one. */
  lemma FoundChain(nodes: map<nat, NodeRecord>, v: nat, dist: map<nat, nat>, next: map<nat, nat>, done: set<nat>,
                   x: nat, ids: seq<nat>)
    requires Walking(ParentGraph(nodes), v, [], dist, next, done) && x in dist && Top(nodes, v, x)
    requires Chain(ParentGraph(nodes), v, ids) && |ids| == dist[x] && ids != [] && ids[0] == x
    requires forall y :: y in ids ==> y == x || y in ParentGraph(nodes)
    ensures ShortestChain(nodes, v, ids)
  {
    hide Walking, Chain, NoShorter;
    NothingShorter(ParentGraph(nodes), v, dist, next, done, x);
    VisitedIffReached(ParentGraph(nodes), v, dist, next, done, x);
  }

  lemma WalkLinks(g: Graph, v: nat, queue: seq<nat>, dist: map<nat, nat>, next: map<nat, nat>, done: set<nat>)
    requires Walking(g, v, queue, dist, next, done)
    ensures Links(g, v, dist, next)
  {
  }

  lemma EveryProductFollowed(nodes: map<nat, NodeRecord>, v: nat, dist: map<nat, nat>, next: map<nat, nat>,
                             done: set<nat>, products: seq<nat>, chains: seq<seq<nat>>)
    requires Walking(ParentGraph(nodes), v, [], dist, next, done)
    requires forall x :: x in products <==> x in dist && Top(nodes, v, x)
    requires |chains| == |products| && forall i {:trigger chains[i]} ::
               0 <= i < |chains| ==> chains[i] != [] && chains[i][0] == products[i]
    ensures AllListed(nodes, v, chains)
  {
    hide Walking, Top;
    forall x {:trigger IsProduct(nodes, v, x)} | IsProduct(nodes, v, x)
      ensures exists i :: 0 <= i < |chains| && chains[i] != [] && chains[i][0] == x
    {
      VisitedIffReached(ParentGraph(nodes), v, dist, next, done, x);
      var i :| 0 <= i < |products| && products[i] == x;
      assert chains[i][0] == x;
    }
  }

  /** The walk up and the product loop: packages, products and suppressed products of v. */
  method ListProducts(nodes: map<nat, NodeRecord>, v: nat, vex: map<string, VEXStatement>)
      returns (packages: seq<string>, shown: seq<Product>, hidden: seq<Product>, ghost chains: seq<seq<nat>>)
    requires v in nodes
    ensures packages == DirectNames(nodes, v, ToArray(nodes[v].parents))
    ensures Accounts(nodes, v, vex, chains, shown, hidden) && AllListed(nodes, v, chains)
  {
    hide Walking, Accounts, AllListed, ShortestChain, Chain, Top, Links, ProductFor, Hides, DirectNames, ToArray;
    var products, found, next; ghost var dist, done;
    products, found, next, dist, done := WalkUp(nodes, v);
    packages := found;
    ghost var g := ParentGraph(nodes);
    WalkLinks(g, v, [], dist, next, done);
    shown, hidden, chains := [], [], [];
    NoProducts(nodes, v, vex);
    for i := 0 to |products|
      invariant Accounts(nodes, v, vex, chains, shown, hidden)
      invariant |chains| == i && forall k {:trigger chains[k]} ::
                  0 <= k < i ==> chains[k] != [] && chains[k][0] == products[k]
    {
      var id := products[i];
      assert id in products;
      TopIsNot(nodes, v, id);
      var ids := Follow(g, v, next, id, dist);
      FoundChain(nodes, v, dist, next, done, id, ids);
      ShortestChainNodes(nodes, v, ids);
      var product := ProductFor(nodes, vex, ids);
      ghost var shown0, hidden0 := shown, hidden;
      if Hides(product) {
        hidden := hidden + [product];
      } else {
        shown := shown + [product];
      }
      AccountsStep(nodes, v, vex, chains, shown0, hidden0, ids, shown, hidden);
      chains := chains + [ids];
    }
    EveryProductFollowed(nodes, v, dist, next, done, products, chains);
  }

  lemma TopIsNot(nodes: map<nat, NodeRecord>, v: nat, x: nat)
    requires Top(nodes, v, x)
    ensures x != v && x in nodes
  {
  }

  // ---------- buildFinding ----------

  ghost predicate IsFinding(nodes: map<nat, NodeRecord>, records: map<nat, Details>, data: Data, v: nat, f: Finding,
                            vex: map<string, VEXStatement>, chains: seq<seq<nat>>)
    requires v in nodes
  {
    && f.id == nodes[v].name
    && (if v in records then f.aliases == records[v].aliases && f.summary == records[v].summary
    && f.severity == records[v].severity
        else f.aliases == [] && f.summary == "" && f.severity == "")
    && KEVFor(data, NamesOf(f), f.kev) && EPSSFor(data, NamesOf(f), f.epss) && VEXFor(data, NamesOf(f), vex)
    && multiset(f.packages) == multiset(DirectNames(nodes, v, ToArray(nodes[v].parents)))
    && Sorted(TextLess, f.packages)
    && Accounts(nodes, v, vex, chains, f.products, f.suppressed) && AllListed(nodes, v, chains)
    && Sorted(NameLess, f.products) && Sorted(NameLess, f.suppressed)
  }

  lemma SortedLists(nodes: map<nat, NodeRecord>, v: nat, vex: map<string, VEXStatement>, chains: seq<seq<nat>>,
                    shown: seq<Product>, hidden: seq<Product>)
    requires Accounts(nodes, v, vex, chains, shown, hidden)
    ensures Accounts(nodes, v, vex, chains, StableSort(NameLess, shown), StableSort(NameLess, hidden))
    ensures Sorted(NameLess, StableSort(NameLess, shown)) && Sorted(NameLess, StableSort(NameLess, hidden))
  {
    hide Chains, Hides, NameLess;
    NameOrders(shown);
    NameOrders(hidden);
    SortSorted(NameLess, shown);
    SortSorted(NameLess, hidden);
    SortPermutes(NameLess, shown);
    SortPermutes(NameLess, hidden);
    forall p
      ensures p in StableSort(NameLess, shown) <==> p in shown
      ensures p in StableSort(NameLess, hidden) <==> p in hidden
    {
      SortKeepsElements(NameLess, shown, p);
      SortKeepsElements(NameLess, hidden, p);
    }
  }

  ghost predicate Found(nodes: map<nat, NodeRecord>, records: map<nat, Details>, data: Data, v: nat, f: Finding) {
    v in nodes && exists vex, chains :: IsFinding(nodes, records, data, v, f, vex, chains)
  }

  /** buildFinding. */
  method BuildFinding(nodes: map<nat, NodeRecord>, records: map<nat, Details>, data: Data, v: nat)
      returns (finding: Finding)
    requires v in nodes
    ensures Found(nodes, records, data, v, finding)
  {
    hide Accounts, AllListed, KEVFor, EPSSFor, VEXFor, Sorted, NamesOf, StableSort, ToArray, DirectNames;
    finding := Finding(nodes[v].name, [], "", "", None, None, [], [], []);
    if v in records {
      finding :=
        finding.(aliases := records[v].aliases, summary := records[v].summary, severity := records[v].severity);
    }
    var names := NamesOf(finding);
    var kev, epss := Scores(data, names);
    var vex := Statements(data, names);
    ghost var chains;
    var packages, shown, hidden;
    packages, shown, hidden, chains := ListProducts(nodes, v, vex);
    TextOrders(packages);
    SortSorted(TextLess, packages);
    SortPermutes(TextLess, packages);
    SortedLists(nodes, v, vex, chains, shown, hidden);
    ghost var named := finding;
    finding := finding.(kev := kev, epss := epss, packages := StableSort(TextLess, packages),
                        products := StableSort(NameLess, shown), suppressed := StableSort(NameLess, hidden));
    SameNamesOf(named, finding);
    assert IsFinding(nodes, records, data, v, finding, vex, chains);
  }

  lemma SameNamesOf(f: Finding, g: Finding)
    requires f.id == g.id && f.aliases == g.aliases
    ensures NamesOf(f) == NamesOf(g)
  {
  }

  // ---------- what a finding says about its node ----------

  /** The packages of a finding are exactly the names of the stored nodes that depend on the vulnerability directly. */
  lemma PackagesAreDirect(nodes: map<nat, NodeRecord>, records: map<nat, Details>, data: Data, v: nat, f: Finding,
                          vex: map<string, VEXStatement>, chains: seq<seq<nat>>, name: string)
    requires v in nodes && IsFinding(nodes, records, data, v, f, vex, chains)
    ensures name in f.packages <==> exists p :: p in nodes[v].parents && p != v && p in nodes && nodes[p].name == name
  {
    hide Accounts, AllListed, KEVFor, EPSSFor, VEXFor, Sorted, NamesOf;
    var ids := ToArray(nodes[v].parents);
    DirectNamesAre(nodes, v, ids, name);
    assert name in f.packages <==> name in multiset(f.packages);
    assert name in DirectNames(nodes, v, ids) <==> name in multiset(DirectNames(nodes, v, ids));
    forall p
      ensures p in ids <==> p in nodes[v].parents
    {
      ToArrayLists(nodes[v].parents, p);
    }
  }

  lemma {:induction false} ProductsForHas(nodes: map<nat, NodeRecord>, vex: map<string, VEXStatement>,
                                          chains: seq<seq<nat>>, p: Product)
    requires forall i {:trigger chains[i]} ::
               0 <= i < |chains| ==> chains[i] != [] && forall x :: x in chains[i] ==> x in nodes
    ensures p in ProductsFor(nodes, vex, chains) <==>
            exists i :: 0 <= i < |chains| && p == ProductFor(nodes, vex, chains[i])
  {
    hide ProductFor;
    if chains != [] {
      var n := |chains| - 1;
      ProductsForHas(nodes, vex, chains[..n], p);
      assert forall i {:trigger chains[i]} :: 0 <= i < n ==> chains[..n][i] == chains[i];
    }
  }

  /** A name is listed, shown or suppressed, exactly when it is that of a product: reached, not v, and nothing depends
      on it. */
  lemma ListedIffProduct(nodes: map<nat, NodeRecord>, records: map<nat, Details>, data: Data, v: nat, f: Finding,
                         vex: map<string, VEXStatement>, chains: seq<seq<nat>>, name: string)
    requires v in nodes && IsFinding(nodes, records, data, v, f, vex, chains)
    ensures name in ProductNames(f.products) + ProductNames(f.suppressed) <==>
            exists x :: x in nodes && x != v && nodes[x].parents == {} && Reaches(ParentGraph(nodes), v, x)
                     && nodes[x].name == name
  {
    hide KEVFor, EPSSFor, VEXFor, Sorted, NamesOf, Chain, NoShorter, DirectNames, ProductsFor, Hides, Reaches;
    ChainsNodes(nodes, v, chains);
    var all := ProductsFor(nodes, vex, chains);
    if x :| IsProduct(nodes, v, x) && nodes[x].name == name {
      var i :| 0 <= i < |chains| && chains[i] != [] && chains[i][0] == x;
      var p := ProductFor(nodes, vex, chains[i]);
      ProductsForHas(nodes, vex, chains, p);
      assert p in multiset(f.products) + multiset(f.suppressed);
      assert p in f.products || p in f.suppressed;
    }
    if p :| (p in f.products || p in f.suppressed) && p.name == name {
      var ids := ProductOnPath(nodes, records, data, v, f, vex, chains, p);
      assert IsProduct(nodes, v, ids[0]);
    }
  }

  /** The chain behind a listed product: its path names the nodes from the product down to the package, and its
      statement, about the product or else about the package, decides the list it is on. */
  lemma ProductOnPath(nodes: map<nat, NodeRecord>, records: map<nat, Details>, data: Data, v: nat, f: Finding,
                      vex: map<string, VEXStatement>, chains: seq<seq<nat>>, p: Product) returns (ids: seq<nat>)
    requires v in nodes && IsFinding(nodes, records, data, v, f, vex, chains) && (p in f.products || p in f.suppressed)
    ensures ShortestChain(nodes, v, ids) && ids != [] && |p.path| == |ids|
    ensures forall i :: 0 <= i < |ids| ==> ids[i] in nodes && p.path[i] == nodes[ids[i]].name
    ensures nodes[ids[0]].name == p.name && nodes[ids[0]].parents == {}
    ensures forall i :: 0 < i < |ids| ==> ids[i - 1] in nodes[ids[i]].parents
    ensures ids[|ids| - 1] in nodes[v].parents
    ensures p.vex == if p.name in vex then Some(vex[p.name])
                     else if nodes[ids[|ids| - 1]].name in vex then Some(vex[nodes[ids[|ids| - 1]].name]) else None
    ensures p in f.suppressed <==> p.vex.Some? && p.vex.value.status in {"not_affected", "fixed"}
  {
    hide KEVFor, EPSSFor, VEXFor, Sorted, NamesOf, Accounts, AllListed, ShortestChain, DirectNames;
    ids := ListedChain(nodes, v, vex, chains, f.products, f.suppressed, p);
    ChainLinks(nodes, v, ids);
    assert forall i :: 0 <= i < |ids| ==> ids[i] in ids;
  }

  /** Every listed product is that of a chain, on the list that Hides says. */
  lemma ListedChain(nodes: map<nat, NodeRecord>, v: nat, vex: map<string, VEXStatement>, chains: seq<seq<nat>>,
                    shown: seq<Product>, hidden: seq<Product>, p: Product) returns (ids: seq<nat>)
    requires Accounts(nodes, v, vex, chains, shown, hidden) && (p in shown || p in hidden)
    ensures ShortestChain(nodes, v, ids) && ids != [] && (forall x :: x in ids ==> x in nodes)
    ensures p == ProductFor(nodes, vex, ids) && (p in hidden <==> Hides(p))
  {
    hide ProductsFor, ShortestChain, ProductFor, Hides;
    ChainsNodes(nodes, v, chains);
    assert p in multiset(shown) + multiset(hidden);
    ProductsForHas(nodes, vex, chains, p);
    var k :| 0 <= k < |chains| && p == ProductFor(nodes, vex, chains[k]);
    ids := chains[k];
  }

  lemma ChainLinks(nodes: map<nat, NodeRecord>, v: nat, ids: seq<nat>)
    requires v in nodes && ShortestChain(nodes, v, ids)
    ensures nodes[ids[0]].parents == {} && ids[|ids| - 1] in nodes[v].parents
    ensures forall i :: 0 < i < |ids| ==> ids[i] in nodes && ids[i - 1] in nodes[ids[i]].parents
  {
    hide NoShorter, Reaches;
    forall i | 0 < i < |ids|
      ensures ids[i] in nodes && ids[i - 1] in nodes[ids[i]].parents
    {
      assert ids[i] in ids;
    }
  }

  /** The scores of a finding are those kept under its own names: the CVE ones, in capitals. */
  lemma ScoresOfNames(nodes: map<nat, NodeRecord>, records: map<nat, Details>, data: Data, v: nat, f: Finding,
                      vex: map<string, VEXStatement>, chains: seq<seq<nat>>)
    requires v in nodes && IsFinding(nodes, records, data, v, f, vex, chains)
    ensures forall name :: Carries(f, name) && "CVE-" <= name && name in data.kev ==> f.kev.Some?
    ensures f.kev.Some? ==>
              exists name :: Carries(f, name) && "CVE-" <= name && name in data.kev && data.kev[name] == f.kev.value
    ensures forall name :: Carries(f, name) && "CVE-" <= name && name in data.epss ==>
              f.epss.Some? && data.epss[name].epss <= f.epss.value.epss
    ensures f.epss.Some? ==>
              exists name :: Carries(f, name) && "CVE-" <= name && name in data.epss && data.epss[name] == f.epss.value
  {
    hide VEXFor, Sorted, NamesOf, Accounts, AllListed, DirectNames, Carries;
    forall name
      ensures name in NamesOf(f) <==> Carries(f, name)
    {
      NamesIff(f, name);
    }
    var names := NamesOf(f);
    assert forall i :: 0 <= i < |names| ==> names[i] in names;
    assert forall name :: name in names ==> exists i :: 0 <= i < |names| && names[i] == name;
  }

  /** The statements are those of its names, and none of them is passed over. */
  lemma StatementsOfNames(nodes: map<nat, NodeRecord>, records: map<nat, Details>, data: Data, v: nat, f: Finding,
                          vex: map<string, VEXStatement>, chains: seq<seq<nat>>, product: string)
    requires v in nodes && IsFinding(nodes, records, data, v, f, vex, chains)
    ensures product in vex <==> exists name :: Carries(f, name) && name in data.vex && product in data.vex[name]
    ensures product in vex ==>
              exists name ::
                Carries(f, name) && name in data.vex && product in data.vex[name]
                  && data.vex[name][product] == vex[product]
  {
    hide KEVFor, EPSSFor, Sorted, NamesOf, Accounts, AllListed, DirectNames, Carries;
    var names := NamesOf(f);
    forall name
      ensures name in names <==> Carries(f, name)
    {
      NamesIff(f, name);
    }
    if product in vex {
      var i :| LastVEX(data, names, product, vex[product], i);
      assert names[i] in names;
    }
    if name :| Carries(f, name) && name in data.vex && product in data.vex[name] {
      var i :| 0 <= i < |names| && names[i] == name;
      assert HasVEX(data, names[i], product);
    }
  }

  // ---------- one name, one product ----------

  /** Stored names are unique. */
  ghost predicate UniqueNames(nodes: map<nat, NodeRecord>) {
    forall x, y {:trigger nodes[x], nodes[y]} :: x in nodes && y in nodes && nodes[x].name == nodes[y].name ==> x == y
  }

  lemma IndexedUnique(s: State)
    requires Indexed(s)
    ensures UniqueNames(s.nodes)
  {
  }

  ghost predicate NamedOnce(all: multiset<Product>) {
    forall p, q {:trigger all[p], all[q]} :: all[p] > 0 && all[q] > 0 && p.name == q.name ==> p == q && all[p] == 1
  }

  /** Where names are unique, the products of different chains have different names. */
  lemma {:induction false} ProductsNamedOnce(nodes: map<nat, NodeRecord>, v: nat, vex: map<string, VEXStatement>,
                                             chains: seq<seq<nat>>)
    requires UniqueNames(nodes) && Chains(nodes, v, chains)
    requires forall i {:trigger chains[i]} ::
               0 <= i < |chains| ==> chains[i] != [] && forall x :: x in chains[i] ==> x in nodes
    ensures NamedOnce(ProductsFor(nodes, vex, chains))
  {
    hide Chains, ProductFor;
    if chains != [] {
      var n := |chains| - 1;
      var before := chains[..n];
      FewerChains(nodes, v, chains);
      ProductsNamedOnce(nodes, v, vex, before);
      var last := ProductFor(nodes, vex, chains[n]);
      forall p | p in ProductsFor(nodes, vex, before)
        ensures p.name != last.name
      {
        ProductsForHas(nodes, vex, before, p);
        var i :| 0 <= i < n && p == ProductFor(nodes, vex, before[i]);
        ChainsApart(nodes, v, vex, chains, i, n);
      }
    }
  }

  lemma FewerChains(nodes: map<nat, NodeRecord>, v: nat, chains: seq<seq<nat>>)
    requires Chains(nodes, v, chains) && chains != []
    ensures Chains(nodes, v, chains[..|chains| - 1])
  {
    hide IsProduct, Chain, NoShorter;
  }

  lemma ChainsApart(nodes: map<nat, NodeRecord>, v: nat, vex: map<string, VEXStatement>, chains: seq<seq<nat>>, i: nat,
                    j: nat)
    requires UniqueNames(nodes) && Chains(nodes, v, chains) && i < j < |chains|
    requires chains[i] != [] && chains[j] != []
    requires (forall x :: x in chains[i] ==> x in nodes) && (forall x :: x in chains[j] ==> x in nodes)
    ensures ProductFor(nodes, vex, chains[i]).name != ProductFor(nodes, vex, chains[j]).name
  {
    hide ShortestChain;
    assert chains[i][0] in chains[i] && chains[j][0] in chains[j];
    var x, y := chains[i][0], chains[j][0];
    assert nodes[x].name == nodes[y].name ==> x == y;
  }

  lemma NamedOnceSeparate(products: seq<Product>, suppressed: seq<Product>)
    requires NamedOnce(multiset(products) + multiset(suppressed))
    ensures forall i, j :: 0 <= i < j < |products| ==> products[i].name != products[j].name
    ensures forall i, j :: 0 <= i < j < |suppressed| ==> suppressed[i].name != suppressed[j].name
    ensures ProductNames(products) !! ProductNames(suppressed)
  {
    var all := multiset(products) + multiset(suppressed);
    forall i, j | 0 <= i < j < |products|
      ensures products[i].name != products[j].name
    {
      assert all[products[i]] > 0 && all[products[j]] > 0;
      if products[i] == products[j] {
        TwiceCounts(products, i, j);
      }
    }
    forall i, j | 0 <= i < j < |suppressed|
      ensures suppressed[i].name != suppressed[j].name
    {
      assert all[suppressed[i]] > 0 && all[suppressed[j]] > 0;
      if suppressed[i] == suppressed[j] {
        TwiceCounts(suppressed, i, j);
      }
    }
    forall p, q | p in products && q in suppressed
      ensures p.name != q.name
    {
      assert multiset(products)[p] > 0 && multiset(suppressed)[q] > 0;
      assert all[p] > 0 && all[q] > 0;
    }
  }

  /** In a store with unique names no product name appears twice in a finding. */
  lemma FindingSeparate(nodes: map<nat, NodeRecord>, records: map<nat, Details>, data: Data, v: nat, f: Finding)
    requires UniqueNames(nodes) && Found(nodes, records, data, v, f)
    ensures Separate(f)
  {
    hide KEVFor, EPSSFor, VEXFor, Sorted, NamesOf, DirectNames, Chains, AllListed, ProductsFor, Hides, UniqueNames;
    var vex, chains :| IsFinding(nodes, records, data, v, f, vex, chains);
    ChainsNodes(nodes, v, chains);
    ProductsNamedOnce(nodes, v, vex, chains);
    NamedOnceSeparate(f.products, f.suppressed);
  }

  // ---------- the order of the lists ----------

  ghost predicate NoneTwice(names: seq<string>) {
    forall i, j :: 0 <= i < j < |names| ==> names[i] != names[j]
  }

  lemma {:induction false} DirectNamesOnce(nodes: map<nat, NodeRecord>, v: nat, ids: seq<nat>)
    requires UniqueNames(nodes) && forall i, j :: 0 <= i < j < |ids| ==> ids[i] != ids[j]
    ensures NoneTwice(DirectNames(nodes, v, ids))
  {
    if ids != [] {
      var n := |ids| - 1;
      DirectNamesOnce(nodes, v, ids[..n]);
      if ids[n] in nodes {
        assert forall p :: p in ids[..n] ==> p != ids[n];
        DirectNamesAre(nodes, v, ids[..n], nodes[ids[n]].name);
        assert nodes[ids[n]].name !in DirectNames(nodes, v, ids[..n]);
      }
    }
  }

  /** Where names are unique, packages, products and suppressed products come in the order of the dictionary, none
      twice. */
  lemma ListsInOrder(nodes: map<nat, NodeRecord>, records: map<nat, Details>, data: Data, v: nat, f: Finding)
    requires UniqueNames(nodes) && Found(nodes, records, data, v, f)
    ensures forall i, j :: 0 <= i < j < |f.packages| ==> Follows(f.packages[i], f.packages[j])
    ensures forall i, j :: 0 <= i < j < |f.products| ==> Follows(f.products[i].name, f.products[j].name)
    ensures forall i, j :: 0 <= i < j < |f.suppressed| ==> Follows(f.suppressed[i].name, f.suppressed[j].name)
  {
    hide KEVFor, EPSSFor, VEXFor, NamesOf, DirectNames, Accounts, AllListed, UniqueNames, Follows, Compare;
    var vex, chains :| IsFinding(nodes, records, data, v, f, vex, chains);
    FindingSeparate(nodes, records, data, v, f);
    var ids := ToArray(nodes[v].parents);
    ToArrayAscends(nodes[v].parents);
    DirectNamesOnce(nodes, v, ids);
    DistinctAscends(DirectNames(nodes, v, ids), f.packages);
    forall i, j | 0 <= i < j < |f.packages|
      ensures Follows(f.packages[i], f.packages[j])
    {
      CompareIff(f.packages[i], f.packages[j]);
    }
    NamesAscend(f.products);
    NamesAscend(f.suppressed);
  }

  lemma NamesAscend(ps: seq<Product>)
    requires Sorted(NameLess, ps) && forall i, j :: 0 <= i < j < |ps| ==> ps[i].name != ps[j].name
    ensures forall i, j :: 0 <= i < j < |ps| ==> Follows(ps[i].name, ps[j].name)
  {
    hide Follows, Compare;
    forall i, j | 0 <= i < j < |ps|
      ensures Follows(ps[i].name, ps[j].name)
    {
      CompareFlips(ps[i].name, ps[j].name);
      CompareIff(ps[i].name, ps[j].name);
    }
  }
}
