/**
 The union-find inside mergeAliases: a parent array with path compression and no ranks.

 `root` and `rank` are ghosts: every index's current root, and a number that falls along every parent link.
 */
module UnionFind {
  import opened Graphs

  /** Index i hangs below its root, and its parent hangs below the same root. */
  ghost predicate Hangs(parent: seq<nat>, root: seq<nat>, rank: seq<nat>, i: nat)
    requires |root| == |parent| == |rank| && i < |parent|
  {
    && parent[i] < |parent| && root[i] < |parent|
    && parent[root[i]] == root[i] && root[root[i]] == root[i] && rank[root[i]] <= rank[i]
    && root[parent[i]] == root[i]
    && (if parent[i] == i then root[i] == i else rank[parent[i]] < rank[i])
  }

  ghost predicate Forest(parent: seq<nat>, root: seq<nat>, rank: seq<nat>) {
    && |root| == |parent| == |rank|
    && forall i {:trigger Hangs(parent, root, rank, i)} :: 0 <= i < |parent| ==> Hangs(parent, root, rank, i)
  }

  /** find: the root of i, with every link on the way pointed straight at it; no root changes. */
  method Find(parent: array<nat>, i: nat, ghost root: seq<nat>, ghost rank: seq<nat>) returns (r: nat)
    requires Forest(parent[..], root, rank) && i < parent.Length
    modifies parent
    ensures Forest(parent[..], root, rank) && r == root[i] && parent[i] == root[i]
    ensures forall k :: 0 <= k < parent.Length && rank[k] > rank[i] ==> parent[k] == old(parent[k])
    decreases rank[i]
  {
    assert Hangs(parent[..], root, rank, i);
    if parent[i] != i {
      var p := Find(parent, parent[i], root, rank);
      ghost var before := parent[..];
      assert Hangs(before, root, rank, i);
      Compress(before, root, rank, i);
      parent[i] := p;
      assert parent[..] == before[i := p];
    }
    return parent[i];
  }

  lemma Compress(parent: seq<nat>, root: seq<nat>, rank: seq<nat>, i: nat)
    requires Forest(parent, root, rank) && i < |parent| && parent[i] != i
    ensures root[i] < |parent| && Forest(parent[i := root[i]], root, rank)
  {
    assert Hangs(parent, root, rank, i) && Hangs(parent, root, rank, parent[i]);
    var t := parent[i := root[i]];
    forall k {:trigger Hangs(t, root, rank, k)} | 0 <= k < |t|
      ensures Hangs(t, root, rank, k)
    {
      assert Hangs(parent, root, rank, k);
    }
  }

  /** The roots and ranks after root a is linked below root b. */
  ghost function LinkedRoot(root: seq<nat>, a: nat, b: nat): (r: seq<nat>)
    ensures |r| == |root| && forall k :: 0 <= k < |root| ==> r[k] == if root[k] == a then b else root[k]
  {
    seq(|root|, k requires 0 <= k < |root| => if root[k] == a then b else root[k])
  }

  ghost function LinkedRank(root: seq<nat>, rank: seq<nat>, a: nat, b: nat): (r: seq<nat>)
    requires |rank| == |root| && b < |root|
    ensures |r| == |root| && forall k :: 0 <= k < |root| ==> r[k] == if root[k] == a then rank[k] + rank[b] + 1
            else rank[k]
  {
    seq(|root|, k requires 0 <= k < |root| => if root[k] == a then rank[k] + rank[b] + 1 else rank[k])
  }

  lemma LinkKeepsForest(parent: seq<nat>, root: seq<nat>, rank: seq<nat>, a: nat, b: nat)
    requires Forest(parent, root, rank) && a < |parent| && b < |parent| && a != b && root[a] == a && root[b] == b
    ensures Forest(parent[a := b], LinkedRoot(root, a, b), LinkedRank(root, rank, a, b))
  {
    var t, root1, rank1 := parent[a := b], LinkedRoot(root, a, b), LinkedRank(root, rank, a, b);
    assert Hangs(parent, root, rank, a) && Hangs(parent, root, rank, b);
    forall k {:trigger Hangs(t, root1, rank1, k)} | 0 <= k < |t|
      ensures Hangs(t, root1, rank1, k)
    {
      assert Hangs(parent, root, rank, k);
    }
  }

  /** Linking the roots of i and j. */
  method Union(parent: array<nat>, i: nat, j: nat, ghost root: seq<nat>, ghost rank: seq<nat>)
      returns (ghost root1: seq<nat>, ghost rank1: seq<nat>)
    requires Forest(parent[..], root, rank) && i < parent.Length && j < parent.Length
    modifies parent
    ensures Forest(parent[..], root1, rank1) && |root1| == |root|
    ensures forall k :: 0 <= k < |root| ==> root1[k] == if root[k] == root[i] then root[j] else root[k]
  {
    assert Hangs(parent[..], root, rank, i) && Hangs(parent[..], root, rank, j);
    var ri := Find(parent, i, root, rank);
    var rj := Find(parent, j, root, rank);
    ghost var before := parent[..];
    parent[ri] := rj;
    assert parent[..] == before[ri := rj];
    if ri == rj {
      assert Hangs(before, root, rank, i);
      root1, rank1 := root, rank;
      assert before[ri := rj] == before;
    } else {
      LinkKeepsForest(before, root, rank, ri, rj);
      root1, rank1 := LinkedRoot(root, ri, rj), LinkedRank(root, rank, ri, rj);
    }
  }

  // ---------- grouping lists of names ----------

  /** Records i and j share a name. */
  ghost predicate Share(names: seq<seq<string>>, i: nat, j: nat)
    requires i < |names| && j < |names|
  {
    exists name :: name in names[i] && name in names[j]
  }

  /** The records as a graph, with an edge wherever two share a name. */
  ghost function ShareGraph(names: seq<seq<string>>): Graph {
    map i | i in Indices(|names|) :: Sharing(names, i)
  }

  ghost function Indices(n: nat): (s: set<nat>)
    ensures forall i: nat :: i in s <==> i < n
  {
    if n == 0 then {} else Indices(n - 1) + {n - 1}
  }

  ghost function Sharing(names: seq<seq<string>>, i: nat): set<nat>
    requires i < |names|
  {
    set j: nat | j < |names| && Share(names, i, j)
  }

  /** A chain of records, each sharing a name with the next, leads from i to j. */
  ghost predicate Connected(names: seq<seq<string>>, i: nat, j: nat) {
    Reaches(ShareGraph(names), i, j)
  }

  lemma ConnectedSym(names: seq<seq<string>>, i: nat, j: nat)
    requires Connected(names, i, j)
    ensures Connected(names, j, i)
  {
    var g := ShareGraph(names);
    assert Transposed(g, g) by {
      forall x, y | x in g && y in g
        ensures y in g[x] <==> x in g[y]
      {
        assert Share(names, x, y) <==> Share(names, y, x);
      }
    }
    TransposedReaches(g, g, i, j);
  }

  /** Roots only ever join connected records. */
  ghost predicate SoundRoots(names: seq<seq<string>>, root: seq<nat>) {
    |root| == |names| && forall k {:trigger root[k]} ::
      0 <= k < |root| ==> root[k] < |names| && Connected(names, k, root[k])
  }

  /** Name occurrence (a, name) has been taken in: its owner has the root of a. */
  ghost predicate TakenIn(names: seq<seq<string>>, owner: map<string, nat>, root: seq<nat>, a: nat, name: string)
    requires a < |names| == |root|
  {
    name in owner && owner[name] < |names| && root[owner[name]] == root[a]
  }

  ghost predicate Owners(names: seq<seq<string>>, owner: map<string, nat>) {
    forall name {:trigger owner[name]} :: name in owner ==> owner[name] < |names| && name in names[owner[name]]
  }

  /** All names of the records before i, and the first m names of record i, have been taken in. */
  ghost predicate Progressed(names: seq<seq<string>>, owner: map<string, nat>, root: seq<nat>, i: nat, m: nat)
    requires i <= |names| == |root| && (i < |names| ==> m <= |names[i]|)
  {
    && (forall a, name {:trigger TakenIn(names, owner, root, a, name)} ::
         0 <= a < i && name in names[a] ==> TakenIn(names, owner, root, a, name))
    && (i < |names| ==> forall name {:trigger TakenIn(names, owner, root, i, name)} ::
         name in names[i][..m] ==> TakenIn(names, owner, root, i, name))
  }

  lemma UnionKeepsSound(names: seq<seq<string>>, root: seq<nat>, root1: seq<nat>, i: nat, j: nat, name: string)
    requires SoundRoots(names, root) && i < |names| && j < |names| && name in names[i] && name in names[j]
    requires |root1| == |root| && forall k :: 0 <= k < |root| ==> root1[k] == if root[k] == root[i] then root[j]
             else root[k]
    ensures SoundRoots(names, root1)
  {
    hide Reaches;
    assert Share(names, i, j);
    ReachesEdge(ShareGraph(names), i, j);
    forall k {:trigger root1[k]} | 0 <= k < |root1|
      ensures root1[k] < |names| && Connected(names, k, root1[k])
    {
      assert Connected(names, k, root[k]);
      if root[k] == root[i] {
        assert Connected(names, i, root[i]) && Connected(names, j, root[j]);
        ConnectedSym(names, i, root[i]);
        ReachesTrans(ShareGraph(names), k, root[i], i);
        ReachesTrans(ShareGraph(names), k, i, j);
        ReachesTrans(ShareGraph(names), k, j, root[j]);
      }
    }
  }

  lemma UnionKeepsProgress(names: seq<seq<string>>, owner: map<string, nat>, root: seq<nat>, root1: seq<nat>, i: nat,
                           m: nat)
    requires i < |names| == |root| && m < |names[i]| && Progressed(names, owner, root, i, m) && Owners(names, owner)
    requires names[i][m] in owner && |root1| == |root|
    requires forall k :: 0 <= k < |root| ==> root1[k] == if root[k] == root[i] then root[owner[names[i][m]]]
             else root[k]
    ensures Progressed(names, owner, root1, i, m + 1)
  {
    var j := owner[names[i][m]];
    forall a, name {:trigger TakenIn(names, owner, root1, a, name)} | 0 <= a < i && name in names[a]
      ensures TakenIn(names, owner, root1, a, name)
    {
      assert TakenIn(names, owner, root, a, name);
    }
    forall name {:trigger TakenIn(names, owner, root1, i, name)} | name in names[i][..m + 1]
      ensures TakenIn(names, owner, root1, i, name)
    {
      assert names[i][..m + 1] == names[i][..m] + [names[i][m]];
      if name in names[i][..m] {
        assert TakenIn(names, owner, root, i, name);
      }
    }
  }

  lemma NewOwnerKeepsProgress(names: seq<seq<string>>, owner: map<string, nat>, root: seq<nat>, i: nat, m: nat)
    requires i < |names| == |root| && m < |names[i]| && Progressed(names, owner, root, i, m)
    requires names[i][m] !in owner
    ensures Progressed(names, owner[names[i][m] := i], root, i, m + 1)
  {
    var owner1 := owner[names[i][m] := i];
    forall a, name {:trigger TakenIn(names, owner1, root, a, name)} | 0 <= a < i && name in names[a]
      ensures TakenIn(names, owner1, root, a, name)
    {
      assert TakenIn(names, owner, root, a, name);
    }
    forall name {:trigger TakenIn(names, owner1, root, i, name)} | name in names[i][..m + 1]
      ensures TakenIn(names, owner1, root, i, name)
    {
      assert names[i][..m + 1] == names[i][..m] + [names[i][m]];
      if name in names[i][..m] {
        assert TakenIn(names, owner, root, i, name);
      }
    }
  }

  /** The loop of mergeAliases over all names: two records end with one root exactly when a chain of shared names joins
      them. */
  method Connect(names: seq<seq<string>>, parent: array<nat>) returns (ghost root: seq<nat>, ghost rank: seq<nat>)
    requires parent.Length == |names|
    modifies parent
    ensures Forest(parent[..], root, rank) && |root| == |names|
    ensures forall i, j :: 0 <= i < |names| && 0 <= j < |names| ==> (root[i] == root[j] <==> Connected(names, i, j))
  {
    hide Reaches, Hangs, ShareGraph;
    for i := 0 to parent.Length
      invariant forall k :: 0 <= k < i ==> parent[k] == k
    {
      parent[i] := i;
    }
    root, rank := parent[..], parent[..];
    var owner: map<string, nat> := map[];
    StartApart(names, parent[..]);
    for i := 0 to |names|
      invariant Forest(parent[..], root, rank) && SoundRoots(names, root) && Owners(names, owner)
      invariant Progressed(names, owner, root, i, 0)
    {
      for m := 0 to |names[i]|
        invariant Forest(parent[..], root, rank) && SoundRoots(names, root) && Owners(names, owner)
        invariant Progressed(names, owner, root, i, m)
      {
        var name := names[i][m];
        if name in owner {
          ghost var last := root;
          root, rank := Union(parent, i, owner[name], root, rank);
          UnionKeepsSound(names, last, root, i, owner[name], name);
          UnionKeepsProgress(names, owner, last, root, i, m);
        } else {
          NewOwnerKeepsProgress(names, owner, root, i, m);
          owner := owner[name := i];
        }
      }
      NextRecord(names, owner, root, i);
    }
    forall i, j | 0 <= i < |names| && 0 <= j < |names|
      ensures root[i] == root[j] <==> Connected(names, i, j)
    {
      RootsDecide(names, owner, root, i, j);
    }
  }

  lemma StartApart(names: seq<seq<string>>, parent: seq<nat>)
    requires |parent| == |names| && forall k :: 0 <= k < |parent| ==> parent[k] == k
    ensures Forest(parent, parent, parent) && SoundRoots(names, parent)
  {
    forall k | 0 <= k < |parent|
      ensures Connected(names, k, k)
    {
      ReachesRefl(ShareGraph(names), k);
    }
  }

  lemma NextRecord(names: seq<seq<string>>, owner: map<string, nat>, root: seq<nat>, i: nat)
    requires i < |names| == |root| && Progressed(names, owner, root, i, |names[i]|)
    ensures Progressed(names, owner, root, i + 1, 0)
  {
    assert names[i][..|names[i]|] == names[i];
  }

  lemma RootsDecide(names: seq<seq<string>>, owner: map<string, nat>, root: seq<nat>, i: nat, j: nat)
    requires |root| == |names| && i < |names| && j < |names|
    requires SoundRoots(names, root) && Progressed(names, owner, root, |names|, 0)
    ensures root[i] == root[j] <==> Connected(names, i, j)
  {
    hide Reaches;
    if root[i] == root[j] {
      assert Connected(names, i, root[i]) && Connected(names, j, root[j]);
      ConnectedSym(names, j, root[j]);
      ReachesTrans(ShareGraph(names), i, root[i], j);
    }
    if Connected(names, i, j) {
      var same := set k: nat | k < |names| && root[k] == root[i];
      forall v, w | v in same && w in Succ(ShareGraph(names), v)
        ensures w in same
      {
        var name :| name in names[v] && name in names[w];
        assert TakenIn(names, owner, root, v, name) && TakenIn(names, owner, root, w, name);
      }
      ReachesStaysIn(ShareGraph(names), same, i, j);
    }
  }

  lemma EdgeConnects(names: seq<seq<string>>, i: nat, j: nat)
    requires i < |names| && j < |names| && Share(names, i, j)
    ensures Connected(names, i, j)
  {
    ReachesEdge(ShareGraph(names), i, j);
  }

  /** Records that share no name with any other are connected to none. */
  lemma UnsharedAlone(names: seq<seq<string>>, i: nat, j: nat)
    requires i < |names| && Connected(names, i, j)
    requires forall k {:trigger Share(names, i, k)} :: 0 <= k < |names| && Share(names, i, k) ==> k == i
    ensures j == i
  {
    hide Reaches;
    ReachesStaysIn(ShareGraph(names), {i}, i, j);
  }
}
