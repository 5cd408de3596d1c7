/**
 findCycles: Tarjan's algorithm over the Children bitmaps, run once before the caches are built.

 The closure variables of the search are the fields of a class; the recursive closure is its method Visit.
 */
module Tarjan {
  import opened Bitmaps
  import opened Graphs

  /** The search variables at one moment: `on` is inStack, and at[n] is the node with number n. */
  datatype State = State(on: set<nat>, counter: nat, at: map<nat, nat>, num: map<nat, nat>, low: map<nat, nat>)

  /** x is visited and its component has been popped. */
  ghost predicate Done(s: State, x: nat) {
    x in s.num && x !in s.on
  }

  ghost predicate Numbered(g: Graph, s: State) {
    && s.on <= s.num.Keys <= g.Keys && s.low.Keys == s.num.Keys
    && (forall x :: x in s.num ==> s.num[x] in s.at && s.at[s.num[x]] == x)
    && (forall n :: n in s.at ==> n <= s.counter)
  }

  /** Visited nodes that are not being visited have only visited successors; popped ones only popped. */
  ghost predicate Explored(g: Graph, s: State, gray: set<nat>) {
    && (forall x {:trigger Succ(g, x)} :: x in s.num && x !in gray ==> Succ(g, x) <= s.num.Keys)
    && (forall x, y {:trigger y in Succ(g, x)} :: Done(s, x) && y in Succ(g, x) ==> Done(s, y))
  }

  /** Stack entries reach later ones, and every entry reaches an earlier one that is still being visited. */
  ghost predicate StackReaches(r: Relation, s: State, gray: set<nat>)
    requires s.on <= s.num.Keys && gray <= s.on
  {
    && (forall x, y {:trigger (x, y) in r} :: x in s.on && y in s.on && s.num[x] <= s.num[y] ==> (x, y) in r)
    && (forall x {:trigger ReachesGray(r, s.num, gray, x)} :: x in s.on ==> ReachesGray(r, s.num, gray, x))
  }

  ghost predicate ReachesGray(r: Relation, num: map<nat, nat>, gray: set<nat>, x: nat)
    requires x in num && gray <= num.Keys
  {
    exists k :: k in gray && num[k] <= num[x] && (x, k) in r
  }

  ghost predicate Both(r: Relation, x: nat, y: nat) {
    (x, y) in r && (y, x) in r
  }

  lemma BothTrans(g: Graph, r: Relation, x: nat, y: nat, z: nat)
    requires IsReachability(g, r) && Both(r, x, y) && Both(r, y, z)
    ensures Both(r, x, z)
  {
    RelationTrans(g, r, x, y, z);
    RelationTrans(g, r, z, y, x);
  }

  /** Popped nodes carry the number of a popped node, the same exactly within one component. */
  ghost predicate Classified(r: Relation, s: State)
    requires s.on <= s.num.Keys && s.low.Keys == s.num.Keys
  {
    && (forall x, y {:trigger Both(r, x, y)} :: Done(s, x) && Done(s, y) ==> (s.low[x] == s.low[y] <==> Both(r, x, y)))
    && (forall x {:trigger s.low[x]} :: Done(s, x) ==> s.low[x] in s.at && Done(s, s.at[s.low[x]]))
  }

  ghost predicate Inv(g: Graph, r: Relation, s: State, gray: set<nat>) {
    Numbered(g, s) && gray <= s.on && Explored(g, s, gray) && StackReaches(r, s, gray) && Classified(r, s)
  }

  /** What a visit leaves alone. */
  ghost predicate Extends(s: State, t: State)
    requires s.low.Keys == s.num.Keys && t.low.Keys == t.num.Keys
  {
    && s.counter <= t.counter
    && s.num.Keys <= t.num.Keys && t.on * s.num.Keys == s.on
    && (forall x {:trigger t.num[x]} :: x in s.num ==> t.num[x] == s.num[x])
    && (forall x {:trigger t.low[x]} :: x in s.num ==> t.low[x] == s.low[x])
    && (forall x {:trigger t.num[x]} :: x in t.num && x !in s.num ==> s.counter < t.num[x])
  }

  /** low[v] is the number of a stack entry that v reaches. */
  ghost predicate LowReached(r: Relation, s: State, v: nat)
    requires v in s.low && s.on <= s.num.Keys
  {
    exists z :: z in s.on && s.num[z] == s.low[v] && (v, z) in r
  }

  /** No edge from a stack entry outside `earlier` into `earlier` hits a number below low[v]. */
  ghost predicate LowBounds(g: Graph, s: State, v: nat, earlier: set<nat>, except: set<nat>)
    requires v in s.low && s.on <= s.num.Keys && earlier <= s.on
  {
    forall y, z ::
      y in s.on && y !in earlier && y !in except && z in Succ(g, y) && z in earlier ==> s.num[z] >= s.low[v]
  }

  /** The outcome of visiting v from state s: v's component popped, or v left on the stack above s's entries. */
  ghost predicate Visited(g: Graph, r: Relation, s: State, t: State, v: nat)
    requires t.low.Keys == t.num.Keys && s.on <= t.on <= t.num.Keys
  {
    && v in t.num && v !in s.num
    && (v !in t.on ==> t.on == s.on && t.low[v] == t.num[v])
    && (v in t.on ==> t.low[v] < t.num[v] && LowReached(r, t, v))
    && LowBounds(g, t, v, s.on, {})
  }

  lemma PushReaches(g: Graph, r: Relation, s: State, t: State, gray: set<nat>, v: nat, x: nat)
    requires IsReachability(g, r) && Inv(g, r, s, gray) && v !in s.num && x in s.on
    requires forall u :: u in gray ==> (u, v) in r
    requires t.on == s.on + {v} && t.num == s.num[v := s.counter + 1]
    ensures (x, v) in r && ReachesGray(r, t.num, gray + {v}, x)
  {
    assert ReachesGray(r, s.num, gray, x);
    var k :| k in gray && s.num[k] <= s.num[x] && (x, k) in r;
    RelationTrans(g, r, x, k, v);
    assert k in gray + {v};
  }

  lemma PushNumbered(g: Graph, s: State, t: State, gray: set<nat>, v: nat)
    requires Numbered(g, s) && Explored(g, s, gray) && v in g && v !in s.num && gray <= s.on
    requires t.on == s.on + {v} && t.counter == s.counter + 1 && t.at == s.at[t.counter := v]
    requires t.num == s.num[v := t.counter] && t.low == s.low[v := t.counter]
    ensures Numbered(g, t) && Explored(g, t, gray + {v})
    ensures forall x :: Done(s, x) <==> Done(t, x)
  {
  }

  lemma PushStackReaches(g: Graph, r: Relation, s: State, t: State, gray: set<nat>, v: nat)
    requires IsReachability(g, r) && v in g && v !in s.num && Inv(g, r, s, gray)
    requires forall u :: u in gray ==> (u, v) in r
    requires t.on == s.on + {v} && t.num == s.num[v := s.counter + 1]
    ensures t.on <= t.num.Keys && gray + {v} <= t.on && StackReaches(r, t, gray + {v})
  {
    hide IsReachability, Explored, Classified;
    RelationRefl(g, r, v);
    forall x {:trigger (x, v) in r} {:trigger ReachesGray(r, t.num, gray + {v}, x)} | x in s.on
      ensures (x, v) in r && ReachesGray(r, t.num, gray + {v}, x)
    {
      PushReaches(g, r, s, t, gray, v, x);
    }
    assert v in gray + {v};
    assert ReachesGray(r, t.num, gray + {v}, v);
  }

  lemma PushClassified(g: Graph, r: Relation, s: State, t: State, gray: set<nat>, v: nat)
    requires Inv(g, r, s, gray) && v !in s.num && (forall x :: Done(s, x) <==> Done(t, x))
    requires t.on == s.on + {v} && t.counter == s.counter + 1 && t.at == s.at[t.counter := v]
    requires t.num == s.num[v := t.counter] && t.low == s.low[v := t.counter]
    ensures t.on <= t.num.Keys && t.low.Keys == t.num.Keys && Classified(r, t)
  {
    hide Explored, StackReaches, Both;
  }

  lemma PushKeepsInv(g: Graph, r: Relation, s: State, t: State, gray: set<nat>, v: nat)
    requires IsReachability(g, r) && v in g && v !in s.num && Inv(g, r, s, gray)
    requires forall u :: u in gray ==> (u, v) in r
    requires t.on == s.on + {v} && t.counter == s.counter + 1 && t.at == s.at[t.counter := v]
    requires t.num == s.num[v := t.counter] && t.low == s.low[v := t.counter]
    ensures Inv(g, r, t, gray + {v})
  {
    hide IsReachability, Explored, StackReaches, Classified;
    PushNumbered(g, s, t, gray, v);
    PushStackReaches(g, r, s, t, gray, v);
    PushClassified(g, r, s, t, gray, v);
  }

  lemma FinishReaches(g: Graph, r: Relation, s: State, gray: set<nat>, v: nat, x: nat)
    requires IsReachability(g, r) && Inv(g, r, s, gray) && v in s.on && x in s.on
    requires LowReached(r, s, v) && s.low[v] < s.num[v]
    ensures ReachesGray(r, s.num, gray - {v}, x)
  {
    assert ReachesGray(r, s.num, gray, x);
    var k :| k in gray && s.num[k] <= s.num[x] && (x, k) in r;
    if k == v {
      var t :| t in s.on && s.num[t] == s.low[v] && (v, t) in r;
      assert ReachesGray(r, s.num, gray, t);
      var u :| u in gray && s.num[u] <= s.num[t] && (t, u) in r;
      RelationTrans(g, r, x, v, t);
      RelationTrans(g, r, x, t, u);
      assert u in gray - {v};
    } else {
      assert k in gray - {v};
    }
  }

  /** v keeps its component open: it reaches an earlier entry. */
  lemma FinishKeepsInv(g: Graph, r: Relation, s: State, gray: set<nat>, v: nat)
    requires IsReachability(g, r) && Inv(g, r, s, gray) && v in s.on
    requires Succ(g, v) <= s.num.Keys && LowReached(r, s, v) && s.low[v] < s.num[v]
    ensures Inv(g, r, s, gray - {v})
  {
    forall x {:trigger ReachesGray(r, s.num, gray - {v}, x)} | x in s.on
      ensures ReachesGray(r, s.num, gray - {v}, x)
    {
      FinishReaches(g, r, s, gray, v, x);
    }
  }

  /** t is s with the stack popped down to v, v included, and the popped nodes given v's number. */
  ghost predicate Popped(s: State, t: State, v: nat)
    requires v in s.on && s.on <= s.num.Keys && s.low.Keys == s.num.Keys
  {
    && t.on <= s.on && (forall x :: x in s.on ==> (x in t.on <==> s.num[x] < s.num[v]))
    && t.counter == s.counter && t.at == s.at && t.num == s.num && t.low.Keys == s.low.Keys
    && forall x {:trigger t.low[x]} :: x in s.num ==> t.low[x] == if x in s.on && x !in t.on then s.num[v] else s.low[x]
  }

  /** v is the last node being visited and no edge leaves the entries from v on for an earlier entry. */
  ghost predicate Root(g: Graph, r: Relation, s: State, gray: set<nat>, v: nat)
    requires Inv(g, r, s, gray)
  {
    && v in gray && Succ(g, v) <= s.num.Keys
    && (forall k :: k in gray ==> s.num[k] <= s.num[v])
    && (forall y, z :: y in s.on && s.num[y] >= s.num[v] && z in Succ(g, y) && z in s.on ==> s.num[z] >= s.num[v])
  }

  lemma PopExplored(g: Graph, r: Relation, s: State, t: State, gray: set<nat>, v: nat)
    requires Inv(g, r, s, gray) && Root(g, r, s, gray, v) && Popped(s, t, v)
    ensures gray - {v} <= t.on && Explored(g, t, gray - {v})
  {
    forall x | x in gray - {v}
      ensures x in t.on
    {
      assert s.at[s.num[x]] == x && s.at[s.num[v]] == v;
    }
    forall x, y {:trigger y in Succ(g, x)} | Done(t, x) && y in Succ(g, x)
      ensures Done(t, y)
    {
      assert Done(s, x) ==> Done(s, y);
      assert x !in gray || x == v;
      assert Succ(g, x) <= s.num.Keys;
    }
  }

  lemma PopReaches(g: Graph, r: Relation, s: State, t: State, gray: set<nat>, v: nat, x: nat)
    requires Inv(g, r, s, gray) && gray - {v} <= t.on <= s.on && v in s.on && Popped(s, t, v) && x in t.on
    ensures ReachesGray(r, t.num, gray - {v}, x)
  {
    assert ReachesGray(r, s.num, gray, x);
    var k :| k in gray && s.num[k] <= s.num[x] && (x, k) in r;
    assert k in gray - {v};
  }

  lemma PopKeepsInv(g: Graph, r: Relation, s: State, t: State, gray: set<nat>, v: nat)
    requires IsReachability(g, r)
    requires Inv(g, r, s, gray) && Root(g, r, s, gray, v) && Popped(s, t, v)
    ensures Inv(g, r, t, gray - {v})
  {
    PopExplored(g, r, s, t, gray, v);
    forall x {:trigger ReachesGray(r, t.num, gray - {v}, x)} | x in t.on
      ensures ReachesGray(r, t.num, gray - {v}, x)
    {
      PopReaches(g, r, s, t, gray, v, x);
    }
    PopClassified(g, r, s, t, gray, v);
  }

  lemma PopMutual(g: Graph, r: Relation, s: State, gray: set<nat>, v: nat, x: nat)
    requires IsReachability(g, r)
    requires Inv(g, r, s, gray) && Root(g, r, s, gray, v) && x in s.on && s.num[v] <= s.num[x]
    ensures Both(r, v, x)
  {
    assert ReachesGray(r, s.num, gray, x);
    var k :| k in gray && s.num[k] <= s.num[x] && (x, k) in r;
    RelationTrans(g, r, x, k, v);
  }

  lemma PopClassified(g: Graph, r: Relation, s: State, t: State, gray: set<nat>, v: nat)
    requires IsReachability(g, r)
    requires Inv(g, r, s, gray) && Root(g, r, s, gray, v) && Popped(s, t, v)
    ensures Classified(r, t)
  {
    forall x, y {:trigger Both(r, x, y)} | Done(t, x) && Done(t, y)
      ensures t.low[x] == t.low[y] <==> Both(r, x, y)
    {
      PoppedPair(g, r, s, t, gray, v, x, y);
    }
    PopNumbers(g, r, s, t, v);
  }

  lemma PopNumbers(g: Graph, r: Relation, s: State, t: State, v: nat)
    requires Numbered(g, s) && Classified(r, s) && v in s.on && Popped(s, t, v)
    ensures forall x {:trigger t.low[x]} :: Done(t, x) ==> t.low[x] in t.at && Done(t, t.at[t.low[x]])
  {
    forall x {:trigger t.low[x]} | Done(t, x)
      ensures t.low[x] in t.at && Done(t, t.at[t.low[x]])
    {
      if x !in s.on {
        assert Done(s, s.at[s.low[x]]);
      }
    }
  }

  lemma PoppedPair(g: Graph, r: Relation, s: State, t: State, gray: set<nat>, v: nat, x: nat, y: nat)
    requires IsReachability(g, r)
    requires Inv(g, r, s, gray) && Root(g, r, s, gray, v) && Popped(s, t, v)
    requires Done(t, x) && Done(t, y)
    ensures t.low[x] == t.low[y] <==> Both(r, x, y)
  {
    if !Done(s, x) && !Done(s, y) {
      PopMutual(g, r, s, gray, v, x);
      PopMutual(g, r, s, gray, v, y);
      BothTrans(g, r, x, v, y);
    } else if Done(s, x) && !Done(s, y) {
      PoppedApart(g, r, s, gray, x, y);
    } else if Done(s, y) && !Done(s, x) {
      PoppedApart(g, r, s, gray, y, x);
    }
  }

  lemma PoppedApart(g: Graph, r: Relation, s: State, gray: set<nat>, x: nat, y: nat)
    requires IsReachability(g, r)
    requires Inv(g, r, s, gray) && Done(s, x) && !Done(s, y)
    ensures (x, y) !in r
  {
    if (x, y) in r {
      var done := set z | z in s.num && Done(s, z);
      RelationStaysIn(g, r, done, x, y);
    }
  }

  /** s is a state in which v is about to be visited. */
  ghost predicate Before(g: Graph, s: State, gray: set<nat>, v: nat) {
    Numbered(g, s) && v !in s.num && gray <= s.on
  }

  /** The children of v in `scanned` have been looked at; s is the state before the visit of v. */
  ghost predicate Scanning(g: Graph, r: Relation, s: State, t: State, gray: set<nat>, v: nat, scanned: set<nat>)
    requires Before(g, s, gray, v)
  {
    && Inv(g, r, t, gray + {v}) && Extends(s, t)
    && t.num[v] == s.counter + 1 && t.low[v] <= t.num[v] && LowReached(r, t, v)
    && scanned <= t.num.Keys
    && LowBounds(g, t, v, s.on, {v})
    && forall z :: z in scanned && z in s.on ==> t.num[z] >= t.low[v]
  }

  ghost predicate Scanned(g: Graph, r: Relation, s: State, t: State, gray: set<nat>, v: nat)
    requires Before(g, s, gray, v)
  {
    Scanning(g, r, s, t, gray, v, Succ(g, v))
  }

  lemma ScannedRoot(g: Graph, r: Relation, s: State, t: State, gray: set<nat>, v: nat)
    requires Before(g, s, gray, v) && Scanned(g, r, s, t, gray, v) && t.low[v] == t.num[v]
    ensures Root(g, r, t, gray + {v}, v)
  {
    hide Explored, StackReaches, Classified, LowReached;
    forall k | k in gray
      ensures t.num[k] <= t.num[v]
    {
      assert t.num[k] == s.num[k];
    }
  }

  lemma CloseExtends(g: Graph, s: State, t: State, u: State, v: nat)
    requires Numbered(g, s) && Numbered(g, t) && Extends(s, t) && v in t.on && v !in s.num && t.num[v] == s.counter + 1
    requires Popped(t, u, v)
    ensures Extends(s, u) && u.on == s.on && u.low[v] == u.num[v]
  {
    forall x | x in t.on
      ensures x in u.on <==> x in s.on
    {
      if x in s.num {
        assert t.num[x] == s.num[x];
      } else {
        assert s.counter < t.num[x];
      }
    }
  }

  lemma CloseComponent(g: Graph, r: Relation, s: State, t: State, u: State, gray: set<nat>, v: nat)
    requires IsReachability(g, r) && Before(g, s, gray, v) && Scanned(g, r, s, t, gray, v) && t.low[v] == t.num[v]
             && Popped(t, u, v)
    ensures Inv(g, r, u, gray) && Extends(s, u) && Visited(g, r, s, u, v)
  {
    ScannedRoot(g, r, s, t, gray, v);
    PopKeepsInv(g, r, t, u, gray + {v}, v);
    assert gray + {v} - {v} == gray;
    CloseExtends(g, s, t, u, v);
  }

  lemma KeepComponent(g: Graph, r: Relation, s: State, t: State, gray: set<nat>, v: nat)
    requires IsReachability(g, r) && Before(g, s, gray, v) && Scanned(g, r, s, t, gray, v) && t.low[v] < t.num[v]
    ensures Inv(g, r, t, gray) && Visited(g, r, s, t, v)
  {
    FinishKeepsInv(g, r, t, gray + {v}, v);
    assert gray + {v} - {v} == gray;
  }

  /** The state after v is pushed. */
  ghost function Push(s: State, v: nat): State {
    var n := s.counter + 1;
    State(s.on + {v}, n, s.at[n := v], s.num[v := n], s.low[v := n])
  }

  lemma PushStarts(g: Graph, r: Relation, s: State, gray: set<nat>, v: nat)
    requires IsReachability(g, r) && Inv(g, r, s, gray) && v in g && v !in s.num
    requires forall u :: u in gray ==> (u, v) in r
    ensures Before(g, s, gray, v) && Scanning(g, r, s, Push(s, v), gray, v, {})
  {
    var t := Push(s, v);
    PushKeepsInv(g, r, s, t, gray, v);
    RelationRefl(g, r, v);
    assert v in t.on && t.num[v] == t.low[v] && (v, v) in r;
  }

  /** The number of an entry that is still open may be lowered freely. */
  lemma LowerKeepsInv(g: Graph, r: Relation, t: State, u: State, gray: set<nat>, v: nat)
    requires Inv(g, r, t, gray) && v in t.on
    requires u == t.(low := u.low) && u.low.Keys == t.low.Keys
    requires forall x {:trigger u.low[x]} :: x in t.low && x != v ==> u.low[x] == t.low[x]
    ensures Inv(g, r, u, gray)
  {
    assert forall x :: Done(t, x) <==> Done(u, x);
  }

  /** v's low value after the child w has been looked at and `bound` offered. */
  ghost predicate Lowered(t: State, u: State, v: nat, bound: nat)
    requires v in t.low
  {
    u == t.(low := t.low[v := if t.low[v] <= bound then t.low[v] else bound])
  }

  /** A child on the stack. */
  lemma ScanOnStack(g: Graph, r: Relation, s: State, t: State, u: State, gray: set<nat>, v: nat, scanned: set<nat>,
                    w: nat)
    requires IsReachability(g, r) && w in Succ(g, v)
    requires Before(g, s, gray, v) && Scanning(g, r, s, t, gray, v, scanned) && w in t.on && Lowered(t, u, v, t.num[w])
    ensures Scanning(g, r, s, u, gray, v, scanned + {w})
  {
    hide Explored, StackReaches, Classified;
    LowerKeepsInv(g, r, t, u, gray + {v}, v);
    RelationEdge(g, r, v, w);
    var z :| z in t.on && t.num[z] == t.low[v] && (v, z) in r;
    assert z in u.on && w in u.on;
    assert forall x :: x in s.on ==> u.num[x] == t.num[x];
  }

  /** A child visited by a recursive call, from t to t1. */
  lemma ScanKeepsReached(g: Graph, r: Relation, s: State, t: State, t1: State, u: State, gray: set<nat>, v: nat, w: nat)
    requires IsReachability(g, r) && w in Succ(g, v) && v in t.on
    requires Inv(g, r, t, gray + {v}) && LowReached(r, t, v) && t.low[v] <= t.num[v]
    requires Inv(g, r, t1, gray + {v}) && Extends(t, t1) && Visited(g, r, t, t1, w)
    requires Lowered(t1, u, v, t1.low[w])
    ensures LowReached(r, u, v)
  {
    var z :| z in t.on && t.num[z] == t.low[v] && (v, z) in r;
    assert z in u.on && u.num[z] == t.num[z];
    RelationEdge(g, r, v, w);
    if w in t1.on {
      var y :| y in t1.on && t1.num[y] == t1.low[w] && (w, y) in r;
      RelationTrans(g, r, v, w, y);
      assert y in u.on;
    }
  }

  lemma ScanKeepsBounds(g: Graph, r: Relation, s: State, t: State, t1: State, u: State, gray: set<nat>, v: nat,
                        scanned: set<nat>, w: nat)
    requires Before(g, s, gray, v) && Scanning(g, r, s, t, gray, v, scanned)
    requires Inv(g, r, t1, gray + {v}) && Extends(t, t1) && Visited(g, r, t, t1, w)
    requires Lowered(t1, u, v, t1.low[w])
    ensures LowBounds(g, u, v, s.on, {v})
    ensures forall z :: z in scanned + {w} && z in s.on ==> u.num[z] >= u.low[v]
  {
    hide StackReaches, Classified;
    assert s.on <= t.on <= t1.on == u.on;
    assert t1.low[v] == t.low[v];
    forall y, z {:trigger y in u.on, z in Succ(g, y)} | y in u.on && y !in s.on && y != v && z in Succ(g, y)
      && z in s.on
      ensures u.num[z] >= u.low[v]
    {
      assert t1.num[z] == t.num[z];
      if y in t.on {
        assert t.num[z] >= t.low[v];
      } else {
        assert t1.num[z] >= t1.low[w];
      }
    }
    forall z | z in scanned && z in s.on
      ensures u.num[z] >= u.low[v]
    {
      assert t1.num[z] == t.num[z];
    }
  }

  lemma ScanVisited(g: Graph, r: Relation, s: State, t: State, t1: State, u: State, gray: set<nat>, v: nat,
                    scanned: set<nat>, w: nat)
    requires IsReachability(g, r) && w in Succ(g, v)
    requires Before(g, s, gray, v) && Scanning(g, r, s, t, gray, v, scanned)
    requires Inv(g, r, t1, gray + {v}) && Extends(t, t1) && Visited(g, r, t, t1, w)
    requires Lowered(t1, u, v, t1.low[w])
    ensures Scanning(g, r, s, u, gray, v, scanned + {w})
  {
    hide Explored, StackReaches, Classified;
    LowerKeepsInv(g, r, t1, u, gray + {v}, v);
    ScanKeepsReached(g, r, s, t, t1, u, gray, v, w);
    ScanKeepsBounds(g, r, s, t, t1, u, gray, v, scanned, w);
    ExtendsLowered(s, t, t1, u, v, t1.low[w]);
  }

  lemma ExtendsLowered(s: State, t: State, t1: State, u: State, v: nat, bound: nat)
    requires s.low.Keys == s.num.Keys && t.low.Keys == t.num.Keys && t1.low.Keys == t1.num.Keys
    requires Extends(s, t) && Extends(t, t1) && v in t1.low && v !in s.num && Lowered(t1, u, v, bound)
    ensures Extends(s, u)
  {
  }

  /** A child whose component is already popped. */
  lemma ScanPopped(g: Graph, r: Relation, s: State, t: State, gray: set<nat>, v: nat, scanned: set<nat>, w: nat)
    requires Before(g, s, gray, v) && Scanning(g, r, s, t, gray, v, scanned) && Done(t, w)
    ensures Scanning(g, r, s, t, gray, v, scanned + {w})
  {
    assert w !in s.on;
  }

  lemma GrayReaches(g: Graph, r: Relation, gray: set<nat>, v: nat, w: nat)
    requires IsReachability(g, r) && w in Succ(g, v) && (forall u :: u in gray ==> (u, v) in r)
    ensures forall u :: u in gray + {v} ==> (u, w) in r
  {
    RelationEdge(g, r, v, w);
    forall u | u in gray
      ensures (u, w) in r
    {
      RelationTrans(g, r, u, v, w);
    }
  }

  class Search {
    const g: Graph
    ghost const reach: Relation
    var stack: seq<nat>
    var currentTarjanID: nat
    var nodeToTarjanID: map<nat, nat>
    var lowLink: map<nat, nat>
    var inStack: set<nat>
    ghost var at: map<nat, nat>

    ghost function View(): State
      reads this
    {
      State(inStack, currentTarjanID, at, nodeToTarjanID, lowLink)
    }

    /** The stack lists inStack in the order of the numbers. */
    ghost predicate Listed()
      reads this
    {
      && inStack <= nodeToTarjanID.Keys
      && (forall x :: x in inStack <==> x in stack)
      && (forall i, j :: 0 <= i < j < |stack| ==> nodeToTarjanID[stack[i]] < nodeToTarjanID[stack[j]])
    }

    constructor (g: Graph, ghost reach: Relation)
      ensures this.g == g && this.reach == reach && Listed() && Inv(g, reach, View(), {}) && nodeToTarjanID == map[]
              && inStack == {}
    {
      this.g, this.reach := g, reach;
      stack, currentTarjanID, nodeToTarjanID, lowLink, inStack := [], 0, map[], map[], {};
      at := map[];
    }

    /** The head of tarjanDFS: the node gets the next number and goes on the stack. */
    method Number(nodeID: nat)
      requires Listed() && nodeID !in nodeToTarjanID
      requires forall x {:trigger nodeToTarjanID[x]} :: x in nodeToTarjanID ==> nodeToTarjanID[x] <= currentTarjanID
      modifies this
      ensures Listed() && View() == Push(old(View()), nodeID)
    {
      currentTarjanID := currentTarjanID + 1;
      stack := stack + [nodeID];
      inStack := inStack + {nodeID};
      nodeToTarjanID := nodeToTarjanID[nodeID := currentTarjanID];
      lowLink := lowLink[nodeID := currentTarjanID];
      at := at[currentTarjanID := nodeID];
    }

    /** tarjanDFS. `gray` holds the nodes whose visit has not returned. */
    method Visit(nodeID: nat, ghost gray: set<nat>)
      requires IsReachability(g, reach) && Listed() && Inv(g, reach, View(), gray)
      requires nodeID in g && nodeID !in nodeToTarjanID
      requires forall u :: u in gray ==> (u, nodeID) in reach
      modifies this
      ensures Listed() && Inv(g, reach, View(), gray)
      ensures Extends(old(View()), View()) && Visited(g, reach, old(View()), View(), nodeID)
      decreases g.Keys - nodeToTarjanID.Keys, 1
    {
      hide Explored, StackReaches, Classified, LowReached, LowBounds, IsReachability;
      ghost var s := View();
      Number(nodeID);
      PushStarts(g, reach, s, gray, nodeID);
      assert nodeID in g.Keys - s.num.Keys && nodeID !in g.Keys - nodeToTarjanID.Keys;

      ElementsOfArray(g[nodeID]);
      ScanChildren(nodeID, ToArray(g[nodeID]), gray, s);
      ghost var t := View();
      if nodeToTarjanID[nodeID] == lowLink[nodeID] {
        PopComponent(nodeID);
        CloseComponent(g, reach, s, t, View(), gray, nodeID);
      } else {
        KeepComponent(g, reach, s, t, gray, nodeID);
      }
    }

    /** The loop of tarjanDFS over the children of nodeID. */
    method ScanChildren(nodeID: nat, children: seq<nat>, ghost gray: set<nat>, ghost s: State)
      requires IsReachability(g, reach) && Listed() && Elements(children) == Succ(g, nodeID)
      requires Before(g, s, gray, nodeID) && Scanning(g, reach, s, View(), gray, nodeID, {})
      requires forall u :: u in gray ==> (u, nodeID) in reach
      modifies this
      ensures Listed() && Scanned(g, reach, s, View(), gray, nodeID)
      decreases g.Keys - nodeToTarjanID.Keys, 3
    {
      hide Inv, Listed;
      ghost var before, scanned := nodeToTarjanID.Keys, {};
      for i := 0 to |children|
        invariant Listed() && Scanning(g, reach, s, View(), gray, nodeID, scanned)
        invariant scanned == Elements(children[..i])
        invariant before <= nodeToTarjanID.Keys
      {
        ElementsSnoc(children, i);
        ElementsOf(children, children[i]);
        assert g.Keys - nodeToTarjanID.Keys <= g.Keys - before;
        ScanChild(nodeID, children[i], gray, s, scanned);
        scanned := scanned + {children[i]};
      }
      assert children[..|children|] == children;
    }

    /** One round of that loop. */
    method ScanChild(nodeID: nat, nextNode: nat, ghost gray: set<nat>, ghost s: State, ghost scanned: set<nat>)
      requires IsReachability(g, reach) && Listed() && nextNode in Succ(g, nodeID)
      requires Before(g, s, gray, nodeID) && Scanning(g, reach, s, View(), gray, nodeID, scanned)
      requires forall u :: u in gray ==> (u, nodeID) in reach
      modifies this
      ensures Listed() && Scanning(g, reach, s, View(), gray, nodeID, scanned + {nextNode})
      ensures old(nodeToTarjanID.Keys) <= nodeToTarjanID.Keys
      decreases g.Keys - nodeToTarjanID.Keys, 2
    {
      hide Explored, StackReaches, Classified, Listed, Lowered;
      ghost var t := View();
      if nextNode !in nodeToTarjanID {
        GrayReaches(g, reach, gray, nodeID, nextNode);
        Visit(nextNode, gray + {nodeID});
        ghost var t1 := View();
        Lower(nodeID, lowLink[nextNode]);
        ScanVisited(g, reach, s, t, t1, View(), gray, nodeID, scanned, nextNode);
      } else if nextNode in inStack {
        Lower(nodeID, nodeToTarjanID[nextNode]);
        ScanOnStack(g, reach, s, t, View(), gray, nodeID, scanned, nextNode);
      } else {
        ScanPopped(g, reach, s, t, gray, nodeID, scanned, nextNode);
      }
    }

    /** lowLink[nodeID] = min(lowLink[nodeID], bound). */
    method Lower(nodeID: nat, bound: nat)
      requires Listed() && nodeID in lowLink
      modifies this`lowLink
      ensures Listed() && Lowered(old(View()), View(), nodeID, bound)
    {
      lowLink := lowLink[nodeID := if lowLink[nodeID] <= bound then lowLink[nodeID] else bound];
    }

    /** The loop of tarjanDFS that pops the component of its root. */
    method PopComponent(nodeID: nat)
      requires Listed() && nodeID in inStack && lowLink.Keys == nodeToTarjanID.Keys
      modifies this
      ensures Listed() && Popped(old(View()), View(), nodeID)
    {
      ghost var s := View();
      while |stack| > 0
        decreases inStack
        invariant Listed() && nodeID in inStack && nodeToTarjanID == s.num && at == s.at && currentTarjanID == s.counter
        invariant lowLink.Keys == s.num.Keys && inStack <= s.on
        invariant forall x, y {:trigger s.num[x], y in inStack} ::
                    x in s.on && x !in inStack && y in inStack ==> s.num[y] < s.num[x]
        invariant forall x {:trigger lowLink[x]} ::
                    x in s.num ==> lowLink[x] == if x in s.on && x !in inStack then s.num[nodeID] else s.low[x]
      {
        var id := PopTop(nodeToTarjanID[nodeID]);
        if nodeID == id {
          break;
        }
      }
    }

    method PopTop(root: nat) returns (id: nat)
      requires Listed() && |stack| > 0
      modifies this
      ensures Listed() && id in old(inStack) && inStack == old(inStack) - {id}
      ensures lowLink == old(lowLink)[id := root]
      ensures nodeToTarjanID == old(nodeToTarjanID) && at == old(at) && currentTarjanID == old(currentTarjanID)
      ensures forall x :: x in inStack ==> nodeToTarjanID[x] < nodeToTarjanID[id]
    {
      id := stack[|stack| - 1];
      forall x | x in inStack && x != id
        ensures x in stack[..|stack| - 1] && nodeToTarjanID[x] < nodeToTarjanID[id]
      {
        assert x in stack;
      }
      assert id !in stack[..|stack| - 1];
      stack := stack[..|stack| - 1];
      inStack := inStack - {id};
      lowLink := lowLink[id := root];
    }
  }

  /** findCycles: every node gets a number, the same exactly within one strongly connected component. */
  method FindCycles(numOfNodes: nat, allNodes: Graph) returns (lowLink: map<nat, nat>)
    requires Closed(allNodes) && forall id :: id in allNodes <==> 1 <= id <= numOfNodes
    ensures IsScc(allNodes, lowLink)
  {
    hide Explored, StackReaches, Classified, LowReached, LowBounds, IsReachability, Search.Listed;
    ghost var reach := ReachabilityExists(allNodes);
    var search := new Search(allNodes, reach);
    for id := 1 to numOfNodes + 1
      invariant search.Listed() && Inv(allNodes, reach, search.View(), {})
      invariant forall x :: 1 <= x < id ==> x in search.nodeToTarjanID
    {
      ghost var before := search.View();
      if id !in search.nodeToTarjanID {
        search.Visit(id, {});
        assert before.num.Keys <= search.nodeToTarjanID.Keys;
      }
    }
    lowLink := search.lowLink;
    AllDone(allNodes, reach, search.View());
  }

  lemma AllDone(g: Graph, r: Relation, s: State)
    requires IsReachability(g, r) && Inv(g, r, s, {}) && s.num.Keys == g.Keys
    ensures IsScc(g, s.low)
  {
    forall x | x in g
      ensures Done(s, x)
    {
      assert !ReachesGray(r, s.num, {}, x);
    }
    forall x, y | x in g && y in g
      ensures s.low[x] == s.low[y] <==> Mutual(g, x, y)
    {
      assert Both(r, x, y) <==> Mutual(g, x, y);
    }
  }
}
