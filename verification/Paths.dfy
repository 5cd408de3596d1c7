/**
 The upward walk of buildFinding: breadth first from the vulnerability, with next[x] one step closer to it.

 `dist` is a ghost: the number of steps by which each visited node was found.
 */
module Paths {
  import opened Graphs

  /** The links found so far lead towards v, one step at a time. */
  ghost predicate Links(g: Graph, v: nat, dist: map<nat, nat>, next: map<nat, nat>) {
    && v in dist && dist[v] == 0 && v !in next && next.Keys + {v} == dist.Keys
    && forall x {:trigger next[x]} :: x in next ==>
         next[x] in dist && next[x] in g && x in Succ(g, next[x]) && dist[x] == dist[next[x]] + 1
  }

  ghost predicate Expanded(g: Graph, dist: map<nat, nat>, done: set<nat>) {
    && done <= dist.Keys
    && forall d, y {:trigger d in done, y in Succ(g, d)} ::
         d in done && y in Succ(g, d) ==> y in dist && dist[y] <= dist[d] + 1
  }

  /** The queue holds each node once, in the order of dist, all within one step of the level of c. */
  ghost predicate Ordered(queue: seq<nat>, dist: map<nat, nat>, done: set<nat>, level: nat) {
    && (forall i {:trigger queue[i]} ::
         0 <= i < |queue| ==> queue[i] in dist && queue[i] !in done && level <= dist[queue[i]] <= level + 1)
    && (forall i, j :: 0 <= i < j < |queue| ==> queue[i] != queue[j])
    && (forall i, j ::
         0 <= i < j < |queue| ==> queue[i] in dist && queue[j] in dist && dist[queue[i]] <= dist[queue[j]])
    && (forall d {:trigger d in done} :: d in done && d in dist ==> dist[d] <= level)
    && (forall x {:trigger x in dist} :: x in dist ==> x in done || x in queue)
  }

  /** Between rounds: done nodes are expanded, the rest of the visited ones wait in order. */
  ghost predicate Walking(g: Graph, v: nat, queue: seq<nat>, dist: map<nat, nat>, next: map<nat, nat>, done: set<nat>) {
    && Links(g, v, dist, next) && Expanded(g, dist, done)
    && (forall d {:trigger d in done} :: d in done ==> d in dist)
    && (if queue == [] then dist.Keys <= done else queue[0] in dist && Ordered(queue, dist, done, dist[queue[0]]))
    && (done == {} ==> queue == [v] && dist.Keys == {v})
  }

  /** Within a round: c is being expanded, and its parents in `seen` are visited. */
  ghost predicate Expanding(g: Graph, v: nat, c: nat, queue: seq<nat>, dist: map<nat, nat>, next: map<nat, nat>,
                            done: set<nat>, seen: set<nat>) {
    && Links(g, v, dist, next) && Expanded(g, dist, done) && c in dist && c in g && c !in done
    && Ordered(queue, dist, done + {c}, dist[c])
    && (forall y {:trigger y in seen} :: y in seen ==> y in dist && dist[y] <= dist[c] + 1)
  }

  lemma Begin(g: Graph, v: nat)
    ensures Walking(g, v, [v], map[v := 0], map[], {})
  {
  }

  /** The head of the queue is taken up for expansion. */
  lemma TakeHead(g: Graph, v: nat, queue: seq<nat>, dist: map<nat, nat>, next: map<nat, nat>, done: set<nat>)
    requires Walking(g, v, queue, dist, next, done) && queue != [] && queue[0] in g
    ensures Expanding(g, v, queue[0], queue[1..], dist, next, done, {})
  {
    TailOrdered(queue, dist, done, dist[queue[0]]);
  }

  lemma TailOrdered(queue: seq<nat>, dist: map<nat, nat>, done: set<nat>, level: nat)
    requires queue != [] && queue[0] in dist && level == dist[queue[0]] && Ordered(queue, dist, done, level)
    ensures Ordered(queue[1..], dist, done + {queue[0]}, level) && queue[0] !in done
  {
    var t := queue[1..];
    forall x {:trigger x in dist} | x in dist
      ensures x in done + {queue[0]} || x in t
    {
      if x in queue {
        var i :| 0 <= i < |queue| && queue[i] == x;
        assert i > 0 ==> t[i - 1] == x;
      }
    }
  }

  lemma DiscoverLinks(g: Graph, v: nat, c: nat, dist: map<nat, nat>, next: map<nat, nat>, y: nat)
    requires Links(g, v, dist, next) && c in dist && c in g && y in Succ(g, c) && y !in dist
    ensures Links(g, v, dist[y := dist[c] + 1], next[y := c])
  {
  }

  lemma DiscoverOrdered(queue: seq<nat>, dist: map<nat, nat>, done: set<nat>, c: nat, y: nat)
    requires c in dist && Ordered(queue, dist, done, dist[c]) && y !in dist && y !in done
    ensures Ordered(queue + [y], dist[y := dist[c] + 1], done, dist[c])
  {
    var t := queue + [y];
    assert t[|queue|] == y;
    assert forall x :: x in queue ==> x in t;
  }

  /** A parent not visited before joins the queue. */
  lemma Discover(g: Graph, v: nat, c: nat, queue: seq<nat>, dist: map<nat, nat>, next: map<nat, nat>, done: set<nat>,
                 seen: set<nat>, y: nat)
    requires Expanding(g, v, c, queue, dist, next, done, seen) && y in Succ(g, c) && y !in dist
    ensures Expanding(g, v, c, queue + [y], dist[y := dist[c] + 1], next[y := c], done, seen + {y})
  {
    hide Links, Ordered;
    assert c in dist && y !in done + {c};
    DiscoverLinks(g, v, c, dist, next, y);
    DiscoverOrdered(queue, dist, done + {c}, c, y);
  }

  /** A parent visited before is left alone. */
  lemma Rediscover(g: Graph, v: nat, c: nat, queue: seq<nat>, dist: map<nat, nat>, next: map<nat, nat>, done: set<nat>,
                   seen: set<nat>, y: nat)
    requires Expanding(g, v, c, queue, dist, next, done, seen) && y in dist
    ensures Expanding(g, v, c, queue, dist, next, done, seen + {y})
  {
    assert y in done + {c} || y in queue;
    if y in queue {
      var i :| 0 <= i < |queue| && queue[i] == y;
    }
  }

  /** All parents of c are seen: c is done. */
  lemma FinishRound(g: Graph, v: nat, c: nat, queue: seq<nat>, dist: map<nat, nat>, next: map<nat, nat>, done: set<nat>)
    requires Expanding(g, v, c, queue, dist, next, done, Succ(g, c))
    ensures Walking(g, v, queue, dist, next, done + {c})
  {
    assert Expanded(g, dist, done + {c});
    if queue != [] {
      var level := dist[queue[0]];
      forall i {:trigger queue[i]} | 0 <= i < |queue|
        ensures level <= dist[queue[i]] <= level + 1
      {
        assert i > 0 ==> dist[queue[0]] <= dist[queue[i]];
      }
    }
  }

  /** A head that is not a stored node has nothing to expand. */
  lemma SkipHead(g: Graph, v: nat, queue: seq<nat>, dist: map<nat, nat>, next: map<nat, nat>, done: set<nat>)
    requires Walking(g, v, queue, dist, next, done) && queue != [] && queue[0] !in g
    ensures Walking(g, v, queue[1..], dist, next, done + {queue[0]})
  {
    TailOrdered(queue, dist, done, dist[queue[0]]);
    var t := queue[1..];
    assert Expanded(g, dist, done + {queue[0]});
    if t != [] {
      var level := dist[t[0]];
      forall i {:trigger t[i]} | 0 <= i < |t|
        ensures level <= dist[t[i]] <= level + 1
      {
        assert i > 0 ==> dist[t[0]] <= dist[t[i]];
      }
    }
  }

  // ---------- the end of the walk ----------

  /** Every node reachable from v is visited, by a distance that no path beats. */
  lemma {:induction false} DistanceIsShortest(g: Graph, v: nat, dist: map<nat, nat>, next: map<nat, nat>,
                                              done: set<nat>, p: seq<nat>)
    requires Walking(g, v, [], dist, next, done) && IsPath(g, p) && p[0] == v
    ensures p[|p| - 1] in dist && dist[p[|p| - 1]] <= |p| - 1
  {
    if |p| > 1 {
      var q := p[..|p| - 1];
      forall i | 0 < i < |q|
        ensures Step(g, q, i)
      {
        assert Step(g, p, i);
      }
      DistanceIsShortest(g, v, dist, next, done, q);
      assert Step(g, p, |p| - 1);
    }
  }

  lemma {:induction false} VisitedIsReached(g: Graph, v: nat, dist: map<nat, nat>, next: map<nat, nat>, x: nat)
    requires Links(g, v, dist, next) && x in dist
    ensures Reaches(g, v, x)
    decreases dist[x]
  {
    if x == v {
      ReachesRefl(g, v);
    } else {
      VisitedIsReached(g, v, dist, next, next[x]);
      ReachesEdge(g, next[x], x);
      ReachesTrans(g, v, next[x], x);
    }
  }

  /** ids leads down from its first node to a node one step from v, each depending on the one after it. */
  ghost predicate Chain(g: Graph, v: nat, ids: seq<nat>) {
    && (forall i :: 0 < i < |ids| ==> ids[i - 1] in Succ(g, ids[i]))
    && (ids != [] ==> ids[|ids| - 1] in Succ(g, v))
  }

  /** No chain from x down to v is shorter than n. */
  ghost predicate NoShorter(g: Graph, v: nat, x: nat, n: nat) {
    forall p {:trigger PathFromTo(g, p, v, x)} :: PathFromTo(g, p, v, x) ==> n <= |p| - 1
  }

  lemma NothingShorter(g: Graph, v: nat, dist: map<nat, nat>, next: map<nat, nat>, done: set<nat>, x: nat)
    requires Walking(g, v, [], dist, next, done) && x in dist
    ensures NoShorter(g, v, x, dist[x])
  {
    forall p {:trigger PathFromTo(g, p, v, x)} | PathFromTo(g, p, v, x)
      ensures dist[x] <= |p| - 1
    {
      DistanceIsShortest(g, v, dist, next, done, p);
    }
  }

  lemma VisitedIffReached(g: Graph, v: nat, dist: map<nat, nat>, next: map<nat, nat>, done: set<nat>, x: nat)
    requires Walking(g, v, [], dist, next, done)
    ensures x in dist <==> Reaches(g, v, x)
  {
    if x in dist {
      VisitedIsReached(g, v, dist, next, x);
    }
    if Reaches(g, v, x) {
      var p :| PathFromTo(g, p, v, x);
      DistanceIsShortest(g, v, dist, next, done, p);
    }
  }

  /** The loop that follows next from a visited node: it ends at v, and its length is the node's distance. */
  method Follow(ghost g: Graph, v: nat, next: map<nat, nat>, id: nat, ghost dist: map<nat, nat>) returns (ids: seq<nat>)
    requires Links(g, v, dist, next) && id in dist
    ensures Chain(g, v, ids) && |ids| == dist[id] && (id != v ==> ids != [] && ids[0] == id)
    ensures forall x :: x in ids ==> x in next && (x == id || x in g)
  {
    ids := [];
    var step := id;
    while step != v
      decreases if step in dist then dist[step] else 0
      invariant step in dist && |ids| + dist[step] == dist[id]
      invariant forall i :: 0 < i < |ids| ==> ids[i - 1] in Succ(g, ids[i])
      invariant if ids == [] then step == id else ids[0] == id && step in g && ids[|ids| - 1] in Succ(g, step)
      invariant forall x :: x in ids ==> x in next && (x == id || x in g)
    {
      ids := ids + [step];
      step := next[step];
    }
  }
}
