/** The validator's breadth-first searches, forwards from the source and backwards from the outputs. */
module Reachability {
  import opened Graphs
  import opened KahnOrder

  ghost predicate ReachedFrom(g: Graph, starts: seq<NodeId>, n: NodeId) {
    exists s :: s in starts && Reaches(g, s, n)
  }

  function Reversed(g: Graph): (r: Graph)
    ensures |r.arcs| == |g.arcs| && forall i | 0 <= i < |r.arcs| :: r.arcs[i] == Arc(g.arcs[i].tgt, g.arcs[i].src)
  {
    Graph(g.ids, seq(|g.arcs|, i requires 0 <= i < |g.arcs| => Arc(g.arcs[i].tgt, g.arcs[i].src)))
  }

  lemma ReversedArc(g: Graph, u: NodeId, v: NodeId)
    ensures HasArc(Reversed(g), u, v) <==> HasArc(g, v, u)
  {
    if HasArc(g, v, u) {
      var i :| 0 <= i < |g.arcs| && g.arcs[i] == Arc(v, u);
      assert Reversed(g).arcs[i] == Arc(u, v);
    }
  }

  lemma ReversedWellFormed(g: Graph)
    requires WellFormed(g)
    ensures WellFormed(Reversed(g))
  {
    forall a | a in Reversed(g).arcs
      ensures a.src in g.ids && a.tgt in g.ids
    {
      ReversedArc(g, a.src, a.tgt);
      assert Arc(a.tgt, a.src) in g.arcs;
    }
  }

  lemma {:induction false} ReversedWalk(g: Graph, p: seq<NodeId>)
    requires IsWalk(g, p)
    ensures Reaches(Reversed(g), p[|p| - 1], p[0])
    decreases |p|
  {
    if |p| == 1 {
      ReachesSelf(Reversed(g), p[0]);
    } else {
      WalkLast(g, p);
      ReversedWalk(g, p[..|p| - 1]);
      ReversedArc(g, p[|p| - 1], p[|p| - 2]);
      ReachesBack(Reversed(g), p[|p| - 1], p[|p| - 2], p[0]);
    }
  }

  lemma ReversedReaches(g: Graph, u: NodeId, v: NodeId)
    ensures Reaches(Reversed(g), u, v) <==> Reaches(g, v, u)
  {
    if p :| WalkFromTo(g, p, v, u) {
      ReversedWalk(g, p);
    }
    if p :| WalkFromTo(Reversed(g), p, u, v) {
      ReversedWalk(Reversed(g), p);
      assert Reversed(Reversed(g)).arcs == g.arcs;
    }
  }

  /** Everything a visited node leads to is visited or queued. */
  ghost predicate Frontier(g: Graph, reached: set<NodeId>, queue: seq<NodeId>) {
    forall a | a in g.arcs && a.src in reached :: a.tgt in reached || a.tgt in queue
  }

  ghost predicate AllReached(g: Graph, starts: seq<NodeId>, nodes: seq<NodeId>) {
    forall n | n in nodes :: n in g.ids && ReachedFrom(g, starts, n)
  }

  lemma ChildrenReached(g: Graph, starts: seq<NodeId>, n: NodeId)
    requires WellFormed(g) && ReachedFrom(g, starts, n)
    ensures AllReached(g, starts, Children(g, n))
  {
    forall c | c in Children(g, n)
      ensures c in g.ids && ReachedFrom(g, starts, c)
    {
      ChildrenAre(g, n, c);
      var s :| s in starts && Reaches(g, s, n);
      ReachesStep(g, s, n, c);
    }
  }

  lemma ChildrenCovered(g: Graph, reached: set<NodeId>, queue: seq<NodeId>, n: NodeId)
    requires Frontier(g, reached, [n] + queue)
    ensures Frontier(g, reached + {n}, queue + Children(g, n))
  {
    forall a | a in g.arcs && a.src in reached + {n}
      ensures a.tgt in reached + {n} || a.tgt in queue + Children(g, n)
    {
      if a.src == n {
        ChildrenAre(g, n, a.tgt);
        assert HasArc(g, n, a.tgt);
      } else {
        assert a.tgt in reached || a.tgt in [n] + queue;
      }
    }
  }

  lemma ClosureComplete(g: Graph, starts: seq<NodeId>, reached: set<NodeId>, n: NodeId)
    requires Frontier(g, reached, []) && (forall s | s in starts :: s in reached)
    requires ReachedFrom(g, starts, n)
    ensures n in reached
  {
    var s :| s in starts && Reaches(g, s, n);
    var p :| WalkFromTo(g, p, s, n);
    WalkInClosedSet(g, p, reached);
  }

  /** What the closure knows: everything visited or queued is reached, and everything reached is visited or behind
      the queue. */
  ghost predicate Exploring(g: Graph, starts: seq<NodeId>, reached: set<NodeId>, queue: seq<NodeId>) {
    && reached <= Members(g.ids)
    && (forall n | n in reached :: ReachedFrom(g, starts, n))
    && AllReached(g, starts, queue)
    && (forall s | s in starts :: s in reached || s in queue)
    && Frontier(g, reached, queue)
  }

  lemma StartsExplored(g: Graph, starts: seq<NodeId>)
    requires forall s | s in starts :: s in g.ids
    ensures Exploring(g, starts, {}, starts)
  {
    forall s | s in starts
      ensures ReachedFrom(g, starts, s)
    {
      ReachesSelf(g, s);
    }
  }

  lemma SkipExplored(g: Graph, starts: seq<NodeId>, reached: set<NodeId>, queue: seq<NodeId>)
    requires queue != [] && queue[0] in reached && Exploring(g, starts, reached, queue)
    ensures Exploring(g, starts, reached, queue[1..])
  {
    assert queue == [queue[0]] + queue[1..];
  }

  lemma VisitExplored(g: Graph, starts: seq<NodeId>, reached: set<NodeId>, queue: seq<NodeId>)
    requires WellFormed(g) && queue != [] && Exploring(g, starts, reached, queue)
    ensures Exploring(g, starts, reached + {queue[0]}, queue[1..] + Children(g, queue[0]))
  {
    assert queue == [queue[0]] + queue[1..];
    ChildrenReached(g, starts, queue[0]);
    ChildrenCovered(g, reached, queue[1..], queue[0]);
  }

  /** Breadth-first closure: exactly the nodes some start reaches. */
  method Closure(g: Graph, next: map<NodeId, seq<NodeId>>, starts: seq<NodeId>) returns (reached: set<NodeId>)
    requires WellFormed(g) && IsChildren(g.ids, g.arcs, |g.arcs|, next)
    requires forall s | s in starts :: s in g.ids
    ensures forall n :: n in reached <==> ReachedFrom(g, starts, n)
  {
    reached := {};
    var queue := starts;
    StartsExplored(g, starts);
    while queue != []
      invariant Exploring(g, starts, reached, queue)
      decreases Members(g.ids) - reached, |queue|
    {
      var cur := queue[0];
      if cur in reached {
        SkipExplored(g, starts, reached, queue);
        queue := queue[1..];
        continue;
      }
      VisitExplored(g, starts, reached, queue);
      assert cur in g.ids && next[cur] == Children(g, cur);
      queue := queue[1..] + next[cur];
      reached := reached + {cur};
    }
    forall n | ReachedFrom(g, starts, n)
      ensures n in reached
    {
      ClosureComplete(g, starts, reached, n);
    }
  }
}
