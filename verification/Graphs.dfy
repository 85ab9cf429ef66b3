/** Directed multigraphs of rule nodes: walks, cycles and reachability.
    Every algorithm of the rule compiler and interpreter is specified against these notions. */
module Graphs {

  type NodeId = string

  datatype Arc = Arc(src: NodeId, tgt: NodeId)

  /** Nodes in definition order and arcs in definition order; arcs may repeat. */
  datatype Graph = Graph(ids: seq<NodeId>, arcs: seq<Arc>)

  predicate Distinct<T(==)>(s: seq<T>) {
    forall i, j :: 0 <= i < j < |s| ==> s[i] != s[j]
  }

  /** Both endpoints of every arc are nodes, and no node is listed twice. */
  ghost predicate WellFormed(g: Graph) {
    && Distinct(g.ids)
    && (forall a | a in g.arcs :: a.src in g.ids && a.tgt in g.ids)
  }

  ghost predicate HasArc(g: Graph, u: NodeId, v: NodeId) {
    Arc(u, v) in g.arcs
  }

  ghost predicate Parentless(g: Graph, n: NodeId) {
    forall a | a in g.arcs :: a.tgt != n
  }

  ghost predicate Childless(g: Graph, n: NodeId) {
    forall a | a in g.arcs :: a.src != n
  }

  /** Positions i and i + 1 of p are joined by an arc. */
  ghost predicate Hop(g: Graph, p: seq<NodeId>, i: nat)
    requires i + 1 < |p|
  {
    HasArc(g, p[i], p[i + 1])
  }

  /** A non-empty node sequence whose neighbours are joined by arcs. */
  ghost predicate IsWalk(g: Graph, p: seq<NodeId>) {
    |p| > 0 && forall i: nat | i + 1 < |p| :: Hop(g, p, i)
  }

  ghost predicate WalkFromTo(g: Graph, p: seq<NodeId>, u: NodeId, v: NodeId) {
    IsWalk(g, p) && p[0] == u && p[|p| - 1] == v
  }

  ghost predicate Reaches(g: Graph, u: NodeId, v: NodeId) {
    exists p :: WalkFromTo(g, p, u, v)
  }

  /** A closed walk with at least one arc. */
  ghost predicate IsCycle(g: Graph, p: seq<NodeId>) {
    IsWalk(g, p) && |p| >= 2 && p[0] == p[|p| - 1]
  }

  ghost predicate Acyclic(g: Graph) {
    forall p :: !IsCycle(g, p)
  }

  /** Some cycle reaches n (a node of a cycle included). */
  ghost predicate BehindCycle(g: Graph, n: NodeId) {
    exists p :: IsCycle(g, p) && Reaches(g, p[0], n)
  }

  // ---------------------------------------------------------------- walks

  lemma WalkSlice(g: Graph, p: seq<NodeId>, i: nat, j: nat)
    requires IsWalk(g, p) && i < j <= |p|
    ensures IsWalk(g, p[i..j])
  {
    forall k: nat | k + 1 < |p[i..j]|
      ensures Hop(g, p[i..j], k)
    {
      assert Hop(g, p, i + k);
    }
  }

  /** Splitting off the last arc of a walk. */
  lemma WalkLast(g: Graph, p: seq<NodeId>)
    requires IsWalk(g, p) && |p| > 1
    ensures IsWalk(g, p[..|p| - 1]) && HasArc(g, p[|p| - 2], p[|p| - 1])
  {
    WalkSlice(g, p, 0, |p| - 1);
    assert Hop(g, p, |p| - 2);
  }

  lemma WalkJoin(g: Graph, p: seq<NodeId>, q: seq<NodeId>)
    requires IsWalk(g, p) && IsWalk(g, q) && HasArc(g, p[|p| - 1], q[0])
    ensures WalkFromTo(g, p + q, p[0], q[|q| - 1])
  {
    var r := p + q;
    forall i: nat | i + 1 < |r|
      ensures Hop(g, r, i)
    {
      if i + 1 < |p| {
        assert Hop(g, p, i);
      } else if i >= |p| {
        assert Hop(g, q, i - |p|);
      }
    }
  }

  lemma WalkExtend(g: Graph, p: seq<NodeId>, n: NodeId)
    requires IsWalk(g, p) && HasArc(g, p[|p| - 1], n)
    ensures WalkFromTo(g, p + [n], p[0], n)
  {
    assert IsWalk(g, [n]);
    WalkJoin(g, p, [n]);
  }

  lemma ReachesSelf(g: Graph, n: NodeId)
    ensures Reaches(g, n, n)
  {
    assert WalkFromTo(g, [n], n, n);
  }

  lemma ReachesStep(g: Graph, u: NodeId, v: NodeId, w: NodeId)
    requires Reaches(g, u, v) && HasArc(g, v, w)
    ensures Reaches(g, u, w)
  {
    var p :| WalkFromTo(g, p, u, v);
    WalkExtend(g, p, w);
    assert WalkFromTo(g, p + [w], u, w);
  }

  lemma ReachesBack(g: Graph, u: NodeId, v: NodeId, w: NodeId)
    requires HasArc(g, u, v) && Reaches(g, v, w)
    ensures Reaches(g, u, w)
  {
    var p :| WalkFromTo(g, p, v, w);
    assert IsWalk(g, [u]);
    WalkJoin(g, [u], p);
    assert WalkFromTo(g, [u] + p, u, w);
  }

  /** A walk that starts at a node visits nodes only. */
  lemma WalkInside(g: Graph, p: seq<NodeId>)
    requires WellFormed(g) && IsWalk(g, p) && p[0] in g.ids
    ensures forall x | x in p :: x in g.ids
  {
    forall i | 0 <= i < |p|
      ensures p[i] in g.ids
    {
      if i > 0 {
        assert Hop(g, p, i - 1);
      }
    }
  }

  /** A set closed under arcs that holds the start of a walk holds its end. */
  lemma {:induction false} WalkInClosedSet(g: Graph, p: seq<NodeId>, s: set<NodeId>)
    requires IsWalk(g, p) && p[0] in s
    requires forall a | a in g.arcs :: a.src in s ==> a.tgt in s
    ensures p[|p| - 1] in s
  {
    if |p| > 1 {
      WalkLast(g, p);
      WalkInClosedSet(g, p[..|p| - 1], s);
    }
  }

  // -------------------------------------------------------------- cycles

  lemma RepeatGivesCycle(g: Graph, p: seq<NodeId>, i: nat, j: nat)
    requires IsWalk(g, p) && i < j < |p| && p[i] == p[j]
    ensures IsCycle(g, p[i..j + 1])
  {
    WalkSlice(g, p, i, j + 1);
  }

  /** Walking along arcs without a cycle never repeats a node. */
  lemma AcyclicWalkDistinct(g: Graph, p: seq<NodeId>)
    requires Acyclic(g) && IsWalk(g, p)
    ensures Distinct(p)
  {
    forall i, j | 0 <= i < j < |p|
      ensures p[i] != p[j]
    {
      if p[i] == p[j] {
        RepeatGivesCycle(g, p, i, j);
      }
    }
  }

  // ------------------------------------------------------ finite counting

  lemma DistinctAppend<T>(s: seq<T>, t: seq<T>)
    requires Distinct(s) && Distinct(t)
    requires forall x | x in t :: x !in s
    ensures Distinct(s + t)
  {
    forall i, j | 0 <= i < j < |s + t|
      ensures (s + t)[i] != (s + t)[j]
    {
      if j >= |s| {
        assert t[j - |s|] in t;
      }
    }
  }

  ghost function Members<T>(s: seq<T>): set<T> {
    set x | x in s
  }

  lemma {:induction false} DistinctSize<T>(s: seq<T>)
    requires Distinct(s)
    ensures |Members(s)| == |s|
  {
    if s == [] {
      assert Members(s) == {};
    } else {
      var t := s[..|s| - 1];
      var x := s[|s| - 1];
      DistinctSize(t);
      assert x !in t;
      assert s == t + [x];
      assert Members(s) == Members(t) + {x};
    }
  }

  lemma SubsetSize<T>(a: set<T>, b: set<T>)
    requires a <= b
    ensures |a| <= |b|
    ensures |a| == |b| ==> a == b
  {
    assert b == a + (b - a);
    assert |b| == |a| + |b - a|;
  }

  /** Pigeonhole: a repetition-free sequence over a node list is no longer than the list. */
  lemma Pigeonhole<T>(s: seq<T>, ids: seq<T>)
    requires Distinct(s) && Distinct(ids)
    requires forall x | x in s :: x in ids
    ensures |s| <= |ids|
    ensures |s| == |ids| ==> forall x | x in ids :: x in s
  {
    DistinctSize(s);
    DistinctSize(ids);
    assert Members(s) <= Members(ids);
    SubsetSize(Members(s), Members(ids));
    if |s| == |ids| {
      forall x | x in ids
        ensures x in s
      {
        assert x in Members(ids);
      }
    }
  }

  lemma AcyclicWalkShort(g: Graph, p: seq<NodeId>)
    requires WellFormed(g) && Acyclic(g) && IsWalk(g, p) && p[0] in g.ids
    ensures |p| <= |g.ids|
  {
    AcyclicWalkDistinct(g, p);
    WalkInside(g, p);
    Pigeonhole(p, g.ids);
  }
}
