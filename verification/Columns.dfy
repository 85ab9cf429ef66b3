/** Columns of a drawing: the longest walk to a node from a node without parents. */
module Columns {
  import opened Graphs

  ghost predicate RootedTo(g: Graph, p: seq<NodeId>, n: NodeId) {
    IsWalk(g, p) && p[0] in g.ids && Parentless(g, p[0]) && p[|p| - 1] == n
  }

  /** No cycle lies on a walk out of a parentless node. */
  ghost predicate Settles(g: Graph) {
    forall p, n | RootedTo(g, p, n) :: Distinct(p)
  }

  ghost predicate Grounded(g: Graph, n: NodeId) {
    exists p :: RootedTo(g, p, n)
  }

  /** d is the number of arcs of the longest rooted walk to n, or 0 when there is none. */
  ghost predicate IsColumn(g: Graph, n: NodeId, d: nat) {
    if Grounded(g, n) then
      && (exists p :: RootedTo(g, p, n) && |p| == d + 1)
      && (forall p | RootedTo(g, p, n) :: |p| <= d + 1)
    else d == 0
  }

  ghost function Column(g: Graph, n: NodeId): (d: nat)
    requires WellFormed(g) && Settles(g)
    ensures IsColumn(g, n, d)
  {
    ColumnExists(g, n);
    var d: nat :| IsColumn(g, n, d);
    d
  }

  lemma RootedShort(g: Graph, p: seq<NodeId>, n: NodeId)
    requires WellFormed(g) && Settles(g) && RootedTo(g, p, n)
    ensures |p| <= |g.ids| && n in g.ids
  {
    WalkInside(g, p);
    Pigeonhole(p, g.ids);
  }

  lemma {:induction false} LongestFrom(g: Graph, n: NodeId, p: seq<NodeId>)
    requires WellFormed(g) && Settles(g) && RootedTo(g, p, n)
    ensures exists d: nat :: IsColumn(g, n, d)
    decreases |g.ids| - |p|
  {
    if q :| RootedTo(g, q, n) && |q| > |p| {
      RootedShort(g, q, n);
      LongestFrom(g, n, q);
    } else {
      assert IsColumn(g, n, |p| - 1);
    }
  }

  lemma ColumnExists(g: Graph, n: NodeId)
    requires WellFormed(g) && Settles(g)
    ensures exists d: nat :: IsColumn(g, n, d)
  {
    if p :| RootedTo(g, p, n) {
      LongestFrom(g, n, p);
    } else {
      assert IsColumn(g, n, 0);
    }
  }

  lemma ColumnUnique(g: Graph, n: NodeId, d: nat, e: nat)
    requires IsColumn(g, n, d) && IsColumn(g, n, e)
    ensures d == e
  {
  }

  /** Arcs go strictly right. */
  lemma ColumnStep(g: Graph, u: NodeId, v: NodeId)
    requires WellFormed(g) && Settles(g) && Grounded(g, u) && HasArc(g, u, v)
    ensures Grounded(g, v) && Column(g, v) >= Column(g, u) + 1
  {
    var p :| RootedTo(g, p, u) && |p| == Column(g, u) + 1;
    WalkExtend(g, p, v);
    assert RootedTo(g, p + [v], v);
  }

  /** A node right of column 0 has a parent in the column just before its own. */
  lemma ColumnParent(g: Graph, v: NodeId) returns (u: NodeId)
    requires WellFormed(g) && Settles(g) && Column(g, v) > 0
    ensures HasArc(g, u, v) && Grounded(g, u) && Column(g, u) + 1 == Column(g, v)
  {
    var p :| RootedTo(g, p, v) && |p| == Column(g, v) + 1;
    WalkLast(g, p);
    u := p[|p| - 2];
    assert RootedTo(g, p[..|p| - 1], u);
    ColumnStep(g, u, v);
  }

  /** Columns 0 up to that of any node are all occupied. */
  lemma {:induction false} ColumnsFilled(g: Graph, v: NodeId, c: nat) returns (u: NodeId)
    requires WellFormed(g) && Settles(g) && v in g.ids && c <= Column(g, v)
    ensures u in g.ids && Column(g, u) == c
    decreases Column(g, v)
  {
    if c == Column(g, v) {
      u := v;
    } else {
      var w := ColumnParent(g, v);
      u := ColumnsFilled(g, w, c);
    }
  }

  // ------------------------------------------------------- acyclic graphs

  lemma AcyclicSettles(g: Graph)
    requires Acyclic(g)
    ensures Settles(g)
  {
    forall p, n | RootedTo(g, p, n)
      ensures Distinct(p)
    {
      AcyclicWalkDistinct(g, p);
    }
  }

  /** Going up from any node of an acyclic graph ends at a parentless node. */
  lemma {:induction false} GroundedFrom(g: Graph, p: seq<NodeId>)
    requires WellFormed(g) && Acyclic(g) && IsWalk(g, p) && p[0] in g.ids
    ensures Grounded(g, p[|p| - 1])
    decreases |g.ids| - |p|
  {
    if Parentless(g, p[0]) {
      assert RootedTo(g, p, p[|p| - 1]);
    } else {
      var a :| a in g.arcs && a.tgt == p[0];
      assert IsWalk(g, [a.src]);
      WalkJoin(g, [a.src], p);
      AcyclicWalkShort(g, [a.src] + p);
      GroundedFrom(g, [a.src] + p);
    }
  }

  lemma AcyclicGrounded(g: Graph, n: NodeId)
    requires WellFormed(g) && Acyclic(g) && n in g.ids
    ensures Grounded(g, n)
  {
    assert IsWalk(g, [n]);
    GroundedFrom(g, [n]);
  }
}
