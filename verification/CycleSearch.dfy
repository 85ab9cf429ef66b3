/** The validator's depth-first search for a cycle. */
module CycleSearch {
  import opened Graphs
  import opened KahnOrder

  /** Every child of a finished node finished before it. */
  ghost predicate ChildrenFirst(g: Graph, finished: seq<NodeId>) {
    forall k, c | 0 <= k < |finished| && HasArc(g, finished[k], c) :: c in finished[..k]
  }

  /** A walk out of a finished node only moves to nodes that finished earlier, so none returns. */
  lemma {:induction false} WalkGoesEarlier(g: Graph, finished: seq<NodeId>, p: seq<NodeId>, k: nat)
    requires ChildrenFirst(g, finished) && IsWalk(g, p) && k < |finished| && p[0] == finished[k]
    ensures |p| > 1 ==> p[|p| - 1] in finished[..k]
    decreases k
  {
    if |p| > 1 {
      assert Hop(g, p, 0);
      assert p[1] in finished[..k];
      var i :| 0 <= i < k && finished[i] == p[1];
      WalkSlice(g, p, 1, |p|);
      WalkGoesEarlier(g, finished, p[1..|p|], i);
      assert finished[..i] <= finished[..k];
    }
  }

  lemma FinishOne(g: Graph, finished: seq<NodeId>, node: NodeId)
    requires Distinct(finished) && ChildrenFirst(g, finished) && node !in finished
    requires forall c | HasArc(g, node, c) :: c in finished
    ensures Distinct(finished + [node]) && ChildrenFirst(g, finished + [node])
    ensures Members(finished + [node]) == Members(finished) + {node}
  {
    var f := finished + [node];
    forall k, c | 0 <= k < |f| && HasArc(g, f[k], c)
      ensures c in f[..k]
    {
      assert f[..k] == finished[..k];
      if k == |finished| {
        assert finished[..k] == finished;
      }
    }
  }

  lemma FinishedIsAcyclic(g: Graph, finished: seq<NodeId>)
    requires WellFormed(g) && Distinct(finished) && ChildrenFirst(g, finished)
    requires forall n | n in g.ids :: n in finished
    ensures Acyclic(g)
  {
    forall p | IsCycle(g, p)
      ensures false
    {
      assert Hop(g, p, 0);
      assert p[0] in g.ids;
      var k :| 0 <= k < |finished| && finished[k] == p[0];
      WalkGoesEarlier(g, finished, p, k);
    }
  }

  /** An arc from the end of a walk back to one of its nodes closes a cycle. */
  lemma BackArcGivesCycle(g: Graph, stack: seq<NodeId>, c: NodeId)
    requires IsWalk(g, stack) && c in stack && HasArc(g, stack[|stack| - 1], c)
    ensures !Acyclic(g)
  {
    var i :| 0 <= i < |stack| && stack[i] == c;
    WalkSlice(g, stack, i, |stack|);
    WalkExtend(g, stack[i..|stack|], c);
    assert IsCycle(g, stack[i..|stack|] + [c]);
  }

  class CycleDetector {
    const g: Graph
    const children: map<NodeId, seq<NodeId>>
    var visited: set<NodeId>
    var inStack: set<NodeId>
    ghost var stack: seq<NodeId>
    ghost var finished: seq<NodeId>

    constructor (g: Graph, children: map<NodeId, seq<NodeId>>)
      requires WellFormed(g)
      requires IsChildren(g.ids, g.arcs, |g.arcs|, children)
      ensures this.g == g && Valid() && stack == [] && finished == []
    {
      this.g, this.children := g, children;
      visited, inStack, stack, finished := {}, {}, [], [];
    }

    ghost predicate Valid()
      reads this
    {
      && WellFormed(g)
      && IsChildren(g.ids, g.arcs, |g.arcs|, children)
      && inStack == Members(stack)
      && (stack != [] ==> IsWalk(g, stack))
      && Distinct(finished)
      && ChildrenFirst(g, finished)
      && visited == inStack + Members(finished)
      && inStack !! Members(finished)
      && visited <= Members(g.ids)
    }

    /** Returns true only if there is a cycle; otherwise node and all it reaches are finished. */
    method HasCycle(node: NodeId) returns (found: bool)
      requires Valid() && node in g.ids && node !in visited
      requires stack != [] ==> HasArc(g, stack[|stack| - 1], node)
      modifies this
      ensures found ==> !Acyclic(g)
      ensures !found ==> Valid() && stack == old(stack) && old(finished) <= finished && node in finished
      decreases Members(g.ids) - visited
    {
      ghost var before := stack;
      if stack != [] {
        WalkExtend(g, stack, node);
      }
      visited := visited + {node};
      inStack := inStack + {node};
      stack := stack + [node];
      var kids := children[node];
      for i := 0 to |kids|
        invariant Valid() && stack == before + [node] && old(finished) <= finished
        invariant old(visited) + {node} <= visited
        invariant forall c | c in kids[..i] :: c in finished
      {
        var child := kids[i];
        ChildrenAre(g, node, child);
        assert kids[..i + 1] == kids[..i] + [child];
        if child !in visited {
          found := HasCycle(child);
          if found {
            return;
          }
        } else if child in inStack {
          BackArcGivesCycle(g, stack, child);
          return true;
        }
      }
      assert kids[..|kids|] == kids;
      forall c | HasArc(g, node, c)
        ensures c in finished
      {
        ChildrenAre(g, node, c);
      }
      Finish(node, before);
      return false;
    }

    /** in_stack.discard(node), once all children of node are finished. */
    method Finish(node: NodeId, ghost before: seq<NodeId>)
      requires Valid() && stack == before + [node] && node !in before
      requires forall c | HasArc(g, node, c) :: c in finished
      modifies this
      ensures Valid() && stack == before && finished == old(finished) + [node] && visited == old(visited)
    {
      assert node in inStack;
      FinishOne(g, finished, node);
      if before != [] {
        WalkSlice(g, stack, 0, |before|);
        assert stack[0..|before|] == before;
      }
      inStack := inStack - {node};
      stack := before;
      finished := finished + [node];
    }
  }

  /** The validator's loop over all nodes: it reports a cycle if and only if there is one. */
  method DetectCycle(g: Graph, children: map<NodeId, seq<NodeId>>) returns (cyclic: bool)
    requires WellFormed(g)
    requires IsChildren(g.ids, g.arcs, |g.arcs|, children)
    ensures cyclic <==> !Acyclic(g)
  {
    var d := new CycleDetector(g, children);
    for i := 0 to |g.ids|
      invariant d.Valid() && d.g == g && d.stack == []
      invariant forall n | n in g.ids[..i] :: n in d.finished
    {
      var n := g.ids[i];
      assert g.ids[..i + 1] == g.ids[..i] + [n];
      if n !in d.visited {
        var found := d.HasCycle(n);
        if found {
          return true;
        }
      }
    }
    FinishedIsAcyclic(g, d.finished);
    return false;
  }

  /** Two algorithms, one answer: the search reports a cycle exactly when the sort is short, and the
      nodes the sort leaves out are those some cycle reaches. */
  lemma SearchAgreesWithSort(g: Graph)
    requires WellFormed(g)
    ensures !Acyclic(g) <==> |Order(g)| < |g.ids|
    ensures forall n | n in g.ids :: n !in Order(g) <==> BehindCycle(g, n)
  {
    OrderSorts(g);
    ShortIffCyclic(g, Order(g));
    forall n | n in g.ids
      ensures n !in Order(g) <==> BehindCycle(g, n)
    {
      OmittedIffBehindCycle(g, Order(g), n);
    }
  }
}
