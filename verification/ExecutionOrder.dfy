/** The executor's order against the drawing: nodes run column by column, left to right, although the
    sort and the layout share no code. */
module ExecutionOrder {
  import opened Graphs
  import opened KahnOrder
  import opened Columns
  import opened Grid
  import opened Layout

  /** depth rises along every arc, and a node above depth 0 stands just above one of its parents. */
  ghost predicate IsLayering(g: Graph, depth: map<NodeId, nat>) {
    && Labels(depth, g.ids)
    && (forall a | a in g.arcs && a.src in depth && a.tgt in depth :: depth[a.tgt] >= depth[a.src] + 1)
    && (forall n {:trigger HasTopParent(g, depth, n)} | n in depth && depth[n] > 0 :: HasTopParent(g, depth, n))
  }

  ghost predicate HasTopParent(g: Graph, depth: map<NodeId, nat>, n: NodeId) {
    exists a :: IsTopParent(g, depth, a, n)
  }

  ghost predicate IsTopParent(g: Graph, depth: map<NodeId, nat>, a: Arc, n: NodeId) {
    a in g.arcs && a.tgt == n && a.src in depth && n in depth && depth[a.src] + 1 == depth[n]
  }

  ghost predicate Ascending(depth: map<NodeId, nat>, s: seq<NodeId>) {
    && (forall x | x in s :: x in depth)
    && (forall i, j | 0 <= i < j < |s| :: depth[s[i]] <= depth[s[j]])
  }

  /** The shortest prefix that makes n ready: empty, or ending in a parent of n. */
  lemma {:induction false} ReadyAt(g: Graph, s: seq<NodeId>, n: NodeId, k: nat) returns (r: nat)
    requires k <= |s| && Ready(g, s[..k], n)
    ensures r <= k && Ready(g, s[..r], n)
    ensures r > 0 ==> HasArc(g, s[r - 1], n)
  {
    if k == 0 || !Ready(g, s[..k - 1], n) {
      r := k;
      if k > 0 {
        var a :| a in g.arcs && a.tgt == n && a.src !in s[..k - 1];
        assert s[..k] == s[..k - 1] + [s[k - 1]];
        assert a == Arc(s[k - 1], n);
      }
    } else {
      r := ReadyAt(g, s, n, k - 1);
    }
  }

  lemma FifoAt(g: Graph, s: seq<NodeId>, i: nat, j: nat, r: nat)
    requires IsFifo(g, s) && i < j < |s| && r <= |s| && Ready(g, s[..r], s[j])
    ensures Ready(g, s[..r], s[i])
  {
  }

  /** A node made ready by an ascending prefix is at most one above the last of that prefix. */
  lemma ReadyBound(g: Graph, depth: map<NodeId, nat>, done: seq<NodeId>, n: NodeId)
    requires IsLayering(g, depth) && Ascending(depth, done) && Ready(g, done, n) && n in depth
    ensures done == [] ==> depth[n] == 0
    ensures done != [] ==> depth[n] <= depth[done[|done| - 1]] + 1
  {
    if depth[n] > 0 {
      assert HasTopParent(g, depth, n);
      var a :| IsTopParent(g, depth, a, n);
      assert a.src in done;
      var q :| 0 <= q < |done| && done[q] == a.src;
    }
  }

  lemma AscendingPrefix(depth: map<NodeId, nat>, s: seq<NodeId>, r: nat, j: nat)
    requires r <= j <= |s| && Ascending(depth, s[..j])
    ensures Ascending(depth, s[..r])
  {
    assert s[..r] == s[..j][..r];
    forall x | x in s[..r]
      ensures x in depth
    {
      assert x in s[..j];
    }
    forall i, k | 0 <= i < k < r
      ensures depth[s[i]] <= depth[s[k]]
    {
      assert s[..j][i] == s[i] && s[..j][k] == s[k];
    }
  }

  /** If the nodes before position j ascend, none of them is above the node at j. */
  lemma NextIsNotBelow(g: Graph, depth: map<NodeId, nat>, s: seq<NodeId>, i: nat, j: nat)
    requires IsLayering(g, depth) && IsFifo(g, s) && i < j < |s|
    requires Ready(g, s[..j], s[j]) && s[i] in depth && s[j] in depth && Ascending(depth, s[..j])
    ensures depth[s[i]] <= depth[s[j]]
  {
    var r := ReadyAt(g, s, s[j], j);
    FifoAt(g, s, i, j, r);
    AscendingPrefix(depth, s, r, j);
    ReadyBound(g, depth, s[..r], s[i]);
    if r > 0 {
      assert s[..r][r - 1] == s[r - 1];
      var a := Arc(s[r - 1], s[j]);
      assert a in g.arcs && a.src in s[..r];
    }
  }

  lemma AscendingNext(depth: map<NodeId, nat>, s: seq<NodeId>, j: nat)
    requires j < |s| && Ascending(depth, s[..j]) && s[j] in depth
    requires forall i | 0 <= i < j :: s[i] in depth && depth[s[i]] <= depth[s[j]]
    ensures Ascending(depth, s[..j + 1])
  {
    assert s[..j + 1] == s[..j] + [s[j]];
    forall i, k | 0 <= i < k < j + 1
      ensures depth[s[i]] <= depth[s[k]]
    {
      if k < j {
        assert s[..j][i] == s[i] && s[..j][k] == s[k];
      }
    }
  }

  lemma SortedFacts(g: Graph, depth: map<NodeId, nat>, s: seq<NodeId>, i: nat)
    requires IsLayering(g, depth) && IsTopological(g, s) && i < |s|
    ensures s[i] in depth && Ready(g, s[..i], s[i])
  {
    assert s[i] in s && s[i] in g.ids;
  }

  /** Any first-ready-first-visited topological order ascends in every layering. */
  lemma {:induction false} FifoAscends(g: Graph, depth: map<NodeId, nat>, s: seq<NodeId>, j: nat)
    requires IsLayering(g, depth) && IsTopological(g, s) && IsFifo(g, s) && j <= |s|
    ensures Ascending(depth, s[..j])
  {
    if j > 0 {
      FifoAscends(g, depth, s, j - 1);
      SortedFacts(g, depth, s, j - 1);
      forall i | 0 <= i < j - 1
        ensures s[i] in depth && depth[s[i]] <= depth[s[j - 1]]
      {
        SortedFacts(g, depth, s, i);
        NextIsNotBelow(g, depth, s, i, j - 1);
      }
      AscendingNext(depth, s, j - 1);
    }
  }

  lemma ColumnsAreLayering(g: Graph)
    requires WellFormed(g) && Acyclic(g) && Settles(g)
    ensures IsLayering(g, ColumnMap(g))
  {
    var depth := ColumnMap(g);
    forall a | a in g.arcs && a.src in depth && a.tgt in depth
      ensures depth[a.tgt] >= depth[a.src] + 1
    {
      AcyclicGrounded(g, a.src);
      ColumnStep(g, a.src, a.tgt);
    }
    forall n | n in depth && depth[n] > 0
      ensures HasTopParent(g, depth, n)
    {
      var u := ColumnParent(g, n);
      assert IsTopParent(g, depth, Arc(u, n), n);
    }
  }

  /** In every acyclic graph the executor visits all nodes, in non-decreasing layout column. */
  lemma OrderFollowsColumns(g: Graph, positions: map<NodeId, Position>)
    requires WellFormed(g) && Acyclic(g) && Settles(g) && IsDrawing(g, positions)
    ensures forall n :: n in Order(g) <==> n in g.ids
    ensures forall i, j | 0 <= i < j < |Order(g)| ::
              Order(g)[i] in positions && Order(g)[j] in positions &&
              positions[Order(g)[i]].x <= positions[Order(g)[j]].x
  {
    var s := Order(g);
    OrderVisitsAll(g);
    OrderAscends(g);
    forall i | 0 <= i < |s|
      ensures s[i] in positions && positions[s[i]].x == MARGIN_X + ColumnMap(g)[s[i]] * H_SPACING
    {
      assert s[i] in s;
      DrawnInColumn(g, positions, s[i]);
    }
  }

  lemma OrderAscends(g: Graph)
    requires WellFormed(g) && Acyclic(g) && Settles(g)
    ensures Ascending(ColumnMap(g), Order(g))
  {
    OrderSorts(g);
    ColumnsAreLayering(g);
    FifoAscends(g, ColumnMap(g), Order(g), |Order(g)|);
    assert Order(g)[..|Order(g)|] == Order(g);
  }

  lemma OrderVisitsAll(g: Graph)
    requires WellFormed(g) && Acyclic(g)
    ensures forall n :: n in Order(g) <==> n in g.ids
    ensures |Order(g)| == |g.ids|
  {
    OrderSorts(g);
    ShortIffCyclic(g, Order(g));
    Pigeonhole(Order(g), g.ids);
  }
}
