/** Left-to-right layout of a rule graph: worklist layers become columns, definition order becomes rows. */
module Layout {
  import opened Graphs
  import opened KahnOrder
  import opened Columns
  import opened Worklist
  import opened Grid

  /** Those of the first k arcs that join known nodes; the layout skips the others. */
  function KnownArcs(ids: seq<NodeId>, arcs: seq<Arc>, k: nat): seq<Arc>
    requires k <= |arcs|
  {
    if k == 0 then []
    else
      var rest := KnownArcs(ids, arcs, k - 1);
      if arcs[k - 1].src in ids && arcs[k - 1].tgt in ids then rest + [arcs[k - 1]] else rest
  }

  function Drawable(ids: seq<NodeId>, arcs: seq<Arc>): Graph {
    Graph(ids, KnownArcs(ids, arcs, |arcs|))
  }

  lemma {:induction false} KnownArcsAre(ids: seq<NodeId>, arcs: seq<Arc>, k: nat)
    requires k <= |arcs|
    ensures forall a :: a in KnownArcs(ids, arcs, k) <==> a in arcs[..k] && a.src in ids && a.tgt in ids
    ensures (forall a | a in arcs :: a.src in ids && a.tgt in ids) ==> KnownArcs(ids, arcs, k) == arcs[..k]
  {
    if k > 0 {
      KnownArcsAre(ids, arcs, k - 1);
      assert arcs[..k] == arcs[..k - 1] + [arcs[k - 1]];
    }
  }

  lemma KnownWellFormed(ids: seq<NodeId>, arcs: seq<Arc>)
    requires Distinct(ids)
    ensures WellFormed(Drawable(ids, arcs))
    ensures WellFormed(Graph(ids, arcs)) ==> Drawable(ids, arcs) == Graph(ids, arcs)
  {
    KnownArcsAre(ids, arcs, |arcs|);
    assert arcs[..|arcs|] == arcs;
  }

  /** The column of every node. */
  ghost function ColumnMap(g: Graph): (layer: map<NodeId, nat>)
    requires WellFormed(g) && Settles(g)
    ensures Labels(layer, g.ids)
  {
    map n | n in g.ids :: Column(g, n)
  }

  /** Every node is drawn in its column, columns filled from the top in definition order. */
  ghost predicate IsDrawing(g: Graph, positions: map<NodeId, Position>)
    requires WellFormed(g) && Settles(g)
  {
    IsGrid(g.ids, ColumnMap(g), positions)
  }

  /** The drawing of g. */
  ghost function Drawing(g: Graph): (positions: map<NodeId, Position>)
    requires WellFormed(g) && Settles(g)
    ensures IsDrawing(g, positions)
    ensures forall p | IsDrawing(g, p) :: p == positions
  {
    GridExists(g.ids, ColumnMap(g));
    var positions :| IsGrid(g.ids, ColumnMap(g), positions);
    assert forall p | IsDrawing(g, p) :: p == positions by {
      forall p | IsDrawing(g, p)
        ensures p == positions
      {
        GridUnique(g.ids, ColumnMap(g), p, positions);
      }
    }
    positions
  }

  // ------------------------------------------------------------- the algorithm

  /** Appending an arc does not disturb the tables of the arcs before it. */
  lemma {:induction false} PrefixTables(arcs: seq<Arc>, a: Arc, n: NodeId, k: nat)
    requires k <= |arcs|
    ensures Targets(arcs + [a], n, k) == Targets(arcs, n, k)
    ensures Missing(arcs + [a], [], n, k) == Missing(arcs, [], n, k)
  {
    if k > 0 {
      PrefixTables(arcs, a, n, k - 1);
    }
  }

  lemma ChildrenAppend(ids: seq<NodeId>, arcs: seq<Arc>, children: map<NodeId, seq<NodeId>>, a: Arc)
    requires IsChildren(ids, arcs, |arcs|, children) && a.src in children
    ensures IsChildren(ids, arcs + [a], |arcs| + 1, children[a.src := children[a.src] + [a.tgt]])
  {
    forall n | n in children {
      PrefixTables(arcs, a, n, |arcs|);
    }
  }

  lemma InDegreeAppend(ids: seq<NodeId>, arcs: seq<Arc>, inDegree: map<NodeId, int>, a: Arc)
    requires IsInDegree(ids, arcs, |arcs|, [], inDegree) && a.tgt in inDegree
    ensures IsInDegree(ids, arcs + [a], |arcs| + 1, [], inDegree[a.tgt := inDegree[a.tgt] + 1])
  {
    forall n | n in inDegree {
      PrefixTables(arcs, a, n, |arcs|);
    }
  }

  /** Adjacency and in-degrees, over known arcs only. */
  method Adjacency(ids: seq<NodeId>, arcs: seq<Arc>)
    returns (children: map<NodeId, seq<NodeId>>, inDegree: map<NodeId, int>)
    ensures var known := KnownArcs(ids, arcs, |arcs|);
            IsChildren(ids, known, |known|, children) && IsInDegree(ids, known, |known|, [], inDegree)
  {
    children := map n | n in ids :: [];
    inDegree := map n | n in ids :: 0;
    ghost var known: seq<Arc> := [];
    for k := 0 to |arcs|
      invariant known == KnownArcs(ids, arcs, k)
      invariant IsChildren(ids, known, |known|, children)
      invariant IsInDegree(ids, known, |known|, [], inDegree)
    {
      var a := arcs[k];
      if a.src in children && a.tgt in children {
        ChildrenAppend(ids, known, children, a);
        InDegreeAppend(ids, known, inDegree, a);
        known := known + [a];
        children := children[a.src := children[a.src] + [a.tgt]];
        inDegree := inDegree[a.tgt := inDegree[a.tgt] + 1];
      }
    }
  }

  /** Parentless nodes at layer 0, or all nodes when there are none. */
  method SeedWork(g: Graph, inDegree: map<NodeId, int>) returns (layer: map<NodeId, nat>, queue: seq<NodeId>)
    requires WellFormed(g)
    requires IsInDegree(g.ids, g.arcs, |g.arcs|, [], inDegree)
    ensures Work(layer, queue) == Seed(g)
  {
    layer, queue := map[], [];
    for k := 0 to |g.ids|
      invariant queue == Roots(g, k)
      invariant layer == map n | n in queue :: 0
    {
      var n := g.ids[k];
      MissingNone(g, [], n);
      if inDegree[n] == 0 {
        layer := layer[n := 0];
        queue := queue + [n];
      }
    }
    if queue == [] {
      layer, queue := SeedAll(g.ids);
    }
  }

  method SeedAll(ids: seq<NodeId>) returns (layer: map<NodeId, nat>, queue: seq<NodeId>)
    ensures queue == ids && layer == map n | n in ids :: 0
  {
    layer, queue := map[], [];
    for k := 0 to |ids|
      invariant queue == ids[..k]
      invariant layer == map n | n in queue :: 0
    {
      layer := layer[ids[k] := 0];
      queue := queue + [ids[k]];
    }
  }

  /** Take the head off the queue and raise those of its children that are not right of it. */
  method VisitHead(g: Graph, children: map<NodeId, seq<NodeId>>, layer0: map<NodeId, nat>, queue0: seq<NodeId>)
    returns (layer: map<NodeId, nat>, queue: seq<NodeId>)
    requires QueueLabelled(Work(layer0, queue0)) && queue0 != [] && queue0[0] in children
    requires children[queue0[0]] == Children(g, queue0[0])
    ensures Work(layer, queue) == Visit(g, Work(layer0, queue0))
  {
    var current := queue0[0];
    layer, queue := layer0, queue0[1..];
    assert current in layer;
    var currentLayer := layer[current];
    var kids := children[current];
    for i := 0 to |kids|
      invariant Relax(Work(layer, queue), currentLayer, kids, i) == Visit(g, Work(layer0, queue0))
    {
      var child := kids[i];
      var newLayer := currentLayer + 1;
      if child !in layer || layer[child] < newLayer {
        layer := layer[child := newLayer];
        queue := queue + [child];
      }
    }
  }

  /** The worklist loop. It ends because every layer is bounded by the number of nodes. */
  method AssignLayers(g: Graph, children: map<NodeId, seq<NodeId>>, layer0: map<NodeId, nat>, queue0: seq<NodeId>)
    returns (layer: map<NodeId, nat>)
    requires WellFormed(g) && Settles(g) && HasRoot(g)
    requires IsChildren(g.ids, g.arcs, |g.arcs|, children)
    requires Work(layer0, queue0) == Seed(g)
    ensures layer.Keys <= Members(g.ids)
    ensures forall n | n in g.ids :: Column(g, n) == if n in layer then layer[n] else 0
  {
    layer := layer0;
    var queue := queue0;
    ghost var visits := 0;
    while queue != []
      invariant Work(layer, queue) == After(g, visits)
      decreases Room(g, Work(layer, queue)), |queue|
    {
      assert queue[0] in children by {
        AfterInv(g, visits);
      }
      AfterDecreases(g, visits);
      layer, queue := VisitHead(g, children, layer, queue);
      visits := visits + 1;
    }
    DryAfter(g, visits);
  }

  /** Nodes the worklist never reached go to layer 0. */
  method FillMissing(ids: seq<NodeId>, layer0: map<NodeId, nat>) returns (layer: map<NodeId, nat>)
    requires layer0.Keys <= Members(ids)
    ensures layer.Keys == Members(ids)
    ensures forall n | n in ids :: layer[n] == if n in layer0 then layer0[n] else 0
  {
    layer := layer0;
    for k := 0 to |ids|
      invariant Members(ids[..k]) <= layer.Keys <= Members(ids)
      invariant layer0.Keys <= layer.Keys
      invariant forall n | n in layer :: layer[n] == if n in layer0 then layer0[n] else 0
    {
      assert ids[..k + 1] == ids[..k] + [ids[k]];
      if ids[k] !in layer {
        layer := layer[ids[k] := 0];
      }
    }
    assert ids[..|ids|] == ids;
  }

  /** Compute the position of every node. */
  method AutoLayout(ids: seq<NodeId>, arcs: seq<Arc>) returns (positions: map<NodeId, Position>)
    requires Distinct(ids) && Halts(Drawable(ids, arcs))
    ensures WellFormed(Drawable(ids, arcs)) && Settles(Drawable(ids, arcs)) && IsDrawing(Drawable(ids, arcs), positions)
    ensures Stacked(ids, positions)
    ensures forall n | n in ids :: n in positions && positions[n].x == 80 + Column(Drawable(ids, arcs), n) * 220
  {
    ghost var g := Drawable(ids, arcs);
    KnownWellFormed(ids, arcs);
    HaltsSettles(g);
    if ids == [] {
      return map[];
    }
    var children, inDegree := Adjacency(ids, arcs);
    var layer, queue := SeedWork(Drawable(ids, arcs), inDegree);
    layer := AssignLayers(Drawable(ids, arcs), children, layer, queue);
    layer := FillMissing(ids, layer);
    assert layer == ColumnMap(g);
    var layers := GroupByLayer(ids, layer);
    positions := Place(ids, layer, layers);
    forall n | n in ids {
      DrawnInColumn(g, positions, n);
    }
  }

  // --------------------------------------------------- what a drawing shows

  /** A node's x coordinate tells its column. */
  lemma DrawnInColumn(g: Graph, positions: map<NodeId, Position>, n: NodeId)
    requires WellFormed(g) && Settles(g) && IsDrawing(g, positions) && n in g.ids
    ensures n in positions && positions[n].x == MARGIN_X + Column(g, n) * H_SPACING
  {
    var k :| 0 <= k < |g.ids| && g.ids[k] == n;
    assert n in positions && positions[g.ids[k]] == Cell(ColumnMap(g)[n], Row(g.ids, ColumnMap(g), ColumnMap(g)[n], k));
  }

  /** Columns are filled from the top, in definition order. */
  lemma DrawnStacked(g: Graph, positions: map<NodeId, Position>)
    requires WellFormed(g) && Settles(g) && IsDrawing(g, positions)
    ensures Stacked(g.ids, positions)
  {
    GridStacked(g.ids, ColumnMap(g), positions);
  }

  lemma NodesDoNotOverlap(g: Graph, positions: map<NodeId, Position>, m: NodeId, n: NodeId)
    requires WellFormed(g) && Settles(g) && IsDrawing(g, positions) && m in g.ids && n in g.ids && m != n
    ensures m in positions && n in positions && positions[m] != positions[n]
  {
    NoOverlap(g.ids, ColumnMap(g), positions, m, n);
  }

  /** In an acyclic graph every arc is drawn left to right. */
  lemma ArcsGoRight(g: Graph, positions: map<NodeId, Position>, a: Arc)
    requires WellFormed(g) && Acyclic(g) && Settles(g) && IsDrawing(g, positions) && a in g.arcs
    ensures a.src in positions && a.tgt in positions && positions[a.src].x + H_SPACING <= positions[a.tgt].x
  {
    AcyclicGrounded(g, a.src);
    ColumnStep(g, a.src, a.tgt);
    DrawnInColumn(g, positions, a.src);
    DrawnInColumn(g, positions, a.tgt);
  }

  /** No column left of a drawn node is empty. */
  lemma NoEmptyColumn(g: Graph, positions: map<NodeId, Position>, n: NodeId, c: nat) returns (m: NodeId)
    requires WellFormed(g) && Settles(g) && IsDrawing(g, positions) && n in g.ids
    requires n in positions && MARGIN_X + c * H_SPACING <= positions[n].x
    ensures m in positions && positions[m].x == MARGIN_X + c * H_SPACING
  {
    DrawnInColumn(g, positions, n);
    m := ColumnsFilled(g, n, c);
    DrawnInColumn(g, positions, m);
  }
}
