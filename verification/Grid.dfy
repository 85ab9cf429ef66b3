/** Drawing nodes on a grid: the layer gives the column, definition order gives the row. */
module Grid {
  import opened Graphs

  const H_SPACING := 220
  const V_SPACING := 120
  const MARGIN_X := 80
  const MARGIN_Y := 80

  datatype Position = Position(x: int, y: int)

  function Cell(column: nat, row: nat): Position {
    Position(MARGIN_X + column * H_SPACING, MARGIN_Y + row * V_SPACING)
  }

  ghost predicate Labels(layer: map<NodeId, nat>, ids: seq<NodeId>) {
    forall n {:trigger n in layer} | n in ids :: n in layer
  }

  /** How many of the first k nodes are in layer c. */
  ghost function Row(ids: seq<NodeId>, layer: map<NodeId, nat>, c: nat, k: nat): nat
    requires Labels(layer, ids) && k <= |ids|
  {
    if k == 0 then 0 else Row(ids, layer, c, k - 1) + if layer[ids[k - 1]] == c then 1 else 0
  }

  /** Every node, and nothing else, is drawn in the column of its layer, below the nodes of that layer
      defined before it. */
  ghost predicate IsGrid(ids: seq<NodeId>, layer: map<NodeId, nat>, positions: map<NodeId, Position>)
    requires Labels(layer, ids)
  {
    && positions.Keys == Members(ids)
    && forall k {:trigger positions[ids[k]]} | 0 <= k < |ids| ::
          positions[ids[k]] == Cell(layer[ids[k]], Row(ids, layer, layer[ids[k]], k))
  }

  lemma {:induction false} RowGrows(ids: seq<NodeId>, layer: map<NodeId, nat>, c: nat, j: nat, k: nat)
    requires Labels(layer, ids) && j < k <= |ids|
    ensures Row(ids, layer, c, j) <= Row(ids, layer, c, k)
    ensures layer[ids[j]] == c ==> Row(ids, layer, c, j) < Row(ids, layer, c, k)
    decreases k
  {
    if j < k - 1 {
      RowGrows(ids, layer, c, j, k - 1);
    }
  }

  /** The first node of a layer is in row 0. */
  lemma {:induction false} FirstRow(ids: seq<NodeId>, layer: map<NodeId, nat>, c: nat, k: nat)
    requires Labels(layer, ids) && k <= |ids| && forall j | 0 <= j < k :: layer[ids[j]] != c
    ensures Row(ids, layer, c, k) == 0
  {
    if k > 0 {
      FirstRow(ids, layer, c, k - 1);
    }
  }

  /** Of two nodes of a layer with none in between the later one is in the next row. */
  lemma {:induction false} NextRow(ids: seq<NodeId>, layer: map<NodeId, nat>, c: nat, j: nat, k: nat)
    requires Labels(layer, ids) && j < k <= |ids| && layer[ids[j]] == c
    requires forall i | j < i < k :: layer[ids[i]] != c
    ensures Row(ids, layer, c, k) == Row(ids, layer, c, j) + 1
    decreases k
  {
    if j < k - 1 {
      NextRow(ids, layer, c, j, k - 1);
    }
  }

  lemma SameCellSameNode(ids: seq<NodeId>, layer: map<NodeId, nat>, j: nat, k: nat)
    requires Labels(layer, ids) && j < |ids| && k < |ids|
    requires layer[ids[j]] == layer[ids[k]]
    requires Row(ids, layer, layer[ids[j]], j) == Row(ids, layer, layer[ids[k]], k)
    ensures j == k
  {
    var c := layer[ids[j]];
    if j < k {
      RowGrows(ids, layer, c, j, k);
    } else if k < j {
      RowGrows(ids, layer, c, k, j);
    }
  }

  // ---------------------------------------------------------- what a grid looks like

  /** Columns are filled downwards: nothing stands above the margin, the node of a column that is defined first
      stands at the margin, and every later one at least a row below those defined before it, exactly one row
      below the last of them. */
  ghost predicate Stacked(ids: seq<NodeId>, positions: map<NodeId, Position>) {
    && positions.Keys == Members(ids)
    && (forall k {:trigger positions[ids[k]]} | 0 <= k < |ids| :: TopOfColumn(ids, positions, k))
    && (forall j, k {:trigger positions[ids[j]], positions[ids[k]]} | 0 <= j < k < |ids| :: Below(ids, positions, j, k))
  }

  ghost predicate TopOfColumn(ids: seq<NodeId>, positions: map<NodeId, Position>, k: nat)
    requires positions.Keys == Members(ids) && k < |ids|
  {
    && 80 <= positions[ids[k]].y
    && ((forall i | 0 <= i < k :: positions[ids[i]].x != positions[ids[k]].x) ==> positions[ids[k]].y == 80)
  }

  ghost predicate Below(ids: seq<NodeId>, positions: map<NodeId, Position>, j: nat, k: nat)
    requires positions.Keys == Members(ids) && j < k < |ids|
  {
    var upper, lower := positions[ids[j]], positions[ids[k]];
    upper.x == lower.x ==>
      && upper.y + 120 <= lower.y
      && ((forall i | j < i < k :: positions[ids[i]].x != lower.x) ==> lower.y == upper.y + 120)
  }

  /** Where node k stands, in pixels. */
  lemma GridPixels(ids: seq<NodeId>, layer: map<NodeId, nat>, positions: map<NodeId, Position>, k: nat)
    requires Labels(layer, ids) && IsGrid(ids, layer, positions) && k < |ids|
    ensures positions[ids[k]].x == 80 + layer[ids[k]] * 220
    ensures positions[ids[k]].y == 80 + Row(ids, layer, layer[ids[k]], k) * 120
  {
  }

  lemma SameColumn(ids: seq<NodeId>, layer: map<NodeId, nat>, positions: map<NodeId, Position>, j: nat, k: nat)
    requires Labels(layer, ids) && IsGrid(ids, layer, positions) && j < |ids| && k < |ids|
    ensures positions[ids[j]].x == positions[ids[k]].x <==> layer[ids[j]] == layer[ids[k]]
  {
    GridPixels(ids, layer, positions, j);
    GridPixels(ids, layer, positions, k);
  }

  lemma GridTop(ids: seq<NodeId>, layer: map<NodeId, nat>, positions: map<NodeId, Position>, k: nat)
    requires Labels(layer, ids) && IsGrid(ids, layer, positions) && k < |ids|
    ensures TopOfColumn(ids, positions, k)
  {
    GridPixels(ids, layer, positions, k);
    if forall i | 0 <= i < k :: positions[ids[i]].x != positions[ids[k]].x {
      forall i | 0 <= i < k
        ensures layer[ids[i]] != layer[ids[k]]
      {
        SameColumn(ids, layer, positions, i, k);
      }
      FirstRow(ids, layer, layer[ids[k]], k);
    }
  }

  lemma GridBelow(ids: seq<NodeId>, layer: map<NodeId, nat>, positions: map<NodeId, Position>, j: nat, k: nat)
    requires Labels(layer, ids) && IsGrid(ids, layer, positions) && j < k < |ids|
    ensures Below(ids, positions, j, k)
  {
    GridPixels(ids, layer, positions, j);
    GridPixels(ids, layer, positions, k);
    if layer[ids[j]] == layer[ids[k]] {
      RowGrows(ids, layer, layer[ids[k]], j, k);
      if forall i | j < i < k :: positions[ids[i]].x != positions[ids[k]].x {
        forall i | j < i < k
          ensures layer[ids[i]] != layer[ids[k]]
        {
          SameColumn(ids, layer, positions, i, k);
        }
        NextRow(ids, layer, layer[ids[k]], j, k);
      }
    }
  }

  lemma GridStacked(ids: seq<NodeId>, layer: map<NodeId, nat>, positions: map<NodeId, Position>)
    requires Labels(layer, ids) && IsGrid(ids, layer, positions)
    ensures Stacked(ids, positions)
  {
    forall k | 0 <= k < |ids| {
      GridTop(ids, layer, positions, k);
    }
    forall j, k | 0 <= j < k < |ids| {
      GridBelow(ids, layer, positions, j, k);
    }
  }

  // ---------------------------------------------------------- grouping

  /** Those of the first k nodes that are in layer c, in definition order. */
  ghost function InLayer(ids: seq<NodeId>, layer: map<NodeId, nat>, c: nat, k: nat): seq<NodeId>
    requires Labels(layer, ids) && k <= |ids|
  {
    if k == 0 then []
    else
      var rest := InLayer(ids, layer, c, k - 1);
      if layer[ids[k - 1]] == c then rest + [ids[k - 1]] else rest
  }

  lemma {:induction false} InLayerSize(ids: seq<NodeId>, layer: map<NodeId, nat>, c: nat, k: nat)
    requires Labels(layer, ids) && k <= |ids|
    ensures |InLayer(ids, layer, c, k)| == Row(ids, layer, c, k)
  {
    if k > 0 {
      InLayerSize(ids, layer, c, k - 1);
    }
  }

  /** The node in row j of layer c, found again in the definition order. */
  lemma {:induction false} NodeInRow(ids: seq<NodeId>, layer: map<NodeId, nat>, c: nat, j: nat, k: nat) returns (m: nat)
    requires Labels(layer, ids) && k <= |ids| && j < |InLayer(ids, layer, c, k)|
    ensures m < k && ids[m] == InLayer(ids, layer, c, k)[j] && layer[ids[m]] == c && Row(ids, layer, c, m) == j
    decreases k
  {
    InLayerSize(ids, layer, c, k - 1);
    if j < |InLayer(ids, layer, c, k - 1)| {
      m := NodeInRow(ids, layer, c, j, k - 1);
    } else {
      m := k - 1;
    }
  }

  ghost predicate IsGrouped(ids: seq<NodeId>, layer: map<NodeId, nat>, k: nat, layers: map<nat, seq<NodeId>>)
    requires Labels(layer, ids) && k <= |ids|
  {
    forall c: nat :: InLayer(ids, layer, c, k) == if c in layers then layers[c] else []
  }

  lemma GroupNext(ids: seq<NodeId>, layer: map<NodeId, nat>, k: nat, layers: map<nat, seq<NodeId>>)
    requires Labels(layer, ids) && k < |ids| && IsGrouped(ids, layer, k, layers)
    ensures var c := layer[ids[k]];
            IsGrouped(ids, layer, k + 1, layers[c := (if c in layers then layers[c] else []) + [ids[k]]])
  {
  }

  /** Nodes grouped by layer, in definition order within a layer. */
  method GroupByLayer(ids: seq<NodeId>, layer: map<NodeId, nat>) returns (layers: map<nat, seq<NodeId>>)
    requires Labels(layer, ids)
    ensures IsGrouped(ids, layer, |ids|, layers)
  {
    layers := map[];
    for k := 0 to |ids|
      invariant IsGrouped(ids, layer, k, layers)
    {
      GroupNext(ids, layer, k, layers);
      assert ids[k] in ids;
      var c := layer[ids[k]];
      layers := layers[c := (if c in layers then layers[c] else []) + [ids[k]]];
    }
  }

  method MaxKey(layers: map<nat, seq<NodeId>>) returns (m: nat)
    ensures forall c | c in layers :: c <= m
  {
    m := 0;
    var rest := layers.Keys;
    while rest != {}
      invariant rest <= layers.Keys
      invariant forall c | c in layers && c !in rest :: c <= m
    {
      var c :| c in rest;
      rest := rest - {c};
      if c > m {
        m := c;
      }
    }
  }

  // ---------------------------------------------------------- placing

  /** Layers below c, and the first j rows of layer c, are drawn. */
  ghost predicate DrawnUpTo(ids: seq<NodeId>, layer: map<NodeId, nat>, positions: map<NodeId, Position>, c: nat, j: nat)
    requires Labels(layer, ids)
  {
    && positions.Keys <= Members(ids)
    && forall k | 0 <= k < |ids| && (layer[ids[k]] < c || (layer[ids[k]] == c && Row(ids, layer, c, k) < j)) ::
         ids[k] in positions && positions[ids[k]] == Cell(layer[ids[k]], Row(ids, layer, layer[ids[k]], k))
  }

  lemma DrawNext(ids: seq<NodeId>, layer: map<NodeId, nat>, positions: map<NodeId, Position>, c: nat, j: nat)
    requires Distinct(ids) && Labels(layer, ids) && DrawnUpTo(ids, layer, positions, c, j)
    requires j < |InLayer(ids, layer, c, |ids|)|
    ensures DrawnUpTo(ids, layer, positions[InLayer(ids, layer, c, |ids|)[j] := Cell(c, j)], c, j + 1)
  {
    var m := NodeInRow(ids, layer, c, j, |ids|);
    var drawn := positions[ids[m] := Cell(c, j)];
    assert ids[m] in ids;
    forall k | 0 <= k < |ids| && (layer[ids[k]] < c || (layer[ids[k]] == c && Row(ids, layer, c, k) < j + 1))
      ensures ids[k] in drawn && drawn[ids[k]] == Cell(layer[ids[k]], Row(ids, layer, layer[ids[k]], k))
    {
      if layer[ids[k]] == c && Row(ids, layer, c, k) == j {
        SameCellSameNode(ids, layer, k, m);
      }
    }
  }

  lemma DrawDone(ids: seq<NodeId>, layer: map<NodeId, nat>, positions: map<NodeId, Position>, c: nat)
    requires Labels(layer, ids) && DrawnUpTo(ids, layer, positions, c, |InLayer(ids, layer, c, |ids|)|)
    ensures DrawnUpTo(ids, layer, positions, c + 1, 0)
  {
    InLayerSize(ids, layer, c, |ids|);
    forall k | 0 <= k < |ids| && layer[ids[k]] == c
      ensures Row(ids, layer, c, k) < Row(ids, layer, c, |ids|)
    {
      RowGrows(ids, layer, c, k, |ids|);
    }
  }

  /** Pixel positions, layer by layer and row by row. */
  method Place(ids: seq<NodeId>, ghost layer: map<NodeId, nat>, layers: map<nat, seq<NodeId>>)
    returns (positions: map<NodeId, Position>)
    requires Distinct(ids) && Labels(layer, ids) && IsGrouped(ids, layer, |ids|, layers)
    ensures IsGrid(ids, layer, positions) && Stacked(ids, positions)
    ensures forall n | n in ids :: n in positions && positions[n].x == 80 + layer[n] * 220
  {
    var maxLayer := MaxKey(layers);
    positions := map[];
    for c := 0 to maxLayer + 1
      invariant DrawnUpTo(ids, layer, positions, c, 0)
    {
      var nodes := if c in layers then layers[c] else [];
      assert nodes == InLayer(ids, layer, c, |ids|);
      for j := 0 to |nodes|
        invariant DrawnUpTo(ids, layer, positions, c, j)
      {
        DrawNext(ids, layer, positions, c, j);
        positions := positions[nodes[j] := Cell(c, j)];
      }
      DrawDone(ids, layer, positions, c);
    }
    AllDrawn(ids, layer, layers, maxLayer, positions);
    GridStacked(ids, layer, positions);
    forall k | 0 <= k < |ids| {
      GridPixels(ids, layer, positions, k);
    }
  }

  lemma AllDrawn(ids: seq<NodeId>, layer: map<NodeId, nat>, layers: map<nat, seq<NodeId>>, maxLayer: nat,
                 positions: map<NodeId, Position>)
    requires Labels(layer, ids) && IsGrouped(ids, layer, |ids|, layers)
    requires forall c | c in layers :: c <= maxLayer
    requires DrawnUpTo(ids, layer, positions, maxLayer + 1, 0)
    ensures IsGrid(ids, layer, positions)
  {
    forall k | 0 <= k < |ids|
      ensures layer[ids[k]] <= maxLayer
    {
      var c := layer[ids[k]];
      InLayerSize(ids, layer, c, |ids|);
      RowGrows(ids, layer, c, k, |ids|);
      assert c in layers;
    }
  }

  /** No two nodes share a position. */
  lemma NoOverlap(ids: seq<NodeId>, layer: map<NodeId, nat>, positions: map<NodeId, Position>, m: NodeId, n: NodeId)
    requires Distinct(ids) && Labels(layer, ids) && IsGrid(ids, layer, positions) && m in ids && n in ids && m != n
    ensures positions[m] != positions[n]
  {
    var j :| 0 <= j < |ids| && ids[j] == m;
    var k :| 0 <= k < |ids| && ids[k] == n;
    assert positions[m] == Cell(layer[m], Row(ids, layer, layer[m], j));
    assert positions[n] == Cell(layer[n], Row(ids, layer, layer[n], k));
    if positions[m] == positions[n] {
      SameCellSameNode(ids, layer, j, k);
    }
  }

  /** A grid is determined by the labels, and there always is one. */
  lemma GridUnique(ids: seq<NodeId>, layer: map<NodeId, nat>, p: map<NodeId, Position>, q: map<NodeId, Position>)
    requires Labels(layer, ids) && IsGrid(ids, layer, p) && IsGrid(ids, layer, q)
    ensures p == q
  {
    forall n | n in p
      ensures n in q && p[n] == q[n]
    {
      var k :| 0 <= k < |ids| && ids[k] == n;
    }
  }

  lemma GridExists(ids: seq<NodeId>, layer: map<NodeId, nat>)
    requires Labels(layer, ids) && Distinct(ids)
    ensures exists p :: IsGrid(ids, layer, p)
  {
    var p := map k | 0 <= k < |ids| :: ids[k] := Cell(layer[ids[k]], Row(ids, layer, layer[ids[k]], k));
    assert IsGrid(ids, layer, p);
  }
}
