/** Rule definitions to canvases and back to rule files. */
module Parser {
  import opened Wrappers
  import opened Graphs
  import opened Columns
  import opened Worklist
  import opened Grid
  import opened Layout
  import opened Rules
  import opened Validator
  import opened AcceptedRules

  datatype CanvasNode = CanvasNode(id: NodeId, kind: NodeType, position: Position, config: Config)

  datatype CanvasEdge =
    CanvasEdge(id: string, source: NodeId, target: NodeId, sourceHandle: string, targetHandle: string)

  datatype Canvas = Canvas(nodes: seq<CanvasNode>, edges: seq<CanvasEdge>)

  // ------------------------------------------------------ rule to canvas

  function NodeAt(n: NodeDef, positions: map<NodeId, Position>): CanvasNode {
    CanvasNode(n.id, n.kind, if n.id in positions then positions[n.id] else Position(0, 0), n.config)
  }

  function ToCanvasEdge(e: EdgeDef): CanvasEdge {
    CanvasEdge("e_" + e.source + "_" + e.target, e.source, e.target, e.sourceHandle, e.targetHandle)
  }

  function CanvasOf(rule: RuleDefinition, positions: map<NodeId, Position>): Canvas {
    Canvas(
      seq(|rule.nodes|, i requires 0 <= i < |rule.nodes| => NodeAt(rule.nodes[i], positions)),
      seq(|rule.edges|, i requires 0 <= i < |rule.edges| => ToCanvasEdge(rule.edges[i])))
  }

  /** The canvas shows the rule: its nodes at the given positions and its edges, in order. */
  ghost predicate Shows(canvas: Canvas, rule: RuleDefinition, positions: map<NodeId, Position>) {
    && |canvas.nodes| == |rule.nodes| && |canvas.edges| == |rule.edges|
    && (forall i | 0 <= i < |rule.nodes| ::
          var n := canvas.nodes[i];
          && n.id == rule.nodes[i].id && n.kind == rule.nodes[i].kind && n.config == rule.nodes[i].config
          && n.id in positions && n.position == positions[n.id])
    && (forall i | 0 <= i < |rule.edges| ::
          var e := canvas.edges[i];
          && e.id == "e_" + rule.edges[i].source + "_" + rule.edges[i].target
          && e.source == rule.edges[i].source && e.target == rule.edges[i].target
          && e.sourceHandle == rule.edges[i].sourceHandle && e.targetHandle == rule.edges[i].targetHandle)
  }

  lemma CanvasShows(rule: RuleDefinition, positions: map<NodeId, Position>)
    requires Members(NodeIds(rule.nodes)) <= positions.Keys
    ensures Shows(CanvasOf(rule, positions), rule, positions)
  {
    forall i | 0 <= i < |rule.nodes|
      ensures rule.nodes[i].id in positions
    {
      assert NodeIds(rule.nodes)[i] in NodeIds(rule.nodes);
    }
  }

  /** Draw a rule whose graph the layout can handle. */
  method RuleToCanvas(rule: RuleDefinition) returns (canvas: Canvas)
    requires WellFormed(GraphOf(rule)) && Halts(GraphOf(rule))
    ensures Settles(GraphOf(rule)) && canvas == CanvasOf(rule, Drawing(GraphOf(rule)))
    ensures Shows(canvas, rule, Drawing(GraphOf(rule))) && Stacked(NodeIds(rule.nodes), Drawing(GraphOf(rule)))
  {
    KnownWellFormed(NodeIds(rule.nodes), Arcs(rule.edges));
    var positions := AutoLayout(NodeIds(rule.nodes), Arcs(rule.edges));
    CanvasShows(rule, positions);
    canvas := CanvasOf(rule, positions);
  }

  // ------------------------------------------------------ canvas to rule file

  /** dict assignment: overwrite the entry with the same key, or append one. */
  function Put(nodes: seq<RawNode>, n: RawNode): seq<RawNode> {
    if nodes == [] then [n]
    else if nodes[0].id == n.id then [n] + nodes[1..]
    else [nodes[0]] + Put(nodes[1..], n)
  }

  lemma {:induction false} PutNew(nodes: seq<RawNode>, n: RawNode)
    requires forall m | m in nodes :: m.id != n.id
    ensures Put(nodes, n) == nodes + [n]
  {
    if nodes != [] {
      PutNew(nodes[1..], n);
    }
  }

  /** Empty configurations are left out. */
  function WriteNode(n: CanvasNode): RawNode {
    RawNode(if n.id != "" then n.id else "unknown", n.kind, if n.config == map[] then None else Some(n.config))
  }

  /** Default handles are left out; an empty handle counts as the default. */
  function WriteEdge(e: CanvasEdge): RawEdge {
    var src := if e.sourceHandle != "" then e.sourceHandle else DEFAULT_SOURCE_HANDLE;
    var tgt := if e.targetHandle != "" then e.targetHandle else DEFAULT_TARGET_HANDLE;
    RawEdge(e.source, e.target,
            if src != DEFAULT_SOURCE_HANDLE then Some(src) else None,
            if tgt != DEFAULT_TARGET_HANDLE then Some(tgt) else None)
  }

  function WriteNodes(nodes: seq<CanvasNode>, k: nat): seq<RawNode>
    requires k <= |nodes|
  {
    if k == 0 then [] else Put(WriteNodes(nodes, k - 1), WriteNode(nodes[k - 1]))
  }

  function WriteEdges(edges: seq<CanvasEdge>, k: nat): seq<RawEdge>
    requires k <= |edges|
  {
    if k == 0 then [] else WriteEdges(edges, k - 1) + [WriteEdge(edges[k - 1])]
  }

  /** The rule file for a canvas: positions stripped, empty fields left out. */
  function Write(canvas: Canvas, name: string, description: Option<string>): RawRule {
    RawRule(
      if name != "" then Some(name) else None,
      if description == Some("") then None else description,
      WriteNodes(canvas.nodes, |canvas.nodes|),
      WriteEdges(canvas.edges, |canvas.edges|))
  }

  /** The key a canvas node is written under. */
  function KeyFor(n: CanvasNode): NodeId {
    if n.id != "" then n.id else "unknown"
  }

  /** Entry r of the file is what canvas node i says: its type, and its configuration unless that is empty. */
  predicate NodeEntry(r: RawNode, n: CanvasNode) {
    r.id == KeyFor(n) && r.kind == n.kind && r.config == if n.config == map[] then None else Some(n.config)
  }

  ghost predicate LastOfKey(nodes: seq<CanvasNode>, i: nat, k: nat)
    requires i < k <= |nodes|
  {
    forall j | i < j < k :: KeyFor(nodes[j]) != KeyFor(nodes[i])
  }

  /** Some node with the first key comes before every node with the second. */
  ghost predicate OccursBefore(nodes: seq<CanvasNode>, k: nat, first: NodeId, second: NodeId)
    requires k <= |nodes|
  {
    exists i | 0 <= i < k :: KeyFor(nodes[i]) == first && forall j | 0 <= j <= i :: KeyFor(nodes[j]) != second
  }

  /** The file has one entry for every key among the first k nodes: that of the last node with the key, at the place
      of the first. */
  ghost predicate EntriesFor(entries: seq<RawNode>, nodes: seq<CanvasNode>, k: nat)
    requires k <= |nodes|
  {
    InFirstOrder(entries, nodes, k) && AllHaveEntries(entries, nodes, k) && LastIsSaid(entries, nodes, k)
  }

  ghost predicate InFirstOrder(entries: seq<RawNode>, nodes: seq<CanvasNode>, k: nat)
    requires k <= |nodes|
  {
    forall a, b | 0 <= a < b < |entries| ::
      entries[a].id != entries[b].id && OccursBefore(nodes, k, entries[a].id, entries[b].id)
  }

  predicate AllHaveEntries(entries: seq<RawNode>, nodes: seq<CanvasNode>, k: nat)
    requires k <= |nodes|
  {
    forall i {:trigger HasEntry(entries, KeyFor(nodes[i]))} | 0 <= i < k :: HasEntry(entries, KeyFor(nodes[i]))
  }

  ghost predicate LastIsSaid(entries: seq<RawNode>, nodes: seq<CanvasNode>, k: nat)
    requires k <= |nodes|
  {
    forall r {:trigger SaysLast(r, nodes, k)} | r in entries :: SaysLast(r, nodes, k)
  }

  predicate HasEntry(entries: seq<RawNode>, id: NodeId) {
    exists r | r in entries :: r.id == id
  }

  ghost predicate SaysLast(r: RawNode, nodes: seq<CanvasNode>, k: nat)
    requires k <= |nodes|
  {
    exists i: nat | i < k :: LastOfKey(nodes, i, k) && NodeEntry(r, nodes[i])
  }

  lemma {:induction false} PutPlace(nodes: seq<RawNode>, n: RawNode, after: seq<RawNode>) returns (i: nat)
    requires after == Put(nodes, n)
    ensures i <= |nodes| && (i < |nodes| ==> nodes[i].id == n.id) && forall j | 0 <= j < i :: nodes[j].id != n.id
    ensures after == if i < |nodes| then nodes[i := n] else nodes + [n]
    decreases |nodes|
  {
    i := 0;
    if nodes != [] && nodes[0].id != n.id {
      var tail := nodes[1..];
      var rest := PutPlace(tail, n, Put(tail, n));
      i := rest + 1;
      assert nodes == [nodes[0]] + tail;
      assert forall j | 0 < j < |nodes| :: nodes[j] == tail[j - 1];
    }
  }

  lemma BeforeMore(nodes: seq<CanvasNode>, k: nat, first: NodeId, second: NodeId)
    requires k < |nodes| && OccursBefore(nodes, k, first, second)
    ensures OccursBefore(nodes, k + 1, first, second)
  {
  }

  /** A key that is new at node k comes after every key that has an entry. */
  lemma NewIsLast(entries: seq<RawNode>, nodes: seq<CanvasNode>, k: nat, r: RawNode)
    requires k < |nodes| && EntriesFor(entries, nodes, k) && r in entries
    requires forall e | e in entries :: e.id != KeyFor(nodes[k])
    ensures OccursBefore(nodes, k + 1, r.id, KeyFor(nodes[k]))
  {
    assert SaysLast(r, nodes, k);
    var i: nat :| i < k && LastOfKey(nodes, i, k) && NodeEntry(r, nodes[i]);
    forall j | 0 <= j <= i
      ensures KeyFor(nodes[j]) != KeyFor(nodes[k])
    {
      assert HasEntry(entries, KeyFor(nodes[j]));
    }
  }

  lemma SaysNext(entries: seq<RawNode>, nodes: seq<CanvasNode>, k: nat, r: RawNode)
    requires k < |nodes| && SaysLast(r, nodes, k) && r.id != KeyFor(nodes[k])
    ensures SaysLast(r, nodes, k + 1)
  {
    var i: nat :| i < k && LastOfKey(nodes, i, k) && NodeEntry(r, nodes[i]);
    assert LastOfKey(nodes, i, k + 1);
  }

  /** One entry is replaced at its place, or added at the end. */
  predicate PutAt(entries: seq<RawNode>, place: nat, n: RawNode, after: seq<RawNode>) {
    && place <= |entries| && (place < |entries| ==> entries[place].id == n.id)
    && after == if place < |entries| then entries[place := n] else entries + [n]
  }

  lemma OrderNext(entries: seq<RawNode>, nodes: seq<CanvasNode>, k: nat, place: nat, n: RawNode, after: seq<RawNode>)
    requires k < |nodes| && EntriesFor(entries, nodes, k) && PutAt(entries, place, n, after) && n.id == KeyFor(nodes[k])
    requires place == |entries| ==> forall e | e in entries :: e.id != n.id
    ensures InFirstOrder(after, nodes, k + 1)
  {
    forall a, b | 0 <= a < b < |after|
      ensures after[a].id != after[b].id && OccursBefore(nodes, k + 1, after[a].id, after[b].id)
    {
      if b < |entries| {
        BeforeMore(nodes, k, entries[a].id, entries[b].id);
      } else {
        NewIsLast(entries, nodes, k, entries[a]);
      }
    }
  }

  lemma LastNext(entries: seq<RawNode>, nodes: seq<CanvasNode>, k: nat, place: nat, n: RawNode, after: seq<RawNode>)
    requires k < |nodes| && EntriesFor(entries, nodes, k) && PutAt(entries, place, n, after)
    requires NodeEntry(n, nodes[k])
    requires place == |entries| ==> forall e | e in entries :: e.id != n.id
    ensures LastIsSaid(after, nodes, k + 1)
  {
    forall r | r in after
      ensures SaysLast(r, nodes, k + 1)
    {
      if r == n {
        assert LastOfKey(nodes, k, k + 1);
      } else {
        var a :| 0 <= a < |after| && after[a] == r;
        assert r == entries[a] && r in entries && r.id != n.id;
        SaysNext(entries, nodes, k, r);
      }
    }
  }

  lemma AllNext(entries: seq<RawNode>, nodes: seq<CanvasNode>, k: nat, place: nat, n: RawNode, after: seq<RawNode>)
    requires k < |nodes| && AllHaveEntries(entries, nodes, k) && PutAt(entries, place, n, after)
    requires n.id == KeyFor(nodes[k])
    ensures AllHaveEntries(after, nodes, k + 1)
  {
    assert after[place] == n;
    forall i | 0 <= i < k + 1
      ensures HasEntry(after, KeyFor(nodes[i]))
    {
      if i < k {
        EntryStays(entries, place, n, KeyFor(nodes[i]));
      }
    }
  }

  lemma EntriesNext(entries: seq<RawNode>, nodes: seq<CanvasNode>, k: nat, after: seq<RawNode>)
    requires k < |nodes| && EntriesFor(entries, nodes, k) && after == Put(entries, WriteNode(nodes[k]))
    ensures EntriesFor(after, nodes, k + 1)
  {
    var place := PutPlace(entries, WriteNode(nodes[k]), after);
    OrderNext(entries, nodes, k, place, WriteNode(nodes[k]), after);
    AllNext(entries, nodes, k, place, WriteNode(nodes[k]), after);
    LastNext(entries, nodes, k, place, WriteNode(nodes[k]), after);
  }

  lemma EntryStays(entries: seq<RawNode>, place: nat, n: RawNode, id: NodeId)
    requires place <= |entries| && (place < |entries| ==> entries[place].id == n.id) && HasEntry(entries, id)
    ensures HasEntry(if place < |entries| then entries[place := n] else entries + [n], id)
  {
    var r :| r in entries && r.id == id;
    var a :| 0 <= a < |entries| && entries[a] == r;
    var after := if place < |entries| then entries[place := n] else entries + [n];
    assert after[a] in after && after[a].id == id;
  }

  lemma {:induction false} WrittenEntries(nodes: seq<CanvasNode>, k: nat, entries: seq<RawNode>)
    requires k <= |nodes| && entries == WriteNodes(nodes, k)
    ensures EntriesFor(entries, nodes, k)
    decreases k
  {
    if k == 0 {
      NoEntries(nodes);
    } else {
      var before := WriteNodes(nodes, k - 1);
      assert entries == Put(before, WriteNode(nodes[k - 1]));
      WrittenEntries(nodes, k - 1, before);
      EntriesNext(before, nodes, k - 1, entries);
    }
  }

  lemma NoEntries(nodes: seq<CanvasNode>)
    ensures EntriesFor([], nodes, 0)
  {
  }

  /** Edge entries, one per edge and in order: the ends, and the handles unless they are empty or "out" and "in". */
  ghost predicate EdgeEntries(entries: seq<RawEdge>, edges: seq<CanvasEdge>, k: nat)
    requires k <= |edges|
  {
    |entries| == k && forall i | 0 <= i < k ::
      && entries[i].source == edges[i].source && entries[i].target == edges[i].target
      && entries[i].sourceHandle == (if edges[i].sourceHandle in {"", "out"} then None else Some(edges[i].sourceHandle))
      && entries[i].targetHandle == (if edges[i].targetHandle in {"", "in"} then None else Some(edges[i].targetHandle))
  }

  lemma {:induction false} WrittenEdges(edges: seq<CanvasEdge>, k: nat)
    requires k <= |edges|
    ensures EdgeEntries(WriteEdges(edges, k), edges, k)
  {
    if k > 0 {
      WrittenEdges(edges, k - 1);
    }
  }

  /** What the file says: an absent name or description for an empty one, and the entries of nodes and edges. */
  ghost predicate FileFor(raw: RawRule, canvas: Canvas, name: string, description: Option<string>) {
    && raw.name == (if name == "" then None else Some(name))
    && raw.description == (if description == Some("") then None else description)
    && EntriesFor(raw.nodes, canvas.nodes, |canvas.nodes|)
    && EdgeEntries(raw.edges, canvas.edges, |canvas.edges|)
  }

  lemma WriteIsFile(canvas: Canvas, name: string, description: Option<string>)
    ensures FileFor(Write(canvas, name, description), canvas, name, description)
  {
    WrittenEntries(canvas.nodes, |canvas.nodes|, WriteNodes(canvas.nodes, |canvas.nodes|));
    WrittenEdges(canvas.edges, |canvas.edges|);
  }

  method CanvasToRule(canvas: Canvas, name: string, description: Option<string>) returns (raw: RawRule)
    ensures raw == Write(canvas, name, description)
    ensures FileFor(raw, canvas, name, description)
  {
    var nodes: seq<RawNode> := [];
    for k := 0 to |canvas.nodes|
      invariant nodes == WriteNodes(canvas.nodes, k)
    {
      var node := canvas.nodes[k];
      var id := if node.id != "" then node.id else "unknown";
      var entry := RawNode(id, node.kind, None);
      if node.config != map[] {
        entry := entry.(config := Some(node.config));
      }
      nodes := Put(nodes, entry);
    }
    var edges: seq<RawEdge> := [];
    for k := 0 to |canvas.edges|
      invariant edges == WriteEdges(canvas.edges, k)
    {
      var edge := canvas.edges[k];
      var entry := RawEdge(edge.source, edge.target, None, None);
      var src := if edge.sourceHandle != "" then edge.sourceHandle else DEFAULT_SOURCE_HANDLE;
      var tgt := if edge.targetHandle != "" then edge.targetHandle else DEFAULT_TARGET_HANDLE;
      if src != DEFAULT_SOURCE_HANDLE {
        entry := entry.(sourceHandle := Some(src));
      }
      if tgt != DEFAULT_TARGET_HANDLE {
        entry := entry.(targetHandle := Some(tgt));
      }
      edges := edges + [entry];
    }
    raw := RawRule(None, None, nodes, edges);
    if name != "" {
      raw := raw.(name := Some(name));
    }
    if description.Some? && description.value != "" {
      raw := raw.(description := description);
    }
    WriteIsFile(canvas, name, description);
  }

  // ------------------------------------------------------ round trip

  lemma NodeSurvives(n: NodeDef, positions: map<NodeId, Position>)
    requires n.id != ""
    ensures ReadNode(WriteNode(NodeAt(n, positions))) == n
  {
  }

  lemma EdgeSurvives(e: EdgeDef)
    requires EdgeFitsSchema(e)
    ensures ReadEdge(WriteEdge(ToCanvasEdge(e))) == e
  {
  }

  /** The entries written so far read back as the first k nodes. */
  ghost predicate NodesReadBack(written: seq<RawNode>, nodes: seq<NodeDef>, k: nat)
    requires k <= |nodes|
  {
    |written| == k && forall i | 0 <= i < k :: ReadNode(written[i]) == nodes[i]
  }

  lemma PutNext(written: seq<RawNode>, nodes: seq<NodeDef>, k: nat, n: RawNode)
    requires k < |nodes| && Distinct(NodeIds(nodes)) && NodesReadBack(written, nodes, k) && ReadNode(n) == nodes[k]
    ensures NodesReadBack(Put(written, n), nodes, k + 1)
  {
    var ids := NodeIds(nodes);
    forall m | m in written
      ensures m.id != n.id
    {
      var i :| 0 <= i < k && written[i] == m;
      assert ReadNode(m).id == ids[i] && ReadNode(n).id == ids[k];
    }
    PutNew(written, n);
  }

  lemma WrittenNode(rule: RuleDefinition, positions: map<NodeId, Position>, i: nat)
    requires i < |rule.nodes| && rule.nodes[i].id != ""
    ensures ReadNode(WriteNode(CanvasOf(rule, positions).nodes[i])) == rule.nodes[i]
  {
    NodeSurvives(rule.nodes[i], positions);
    assert CanvasOf(rule, positions).nodes[i] == NodeAt(rule.nodes[i], positions);
  }

  predicate ReadsAs(n: CanvasNode, def: NodeDef) {
    ReadNode(WriteNode(n)) == def
  }

  ghost predicate Survive(nodes: seq<CanvasNode>, defs: seq<NodeDef>) {
    |nodes| == |defs| && forall i {:trigger ReadsAs(nodes[i], defs[i])} | 0 <= i < |nodes| :: ReadsAs(nodes[i], defs[i])
  }

  lemma {:induction false} WrittenReadBack(nodes: seq<CanvasNode>, defs: seq<NodeDef>, k: nat, written: seq<RawNode>)
    requires Survive(nodes, defs) && Distinct(NodeIds(defs)) && k <= |nodes| && written == WriteNodes(nodes, k)
    ensures NodesReadBack(written, defs, k)
    decreases k
  {
    if k > 0 {
      var before, last := WriteNodes(nodes, k - 1), WriteNode(nodes[k - 1]);
      assert written == Put(before, last) && ReadsAs(nodes[k - 1], defs[k - 1]);
      WrittenReadBack(nodes, defs, k - 1, before);
      PutNext(before, defs, k - 1, last);
    }
  }

  lemma NodesSurvive(rule: RuleDefinition, positions: map<NodeId, Position>, k: nat)
    requires Distinct(NodeIds(rule.nodes)) && (forall n | n in rule.nodes :: n.id != "")
    requires k <= |rule.nodes|
    ensures NodesReadBack(WriteNodes(CanvasOf(rule, positions).nodes, k), rule.nodes, k)
  {
    var nodes := CanvasOf(rule, positions).nodes;
    forall i | 0 <= i < |nodes|
      ensures ReadsAs(nodes[i], rule.nodes[i])
    {
      assert rule.nodes[i] in rule.nodes;
      WrittenNode(rule, positions, i);
    }
    WrittenReadBack(nodes, rule.nodes, k, WriteNodes(nodes, k));
  }

  ghost predicate EdgesReadBack(written: seq<RawEdge>, edges: seq<EdgeDef>, k: nat)
    requires k <= |edges|
  {
    |written| == k && forall i | 0 <= i < k :: ReadEdge(written[i]) == edges[i]
  }

  lemma {:induction false} EdgesSurvive(rule: RuleDefinition, positions: map<NodeId, Position>, k: nat)
    requires (forall e | e in rule.edges :: EdgeFitsSchema(e)) && k <= |rule.edges|
    ensures EdgesReadBack(WriteEdges(CanvasOf(rule, positions).edges, k), rule.edges, k)
  {
    if k > 0 {
      EdgesSurvive(rule, positions, k - 1);
      assert rule.edges[k - 1] in rule.edges;
      EdgeSurvives(rule.edges[k - 1]);
    }
  }

  /** What a rule becomes on its way through the canvas: only an empty description is lost. */
  function Normalised(rule: RuleDefinition): RuleDefinition {
    rule.(description := if rule.description == Some("") then None else rule.description)
  }

  lemma ReadsBack(raw: RawRule, rule: RuleDefinition)
    requires NodesReadBack(raw.nodes, rule.nodes, |rule.nodes|) && EdgesReadBack(raw.edges, rule.edges, |rule.edges|)
    requires raw.name == Some(rule.name) && raw.description == rule.description
    ensures Read(raw) == rule
  {
    assert Read(raw).nodes == rule.nodes;
    assert Read(raw).edges == rule.edges;
  }

  lemma NoEmptyIds(rule: RuleDefinition)
    requires Accepted(rule)
    ensures forall n | n in rule.nodes :: n.id != ""
  {
    forall n | n in rule.nodes
      ensures n.id != ""
    {
      var i :| 0 <= i < |rule.nodes| && rule.nodes[i] == n;
      assert NodeIds(rule.nodes)[i] == n.id;
      IdsNotEmpty(rule, n.id);
    }
  }

  /** Only the description differs, so everything the validator looks at is the same. */
  lemma NormalisedAccepted(rule: RuleDefinition)
    requires Accepted(rule)
    ensures Accepted(Normalised(rule)) && GraphOf(Normalised(rule)) == GraphOf(rule)
  {
    var r := Normalised(rule);
    assert r.nodes == rule.nodes && r.edges == rule.edges;
    forall n | n in GraphOf(r).ids
      ensures Wired(r, n)
    {
      assert Wired(rule, n);
    }
  }

  /** Drawing an accepted rule, writing the canvas to a file and loading the file gives the rule back,
      and it is accepted again. */
  lemma RoundTrip(rule: RuleDefinition, positions: map<NodeId, Position>)
    requires Accepted(rule)
    ensures Load(Write(CanvasOf(rule, positions), rule.name, rule.description)) == Ok(Normalised(rule))
    ensures Accepted(Normalised(rule))
  {
    NoEmptyIds(rule);
    NodesSurvive(rule, positions, |rule.nodes|);
    EdgesSurvive(rule, positions, |rule.edges|);
    NormalisedAccepted(rule);
    ReadsBack(Write(CanvasOf(rule, positions), rule.name, rule.description), Normalised(rule));
  }
}
