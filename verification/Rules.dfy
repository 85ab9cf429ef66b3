/** Rule definitions as values: what the rule file says, and what the schema makes of it. */
module Rules {
  import opened Wrappers
  import opened Values
  import opened Graphs

  /** The registered node types, and any other name. */
  datatype NodeType =
    | TrackSource | Constant
    | PlexSearch | Search | SearchMusicBrainz
    | Transform | Similarity | Threshold | Filter | LogicOp
    | MatchMbid | MatchFuzzy | MatchAlbum | MatchComposite | MatchOutput
    | Unregistered(name: string)

  type Config = map<string, Value>

  const DEFAULT_SOURCE_HANDLE := "out"
  const DEFAULT_TARGET_HANDLE := "in"
  const MAX_NAME_LENGTH := 100

  // ---------------------------------------------------------- the rule file

  datatype RawNode = RawNode(id: NodeId, kind: NodeType, config: Option<Config>)

  datatype RawEdge = RawEdge(source: NodeId, target: NodeId, sourceHandle: Option<string>, targetHandle: Option<string>)

  datatype RawRule = RawRule(
    name: Option<string>, description: Option<string>, nodes: seq<RawNode>, edges: seq<RawEdge>)

  // ---------------------------------------------------------- the definition

  datatype NodeDef = NodeDef(id: NodeId, kind: NodeType, config: Config)

  datatype EdgeDef = EdgeDef(source: NodeId, target: NodeId, sourceHandle: string, targetHandle: string)

  datatype RuleDefinition =
    RuleDefinition(name: string, description: Option<string>, nodes: seq<NodeDef>, edges: seq<EdgeDef>)

  datatype RuleError =
    | YamlError
    | SchemaError
    | DuplicateNodes(ids: seq<NodeId>)
    | DuplicateEdges(arcs: seq<Arc>)
    | SourceCount(sources: seq<NodeId>)
    | NoOutput
    | CycleFound
    | Orphaned(nodes: seq<NodeId>)

  function NodeIds(nodes: seq<NodeDef>): (ids: seq<NodeId>)
    ensures |ids| == |nodes| && forall i | 0 <= i < |ids| :: ids[i] == nodes[i].id
  {
    seq(|nodes|, i requires 0 <= i < |nodes| => nodes[i].id)
  }

  function Arcs(edges: seq<EdgeDef>): (arcs: seq<Arc>)
    ensures |arcs| == |edges| && forall i | 0 <= i < |arcs| :: arcs[i] == Arc(edges[i].source, edges[i].target)
  {
    seq(|edges|, i requires 0 <= i < |edges| => Arc(edges[i].source, edges[i].target))
  }

  function GraphOf(rule: RuleDefinition): Graph {
    Graph(NodeIds(rule.nodes), Arcs(rule.edges))
  }

  // ---------------------------------------------------------- schema

  function GetOr<T>(o: Option<T>, default: T): T {
    if o.Some? then o.value else default
  }

  function ReadNode(n: RawNode): NodeDef {
    NodeDef(n.id, n.kind, GetOr(n.config, map[]))
  }

  function ReadEdge(e: RawEdge): EdgeDef {
    EdgeDef(e.source, e.target,
            GetOr(e.sourceHandle, DEFAULT_SOURCE_HANDLE), GetOr(e.targetHandle, DEFAULT_TARGET_HANDLE))
  }

  /** Defaults filled in for absent keys. */
  function Read(raw: RawRule): RuleDefinition {
    RuleDefinition(
      GetOr(raw.name, ""),
      raw.description,
      seq(|raw.nodes|, i requires 0 <= i < |raw.nodes| => ReadNode(raw.nodes[i])),
      seq(|raw.edges|, i requires 0 <= i < |raw.edges| => ReadEdge(raw.edges[i])))
  }

  predicate EdgeFitsSchema(e: EdgeDef) {
    e.source != "" && e.target != "" && e.sourceHandle != "" && e.targetHandle != ""
  }

  predicate EndpointsExist(rule: RuleDefinition) {
    forall e | e in rule.edges :: e.source in NodeIds(rule.nodes) && e.target in NodeIds(rule.nodes)
  }

  /** What the schema demands of a rule whose mapping keys are unique. */
  predicate FitsSchema(rule: RuleDefinition) {
    && 1 <= |rule.name| <= MAX_NAME_LENGTH
    && rule.nodes != []
    && (forall n | n in rule.nodes :: !n.kind.Unregistered?)
    && (forall e | e in rule.edges :: EdgeFitsSchema(e))
    && EndpointsExist(rule)
  }

  /** Loading rejects repeated node keys; schema validation rejects the rest. */
  function Load(raw: RawRule): Result<RuleDefinition, seq<RuleError>> {
    var rule := Read(raw);
    if !Distinct(NodeIds(rule.nodes)) then Err([YamlError])
    else if raw.name.None? || !FitsSchema(rule) then Err([SchemaError])
    else Ok(rule)
  }

  /** What the schema demands, said of the rule file itself. */
  ghost predicate Fits(raw: RawRule) {
    && raw.name.Some? && 1 <= |raw.name.value| <= 100
    && raw.nodes != []
    && (forall n | n in raw.nodes :: !n.kind.Unregistered?)
    && (forall e | e in raw.edges ::
          e.source != "" && e.target != "" && e.sourceHandle != Some("") && e.targetHandle != Some(""))
    && (forall e | e in raw.edges :: IsNode(raw, e.source) && IsNode(raw, e.target))
  }

  predicate IsNode(raw: RawRule, id: NodeId) {
    exists n | n in raw.nodes :: n.id == id
  }

  ghost predicate DistinctNodes(raw: RawRule) {
    forall i, j | 0 <= i < |raw.nodes| && 0 <= j < |raw.nodes| && raw.nodes[i].id == raw.nodes[j].id :: i == j
  }

  /** The definition holds the file's nodes and edges, in order, with an empty configuration, "out" and "in" in the
      place of what is absent. */
  ghost predicate Holds(raw: RawRule, rule: RuleDefinition) {
    && Some(rule.name) == raw.name && rule.description == raw.description
    && |rule.nodes| == |raw.nodes| && |rule.edges| == |raw.edges|
    && (forall i | 0 <= i < |raw.nodes| ::
          && rule.nodes[i].id == raw.nodes[i].id && rule.nodes[i].kind == raw.nodes[i].kind
          && rule.nodes[i].config == if raw.nodes[i].config.Some? then raw.nodes[i].config.value else map[])
    && (forall i | 0 <= i < |raw.edges| ::
          && rule.edges[i].source == raw.edges[i].source && rule.edges[i].target == raw.edges[i].target
          && rule.edges[i].sourceHandle ==
               (if raw.edges[i].sourceHandle.Some? then raw.edges[i].sourceHandle.value else "out")
          && rule.edges[i].targetHandle ==
               (if raw.edges[i].targetHandle.Some? then raw.edges[i].targetHandle.value else "in"))
  }

  lemma ReadIsNode(raw: RawRule, id: NodeId)
    ensures id in NodeIds(Read(raw).nodes) <==> IsNode(raw, id)
  {
    var nodes := Read(raw).nodes;
    if n :| n in raw.nodes && n.id == id {
      var i :| 0 <= i < |raw.nodes| && raw.nodes[i] == n;
      assert NodeIds(nodes)[i] == id;
    }
    if id in NodeIds(nodes) {
      var i :| 0 <= i < |nodes| && NodeIds(nodes)[i] == id;
      assert raw.nodes[i] in raw.nodes;
    }
  }

  lemma ReadFits(raw: RawRule)
    ensures raw.name.Some? && FitsSchema(Read(raw)) <==> Fits(raw)
  {
    var rule := Read(raw);
    forall n | n in raw.nodes
      ensures ReadNode(n) in rule.nodes
    {
      var i :| 0 <= i < |raw.nodes| && raw.nodes[i] == n;
      assert rule.nodes[i] == ReadNode(n);
    }
    forall e | e in raw.edges
      ensures ReadEdge(e) in rule.edges
    {
      var i :| 0 <= i < |raw.edges| && raw.edges[i] == e;
      assert rule.edges[i] == ReadEdge(e);
    }
    forall e | e in raw.edges
      ensures e.source in NodeIds(rule.nodes) <==> IsNode(raw, e.source)
      ensures e.target in NodeIds(rule.nodes) <==> IsNode(raw, e.target)
    {
      ReadIsNode(raw, e.source);
      ReadIsNode(raw, e.target);
    }
  }

  /** A rule file loads exactly when its node ids are distinct and it fits the schema; repeated ids are a YAML error,
      anything else a schema error. */
  lemma LoadsIff(raw: RawRule)
    ensures Load(raw).Ok? <==> DistinctNodes(raw) && Fits(raw)
    ensures Load(raw).Ok? ==> Holds(raw, Load(raw).value)
    ensures Load(raw) == Err([YamlError]) <==> !DistinctNodes(raw)
    ensures Load(raw) == Err([SchemaError]) <==> DistinctNodes(raw) && !Fits(raw)
  {
    ReadFits(raw);
    var ids := NodeIds(Read(raw).nodes);
    assert forall i | 0 <= i < |ids| :: ids[i] == raw.nodes[i].id;
  }

  lemma LoadedIsWellFormed(raw: RawRule)
    requires Load(raw).Ok?
    ensures WellFormed(GraphOf(Load(raw).value))
  {
    var rule := Load(raw).value;
    forall a | a in GraphOf(rule).arcs
      ensures a.src in GraphOf(rule).ids && a.tgt in GraphOf(rule).ids
    {
      var i :| 0 <= i < |rule.edges| && a == Arc(rule.edges[i].source, rule.edges[i].target);
      assert rule.edges[i] in rule.edges;
    }
  }
}
