/** What acceptance by the validator guarantees to the layout and the executor. */
module AcceptedRules {
  import opened Graphs
  import opened KahnOrder
  import opened Columns
  import opened Worklist
  import opened Grid
  import opened Layout
  import opened ExecutionOrder
  import opened Rules
  import opened Validator

  ghost predicate Accepted(rule: RuleDefinition) {
    WellFormed(GraphOf(rule)) && FitsSchema(rule) && Acceptable(rule)
  }

  function Source(rule: RuleDefinition): NodeId
    requires Sources(rule) != []
  {
    Sources(rule)[0]
  }

  lemma OneSource(rule: RuleDefinition)
    requires |Sources(rule)| == 1
    ensures Source(rule) in GraphOf(rule).ids
    ensures forall s :: s in Sources(rule) <==> s == Source(rule)
  {
    EndsAreNodes(rule);
  }

  /** A walk that moves ends with an arc into its end, and starts with an arc out of its start. */
  lemma MovingWalk(g: Graph, u: NodeId, v: NodeId)
    requires Reaches(g, u, v) && u != v
    ensures !Parentless(g, v) && !Childless(g, u)
  {
    var p :| WalkFromTo(g, p, u, v);
    assert Hop(g, p, 0) && Hop(g, p, |p| - 2);
    assert Arc(p[|p| - 2], v) in g.arcs && Arc(u, p[1]) in g.arcs;
  }

  /** The source is the only node without parents. */
  lemma SourceIsOnlyRoot(rule: RuleDefinition, n: NodeId)
    requires Accepted(rule) && n in GraphOf(rule).ids
    ensures Parentless(GraphOf(rule), n) <==> n == Source(rule)
  {
    var g := GraphOf(rule);
    OneSource(rule);
    assert Wired(rule, n);
    if n != Source(rule) {
      MovingWalk(g, Source(rule), n);
    } else if !Parentless(g, n) {
      var a :| a in g.arcs && a.tgt == n;
      assert Wired(rule, a.src);
      var p :| WalkFromTo(g, p, n, a.src);
      WalkExtend(g, p, n);
      assert IsCycle(g, p + [n]);
    }
  }

  /** Nodes without children are outputs. */
  lemma ChildlessIsOutput(rule: RuleDefinition, n: NodeId)
    requires Accepted(rule) && n in GraphOf(rule).ids && Childless(GraphOf(rule), n)
    ensures n in Outputs(rule)
  {
    assert Wired(rule, n);
    var o :| o in Outputs(rule) && Reaches(GraphOf(rule), n, o);
    if o != n {
      MovingWalk(GraphOf(rule), n, o);
    }
  }

  lemma AcceptedSettles(rule: RuleDefinition)
    requires Accepted(rule)
    ensures Settles(GraphOf(rule)) && Halts(GraphOf(rule))
  {
    AcyclicSettles(GraphOf(rule));
    AcyclicHalts(GraphOf(rule));
  }

  /** The source runs first. */
  lemma SourceRunsFirst(rule: RuleDefinition)
    requires Accepted(rule)
    ensures Order(GraphOf(rule)) != [] && Order(GraphOf(rule))[0] == Source(rule)
  {
    var g := GraphOf(rule);
    OneSource(rule);
    OrderVisitsAll(g);
    OrderSorts(g);
    var s := Order(g);
    assert s[0] in s;
    assert Ready(g, s[..0], s[0]);
    SourceIsOnlyRoot(rule, s[0]);
  }

  /** The source is alone in the first column. */
  lemma SourceAloneInFirstColumn(rule: RuleDefinition, positions: map<NodeId, Position>, n: NodeId)
    requires Accepted(rule) && Settles(GraphOf(rule)) && IsDrawing(GraphOf(rule), positions) && n in GraphOf(rule).ids
    ensures n in positions && (positions[n].x == MARGIN_X <==> n == Source(rule))
  {
    var g := GraphOf(rule);
    DrawnInColumn(g, positions, n);
    SourceIsOnlyRoot(rule, n);
    if n == Source(rule) {
      if Column(g, n) > 0 {
        var u := ColumnParent(g, n);
      }
    } else {
      var a :| a in g.arcs && a.tgt == n;
      AcyclicGrounded(g, a.src);
      ColumnStep(g, a.src, n);
    }
  }

  /** The executor visits every node of an accepted rule, column by column. */
  lemma RunsColumnByColumn(rule: RuleDefinition, positions: map<NodeId, Position>)
    requires Accepted(rule) && Settles(GraphOf(rule)) && IsDrawing(GraphOf(rule), positions)
    ensures var s := Order(GraphOf(rule));
            && (forall n :: n in s <==> n in GraphOf(rule).ids)
            && (forall i, j | 0 <= i < j < |s| ::
                  s[i] in positions && s[j] in positions && positions[s[i]].x <= positions[s[j]].x)
  {
    OrderFollowsColumns(GraphOf(rule), positions);
  }

  lemma EndsSomeArc(rule: RuleDefinition, n: NodeId) returns (a: Arc)
    requires Accepted(rule) && n in GraphOf(rule).ids
    ensures a in GraphOf(rule).arcs && (a.src == n || a.tgt == n)
  {
    var g := GraphOf(rule);
    SourceIsOnlyRoot(rule, n);
    if n == Source(rule) {
      SourceIsNotOutput(rule);
      if Childless(g, n) {
        ChildlessIsOutput(rule, n);
      }
      a :| a in g.arcs && a.src == n;
    } else {
      a :| a in g.arcs && a.tgt == n;
    }
  }

  /** No node of an accepted rule has an empty id: each is an endpoint of some edge. */
  lemma IdsNotEmpty(rule: RuleDefinition, n: NodeId)
    requires Accepted(rule) && n in GraphOf(rule).ids
    ensures n != ""
  {
    var g := GraphOf(rule);
    var a := EndsSomeArc(rule, n);
    var i :| 0 <= i < |rule.edges| && g.arcs[i] == a;
    assert rule.edges[i] in rule.edges && EdgeFitsSchema(rule.edges[i]);
  }

  lemma SourceIsNotOutput(rule: RuleDefinition)
    requires Distinct(NodeIds(rule.nodes)) && |Sources(rule)| == 1
    ensures Source(rule) !in Outputs(rule)
  {
    OneSource(rule);
    OfTypeAre(rule.nodes, TrackSource, |rule.nodes|);
    OfTypeAre(rule.nodes, MatchOutput, |rule.nodes|);
    var ids := NodeIds(rule.nodes);
    forall i, j | 0 <= i < |rule.nodes| && 0 <= j < |rule.nodes| && rule.nodes[i].id == rule.nodes[j].id
      ensures i == j
    {
      assert ids[i] == ids[j];
    }
    var n := Source(rule);
    assert n in Sources(rule);
    var i :| 0 <= i < |rule.nodes| && rule.nodes[i].id == n && rule.nodes[i].kind == TrackSource;
  }
}
