/** Validation of rule definitions: one source, an output, no repeated edge, no cycle, no orphan. */
module Validator {
  import opened Wrappers
  import opened Graphs
  import opened KahnOrder
  import opened CycleSearch
  import opened Reachability
  import opened Rules

  // ------------------------------------------------------ what is accepted

  /** Those of the first k nodes that have the given type, in definition order. */
  function OfType(nodes: seq<NodeDef>, kind: NodeType, k: nat): seq<NodeId>
    requires k <= |nodes|
  {
    if k == 0 then []
    else
      var rest := OfType(nodes, kind, k - 1);
      if nodes[k - 1].kind == kind then rest + [nodes[k - 1].id] else rest
  }

  function Sources(rule: RuleDefinition): seq<NodeId> {
    OfType(rule.nodes, TrackSource, |rule.nodes|)
  }

  function Outputs(rule: RuleDefinition): seq<NodeId> {
    OfType(rule.nodes, MatchOutput, |rule.nodes|)
  }

  /** n lies between a source and an output. */
  ghost predicate Wired(rule: RuleDefinition, n: NodeId) {
    && (exists s :: s in Sources(rule) && Reaches(GraphOf(rule), s, n))
    && (exists o :: o in Outputs(rule) && Reaches(GraphOf(rule), n, o))
  }

  ghost predicate Acceptable(rule: RuleDefinition) {
    && Distinct(Arcs(rule.edges))
    && |Sources(rule)| == 1
    && Outputs(rule) != []
    && Acyclic(GraphOf(rule))
    && forall n {:trigger Wired(rule, n)} | n in GraphOf(rule).ids :: Wired(rule, n)
  }

  /** The kept ids are the ids at the given positions, in ascending order. */
  ghost predicate PickedAt<T>(kept: seq<T>, all: seq<T>, k: nat, at: seq<nat>)
    requires k <= |all|
  {
    && |at| == |kept|
    && (forall i | 0 <= i < |at| :: at[i] < k && all[at[i]] == kept[i])
    && (forall i, j | 0 <= i < j < |at| :: at[i] < at[j])
  }

  /** One position further on: it is kept, or passed over. */
  lemma PickNext<T>(kept: seq<T>, all: seq<T>, k: nat, at: seq<nat>)
    requires k < |all| && PickedAt(kept, all, k, at)
    ensures PickedAt(kept, all, k + 1, at) && k !in at
    ensures PickedAt(kept + [all[k]], all, k + 1, at + [k])
    ensures forall p :: p in at + [k] <==> p in at || p == k
  {
    assert forall p | p in at :: p < k;
  }

  /** The nodes of a type are listed in definition order, each once. */
  lemma {:induction false} OfTypePicked(nodes: seq<NodeDef>, kind: NodeType, k: nat, listed: seq<NodeId>)
    returns (at: seq<nat>)
    requires k <= |nodes| && listed == OfType(nodes, kind, k)
    ensures PickedAt(listed, NodeIds(nodes), k, at)
    ensures forall p: nat | p < k :: p in at <==> nodes[p].kind == kind
    decreases k
  {
    at := [];
    if k > 0 {
      var before := OfType(nodes, kind, k - 1);
      at := OfTypePicked(nodes, kind, k - 1, before);
      PickNext(before, NodeIds(nodes), k - 1, at);
      if nodes[k - 1].kind == kind {
        at := at + [k - 1];
      }
    }
  }

  // ------------------------------------------------------ what is reported

  /** The arcs among the first k that repeat an earlier one. */
  function Repeats<T(==)>(keys: seq<T>, k: nat): seq<T>
    requires k <= |keys|
  {
    if k == 0 then []
    else
      var rest := Repeats(keys, k - 1);
      if keys[k - 1] in keys[..k - 1] then rest + [keys[k - 1]] else rest
  }

  lemma {:induction false} NoRepeatsIffDistinct<T>(keys: seq<T>, k: nat)
    requires k <= |keys|
    ensures Repeats(keys, k) == [] <==> Distinct(keys[..k])
  {
    if k > 0 {
      NoRepeatsIffDistinct(keys, k - 1);
      assert keys[..k] == keys[..k - 1] + [keys[k - 1]];
    }
  }

  predicate Seen<T(==)>(keys: seq<T>, p: nat)
    requires p < |keys|
  {
    exists j | 0 <= j < p :: keys[j] == keys[p]
  }

  lemma SeenIff<T>(keys: seq<T>, p: nat)
    requires p < |keys|
    ensures Seen(keys, p) <==> keys[p] in keys[..p]
  {
    if keys[p] in keys[..p] {
      var j :| 0 <= j < p && keys[..p][j] == keys[p];
    }
    if j :| 0 <= j < p && keys[j] == keys[p] {
      assert keys[..p][j] == keys[p];
    }
  }

  /** The repeated keys are those at the positions that an equal key precedes, in order. */
  lemma {:induction false} RepeatsPicked<T>(keys: seq<T>, k: nat, repeats: seq<T>) returns (at: seq<nat>)
    requires k <= |keys| && repeats == Repeats(keys, k)
    ensures PickedAt(repeats, keys, k, at)
    ensures forall p: nat | p < k :: p in at <==> Seen(keys, p)
    decreases k
  {
    at := [];
    if k > 0 {
      var before := Repeats(keys, k - 1);
      at := RepeatsPicked(keys, k - 1, before);
      PickNext(before, keys, k - 1, at);
      SeenIff(keys, k - 1);
      if Seen(keys, k - 1) {
        at := at + [k - 1];
      }
    }
  }

  /** Those of the first k nodes that are not wired, in definition order. */
  ghost function Orphans(rule: RuleDefinition, k: nat): seq<NodeId>
    requires k <= |rule.nodes|
  {
    if k == 0 then []
    else
      var rest := Orphans(rule, k - 1);
      if Wired(rule, rule.nodes[k - 1].id) then rest else rest + [rule.nodes[k - 1].id]
  }

  lemma {:induction false} NoOrphansIffWired(rule: RuleDefinition, k: nat)
    requires k <= |rule.nodes|
    ensures Orphans(rule, k) == [] <==>
            forall n {:trigger Wired(rule, n)} | n in NodeIds(rule.nodes)[..k] :: Wired(rule, n)
  {
    if k > 0 {
      NoOrphansIffWired(rule, k - 1);
      var ids := NodeIds(rule.nodes);
      assert ids[..k] == ids[..k - 1] + [ids[k - 1]];
    }
  }

  /** The orphans are the nodes that are not wired, in definition order. */
  lemma {:induction false} OrphansPicked(rule: RuleDefinition, k: nat, orphans: seq<NodeId>) returns (at: seq<nat>)
    requires k <= |rule.nodes| && orphans == Orphans(rule, k)
    ensures PickedAt(orphans, NodeIds(rule.nodes), k, at)
    ensures forall p: nat | p < k :: p in at <==> !Wired(rule, rule.nodes[p].id)
    decreases k
  {
    at := [];
    if k > 0 {
      var before := Orphans(rule, k - 1);
      at := OrphansPicked(rule, k - 1, before);
      PickNext(before, NodeIds(rule.nodes), k - 1, at);
      if !Wired(rule, rule.nodes[k - 1].id) {
        at := at + [k - 1];
      }
    }
  }

  /** Every problem of a rule without repeated edges, in the order the validator lists them. */
  ghost function Findings(rule: RuleDefinition): seq<RuleError> {
    var orphans := Orphans(rule, |rule.nodes|);
    (if |Sources(rule)| != 1 then [SourceCount(Sources(rule))] else []) +
    (if Outputs(rule) == [] then [NoOutput] else []) +
    (if Acyclic(GraphOf(rule)) then [] else [CycleFound]) +
    (if orphans != [] then [Orphaned(orphans)] else [])
  }

  /** The place of a finding in the validator's list. */
  function Place(e: RuleError): nat {
    match e
    case SourceCount(_) => 0
    case NoOutput => 1
    case CycleFound => 2
    case _ => 3
  }

  /** Each problem is reported exactly when it is there, once, in a fixed order, and nothing else is. */
  ghost predicate ReportOf(errors: seq<RuleError>, sources: seq<NodeId>, outputs: seq<NodeId>, cyclic: bool,
                           orphans: seq<NodeId>) {
    && (forall i, j | 0 <= i < j < |errors| :: Place(errors[i]) < Place(errors[j]))
    && (forall e :: e in errors <==>
          || (e == SourceCount(sources) && |sources| != 1)
          || (e == NoOutput && outputs == [])
          || (e == CycleFound && cyclic)
          || (e == Orphaned(orphans) && orphans != []))
  }

  lemma ReportIs(errors: seq<RuleError>, sources: seq<NodeId>, outputs: seq<NodeId>, cyclic: bool, orphans: seq<NodeId>)
    requires errors ==
             (if |sources| != 1 then [SourceCount(sources)] else []) +
             (if outputs == [] then [NoOutput] else []) +
             (if cyclic then [CycleFound] else []) +
             (if orphans != [] then [Orphaned(orphans)] else [])
    ensures ReportOf(errors, sources, outputs, cyclic, orphans)
  {
    var a: seq<RuleError> := if |sources| != 1 then [SourceCount(sources)] else [];
    var b: seq<RuleError> := if outputs == [] then [NoOutput] else [];
    var c: seq<RuleError> := if cyclic then [CycleFound] else [];
    var d: seq<RuleError> := if orphans != [] then [Orphaned(orphans)] else [];
    var ab, abc := a + b, a + b + c;
    Rising(a, b, ab, 0, 1);
    Rising(ab, c, abc, 1, 2);
    Rising(abc, d, errors, 2, 3);
    forall e
      ensures e in errors <==> e in a || e in b || e in c || e in d
    {
    }
  }

  ghost predicate Reported(rule: RuleDefinition, errors: seq<RuleError>) {
    ReportOf(errors, Sources(rule), Outputs(rule), !Acyclic(GraphOf(rule)), Orphans(rule, |rule.nodes|))
  }

  lemma FindingsReported(rule: RuleDefinition)
    ensures Reported(rule, Findings(rule))
  {
    ReportIs(Findings(rule), Sources(rule), Outputs(rule), !Acyclic(GraphOf(rule)), Orphans(rule, |rule.nodes|));
  }

  lemma Rising(a: seq<RuleError>, b: seq<RuleError>, all: seq<RuleError>, m: nat, n: nat)
    requires all == a + b && m < n
    requires |b| <= 1 && (forall e | e in b :: Place(e) == n) && (forall e | e in a :: Place(e) <= m)
    requires forall i, j | 0 <= i < j < |a| :: Place(a[i]) < Place(a[j])
    ensures forall i, j | 0 <= i < j < |all| :: Place(all[i]) < Place(all[j])
    ensures forall e | e in all :: Place(e) <= n
    ensures forall e :: e in all <==> e in a || e in b
  {
  }

  lemma NoFindingsIffAcceptable(rule: RuleDefinition)
    requires Distinct(Arcs(rule.edges))
    ensures Findings(rule) == [] <==> Acceptable(rule)
  {
    NoOrphansIffWired(rule, |rule.nodes|);
    assert NodeIds(rule.nodes)[..|rule.nodes|] == GraphOf(rule).ids;
  }

  // ------------------------------------------------------ the algorithm

  method FindRepeats<T(==)>(keys: seq<T>) returns (dupes: seq<T>)
    ensures dupes == Repeats(keys, |keys|)
  {
    dupes := [];
    var seen: set<T> := {};
    for k := 0 to |keys|
      invariant dupes == Repeats(keys, k)
      invariant seen == Members(keys[..k])
    {
      assert keys[..k + 1] == keys[..k] + [keys[k]];
      if keys[k] in seen {
        dupes := dupes + [keys[k]];
      } else {
        seen := seen + {keys[k]};
      }
    }
  }

  method FindOfType(nodes: seq<NodeDef>, kind: NodeType) returns (ids: seq<NodeId>)
    ensures ids == OfType(nodes, kind, |nodes|)
  {
    ids := [];
    for k := 0 to |nodes|
      invariant ids == OfType(nodes, kind, k)
    {
      if nodes[k].kind == kind {
        ids := ids + [nodes[k].id];
      }
    }
  }

  lemma {:induction false} OfTypeAre(nodes: seq<NodeDef>, kind: NodeType, k: nat)
    requires k <= |nodes|
    ensures forall n :: n in OfType(nodes, kind, k) <==>
                        exists i :: 0 <= i < k && nodes[i].id == n && nodes[i].kind == kind
  {
    if k > 0 {
      OfTypeAre(nodes, kind, k - 1);
    }
  }

  /** The two tables after k edges. */
  ghost predicate Tabled(g: Graph, k: nat, children: map<NodeId, seq<NodeId>>, parents: map<NodeId, seq<NodeId>>)
    requires k <= |g.arcs|
  {
    IsChildren(g.ids, g.arcs, k, children) && IsChildren(g.ids, Reversed(g).arcs, k, parents)
  }

  lemma TabledStart(g: Graph, empty: map<NodeId, seq<NodeId>>)
    requires empty == map n | n in g.ids :: []
    ensures Tabled(g, 0, empty, empty)
  {
  }

  lemma TabledNext(g: Graph, k: nat, children: map<NodeId, seq<NodeId>>, parents: map<NodeId, seq<NodeId>>)
    requires WellFormed(g) && k < |g.arcs| && Tabled(g, k, children, parents)
    ensures var a := g.arcs[k];
            && a.src in children && a.tgt in parents
            && Tabled(g, k + 1, children[a.src := children[a.src] + [a.tgt]],
                      parents[a.tgt := parents[a.tgt] + [a.src]])
  {
    var back := Reversed(g).arcs;
    assert g.arcs[k] in g.arcs && back[k] == Arc(g.arcs[k].tgt, g.arcs[k].src);
    ChildrenNext(g.ids, g.arcs, k, children);
    ChildrenNext(g.ids, back, k, parents);
  }

  /** Children and parents of every node, filled edge by edge. */
  method BuildAdjacency(g: Graph) returns (children: map<NodeId, seq<NodeId>>, parents: map<NodeId, seq<NodeId>>)
    requires WellFormed(g)
    ensures IsChildren(g.ids, g.arcs, |g.arcs|, children)
    ensures IsChildren(g.ids, Reversed(g).arcs, |g.arcs|, parents)
  {
    children := map n | n in g.ids :: [];
    parents := children;
    TabledStart(g, children);
    for k := 0 to |g.arcs|
      invariant Tabled(g, k, children, parents)
    {
      TabledNext(g, k, children, parents);
      var a := g.arcs[k];
      children, parents := children[a.src := children[a.src] + [a.tgt]], parents[a.tgt := parents[a.tgt] + [a.src]];
    }
  }

  /** Nodes outside the forward or the backward closure, in definition order. */
  method FindOrphans(rule: RuleDefinition, forward: set<NodeId>, backward: set<NodeId>) returns (orphaned: seq<NodeId>)
    requires forall n :: n in forward <==> ReachedFrom(GraphOf(rule), Sources(rule), n)
    requires forall n :: n in backward <==> ReachedFrom(Reversed(GraphOf(rule)), Outputs(rule), n)
    ensures orphaned == Orphans(rule, |rule.nodes|)
  {
    orphaned := [];
    for k := 0 to |rule.nodes|
      invariant orphaned == Orphans(rule, k)
    {
      var n := rule.nodes[k].id;
      forall o {
        ReversedReaches(GraphOf(rule), o, n);
      }
      if n !in forward || n !in backward {
        orphaned := orphaned + [n];
      }
    }
  }

  /** Complaints about the ends of a rule: each is made exactly when it is due, the one about sources first, and
      nothing else is said. */
  predicate EndComplaints(errors: seq<RuleError>, sources: seq<NodeId>, outputs: seq<NodeId>) {
    && (SourceCount(sources) in errors <==> |sources| != 1)
    && (NoOutput in errors <==> outputs == [])
    && (forall e | e in errors :: e == SourceCount(sources) || e == NoOutput)
    && |errors| <= 2 && (|errors| == 2 ==> errors[0] == SourceCount(sources) && errors[1] == NoOutput)
  }

  method CheckEnds(sources: seq<NodeId>, outputs: seq<NodeId>) returns (errors: seq<RuleError>)
    ensures errors == [] <==> |sources| == 1 && outputs != []
    ensures EndComplaints(errors, sources, outputs)
  {
    errors := [];
    if |sources| != 1 {
      errors := errors + [SourceCount(sources)];
    }
    if outputs == [] {
      errors := errors + [NoOutput];
    }
    assert SourceCount(sources) in errors <==> |sources| != 1;
    assert NoOutput in errors <==> outputs == [];
  }

  /** The complaints about the ends are the first findings. */
  lemma EndComplaintsUnique(errors: seq<RuleError>, sources: seq<NodeId>, outputs: seq<NodeId>)
    requires EndComplaints(errors, sources, outputs)
    ensures errors ==
            (if |sources| != 1 then [SourceCount(sources)] else []) + (if outputs == [] then [NoOutput] else [])
  {
    if |errors| == 2 {
      assert errors == [errors[0], errors[1]];
      assert errors[0] in errors && errors[1] in errors;
    } else if |errors| == 1 {
      assert errors == [errors[0]] && errors[0] in errors;
      assert SourceCount(sources) in errors <==> errors[0] == SourceCount(sources);
      assert NoOutput in errors <==> errors[0] == NoOutput;
    }
  }

  /** The forward and the backward search, and what lies outside either. */
  method CheckWiring(rule: RuleDefinition, children: map<NodeId, seq<NodeId>>, parents: map<NodeId, seq<NodeId>>,
                     sources: seq<NodeId>, outputs: seq<NodeId>)
    returns (orphaned: seq<NodeId>)
    requires WellFormed(GraphOf(rule)) && sources == Sources(rule) && outputs == Outputs(rule)
    requires Tabled(GraphOf(rule), |rule.edges|, children, parents)
    ensures orphaned == Orphans(rule, |rule.nodes|)
  {
    var g := GraphOf(rule);
    ReversedWellFormed(g);
    EndsAreNodes(rule);
    var forward := Closure(g, children, sources);
    var backward := Closure(Reversed(g), parents, outputs);
    orphaned := FindOrphans(rule, forward, backward);
  }

  /** Structural and graph checks of a loaded rule without repeated edges. */
  method CheckGraph(rule: RuleDefinition) returns (errors: seq<RuleError>)
    requires WellFormed(GraphOf(rule))
    ensures errors == Findings(rule)
  {
    var sources := FindOfType(rule.nodes, TrackSource);
    var outputs := FindOfType(rule.nodes, MatchOutput);
    errors := CheckEnds(sources, outputs);
    EndComplaintsUnique(errors, sources, outputs);
    var g := GraphOf(rule);
    var children, parents := BuildAdjacency(g);
    var cyclic := DetectCycle(g, children);
    if cyclic {
      errors := errors + [CycleFound];
    }
    var orphaned := CheckWiring(rule, children, parents, sources, outputs);
    if orphaned != [] {
      errors := errors + [Orphaned(orphaned)];
    }
  }

  lemma EndsAreNodes(rule: RuleDefinition)
    ensures forall n | n in Sources(rule) :: n in NodeIds(rule.nodes)
    ensures forall n | n in Outputs(rule) :: n in NodeIds(rule.nodes)
  {
    OfTypeAre(rule.nodes, TrackSource, |rule.nodes|);
    OfTypeAre(rule.nodes, MatchOutput, |rule.nodes|);
    forall i | 0 <= i < |rule.nodes|
      ensures rule.nodes[i].id in NodeIds(rule.nodes)
    {
      assert NodeIds(rule.nodes)[i] == rule.nodes[i].id;
    }
  }

  /** Repeated node ids and repeated edges; loading has already ruled out the former. */
  method CheckRepeats(rule: RuleDefinition) returns (errors: seq<RuleError>)
    requires Distinct(NodeIds(rule.nodes))
    ensures errors == [] <==> Distinct(Arcs(rule.edges))
    ensures errors != [] ==> errors == [DuplicateEdges(Repeats(Arcs(rule.edges), |rule.edges|))]
  {
    errors := [];
    var ids := NodeIds(rule.nodes);
    var dupeIds := FindRepeats(ids);
    NoRepeatsIffDistinct(ids, |ids|);
    assert ids[..|ids|] == ids;
    if dupeIds != [] {
      errors := errors + [DuplicateNodes(dupeIds)];
    }
    var arcs := Arcs(rule.edges);
    var dupeArcs := FindRepeats(arcs);
    NoRepeatsIffDistinct(arcs, |arcs|);
    assert arcs[..|arcs|] == arcs;
    if dupeArcs != [] {
      errors := errors + [DuplicateEdges(dupeArcs)];
    }
  }

  /** Load and validate a rule file: accepted exactly when it loads and is acceptable, and otherwise
      every problem found is reported. */
  method ValidateRule(raw: RawRule) returns (r: Result<RuleDefinition, seq<RuleError>>)
    ensures r.Ok? <==> Load(raw).Ok? && Acceptable(Load(raw).value)
    ensures r.Ok? || Load(raw).Err? ==> r == Load(raw)
    ensures Load(raw).Ok? && !Distinct(Arcs(Load(raw).value.edges)) ==>
              r == Err([DuplicateEdges(Repeats(Arcs(Load(raw).value.edges), |Load(raw).value.edges|))])
    ensures r.Err? && Load(raw).Ok? && Distinct(Arcs(Load(raw).value.edges)) ==> r == Err(Findings(Load(raw).value))
    ensures r.Err? && Load(raw).Ok? && Distinct(Arcs(Load(raw).value.edges)) ==> Reported(Load(raw).value, r.error)
    ensures r.Ok? ==> DistinctNodes(raw) && Fits(raw) && Holds(raw, r.value)
  {
    LoadsIff(raw);
    var loaded := Load(raw);
    if loaded.Err? {
      return loaded;
    }
    var rule := loaded.value;
    LoadedIsWellFormed(raw);
    var errors := CheckRepeats(rule);
    if errors != [] {
      return Err(errors);
    }
    NoFindingsIffAcceptable(rule);
    FindingsReported(rule);
    errors := CheckGraph(rule);
    if errors != [] {
      return Err(errors);
    }
    return Ok(rule);
  }
}
