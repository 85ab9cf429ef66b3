/** The graph executor: it runs a canvas node by node, in sorted order, and collects match results. */
module Executor {
  import opened Wrappers
  import opened Values
  import opened Graphs
  import opened KahnOrder
  import opened Rules
  import opened Parser
  import opened Dataflow
  import opened Emission

  /** The match results of a canvas, as a function; None when a handler fails. */
  ghost function Matches(c: Canvas, lib: Library, py: Rendering): Option<seq<Fields>>
    requires Distinct(CanvasIds(c))
  {
    var s := Order(CanvasGraph(c));
    OrderKnown(c);
    var outs := RunFirst(c, lib, s, |s|);
    if outs.Some? then Some(Results(py, Emitted(c, outs.value, s, |s|))) else None
  }

  lemma OrderKnown(c: Canvas)
    requires Distinct(CanvasIds(c))
    ensures IsTopological(CanvasGraph(c), Order(CanvasGraph(c)))
    ensures forall n | n in Order(CanvasGraph(c)) :: Known(c, n)
  {
    OrderSorts(CanvasGraph(c));
    TopologicalKnown(c, Order(CanvasGraph(c)));
  }

  /** What a run that ends with matches has done: the outputs solve the dataflow equations of the nodes visited, and
      the matches are the first dicts put out with their keys, in the order of the nodes. */
  ghost predicate Executed(c: Canvas, lib: Library, py: Rendering, s: seq<NodeId>, outs: map<NodeId, Handles>,
                           matches: seq<Fields>, at: seq<nat>) {
    Solves(c, lib, s, outs) && AreFirsts(c, py, outs, s, |s|, matches, at)
  }

  lemma MatchesExecuted(c: Canvas, lib: Library, py: Rendering)
    requires Distinct(CanvasIds(c)) && Matches(c, lib, py).Some?
    ensures exists outs, at :: Executed(c, lib, py, Order(CanvasGraph(c)), outs, Matches(c, lib, py).value, at)
  {
    OrderKnown(c);
    var s := Order(CanvasGraph(c));
    var outs := RunFirst(c, lib, s, |s|).value;
    RunSolves(c, lib, s, |s|);
    assert s[..|s|] == s;
    var at := ResultsAreFirsts(c, py, outs, s, |s|, Matches(c, lib, py).value);
    assert Executed(c, lib, py, s, outs, Matches(c, lib, py).value, at);
  }

  // ------------------------------------------------------ the reference input

  predicate Titled(v: Value) {
    v.Dict? && "title" in v.fields
  }

  predicate HasTitled(outs: map<NodeId, Handles>, n: NodeId) {
    n in outs && exists h :: h in outs[n] && Titled(outs[n][h])
  }

  /** The nearest earlier node with a titled output supplies the reference; which of its titled outputs
      is left open. */
  method FindReference(s: seq<NodeId>, k: nat, outs: map<NodeId, Handles>) returns (reference: Option<Value>)
    requires k < |s|
    ensures reference.None? <==> forall j | 0 <= j < k :: !HasTitled(outs, s[j])
    ensures reference.Some? ==>
              Titled(reference.value) &&
              exists j :: 0 <= j < k && (forall i | j < i < k :: !HasTitled(outs, s[i])) &&
                          s[j] in outs && reference.value in outs[s[j]].Values
  {
    var j := k;
    while j > 0
      invariant 0 <= j <= k
      invariant forall i | j <= i < k :: !HasTitled(outs, s[i])
    {
      j := j - 1;
      if HasTitled(outs, s[j]) {
        var h :| h in outs[s[j]] && Titled(outs[s[j]][h]);
        return Some(outs[s[j]][h]);
      }
    }
    return None;
  }

  // ------------------------------------------------------ one node

  /** Incoming edges of every node, filled edge by edge. */
  method IncomingTable(c: Canvas) returns (incoming: map<NodeId, seq<CanvasEdge>>)
    ensures incoming.Keys == Members(CanvasIds(c))
    ensures forall n | n in incoming :: incoming[n] == InEdges(c, n)
  {
    incoming := map n | n in CanvasIds(c) :: [];
    for k := 0 to |c.edges|
      invariant incoming.Keys == Members(CanvasIds(c))
      invariant forall n | n in incoming :: incoming[n] == EdgesInto(c.edges, n, k)
    {
      var e := c.edges[k];
      if e.target in incoming {
        incoming := incoming[e.target := incoming[e.target] + [e]];
      }
    }
  }

  method AssembleInputs(into: seq<CanvasEdge>, outs: map<NodeId, Handles>) returns (inputs: Handles)
    ensures inputs == Gather(into, outs, |into|)
    ensures Arrive(into, |into|, outs, inputs)
  {
    inputs := map[];
    for k := 0 to |into|
      invariant inputs == Gather(into, outs, k)
    {
      var e := into[k];
      var srcOutputs := if e.source in outs then outs[e.source] else map[];
      inputs := inputs[e.targetHandle := Get(srcOutputs, e.sourceHandle)];
    }
    GatherArrives(into, outs, |into|, inputs);
  }

  /** Run the node at position k of the order, reference included. */
  method RunNode(c: Canvas, lib: Library, s: seq<NodeId>, k: nat, into: seq<CanvasEdge>, outs: map<NodeId, Handles>)
    returns (result: Option<Handles>)
    requires k < |s| && Known(c, s[k]) && into == InEdges(c, s[k])
    ensures result == Compute(c, lib, s[k], outs)
  {
    var node := NodeOf(c, s[k]);
    var inputs := AssembleInputs(into, outs);
    var given := inputs;
    if IsMatcher(node.kind) && "reference" !in inputs {
      var reference := FindReference(s, k, outs);
      if reference.Some? {
        given := inputs["reference" := reference.value];
        ReferenceIsIgnored(lib, node.kind, node.config, inputs, reference.value);
      }
    }
    result := Handle(lib, node.kind, node.config, given);
  }

  // ------------------------------------------------------ the run

  /** Outputs and results after the first k nodes. */
  ghost predicate RanUpTo(c: Canvas, lib: Library, py: Rendering, s: seq<NodeId>, k: nat,
                          outs: map<NodeId, Handles>, results: seq<Fields>, keys: set<string>)
    requires k <= |s| && forall n | n in s :: Known(c, n)
  {
    && RunFirst(c, lib, s, k) == Some(outs)
    && (forall n | n in outs :: n in s[..k])
    && results == Results(py, Emitted(c, outs, s, k))
    && (forall key :: key in keys <==> HasKey(py, Emitted(c, outs, s, k), key))
  }

  lemma SkipNode(c: Canvas, lib: Library, py: Rendering, s: seq<NodeId>, k: nat,
                 outs: map<NodeId, Handles>, results: seq<Fields>, keys: set<string>)
    requires k < |s| && forall n | n in s :: Known(c, n)
    requires RanUpTo(c, lib, py, s, k, outs, results, keys) && !Runnable(c, s[k])
    ensures RanUpTo(c, lib, py, s, k + 1, outs, results, keys)
  {
    assert s[..k + 1] == s[..k] + [s[k]];
  }

  /** What is emitted once node k has run: what was emitted before, then its own emission. */
  lemma EmittedNext(c: Canvas, s: seq<NodeId>, k: nat, outs: map<NodeId, Handles>, o: Handles)
    requires Distinct(s) && k < |s| && (forall n | n in outs :: n in s[..k]) && Runnable(c, s[k])
    ensures var after := outs[s[k] := o];
            var before := Emitted(c, outs, s, k);
            var v := Get(o, "out");
            Emitted(c, after, s, k + 1) ==
              if Emits(NodeOf(c, s[k]).kind) && v.Dict? then before + [v.fields] else before
  {
    NotBefore(s, k);
    EmittedSoFar(c, outs, outs[s[k] := o], s, k);
  }

  /** Results and keys follow the node's own emission. */
  ghost predicate EmissionAdded(c: Canvas, py: Rendering, n: NodeId, o: Handles, es: seq<Fields>,
                                results: seq<Fields>, keys: set<string>)
    requires Known(c, n)
  {
    var v := Get(o, "out");
    var es' := if Emits(NodeOf(c, n).kind) && v.Dict? then es + [v.fields] else es;
    results == Results(py, es') && forall key :: key in keys <==> HasKey(py, es', key)
  }

  lemma NodeRan(c: Canvas, lib: Library, py: Rendering, s: seq<NodeId>, k: nat, outs: map<NodeId, Handles>,
                results0: seq<Fields>, keys0: set<string>, o: Handles, results: seq<Fields>, keys: set<string>)
    requires Distinct(s) && k < |s| && (forall n | n in s :: Known(c, n)) && Runnable(c, s[k])
    requires RanUpTo(c, lib, py, s, k, outs, results0, keys0)
    requires Compute(c, lib, s[k], outs) == Some(o)
    requires EmissionAdded(c, py, s[k], o, Emitted(c, outs, s, k), results, keys)
    ensures RanUpTo(c, lib, py, s, k + 1, outs[s[k] := o], results, keys)
  {
    EmittedNext(c, s, k, outs, o);
    OutputAdded(c, lib, s, k, outs, o);
  }

  lemma OutputAdded(c: Canvas, lib: Library, s: seq<NodeId>, k: nat, outs: map<NodeId, Handles>, o: Handles)
    requires k < |s| && (forall n | n in s :: Known(c, n)) && Runnable(c, s[k])
    requires RunFirst(c, lib, s, k) == Some(outs) && (forall n | n in outs :: n in s[..k])
    requires Known(c, s[k]) && Compute(c, lib, s[k], outs) == Some(o)
    ensures RunFirst(c, lib, s, k + 1) == Some(outs[s[k] := o])
    ensures var after := outs[s[k] := o]; forall n | n in after :: n in s[..k + 1]
  {
    assert s[..k + 1] == s[..k] + [s[k]];
  }

  /** Run the node at position k and emit what it puts out. */
  method Advance(c: Canvas, lib: Library, py: Rendering, s: seq<NodeId>, k: nat, into: seq<CanvasEdge>,
                 outs: map<NodeId, Handles>, results0: seq<Fields>, keys0: set<string>)
    returns (result: Option<Handles>, results: seq<Fields>, keys: set<string>)
    requires Distinct(s) && k < |s| && (forall n | n in s :: Known(c, n)) && Runnable(c, s[k])
    requires into == InEdges(c, s[k]) && RanUpTo(c, lib, py, s, k, outs, results0, keys0)
    ensures result == Compute(c, lib, s[k], outs)
    ensures result.Some? ==> RanUpTo(c, lib, py, s, k + 1, outs[s[k] := result.value], results, keys)
  {
    results, keys := results0, keys0;
    assert s[k] in s;
    result := RunNode(c, lib, s, k, into, outs);
    if result.None? {
      return;
    }
    if Emits(NodeOf(c, s[k]).kind) {
      results, keys := Emit(py, Get(result.value, "out"), results, keys, Emitted(c, outs, s, k));
    }
    NodeRan(c, lib, py, s, k, outs, results0, keys0, result.value, results, keys);
  }

  method ExecuteCanvas(c: Canvas, lib: Library, py: Rendering) returns (matches: Option<seq<Fields>>)
    requires Distinct(CanvasIds(c))
    ensures matches == Matches(c, lib, py)
    ensures matches.Some? ==>
              exists outs, at :: Executed(c, lib, py, Order(CanvasGraph(c)), outs, matches.value, at)
  {
    OrderKnown(c);
    var incoming := IncomingTable(c);
    var sorted := TopologicalSort(CanvasGraph(c));
    var outputs: map<NodeId, Handles> := map[];
    var results: seq<Fields> := [];
    var emittedKeys: set<string> := {};
    for k := 0 to |sorted|
      invariant RanUpTo(c, lib, py, sorted, k, outputs, results, emittedKeys)
    {
      var nid := sorted[k];
      assert nid in sorted && nid in CanvasIds(c);
      if NodeOf(c, nid).kind.Unregistered? {
        SkipNode(c, lib, py, sorted, k, outputs, results, emittedKeys);
        continue;
      }
      var result;
      result, results, emittedKeys := Advance(c, lib, py, sorted, k, incoming[nid], outputs, results, emittedKeys);
      if result.None? {
        FailureIsFinal(c, lib, sorted, k + 1);
        return None;
      }
      outputs := outputs[nid := result.value];
    }
    MatchesExecuted(c, lib, py);
    return Some(results);
  }

  lemma {:induction false} FailureIsFinal(c: Canvas, lib: Library, s: seq<NodeId>, k: nat)
    requires k <= |s| && (forall n | n in s :: Known(c, n)) && RunFirst(c, lib, s, k).None?
    ensures RunFirst(c, lib, s, |s|).None?
    decreases |s| - k
  {
    if k < |s| {
      FailureIsFinal(c, lib, s, k + 1);
    }
  }
}
