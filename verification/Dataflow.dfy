/** What a rule graph computes: node handlers, the inputs edges deliver, and the dataflow equations. */
module Dataflow {
  import opened Wrappers
  import opened Values
  import opened Graphs
  import opened KahnOrder
  import opened Rules
  import opened Parser

  /** Values by handle. */
  type Handles = map<string, Value>

  /** The parts of a handler that depend on libraries: choosing among candidates, and every other node
      type. None stands for an exception. The track is fixed. */
  datatype Library = Library(
    pick: (NodeType, Config, seq<Value>) -> Option<Value>,
    other: (NodeType, Config, Handles) -> Option<Handles>)

  predicate IsMatcher(kind: NodeType) {
    kind.MatchMbid? || kind.MatchFuzzy? || kind.MatchAlbum? || kind.MatchComposite?
  }

  /** The one input a match node reads. */
  function CandidatesOf(kind: NodeType, inputs: Handles): Value {
    if kind.MatchMbid? || kind.MatchAlbum? then
      if Truthy(Get(inputs, "candidates")) then Get(inputs, "candidates") else List([])
    else if "candidates" in inputs then inputs["candidates"]
    else if "in" in inputs then inputs["in"]
    else List([])
  }

  function Handle(lib: Library, kind: NodeType, config: Config, inputs: Handles): Option<Handles> {
    if IsMatcher(kind) then
      var candidates := CandidatesOf(kind, inputs);
      if candidates.List? && candidates.items != [] then
        var chosen := lib.pick(kind, config, candidates.items);
        if chosen.Some? then Some(map["out" := chosen.value]) else None
      else Some(map["out" := Null])
    else if kind.MatchOutput? then Some(map["out" := Get(inputs, "in")])
    else lib.other(kind, config, inputs)
  }

  /** Match nodes never look at the reference the executor adds to their inputs. */
  lemma ReferenceIsIgnored(lib: Library, kind: NodeType, config: Config, inputs: Handles, v: Value)
    requires IsMatcher(kind)
    ensures Handle(lib, kind, config, inputs["reference" := v]) == Handle(lib, kind, config, inputs)
  {
    assert "candidates" != "reference" && "in" != "reference";
    assert Get(inputs["reference" := v], "candidates") == Get(inputs, "candidates");
  }

  /** Which input a match node works on: the list under "candidates"; composite and fuzzy matching fall back to the
      list under "in", the other two do not; and without a non-empty list nothing is picked. */
  lemma MatchersRead(lib: Library, kind: NodeType, config: Config, inputs: Handles, items: seq<Value>)
    requires IsMatcher(kind) && items != []
    ensures "candidates" in inputs && inputs["candidates"] == List(items) ==>
              Handle(lib, kind, config, inputs) == PutOut(lib.pick(kind, config, items))
    ensures "candidates" !in inputs && "in" in inputs && inputs["in"] == List(items) ==>
              Handle(lib, kind, config, inputs) ==
                if kind == MatchComposite || kind == MatchFuzzy then PutOut(lib.pick(kind, config, items))
                else Some(map["out" := Null])
    ensures "candidates" !in inputs && "in" !in inputs ==> Handle(lib, kind, config, inputs) == Some(map["out" := Null])
    ensures "candidates" in inputs && (!inputs["candidates"].List? || inputs["candidates"] == List([])) ==>
              Handle(lib, kind, config, inputs) == Some(map["out" := Null])
  {
  }

  /** A handler's choice under the "out" handle. */
  function PutOut(chosen: Option<Value>): Option<Handles> {
    if chosen.Some? then Some(map["out" := chosen.value]) else None
  }

  /** An output node passes on what arrives at "in", and nothing else. */
  lemma OutputPasses(lib: Library, config: Config, inputs: Handles)
    ensures Handle(lib, MatchOutput, config, inputs) ==
              Some(map["out" := if "in" in inputs then inputs["in"] else Null])
  {
  }

  // ------------------------------------------------------ a canvas as a graph

  function CanvasIds(c: Canvas): (ids: seq<NodeId>)
    ensures |ids| == |c.nodes| && forall i | 0 <= i < |ids| :: ids[i] == c.nodes[i].id
  {
    seq(|c.nodes|, i requires 0 <= i < |c.nodes| => c.nodes[i].id)
  }

  function CanvasArcs(c: Canvas): (arcs: seq<Arc>)
    ensures |arcs| == |c.edges| && forall i | 0 <= i < |arcs| :: arcs[i] == Arc(c.edges[i].source, c.edges[i].target)
  {
    seq(|c.edges|, i requires 0 <= i < |c.edges| => Arc(c.edges[i].source, c.edges[i].target))
  }

  function CanvasGraph(c: Canvas): Graph {
    Graph(CanvasIds(c), CanvasArcs(c))
  }

  /** The node with the given id; the last one, should there be several. */
  function NodeNamed(nodes: seq<CanvasNode>, id: NodeId, k: nat): CanvasNode
    requires k <= |nodes| && exists i :: 0 <= i < k && nodes[i].id == id
    decreases k
  {
    if nodes[k - 1].id == id then nodes[k - 1] else NodeNamed(nodes, id, k - 1)
  }

  predicate Known(c: Canvas, id: NodeId) {
    exists i :: 0 <= i < |c.nodes| && c.nodes[i].id == id
  }

  function NodeOf(c: Canvas, id: NodeId): CanvasNode
    requires Known(c, id)
  {
    NodeNamed(c.nodes, id, |c.nodes|)
  }

  lemma {:induction false} NamedIs(nodes: seq<CanvasNode>, id: NodeId, k: nat)
    requires k <= |nodes| && exists i :: 0 <= i < k && nodes[i].id == id
    ensures NodeNamed(nodes, id, k) in nodes && NodeNamed(nodes, id, k).id == id
    decreases k
  {
    if nodes[k - 1].id != id {
      NamedIs(nodes, id, k - 1);
    }
  }

  /** A node's type and configuration are its own. */
  lemma NodeOfIs(c: Canvas, n: CanvasNode)
    requires Distinct(CanvasIds(c)) && n in c.nodes
    ensures Known(c, n.id) && NodeOf(c, n.id) == n
  {
    var i :| 0 <= i < |c.nodes| && c.nodes[i] == n;
    assert c.nodes[i].id == n.id;
    NamedIs(c.nodes, n.id, |c.nodes|);
    var j :| 0 <= j < |c.nodes| && c.nodes[j] == NodeOf(c, n.id);
    var ids := CanvasIds(c);
    assert ids[i] == c.nodes[i].id && ids[j] == c.nodes[j].id;
  }

  /** Those of the first k edges that enter n, in definition order. */
  function EdgesInto(edges: seq<CanvasEdge>, n: NodeId, k: nat): seq<CanvasEdge>
    requires k <= |edges|
  {
    if k == 0 then []
    else
      var rest := EdgesInto(edges, n, k - 1);
      if edges[k - 1].target == n then rest + [edges[k - 1]] else rest
  }

  function InEdges(c: Canvas, n: NodeId): seq<CanvasEdge> {
    EdgesInto(c.edges, n, |c.edges|)
  }

  // ------------------------------------------------------ one node

  /** What an edge delivers: Null when its source has no such output, or did not run. */
  function Delivered(outs: map<NodeId, Handles>, e: CanvasEdge): Value {
    if e.source in outs then Get(outs[e.source], e.sourceHandle) else Null
  }

  /** Inputs collected from the first k edges; a later edge into the same handle wins. */
  function Gather(into: seq<CanvasEdge>, outs: map<NodeId, Handles>, k: nat): Handles
    requires k <= |into|
  {
    if k == 0 then map[] else Gather(into, outs, k - 1)[into[k - 1].targetHandle := Delivered(outs, into[k - 1])]
  }

  predicate Runnable(c: Canvas, n: NodeId) {
    Known(c, n) && !NodeOf(c, n).kind.Unregistered?
  }

  /** The outputs of n, given those of its predecessors. */
  function Compute(c: Canvas, lib: Library, n: NodeId, outs: map<NodeId, Handles>): Option<Handles>
    requires Known(c, n)
  {
    var node := NodeOf(c, n);
    var into := InEdges(c, n);
    Handle(lib, node.kind, node.config, Gather(into, outs, |into|))
  }

  // ------------------------------------------------------ where values arrive

  /** Among the first k edges none after edge i has its target handle. */
  predicate LastInto(into: seq<CanvasEdge>, k: nat, i: nat)
    requires i < k <= |into|
  {
    forall j | i < j < k :: into[j].targetHandle != into[i].targetHandle
  }

  ghost predicate HandlesOf(into: seq<CanvasEdge>, k: nat, inputs: Handles)
    requires k <= |into|
  {
    forall h :: h in inputs <==> exists i | 0 <= i < k :: into[i].targetHandle == h
  }

  /** The edge brings the output that stands under its source handle, or Null when there is none. */
  predicate Brings(e: CanvasEdge, outs: map<NodeId, Handles>, inputs: Handles) {
    e.targetHandle in inputs &&
    inputs[e.targetHandle] ==
      if e.source in outs && e.sourceHandle in outs[e.source] then outs[e.source][e.sourceHandle] else Null
  }

  /** A handle has an input exactly when one of the first k edges ends there, and the last such edge brings it. */
  ghost predicate Arrive(into: seq<CanvasEdge>, k: nat, outs: map<NodeId, Handles>, inputs: Handles)
    requires k <= |into|
  {
    HandlesOf(into, k, inputs) && forall i: nat | i < k && LastInto(into, k, i) :: Brings(into[i], outs, inputs)
  }

  lemma {:induction false} GatherPrefix(
    into: seq<CanvasEdge>, more: seq<CanvasEdge>, outs: map<NodeId, Handles>, k: nat)
    requires k <= |into|
    ensures Gather(into + more, outs, k) == Gather(into, outs, k)
  {
    if k > 0 {
      GatherPrefix(into, more, outs, k - 1);
    }
  }

  lemma ArriveNext(into: seq<CanvasEdge>, k: nat, outs: map<NodeId, Handles>, inputs: Handles)
    requires k < |into| && Arrive(into, k, outs, inputs)
    ensures Arrive(into, k + 1, outs, inputs[into[k].targetHandle := Delivered(outs, into[k])])
  {
    var after := inputs[into[k].targetHandle := Delivered(outs, into[k])];
    forall i: nat | i < k + 1 && LastInto(into, k + 1, i)
      ensures Brings(into[i], outs, after)
    {
      if i < k {
        assert into[k].targetHandle != into[i].targetHandle;
        assert LastInto(into, k, i) && Brings(into[i], outs, inputs);
      }
    }
  }

  lemma {:induction false} GatherArrives(into: seq<CanvasEdge>, outs: map<NodeId, Handles>, k: nat, inputs: Handles)
    requires k <= |into| && inputs == Gather(into, outs, k)
    ensures Arrive(into, k, outs, inputs)
    decreases k
  {
    if k > 0 {
      var before := Gather(into, outs, k - 1);
      GatherArrives(into, outs, k - 1, before);
      ArriveNext(into, k - 1, outs, before);
    }
  }

  /** The same over the canvas: of the first k edges, edge i is the last into its handle of node n. */
  predicate LastFor(edges: seq<CanvasEdge>, k: nat, n: NodeId, i: nat)
    requires i < k <= |edges|
  {
    edges[i].target == n && forall j | i < j < k :: !Enters(edges[j], n, edges[i].targetHandle)
  }

  predicate Enters(e: CanvasEdge, n: NodeId, h: string) {
    e.target == n && e.targetHandle == h
  }

  ghost predicate KeysAt(edges: seq<CanvasEdge>, k: nat, n: NodeId, inputs: Handles)
    requires k <= |edges|
  {
    forall h :: h in inputs <==> exists i | 0 <= i < k :: Enters(edges[i], n, h)
  }

  /** The inputs that the first k edges bring to n, said of the edges themselves. */
  ghost predicate InputsAt(edges: seq<CanvasEdge>, k: nat, n: NodeId, outs: map<NodeId, Handles>, inputs: Handles)
    requires k <= |edges|
  {
    KeysAt(edges, k, n, inputs) && ValuesAt(edges, k, n, outs, inputs)
  }

  ghost predicate ValuesAt(edges: seq<CanvasEdge>, k: nat, n: NodeId, outs: map<NodeId, Handles>, inputs: Handles)
    requires k <= |edges|
  {
    forall i: nat | i < k && LastFor(edges, k, n, i) :: Brings(edges[i], outs, inputs)
  }

  lemma KeysNext(edges: seq<CanvasEdge>, k: nat, n: NodeId, inputs: Handles, after: Handles, v: Value)
    requires k < |edges| && KeysAt(edges, k, n, inputs)
    requires after == if edges[k].target == n then inputs[edges[k].targetHandle := v] else inputs
    ensures KeysAt(edges, k + 1, n, after)
  {
    forall h
      ensures h in after <==> exists i | 0 <= i < k + 1 :: Enters(edges[i], n, h)
    {
      assert h in after <==> h in inputs || Enters(edges[k], n, h);
    }
  }

  lemma ValuesNext(
    edges: seq<CanvasEdge>, k: nat, n: NodeId, outs: map<NodeId, Handles>, inputs: Handles, after: Handles)
    requires k < |edges| && ValuesAt(edges, k, n, outs, inputs)
    requires var e := edges[k];
             after == if e.target == n then inputs[e.targetHandle := Delivered(outs, e)] else inputs
    ensures ValuesAt(edges, k + 1, n, outs, after)
  {
    forall i: nat | i < k + 1 && LastFor(edges, k + 1, n, i)
      ensures Brings(edges[i], outs, after)
    {
      if i < k {
        assert !Enters(edges[k], n, edges[i].targetHandle);
        assert LastFor(edges, k, n, i);
        assert Brings(edges[i], outs, inputs);
      }
    }
  }

  lemma InputsNext(
    edges: seq<CanvasEdge>, k: nat, n: NodeId, outs: map<NodeId, Handles>, inputs: Handles, after: Handles)
    requires k < |edges| && InputsAt(edges, k, n, outs, inputs)
    requires var e := edges[k];
             after == if e.target == n then inputs[e.targetHandle := Delivered(outs, e)] else inputs
    ensures InputsAt(edges, k + 1, n, outs, after)
  {
    KeysNext(edges, k, n, inputs, after, Delivered(outs, edges[k]));
    ValuesNext(edges, k, n, outs, inputs, after);
  }

  lemma {:induction false} GatheredInputs(
    edges: seq<CanvasEdge>, k: nat, n: NodeId, outs: map<NodeId, Handles>, into: seq<CanvasEdge>, inputs: Handles)
    requires k <= |edges| && into == EdgesInto(edges, n, k) && inputs == Gather(into, outs, |into|)
    ensures InputsAt(edges, k, n, outs, inputs)
    decreases k
  {
    if k == 0 {
      NoInputs(edges, n, outs);
    } else {
      var rest := EdgesInto(edges, n, k - 1);
      var before := Gather(rest, outs, |rest|);
      GatherNext(edges, k - 1, n, outs, rest, into);
      GatheredInputs(edges, k - 1, n, outs, rest, before);
      InputsNext(edges, k - 1, n, outs, before, inputs);
    }
  }

  lemma NoInputs(edges: seq<CanvasEdge>, n: NodeId, outs: map<NodeId, Handles>)
    ensures InputsAt(edges, 0, n, outs, map[])
  {
  }

  lemma GatherNext(edges: seq<CanvasEdge>, k: nat, n: NodeId, outs: map<NodeId, Handles>, rest: seq<CanvasEdge>,
                   into: seq<CanvasEdge>)
    requires k < |edges| && rest == EdgesInto(edges, n, k) && into == EdgesInto(edges, n, k + 1)
    ensures var e, before := edges[k], Gather(rest, outs, |rest|);
            Gather(into, outs, |into|) ==
              if e.target == n then before[e.targetHandle := Delivered(outs, e)] else before
  {
    if edges[k].target == n {
      assert into == rest + [edges[k]];
      GatherLast(rest, edges[k], outs);
    }
  }

  lemma GatherLast(rest: seq<CanvasEdge>, e: CanvasEdge, outs: map<NodeId, Handles>)
    ensures Gather(rest + [e], outs, |rest| + 1) == Gather(rest, outs, |rest|)[e.targetHandle := Delivered(outs, e)]
  {
    GatherPrefix(rest, [e], outs, |rest|);
  }

  lemma {:induction false} LastEntering(edges: seq<CanvasEdge>, n: NodeId, h: string, k: nat) returns (i: nat)
    requires k <= |edges| && exists j | 0 <= j < k :: Enters(edges[j], n, h)
    requires forall j | k <= j < |edges| :: !Enters(edges[j], n, h)
    ensures i < |edges| && Enters(edges[i], n, h) && LastFor(edges, |edges|, n, i)
  {
    if Enters(edges[k - 1], n, h) {
      i := k - 1;
    } else {
      i := LastEntering(edges, n, h, k - 1);
    }
  }

  /** The edges leave no choice. */
  lemma InputsUnique(edges: seq<CanvasEdge>, n: NodeId, outs: map<NodeId, Handles>, i1: Handles, i2: Handles)
    requires InputsAt(edges, |edges|, n, outs, i1) && InputsAt(edges, |edges|, n, outs, i2)
    ensures i1 == i2
  {
    forall h | h in i1
      ensures h in i2 && i1[h] == i2[h]
    {
      var i := LastEntering(edges, n, h, |edges|);
      assert Brings(edges[i], outs, i1) && Brings(edges[i], outs, i2);
    }
    assert forall h :: h in i1 <==> h in i2;
  }

  /** What the equation of a node says, in terms of the canvas alone: its outputs are its handler's answer to the
      values that the edges into it bring, each at its target handle. */
  lemma EquationMeans(c: Canvas, lib: Library, n: NodeId, outs: map<NodeId, Handles>)
    ensures Equation(c, lib, n, outs) <==>
              && n in outs && Known(c, n)
              && exists inputs :: InputsAt(c.edges, |c.edges|, n, outs, inputs) &&
                                  Handle(lib, NodeOf(c, n).kind, NodeOf(c, n).config, inputs) == Some(outs[n])
  {
    var into := InEdges(c, n);
    var gathered := Gather(into, outs, |into|);
    GatheredInputs(c.edges, |c.edges|, n, outs, into, gathered);
    forall inputs | InputsAt(c.edges, |c.edges|, n, outs, inputs)
      ensures inputs == gathered
    {
      InputsUnique(c.edges, n, outs, inputs, gathered);
    }
  }

  /** outs satisfies the dataflow equation of every runnable node of done, and mentions no other node. */
  ghost predicate Solves(c: Canvas, lib: Library, done: seq<NodeId>, outs: map<NodeId, Handles>) {
    && (forall n :: n in outs <==> n in done && Runnable(c, n))
    && (forall n | n in outs :: Equation(c, lib, n, outs))
  }

  ghost predicate Equation(c: Canvas, lib: Library, n: NodeId, outs: map<NodeId, Handles>) {
    n in outs && Known(c, n) && Compute(c, lib, n, outs) == Some(outs[n])
  }

  // ------------------------------------------------------ step by step

  /** Outputs after the first k nodes of s have run one after the other; None once a handler failed. */
  function RunFirst(c: Canvas, lib: Library, s: seq<NodeId>, k: nat): Option<map<NodeId, Handles>>
    requires k <= |s| && forall n | n in s :: Known(c, n)
  {
    if k == 0 then Some(map[])
    else
      var before := RunFirst(c, lib, s, k - 1);
      if before.None? then None
      else if !Runnable(c, s[k - 1]) then before
      else
        var result := Compute(c, lib, s[k - 1], before.value);
        if result.None? then None else Some(before.value[s[k - 1] := result.value])
  }

  // ------------------------------------------------------ locality

  ghost predicate Agree(done: seq<NodeId>, o1: map<NodeId, Handles>, o2: map<NodeId, Handles>) {
    forall n | n in done :: (n in o1 <==> n in o2) && (n in o1 ==> o1[n] == o2[n])
  }

  lemma {:induction false} EdgesIntoAre(c: Canvas, n: NodeId, k: nat)
    requires k <= |c.edges|
    ensures forall e | e in EdgesInto(c.edges, n, k) :: e in c.edges && e.target == n
  {
    if k > 0 {
      EdgesIntoAre(c, n, k - 1);
    }
  }

  lemma {:induction false} GatherLocal(into: seq<CanvasEdge>, done: seq<NodeId>, o1: map<NodeId, Handles>,
                                       o2: map<NodeId, Handles>, k: nat)
    requires k <= |into| && Agree(done, o1, o2)
    requires forall e | e in into :: e.source in done
    ensures Gather(into, o1, k) == Gather(into, o2, k)
  {
    if k > 0 {
      GatherLocal(into, done, o1, o2, k - 1);
      assert into[k - 1] in into;
    }
  }

  /** A ready node's outputs depend only on the nodes before it. */
  lemma ComputeLocal(c: Canvas, lib: Library, n: NodeId, done: seq<NodeId>, o1: map<NodeId, Handles>,
                     o2: map<NodeId, Handles>)
    requires Known(c, n) && Ready(CanvasGraph(c), done, n) && Agree(done, o1, o2)
    ensures Compute(c, lib, n, o1) == Compute(c, lib, n, o2)
  {
    var into := InEdges(c, n);
    EdgesIntoAre(c, n, |c.edges|);
    forall e | e in into
      ensures e.source in done
    {
      var i :| 0 <= i < |c.edges| && c.edges[i] == e;
      assert CanvasArcs(c)[i] in CanvasArcs(c);
    }
    GatherLocal(into, done, o1, o2, |into|);
  }

  // ------------------------------------------------------ the run is the solution

  lemma TopologicalKnown(c: Canvas, s: seq<NodeId>)
    requires IsTopological(CanvasGraph(c), s)
    ensures forall n | n in s :: Known(c, n)
  {
    forall n | n in s
      ensures Known(c, n)
    {
      var i :| 0 <= i < |CanvasIds(c)| && CanvasIds(c)[i] == n;
      assert c.nodes[i].id == n;
    }
  }

  lemma SolvesNext(c: Canvas, lib: Library, done: seq<NodeId>, n: NodeId, outs: map<NodeId, Handles>, o: Handles)
    requires Solves(c, lib, done, outs) && n !in done && Runnable(c, n)
    requires forall m | m in done :: Ready(CanvasGraph(c), done, m)
    requires Ready(CanvasGraph(c), done, n) && Compute(c, lib, n, outs) == Some(o)
    ensures Solves(c, lib, done + [n], outs[n := o])
  {
    var after := outs[n := o];
    assert Agree(done, outs, after);
    forall m | m in after
      ensures Equation(c, lib, m, after)
    {
      if m == n {
        ComputeLocal(c, lib, n, done, outs, after);
      } else {
        assert Equation(c, lib, m, outs);
        ComputeLocal(c, lib, m, done, outs, after);
      }
    }
  }

  lemma PrefixReady(g: Graph, s: seq<NodeId>, k: nat)
    requires IsTopological(g, s) && k <= |s|
    ensures forall m | m in s[..k] :: Ready(g, s[..k], m)
  {
    forall m | m in s[..k]
      ensures Ready(g, s[..k], m)
    {
      var i :| 0 <= i < k && s[i] == m;
      assert Ready(g, s[..i], s[i]);
      assert forall x | x in s[..i] :: x in s[..k];
    }
  }

  lemma NotBefore(s: seq<NodeId>, k: nat)
    requires Distinct(s) && k < |s|
    ensures s[k] !in s[..k]
    ensures s[..k + 1] == s[..k] + [s[k]]
  {
  }

  /** Running the nodes one by one, in any topological order, solves the dataflow equations. */
  lemma RunSolves(c: Canvas, lib: Library, s: seq<NodeId>, k: nat)
    requires IsTopological(CanvasGraph(c), s) && k <= |s| && forall n | n in s :: Known(c, n)
    ensures RunFirst(c, lib, s, k).Some? ==> Solves(c, lib, s[..k], RunFirst(c, lib, s, k).value)
  {
    if RunFirst(c, lib, s, k).Some? {
      OutputsSolve(c, lib, s, k, RunFirst(c, lib, s, k).value);
    }
  }

  lemma {:induction false} OutputsSolve(c: Canvas, lib: Library, s: seq<NodeId>, k: nat, outs: map<NodeId, Handles>)
    requires IsTopological(CanvasGraph(c), s) && k <= |s| && forall n | n in s :: Known(c, n)
    requires RunFirst(c, lib, s, k) == Some(outs)
    ensures Solves(c, lib, s[..k], outs)
    decreases k
  {
    if k > 0 {
      var before := RunFirst(c, lib, s, k - 1);
      assert before.Some? && s[k - 1] in s;
      OutputsSolve(c, lib, s, k - 1, before.value);
      RunStepSolves(c, lib, s, k - 1, before.value, outs);
    }
  }

  /** One more node run. */
  lemma RunStepSolves(c: Canvas, lib: Library, s: seq<NodeId>, k: nat, before: map<NodeId, Handles>,
                      after: map<NodeId, Handles>)
    requires IsTopological(CanvasGraph(c), s) && k < |s| && Known(c, s[k])
    requires Solves(c, lib, s[..k], before)
    requires Runnable(c, s[k]) ==>
               Compute(c, lib, s[k], before).Some? && after == before[s[k] := Compute(c, lib, s[k], before).value]
    requires !Runnable(c, s[k]) ==> after == before
    ensures Solves(c, lib, s[..k + 1], after)
  {
    NotBefore(s, k);
    if Runnable(c, s[k]) {
      PrefixReady(CanvasGraph(c), s, k);
      SolvesNext(c, lib, s[..k], s[k], before, after[s[k]]);
    } else {
      SolvesSkip(c, lib, s[..k], s[k], before);
    }
  }

  lemma SolvesSkip(c: Canvas, lib: Library, done: seq<NodeId>, n: NodeId, outs: map<NodeId, Handles>)
    requires Solves(c, lib, done, outs) && !Runnable(c, n)
    ensures Solves(c, lib, done + [n], outs)
  {
  }

  /** One more node: what it computes from outputs that agree with a solution so far is what the solution says. */
  lemma AgreeNext(
    c: Canvas, lib: Library, s: seq<NodeId>, outs: map<NodeId, Handles>, k: nat, before: map<NodeId, Handles>)
    requires IsTopological(CanvasGraph(c), s) && k < |s| && Solves(c, lib, s, outs)
    requires Agree(s[..k], before, outs) && (forall n | n in before :: n in s[..k])
    ensures Runnable(c, s[k]) ==>
              && s[k] in outs && Known(c, s[k]) && Compute(c, lib, s[k], before) == Some(outs[s[k]])
              && Agree(s[..k + 1], before[s[k] := outs[s[k]]], outs)
    ensures !Runnable(c, s[k]) ==> Agree(s[..k + 1], before, outs)
  {
    var n := s[k];
    NotBefore(s, k);
    assert n in s;
    if Runnable(c, n) {
      assert Equation(c, lib, n, outs);
      ComputeLocal(c, lib, n, s[..k], before, outs);
      AgreeWith(s[..k], n, before, outs);
    } else {
      assert n !in outs && n !in before;
    }
  }

  lemma AgreeWith(done: seq<NodeId>, n: NodeId, before: map<NodeId, Handles>, outs: map<NodeId, Handles>)
    requires Agree(done, before, outs) && n !in done && n in outs
    ensures Agree(done + [n], before[n := outs[n]], outs)
  {
  }

  /** Every solution is what the run computes: there is at most one, and a failing run means none. */
  lemma {:induction false} SolutionIsRun(c: Canvas, lib: Library, s: seq<NodeId>, outs: map<NodeId, Handles>, k: nat)
    requires IsTopological(CanvasGraph(c), s) && k <= |s| && forall n | n in s :: Known(c, n)
    requires Solves(c, lib, s, outs)
    ensures RunFirst(c, lib, s, k).Some? && Agree(s[..k], RunFirst(c, lib, s, k).value, outs)
    ensures forall n | n in RunFirst(c, lib, s, k).value :: n in s[..k]
  {
    if k > 0 {
      SolutionIsRun(c, lib, s, outs, k - 1);
      var before := RunFirst(c, lib, s, k - 1).value;
      AgreeNext(c, lib, s, outs, k - 1, before);
      NotBefore(s, k - 1);
      if Runnable(c, s[k - 1]) {
        assert RunFirst(c, lib, s, k) == Some(before[s[k - 1] := outs[s[k - 1]]]);
      } else {
        assert RunFirst(c, lib, s, k) == Some(before);
      }
    }
  }

  lemma AgreeEqual(done: seq<NodeId>, o1: map<NodeId, Handles>, o2: map<NodeId, Handles>)
    requires Agree(done, o1, o2)
    requires (forall n | n in o1 :: n in done) && (forall n | n in o2 :: n in done)
    ensures o1 == o2
  {
    assert forall n :: n in o1 <==> n in o2;
  }

  lemma SolutionEqualsRun(c: Canvas, lib: Library, s: seq<NodeId>, outs: map<NodeId, Handles>)
    requires IsTopological(CanvasGraph(c), s) && forall n | n in s :: Known(c, n)
    requires Solves(c, lib, s, outs)
    ensures RunFirst(c, lib, s, |s|) == Some(outs)
  {
    SolutionIsRun(c, lib, s, outs, |s|);
    assert s[..|s|] == s;
    AgreeEqual(s, RunFirst(c, lib, s, |s|).value, outs);
  }

  /** Two topological orders of the same nodes compute the same outputs, or both fail. */
  lemma OrderIsIrrelevant(c: Canvas, lib: Library, s: seq<NodeId>, t: seq<NodeId>)
    requires IsTopological(CanvasGraph(c), s) && IsTopological(CanvasGraph(c), t)
    requires forall n :: n in s <==> n in t
    requires forall n | n in s :: Known(c, n)
    ensures RunFirst(c, lib, s, |s|) == RunFirst(c, lib, t, |t|)
  {
    var rs, rt := RunFirst(c, lib, s, |s|), RunFirst(c, lib, t, |t|);
    RunSolves(c, lib, s, |s|);
    RunSolves(c, lib, t, |t|);
    assert s[..|s|] == s && t[..|t|] == t;
    if rs.Some? {
      SolutionEqualsRun(c, lib, t, rs.value);
    } else if rt.Some? {
      SolutionEqualsRun(c, lib, s, rt.value);
    }
  }
}
