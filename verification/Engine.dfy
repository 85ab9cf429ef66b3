/** The match engine: all rules in priority order, a failing rule contributing nothing. */
module Engine {
  import opened Wrappers
  import opened Values
  import opened Graphs
  import opened KahnOrder
  import opened Grid
  import opened Layout
  import opened ExecutionOrder
  import opened Rules
  import opened Validator
  import opened AcceptedRules
  import opened Parser
  import opened Dataflow
  import opened Emission
  import opened Executor

  datatype RuleRow = RuleRow(id: int, name: string, priority: int, raw: RawRule)

  /** The canvas of an accepted rule. */
  ghost function DrawnCanvas(rule: RuleDefinition): Canvas
    requires Accepted(rule)
  {
    AcceptedSettles(rule);
    CanvasOf(rule, Drawing(GraphOf(rule)))
  }

  lemma CanvasKeepsGraph(rule: RuleDefinition, positions: map<NodeId, Position>)
    ensures CanvasGraph(CanvasOf(rule, positions)) == GraphOf(rule)
  {
    var c := CanvasOf(rule, positions);
    assert CanvasIds(c) == NodeIds(rule.nodes);
    assert CanvasArcs(c) == Arcs(rule.edges);
  }

  // ------------------------------------------------------ running one rule

  /** The matches of an accepted rule; None when a handler fails. */
  ghost function RuleMatches(rule: RuleDefinition, lib: Library, py: Rendering): Option<seq<Fields>>
    requires Accepted(rule)
  {
    AcceptedSettles(rule);
    CanvasKeepsGraph(rule, Drawing(GraphOf(rule)));
    Matches(DrawnCanvas(rule), lib, py)
  }

  /** The order of an accepted rule's canvas is topological and covers its nodes. */
  lemma DrawnOrder(rule: RuleDefinition)
    requires Accepted(rule)
    ensures var g := CanvasGraph(DrawnCanvas(rule));
            && g == GraphOf(rule)
            && IsTopological(g, Order(g))
            && (forall n :: n in Order(g) <==> n in g.ids)
            && (forall n | n in Order(g) :: Known(DrawnCanvas(rule), n))
  {
    AcceptedSettles(rule);
    CanvasKeepsGraph(rule, Drawing(GraphOf(rule)));
    OrderVisitsAll(GraphOf(rule));
    OrderKnown(DrawnCanvas(rule));
  }

  lemma SolvesSameNodes(c: Canvas, lib: Library, s: seq<NodeId>, t: seq<NodeId>, outs: map<NodeId, Handles>)
    requires Solves(c, lib, s, outs) && forall n :: n in s <==> n in t
    ensures Solves(c, lib, t, outs)
  {
  }

  /** A solution of the dataflow equations over all nodes is what the run computes. */
  lemma SolutionIsComputed(c: Canvas, lib: Library, s: seq<NodeId>, ids: seq<NodeId>, outs: map<NodeId, Handles>)
    requires IsTopological(CanvasGraph(c), s) && (forall n | n in s :: Known(c, n)) && forall n :: n in s <==> n in ids
    ensures RunFirst(c, lib, s, |s|) == Some(outs) <==> Solves(c, lib, ids, outs)
  {
    RunSolves(c, lib, s, |s|);
    assert s[..|s|] == s;
    if RunFirst(c, lib, s, |s|) == Some(outs) {
      SolvesSameNodes(c, lib, s, ids, outs);
    }
    if Solves(c, lib, ids, outs) {
      SolvesSameNodes(c, lib, ids, s, outs);
      SolutionEqualsRun(c, lib, s, outs);
    }
  }

  /** outs solves the dataflow equations of the rule: one equation per node, over the rule's edges. */
  ghost predicate SolvesRule(rule: RuleDefinition, lib: Library, outs: map<NodeId, Handles>)
    requires Accepted(rule)
  {
    Solves(DrawnCanvas(rule), lib, GraphOf(rule).ids, outs)
  }

  /** An accepted rule yields matches exactly when its dataflow equations have a solution. */
  lemma MatchesIffSolvable(rule: RuleDefinition, lib: Library, py: Rendering)
    requires Accepted(rule)
    ensures RuleMatches(rule, lib, py).Some? <==> exists outs :: SolvesRule(rule, lib, outs)
  {
    var c, s := DrawnCanvas(rule), Order(GraphOf(rule));
    DrawnOrder(rule);
    if outs :| SolvesRule(rule, lib, outs) {
      SolutionIsComputed(c, lib, s, GraphOf(rule).ids, outs);
    } else if RunFirst(c, lib, s, |s|).Some? {
      var outs := RunFirst(c, lib, s, |s|).value;
      SolutionIsComputed(c, lib, s, GraphOf(rule).ids, outs);
      assert SolvesRule(rule, lib, outs);
    }
  }

  lemma SolutionUnique(rule: RuleDefinition, lib: Library, o1: map<NodeId, Handles>, o2: map<NodeId, Handles>)
    requires Accepted(rule) && SolvesRule(rule, lib, o1) && SolvesRule(rule, lib, o2)
    ensures o1 == o2
  {
    var c, s := DrawnCanvas(rule), Order(GraphOf(rule));
    DrawnOrder(rule);
    SolutionIsComputed(c, lib, s, GraphOf(rule).ids, o1);
    SolutionIsComputed(c, lib, s, GraphOf(rule).ids, o2);
  }

  /** A key is matched exactly when some node of the rule emits it in the solution, and never twice. */
  lemma KeysOfSolution(rule: RuleDefinition, lib: Library, py: Rendering, outs: map<NodeId, Handles>, key: string)
    requires Accepted(rule) && SolvesRule(rule, lib, outs)
    ensures var c := DrawnCanvas(rule);
            var matches := RuleMatches(rule, lib, py);
            && matches.Some? && NoKeyTwice(py, matches.value)
            && (HasKey(py, matches.value, key) <==>
                exists n :: n in GraphOf(rule).ids && EmissionOf(c, outs, n).Some? &&
                            KeyOf(py, EmissionOf(c, outs, n).value) == key)
  {
    var c, s := DrawnCanvas(rule), Order(GraphOf(rule));
    DrawnOrder(rule);
    SolutionIsComputed(c, lib, s, GraphOf(rule).ids, outs);
    KeysFromNodes(c, py, outs, s, key);
    var es := Emitted(c, outs, s, |s|);
    ResultsNoKeyTwice(py, es, |es|);
  }

  /** Any other topological order of the rule's nodes computes the same outputs and matches the same keys. */
  lemma AnyOrderWillDo(rule: RuleDefinition, lib: Library, py: Rendering, t: seq<NodeId>, key: string)
    requires Accepted(rule) && IsTopological(GraphOf(rule), t)
    requires forall n :: n in t <==> n in GraphOf(rule).ids
    ensures forall n | n in t :: Known(DrawnCanvas(rule), n)
    ensures var c, s := DrawnCanvas(rule), Order(GraphOf(rule));
            var outs := RunFirst(c, lib, t, |t|);
            && (outs.None? <==> RuleMatches(rule, lib, py).None?)
            && (outs.Some? ==>
                  (HasKey(py, Results(py, Emitted(c, outs.value, t, |t|)), key) <==>
                   HasKey(py, RuleMatches(rule, lib, py).value, key)))
  {
    var c, s := DrawnCanvas(rule), Order(GraphOf(rule));
    DrawnOrder(rule);
    OrderIsIrrelevant(c, lib, s, t);
    var outs := RunFirst(c, lib, t, |t|);
    if outs.Some? {
      KeysFromNodes(c, py, outs.value, s, key);
      KeysFromNodes(c, py, outs.value, t, key);
    }
  }

  // ------------------------------------------------------ running all rules

  function Tag(row: RuleRow, m: Fields): Fields {
    m["_rule_id" := Number(row.id as real)]["_rule_name" := Text(row.name)]
     ["_rule_priority" := Number(row.priority as real)]
  }

  /** A match as the engine hands it on: its fields, and the rule it came from. */
  ghost predicate Tagged(row: RuleRow, was: Fields, m: Fields) {
    && m.Keys == was.Keys + {"_rule_id", "_rule_name", "_rule_priority"}
    && (forall key | key in was && key !in {"_rule_id", "_rule_name", "_rule_priority"} :: m[key] == was[key])
    && m["_rule_id"] == Number(row.id as real)
    && m["_rule_name"] == Text(row.name)
    && m["_rule_priority"] == Number(row.priority as real)
  }

  ghost predicate AllTagged(row: RuleRow, found: seq<Fields>, matches: seq<Fields>) {
    |matches| == |found| && forall i | 0 <= i < |found| :: Tagged(row, found[i], matches[i])
  }

  lemma TagTags(row: RuleRow, m: Fields)
    ensures Tagged(row, m, Tag(row, m))
  {
  }

  lemma {:induction false} TagAllTags(row: RuleRow, matches: seq<Fields>, k: nat)
    requires k <= |matches|
    ensures AllTagged(row, matches[..k], TagAll(row, matches, k))
  {
    if k > 0 {
      TagAllTags(row, matches, k - 1);
      TagTags(row, matches[k - 1]);
    }
  }

  ghost predicate IsAccepted(raw: RawRule) {
    Load(raw).Ok? && Acceptable(Load(raw).value)
  }

  /** What one row contributes: nothing when it is rejected or fails, else its matches, tagged. */
  ghost function Contribution(row: RuleRow, lib: Library, py: Rendering): seq<Fields> {
    if IsAccepted(row.raw) then
      LoadedIsWellFormed(row.raw);
      var matches := RuleMatches(Load(row.raw).value, lib, py);
      if matches.None? then [] else TagAll(row, matches.value, |matches.value|)
    else []
  }

  function TagAll(row: RuleRow, matches: seq<Fields>, k: nat): seq<Fields>
    requires k <= |matches|
  {
    if k == 0 then [] else TagAll(row, matches, k - 1) + [Tag(row, matches[k - 1])]
  }

  /** What the first k rows contribute, one after the other. */
  ghost function Chain(f: RuleRow -> seq<Fields>, rows: seq<RuleRow>, k: nat): seq<Fields>
    requires k <= |rows|
  {
    if k == 0 then [] else Chain(f, rows, k - 1) + f(rows[k - 1])
  }

  ghost function AllMatches(rows: seq<RuleRow>, lib: Library, py: Rendering): seq<Fields> {
    Chain(row => Contribution(row, lib, py), rows, |rows|)
  }

  /** Matches of a rule in terms of its equations: under their solution, the first dicts put out with their keys, in
      the order of the sort, each tagged with the row's id, name and priority. */
  ghost predicate FromSolution(row: RuleRow, rule: RuleDefinition, lib: Library, py: Rendering,
                               outs: map<NodeId, Handles>, matches: seq<Fields>)
    requires Accepted(rule)
  {
    var s := Order(GraphOf(rule));
    SolvesRule(rule, lib, outs) &&
    exists found, at :: AreFirsts(DrawnCanvas(rule), py, outs, s, |s|, found, at) && AllTagged(row, found, matches)
  }

  /** What a row contributes, without running it: nothing when it is rejected or its equations have no solution, and
      otherwise what the solution puts out. */
  ghost predicate Contributes(row: RuleRow, lib: Library, py: Rendering, matches: seq<Fields>) {
    if !IsAccepted(row.raw) then matches == []
    else
      LoadedIsWellFormed(row.raw);
      var rule := Load(row.raw).value;
      if exists outs :: SolvesRule(rule, lib, outs)
      then exists outs :: FromSolution(row, rule, lib, py, outs, matches)
      else matches == []
  }

  lemma SolutionContributes(
    row: RuleRow, rule: RuleDefinition, lib: Library, py: Rendering, outs: map<NodeId, Handles>)
    requires Accepted(rule) && SolvesRule(rule, lib, outs)
    ensures var found := RuleMatches(rule, lib, py);
            found.Some? && FromSolution(row, rule, lib, py, outs, TagAll(row, found.value, |found.value|))
  {
    var c, s := DrawnCanvas(rule), Order(GraphOf(rule));
    DrawnOrder(rule);
    SolutionIsComputed(c, lib, s, GraphOf(rule).ids, outs);
    var found := RuleMatches(rule, lib, py).value;
    var at := ResultsAreFirsts(c, py, outs, s, |s|, found);
    TagAllTags(row, found, |found|);
    assert found[..|found|] == found;
    assert AreFirsts(c, py, outs, s, |s|, found, at);
  }

  lemma ContributionContributes(row: RuleRow, lib: Library, py: Rendering)
    ensures Contributes(row, lib, py, Contribution(row, lib, py))
  {
    if IsAccepted(row.raw) {
      LoadedIsWellFormed(row.raw);
      var rule := Load(row.raw).value;
      MatchesIffSolvable(rule, lib, py);
      if outs :| SolvesRule(rule, lib, outs) {
        SolutionContributes(row, rule, lib, py, outs);
      }
    }
  }

  /** Draw and execute an accepted rule. */
  method RunAccepted(rule: RuleDefinition, lib: Library, py: Rendering) returns (matches: Option<seq<Fields>>)
    requires Accepted(rule)
    ensures matches == RuleMatches(rule, lib, py)
  {
    AcceptedSettles(rule);
    var canvas := RuleToCanvas(rule);
    CanvasKeepsGraph(rule, Drawing(GraphOf(rule)));
    matches := ExecuteCanvas(canvas, lib, py);
  }

  method TagMatches(row: RuleRow, found: seq<Fields>) returns (matches: seq<Fields>)
    ensures matches == TagAll(row, found, |found|)
    ensures AllTagged(row, found, matches)
  {
    TagAllTags(row, found, |found|);
    assert found[..|found|] == found;
    matches := [];
    for k := 0 to |found|
      invariant matches == TagAll(row, found, k)
    {
      matches := matches + [Tag(row, found[k])];
    }
  }

  /** Validate, draw and execute one row. */
  method RunRule(row: RuleRow, lib: Library, py: Rendering) returns (matches: seq<Fields>)
    ensures matches == Contribution(row, lib, py)
    ensures Contributes(row, lib, py, matches)
  {
    ContributionContributes(row, lib, py);
    var validated := ValidateRule(row.raw);
    if validated.Err? {
      return [];
    }
    LoadedIsWellFormed(row.raw);
    var found := RunAccepted(validated.value, lib, py);
    if found.None? {
      return [];
    }
    matches := TagMatches(row, found.value);
  }

  /** The parts stand one after the other in all: part i between cuts i and i + 1. */
  ghost predicate AreCuts(parts: seq<seq<Fields>>, all: seq<Fields>, cuts: seq<nat>) {
    && |cuts| == |parts| + 1 && cuts[0] == 0 && cuts[|parts|] == |all|
    && forall i | 0 <= i < |parts| :: CutAt(parts, all, cuts, i)
  }

  ghost predicate CutAt(parts: seq<seq<Fields>>, all: seq<Fields>, cuts: seq<nat>, i: nat)
    requires |cuts| == |parts| + 1 && i < |parts|
  {
    cuts[i] <= cuts[i + 1] <= |all| && all[cuts[i]..cuts[i + 1]] == parts[i]
  }

  lemma CutAnother(parts: seq<seq<Fields>>, all: seq<Fields>, cuts: seq<nat>, part: seq<Fields>)
    requires AreCuts(parts, all, cuts)
    ensures AreCuts(parts + [part], all + part, cuts + [|all| + |part|])
  {
    var more, further := all + part, cuts + [|all| + |part|];
    forall i | 0 <= i < |parts| + 1
      ensures CutAt(parts + [part], more, further, i)
    {
      assert further[i] == cuts[i];
      if i < |parts| {
        assert CutAt(parts, all, cuts, i) && further[i + 1] == cuts[i + 1];
        assert more[cuts[i]..cuts[i + 1]] == all[cuts[i]..cuts[i + 1]];
      }
    }
  }

  /** Each of the first k values belongs to the item at its place. */
  ghost predicate Matching<A, B>(items: seq<A>, k: nat, values: seq<B>, belongs: (A, B) -> bool)
    requires k <= |items|
  {
    |values| == k && forall i | 0 <= i < k :: belongs(items[i], values[i])
  }

  lemma MatchAnother<A, B>(items: seq<A>, k: nat, values: seq<B>, belongs: (A, B) -> bool, value: B)
    requires k < |items| && Matching(items, k, values, belongs) && belongs(items[k], value)
    ensures Matching(items, k + 1, values + [value], belongs)
  {
  }

  /** Every row contributes its part, and the parts are joined in row order. */
  ghost predicate Assembled(rows: seq<RuleRow>, lib: Library, py: Rendering, all: seq<Fields>,
                            parts: seq<seq<Fields>>, cuts: seq<nat>) {
    && Matching(rows, |rows|, parts, (row, part) => Contributes(row, lib, py, part))
    && AreCuts(parts, all, cuts)
  }

  lemma {:induction false} ChainParts(
    f: RuleRow -> seq<Fields>, belongs: (RuleRow, seq<Fields>) -> bool, rows: seq<RuleRow>, k: nat, all: seq<Fields>)
    returns (parts: seq<seq<Fields>>, cuts: seq<nat>)
    requires k <= |rows| && all == Chain(f, rows, k) && forall row :: belongs(row, f(row))
    ensures Matching(rows, k, parts, belongs) && AreCuts(parts, all, cuts)
    decreases k
  {
    parts, cuts := [], [0];
    if k > 0 {
      var before, part := Chain(f, rows, k - 1), f(rows[k - 1]);
      parts, cuts := ChainParts(f, belongs, rows, k - 1, before);
      MatchAnother(rows, k - 1, parts, belongs, part);
      CutAnother(parts, before, cuts, part);
      parts, cuts := parts + [part], cuts + [|before| + |part|];
    }
  }

  lemma AllAssembled(rows: seq<RuleRow>, lib: Library, py: Rendering) returns (parts: seq<seq<Fields>>, cuts: seq<nat>)
    ensures Assembled(rows, lib, py, AllMatches(rows, lib, py), parts, cuts)
  {
    var f := row => Contribution(row, lib, py);
    var belongs := (row, part) => Contributes(row, lib, py, part);
    forall row
      ensures belongs(row, f(row))
    {
      ContributionContributes(row, lib, py);
    }
    parts, cuts := ChainParts(f, belongs, rows, |rows|, AllMatches(rows, lib, py));
  }

  method Run(rows: seq<RuleRow>, lib: Library, py: Rendering) returns (all: seq<Fields>)
    ensures all == AllMatches(rows, lib, py)
    ensures exists parts, cuts :: Assembled(rows, lib, py, all, parts, cuts)
  {
    ghost var f := row => Contribution(row, lib, py);
    all := [];
    for k := 0 to |rows|
      invariant all == Chain(f, rows, k)
    {
      var matches := RunRule(rows[k], lib, py);
      all := all + matches;
    }
    ghost var parts, cuts := AllAssembled(rows, lib, py);
  }

  /** The head of a chain belongs to the first row with a non-empty part. */
  lemma {:induction false} ChainHead(f: RuleRow -> seq<Fields>, rows: seq<RuleRow>, k: nat) returns (i: nat)
    requires k <= |rows| && Chain(f, rows, k) != []
    ensures i < k && Chain(f, rows, i) == [] && f(rows[i]) != [] && Chain(f, rows, k)[0] == f(rows[i])[0]
  {
    if Chain(f, rows, k - 1) == [] {
      i := k - 1;
    } else {
      i := ChainHead(f, rows, k - 1);
    }
  }

  lemma {:induction false} ChainPrefix(f: RuleRow -> seq<Fields>, rows: seq<RuleRow>, i: nat, k: nat)
    requires k <= i <= |rows|
    ensures Chain(f, rows[..i], k) == Chain(f, rows, k)
  {
    if k > 0 {
      ChainPrefix(f, rows, i, k - 1);
    }
  }

  /** The first match is the first one of the first row that contributes any. */
  lemma FirstMatch(rows: seq<RuleRow>, lib: Library, py: Rendering) returns (i: nat)
    requires AllMatches(rows, lib, py) != []
    ensures i < |rows| && Contribution(rows[i], lib, py) != []
    ensures AllMatches(rows, lib, py)[0] == Contribution(rows[i], lib, py)[0]
    ensures AllMatches(rows[..i], lib, py) == []
  {
    var f := row => Contribution(row, lib, py);
    i := ChainHead(f, rows, |rows|);
    ChainPrefix(f, rows, i, i);
  }
}
