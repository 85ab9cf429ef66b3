/** The layout's worklist: it raises each node's layer until every arc goes right. */
module Worklist {
  import opened Graphs
  import opened KahnOrder
  import opened Columns

  /** Layers assigned so far and the nodes whose children are still to be looked at. */
  datatype Work = Work(layer: map<NodeId, nat>, queue: seq<NodeId>)

  // ------------------------------------------------------ one visit, as a function

  function Raise(w: Work, base: nat, c: NodeId): Work {
    if c !in w.layer || w.layer[c] < base + 1 then Work(w.layer[c := base + 1], w.queue + [c]) else w
  }

  /** Raise the children from position i on, one after the other. */
  function Relax(w: Work, base: nat, kids: seq<NodeId>, i: nat): Work
    requires i <= |kids|
    decreases |kids| - i
  {
    if i == |kids| then w else Relax(Raise(w, base, kids[i]), base, kids, i + 1)
  }

  ghost predicate QueueLabelled(w: Work) {
    forall x | x in w.queue :: x in w.layer
  }

  function Visit(g: Graph, w: Work): Work
    requires QueueLabelled(w)
  {
    if w.queue == [] then w
    else
      var current := w.queue[0];
      Relax(Work(w.layer, w.queue[1..]), w.layer[current], Children(g, current), 0)
  }

  /** The parentless nodes, or every node when there are none, at layer 0. */
  function Seed(g: Graph): Work {
    var roots := Roots(g, |g.ids|);
    var seeds := if roots == [] then g.ids else roots;
    Work(map n | n in seeds :: 0, seeds)
  }

  /** The worklist after k visits. */
  ghost function After(g: Graph, k: nat): (w: Work)
    ensures QueueLabelled(w)
  {
    if k == 0 then Seed(g)
    else
      var w := After(g, k - 1);
      if w.queue != [] then
        RelaxFacts(Work(w.layer, w.queue[1..]), w.layer[w.queue[0]], Children(g, w.queue[0]));
        Visit(g, w)
      else w
  }

  // ------------------------------------------------------------- facts about Relax

  /** What raising some children does to the layers: nothing falls, and every child ends right of base. */
  lemma {:induction false} RelaxLayers(w: Work, base: nat, kids: seq<NodeId>, i: nat)
    requires i <= |kids|
    ensures var r := Relax(w, base, kids, i);
            && (forall n :: n in r.layer <==> n in w.layer || n in kids[i..])
            && (forall n | n in w.layer :: r.layer[n] >= w.layer[n])
            && (forall c | c in kids[i..] :: r.layer[c] >= base + 1)
    decreases |kids| - i
  {
    if i < |kids| {
      RelaxLayers(Raise(w, base, kids[i]), base, kids, i + 1);
      assert kids[i..] == [kids[i]] + kids[i + 1..];
    }
  }

  ghost predicate SameLayer(w: Work, r: Work, n: NodeId) {
    n in w.layer && n in r.layer && r.layer[n] == w.layer[n]
  }

  /** What it does to the queue: it only grows, by the children whose layer changed. */
  lemma {:induction false} RelaxQueue(w: Work, base: nat, kids: seq<NodeId>, i: nat)
    requires i <= |kids|
    ensures var r := Relax(w, base, kids, i);
            && (forall x | x in w.queue :: x in r.queue)
            && (forall x | x in r.queue :: x in w.queue || x in kids[i..])
            && (forall n | n in r.layer && !SameLayer(w, r, n) ::
                  n in kids[i..] && n in r.queue && r.layer[n] == base + 1)
    decreases |kids| - i
  {
    if i < |kids| {
      var w' := Raise(w, base, kids[i]);
      var r := Relax(w, base, kids, i);
      RelaxQueue(w', base, kids, i + 1);
      assert kids[i..] == [kids[i]] + kids[i + 1..];
      forall n | n in r.layer && !SameLayer(w, r, n)
        ensures n in kids[i..] && n in r.queue && r.layer[n] == base + 1
      {
        if SameLayer(w', r, n) {
          assert n == kids[i] && n in w'.queue;
        }
      }
    }
  }

  lemma RelaxFacts(w: Work, base: nat, kids: seq<NodeId>)
    ensures var r := Relax(w, base, kids, 0);
            && (forall n :: n in r.layer <==> n in w.layer || n in kids)
            && (forall n | n in w.layer :: r.layer[n] >= w.layer[n])
            && (forall c | c in kids :: r.layer[c] >= base + 1)
            && (forall n | n in r.layer && !SameLayer(w, r, n) ::
                  n in kids && n in r.queue && r.layer[n] == base + 1)
            && (forall x | x in w.queue :: x in r.queue)
    ensures QueueLabelled(w) ==> QueueLabelled(Relax(w, base, kids, 0))
  {
    assert kids[0..] == kids;
    RelaxLayers(w, base, kids, 0);
    RelaxQueue(w, base, kids, 0);
  }

  // ------------------------------------------------------------- invariants

  /** Nodes that are labelled and not queued have all their children strictly right of them. */
  ghost predicate Relaxed(g: Graph, w: Work) {
    forall n, c | n in w.layer && n !in w.queue && HasArc(g, n, c) :: c in w.layer && w.layer[c] >= w.layer[n] + 1
  }

  /** Every layer is the length of some rooted walk. */
  ghost predicate Witnessed(g: Graph, w: Work) {
    forall n | n in w.layer :: exists p :: RootedTo(g, p, n) && |p| == w.layer[n] + 1
  }

  ghost predicate WorkInv(g: Graph, w: Work) {
    && QueueLabelled(w)
    && w.layer.Keys <= Members(g.ids)
    && Seed(g).layer.Keys <= w.layer.Keys
    && Relaxed(g, w)
  }

  lemma SeedInv(g: Graph)
    requires WellFormed(g)
    ensures WorkInv(g, Seed(g))
    ensures Roots(g, |g.ids|) != [] ==> Witnessed(g, Seed(g))
  {
    AllRoots(g);
    if Roots(g, |g.ids|) != [] {
      forall n | n in Seed(g).layer
        ensures exists p :: RootedTo(g, p, n) && |p| == 1
      {
        assert Ready(g, [], n);
        assert RootedTo(g, [n], n);
      }
    }
  }

  lemma VisitRelaxed(g: Graph, w: Work)
    requires QueueLabelled(w) && Relaxed(g, w) && w.queue != []
    ensures Relaxed(g, Visit(g, w))
  {
    var current := w.queue[0];
    var kids := Children(g, current);
    var v := Work(w.layer, w.queue[1..]);
    var r := Relax(v, w.layer[current], kids, 0);
    RelaxFacts(v, w.layer[current], kids);
    forall n, c | n in r.layer && n !in r.queue && HasArc(g, n, c)
      ensures c in r.layer && r.layer[c] >= r.layer[n] + 1
    {
      assert SameLayer(v, r, n);
      if n == current {
        ChildrenAre(g, current, c);
      } else {
        assert n !in w.queue[1..];
        assert w.queue == [current] + w.queue[1..];
      }
    }
  }

  lemma VisitInv(g: Graph, w: Work)
    requires WellFormed(g) && WorkInv(g, w) && w.queue != []
    ensures WorkInv(g, Visit(g, w))
  {
    var current := w.queue[0];
    var kids := Children(g, current);
    RelaxFacts(Work(w.layer, w.queue[1..]), w.layer[current], kids);
    VisitRelaxed(g, w);
    forall c | c in kids
      ensures c in g.ids
    {
      ChildrenAre(g, current, c);
    }
  }

  lemma VisitWitnessed(g: Graph, w: Work)
    requires QueueLabelled(w) && Witnessed(g, w) && w.queue != []
    ensures Witnessed(g, Visit(g, w))
  {
    var current := w.queue[0];
    var kids := Children(g, current);
    var r := Visit(g, w);
    RelaxFacts(Work(w.layer, w.queue[1..]), w.layer[current], kids);
    forall n | n in r.layer
      ensures exists p :: RootedTo(g, p, n) && |p| == r.layer[n] + 1
    {
      if !SameLayer(w, r, n) {
        var p :| RootedTo(g, p, current) && |p| == w.layer[current] + 1;
        ChildrenAre(g, current, n);
        WalkExtend(g, p, n);
        assert RootedTo(g, p + [n], n);
      }
    }
  }

  // ------------------------------------------- when the worklist runs dry

  /** Once nothing is queued, layers rise by at least one per arc along any walk from a labelled node. */
  lemma {:induction false} LayersRise(g: Graph, w: Work, p: seq<NodeId>)
    requires Relaxed(g, w) && w.queue == [] && IsWalk(g, p) && p[0] in w.layer
    ensures forall i | 0 <= i < |p| :: p[i] in w.layer
    ensures forall i, j | 0 <= i <= j < |p| :: w.layer[p[j]] >= w.layer[p[i]] + (j - i)
  {
    if |p| > 1 {
      var q := p[..|p| - 1];
      WalkLast(g, p);
      LayersRise(g, w, q);
      assert forall i | 0 <= i < |q| :: q[i] == p[i];
    }
  }

  /** A dry worklist means no walk from a seed repeats a node. */
  lemma DryMeansNoRepeat(g: Graph, w: Work, p: seq<NodeId>)
    requires WorkInv(g, w) && w.queue == [] && IsWalk(g, p) && p[0] in Seed(g).layer
    ensures Distinct(p)
  {
    LayersRise(g, w, p);
  }

  lemma DryLayerIsColumn(g: Graph, w: Work, n: NodeId)
    requires WellFormed(g) && Settles(g) && WorkInv(g, w) && Witnessed(g, w) && w.queue == []
    ensures Column(g, n) == if n in w.layer then w.layer[n] else 0
  {
    AllRoots(g);
    forall p | RootedTo(g, p, n)
      ensures n in w.layer && |p| <= w.layer[n] + 1
    {
      assert Ready(g, [], p[0]);
      assert p[0] in Seed(g).layer;
      LayersRise(g, w, p);
    }
    assert IsColumn(g, n, if n in w.layer then w.layer[n] else 0);
    ColumnUnique(g, n, Column(g, n), if n in w.layer then w.layer[n] else 0);
  }

  /** The inputs on which the worklist runs dry: nothing to draw, or a parentless node exists and none
      of them leads into a cycle. */
  ghost predicate Halts(g: Graph) {
    g.ids == [] || (Settles(g) && HasRoot(g))
  }

  ghost predicate HasRoot(g: Graph) {
    exists n {:trigger Parentless(g, n)} :: n in g.ids && Parentless(g, n)
  }

  lemma RootsOrNone(g: Graph)
    requires Distinct(g.ids)
    ensures HasRoot(g) <==> Roots(g, |g.ids|) != []
    ensures forall n | n in g.ids && Parentless(g, n) :: n in Seed(g).layer
  {
    AllRoots(g);
    forall n | n in g.ids && Parentless(g, n)
      ensures n in Roots(g, |g.ids|)
    {
      assert Ready(g, [], n);
    }
    if Roots(g, |g.ids|) != [] {
      assert Ready(g, [], Roots(g, |g.ids|)[0]);
      assert Parentless(g, Roots(g, |g.ids|)[0]);
    }
  }

  lemma NoRootMeansCycle(g: Graph)
    requires WellFormed(g) && g.ids != [] && !HasRoot(g)
    ensures !Acyclic(g)
  {
    if Acyclic(g) {
      AcyclicGrounded(g, g.ids[0]);
    }
  }

  lemma {:induction false} AfterInv(g: Graph, k: nat)
    requires WellFormed(g)
    ensures WorkInv(g, After(g, k))
  {
    if k == 0 {
      SeedInv(g);
    } else {
      AfterInv(g, k - 1);
      if After(g, k - 1).queue != [] {
        VisitInv(g, After(g, k - 1));
      }
    }
  }

  /** On every other graph some walk from a seed repeats a node. */
  lemma RepeatFromSeed(g: Graph) returns (p: seq<NodeId>)
    requires WellFormed(g) && !Halts(g)
    ensures IsWalk(g, p) && p[0] in Seed(g).layer && !Distinct(p)
  {
    RootsOrNone(g);
    if HasRoot(g) {
      var q, m :| RootedTo(g, q, m) && !Distinct(q);
      p := q;
    } else {
      NoRootMeansCycle(g);
      p :| IsCycle(g, p);
      assert Hop(g, p, 0);
    }
  }

  lemma {:induction false} AfterWitnessed(g: Graph, k: nat)
    requires WellFormed(g) && HasRoot(g)
    ensures Witnessed(g, After(g, k))
  {
    if k == 0 {
      RootsOrNone(g);
      SeedInv(g);
    } else {
      AfterWitnessed(g, k - 1);
      if After(g, k - 1).queue != [] {
        VisitWitnessed(g, After(g, k - 1));
      }
    }
  }

  /** There the worklist is never empty, however many visits are made. */
  lemma LoopsForever(g: Graph, k: nat)
    requires WellFormed(g) && !Halts(g)
    ensures After(g, k).queue != []
  {
    AfterInv(g, k);
    var p := RepeatFromSeed(g);
    if After(g, k).queue == [] {
      DryMeansNoRepeat(g, After(g, k), p);
    }
  }

  lemma HaltsSettles(g: Graph)
    requires WellFormed(g) && Halts(g)
    ensures Settles(g)
  {
  }

  /** Acyclic graphs, the only ones the validator lets through, always halt. */
  lemma AcyclicHalts(g: Graph)
    requires WellFormed(g) && Acyclic(g)
    ensures Halts(g)
  {
    AcyclicSettles(g);
    if g.ids != [] && !HasRoot(g) {
      NoRootMeansCycle(g);
    }
  }

  // ------------------------------------------------------------- termination

  /** How far the layers of the first k nodes can still rise; n bounds every layer. */
  ghost function Headroom(ids: seq<NodeId>, layer: map<NodeId, nat>, n: nat, k: nat): int
    requires k <= |ids|
  {
    if k == 0 then 0
    else Headroom(ids, layer, n, k - 1) + if ids[k - 1] in layer then n - layer[ids[k - 1]] else n + 1
  }

  ghost function Room(g: Graph, w: Work): int {
    Headroom(g.ids, w.layer, |g.ids|, |g.ids|)
  }

  lemma {:induction false} HeadroomRaise(ids: seq<NodeId>, layer: map<NodeId, nat>, n: nat, k: nat, c: NodeId, v: nat)
    requires k <= |ids| && v <= n && (c in layer ==> layer[c] < v)
    ensures Headroom(ids, layer[c := v], n, k) <= Headroom(ids, layer, n, k)
    ensures c in ids[..k] ==> Headroom(ids, layer[c := v], n, k) < Headroom(ids, layer, n, k)
  {
    if k > 0 {
      HeadroomRaise(ids, layer, n, k - 1, c, v);
      assert ids[..k] == ids[..k - 1] + [ids[k - 1]];
    }
  }

  lemma {:induction false} HeadroomNonNegative(ids: seq<NodeId>, layer: map<NodeId, nat>, n: nat, k: nat)
    requires k <= |ids|
    requires forall x | x in layer :: layer[x] <= n
    ensures Headroom(ids, layer, n, k) >= 0
  {
    if k > 0 {
      HeadroomNonNegative(ids, layer, n, k - 1);
    }
  }

  /** Every node a visit enqueues costs at least one unit of headroom. */
  lemma {:induction false} RelaxHeadroom(g: Graph, w: Work, base: nat, kids: seq<NodeId>, i: nat)
    requires base + 1 <= |g.ids| && i <= |kids|
    requires forall c | c in kids :: c in g.ids
    ensures var r := Relax(w, base, kids, i);
            Room(g, r) + |r.queue| <= Room(g, w) + |w.queue| && |r.queue| >= |w.queue|
    decreases |kids| - i
  {
    if i < |kids| {
      if kids[i] !in w.layer || w.layer[kids[i]] < base + 1 {
        assert g.ids[..|g.ids|] == g.ids;
        HeadroomRaise(g.ids, w.layer, |g.ids|, |g.ids|, kids[i], base + 1);
      }
      RelaxHeadroom(g, Raise(w, base, kids[i]), base, kids, i + 1);
    }
  }

  /** Each visit lowers (headroom, queue length) lexicographically, and headroom is never negative. */
  lemma VisitDecreases(g: Graph, w: Work)
    requires WellFormed(g) && Settles(g) && WorkInv(g, w) && Witnessed(g, w) && w.queue != []
    ensures var v := Visit(g, w);
            && 0 <= Room(g, w)
            && (Room(g, v) < Room(g, w) || (Room(g, v) == Room(g, w) && |v.queue| < |w.queue|))
  {
    var current := w.queue[0];
    forall x | x in w.layer
      ensures w.layer[x] + 1 <= |g.ids|
    {
      var p :| RootedTo(g, p, x) && |p| == w.layer[x] + 1;
      RootedShort(g, p, x);
    }
    HeadroomNonNegative(g.ids, w.layer, |g.ids|, |g.ids|);
    forall c | c in Children(g, current)
      ensures c in g.ids
    {
      ChildrenAre(g, current, c);
    }
    RelaxHeadroom(g, Work(w.layer, w.queue[1..]), w.layer[current], Children(g, current), 0);
  }

  lemma AfterDecreases(g: Graph, k: nat)
    requires WellFormed(g) && Settles(g) && HasRoot(g) && After(g, k).queue != []
    ensures var w := After(g, k);
            var v := After(g, k + 1);
            && v == Visit(g, w)
            && 0 <= Room(g, w)
            && (Room(g, v) < Room(g, w) || (Room(g, v) == Room(g, w) && |v.queue| < |w.queue|))
  {
    AfterInv(g, k);
    AfterWitnessed(g, k);
    VisitDecreases(g, After(g, k));
  }

  lemma {:induction false} RunsDry(g: Graph, k: nat) returns (end: nat)
    requires WellFormed(g) && Settles(g) && HasRoot(g)
    ensures After(g, end).queue == []
    decreases Room(g, After(g, k)), |After(g, k).queue|
  {
    end := k;
    if After(g, k).queue != [] {
      AfterDecreases(g, k);
      end := RunsDry(g, k + 1);
    }
  }

  /** The layout's loop ends if and only if there is nothing to draw, or some node is parentless and
      no parentless node leads into a cycle. */
  lemma DryIffHalts(g: Graph)
    requires WellFormed(g)
    ensures Halts(g) <==> exists k: nat :: After(g, k).queue == []
  {
    if Halts(g) {
      if g.ids == [] {
        assert After(g, 0).queue == [];
      } else {
        var k := RunsDry(g, 0);
      }
    } else {
      forall k: nat {
        LoopsForever(g, k);
      }
    }
  }

  /** And then the layers are the columns. */
  lemma DryAfter(g: Graph, k: nat)
    requires WellFormed(g) && Settles(g) && HasRoot(g) && After(g, k).queue == []
    ensures After(g, k).layer.Keys <= Members(g.ids)
    ensures forall n | n in g.ids ::
              Column(g, n) == if n in After(g, k).layer then After(g, k).layer[n] else 0
  {
    AfterInv(g, k);
    AfterWitnessed(g, k);
    forall n | n in g.ids
      ensures Column(g, n) == if n in After(g, k).layer then After(g, k).layer[n] else 0
    {
      DryLayerIsColumn(g, After(g, k), n);
    }
  }
}
