/** The executor's topological sort: Kahn's algorithm with a first-in first-out queue. */
module KahnOrder {
  import opened Graphs

  // ------------------------------------------------------- specification

  /** Heads of those of the first k arcs that leave u, in definition order, repeats kept. */
  function Targets(arcs: seq<Arc>, u: NodeId, k: nat): seq<NodeId>
    requires k <= |arcs|
  {
    if k == 0 then []
    else
      var rest := Targets(arcs, u, k - 1);
      if arcs[k - 1].src == u then rest + [arcs[k - 1].tgt] else rest
  }

  function Children(g: Graph, u: NodeId): seq<NodeId> {
    Targets(g.arcs, u, |g.arcs|)
  }

  /** Every arc into n leaves a node of done. */
  predicate Ready(g: Graph, done: seq<NodeId>, n: NodeId) {
    forall a | a in g.arcs :: a.tgt == n ==> a.src in done
  }

  /** From position i of kids on, the nodes whose last missing parent is now done; a repeated kid is
      released at its last occurrence. */
  function Released(g: Graph, done: seq<NodeId>, kids: seq<NodeId>, i: nat): seq<NodeId>
    requires i <= |kids|
    decreases |kids| - i
  {
    if i == |kids| then []
    else
      var rest := Released(g, done, kids, i + 1);
      if kids[i] in g.ids && kids[i] !in kids[i + 1..] && Ready(g, done, kids[i]) then [kids[i]] + rest else rest
  }

  /** Those of the first k nodes that have no incoming arc, in definition order. */
  function Roots(g: Graph, k: nat): seq<NodeId>
    requires k <= |g.ids|
  {
    if k == 0 then []
    else
      var rest := Roots(g, k - 1);
      if Ready(g, [], g.ids[k - 1]) then rest + [g.ids[k - 1]] else rest
  }

  function Drain(g: Graph, sorted: seq<NodeId>, queue: seq<NodeId>): seq<NodeId>
    decreases |g.ids| - |sorted|
  {
    if queue == [] || |sorted| >= |g.ids| then sorted
    else
      var done := sorted + [queue[0]];
      Drain(g, done, queue[1..] + Released(g, done, Children(g, queue[0]), 0))
  }

  /** The order in which the executor visits the nodes of g. */
  function Order(g: Graph): seq<NodeId> {
    Drain(g, [], Roots(g, |g.ids|))
  }

  // --------------------------------------------- what any such order means

  /** Repetition-free nodes of g, each after the sources of all its incoming arcs. */
  ghost predicate IsTopological(g: Graph, s: seq<NodeId>) {
    && Distinct(s)
    && (forall x | x in s :: x in g.ids)
    && (forall k | 0 <= k < |s| :: Ready(g, s[..k], s[k]))
  }

  /** Nothing that could still be visited is left out. */
  ghost predicate IsMaximal(g: Graph, s: seq<NodeId>) {
    forall n {:trigger Ready(g, s, n)} | n in g.ids && Ready(g, s, n) :: n in s
  }

  /** First ready, first visited: a prefix that makes a later node ready has made every earlier one ready. */
  ghost predicate IsFifo(g: Graph, s: seq<NodeId>) {
    forall i, j, r {:trigger Ready(g, s[..r], s[j]), Ready(g, s[..r], s[i])} |
      0 <= i < j < |s| && 0 <= r <= |s| && Ready(g, s[..r], s[j]) :: Ready(g, s[..r], s[i])
  }

  // ------------------------------------------------ properties of Targets

  lemma {:induction false} TargetsAre(arcs: seq<Arc>, u: NodeId, v: NodeId, k: nat)
    requires k <= |arcs|
    ensures v in Targets(arcs, u, k) <==> Arc(u, v) in arcs[..k]
  {
    if k > 0 {
      TargetsAre(arcs, u, v, k - 1);
      assert arcs[..k] == arcs[..k - 1] + [arcs[k - 1]];
    }
  }

  lemma ChildrenAre(g: Graph, u: NodeId, v: NodeId)
    ensures v in Children(g, u) <==> HasArc(g, u, v)
  {
    TargetsAre(g.arcs, u, v, |g.arcs|);
    assert g.arcs[..|g.arcs|] == g.arcs;
  }

  lemma {:induction false} ReleasedFrom(g: Graph, done: seq<NodeId>, kids: seq<NodeId>, i: nat)
    requires i <= |kids|
    ensures Distinct(Released(g, done, kids, i))
    ensures forall n :: n in Released(g, done, kids, i) <==> n in kids[i..] && n in g.ids && Ready(g, done, n)
    decreases |kids| - i
  {
    if i < |kids| {
      ReleasedFrom(g, done, kids, i + 1);
      assert kids[i..] == [kids[i]] + kids[i + 1..];
    }
  }

  lemma {:induction false} RootsAre(g: Graph, k: nat)
    requires Distinct(g.ids) && k <= |g.ids|
    ensures Distinct(Roots(g, k))
    ensures forall n :: n in Roots(g, k) <==> n in g.ids[..k] && Ready(g, [], n)
  {
    if k > 0 {
      RootsAre(g, k - 1);
      assert g.ids[..k] == g.ids[..k - 1] + [g.ids[k - 1]];
    }
  }

  lemma AllRoots(g: Graph)
    requires Distinct(g.ids)
    ensures Distinct(Roots(g, |g.ids|))
    ensures forall n :: n in Roots(g, |g.ids|) <==> n in g.ids && Ready(g, [], n)
  {
    RootsAre(g, |g.ids|);
    assert g.ids[..|g.ids|] == g.ids;
  }

  // -------------------------------------------------- the queue invariant

  /** Between two pops, sorted followed by queue lists exactly the nodes that are ready. */
  ghost predicate ListsReady(g: Graph, sorted: seq<NodeId>, all: seq<NodeId>) {
    forall n :: n in all <==> n in g.ids && Ready(g, sorted, n)
  }

  ghost predicate SortedAfterParents(g: Graph, sorted: seq<NodeId>) {
    forall k | 0 <= k < |sorted| :: Ready(g, sorted[..k], sorted[k])
  }

  ghost predicate FirstReadyFirst(g: Graph, sorted: seq<NodeId>, all: seq<NodeId>) {
    forall i, j, r | 0 <= i < j < |all| && 0 <= r <= |sorted| && Ready(g, sorted[..r], all[j]) ::
      Ready(g, sorted[..r], all[i])
  }

  ghost predicate Inv(g: Graph, sorted: seq<NodeId>, queue: seq<NodeId>) {
    && Distinct(sorted + queue)
    && ListsReady(g, sorted, sorted + queue)
    && SortedAfterParents(g, sorted)
    && FirstReadyFirst(g, sorted, sorted + queue)
  }

  lemma NothingSorted(g: Graph, all: seq<NodeId>)
    requires forall i | 0 <= i < |all| :: Ready(g, [], all[i])
    ensures FirstReadyFirst(g, [], all) && SortedAfterParents(g, [])
  {
    var none: seq<NodeId> := [];
    assert none[..0] == none;
  }

  lemma InvRoots(g: Graph)
    requires Distinct(g.ids)
    ensures Inv(g, [], Roots(g, |g.ids|))
  {
    AllRoots(g);
    var all := Roots(g, |g.ids|);
    assert [] + all == all;
    forall i | 0 <= i < |all|
      ensures Ready(g, [], all[i])
    {
      assert all[i] in all;
    }
    NothingSorted(g, all);
  }

  lemma HeadIsNew(sorted: seq<NodeId>, queue: seq<NodeId>)
    requires Distinct(sorted + queue) && queue != []
    ensures queue[0] !in sorted && queue[0] in sorted + queue
  {
    var all := sorted + queue;
    assert all[|sorted|] == queue[0];
    forall i | 0 <= i < |sorted|
      ensures sorted[i] != queue[0]
    {
      assert all[i] == sorted[i];
    }
  }

  /** What visiting a ready node u releases: children of u that were not ready before. */
  lemma ReleasedByVisit(g: Graph, sorted: seq<NodeId>, u: NodeId, n: NodeId)
    requires u !in sorted
    ensures n in Released(g, sorted + [u], Children(g, u), 0) <==>
            n in g.ids && Ready(g, sorted + [u], n) && !Ready(g, sorted, n)
    ensures n in Children(g, u) ==> !Ready(g, sorted, n)
  {
    ReleasedFrom(g, sorted + [u], Children(g, u), 0);
    ChildrenAre(g, u, n);
    if n in Children(g, u) {
      var a := Arc(u, n);
      assert a in g.arcs && a.tgt == n && a.src !in sorted;
    }
    if Ready(g, sorted + [u], n) && !Ready(g, sorted, n) {
      var a :| a in g.arcs && a.tgt == n && a.src !in sorted;
      assert a == Arc(u, n);
    }
  }

  lemma PopMembers(g: Graph, sorted: seq<NodeId>, u: NodeId, all: seq<NodeId>, released: seq<NodeId>)
    requires Distinct(all) && ListsReady(g, sorted, all) && u !in sorted
    requires released == Released(g, sorted + [u], Children(g, u), 0)
    ensures Distinct(all + released) && ListsReady(g, sorted + [u], all + released)
  {
    ReleasedFrom(g, sorted + [u], Children(g, u), 0);
    forall n
      ensures n in released <==> n in g.ids && Ready(g, sorted + [u], n) && n !in all
      ensures n in all ==> Ready(g, sorted + [u], n)
    {
      ReleasedByVisit(g, sorted, u, n);
    }
    DistinctAppend(all, released);
  }

  lemma PopFifo(g: Graph, sorted: seq<NodeId>, u: NodeId, all: seq<NodeId>, released: seq<NodeId>)
    requires FirstReadyFirst(g, sorted, all) && u !in sorted
    requires released == Released(g, sorted + [u], Children(g, u), 0)
    requires ListsReady(g, sorted + [u], all + released)
    ensures FirstReadyFirst(g, sorted + [u], all + released)
  {
    var done := sorted + [u];
    var all' := all + released;
    forall i, j, r | 0 <= i < j < |all'| && 0 <= r <= |done| && Ready(g, done[..r], all'[j])
      ensures Ready(g, done[..r], all'[i])
    {
      if r == |done| {
        assert done[..r] == done;
        assert all'[i] in all';
      } else {
        assert done[..r] == sorted[..r];
        if j >= |all| {
          assert all'[j] in released;
          ReleasedByVisit(g, sorted, u, all'[j]);
          assert false;
        }
      }
    }
  }

  lemma InvPop(g: Graph, sorted: seq<NodeId>, queue: seq<NodeId>)
    requires Inv(g, sorted, queue) && queue != []
    ensures var done := sorted + [queue[0]];
            Inv(g, done, queue[1..] + Released(g, done, Children(g, queue[0]), 0))
  {
    var u := queue[0];
    var all := sorted + queue;
    var done := sorted + [u];
    var released := Released(g, done, Children(g, u), 0);
    assert done + (queue[1..] + released) == all + released;
    HeadIsNew(sorted, queue);
    PopMembers(g, sorted, u, all, released);
    PopFifo(g, sorted, u, all, released);
    forall k | 0 <= k < |done|
      ensures Ready(g, done[..k], done[k])
    {
      assert done[..k] == sorted[..k];
      if k == |sorted| {
        assert sorted[..k] == sorted;
      }
    }
  }

  lemma InvShort(g: Graph, sorted: seq<NodeId>, queue: seq<NodeId>)
    requires Distinct(g.ids) && Inv(g, sorted, queue)
    ensures |sorted| + |queue| <= |g.ids|
  {
    var all := sorted + queue;
    assert forall x | x in all :: x in g.ids;
    Pigeonhole(all, g.ids);
  }

  lemma {:induction false} DrainSorts(g: Graph, sorted: seq<NodeId>, queue: seq<NodeId>)
    requires Distinct(g.ids) && Inv(g, sorted, queue)
    ensures var s := Drain(g, sorted, queue); IsTopological(g, s) && IsMaximal(g, s) && IsFifo(g, s)
    decreases |g.ids| - |sorted|
  {
    InvShort(g, sorted, queue);
    if queue == [] {
      assert sorted + queue == sorted;
      assert forall x | x in sorted :: x in sorted + queue;
    } else {
      InvPop(g, sorted, queue);
      var done := sorted + [queue[0]];
      DrainSorts(g, done, queue[1..] + Released(g, done, Children(g, queue[0]), 0));
    }
  }

  /** For any graph, arcs from unknown sources included, the sort is topological, maximal and first-in
      first-out. */
  lemma OrderSorts(g: Graph)
    requires Distinct(g.ids)
    ensures IsTopological(g, Order(g)) && IsMaximal(g, Order(g)) && IsFifo(g, Order(g))
  {
    InvRoots(g);
    DrainSorts(g, [], Roots(g, |g.ids|));
  }

  // ------------------------------------------------------------ and cycles

  /** Whoever is visited has all of its ancestors visited earlier. */
  lemma {:induction false} AncestorsVisited(g: Graph, s: seq<NodeId>, p: seq<NodeId>, k: nat)
    requires IsTopological(g, s) && IsWalk(g, p) && k < |s| && p[|p| - 1] == s[k]
    ensures |p| > 1 ==> p[0] in s[..k]
    ensures p[0] in s
    decreases |p|
  {
    if |p| > 1 {
      var q := p[..|p| - 1];
      WalkLast(g, p);
      assert Ready(g, s[..k], s[k]);
      assert q[|q| - 1] in s[..k];
      var i :| 0 <= i < k && s[i] == q[|q| - 1];
      AncestorsVisited(g, s, q, i);
      assert s[..i] <= s[..k];
    }
  }

  lemma CycleNotVisited(g: Graph, s: seq<NodeId>, p: seq<NodeId>)
    requires IsTopological(g, s) && IsCycle(g, p)
    ensures p[0] !in s
  {
    if p[0] in s {
      var k :| 0 <= k < |s| && s[k] == p[0];
      AncestorsVisited(g, s, p, k);
      assert false;
    }
  }

  /** A node left out has, for every length, a walk ending in it through left-out nodes only. */
  lemma {:induction false} WalkBackwards(g: Graph, s: seq<NodeId>, n: NodeId, len: nat) returns (p: seq<NodeId>)
    requires WellFormed(g) && IsMaximal(g, s) && n in g.ids && n !in s
    ensures IsWalk(g, p) && |p| == len + 1 && p[len] == n
    ensures forall x | x in p :: x in g.ids && x !in s
    decreases len
  {
    if len == 0 {
      p := [n];
    } else {
      assert !Ready(g, s, n);
      var a :| a in g.arcs && a.tgt == n && a.src !in s;
      var q := WalkBackwards(g, s, a.src, len - 1);
      WalkExtend(g, q, n);
      p := q + [n];
    }
  }

  /** The nodes the sort leaves out are exactly those some cycle reaches. */
  lemma OmittedIffBehindCycle(g: Graph, s: seq<NodeId>, n: NodeId)
    requires WellFormed(g) && IsTopological(g, s) && IsMaximal(g, s) && n in g.ids
    ensures n !in s <==> BehindCycle(g, n)
  {
    if n !in s {
      var p := WalkBackwards(g, s, n, |g.ids|);
      if Distinct(p) {
        Pigeonhole(p, g.ids);
        assert false;
      }
      var i, j :| 0 <= i < j < |p| && p[i] == p[j];
      RepeatGivesCycle(g, p, i, j);
      WalkSlice(g, p, i, |p|);
      assert p[i..|p|] == p[i..];
      assert WalkFromTo(g, p[i..], p[i], n);
      assert IsCycle(g, p[i..j + 1]) && Reaches(g, p[i..j + 1][0], n);
    }
    if BehindCycle(g, n) && n in s {
      var c :| IsCycle(g, c) && Reaches(g, c[0], n);
      var q :| WalkFromTo(g, q, c[0], n);
      var k :| 0 <= k < |s| && s[k] == n;
      AncestorsVisited(g, s, q, k);
      CycleNotVisited(g, s, c);
      assert false;
    }
  }

  /** The sort visits fewer nodes than exist if and only if there is a cycle. */
  lemma ShortIffCyclic(g: Graph, s: seq<NodeId>)
    requires WellFormed(g) && IsTopological(g, s) && IsMaximal(g, s)
    ensures |s| < |g.ids| <==> !Acyclic(g)
  {
    Pigeonhole(s, g.ids);
    if |s| < |g.ids| {
      assert !forall x | x in g.ids :: x in s by {
        if forall x | x in g.ids :: x in s {
          Pigeonhole(g.ids, s);
        }
      }
      var n :| n in g.ids && n !in s;
      OmittedIffBehindCycle(g, s, n);
    }
    if !Acyclic(g) {
      var p :| IsCycle(g, p);
      assert Hop(g, p, 0);
      CycleNotVisited(g, s, p);
      assert p[0] in g.ids;
    }
  }

  // --------------------------------------------------------- the algorithm

  /** Number of the first k arcs that go into n from a node outside done. */
  ghost function Missing(arcs: seq<Arc>, done: seq<NodeId>, n: NodeId, k: nat): nat
    requires k <= |arcs|
  {
    if k == 0 then 0
    else Missing(arcs, done, n, k - 1) + if arcs[k - 1].tgt == n && arcs[k - 1].src !in done then 1 else 0
  }

  lemma {:induction false} MissingZero(arcs: seq<Arc>, done: seq<NodeId>, n: NodeId, k: nat)
    requires k <= |arcs|
    ensures Missing(arcs, done, n, k) == 0 <==> forall a | a in arcs[..k] :: a.tgt == n ==> a.src in done
  {
    if k > 0 {
      MissingZero(arcs, done, n, k - 1);
      assert arcs[..k] == arcs[..k - 1] + [arcs[k - 1]];
    }
  }

  lemma MissingNone(g: Graph, done: seq<NodeId>, n: NodeId)
    ensures Missing(g.arcs, done, n, |g.arcs|) == 0 <==> Ready(g, done, n)
  {
    MissingZero(g.arcs, done, n, |g.arcs|);
    assert g.arcs[..|g.arcs|] == g.arcs;
  }

  /** Once u is done, n misses one arc less per occurrence among the children of u. */
  lemma {:induction false} MissingDone(arcs: seq<Arc>, done: seq<NodeId>, u: NodeId, n: NodeId, k: nat)
    requires u !in done && k <= |arcs|
    ensures Missing(arcs, done, n, k) == Missing(arcs, done + [u], n, k) + multiset(Targets(arcs, u, k))[n]
  {
    if k > 0 {
      MissingDone(arcs, done, u, n, k - 1);
    }
  }

  /** children lists, for every node, the heads of its outgoing arcs among the first k. */
  ghost predicate IsChildren(ids: seq<NodeId>, arcs: seq<Arc>, k: nat, children: map<NodeId, seq<NodeId>>)
    requires k <= |arcs|
  {
    children.Keys == Members(ids) && forall n | n in children :: children[n] == Targets(arcs, n, k)
  }

  /** inDegree counts, for every node, its incoming arcs from outside done among the first k. */
  ghost predicate IsInDegree(ids: seq<NodeId>, arcs: seq<Arc>, k: nat, done: seq<NodeId>, inDegree: map<NodeId, int>)
    requires k <= |arcs|
  {
    inDegree.Keys == Members(ids) && forall n | n in inDegree :: inDegree[n] == Missing(arcs, done, n, k)
  }

  lemma ChildrenNext(ids: seq<NodeId>, arcs: seq<Arc>, k: nat, children: map<NodeId, seq<NodeId>>)
    requires k < |arcs| && IsChildren(ids, arcs, k, children) && arcs[k].src in ids
    ensures arcs[k].src in children
    ensures IsChildren(ids, arcs, k + 1, children[arcs[k].src := children[arcs[k].src] + [arcs[k].tgt]])
  {
  }

  /** The heads of each node's outgoing arcs. */
  method OutgoingTable(g: Graph) returns (outgoing: map<NodeId, seq<NodeId>>)
    ensures IsChildren(g.ids, g.arcs, |g.arcs|, outgoing)
  {
    outgoing := map n | n in g.ids :: [];
    for k := 0 to |g.arcs|
      invariant IsChildren(g.ids, g.arcs, k, outgoing)
    {
      var a := g.arcs[k];
      if a.src in outgoing {
        outgoing := outgoing[a.src := outgoing[a.src] + [a.tgt]];
      }
    }
  }

  method InDegreeTable(g: Graph) returns (inDegree: map<NodeId, int>)
    ensures IsInDegree(g.ids, g.arcs, |g.arcs|, [], inDegree)
  {
    inDegree := map n | n in g.ids :: 0;
    for k := 0 to |g.arcs|
      invariant IsInDegree(g.ids, g.arcs, k, [], inDegree)
    {
      var a := g.arcs[k];
      if a.tgt in inDegree {
        inDegree := inDegree[a.tgt := inDegree[a.tgt] + 1];
      }
    }
  }

  method InitialQueue(g: Graph, inDegree: map<NodeId, int>) returns (queue: seq<NodeId>)
    requires IsInDegree(g.ids, g.arcs, |g.arcs|, [], inDegree)
    ensures queue == Roots(g, |g.ids|)
  {
    queue := [];
    for k := 0 to |g.ids|
      invariant queue == Roots(g, k)
    {
      MissingNone(g, [], g.ids[k]);
      if inDegree[g.ids[k]] == 0 {
        queue := queue + [g.ids[k]];
      }
    }
  }

  /** In-degrees while the children of a visited node are being decremented: those from position i on
      still count. */
  ghost predicate CountsFrom(g: Graph, done: seq<NodeId>, kids: seq<NodeId>, i: nat, inDegree: map<NodeId, int>)
    requires i <= |kids|
  {
    && inDegree.Keys == Members(g.ids)
    && forall n | n in inDegree :: inDegree[n] == Missing(g.arcs, done, n, |g.arcs|) + multiset(kids[i..])[n]
  }

  lemma CountsStart(g: Graph, sorted: seq<NodeId>, nid: NodeId, inDegree: map<NodeId, int>)
    requires nid !in sorted && IsInDegree(g.ids, g.arcs, |g.arcs|, sorted, inDegree)
    ensures CountsFrom(g, sorted + [nid], Children(g, nid), 0, inDegree)
  {
    assert Children(g, nid)[0..] == Children(g, nid);
    forall n | n in inDegree
      ensures inDegree[n] == Missing(g.arcs, sorted + [nid], n, |g.arcs|) + multiset(Children(g, nid))[n]
    {
      MissingDone(g.arcs, sorted, nid, n, |g.arcs|);
    }
  }

  lemma CountsNext(g: Graph, done: seq<NodeId>, kids: seq<NodeId>, i: nat, inDegree: map<NodeId, int>)
    requires i < |kids| && CountsFrom(g, done, kids, i, inDegree)
    ensures kids[i] in inDegree ==>
              var after := inDegree[kids[i] := inDegree[kids[i]] - 1];
              && CountsFrom(g, done, kids, i + 1, after)
              && (after[kids[i]] == 0 <==> kids[i] !in kids[i + 1..] && Ready(g, done, kids[i]))
    ensures kids[i] !in inDegree ==> CountsFrom(g, done, kids, i + 1, inDegree) && kids[i] !in g.ids
  {
    assert kids[i..] == [kids[i]] + kids[i + 1..];
    assert multiset(kids[i..]) == multiset{kids[i]} + multiset(kids[i + 1..]);
    MissingNone(g, done, kids[i]);
  }

  /** Visiting nid decrements the in-degree of each child and enqueues those that reach zero. */
  method VisitChildren(g: Graph, ghost sorted: seq<NodeId>, nid: NodeId, kids: seq<NodeId>,
                       inDegree0: map<NodeId, int>, queue0: seq<NodeId>)
    returns (inDegree: map<NodeId, int>, queue: seq<NodeId>)
    requires nid !in sorted && kids == Children(g, nid)
    requires IsInDegree(g.ids, g.arcs, |g.arcs|, sorted, inDegree0)
    ensures IsInDegree(g.ids, g.arcs, |g.arcs|, sorted + [nid], inDegree)
    ensures queue == queue0 + Released(g, sorted + [nid], kids, 0)
  {
    inDegree, queue := inDegree0, queue0;
    ghost var done := sorted + [nid];
    CountsStart(g, sorted, nid, inDegree);
    for i := 0 to |kids|
      invariant CountsFrom(g, done, kids, i, inDegree)
      invariant queue + Released(g, done, kids, i) == queue0 + Released(g, done, kids, 0)
    {
      var tgt := kids[i];
      CountsNext(g, done, kids, i, inDegree);
      if tgt in inDegree {
        inDegree := inDegree[tgt := inDegree[tgt] - 1];
        if inDegree[tgt] == 0 {
          queue := queue + [tgt];
        }
      }
    }
  }

  /** The sort as the executor runs it: counts of missing parents, decremented arc by arc. */
  method TopologicalSort(g: Graph) returns (sorted: seq<NodeId>)
    requires Distinct(g.ids)
    ensures sorted == Order(g)
  {
    var outgoing := OutgoingTable(g);
    var inDegree := InDegreeTable(g);
    var queue := InitialQueue(g, inDegree);
    sorted := [];
    InvRoots(g);
    while queue != []
      invariant IsInDegree(g.ids, g.arcs, |g.arcs|, sorted, inDegree)
      invariant Inv(g, sorted, queue)
      invariant Drain(g, sorted, queue) == Order(g)
      decreases |g.ids| - |sorted|
    {
      InvShort(g, sorted, queue);
      InvPop(g, sorted, queue);
      HeadIsNew(sorted, queue);
      var nid := queue[0];
      assert nid in g.ids;
      inDegree, queue := VisitChildren(g, sorted, nid, outgoing[nid], inDegree, queue[1..]);
      sorted := sorted + [nid];
    }
  }
}
