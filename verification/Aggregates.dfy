/** What is read off a list of runs: the schedule's totals, and the runs shown for one execution. */
module Aggregates {
  import opened Wrappers

  datatype RunRow = RunRow(id: nat, target: string, created: int, execution: Option<string>,
                           matched: Option<nat>, failed: Option<nat>)

  ghost predicate DistinctIds(runs: seq<RunRow>) {
    forall i, j | 0 <= i < |runs| && 0 <= j < |runs| && runs[i].id == runs[j].id :: i == j
  }

  // ------------------------------------------------------ latest run per target

  /** (a.created_at, a.id) > (b.created_at, b.id). */
  predicate Later(a: RunRow, b: RunRow) {
    a.created > b.created || (a.created == b.created && a.id > b.id)
  }

  /** Every target among the first k runs, with its latest run. */
  ghost predicate IsLatest(latest: map<string, RunRow>, runs: seq<RunRow>, k: nat)
    requires k <= |runs|
  {
    && (forall t | t in latest :: latest[t].target == t && latest[t] in runs[..k])
    && (forall i | 0 <= i < k :: runs[i].target in latest && !Later(runs[i], latest[runs[i].target]))
  }

  /** The targets of a dictionary in insertion order. */
  ghost predicate IsOrder(order: seq<string>, latest: map<string, RunRow>) {
    && (forall t :: t in order <==> t in latest)
    && (forall i, j | 0 <= i < |order| && 0 <= j < |order| && order[i] == order[j] :: i == j)
  }

  method LatestByTarget(runs: seq<RunRow>) returns (latest: map<string, RunRow>, order: seq<string>)
    ensures IsLatest(latest, runs, |runs|) && IsOrder(order, latest)
  {
    latest, order := map[], [];
    for k := 0 to |runs|
      invariant IsLatest(latest, runs, k) && IsOrder(order, latest)
    {
      var run := runs[k];
      assert runs[..k + 1] == runs[..k] + [run];
      if run.target !in latest {
        latest, order := latest[run.target := run], order + [run.target];
      } else if Later(run, latest[run.target]) {
        latest := latest[run.target := run];
      }
    }
    assert runs[..|runs|] == runs;
  }

  /** The latest runs depend on which runs there are, not on their order. */
  lemma LatestIgnoresOrder(
    runs: seq<RunRow>, others: seq<RunRow>, latest: map<string, RunRow>, alike: map<string, RunRow>)
    requires DistinctIds(runs) && forall r :: r in runs <==> r in others
    requires IsLatest(latest, runs, |runs|) && IsLatest(alike, others, |others|)
    ensures latest == alike
  {
    assert runs[..|runs|] == runs && others[..|others|] == others;
    forall t | t in latest
      ensures t in alike && alike[t] == latest[t]
    {
      var i :| 0 <= i < |others| && others[i] == latest[t];
      assert alike[t] in runs;
      var j :| 0 <= j < |runs| && runs[j] == alike[t];
      var h :| 0 <= h < |runs| && runs[h] == latest[t];
      assert !Later(others[i], alike[t]) && !Later(runs[j], latest[t]);
    }
    forall t | t in alike
      ensures t in latest
    {
      assert alike[t] in runs;
    }
  }

  // ------------------------------------------------------ totals

  function OrZero(n: Option<nat>): nat {
    if n.Some? then n.value else 0
  }

  function SumAlong(order: seq<string>, count: map<string, nat>, k: nat): nat
    requires k <= |order| && forall t | t in order :: t in count
  {
    if k == 0 then 0 else SumAlong(order, count, k - 1) + count[order[k - 1]]
  }

  /** The sum over some keys, in whatever order. */
  ghost function SumOver(keys: set<string>, count: map<string, nat>): nat
    requires keys <= count.Keys
    decreases keys
  {
    if t :| t in keys then count[t] + SumOver(keys - {t}, count) else 0
  }

  lemma {:induction false} SumWithout(keys: set<string>, count: map<string, nat>, t: string)
    requires keys <= count.Keys && t in keys
    ensures SumOver(keys, count) == count[t] + SumOver(keys - {t}, count)
    decreases keys
  {
    var u :| u in keys && SumOver(keys, count) == count[u] + SumOver(keys - {u}, count);
    if u != t {
      SumWithout(keys - {u}, count, t);
      SumWithout(keys - {t}, count, u);
      assert keys - {u} - {t} == keys - {t} - {u};
    }
  }

  lemma SumOfNone(count: map<string, nat>)
    ensures SumOver({}, count) == 0
  {
  }

  lemma {:induction false} SumAlongIsSum(order: seq<string>, count: map<string, nat>, k: nat)
    requires k <= |order| && forall t | t in order :: t in count
    requires forall i, j | 0 <= i < |order| && 0 <= j < |order| && order[i] == order[j] :: i == j
    ensures SumAlong(order, count, k) == SumOver(set i | 0 <= i < k :: order[i], count)
  {
    var keys := set i | 0 <= i < k :: order[i];
    if k == 0 {
      assert keys == {};
    } else {
      SumAlongIsSum(order, count, k - 1);
      SumWithout(keys, count, order[k - 1]);
      assert keys - {order[k - 1]} == set i | 0 <= i < k - 1 :: order[i];
    }
  }

  function MatchedCounts(latest: map<string, RunRow>): map<string, nat> {
    map t | t in latest :: OrZero(latest[t].matched)
  }

  function FailedCounts(latest: map<string, RunRow>): map<string, nat> {
    map t | t in latest :: OrZero(latest[t].failed)
  }

  method SumCounts(order: seq<string>, count: map<string, nat>) returns (sum: nat)
    requires forall t :: t in order <==> t in count
    requires forall i, j | 0 <= i < |order| && 0 <= j < |order| && order[i] == order[j] :: i == j
    ensures sum == SumOver(count.Keys, count)
  {
    sum := 0;
    for k := 0 to |order|
      invariant sum == SumAlong(order, count, k)
    {
      sum := sum + count[order[k]];
    }
    SumAlongIsSum(order, count, |order|);
    assert (set i | 0 <= i < |order| :: order[i]) == count.Keys;
  }

  ghost predicate AreTotals(runs: seq<RunRow>, matched: nat, failed: nat) {
    exists latest :: IsLatest(latest, runs, |runs|) &&
                     matched == SumOver(latest.Keys, MatchedCounts(latest)) &&
                     failed == SumOver(latest.Keys, FailedCounts(latest))
  }

  /** The run created last for every target that has a run, and of several the one with the greatest id. */
  ghost predicate LatestRuns(latest: map<string, RunRow>, runs: seq<RunRow>) {
    && (forall t :: t in latest <==> exists r | r in runs :: r.target == t)
    && (forall t | t in latest :: latest[t] in runs && latest[t].target == t)
    && (forall r | r in runs && r.target in latest ::
          r.created < latest[r.target].created ||
          (r.created == latest[r.target].created && r.id <= latest[r.target].id))
  }

  /** The sums of what the runs matched and failed, each over all targets; a count that is not set adds nothing. */
  ghost predicate Sums(latest: map<string, RunRow>, matched: nat, failed: nat) {
    && matched == SumOver(latest.Keys, map t | t in latest :: match latest[t].matched case None => 0 case Some(n) => n)
    && failed == SumOver(latest.Keys, map t | t in latest :: match latest[t].failed case None => 0 case Some(n) => n)
  }

  lemma SumsAre(latest: map<string, RunRow>)
    ensures MatchedCounts(latest).Keys == latest.Keys && FailedCounts(latest).Keys == latest.Keys
    ensures Sums(latest, SumOver(latest.Keys, MatchedCounts(latest)), SumOver(latest.Keys, FailedCounts(latest)))
  {
    assert MatchedCounts(latest) ==
           map t | t in latest :: match latest[t].matched case None => 0 case Some(n) => n;
    assert FailedCounts(latest) == map t | t in latest :: match latest[t].failed case None => 0 case Some(n) => n;
  }

  lemma LatestAre(latest: map<string, RunRow>, runs: seq<RunRow>)
    requires IsLatest(latest, runs, |runs|)
    ensures LatestRuns(latest, runs)
  {
    assert runs[..|runs|] == runs;
    forall r | r in runs
      ensures r.target in latest && !Later(r, latest[r.target])
    {
      var i :| 0 <= i < |runs| && runs[i] == r;
    }
  }

  /** The schedule's totals: each is the sum, over the targets, of what the target's latest run counted. */
  method UpdateStats(runs: seq<RunRow>) returns (matched: nat, failed: nat)
    ensures AreTotals(runs, matched, failed)
    ensures exists latest :: LatestRuns(latest, runs) && Sums(latest, matched, failed)
  {
    var latest, order := LatestByTarget(runs);
    assert MatchedCounts(latest).Keys == latest.Keys && FailedCounts(latest).Keys == latest.Keys;
    matched := SumCounts(order, MatchedCounts(latest));
    failed := SumCounts(order, FailedCounts(latest));
    LatestAre(latest, runs);
    SumsAre(latest);
  }

  /** Whichever order the runs arrive in, the totals are the same. */
  lemma TotalsIgnoreOrder(
    runs: seq<RunRow>, others: seq<RunRow>, matched: nat, failed: nat, matched': nat, failed': nat)
    requires DistinctIds(runs) && multiset(runs) == multiset(others)
    requires AreTotals(runs, matched, failed) && AreTotals(others, matched', failed')
    ensures matched == matched' && failed == failed'
  {
    var latest :| IsLatest(latest, runs, |runs|) && matched == SumOver(latest.Keys, MatchedCounts(latest)) &&
                  failed == SumOver(latest.Keys, FailedCounts(latest));
    var alike :| IsLatest(alike, others, |others|) && matched' == SumOver(alike.Keys, MatchedCounts(alike)) &&
                 failed' == SumOver(alike.Keys, FailedCounts(alike));
    forall r
      ensures r in runs <==> r in others
    {
      assert r in runs <==> r in multiset(runs);
      assert r in others <==> r in multiset(others);
    }
    LatestIgnoresOrder(runs, others, latest, alike);
  }

  // ------------------------------------------------------ the runs of one execution

  /** Those of the first k runs that satisfy p, in list order. */
  function Where(runs: seq<RunRow>, p: RunRow -> bool, k: nat): seq<RunRow>
    requires k <= |runs|
  {
    if k == 0 then [] else if p(runs[k - 1]) then Where(runs, p, k - 1) + [runs[k - 1]] else Where(runs, p, k - 1)
  }

  function Belongs(execution: Option<string>): RunRow -> bool {
    (r: RunRow) => r.execution == execution
  }

  predicate IsNewest(runs: seq<RunRow>, r: RunRow) {
    forall q | q in runs && q.target == r.target :: q.id <= r.id
  }

  function NewestOf(runs: seq<RunRow>): RunRow -> bool {
    (r: RunRow) => IsNewest(runs, r)
  }

  /** Every target among the first k runs, with its run of greatest id. */
  ghost predicate ByGreatestId(newest: map<string, RunRow>, runs: seq<RunRow>, k: nat)
    requires k <= |runs|
  {
    && (forall t | t in newest :: newest[t].target == t && newest[t] in runs[..k])
    && (forall i | 0 <= i < k :: runs[i].target in newest && runs[i].id <= newest[runs[i].target].id)
  }

  lemma GreatestIsNewest(newest: map<string, RunRow>, runs: seq<RunRow>, r: RunRow)
    requires DistinctIds(runs) && ByGreatestId(newest, runs, |runs|) && r in runs
    ensures r.target in newest && (newest[r.target] == r <==> IsNewest(runs, r))
  {
    assert runs[..|runs|] == runs;
    var i :| 0 <= i < |runs| && runs[i] == r;
    var j :| 0 <= j < |runs| && runs[j] == newest[r.target];
    if newest[r.target] == r {
      forall q | q in runs && q.target == r.target
        ensures q.id <= r.id
      {
        var h :| 0 <= h < |runs| && runs[h] == q;
      }
    }
  }

  lemma GreatestIdStep(newest: map<string, RunRow>, runs: seq<RunRow>, k: nat)
    requires k < |runs| && ByGreatestId(newest, runs, k)
    ensures runs[k].target !in newest || runs[k].id > newest[runs[k].target].id ==>
              ByGreatestId(newest[runs[k].target := runs[k]], runs, k + 1)
    ensures runs[k].target in newest && runs[k].id <= newest[runs[k].target].id ==> ByGreatestId(newest, runs, k + 1)
  {
    assert runs[..k + 1] == runs[..k] + [runs[k]];
  }

  method GreatestIds(runs: seq<RunRow>) returns (newest: map<string, RunRow>)
    ensures ByGreatestId(newest, runs, |runs|)
  {
    newest := map[];
    for k := 0 to |runs|
      invariant ByGreatestId(newest, runs, k)
    {
      GreatestIdStep(newest, runs, k);
      if runs[k].target !in newest || runs[k].id > newest[runs[k].target].id {
        newest := newest[runs[k].target := runs[k]];
      }
    }
  }

  /** The runs that are their target's entry. */
  method KeepEntries(runs: seq<RunRow>, newest: map<string, RunRow>, ghost p: RunRow -> bool)
    returns (kept: seq<RunRow>)
    requires forall r | r in runs :: r.target in newest && (newest[r.target] == r <==> p(r))
    ensures kept == Where(runs, p, |runs|)
  {
    kept := [];
    for k := 0 to |runs|
      invariant kept == Where(runs, p, k)
    {
      assert runs[k] in runs;
      if newest[runs[k].target] == runs[k] {
        kept := kept + [runs[k]];
      }
    }
  }

  method NewestRunPerTarget(runs: seq<RunRow>) returns (kept: seq<RunRow>)
    requires DistinctIds(runs)
    ensures kept == Where(runs, NewestOf(runs), |runs|)
    ensures forall r :: r in kept <==> r in runs && forall q | q in runs && q.target == r.target :: q.id <= r.id
    ensures exists at :: PickedAt(kept, runs, |runs|, at)
  {
    var newest := GreatestIds(runs);
    forall r | r in runs
      ensures r.target in newest && (newest[r.target] == r <==> IsNewest(runs, r))
    {
      GreatestIsNewest(newest, runs, r);
    }
    kept := KeepEntries(runs, newest, NewestOf(runs));
    ghost var at := WherePicked(runs, NewestOf(runs), |runs|);
    forall r {
      WhereIn(runs, NewestOf(runs), |runs|, r);
    }
  }

  /** What is shown for a run id: nothing if it is unknown, the run alone if it has no execution id, and
      otherwise the final attempts of its execution. */
  function Selected(runs: seq<RunRow>, runId: nat, k: nat): seq<RunRow>
    requires k <= |runs|
    decreases |runs| - k
  {
    if k == |runs| then []
    else if runs[k].id != runId then Selected(runs, runId, k + 1)
    else if runs[k].execution.None? || runs[k].execution.value == "" then [runs[k]]
    else
      var own := Where(runs, Belongs(runs[k].execution), |runs|);
      Where(own, NewestOf(own), |own|)
  }

  /** Run r is of the execution, and no run of its target in the execution has a greater id. */
  predicate FinalAttempt(runs: seq<RunRow>, execution: string, r: RunRow) {
    r.execution == Some(execution) &&
    forall q | q in runs && q.execution == Some(execution) && q.target == r.target :: q.id <= r.id
  }

  /** What is shown for run k: the run alone when it has no execution id, and otherwise the final attempts of its
      execution, in list order. */
  ghost predicate ShownFor(runs: seq<RunRow>, k: nat, shown: seq<RunRow>)
    requires k < |runs|
  {
    if runs[k].execution == None || runs[k].execution == Some("") then shown == [runs[k]]
    else
      && (forall r :: r in shown <==> r in runs && FinalAttempt(runs, runs[k].execution.value, r))
      && exists at :: PickedAt(shown, runs, |runs|, at)
  }

  lemma {:induction false} UnknownShowsNothing(runs: seq<RunRow>, runId: nat, k: nat)
    requires k <= |runs| && forall r | r in runs :: r.id != runId
    ensures Selected(runs, runId, k) == []
    decreases |runs| - k
  {
    if k < |runs| {
      assert runs[k] in runs;
      UnknownShowsNothing(runs, runId, k + 1);
    }
  }

  lemma SelectedShown(runs: seq<RunRow>, runId: nat, k: nat)
    requires DistinctIds(runs) && k < |runs| && runs[k].id == runId
    ensures ShownFor(runs, k, Selected(runs, runId, 0))
  {
    SelectedAt(runs, runId, 0, k);
    if runs[k].execution.Some? && runs[k].execution.value != "" {
      forall r
        ensures r in Selected(runs, runId, 0) <==> r in runs && FinalAttempt(runs, runs[k].execution.value, r)
      {
        ShownForExecution(runs, runId, k, r);
      }
      var n, at := ShownOncePerTarget(runs, runId, k, runs[k]);
    }
  }

  method SelectExecution(runs: seq<RunRow>, runId: nat) returns (shown: seq<RunRow>)
    requires DistinctIds(runs)
    ensures shown == Selected(runs, runId, 0)
    ensures (forall r | r in runs :: r.id != runId) ==> shown == []
    ensures forall k | 0 <= k < |runs| && runs[k].id == runId :: ShownFor(runs, k, shown)
  {
    if forall r | r in runs :: r.id != runId {
      UnknownShowsNothing(runs, runId, 0);
    }
    forall k | 0 <= k < |runs| && runs[k].id == runId {
      SelectedShown(runs, runId, k);
    }
    for k := 0 to |runs|
      invariant Selected(runs, runId, 0) == Selected(runs, runId, k)
    {
      if runs[k].id == runId {
        if runs[k].execution.None? || runs[k].execution.value == "" {
          return [runs[k]];
        }
        var own := [];
        for i := 0 to |runs|
          invariant own == Where(runs, Belongs(runs[k].execution), i)
        {
          if runs[i].execution == runs[k].execution {
            own := own + [runs[i]];
          }
        }
        WhereDistinct(runs, Belongs(runs[k].execution));
        shown := NewestRunPerTarget(own);
        return;
      }
    }
    shown := [];
  }

  /** The kept runs stand, in the same order, at the given positions of the list. */
  ghost predicate PickedAt(kept: seq<RunRow>, runs: seq<RunRow>, k: nat, at: seq<nat>)
    requires k <= |runs|
  {
    && |at| == |kept|
    && (forall i | 0 <= i < |at| :: at[i] < k && runs[at[i]] == kept[i])
    && (forall i, j | 0 <= i < j < |at| :: at[i] < at[j])
  }

  lemma PickAnother(kept: seq<RunRow>, runs: seq<RunRow>, k: nat, at: seq<nat>)
    requires k < |runs| && PickedAt(kept, runs, k, at)
    ensures PickedAt(kept + [runs[k]], runs, k + 1, at + [k])
  {
  }

  lemma PassOver(kept: seq<RunRow>, runs: seq<RunRow>, k: nat, at: seq<nat>)
    requires k < |runs| && PickedAt(kept, runs, k, at)
    ensures PickedAt(kept, runs, k + 1, at)
  {
  }

  lemma {:induction false} WherePicked(runs: seq<RunRow>, p: RunRow -> bool, k: nat) returns (at: seq<nat>)
    requires k <= |runs|
    ensures PickedAt(Where(runs, p, k), runs, k, at)
  {
    if k == 0 {
      return [];
    }
    var kept := Where(runs, p, k - 1);
    var before := WherePicked(runs, p, k - 1);
    if p(runs[k - 1]) {
      PickAnother(kept, runs, k - 1, before);
      at := before + [k - 1];
      assert Where(runs, p, k) == kept + [runs[k - 1]];
    } else {
      PassOver(kept, runs, k - 1, before);
      at := before;
      assert Where(runs, p, k) == kept;
    }
  }

  lemma {:induction false} WhereIn(runs: seq<RunRow>, p: RunRow -> bool, k: nat, r: RunRow)
    requires k <= |runs|
    ensures r in Where(runs, p, k) <==> p(r) && exists i | 0 <= i < k :: runs[i] == r
  {
    if k > 0 {
      WhereIn(runs, p, k - 1, r);
    }
  }

  lemma WhereDistinct(runs: seq<RunRow>, p: RunRow -> bool)
    requires DistinctIds(runs)
    ensures DistinctIds(Where(runs, p, |runs|))
  {
    var kept := Where(runs, p, |runs|);
    var at := WherePicked(runs, p, |runs|);
    forall i, j | 0 <= i < |kept| && 0 <= j < |kept| && kept[i].id == kept[j].id
      ensures i == j
    {
      assert runs[at[i]].id == runs[at[j]].id;
    }
  }

  lemma {:induction false} SomeNewest(runs: seq<RunRow>, target: string, k: nat) returns (i: nat)
    requires k <= |runs| && exists j | 0 <= j < k :: runs[j].target == target
    ensures i < k && runs[i].target == target
    ensures forall j | 0 <= j < k && runs[j].target == target :: runs[j].id <= runs[i].id
  {
    if exists j | 0 <= j < k - 1 :: runs[j].target == target {
      i := SomeNewest(runs, target, k - 1);
      if runs[k - 1].target == target && runs[k - 1].id > runs[i].id {
        i := k - 1;
      }
    } else {
      i := k - 1;
    }
  }

  lemma TargetKept(runs: seq<RunRow>, r: RunRow) returns (n: RunRow)
    requires r in runs
    ensures n in Where(runs, NewestOf(runs), |runs|) && n.target == r.target
  {
    var i := SomeNewest(runs, r.target, |runs|);
    n := runs[i];
    assert IsNewest(runs, n);
    WhereIn(runs, NewestOf(runs), |runs|, n);
  }

  /** At most one run of a target is kept. */
  lemma OnePerTarget(runs: seq<RunRow>, i: nat, j: nat)
    requires DistinctIds(runs)
    requires i < |Where(runs, NewestOf(runs), |runs|)| && j < |Where(runs, NewestOf(runs), |runs|)|
    requires Where(runs, NewestOf(runs), |runs|)[i].target == Where(runs, NewestOf(runs), |runs|)[j].target
    ensures i == j
  {
    var kept := Where(runs, NewestOf(runs), |runs|);
    var at := WherePicked(runs, NewestOf(runs), |runs|);
    WhereIn(runs, NewestOf(runs), |runs|, kept[i]);
    WhereIn(runs, NewestOf(runs), |runs|, kept[j]);
    assert runs[at[i]].id == runs[at[j]].id;
  }

  lemma {:induction false} SelectedAt(runs: seq<RunRow>, runId: nat, i: nat, k: nat)
    requires DistinctIds(runs) && i <= k < |runs| && runs[k].id == runId
    ensures Selected(runs, runId, i) == Selected(runs, runId, k)
    decreases k - i
  {
    if i < k {
      assert runs[i].id != runId;
      SelectedAt(runs, runId, i + 1, k);
    }
  }

  /** Which runs are shown for a run of an execution: those of the execution that no later attempt of the
      same target follows. */
  lemma ShownForExecution(runs: seq<RunRow>, runId: nat, k: nat, n: RunRow)
    requires DistinctIds(runs) && k < |runs| && runs[k].id == runId
    requires runs[k].execution.Some? && runs[k].execution.value != ""
    ensures n in Selected(runs, runId, 0) <==>
              && n in runs && n.execution == runs[k].execution
              && forall r | r in runs && r.execution == n.execution && r.target == n.target :: r.id <= n.id
  {
    SelectedAt(runs, runId, 0, k);
    var own := Where(runs, Belongs(runs[k].execution), |runs|);
    WhereIn(own, NewestOf(own), |own|, n);
    forall r
      ensures r in own <==> r in runs && r.execution == runs[k].execution
    {
      WhereIn(runs, Belongs(runs[k].execution), |runs|, r);
    }
  }

  /** They are shown in list order, exactly one for every target the execution ran on. */
  lemma ShownOncePerTarget(runs: seq<RunRow>, runId: nat, k: nat, r: RunRow) returns (n: RunRow, at: seq<nat>)
    requires DistinctIds(runs) && k < |runs| && runs[k].id == runId
    requires runs[k].execution.Some? && runs[k].execution.value != ""
    requires r in runs && r.execution == runs[k].execution
    ensures n in Selected(runs, runId, 0) && n.target == r.target
    ensures forall i, j | 0 <= i < |Selected(runs, runId, 0)| && 0 <= j < |Selected(runs, runId, 0)| &&
                          Selected(runs, runId, 0)[i].target == Selected(runs, runId, 0)[j].target :: i == j
    ensures PickedAt(Selected(runs, runId, 0), runs, |runs|, at)
  {
    SelectedAt(runs, runId, 0, k);
    var own := Where(runs, Belongs(runs[k].execution), |runs|);
    var shown := Where(own, NewestOf(own), |own|);
    WhereIn(runs, Belongs(runs[k].execution), |runs|, r);
    n := TargetKept(own, r);
    WhereDistinct(runs, Belongs(runs[k].execution));
    forall i, j | 0 <= i < |shown| && 0 <= j < |shown| && shown[i].target == shown[j].target
      ensures i == j
    {
      OnePerTarget(own, i, j);
    }
    var inner := WherePicked(own, NewestOf(own), |own|);
    var outer := WherePicked(runs, Belongs(runs[k].execution), |runs|);
    at := seq(|inner|, i requires 0 <= i < |inner| => outer[inner[i]]);
  }
}
