/** What the dispatch lock guarantees over whole runs of the protocol, and where the guarantees stop. */
module DispatchSafety {
  import opened Wrappers
  import opened DispatchStore
  import opened DispatchLock

  // ------------------------------------------------------ runs without a retry after a partial spawn

  /** A parent is not retried once it has spawned a child. */
  predicate IsCareful(s: State, e: Event) {
    e.ParentRetries? && e.t in s.runs && s.runs[e.t].phase.Spawning? ==> s.runs[e.t].phase.spawned == 0
  }

  ghost predicate OrderlyAt(evs: seq<Event>, j: nat)
    requires j < |evs|
  {
    Replay(evs, j).Some? ==> !IsExpiry(evs[j]) && IsCareful(Replay(evs, j).value, evs[j])
  }

  /** All events happened in turn, none was an expiry, and no parent was retried after a partial spawn. */
  ghost predicate IsOrderly(evs: seq<Event>, k: nat)
    requires k <= |evs|
  {
    Replay(evs, k).Some? && forall j: nat | j < k :: OrderlyAt(evs, j)
  }

  /** Then a run has spawned no more children than its quota. */
  ghost predicate WithinQuota(r: Run) {
    && |r.children| <= Quota(r)
    && (r.phase.Acquiring? || r.phase.Pending? || r.released ==> r.children == [])
    && (r.phase.Spawning? ==> |r.children| == r.phase.spawned)
  }

  ghost predicate AllWithinQuota(s: State) {
    forall t | t in s.runs :: WithinQuota(s.runs[t])
  }

  lemma StepWithinQuota(s: State, e: Event)
    requires Inv(s) && AllWithinQuota(s) && Enabled(s, e) && !IsExpiry(e) && IsCareful(s, e)
    ensures AllWithinQuota(Apply(s, e))
  {
    if IsOwnStep(e) {
      var r := s.runs[e.t];
      assert RunInv(s.store, e.t, r) && WithinQuota(r);
      CountsAfter(r, e);
      assert WithinQuota(RunAfter(r, e));
    }
  }

  lemma ReplayPrefix(evs: seq<Event>, k: nat)
    requires 0 < k <= |evs| && Replay(evs, k).Some?
    ensures Replay(evs, k - 1).Some? && Enabled(Replay(evs, k - 1).value, evs[k - 1])
    ensures Replay(evs, k).value == Apply(Replay(evs, k - 1).value, evs[k - 1])
  {
  }

  lemma {:induction false} OrderlyInv(evs: seq<Event>, k: nat)
    requires k <= |evs| && IsOrderly(evs, k)
    ensures Inv(Replay(evs, k).value) && AllWithinQuota(Replay(evs, k).value)
  {
    if k > 0 {
      ReplayPrefix(evs, k);
      OrderlyInv(evs, k - 1);
      assert OrderlyAt(evs, k - 1);
      StepInv(Replay(evs, k - 1).value, evs[k - 1]);
      StepWithinQuota(Replay(evs, k - 1).value, evs[k - 1]);
    }
  }

  // ------------------------------------------------------ safety

  /** Children not finished yet: those running and those still to be spawned. */
  function Outstanding(r: Run): int {
    CountOf(r, Active) + Quota(r) - |r.children|
  }

  /** Work is left: the parent has not spawned all of its children, or a child is running. */
  predicate IsLive(r: Run) {
    || r.phase.Acquiring? || r.phase.Pending?
    || (r.phase.Spawning? && r.phase.spawned < Quota(r))
    || CountOf(r, Active) > 0
  }

  /** The lock stays with a stored run as long as it is live. */
  lemma LiveRunHoldsLock(s: State, t: Token)
    requires Inv(s) && AllWithinQuota(s) && t in s.runs && !s.runs[t].stored.Neither? && IsLive(s.runs[t])
    ensures HoldsLock(s.store, t)
  {
    var r := s.runs[t];
    assert RunInv(s.store, t, r) && WithinQuota(r);
    PhasesAddUp(r.children, |r.children|);
  }

  predicate LiveAndStored(r: Run) {
    !r.stored.Neither? && IsLive(r)
  }

  ghost predicate OneLiveRun(s: State) {
    forall t, u | t in s.runs && u in s.runs && LiveAndStored(s.runs[t]) && LiveAndStored(s.runs[u]) :: t == u
  }

  /** The counter says how many children of t are outstanding; a dispatch without targets counts its one
      default child from zero. */
  predicate CounterIsRight(s: State, t: Token) {
    t in s.runs &&
    s.store.counter == Some(Counter(t, Outstanding(s.runs[t]) - if s.runs[t].count == 0 then 1 else 0))
  }

  lemma CounterCountsOutstanding(s: State, t: Token)
    requires Inv(s) && t in s.runs && s.runs[t].stored.Both? && HoldsLock(s.store, t) && CountOf(s.runs[t], Lost) == 0
    ensures CounterIsRight(s, t)
  {
    assert RunInv(s.store, t, s.runs[t]);
    PhasesAddUp(s.runs[t].children, |s.runs[t].children|);
  }

  /** Over every interleaving without expiry and without a retry after a partial spawn: the counter
      belongs to the lock's owner, at most one run with stored keys is live, and the counter counts the
      owner's outstanding children. */
  lemma Safety(evs: seq<Event>)
    requires IsOrderly(evs, |evs|)
    ensures var s := Replay(evs, |evs|).value;
            && (s.store.counter.Some? ==> HoldsLock(s.store, s.store.counter.value.token))
            && LocksHeld(s) && OneLiveRun(s)
            && (forall t | t in s.runs && s.runs[t].stored.Both? && HoldsLock(s.store, t) ::
                  CountOf(s.runs[t], Lost) == 0 ==> CounterIsRight(s, t))
  {
    var s := Replay(evs, |evs|).value;
    OrderlyInv(evs, |evs|);
    forall t | t in s.runs && LiveAndStored(s.runs[t])
      ensures HoldsLock(s.store, t)
    {
      LiveRunHoldsLock(s, t);
    }
    HeldLocksExclude(s);
    forall t | t in s.runs && s.runs[t].stored.Both? && HoldsLock(s.store, t) && CountOf(s.runs[t], Lost) == 0
      ensures CounterIsRight(s, t)
    {
      CounterCountsOutstanding(s, t);
    }
  }

  /** When the lock of a counted run is free: all children of its quota are recorded, or the parent ended
      without spawning and could reach Valkey. */
  lemma FreeIffRecordedOrReleased(evs: seq<Event>, t: Token)
    requires IsOrderly(evs, |evs|)
    requires var s := Replay(evs, |evs|).value; t in s.runs && s.runs[t].stored.Both?
    ensures var s := Replay(evs, |evs|).value;
            var r := s.runs[t];
            !HoldsLock(s.store, t) <==> r.released || CountOf(r, Recorded) == Quota(r)
  {
    var s := Replay(evs, |evs|).value;
    OrderlyInv(evs, |evs|);
    assert RunInv(s.store, t, s.runs[t]) && WithinQuota(s.runs[t]);
    PhasesAddUp(s.runs[t].children, |s.runs[t].children|);
  }

  /** Without expiry, only the end of one of its own tasks takes a run's lock away. */
  lemma OnlyOwnEndsFree(s: State, e: Event, t: Token)
    requires Inv(s) && Enabled(s, e) && !IsExpiry(e) && HoldsLock(s.store, t) && !HoldsLock(Apply(s, e).store, t)
    ensures (e.ChildEnds? || e.ParentEnds?) && e.t == t
  {
    if IsOwnStep(e) {
      RunEventKeepsOthers(s, e);
      assert RunInv(s.store, e.t, s.runs[e.t]);
    }
  }

  lemma FreedWhenDone(s: State, e: Event, t: Token)
    requires Inv(s) && AllWithinQuota(s) && Enabled(s, e) && AllWithinQuota(Apply(s, e)) && t in s.runs
    requires (e.ChildEnds? || e.ParentEnds?) && e.t == t && s.runs[t].stored.Both?
    requires HoldsLock(s.store, t) && !HoldsLock(Apply(s, e).store, t)
    ensures var r := RunAfter(s.runs[t], e);
            !IsLive(r) && if e.ChildEnds? then CountOf(r, Recorded) == |r.children| == Quota(r) else r.children == []
  {
    var r := RunAfter(s.runs[t], e);
    assert RunInv(s.store, t, s.runs[t]) && WithinQuota(s.runs[t]);
    RunEventInv(s, e);
    CountsAfter(s.runs[t], e);
    assert Apply(s, e).runs[t] == r && WithinQuota(r);
    PhasesAddUp(r.children, |r.children|);
  }

  /** The lock of a counted run is freed by the end of its last child or of its childless parent, and by
      nothing else. */
  lemma FreedByTheLast(evs: seq<Event>, k: nat, t: Token)
    requires k < |evs| && IsOrderly(evs, k + 1)
    requires Replay(evs, k).Some? && t in Replay(evs, k).value.runs && Replay(evs, k).value.runs[t].stored.Both?
    requires HoldsLock(Replay(evs, k).value.store, t) && !HoldsLock(Replay(evs, k + 1).value.store, t)
    ensures (evs[k].ChildEnds? || evs[k].ParentEnds?) && evs[k].t == t
    ensures var r := RunAfter(Replay(evs, k).value.runs[t], evs[k]);
            !IsLive(r) &&
            if evs[k].ChildEnds? then CountOf(r, Recorded) == |r.children| == Quota(r) else r.children == []
  {
    ReplayPrefix(evs, k + 1);
    OrderlyInv(evs, k);
    OrderlyInv(evs, k + 1);
    assert OrderlyAt(evs, k);
    OnlyOwnEndsFree(Replay(evs, k).value, evs[k], t);
    FreedWhenDone(Replay(evs, k).value, evs[k], t);
  }

  /** Exactly which end of a task frees the lock of a counted run: the recorded end of the child that completes
      the quota, or the recorded end of a parent that has not started to spawn. */
  lemma FreesIff(evs: seq<Event>, k: nat, t: Token)
    requires k < |evs| && IsOrderly(evs, k + 1) && Replay(evs, k).Some?
    requires (evs[k].ChildEnds? || evs[k].ParentEnds?) && evs[k].t == t
    requires t in Replay(evs, k).value.runs && Replay(evs, k).value.runs[t].stored.Both?
    requires HoldsLock(Replay(evs, k).value.store, t)
    ensures var r := Replay(evs, k).value.runs[t];
            !HoldsLock(Replay(evs, k + 1).value.store, t) <==>
            evs[k].reached && if evs[k].ChildEnds? then CountOf(r, Recorded) + 1 == Quota(r) else r.phase.Pending?
  {
    ReplayPrefix(evs, k + 1);
    OrderlyInv(evs, k);
    assert RunInv(Replay(evs, k).value.store, t, Replay(evs, k).value.runs[t]);
  }

  /** The lock of a run that is through is left behind exactly when its parent released nothing and fewer children
      were recorded than it counted: ends went unrecorded, or children were never spawned. */
  lemma LeftBehindIff(evs: seq<Event>, t: Token)
    requires IsOrderly(evs, |evs|)
    requires var s := Replay(evs, |evs|).value;
             t in s.runs && s.runs[t].stored.Both? && s.runs[t].phase.Ended? && !IsLive(s.runs[t])
    ensures var s := Replay(evs, |evs|).value;
            var r := s.runs[t];
            HoldsLock(s.store, t) <==> !r.released && |r.children| - CountOf(r, Lost) < Quota(r)
  {
    var s := Replay(evs, |evs|).value;
    OrderlyInv(evs, |evs|);
    assert RunInv(s.store, t, s.runs[t]) && WithinQuota(s.runs[t]);
    PhasesAddUp(s.runs[t].children, |s.runs[t].children|);
  }

  /** Postruns of a task so far: its retries, and one more when it has ended. */
  function ParentPostruns(r: Run): nat {
    r.retries + if r.phase.Ended? then 1 else 0
  }

  function ChildPostruns(c: ChildTask): nat {
    c.retries + if c.phase.Active? then 0 else 1
  }

  ghost predicate FewRetries(s: State) {
    forall t | t in s.runs ::
      s.runs[t].retries <= MAX_RETRIES && forall c | c in s.runs[t].children :: c.retries <= MAX_RETRIES
  }

  lemma {:induction false} ReplayFewRetries(evs: seq<Event>, k: nat)
    requires k <= |evs| && Replay(evs, k).Some?
    ensures FewRetries(Replay(evs, k).value)
  {
    if k > 0 {
      ReplayFewRetries(evs, k - 1);
    }
  }

  /** A remark: whatever happens, expiry included, no task ends more than four times, because a retry needs one of
      the three the source allows. */
  lemma AtMostFourPostruns(evs: seq<Event>, t: Token)
    requires Replay(evs, |evs|).Some? && t in Replay(evs, |evs|).value.runs
    ensures ParentPostruns(Replay(evs, |evs|).value.runs[t]) <= 4
    ensures forall c | c in Replay(evs, |evs|).value.runs[t].children :: ChildPostruns(c) <= 4
  {
    ReplayFewRetries(evs, |evs|);
  }

  // ------------------------------------------------------ when the lock is given up too early

  /** Every live run that stored its token holds the lock; so there is at most one. */
  ghost predicate LocksHeld(s: State) {
    forall t | t in s.runs && LiveAndStored(s.runs[t]) :: HoldsLock(s.store, t)
  }

  /** A parent that will still spawn. */
  predicate WillSpawn(r: Run) {
    r.phase.Pending? || (r.phase.Spawning? && r.phase.spawned < Quota(r))
  }

  /** The three ways to leave a live run without its lock: a recorded child completes the quota although the parent
      will spawn again or more children were spawned than counted; a parent that was retried gives the lock back
      without spawning, while children of an earlier attempt are at work; a parent is retried after its children
      have freed the lock. */
  predicate GivesUpEarly(s: State, e: Event) {
    match e
    case ChildEnds(t, _, reached) =>
      t in s.runs && reached &&
      var r := s.runs[t];
      r.stored.Both? && HoldsLock(s.store, t) && CountOf(r, Recorded) + 1 >= Quota(r) &&
      (WillSpawn(r) || |r.children| - CountOf(r, Lost) > Quota(r))
    case ParentEnds(t, reached) =>
      t in s.runs && reached &&
      var r := s.runs[t];
      !r.stored.Neither? && r.phase.Pending? && CountOf(r, Active) > 0
    case ParentRetries(t) => t in s.runs && !s.runs[t].stored.Neither? && !HoldsLock(s.store, t)
    case _ => false
  }

  lemma ParentStepKeepsLockIff(s: State, e: Event)
    requires Inv(s) && LocksHeld(s) && Enabled(s, e)
    requires e.StoreCounter? || e.CounterFails? || e.ParentRetries? || e.StartSpawning? || e.ParentEnds?
    ensures var r := RunAfter(s.runs[e.t], e);
            GivesUpEarly(s, e) <==> LiveAndStored(r) && !HoldsLock(StoreAfter(s, e), e.t)
  {
    var r := s.runs[e.t];
    assert RunInv(s.store, e.t, r);
    assert LiveAndStored(r) ==> HoldsLock(s.store, e.t);
    assert RunAfter(r, e).children == r.children;
  }

  lemma ChildStepKeepsLockIff(s: State, e: Event)
    requires Inv(s) && LocksHeld(s) && Enabled(s, e) && (e.SpawnChild? || e.ChildRetries? || e.ChildEnds?)
    ensures var r := RunAfter(s.runs[e.t], e);
            GivesUpEarly(s, e) <==> LiveAndStored(r) && !HoldsLock(StoreAfter(s, e), e.t)
  {
    var r := s.runs[e.t];
    assert RunInv(s.store, e.t, r);
    assert LiveAndStored(r) ==> HoldsLock(s.store, e.t);
    CountsAfter(r, e);
    PhasesAddUp(r.children, |r.children|);
    PhasesAddUp(RunAfter(r, e).children, |RunAfter(r, e).children|);
  }

  /** A step without expiry leaves a live run without its lock exactly in those three ways. */
  lemma StepKeepsLocksIff(s: State, e: Event)
    requires Inv(s) && LocksHeld(s) && Enabled(s, e) && !IsExpiry(e)
    ensures LocksHeld(Apply(s, e)) <==> !GivesUpEarly(s, e)
  {
    var s' := Apply(s, e);
    if e.Acquire? || e.AcquireBoth? || e.FailOpen? {
      AcquiringKeepsLocks(s, e);
    } else if IsOwnStep(e) {
      if e.SpawnChild? || e.ChildRetries? || e.ChildEnds? {
        ChildStepKeepsLockIff(s, e);
      } else {
        ParentStepKeepsLockIff(s, e);
      }
      RunEventKeepsOthers(s, e);
      forall t | t in s'.runs && LiveAndStored(s'.runs[t]) && t != e.t
        ensures HoldsLock(s'.store, t)
      {
        assert LiveAndStored(s.runs[t]);
      }
    }
  }

  lemma AcquiringKeepsLocks(s: State, e: Event)
    requires Inv(s) && LocksHeld(s) && Enabled(s, e) && (e.Acquire? || e.AcquireBoth? || e.FailOpen?)
    ensures LocksHeld(Apply(s, e))
  {
    var s' := Apply(s, e);
    forall t | t in s'.runs && LiveAndStored(s'.runs[t])
      ensures HoldsLock(s'.store, t)
    {
      if t != e.t {
        assert LiveAndStored(s.runs[t]);
      }
    }
  }

  ghost predicate GivesUpAt(evs: seq<Event>, k: nat)
    requires k < |evs|
  {
    Replay(evs, k).Some? && GivesUpEarly(Replay(evs, k).value, evs[k])
  }

  /** None of the first n events gives a lock up early. */
  ghost predicate NeverGivesUp(evs: seq<Event>, n: nat)
    requires n <= |evs|
  {
    forall k: nat | k < n :: !GivesUpAt(evs, k)
  }

  ghost predicate LocksHeldAt(evs: seq<Event>, k: nat)
    requires k <= |evs|
  {
    Replay(evs, k).Some? ==> LocksHeld(Replay(evs, k).value)
  }

  ghost predicate LocksAlwaysHeld(evs: seq<Event>, n: nat)
    requires n <= |evs|
  {
    forall k: nat | k <= n :: LocksHeldAt(evs, k)
  }

  lemma NextKeepsLocksIff(evs: seq<Event>, n: nat)
    requires n < |evs| && Replay(evs, n + 1).Some? && (forall e | e in evs :: !IsExpiry(e)) && LocksHeldAt(evs, n)
    ensures LocksHeldAt(evs, n + 1) <==> !GivesUpAt(evs, n)
  {
    ReplayPrefix(evs, n + 1);
    ReplayInv(evs, n);
    StepKeepsLocksIff(Replay(evs, n).value, evs[n]);
  }

  /** Over every history without expiry, whatever is retried: a live run with stored token holds the lock at every
      moment if and only if no step gave the lock up early. */
  lemma {:induction false} LocksHeldIff(evs: seq<Event>, n: nat)
    requires n <= |evs| && Replay(evs, n).Some? && forall e | e in evs :: !IsExpiry(e)
    ensures LocksAlwaysHeld(evs, n) <==> NeverGivesUp(evs, n)
  {
    if n > 0 {
      ReplayPrefix(evs, n);
      LocksHeldIff(evs, n - 1);
      if LocksAlwaysHeld(evs, n - 1) {
        assert LocksHeldAt(evs, n - 1);
        NextKeepsLocksIff(evs, n - 1);
      }
    }
  }

  /** Locks that are held rule out two live stored runs. */
  lemma HeldLocksExclude(s: State)
    requires LocksHeld(s)
    ensures OneLiveRun(s)
  {
    forall t, u | t in s.runs && u in s.runs && LiveAndStored(s.runs[t]) && LiveAndStored(s.runs[u])
      ensures t == u
    {
      assert HoldsLock(s.store, t) && HoldsLock(s.store, u);
    }
  }

  /** Whatever was spawned, the child that frees the lock is the one that completes the quota. It leaves the run live
      exactly when the parent will spawn again or more children were spawned than counted. */
  lemma LiveWhenFreed(s: State, t: Token, i: nat)
    requires Inv(s) && Enabled(s, ChildEnds(t, i, true)) && s.runs[t].stored.Both? && HoldsLock(s.store, t)
    requires !HoldsLock(Apply(s, ChildEnds(t, i, true)).store, t)
    ensures var r, r' := s.runs[t], Apply(s, ChildEnds(t, i, true)).runs[t];
            && CountOf(r', Active) + CountOf(r', Lost) == |r'.children| - Quota(r')
            && (IsLive(r') <==> WillSpawn(r) || |r.children| - CountOf(r, Lost) > Quota(r))
  {
    var r := s.runs[t];
    assert RunInv(s.store, t, r);
    CountsAfter(r, ChildEnds(t, i, true));
    var r' := RunAfter(r, ChildEnds(t, i, true));
    PhasesAddUp(r'.children, |r'.children|);
  }

  // ------------------------------------------------------ histories

  lemma {:induction false} ReplayLonger(evs: seq<Event>, e: Event, k: nat)
    requires k <= |evs|
    ensures Replay(evs + [e], k) == Replay(evs, k)
  {
    if k > 0 {
      ReplayLonger(evs, e, k - 1);
    }
  }

  /** One more event at the end of a replay. */
  lemma Then(evs: seq<Event>, s: State, e: Event) returns (evs': seq<Event>, s': State)
    requires Replay(evs, |evs|) == Some(s) && Enabled(s, e)
    ensures evs' == evs + [e] && s' == Apply(s, e) && Replay(evs', |evs'|) == Some(s')
  {
    ReplayLonger(evs, e, |evs|);
    evs', s' := evs + [e], Apply(s, e);
  }

  /** One more orderly event at the end of an orderly replay. */
  lemma ThenOrderly(evs: seq<Event>, s: State, e: Event) returns (evs': seq<Event>, s': State)
    requires Replay(evs, |evs|) == Some(s) && IsOrderly(evs, |evs|)
    requires Enabled(s, e) && !IsExpiry(e) && IsCareful(s, e)
    ensures evs' == evs + [e] && s' == Apply(s, e) && Replay(evs', |evs'|) == Some(s') && IsOrderly(evs', |evs'|)
  {
    evs', s' := Then(evs, s, e);
    forall j: nat | j < |evs'|
      ensures OrderlyAt(evs', j)
    {
      ReplayLonger(evs, e, j);
      if j < |evs| {
        assert OrderlyAt(evs, j);
      }
    }
  }

  lemma Acquired(a: Token, n: nat) returns (evs: seq<Event>, s: State)
    requires a != ""
    ensures Replay(evs, |evs|) == Some(s) && IsOrderly(evs, |evs|) && s.store == Store(Some(a), Some(Counter(a, n)))
    ensures s.runs == map[a := Run(n, Both, Pending, 0, [], false)]
  {
    evs, s := ThenOrderly([], Initial, Acquire(a, n));
    assert s.runs[a] == Run(n, LockOnly, Acquiring, 0, [], false);
    evs, s := ThenOrderly(evs, s, StoreCounter(a));
  }

  /** Run a dispatches n children and has spawned the first. */
  lemma Dispatched(a: Token, n: nat) returns (evs: seq<Event>, s: State)
    requires a != "" && n > 0
    ensures Replay(evs, |evs|) == Some(s) && s.store == Store(Some(a), Some(Counter(a, n))) && s.runs.Keys == {a}
    ensures s.runs[a] == Run(n, Both, Spawning(1), 0, [ChildTask(0, Active)], false)
  {
    evs, s := Acquired(a, n);
    evs, s := Then(evs, s, StartSpawning(a));
    evs, s := Then(evs, s, SpawnChild(a));
  }

  lemma RetriedAfterSpawn(a: Token) returns (evs: seq<Event>, s: State)
    requires a != ""
    ensures Replay(evs, |evs|) == Some(s) && s.store == Store(Some(a), Some(Counter(a, 2))) && s.runs.Keys == {a}
    ensures s.runs[a] == Run(2, Both, Spawning(0), 1, [ChildTask(0, Active)], false)
  {
    evs, s := Dispatched(a, 2);
    evs, s := Then(evs, s, ParentRetries(a));
    evs, s := Then(evs, s, StartSpawning(a));
  }

  /** Of two children it spawns one, fails, is retried, and spawns two more. */
  lemma PartialSpawn(a: Token) returns (evs: seq<Event>, s: State)
    requires a != ""
    ensures Replay(evs, |evs|) == Some(s) && s.store == Store(Some(a), Some(Counter(a, 2))) && s.runs.Keys == {a}
    ensures s.runs[a] ==
            Run(2, Both, Spawning(2), 1, [ChildTask(0, Active), ChildTask(0, Active), ChildTask(0, Active)], false)
  {
    evs, s := RetriedAfterSpawn(a);
    evs, s := Then(evs, s, SpawnChild(a));
    assert s.runs[a] == Run(2, Both, Spawning(1), 1, [ChildTask(0, Active), ChildTask(0, Active)], false);
    evs, s := Then(evs, s, SpawnChild(a));
  }

  /** The first two to finish free the lock. */
  lemma PartialSpawnFreed(a: Token) returns (evs: seq<Event>, s: State)
    requires a != ""
    ensures Replay(evs, |evs|) == Some(s) && s.store == Store(None, None) && s.runs.Keys == {a}
    ensures s.runs[a] == Run(2, Both, Spawning(2), 1,
                             [ChildTask(0, Recorded), ChildTask(0, Recorded), ChildTask(0, Active)], false)
  {
    evs, s := PartialSpawn(a);
    evs, s := Then(evs, s, ChildEnds(a, 0, true));
    assert s.runs[a].children == [ChildTask(0, Recorded), ChildTask(0, Active), ChildTask(0, Active)];
    assert s.store == Store(Some(a), Some(Counter(a, 1)));
    evs, s := Then(evs, s, ChildEnds(a, 1, true));
  }

  /** It does happen: with one child of the first run still at work, a second run acquires the lock. */
  lemma PartialSpawnBreaksExclusion(a: Token, b: Token) returns (evs: seq<Event>, s: State)
    requires a != "" && b != "" && a != b
    ensures Replay(evs, |evs|) == Some(s) && a in s.runs && b in s.runs
    ensures s.runs[a].stored.Both? && s.runs[b].stored.Both? && IsLive(s.runs[a]) && IsLive(s.runs[b])
    ensures HoldsLock(s.store, b)
  {
    evs, s := PartialSpawnFreed(a);
    var r := s.runs[a];
    assert InPhase(r.children, Active, 3) == InPhase(r.children, Active, 2) + 1;
    evs, s := Then(evs, s, AcquireBoth(b, 1));
  }

  /** A second run acquires the free lock while the first is still live. */
  lemma SecondRunStarts(evs0: seq<Event>, s0: State, a: Token, b: Token) returns (evs: seq<Event>, s: State)
    requires Replay(evs0, |evs0|) == Some(s0) && s0.store.lock.None? && s0.runs.Keys == {a}
    requires LiveAndStored(s0.runs[a]) && b != "" && a != b
    ensures Replay(evs, |evs|) == Some(s) && a in s.runs && b in s.runs && s.runs[a] == s0.runs[a]
    ensures LiveAndStored(s.runs[a]) && LiveAndStored(s.runs[b]) && HoldsLock(s.store, b)
  {
    evs, s := Then(evs0, s0, AcquireBoth(b, 1));
  }

  /** Of two children a parent spawns one, twice over, and is waiting for its third attempt: the two children free
      the lock, although none of them is one too many. */
  lemma RetriedTwice(a: Token) returns (evs: seq<Event>, s: State)
    requires a != ""
    ensures Replay(evs, |evs|) == Some(s) && s.store == Store(Some(a), Some(Counter(a, 2))) && s.runs.Keys == {a}
    ensures s.runs[a] == Run(2, Both, Pending, 2, [ChildTask(0, Active), ChildTask(0, Active)], false)
  {
    evs, s := RetriedAfterSpawn(a);
    evs, s := Then(evs, s, SpawnChild(a));
    assert s.runs[a] == Run(2, Both, Spawning(1), 1, [ChildTask(0, Active), ChildTask(0, Active)], false);
    evs, s := Then(evs, s, ParentRetries(a));
  }

  lemma WaitingParentBreaksExclusion(a: Token, b: Token) returns (evs: seq<Event>, s: State)
    requires a != "" && b != "" && a != b
    ensures Replay(evs, |evs|) == Some(s) && a in s.runs && b in s.runs && |s.runs[a].children| == Quota(s.runs[a])
    ensures LiveAndStored(s.runs[a]) && LiveAndStored(s.runs[b]) && HoldsLock(s.store, b)
  {
    evs, s := RetriedTwice(a);
    evs, s := Then(evs, s, ChildEnds(a, 0, true));
    assert s.runs[a].children == [ChildTask(0, Recorded), ChildTask(0, Active)];
    assert s.store == Store(Some(a), Some(Counter(a, 1)));
    evs, s := Then(evs, s, ChildEnds(a, 1, true));
    evs, s := SecondRunStarts(evs, s, a, b);
  }

  /** A parent retried after a partial spawn fails before it spawns again: it gives the lock back while its first
      child is at work. */
  lemma ReleasingParentBreaksExclusion(a: Token, b: Token) returns (evs: seq<Event>, s: State)
    requires a != "" && b != "" && a != b
    ensures Replay(evs, |evs|) == Some(s) && a in s.runs && b in s.runs
    ensures LiveAndStored(s.runs[a]) && LiveAndStored(s.runs[b]) && HoldsLock(s.store, b)
  {
    evs, s := Dispatched(a, 2);
    evs, s := Then(evs, s, ParentRetries(a));
    evs, s := Then(evs, s, ParentEnds(a, true));
    assert InPhase(s.runs[a].children, Active, 1) == InPhase(s.runs[a].children, Active, 0) + 1;
    evs, s := SecondRunStarts(evs, s, a, b);
  }

  /** A parent is retried after its only child has freed the lock. */
  lemma LateRetryBreaksExclusion(a: Token, b: Token) returns (evs: seq<Event>, s: State)
    requires a != "" && b != "" && a != b
    ensures Replay(evs, |evs|) == Some(s) && a in s.runs && b in s.runs
    ensures LiveAndStored(s.runs[a]) && LiveAndStored(s.runs[b]) && HoldsLock(s.store, b)
  {
    evs, s := Dispatched(a, 1);
    evs, s := Then(evs, s, ChildEnds(a, 0, true));
    evs, s := Then(evs, s, ParentRetries(a));
    evs, s := SecondRunStarts(evs, s, a, b);
  }

  /** A run on its last attempt, nothing spawned yet. */
  lemma LastAttempt(a: Token) returns (evs: seq<Event>, s: State)
    requires a != ""
    ensures Replay(evs, |evs|) == Some(s) && IsOrderly(evs, |evs|) && s.store == Store(Some(a), Some(Counter(a, 2)))
    ensures s.runs == map[a := Run(2, Both, Pending, 3, [], false)]
  {
    evs, s := Acquired(a, 2);
    evs, s := ThenOrderly(evs, s, ParentRetries(a));
    assert s.runs[a] == Run(2, Both, Pending, 1, [], false);
    evs, s := ThenOrderly(evs, s, ParentRetries(a));
    assert s.runs[a] == Run(2, Both, Pending, 2, [], false);
    evs, s := ThenOrderly(evs, s, ParentRetries(a));
  }

  /** An orderly history that leaves the lock behind with Valkey always within reach: the last attempt fails on its
      first child, but the flag that says that children exist is already set. */
  lemma ChildlessParentLeavesLock(a: Token) returns (evs: seq<Event>, s: State)
    requires a != ""
    ensures Replay(evs, |evs|) == Some(s) && IsOrderly(evs, |evs|)
    ensures s.runs == map[a := Run(2, Both, Ended, 3, [], false)] && !IsLive(s.runs[a]) && HoldsLock(s.store, a)
  {
    evs, s := LastAttempt(a);
    evs, s := ThenOrderly(evs, s, StartSpawning(a));
    assert s.runs[a] == Run(2, Both, Spawning(0), 3, [], false);
    evs, s := ThenOrderly(evs, s, ParentEnds(a, true));
  }

  // ------------------------------------------------------ isolation under expiry

  /** Dispatches whose two SETs happen as one step. */
  predicate IsAtomic(e: Event) {
    !e.Acquire? && !e.StoreCounter? && !e.CounterFails?
  }

  ghost predicate IsolationInv(s: State) {
    && (s.store.counter.Some? ==> s.store.lock.None? || HoldsLock(s.store, s.store.counter.value.token))
    && (s.store.lock.Some? ==> s.store.lock.value in s.runs && !s.runs[s.store.lock.value].stored.Neither?)
    && (s.store.counter.Some? ==>
          s.store.counter.value.token in s.runs && !s.runs[s.store.counter.value.token].stored.Neither?)
    && (forall t | t in s.runs :: !s.runs[t].phase.Acquiring?)
  }

  lemma StepIsolationInv(s: State, e: Event)
    requires IsolationInv(s) && Enabled(s, e) && IsAtomic(e)
    ensures IsolationInv(Apply(s, e))
  {
  }

  lemma {:induction false} ReplayIsolationInv(evs: seq<Event>, k: nat)
    requires k <= |evs| && Replay(evs, k).Some? && forall e | e in evs :: IsAtomic(e)
    ensures IsolationInv(Replay(evs, k).value)
  {
    if k > 0 {
      ReplayIsolationInv(evs, k - 1);
      StepIsolationInv(Replay(evs, k - 1).value, evs[k - 1]);
    }
  }

  /** With either key free to expire at any moment: no step of a run's tasks removes or changes another
      run's lock or counter, and a run that owns neither key, be it superseded or never stored, changes
      nothing at all. */
  lemma Isolation(evs: seq<Event>, k: nat)
    requires k < |evs| && Replay(evs, k + 1).Some? && forall e | e in evs :: IsAtomic(e)
    requires evs[k].ParentRetries? || evs[k].ParentEnds? || evs[k].ChildRetries? || evs[k].ChildEnds?
    ensures var s, s' := Replay(evs, k).value, Replay(evs, k + 1).value;
            var t := evs[k].t;
            && OthersUntouched(s.store, s'.store, t)
            && (!HoldsLock(s.store, t) && !HoldsCounter(s.store, t) ==> s'.store == s.store)
            && (t in s.runs && s.runs[t].stored.Neither? ==> s'.store == s.store)
  {
    ReplayPrefix(evs, k + 1);
    ReplayIsolationInv(evs, k);
  }

  /** Whatever happened before, expiry included, the end of a task without a token changes nothing: it takes no lock
      away from a scheduled run of the same schedule. */
  lemma TokenlessChangesNothing(evs: seq<Event>, k: nat)
    requires k < |evs| && Replay(evs, k + 1).Some? && evs[k].TokenlessEnds?
    ensures Replay(evs, k + 1) == Replay(evs, k)
  {
    ReplayPrefix(evs, k + 1);
    var s := Replay(evs, k).value;
    assert Apply(s, evs[k]) == State(s.store, s.runs);
  }

  /** The two SETs matter: when the lock alone expires and the next dispatch is caught between its SETs,
      the last child of the old run takes the new run's lock away. */
  lemma TwoStepAcquireBreaksIsolation(a: Token, b: Token) returns (evs: seq<Event>, s: State, s': State)
    requires a != "" && b != "" && a != b
    ensures Replay(evs, |evs|) == Some(s) && Enabled(s, ChildEnds(a, 0, true)) && s' == Apply(s, ChildEnds(a, 0, true))
    ensures HoldsLock(s.store, b) && !HoldsLock(s'.store, b)
  {
    evs, s := Dispatched(a, 1);
    evs, s := Then(evs, s, ExpireLock);
    evs, s := Then(evs, s, Acquire(b, 1));
    s' := Apply(s, ChildEnds(a, 0, true));
  }

  /** A dispatch whose second SET fails deletes the counter of the run before it when it gives its own lock back. */
  lemma FailedCounterBreaksIsolation(a: Token, b: Token) returns (evs: seq<Event>, s: State, s': State)
    requires a != "" && b != "" && a != b
    ensures Replay(evs, |evs|) == Some(s) && Enabled(s, ParentEnds(b, true)) && s' == Apply(s, ParentEnds(b, true))
    ensures HoldsCounter(s.store, a) && s'.store.counter.None?
  {
    evs, s := Dispatched(a, 1);
    evs, s := Then(evs, s, ExpireLock);
    evs, s := Then(evs, s, Acquire(b, 1));
    evs, s := Then(evs, s, CounterFails(b));
    s' := Apply(s, ParentEnds(b, true));
  }
}
