/** The per-schedule dispatch lock as a protocol: dispatches, parent tasks, their children and retries
    interleave freely over one lock and one counter. */
module DispatchLock {
  import opened Wrappers
  import opened DispatchStore

  const MAX_RETRIES := 3

  /** A child task: still to finish, finished with its countdown recorded, or finished unrecorded because
      Valkey could not be reached. */
  datatype ChildPhase = Active | Recorded | Lost

  datatype ChildTask = ChildTask(retries: nat, phase: ChildPhase)

  /** A parent task: between the two SETs of its dispatch, before spawning, spawning its children one by
      one, or ended. */
  datatype ParentPhase = Acquiring | Pending | Spawning(spawned: nat) | Ended

  /** Which keys the dispatch managed to store. */
  datatype Stored = Both | LockOnly | Neither

  datatype Run = Run(
    count: nat, stored: Stored, phase: ParentPhase, retries: nat, children: seq<ChildTask>, released: bool)

  datatype State = State(store: Store, runs: map<Token, Run>)

  const Initial := State(Store(None, None), map[])

  datatype Event =
    | Refused
    | Acquire(t: Token, count: nat)
    | StoreCounter(t: Token)
    | CounterFails(t: Token)
    | AcquireBoth(t: Token, count: nat)
    | FailOpen(t: Token, count: nat)
    | ParentRetries(t: Token)
    | StartSpawning(t: Token)
    | SpawnChild(t: Token)
    | ParentEnds(t: Token, reached: bool)
    | ChildRetries(t: Token, i: nat)
    | ChildEnds(t: Token, i: nat, reached: bool)
    | TokenlessEnds(empty: bool, task: Task, state: TaskState)
    | ExpireLock
    | ExpireCounter

  /** Children one attempt spawns: a dispatch without targets falls back to one default target. */
  function Quota(r: Run): nat {
    if r.count == 0 then 1 else r.count
  }

  predicate HasRun(s: State, t: Token, phase: ParentPhase) {
    t in s.runs && s.runs[t].phase == phase
  }

  predicate IsSpawning(s: State, t: Token) {
    t in s.runs && s.runs[t].phase.Spawning?
  }

  predicate IsFresh(s: State, t: Token) {
    t != "" && t !in s.runs
  }

  predicate Enabled(s: State, e: Event) {
    match e
    case Refused => s.store.lock.Some?
    case Acquire(t, _) => IsFresh(s, t) && s.store.lock.None?
    case StoreCounter(t) => HasRun(s, t, Acquiring)
    case CounterFails(t) => HasRun(s, t, Acquiring)
    case AcquireBoth(t, _) => IsFresh(s, t) && s.store.lock.None?
    case FailOpen(t, _) => IsFresh(s, t)
    case ParentRetries(t) => (HasRun(s, t, Pending) || IsSpawning(s, t)) && s.runs[t].retries < MAX_RETRIES
    case StartSpawning(t) => HasRun(s, t, Pending)
    case SpawnChild(t) => IsSpawning(s, t) && s.runs[t].phase.spawned < Quota(s.runs[t])
    case ParentEnds(t, _) => HasRun(s, t, Pending) || IsSpawning(s, t)
    case ChildRetries(t, i) =>
      t in s.runs && i < |s.runs[t].children| && s.runs[t].children[i].phase.Active? &&
      s.runs[t].children[i].retries < MAX_RETRIES
    case ChildEnds(t, i, _) => t in s.runs && i < |s.runs[t].children| && s.runs[t].children[i].phase.Active?
    case TokenlessEnds(_, _, _) => true
    case ExpireLock => s.store.lock.Some?
    case ExpireCounter => s.store.counter.Some?
  }

  /** The run after an event of its own. */
  function RunAfter(r: Run, e: Event): Run {
    match e
    case StoreCounter(_) => r.(stored := Both, phase := Pending)
    case CounterFails(_) => r.(phase := Pending)
    case ParentRetries(_) => r.(phase := Pending, retries := r.retries + 1)
    case StartSpawning(_) => r.(phase := Spawning(0))
    case SpawnChild(_) =>
      if r.phase.Spawning?
      then r.(phase := Spawning(r.phase.spawned + 1), children := r.children + [ChildTask(0, Active)]) else r
    case ParentEnds(_, reached) => r.(phase := Ended, released := r.phase.Pending? && reached)
    case ChildRetries(_, i) =>
      if i < |r.children|
      then r.(children := r.children[i := r.children[i].(retries := r.children[i].retries + 1)]) else r
    case ChildEnds(_, i, reached) =>
      if i < |r.children|
      then r.(children := r.children[i := r.children[i].(phase := if reached then Recorded else Lost)]) else r
    case _ => r
  }

  /** The token of a task queued without one: missing, or the empty text. */
  function NoToken(empty: bool): Option<Token> {
    if empty then Some("") else None
  }

  /** The keys after an event. Task ends go through the postrun hook. */
  function StoreAfter(s: State, e: Event): Store
    requires Enabled(s, e)
  {
    match e
    case Acquire(t, _) => s.store.(lock := Some(t))
    case StoreCounter(t) => s.store.(counter := Some(Counter(t, s.runs[t].count)))
    case AcquireBoth(t, count) => Store(Some(t), Some(Counter(t, count)))
    case ParentRetries(t) => Postrun(s.store, Some(t), Parent(s.runs[t].phase.Spawning?), Retry)
    case ParentEnds(t, reached) =>
      if reached then Postrun(s.store, Some(t), Parent(s.runs[t].phase.Spawning?), Terminal) else s.store
    case ChildRetries(t, _) => Postrun(s.store, Some(t), Child, Retry)
    case ChildEnds(t, _, reached) => if reached then Postrun(s.store, Some(t), Child, Terminal) else s.store
    case TokenlessEnds(empty, task, state) => Postrun(s.store, NoToken(empty), task, state)
    case ExpireLock => s.store.(lock := None)
    case ExpireCounter => s.store.(counter := None)
    case _ => s.store
  }

  function NewRun(e: Event): Run
    requires e.Acquire? || e.AcquireBoth? || e.FailOpen?
  {
    if e.Acquire? then Run(e.count, LockOnly, Acquiring, 0, [], false)
    else Run(e.count, if e.AcquireBoth? then Both else Neither, Pending, 0, [], false)
  }

  /** A refused dispatch, the end of a task without a token, and expiry belong to no run. */
  predicate OfNoRun(e: Event) {
    e.Refused? || e.TokenlessEnds? || e.ExpireLock? || e.ExpireCounter?
  }

  function Apply(s: State, e: Event): State
    requires Enabled(s, e)
  {
    var runs :=
      if OfNoRun(e) then s.runs
      else if e.Acquire? || e.AcquireBoth? || e.FailOpen? then s.runs[e.t := NewRun(e)]
      else s.runs[e.t := RunAfter(s.runs[e.t], e)];
    State(StoreAfter(s, e), runs)
  }

  /** The state after the first k events, provided each was possible when its turn came. */
  function Replay(evs: seq<Event>, k: nat): Option<State>
    requires k <= |evs|
  {
    if k == 0 then Some(Initial)
    else
      var s := Replay(evs, k - 1);
      if s.Some? && Enabled(s.value, evs[k - 1]) then Some(Apply(s.value, evs[k - 1])) else None
  }

  // ------------------------------------------------------ what is left to do

  /** How many of the first k children are in the given phase. */
  function InPhase(children: seq<ChildTask>, phase: ChildPhase, k: nat): nat
    requires k <= |children|
  {
    if k == 0 then 0 else InPhase(children, phase, k - 1) + if children[k - 1].phase == phase then 1 else 0
  }

  function CountOf(r: Run, phase: ChildPhase): nat {
    InPhase(r.children, phase, |r.children|)
  }

  lemma {:induction false} PhasesAddUp(children: seq<ChildTask>, k: nat)
    requires k <= |children|
    ensures InPhase(children, Active, k) + InPhase(children, Recorded, k) + InPhase(children, Lost, k) == k
  {
    if k > 0 {
      PhasesAddUp(children, k - 1);
    }
  }

  /** Changing one child moves one count only if its phase changes. */
  lemma {:induction false} OneChanges(children: seq<ChildTask>, i: nat, c: ChildTask, phase: ChildPhase, k: nat)
    requires i < |children| && k <= |children|
    ensures InPhase(children[i := c], phase, k) ==
            InPhase(children, phase, k) +
            (if i < k && c.phase == phase then 1 else 0) - (if i < k && children[i].phase == phase then 1 else 0)
  {
    if k > 0 {
      OneChanges(children, i, c, phase, k - 1);
    }
  }

  lemma {:induction false} OneMore(children: seq<ChildTask>, c: ChildTask, phase: ChildPhase, k: nat)
    requires k <= |children|
    ensures InPhase(children + [c], phase, k) == InPhase(children, phase, k)
  {
    if k > 0 {
      OneMore(children, c, phase, k - 1);
    }
  }

  /** The counts after an event of the run. */
  lemma CountsAfter(r: Run, e: Event)
    ensures var r' := RunAfter(r, e);
            && (e.SpawnChild? && r.phase.Spawning? ==>
                  |r'.children| == |r.children| + 1 && CountOf(r', Active) == CountOf(r, Active) + 1 &&
                  CountOf(r', Recorded) == CountOf(r, Recorded) && CountOf(r', Lost) == CountOf(r, Lost))
            && (e.ChildEnds? && e.i < |r.children| && r.children[e.i].phase.Active? ==>
                  |r'.children| == |r.children| && CountOf(r', Active) == CountOf(r, Active) - 1 &&
                  CountOf(r', Recorded) == CountOf(r, Recorded) + (if e.reached then 1 else 0) &&
                  CountOf(r', Lost) == CountOf(r, Lost) + (if e.reached then 0 else 1))
            && (e.ChildRetries? && e.i < |r.children| ==>
                  |r'.children| == |r.children| && CountOf(r', Active) == CountOf(r, Active) &&
                  CountOf(r', Recorded) == CountOf(r, Recorded) && CountOf(r', Lost) == CountOf(r, Lost))
  {
    var r' := RunAfter(r, e);
    if e.SpawnChild? && r.phase.Spawning? {
      forall phase {
        OneMore(r.children, ChildTask(0, Active), phase, |r.children|);
      }
    }
    if (e.ChildEnds? || e.ChildRetries?) && e.i < |r.children| {
      forall phase {
        OneChanges(r.children, e.i, r'.children[e.i], phase, |r.children|);
      }
    }
  }

  // ------------------------------------------------------ without expiry: the invariant

  predicate IsExpiry(e: Event) {
    e.ExpireLock? || e.ExpireCounter?
  }

  ghost predicate StoreInv(s: State) {
    && (s.store.counter.Some? ==> HoldsLock(s.store, s.store.counter.value.token))
    && (s.store.lock.Some? ==> s.store.lock.value in s.runs)
    && "" !in s.runs
  }

  /** How one run stands to the keys. A counted run holds the lock until its parent releases it or its
      quota of recorded children is reached, and meanwhile the counter says how many are still missing. */
  ghost predicate RunInv(st: Store, t: Token, r: Run) {
    && (r.stored.Neither? ==> !HoldsLock(st, t) && !HoldsCounter(st, t))
    && (r.stored.LockOnly? ==> !HoldsCounter(st, t) && (HoldsLock(st, t) <==> !r.released))
    && (r.stored.Both? && HoldsLock(st, t) ==>
          && !r.released
          && st.counter == Some(Counter(t, r.count - CountOf(r, Recorded)))
          && CountOf(r, Recorded) < Quota(r))
    && (r.stored.Both? && !HoldsLock(st, t) ==> r.released || CountOf(r, Recorded) >= Quota(r))
    && (r.released ==> r.phase.Ended?)
    && (r.phase.Acquiring? ==> r.stored.LockOnly? && r.children == [])
    && r.retries <= MAX_RETRIES
    && (forall c | c in r.children :: c.retries <= MAX_RETRIES)
  }

  ghost predicate Inv(s: State) {
    StoreInv(s) && forall t | t in s.runs :: RunInv(s.store, t, s.runs[t])
  }

  /** The keys of other runs are as before. */
  ghost predicate OthersKept(st: Store, st': Store, t: Token) {
    forall u | u != t ::
      && (HoldsLock(st, u) <==> HoldsLock(st', u))
      && (HoldsCounter(st, u) <==> HoldsCounter(st', u))
      && (HoldsLock(st, u) ==> st'.counter == st.counter)
  }

  lemma OthersKeepInv(s: State, st': Store, t: Token)
    requires Inv(s) && OthersKept(s.store, st', t)
    ensures forall u | u in s.runs && u != t :: RunInv(st', u, s.runs[u])
  {
    forall u | u in s.runs && u != t
      ensures RunInv(st', u, s.runs[u])
    {
      assert RunInv(s.store, u, s.runs[u]);
      assert HoldsLock(s.store, u) <==> HoldsLock(st', u);
    }
  }

  /** Dispatching: the new run holds what it stored. */
  lemma DispatchInv(s: State, e: Event)
    requires Inv(s) && Enabled(s, e) && (e.Acquire? || e.AcquireBoth? || e.FailOpen?)
    ensures Inv(Apply(s, e))
  {
    var s' := Apply(s, e);
    OthersKeepInv(s, s'.store, e.t);
    assert RunInv(s'.store, e.t, s'.runs[e.t]);
  }

  /** A step of a run that exists already. */
  predicate IsOwnStep(e: Event) {
    !OfNoRun(e) && !e.Acquire? && !e.AcquireBoth? && !e.FailOpen?
  }

  lemma RunEventKeepsOthers(s: State, e: Event)
    requires Inv(s) && Enabled(s, e) && !IsExpiry(e) && IsOwnStep(e)
    ensures OthersKept(s.store, StoreAfter(s, e), e.t)
  {
    assert RunInv(s.store, e.t, s.runs[e.t]);
  }

  lemma ChildEventInv(s: State, e: Event)
    requires Inv(s) && Enabled(s, e) && (e.SpawnChild? || e.ChildRetries? || e.ChildEnds?)
    ensures RunInv(StoreAfter(s, e), e.t, RunAfter(s.runs[e.t], e))
  {
    var r := s.runs[e.t];
    assert RunInv(s.store, e.t, r);
    CountsAfter(r, e);
    RetriesStayFew(r, e);
  }

  lemma RetriesStayFew(r: Run, e: Event)
    requires forall c | c in r.children :: c.retries <= MAX_RETRIES
    requires e.ChildRetries? && e.i < |r.children| ==> r.children[e.i].retries < MAX_RETRIES
    ensures forall c | c in RunAfter(r, e).children :: c.retries <= MAX_RETRIES
  {
  }

  lemma ParentEventInv(s: State, e: Event)
    requires Inv(s) && Enabled(s, e)
    requires e.StoreCounter? || e.CounterFails? || e.ParentRetries? || e.StartSpawning? || e.ParentEnds?
    ensures RunInv(StoreAfter(s, e), e.t, RunAfter(s.runs[e.t], e))
  {
    assert RunInv(s.store, e.t, s.runs[e.t]);
    assert RunAfter(s.runs[e.t], e).children == s.runs[e.t].children;
  }

  lemma RunEventInv(s: State, e: Event)
    requires Inv(s) && Enabled(s, e) && !IsExpiry(e) && IsOwnStep(e)
    ensures RunInv(StoreAfter(s, e), e.t, RunAfter(s.runs[e.t], e))
  {
    if e.SpawnChild? || e.ChildRetries? || e.ChildEnds? {
      ChildEventInv(s, e);
    } else {
      ParentEventInv(s, e);
    }
  }

  lemma StepInv(s: State, e: Event)
    requires Inv(s) && Enabled(s, e) && !IsExpiry(e)
    ensures Inv(Apply(s, e))
  {
    if e.Acquire? || e.AcquireBoth? || e.FailOpen? {
      DispatchInv(s, e);
    } else if IsOwnStep(e) {
      RunEventKeepsOthers(s, e);
      OthersKeepInv(s, StoreAfter(s, e), e.t);
      RunEventInv(s, e);
      assert RunInv(s.store, e.t, s.runs[e.t]);
    }
  }

  /** The invariant holds after any events, expiry aside. */
  lemma {:induction false} ReplayInv(evs: seq<Event>, k: nat)
    requires k <= |evs| && Replay(evs, k).Some? && forall e | e in evs :: !IsExpiry(e)
    ensures Inv(Replay(evs, k).value)
  {
    if k > 0 {
      ReplayInv(evs, k - 1);
      StepInv(Replay(evs, k - 1).value, evs[k - 1]);
    }
  }
}
