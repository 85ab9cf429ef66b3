/** What holds over every run of interleaved ad-hoc requests. */
module TriggerSafety {
  import opened Wrappers
  import opened TriggerProtocol

  lemma {:induction false} TableInvHolds(evs: seq<Event>, k: nat)
    requires k <= |evs| && Replay(evs, k).Some?
    ensures TableInv(Replay(evs, k).value)
  {
    if k > 0 {
      TableInvHolds(evs, k - 1);
      TableInvStep(Replay(evs, k - 1).value, evs[k - 1]);
    }
  }

  /** At any time, at most one row of the table carries a given key, committed or not. */
  lemma OneRowPerKey(evs: seq<Event>, a: nat, b: nat)
    requires Replay(evs, |evs|).Some?
    ensures var rows := Replay(evs, |evs|).value.rows;
            a in rows && b in rows && rows[a].key == rows[b].key ==> a == b
  {
    TableInvHolds(evs, |evs|);
  }

  // ------------------------------------------------------ tasks

  /** No request with this key missed its broker's answer in the first k events. */
  ghost predicate NothingLost(evs: seq<Event>, k: nat, key: Key)
    requires k <= |evs|
  {
    forall i: nat | i < k :: !LostAt(evs, i, key)
  }

  ghost predicate LostAt(evs: seq<Event>, i: nat, key: Key)
    requires i < |evs|
  {
    Replay(evs, i).Some? && LosesAnswer(Replay(evs, i).value, evs[i], key)
  }

  lemma {:induction false} TasksHold(evs: seq<Event>, k: nat, key: Key)
    requires k <= |evs| && Replay(evs, k).Some? && NothingLost(evs, k, key)
    ensures TasksQueued(Replay(evs, k).value, key)
  {
    if k > 0 {
      TasksHold(evs, k - 1, key);
      assert !LostAt(evs, k - 1, key);
      TasksQueuedStep(Replay(evs, k - 1).value, evs[k - 1], key);
    }
  }

  lemma QueuedRowsDiffer(s: State, p: nat, q: nat, key: Key)
    requires TableInv(s) && QueuedFor(s, p, key) && QueuedFor(s, q, key)
    ensures p == q && Exists(s, key, true)
  {
    assert OwnerFits(s, p) && OwnerFits(s, q);
    assert Owns(s, p, s.requests[p].phase.row) && Owns(s, q, s.requests[p].phase.row);
  }

  /** Whatever is lost, at any time at most one request with a given key has been told that its task is queued, and
      its row is committed and still there. */
  lemma OneQueuedRequestPerKey(evs: seq<Event>, p: nat, q: nat, key: Key)
    requires Replay(evs, |evs|).Some?
    requires QueuedFor(Replay(evs, |evs|).value, p, key) && QueuedFor(Replay(evs, |evs|).value, q, key)
    ensures p == q && Exists(Replay(evs, |evs|).value, key, true)
  {
    TableInvHolds(evs, |evs|);
    QueuedRowsDiffer(Replay(evs, |evs|).value, p, q, key);
  }

  /** As long as no acknowledgement for it is lost, a key gets at most one task over the whole run, and the row of
      a queued task is committed and still there. */
  lemma OneTaskPerKey(evs: seq<Event>, i: nat, j: nat, key: Key)
    requires Replay(evs, |evs|).Some? && NothingLost(evs, |evs|, key)
    requires i < |Replay(evs, |evs|).value.queue| && j < |Replay(evs, |evs|).value.queue|
    requires Replay(evs, |evs|).value.queue[i].key == key && Replay(evs, |evs|).value.queue[j].key == key
    ensures i == j && Exists(Replay(evs, |evs|).value, key, true)
  {
    TasksHold(evs, |evs|, key);
    TableInvHolds(evs, |evs|);
    var s := Replay(evs, |evs|).value;
    assert i != j ==> s.queue[i].request != s.queue[j].request;
    QueuedRowsDiffer(s, s.queue[i].request, s.queue[j].request, key);
  }

  ghost predicate Unused(s: State, key: Key) {
    forall r | r in s.rows :: s.rows[r].key != key
  }

  /** Event e takes s to t. */
  ghost predicate Leads(s: State, e: Event, t: State) {
    Enabled(s, e) && t == Apply(s, e)
  }

  /** The same request, further on. */
  function Moves(s: State, q: nat, key: Key, phase: Phase): State {
    s.(requests := s.requests[q := Request(key, phase)])
  }

  lemma MissesUnusedKey(s: State, q: nat, key: Key)
    requires q !in s.requests && Unused(s, key)
    ensures Leads(s, Begin(q, key), Moves(s, q, key, Started))
    ensures Leads(Moves(s, q, key, Started), Lookup(q), Moves(s, q, key, Missed))
  {
    assert Moves(Moves(s, q, key, Started), q, key, Missed) == Moves(s, q, key, Missed);
  }

  /** The state with one more row, held by request q. */
  function Holding(s: State, q: nat, key: Key, phase: Phase): State {
    var t := Moves(s, q, key, phase).(rows := s.rows[s.nextId := Row(key, !phase.Inserted?)], nextId := s.nextId + 1);
    if phase.Inserted? then t else t.(everCommitted := s.everCommitted[s.nextId := key])
  }

  lemma StoresUnusedKey(s: State, q: nat, key: Key)
    requires Unused(s, key)
    ensures Leads(Moves(s, q, key, Missed), Insert(q), Holding(s, q, key, Inserted(s.nextId)))
    ensures Leads(Holding(s, q, key, Inserted(s.nextId)), Commit(q), Holding(s, q, key, Stored(s.nextId)))
  {
    var t := Moves(s, q, key, Missed);
    assert t.requests[q := Request(key, Inserted(s.nextId))] == s.requests[q := Request(key, Inserted(s.nextId))];
    var u := Holding(s, q, key, Inserted(s.nextId));
    assert u.rows[s.nextId := Row(key, true)] == s.rows[s.nextId := Row(key, true)];
    assert u.requests[q := Request(key, Stored(s.nextId))] == s.requests[q := Request(key, Stored(s.nextId))];
  }

  /** What a lost acknowledgement leads to: the task is queued and the row is gone. */
  function QueuedAndGone(s: State, q: nat, key: Key): State {
    Moves(s, q, key, Failed).(queue := s.queue + [Task(q, key)], nextId := s.nextId + 1,
                              everCommitted := s.everCommitted[s.nextId := key])
  }

  lemma LosesAndDiscards(s: State, q: nat, key: Key) returns (between: State)
    requires Unused(s, key) && s.nextId !in s.rows
    ensures Leads(Holding(s, q, key, Stored(s.nextId)), LoseAcknowledgement(q), between)
    ensures Leads(between, Discard(q), QueuedAndGone(s, q, key))
  {
    var t := Holding(s, q, key, Stored(s.nextId));
    between := Apply(t, LoseAcknowledgement(q));
    assert t.rows - {s.nextId} == s.rows;
    assert between.requests[q := Request(key, Failed)] == s.requests[q := Request(key, Failed)];
  }

  ghost predicate Reachable(s: State) {
    exists evs :: Replay(evs, |evs|) == Some(s)
  }

  lemma {:induction false} PrefixReplays(evs: seq<Event>, more: seq<Event>, k: nat)
    requires k <= |evs|
    ensures Replay(evs + more, k) == Replay(evs, k)
  {
    if k > 0 {
      PrefixReplays(evs, more, k - 1);
    }
  }

  lemma Reaches(s: State, e: Event, t: State)
    requires Reachable(s) && Leads(s, e, t)
    ensures Reachable(t)
  {
    var evs :| Replay(evs, |evs|) == Some(s);
    PrefixReplays(evs, [e], |evs|);
    assert Replay(evs + [e], |evs + [e]|) == Some(t);
  }

  /** A new request with an unused key can get as far as a stored row. */
  lemma ReachesStored(s: State, q: nat, key: Key)
    requires Reachable(s) && q !in s.requests && Unused(s, key)
    ensures Reachable(Holding(s, q, key, Stored(s.nextId)))
  {
    MissesUnusedKey(s, q, key);
    Reaches(s, Begin(q, key), Moves(s, q, key, Started));
    Reaches(Moves(s, q, key, Started), Lookup(q), Moves(s, q, key, Missed));
    StoresUnusedKey(s, q, key);
    Reaches(Moves(s, q, key, Missed), Insert(q), Holding(s, q, key, Inserted(s.nextId)));
    Reaches(Holding(s, q, key, Inserted(s.nextId)), Commit(q), Holding(s, q, key, Stored(s.nextId)));
  }

  /** One lost acknowledgement is enough for a second task: from any reachable state with an unused key, one
      request queues its task and still discards its row, and the next request finds the key unused. */
  lemma LostAcknowledgementRunsTwice(s: State, p: nat, q: nat, key: Key) returns (t: State)
    requires Reachable(s) && Unused(s, key)
    requires p !in s.requests && q !in s.requests && p != q
    ensures Reachable(t) && t.queue == s.queue + [Task(p, key), Task(q, key)]
  {
    var evs :| Replay(evs, |evs|) == Some(s);
    TableInvHolds(evs, |evs|);
    ReachesStored(s, p, key);
    var between := LosesAndDiscards(s, p, key);
    var middle := QueuedAndGone(s, p, key);
    Reaches(Holding(s, p, key, Stored(s.nextId)), LoseAcknowledgement(p), between);
    Reaches(between, Discard(p), middle);
    ReachesStored(middle, q, key);
    var stored := Holding(middle, q, key, Stored(middle.nextId));
    t := Apply(stored, Enqueue(q, true));
    Reaches(stored, Enqueue(q, true), t);
  }

  // ------------------------------------------------------ answers

  lemma {:induction false} CommitRemembered(evs: seq<Event>, k: nat, r: nat) returns (j: nat)
    requires k <= |evs| && Replay(evs, k).Some? && r in Replay(evs, k).value.everCommitted
    ensures j <= k && Replay(evs, j).Some?
    ensures HasKey(Replay(evs, j).value, r, Replay(evs, k).value.everCommitted[r], true)
  {
    var before := Replay(evs, k - 1).value;
    if evs[k - 1].Commit? && before.requests[evs[k - 1].q].phase.row == r {
      j := k;
    } else {
      j := CommitRemembered(evs, k - 1, r);
    }
  }

  /** A request answered with an existing sync names a row that carried its key, committed, at some moment of
      the run. */
  lemma ExistingWasCommitted(evs: seq<Event>, q: nat) returns (j: nat)
    requires Replay(evs, |evs|).Some?
    requires q in Replay(evs, |evs|).value.requests && Replay(evs, |evs|).value.requests[q].phase.Existing?
    ensures j <= |evs| && Replay(evs, j).Some?
    ensures var request := Replay(evs, |evs|).value.requests[q];
            HasKey(Replay(evs, j).value, request.phase.row, request.key, true)
  {
    TableInvHolds(evs, |evs|);
    var s := Replay(evs, |evs|).value;
    assert OwnerFits(s, q);
    j := CommitRemembered(evs, |evs|, s.requests[q].phase.row);
  }

  ghost predicate NothingDiscarded(evs: seq<Event>, k: nat)
    requires k <= |evs|
  {
    forall i | 0 <= i < k :: !evs[i].Discard?
  }

  ghost predicate ConflictsKept(s: State) {
    forall q | q in s.requests :: ConflictKept(s, q)
  }

  lemma CommittedStays(s: State, e: Event, key: Key)
    requires TableInv(s) && Enabled(s, e) && !e.Discard? && Exists(s, key, true)
    ensures Exists(Apply(s, e), key, true)
  {
    var r :| r in s.rows && s.rows[r] == Row(key, true);
    if e.q in s.requests {
      assert OwnerFits(s, e.q);
    }
    assert r in Apply(s, e).rows && Apply(s, e).rows[r] == Row(key, true);
  }

  ghost predicate ConflictKept(s: State, q: nat)
    requires q in s.requests
  {
    s.requests[q].phase != Conflict409 && (s.requests[q].phase == Conflicted ==> Exists(s, s.requests[q].key, true))
  }

  lemma MoverKeepsConflict(s: State, e: Event)
    requires TableInv(s) && Enabled(s, e) && !e.Discard? && e.q in s.requests && ConflictKept(s, e.q)
    ensures e.q in Apply(s, e).requests && ConflictKept(Apply(s, e), e.q)
  {
    SelectFinds(s, s.requests[e.q].key);
    if Exists(s, s.requests[e.q].key, true) {
      CommittedStays(s, e, s.requests[e.q].key);
    }
  }

  lemma BystanderKeepsConflict(s: State, e: Event, q: nat)
    requires TableInv(s) && Enabled(s, e) && !e.Discard? && q in s.requests && q != e.q && ConflictKept(s, q)
    ensures q in Apply(s, e).requests && ConflictKept(Apply(s, e), q)
  {
    assert Apply(s, e).requests[q] == s.requests[q];
    if Exists(s, s.requests[q].key, true) {
      CommittedStays(s, e, s.requests[q].key);
    }
  }

  lemma ConflictsKeptStep(s: State, e: Event)
    requires TableInv(s) && ConflictsKept(s) && Enabled(s, e) && !e.Discard?
    ensures ConflictsKept(Apply(s, e))
  {
    forall q | q in Apply(s, e).requests
      ensures ConflictKept(Apply(s, e), q)
    {
      if q !in s.requests {
        assert e.Begin?;
      } else if q == e.q {
        MoverKeepsConflict(s, e);
      } else {
        BystanderKeepsConflict(s, e, q);
      }
    }
  }

  lemma {:induction false} ConflictsHold(evs: seq<Event>, k: nat)
    requires k <= |evs| && Replay(evs, k).Some? && NothingDiscarded(evs, k)
    ensures ConflictsKept(Replay(evs, k).value)
  {
    if k > 0 {
      ConflictsHold(evs, k - 1);
      TableInvHolds(evs, k - 1);
      ConflictsKeptStep(Replay(evs, k - 1).value, evs[k - 1]);
    }
  }

  /** The "retry with a different key" answer is given only in runs in which some request discarded its row:
      otherwise the row that caused the conflict is still there to be named. */
  lemma ConflictAnswerNeedsDiscard(evs: seq<Event>, q: nat)
    requires Replay(evs, |evs|).Some? && In(Replay(evs, |evs|).value, q, Conflict409)
    ensures !NothingDiscarded(evs, |evs|)
  {
    if NothingDiscarded(evs, |evs|) {
      ConflictsHold(evs, |evs|);
    }
  }

  // ------------------------------------------------------ keys nobody will run

  /** The key is spent: its row is committed, and no request will still enqueue a task for it or discard it. Either
      the task has been queued, or nobody is left to queue it. */
  ghost predicate Spent(s: State, r: nat, key: Key) {
    HasKey(s, r, key, true) && forall q | Owns(s, q, r) :: s.requests[q].phase.Queued?
  }

  /** Nobody is left: the row has no owner at all. */
  ghost predicate Abandoned(s: State, r: nat, key: Key) {
    HasKey(s, r, key, true) && forall q :: !Owns(s, q, r)
  }

  lemma SpentStep(s: State, e: Event, r: nat, key: Key)
    requires TableInv(s) && Enabled(s, e) && Spent(s, r, key)
    ensures Spent(Apply(s, e), r, key)
    ensures Abandoned(s, r, key) ==> Abandoned(Apply(s, e), r, key)
    ensures s.queue <= Apply(s, e).queue
    ensures forall i | |s.queue| <= i < |Apply(s, e).queue| :: Apply(s, e).queue[i].key != key
  {
    var s' := Apply(s, e);
    QueueAfter(s, e);
    if e.q in s.requests {
      assert OwnerFits(s, e.q);
      var p := s.requests[e.q].phase;
      if Owning(p) {
        assert Owns(s, e.q, p.row);
      }
    }
    assert HasKey(s', r, key, true);
    forall q | Owns(s', q, r)
      ensures s'.requests[q].phase.Queued? && Owns(s, q, r)
    {
      if q != e.q {
        assert Owns(s, q, r);
      }
    }
  }

  /** Once a key is spent, its row stays and no further task is ever queued for it: every later request with it is
      told that the sync exists. An abandoned row stays abandoned. */
  lemma {:induction false} SpentForever(evs: seq<Event>, k: nat, n: nat, r: nat, key: Key)
    requires k <= n <= |evs| && Replay(evs, n).Some? && Replay(evs, k).Some?
    requires Spent(Replay(evs, k).value, r, key)
    ensures var before, after := Replay(evs, k).value, Replay(evs, n).value;
            && Spent(after, r, key) && (Abandoned(before, r, key) ==> Abandoned(after, r, key))
            && before.queue <= after.queue
            && forall i | |before.queue| <= i < |after.queue| :: after.queue[i].key != key
    decreases n
  {
    if k < n {
      SpentForever(evs, k, n - 1, r, key);
      TableInvHolds(evs, n - 1);
      SpentStep(Replay(evs, n - 1).value, evs[n - 1], r, key);
    }
  }

  /** The key of an abandoned row never ran and never will, unless an acknowledgement for it was lost. */
  lemma AbandonedNeverRan(evs: seq<Event>, r: nat, key: Key, i: nat)
    requires Replay(evs, |evs|).Some? && NothingLost(evs, |evs|, key) && i < |Replay(evs, |evs|).value.queue|
    requires Abandoned(Replay(evs, |evs|).value, r, key)
    ensures Replay(evs, |evs|).value.queue[i].key != key
  {
    var s := Replay(evs, |evs|).value;
    TasksHold(evs, |evs|, key);
    TableInvHolds(evs, |evs|);
    if s.queue[i].key == key {
      var q := s.queue[i].request;
      assert QueuedFor(s, q, key) && OwnerFits(s, q);
      assert Owns(s, q, r);
    }
  }

  // ------------------------------------------------------ how a row is abandoned

  ghost predicate Owned(s: State, r: nat) {
    exists q :: Owns(s, q, r)
  }

  ghost predicate AllOwned(s: State) {
    forall r | r in s.rows :: Owned(s, r)
  }

  /** A request dies between its commit and its enqueue, or before it has discarded its row. */
  predicate Drops(s: State, e: Event) {
    e.Die? && e.q in s.requests && (s.requests[e.q].phase.Stored? || s.requests[e.q].phase.Refused?)
  }

  lemma OwnerKeeps(s: State, e: Event, q: nat, r: nat)
    requires TableInv(s) && Enabled(s, e) && !Drops(s, e) && Owns(s, q, r) && r in Apply(s, e).rows
    ensures Owns(Apply(s, e), q, r)
  {
    if q == e.q {
      assert OwnerFits(s, q);
    }
  }

  lemma OwnedStep(s: State, e: Event, r: nat)
    requires TableInv(s) && AllOwned(s) && Enabled(s, e) && !Drops(s, e) && r in Apply(s, e).rows
    ensures Owned(Apply(s, e), r)
  {
    var s' := Apply(s, e);
    if r in s.rows {
      assert Owned(s, r);
      var q :| Owns(s, q, r);
      OwnerKeeps(s, e, q, r);
      assert Owns(s', q, r);
    } else {
      assert e.Insert? && Owns(s', e.q, r);
    }
  }

  /** Such a death abandons the row. */
  lemma DropAbandons(s: State, e: Event)
    requires TableInv(s) && Enabled(s, e) && Drops(s, e)
    ensures Abandoned(Apply(s, e), s.requests[e.q].phase.row, s.requests[e.q].key)
  {
    assert OwnerFits(s, e.q);
    var r := s.requests[e.q].phase.row;
    var s' := Apply(s, e);
    forall p: nat
      ensures !Owns(s', p, r)
    {
      if Owns(s', p, r) {
        assert Owns(s, p, r) && Owns(s, e.q, r);
      }
    }
  }

  ghost predicate DropAt(evs: seq<Event>, k: nat)
    requires k < |evs|
  {
    Replay(evs, k).Some? && Drops(Replay(evs, k).value, evs[k])
  }

  lemma {:induction false} AllOwnedHolds(evs: seq<Event>, k: nat)
    requires k <= |evs| && Replay(evs, k).Some? && forall i: nat | i < k :: !DropAt(evs, i)
    ensures AllOwned(Replay(evs, k).value)
  {
    if k > 0 {
      AllOwnedHolds(evs, k - 1);
      TableInvHolds(evs, k - 1);
      assert !DropAt(evs, k - 1);
      forall r | r in Replay(evs, k).value.rows
        ensures Owned(Replay(evs, k).value, r)
      {
        OwnedStep(Replay(evs, k - 1).value, evs[k - 1], r);
      }
    }
  }

  ghost predicate SomeAbandoned(s: State) {
    exists r, key :: Abandoned(s, r, key)
  }

  lemma {:induction false} Prefix(evs: seq<Event>, k: nat, n: nat)
    requires k <= n <= |evs| && Replay(evs, n).Some?
    ensures Replay(evs, k).Some?
    decreases n
  {
    if k < n {
      Prefix(evs, k, n - 1);
    }
  }

  lemma DroppedIsAbandoned(evs: seq<Event>, k: nat)
    requires Replay(evs, |evs|).Some? && k < |evs| && DropAt(evs, k)
    ensures SomeAbandoned(Replay(evs, |evs|).value)
  {
    var s := Replay(evs, k).value;
    var r, key := s.requests[evs[k].q].phase.row, s.requests[evs[k].q].key;
    Prefix(evs, k + 1, |evs|);
    TableInvHolds(evs, k);
    DropAbandons(s, evs[k]);
    assert Replay(evs, k + 1) == Some(Apply(s, evs[k]));
    SpentForever(evs, k + 1, |evs|, r, key);
    assert Abandoned(Replay(evs, |evs|).value, r, key);
  }

  lemma OwnedIsNotAbandoned(s: State)
    requires AllOwned(s)
    ensures !SomeAbandoned(s)
  {
    forall r, key
      ensures !Abandoned(s, r, key)
    {
      assert r in s.rows ==> Owned(s, r);
    }
  }

  /** A committed row is left without an owner if and only if some request died between its commit and its enqueue,
      or before it had discarded its row. */
  lemma AbandonedIffDropped(evs: seq<Event>)
    requires Replay(evs, |evs|).Some?
    ensures SomeAbandoned(Replay(evs, |evs|).value) <==> exists k: nat | k < |evs| :: DropAt(evs, k)
  {
    if k: nat :| k < |evs| && DropAt(evs, k) {
      DroppedIsAbandoned(evs, k);
    } else {
      AllOwnedHolds(evs, |evs|);
      OwnedIsNotAbandoned(Replay(evs, |evs|).value);
    }
  }
}
