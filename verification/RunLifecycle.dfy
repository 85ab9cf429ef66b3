/** The runs of a sync's targets: each execution creates or reuses its run, records the playlist with it, and
    later steps mark runs completed or failed. Steps of different executions interleave freely. */
module RunLifecycle {
  import opened Wrappers
  import opened SourceTracks

  datatype Status = Pending | Running | Completed | Failed

  /** What a run belongs to. */
  datatype Owner = Owner(sync: nat, target: string, execution: Option<string>)

  datatype Run = Run(owner: Owner, created: int, status: Status, matched: nat, failed: nat)

  /** The tracks recorded for a run, in one batch. */
  datatype Batch = Batch(run: nat, tracks: seq<Source>)

  datatype State = State(runs: map<nat, Run>, batches: seq<Batch>, nextId: nat, playlists: map<nat, seq<Source>>)

  const Initial := State(map[], [], 0, map[])

  /** A step is one transaction. The steps that look for the newest run carry the run the query returned. */
  datatype Event =
    | SavePlaylist(sync: nat, rows: seq<Source>)
    | Ensure(owner: Owner, now: int)
    | Finalize(run: nat, matched: nat, failed: nat)
    | FailNewest(run: nat)
    | NothingNewest
    | RecordFailed(owner: Owner, now: int)

  predicate Terminal(s: Status) {
    s.Completed? || s.Failed?
  }

  predicate Live(s: State, r: nat, owner: Owner) {
    r in s.runs && s.runs[r].owner == owner && !Terminal(s.runs[r].status)
  }

  predicate SameTarget(a: Owner, b: Owner) {
    a.sync == b.sync && a.target == b.target
  }

  /** No run of the same sync and target was created later; which of several newest ones is returned is open. */
  predicate Newest(s: State, r: nat) {
    r in s.runs &&
    forall q | q in s.runs && SameTarget(s.runs[q].owner, s.runs[r].owner) :: s.runs[q].created <= s.runs[r].created
  }

  predicate Enabled(s: State, e: Event) {
    match e
    case Finalize(r, _, _) => Newest(s, r)
    case FailNewest(r) => Newest(s, r)
    case _ => true
  }

  ghost function LiveRun(s: State, owner: Owner): Option<nat> {
    if r: nat :| Live(s, r, owner) then Some(r) else None
  }

  function Playlist(s: State, sync: nat): seq<Source> {
    if sync in s.playlists then s.playlists[sync] else []
  }

  function Recording(r: nat, tracks: seq<Source>): seq<Batch> {
    if tracks == [] then [] else [Batch(r, tracks)]
  }

  ghost function Apply(s: State, e: Event): State
    requires Enabled(s, e)
  {
    match e
    case SavePlaylist(sync, rows) => if rows == [] then s else s.(playlists := s.playlists[sync := rows])
    case Ensure(owner, now) =>
      if LiveRun(s, owner).Some? then s
      else State(s.runs[s.nextId := Run(owner, now, Running, 0, 0)],
                 s.batches + Recording(s.nextId, Playlist(s, owner.sync)), s.nextId + 1, s.playlists)
    case Finalize(r, matched, failed) =>
      s.(runs := s.runs[r := s.runs[r].(status := Completed, matched := matched, failed := failed)])
    case FailNewest(r) => s.(runs := s.runs[r := s.runs[r].(status := Failed)])
    case NothingNewest => s
    case RecordFailed(owner, now) =>
      var live := LiveRun(s, owner);
      if live.Some? then s.(runs := s.runs[live.value := s.runs[live.value].(status := Failed)])
      else s.(runs := s.runs[s.nextId := Run(owner, now, Failed, 0, 0)], nextId := s.nextId + 1)
  }

  ghost function Replay(evs: seq<Event>, k: nat): Option<State>
    requires k <= |evs|
  {
    if k == 0 then Some(Initial)
    else
      var s := Replay(evs, k - 1);
      if s.Some? && Enabled(s.value, evs[k - 1]) then Some(Apply(s.value, evs[k - 1])) else None
  }

  // ------------------------------------------------------ one live run per execution

  ghost predicate Inv(s: State) {
    && (forall r | r in s.runs :: r < s.nextId)
    && (forall i | 0 <= i < |s.batches| :: s.batches[i].run in s.runs)
    && (forall a, b, owner | Live(s, a, owner) && Live(s, b, owner) :: a == b)
  }

  lemma LiveRunIs(s: State, owner: Owner, r: nat)
    requires Inv(s) && Live(s, r, owner)
    ensures LiveRun(s, owner) == Some(r)
  {
  }

  lemma InvStep(s: State, e: Event)
    requires Inv(s) && Enabled(s, e)
    ensures Inv(Apply(s, e))
  {
    var t := Apply(s, e);
    forall a: nat, b: nat, owner | Live(t, a, owner) && Live(t, b, owner)
      ensures a == b
    {
      if !(e.Ensure? && owner == e.owner && LiveRun(s, owner).None?) {
        assert Live(s, a, owner) && Live(s, b, owner);
      } else {
        assert !Live(s, a, owner) && !Live(s, b, owner);
      }
    }
  }

  lemma {:induction false} InvHolds(evs: seq<Event>, k: nat)
    requires k <= |evs| && Replay(evs, k).Some?
    ensures Inv(Replay(evs, k).value)
  {
    if k > 0 {
      InvHolds(evs, k - 1);
      InvStep(Replay(evs, k - 1).value, evs[k - 1]);
    }
  }

  /** At any time an execution has at most one run per target that is not yet completed or failed. */
  lemma OneLiveRun(evs: seq<Event>, owner: Owner, a: nat, b: nat)
    requires Replay(evs, |evs|).Some?
    requires Live(Replay(evs, |evs|).value, a, owner) && Live(Replay(evs, |evs|).value, b, owner)
    ensures a == b
  {
    InvHolds(evs, |evs|);
  }

  // ------------------------------------------------------ batches

  function BatchesOf(batches: seq<Batch>, r: nat, k: nat): seq<seq<Source>>
    requires k <= |batches|
  {
    if k == 0 then []
    else BatchesOf(batches, r, k - 1) + if batches[k - 1].run == r then [batches[k - 1].tracks] else []
  }

  function Recorded(s: State, r: nat): seq<seq<Source>> {
    BatchesOf(s.batches, r, |s.batches|)
  }

  lemma {:induction false} BatchesPrefix(batches: seq<Batch>, more: seq<Batch>, r: nat, k: nat)
    requires k <= |batches|
    ensures BatchesOf(batches + more, r, k) == BatchesOf(batches, r, k)
  {
    if k > 0 {
      BatchesPrefix(batches, more, r, k - 1);
    }
  }

  lemma {:induction false} NoBatches(batches: seq<Batch>, r: nat, k: nat)
    requires k <= |batches| && forall i | 0 <= i < k :: batches[i].run != r
    ensures BatchesOf(batches, r, k) == []
  {
    if k > 0 {
      NoBatches(batches, r, k - 1);
    }
  }

  lemma RecordingAdds(batches: seq<Batch>, id: nat, tracks: seq<Source>, r: nat)
    ensures var after := batches + Recording(id, tracks);
            BatchesOf(after, r, |after|) ==
            BatchesOf(batches, r, |batches|) + if r == id && tracks != [] then [tracks] else []
  {
    BatchesPrefix(batches, Recording(id, tracks), r, |batches|);
    if tracks == [] {
      assert batches + Recording(id, tracks) == batches;
    }
  }

  /** What a new run starts with: the playlist of that moment in one batch, or no batch if it is recorded as
      failed from the start or the playlist is empty. */
  function FirstBatches(s: State, e: Event): seq<seq<Source>> {
    if e.Ensure? && Playlist(s, e.owner.sync) != [] then [Playlist(s, e.owner.sync)] else []
  }

  lemma RecordedStep(s: State, e: Event, r: nat)
    requires Inv(s) && Enabled(s, e) && r in Apply(s, e).runs
    ensures Recorded(Apply(s, e), r) == if r in s.runs then Recorded(s, r) else FirstBatches(s, e)
  {
    if e.Ensure? {
      RecordingAdds(s.batches, s.nextId, Playlist(s, e.owner.sync), r);
      if r !in s.runs {
        NoBatches(s.batches, r, |s.batches|);
      }
    } else if r !in s.runs {
      NoBatches(s.batches, r, |s.batches|);
    }
  }

  lemma OwnerStays(s: State, e: Event, r: nat)
    requires Inv(s) && Enabled(s, e) && r in s.runs
    ensures r in Apply(s, e).runs && Apply(s, e).runs[r].owner == s.runs[r].owner
  {
  }

  lemma CreatedBy(s: State, e: Event, r: nat)
    requires Enabled(s, e) && r !in s.runs && r in Apply(s, e).runs
    ensures (e.Ensure? || e.RecordFailed?) && e.owner == Apply(s, e).runs[r].owner
  {
  }

  /** Every run was created by some step of the history, and its track batch was recorded then, once, equal to
      the playlist of that moment, and never again. */
  lemma {:induction false} RecordedOnce(evs: seq<Event>, k: nat, r: nat) returns (j: nat)
    requires k <= |evs| && Replay(evs, k).Some? && r in Replay(evs, k).value.runs
    ensures j < k && Replay(evs, j).Some? && r !in Replay(evs, j).value.runs
    ensures evs[j].Ensure? || evs[j].RecordFailed?
    ensures evs[j].owner == Replay(evs, k).value.runs[r].owner
    ensures Recorded(Replay(evs, k).value, r) == FirstBatches(Replay(evs, j).value, evs[j])
    decreases k
  {
    var s := Replay(evs, k - 1).value;
    var t := Replay(evs, k).value;
    assert t == Apply(s, evs[k - 1]);
    InvHolds(evs, k - 1);
    RecordedStep(s, evs[k - 1], r);
    if r in s.runs {
      OwnerStays(s, evs[k - 1], r);
      j := RecordedOnce(evs, k - 1, r);
    } else {
      j := k - 1;
      CreatedBy(s, evs[k - 1], r);
    }
  }

  predicate Saves(e: Event, sync: nat) {
    e.SavePlaylist? && e.sync == sync && e.rows != []
  }

  /** The playlist of a sync is the last non-empty one saved for it. */
  lemma {:induction false} PlaylistIsLastSaved(evs: seq<Event>, i: nat, k: nat)
    requires i < k <= |evs| && Replay(evs, k).Some? && evs[i].SavePlaylist? && evs[i].rows != []
    requires forall j | i < j < k :: !Saves(evs[j], evs[i].sync)
    ensures Playlist(Replay(evs, k).value, evs[i].sync) == evs[i].rows
    decreases k
  {
    var s := Replay(evs, k - 1).value;
    if i < k - 1 {
      PlaylistIsLastSaved(evs, i, k - 1);
      assert !Saves(evs[k - 1], evs[i].sync);
    }
    assert Replay(evs, k).value == Apply(s, evs[k - 1]);
  }

  // ------------------------------------------------------ runs nobody ends

  /** Run r is live, and run q of the same sync and target is strictly newer. */
  predicate Overtaken(s: State, r: nat, owner: Owner, q: nat) {
    Live(s, r, owner) && q in s.runs && SameTarget(s.runs[q].owner, owner) && s.runs[q].created > s.runs[r].created
  }

  lemma OvertakenStep(s: State, e: Event, r: nat, owner: Owner, q: nat)
    requires Inv(s) && Enabled(s, e) && Overtaken(s, r, owner, q)
    requires !(e.RecordFailed? && e.owner == owner)
    ensures Overtaken(Apply(s, e), r, owner, q) && Apply(s, e).runs[r] == s.runs[r]
  {
  }

  /** Finishing and failing look for the newest run of the target, whatever its execution. So once a live run
      has been overtaken it is never completed or counted: only a recorded connection failure of its own
      execution can still end it. */
  lemma {:induction false} OvertakenStays(evs: seq<Event>, k: nat, n: nat, r: nat, owner: Owner, q: nat)
    requires k <= n <= |evs| && Replay(evs, n).Some? && Replay(evs, k).Some?
    requires Overtaken(Replay(evs, k).value, r, owner, q)
    requires forall i | k <= i < n :: !(evs[i].RecordFailed? && evs[i].owner == owner)
    ensures Overtaken(Replay(evs, n).value, r, owner, q) && Replay(evs, n).value.runs[r] == Replay(evs, k).value.runs[r]
    decreases n
  {
    if k < n {
      var s := Replay(evs, n - 1).value;
      assert Replay(evs, n).value == Apply(s, evs[n - 1]);
      assert !(evs[n - 1].RecordFailed? && evs[n - 1].owner == owner);
      OvertakenStays(evs, k, n - 1, r, owner, q);
      InvHolds(evs, n - 1);
      OvertakenStep(s, evs[n - 1], r, owner, q);
    }
  }

  /** An execution that starts while another one of the same target is still live overtakes it. */
  lemma OverlapOvertakes(s: State, r: nat, owner: Owner, other: Owner, now: int)
    requires Inv(s) && Live(s, r, owner) && SameTarget(other, owner) && other != owner
    requires LiveRun(s, other).None? && s.runs[r].created < now
    ensures Overtaken(Apply(s, Ensure(other, now)), r, owner, s.nextId)
  {
  }

  /** Finishing is sure to mark a given run exactly when every other run of its target was created earlier. */
  lemma FinishMarksIffNewest(s: State, r: nat)
    requires r in s.runs
    ensures (forall q | q in s.runs && SameTarget(s.runs[q].owner, s.runs[r].owner) && Newest(s, q) :: q == r) <==>
            (forall q | q in s.runs && SameTarget(s.runs[q].owner, s.runs[r].owner) && q != r ::
               s.runs[q].created < s.runs[r].created)
  {
    if forall q | q in s.runs && SameTarget(s.runs[q].owner, s.runs[r].owner) && Newest(s, q) :: q == r {
      var q := SomeNewest(s, s.runs.Keys, r);
      assert Newest(s, q);
      forall p | p in s.runs && SameTarget(s.runs[p].owner, s.runs[r].owner) && p != r
        ensures s.runs[p].created < s.runs[r].created
      {
        assert !Newest(s, p);
      }
    }
  }

  /** Among some runs, one of the target of r that was created last. */
  lemma {:induction false} SomeNewest(s: State, among: set<nat>, r: nat) returns (q: nat)
    requires among <= s.runs.Keys && r in among
    ensures q in among && SameTarget(s.runs[q].owner, s.runs[r].owner)
    ensures forall p | p in among && SameTarget(s.runs[p].owner, s.runs[r].owner) ::
              s.runs[p].created <= s.runs[q].created
    decreases among
  {
    if p :| p in among && p != r {
      q := SomeNewest(s, among - {p}, r);
      if SameTarget(s.runs[p].owner, s.runs[r].owner) && s.runs[p].created > s.runs[q].created {
        q := p;
      }
    } else {
      q := r;
    }
  }
}
