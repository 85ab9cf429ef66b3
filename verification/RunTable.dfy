/** The run rows as the worker's sessions update them. */
module RunTable {
  import opened Wrappers
  import opened SourceTracks
  import opened RunLifecycle

  /** None when the target has no run, and otherwise a run of the target that no other was created after. */
  ghost predicate IsNewestOf(runs: map<nat, Run>, sync: nat, target: string, newest: Option<nat>) {
    match newest
    case None => forall r | r in runs :: runs[r].owner.sync != sync || runs[r].owner.target != target
    case Some(n) =>
      && n in runs && runs[n].owner.sync == sync && runs[n].owner.target == target
      && forall r | r in runs && runs[r].owner.sync == sync && runs[r].owner.target == target ::
           runs[r].created <= runs[n].created
  }

  class Runs {
    var runs: map<nat, Run>
    var batches: seq<Batch>
    var nextId: nat
    var playlists: map<nat, seq<Source>>

    constructor ()
      ensures Contents() == Initial
    {
      runs, batches, nextId, playlists := map[], [], 0, map[];
    }

    function Contents(): State
      reads this
    {
      State(runs, batches, nextId, playlists)
    }

    /** Reuse the live run of the execution, or create one and record the playlist with it. */
    method EnsureSyncRun(owner: Owner, now: int) returns (created: bool)
      requires Inv(Contents())
      modifies this
      ensures Contents() == Apply(old(Contents()), Ensure(owner, now)) && Inv(Contents())
      ensures LiveRun(Contents(), owner).Some?
      ensures created <==> forall r | r in old(runs) && old(runs)[r].owner == owner ::
                             old(runs)[r].status.Completed? || old(runs)[r].status.Failed?
      ensures !created ==> Contents() == old(Contents())
      ensures created ==>
                && runs == old(runs)[old(nextId) := Run(owner, now, Running, 0, 0)]
                && batches == old(batches) + (if owner.sync in playlists && playlists[owner.sync] != []
                                              then [Batch(old(nextId), playlists[owner.sync])] else [])
                && nextId == old(nextId) + 1 && playlists == old(playlists)
    {
      InvStep(Contents(), Ensure(owner, now));
      assert forall r | r in runs && runs[r].owner == owner && !Terminal(runs[r].status) :: Live(Contents(), r, owner);
      if r :| r in runs && Live(Contents(), r, owner) {
        return false;
      }
      var r := nextId;
      runs, nextId := runs[r := Run(owner, now, Running, 0, 0)], nextId + 1;
      var rows := if owner.sync in playlists then playlists[owner.sync] else [];
      if rows != [] {
        batches := batches + [Batch(r, rows)];
      }
      assert Live(Contents(), r, owner);
      created := true;
    }

    /** The run a query for the newest run of a target returns. */
    method FindNewest(sync: nat, target: string) returns (newest: Option<nat>)
      ensures newest.None? <==> forall r | r in runs :: !SameTarget(runs[r].owner, Owner(sync, target, None))
      ensures newest.Some? ==>
                Newest(Contents(), newest.value) && SameTarget(runs[newest.value].owner, Owner(sync, target, None))
      ensures IsNewestOf(runs, sync, target, newest)
    {
      newest := None;
      var rest := runs.Keys;
      while rest != {}
        invariant rest <= runs.Keys
        invariant newest.Some? ==>
                    newest.value in runs && SameTarget(runs[newest.value].owner, Owner(sync, target, None))
        invariant forall r | r in runs.Keys - rest && SameTarget(runs[r].owner, Owner(sync, target, None)) ::
                    newest.Some? && runs[r].created <= runs[newest.value].created
        decreases rest
      {
        var r :| r in rest;
        rest := rest - {r};
        if SameTarget(runs[r].owner, Owner(sync, target, None)) &&
           (newest.None? || runs[r].created > runs[newest.value].created) {
          newest := Some(r);
        }
      }
    }

    /** Mark the newest run of the target completed, with its counts. */
    method FinalizeCounts(sync: nat, target: string, matched: nat, failed: nat) returns (marked: Option<nat>)
      requires Inv(Contents())
      modifies this
      ensures Inv(Contents())
      ensures marked.None? ==> Contents() == old(Contents())
      ensures marked.Some? ==>
                && Newest(old(Contents()), marked.value)
                && SameTarget(old(runs)[marked.value].owner, Owner(sync, target, None))
                && Contents() == Apply(old(Contents()), Finalize(marked.value, matched, failed))
                && runs == old(runs)[marked.value :=
                     old(runs)[marked.value].(status := Completed, matched := matched, failed := failed)]
                && batches == old(batches) && nextId == old(nextId) && playlists == old(playlists)
      ensures IsNewestOf(old(runs), sync, target, marked)
    {
      marked := FindNewest(sync, target);
      if marked.Some? {
        InvStep(Contents(), Finalize(marked.value, matched, failed));
        runs := runs[marked.value := runs[marked.value].(status := Completed, matched := matched, failed := failed)];
      }
    }

    /** An attempt that failed after its run was ensured marks the newest run of the target failed. */
    method FailNewestRun(sync: nat, target: string) returns (marked: Option<nat>)
      requires Inv(Contents())
      modifies this
      ensures Inv(Contents())
      ensures marked.None? ==> Contents() == old(Contents())
      ensures marked.Some? ==>
                && Newest(old(Contents()), marked.value)
                && SameTarget(old(runs)[marked.value].owner, Owner(sync, target, None))
                && Contents() == Apply(old(Contents()), FailNewest(marked.value))
                && runs == old(runs)[marked.value := old(runs)[marked.value].(status := Failed)]
                && batches == old(batches) && nextId == old(nextId) && playlists == old(playlists)
      ensures IsNewestOf(old(runs), sync, target, marked)
    {
      marked := FindNewest(sync, target);
      if marked.Some? {
        InvStep(Contents(), FailNewest(marked.value));
        runs := runs[marked.value := runs[marked.value].(status := Failed)];
      }
    }

    /** A target that cannot be reached: fail the execution's own live run, or record a failed one. */
    method RecordFailedRun(owner: Owner, now: int)
      requires Inv(Contents())
      modifies this
      ensures Contents() == Apply(old(Contents()), RecordFailed(owner, now)) && Inv(Contents())
      ensures LiveRun(Contents(), owner).None?
      ensures forall r | r in old(runs) && old(runs)[r].owner == owner && old(runs)[r].status in {Pending, Running} ::
                runs == old(runs)[r := old(runs)[r].(status := Failed)] && nextId == old(nextId)
      ensures (forall r | r in old(runs) && old(runs)[r].owner == owner ::
                 old(runs)[r].status in {Completed, Failed}) ==>
                runs == old(runs)[old(nextId) := Run(owner, now, Failed, 0, 0)] && nextId == old(nextId) + 1
      ensures batches == old(batches) && playlists == old(playlists)
    {
      assert forall r | r in runs && runs[r].owner == owner && runs[r].status in {Pending, Running} ::
          Live(Contents(), r, owner);
      ghost var before := Contents();
      InvStep(before, RecordFailed(owner, now));
      if r :| r in runs && Live(Contents(), r, owner) {
        LiveRunIs(Contents(), owner, r);
        runs := runs[r := runs[r].(status := Failed)];
      } else {
        runs, nextId := runs[nextId := Run(owner, now, Failed, 0, 0)], nextId + 1;
      }
      forall q: nat
        ensures !Live(Contents(), q, owner)
      {
        assert Live(Contents(), q, owner) ==> Live(before, q, owner);
      }
    }
  }
}
