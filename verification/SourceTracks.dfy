/** A sync's stored tracks: each fetch of the source playlist updates them in place, position by position,
    and each match phase records what was found for them. */
module SourceTracks {
  import opened Wrappers

  /** A track as the source playlist lists it. */
  datatype Source = Source(itemId: Option<string>, title: Option<string>, artist: Option<string>, details: string)

  datatype Row = Row(sync: nat, position: nat, source: Source)

  /** A match of a stored track on one target. */
  datatype Found = Found(itemId: string, details: string)

  type Slot = (nat, string)

  datatype Tables = Tables(tracks: map<nat, Row>, targets: map<Slot, Found>, nextId: nat)

  ghost predicate Valid(d: Tables) {
    && (forall id | id in d.tracks :: id < d.nextId)
    && (forall a, b | a in d.tracks && b in d.tracks && d.tracks[a].sync == d.tracks[b].sync &&
                      d.tracks[a].position == d.tracks[b].position :: a == b)
    && (forall slot | slot in d.targets :: slot.0 in d.tracks)
  }

  predicate At(d: Tables, id: nat, sync: nat, position: nat) {
    id in d.tracks && d.tracks[id].sync == sync && d.tracks[id].position == position
  }

  predicate Stored(d: Tables, sync: nat, position: nat) {
    exists id | id in d.tracks :: At(d, id, sync, position)
  }

  /** The stored track at a position: at most one fits. */
  ghost function IdAt(d: Tables, sync: nat, position: nat): nat
    requires Stored(d, sync, position)
    ensures At(d, IdAt(d, sync, position), sync, position)
  {
    var id :| id in d.tracks && At(d, id, sync, position);
    id
  }

  // ------------------------------------------------------ saving, as a function

  /** The id a position gets: the one it has, or else the next one. */
  ghost function IdFor(d: Tables, sync: nat, position: nat): nat {
    if Stored(d, sync, position) then IdAt(d, sync, position) else d.nextId
  }

  ghost function Put(d: Tables, sync: nat, position: nat, source: Source): Tables {
    d.(tracks := d.tracks[IdFor(d, sync, position) := Row(sync, position, source)],
       nextId := if Stored(d, sync, position) then d.nextId else d.nextId + 1)
  }

  ghost function SaveRows(d: Tables, sync: nat, rows: seq<Source>, k: nat): Tables
    requires k <= |rows|
  {
    if k == 0 then d else Put(SaveRows(d, sync, rows, k - 1), sync, k - 1, rows[k - 1])
  }

  predicate Past(row: Row, sync: nat, n: nat) {
    row.sync == sync && row.position >= n
  }

  /** The tables without the tracks past position n, and without what the remaining tracks had for the targets. */
  function Prune(d: Tables, sync: nat, n: nat, targetIds: seq<string>): Tables {
    Tables(map id | id in d.tracks && !Past(d.tracks[id], sync, n) :: d.tracks[id],
           map slot | slot in d.targets && slot.0 in d.tracks && !Past(d.tracks[slot.0], sync, n) &&
                      !(d.tracks[slot.0].sync == sync && slot.1 in targetIds) :: d.targets[slot],
           d.nextId)
  }

  /** The tables after a save; an empty playlist changes nothing. */
  ghost function Saved(d: Tables, sync: nat, rows: seq<Source>, targetIds: seq<string>): Tables {
    if rows == [] then d else Prune(SaveRows(d, sync, rows, |rows|), sync, |rows|, targetIds)
  }

  // ------------------------------------------------------ what saving rows keeps

  lemma PutValid(d: Tables, sync: nat, position: nat, source: Source)
    requires Valid(d)
    ensures Valid(Put(d, sync, position, source))
    ensures At(Put(d, sync, position, source), IdFor(d, sync, position), sync, position)
  {
    var i := IdFor(d, sync, position);
    forall a | a in d.tracks && a != i
      ensures !At(d, a, sync, position)
    {
      assert At(d, a, sync, position) ==> Stored(d, sync, position);
    }
  }

  ghost predicate PlacesKept(d: Tables, e: Tables) {
    forall id | id in d.tracks ::
      id in e.tracks && e.tracks[id].sync == d.tracks[id].sync && e.tracks[id].position == d.tracks[id].position
  }

  /** Tracks keep their place, and only tracks at the first k positions of the sync are new or rewritten. */
  ghost predicate Framed(d: Tables, e: Tables, sync: nat, k: nat) {
    && e.targets == d.targets
    && PlacesKept(d, e)
    && (forall id | id in e.tracks && !(e.tracks[id].sync == sync && e.tracks[id].position < k) ::
          id in d.tracks && e.tracks[id] == d.tracks[id])
  }

  /** The first k positions of the sync are stored, and hold the rows. */
  ghost predicate Filled(e: Tables, sync: nat, rows: seq<Source>, k: nat)
    requires k <= |rows|
  {
    && (forall id | id in e.tracks && e.tracks[id].sync == sync && e.tracks[id].position < k ::
          e.tracks[id].source == rows[e.tracks[id].position])
    && (forall p: nat | p < k :: Stored(e, sync, p))
  }

  lemma StoredStays(d: Tables, e: Tables, sync: nat, p: nat)
    requires Stored(d, sync, p)
    requires PlacesKept(d, e)
    ensures Stored(e, sync, p)
  {
    var id :| id in d.tracks && At(d, id, sync, p);
    assert At(e, id, sync, p);
  }

  lemma PutFrames(d: Tables, e: Tables, sync: nat, rows: seq<Source>, k: nat)
    requires Valid(e) && Framed(d, e, sync, k) && k < |rows|
    ensures Framed(d, Put(e, sync, k, rows[k]), sync, k + 1)
  {
    assert Stored(e, sync, k) ==> At(e, IdAt(e, sync, k), sync, k);
  }

  lemma PutFills(e: Tables, sync: nat, rows: seq<Source>, k: nat)
    requires Valid(e) && k < |rows| && Filled(e, sync, rows, k)
    ensures Filled(Put(e, sync, k, rows[k]), sync, rows, k + 1)
  {
    var f := Put(e, sync, k, rows[k]);
    PutValid(e, sync, k, rows[k]);
    PutFrames(e, e, sync, rows, k);
    forall p: nat | p < k + 1
      ensures Stored(f, sync, p)
    {
      if p < k {
        StoredStays(e, f, sync, p);
      }
    }
  }

  ghost predicate Saving(d: Tables, e: Tables, sync: nat, rows: seq<Source>, k: nat)
    requires k <= |rows|
  {
    Valid(e) && Framed(d, e, sync, k) && Filled(e, sync, rows, k)
  }

  lemma SavingNothing(d: Tables, sync: nat, rows: seq<Source>)
    requires Valid(d)
    ensures Saving(d, d, sync, rows, 0)
  {
  }

  lemma SavingStep(d: Tables, f: Tables, e: Tables, sync: nat, rows: seq<Source>, k: nat)
    requires k < |rows| && Saving(d, f, sync, rows, k) && e == Put(f, sync, k, rows[k])
    ensures Saving(d, e, sync, rows, k + 1)
  {
    PutValid(f, sync, k, rows[k]);
    PutFrames(d, f, sync, rows, k);
    PutFills(f, sync, rows, k);
  }

  lemma {:induction false} RowsSaved(d: Tables, e: Tables, sync: nat, rows: seq<Source>, k: nat)
    requires Valid(d) && k <= |rows| && e == SaveRows(d, sync, rows, k)
    ensures Saving(d, e, sync, rows, k)
    decreases k
  {
    if k == 0 {
      SavingNothing(d, sync, rows);
    } else {
      var f := SaveRows(d, sync, rows, k - 1);
      assert e == Put(f, sync, k - 1, rows[k - 1]);
      RowsSaved(d, f, sync, rows, k - 1);
      SavingStep(d, f, e, sync, rows, k - 1);
    }
  }

  lemma SaveRowsKeeps(d: Tables, sync: nat, rows: seq<Source>, k: nat)
    requires Valid(d) && k <= |rows|
    ensures Saving(d, SaveRows(d, sync, rows, k), sync, rows, k)
  {
    RowsSaved(d, SaveRows(d, sync, rows, k), sync, rows, k);
  }

  // ------------------------------------------------------ a save

  /** The sync holds exactly the rows, one track per position. */
  ghost predicate Mirrors(d: Tables, sync: nat, rows: seq<Source>) {
    && (forall p: nat :: Stored(d, sync, p) <==> p < |rows|)
    && (forall id | id in d.tracks && d.tracks[id].sync == sync ::
          d.tracks[id].position < |rows| && d.tracks[id].source == rows[d.tracks[id].position])
  }

  lemma PruneKeeps(d: Tables, sync: nat, n: nat, targetIds: seq<string>, p: nat)
    requires p < n && Stored(d, sync, p)
    ensures Stored(Prune(d, sync, n, targetIds), sync, p)
  {
    var id :| id in d.tracks && At(d, id, sync, p);
    assert At(Prune(d, sync, n, targetIds), id, sync, p);
  }

  /** After a save of at least one row the sync mirrors the playlist, whatever was stored before. */
  lemma SaveMirrors(d: Tables, sync: nat, rows: seq<Source>, targetIds: seq<string>)
    requires Valid(d) && rows != []
    ensures Valid(Saved(d, sync, rows, targetIds)) && Mirrors(Saved(d, sync, rows, targetIds), sync, rows)
  {
    SaveRowsKeeps(d, sync, rows, |rows|);
    var e := SaveRows(d, sync, rows, |rows|);
    forall p: nat | p < |rows|
      ensures Stored(Saved(d, sync, rows, targetIds), sync, p)
    {
      PruneKeeps(e, sync, |rows|, targetIds, p);
    }
  }

  /** A save keeps the ids of the positions that remain, changes no other sync, and forgets exactly the matches
      of deleted tracks and those the remaining tracks had on the given targets. */
  lemma SaveKeeps(d: Tables, sync: nat, rows: seq<Source>, targetIds: seq<string>)
    requires Valid(d) && rows != []
    ensures var e := Saved(d, sync, rows, targetIds);
            && (forall id | id in d.tracks && d.tracks[id].sync == sync ::
                  if d.tracks[id].position < |rows| then At(e, id, sync, d.tracks[id].position) else id !in e.tracks)
            && (forall id | id in d.tracks && d.tracks[id].sync != sync ::
                  id in e.tracks && e.tracks[id] == d.tracks[id])
            && (forall id | id in e.tracks && e.tracks[id].sync != sync :: id in d.tracks)
            && (forall slot :: slot in e.targets <==>
                  && slot in d.targets && slot.0 in e.tracks
                  && !(e.tracks[slot.0].sync == sync && slot.1 in targetIds))
            && (forall slot | slot in e.targets :: e.targets[slot] == d.targets[slot])
  {
    SaveRowsKeeps(d, sync, rows, |rows|);
  }

  lemma {:induction false} SavingMirrored(d: Tables, sync: nat, rows: seq<Source>, k: nat)
    requires Valid(d) && Mirrors(d, sync, rows) && k <= |rows|
    ensures SaveRows(d, sync, rows, k) == d
  {
    if k > 0 {
      SavingMirrored(d, sync, rows, k - 1);
      var i := IdAt(d, sync, k - 1);
      assert d.tracks[i] == Row(sync, k - 1, rows[k - 1]);
      assert d.tracks[i := Row(sync, k - 1, rows[k - 1])] == d.tracks;
    }
  }

  /** Saving the same playlist again changes nothing, not even the ids that will be given out next. */
  lemma SavingAgain(d: Tables, sync: nat, rows: seq<Source>, targetIds: seq<string>)
    requires Valid(d)
    ensures Saved(Saved(d, sync, rows, targetIds), sync, rows, targetIds) == Saved(d, sync, rows, targetIds)
  {
    if rows != [] {
      var e := Saved(d, sync, rows, targetIds);
      SaveMirrors(d, sync, rows, targetIds);
      SavingMirrored(e, sync, rows, |rows|);
      PruneMirrored(d, sync, rows, targetIds);
    }
  }

  lemma PruneMirrored(d: Tables, sync: nat, rows: seq<Source>, targetIds: seq<string>)
    requires Valid(d) && rows != []
    ensures Prune(Saved(d, sync, rows, targetIds), sync, |rows|, targetIds) == Saved(d, sync, rows, targetIds)
  {
    var e := Saved(d, sync, rows, targetIds);
    SaveMirrors(d, sync, rows, targetIds);
    assert Prune(e, sync, |rows|, targetIds).tracks == e.tracks;
    assert Prune(e, sync, |rows|, targetIds).targets == e.targets;
  }

  // ------------------------------------------------------ any sequence of saves

  datatype Save = Save(sync: nat, rows: seq<Source>, targetIds: seq<string>)

  ghost function AfterSaves(saves: seq<Save>, k: nat): Tables
    requires k <= |saves|
  {
    if k == 0 then Tables(map[], map[], 0)
    else Saved(AfterSaves(saves, k - 1), saves[k - 1].sync, saves[k - 1].rows, saves[k - 1].targetIds)
  }

  lemma {:induction false} SavesValid(saves: seq<Save>, k: nat)
    requires k <= |saves|
    ensures Valid(AfterSaves(saves, k))
  {
    if k > 0 {
      SavesValid(saves, k - 1);
      if saves[k - 1].rows != [] {
        SaveMirrors(AfterSaves(saves, k - 1), saves[k - 1].sync, saves[k - 1].rows, saves[k - 1].targetIds);
      }
    }
  }

  lemma OtherSyncMirrors(d: Tables, save: Save, sync: nat, rows: seq<Source>)
    requires Valid(d) && Mirrors(d, sync, rows) && (save.sync != sync || save.rows == [])
    ensures Mirrors(Saved(d, save.sync, save.rows, save.targetIds), sync, rows)
  {
    if save.rows != [] {
      SaveKeeps(d, save.sync, save.rows, save.targetIds);
      var e := Saved(d, save.sync, save.rows, save.targetIds);
      forall p: nat
        ensures Stored(e, sync, p) <==> p < |rows|
      {
        if p < |rows| {
          assert At(e, IdAt(d, sync, p), sync, p);
        }
      }
    }
  }

  /** Over any sequence of saves, of any number of syncs, a sync mirrors the last non-empty playlist saved
      for it. */
  lemma {:induction false} LastSaveWins(saves: seq<Save>, i: nat, k: nat)
    requires i < k <= |saves| && saves[i].rows != []
    requires forall j | i < j < k :: saves[j].sync != saves[i].sync || saves[j].rows == []
    ensures Mirrors(AfterSaves(saves, k), saves[i].sync, saves[i].rows)
    decreases k
  {
    SavesValid(saves, k - 1);
    if i == k - 1 {
      SaveMirrors(AfterSaves(saves, i), saves[i].sync, saves[i].rows, saves[i].targetIds);
    } else {
      LastSaveWins(saves, i, k - 1);
      OtherSyncMirrors(AfterSaves(saves, k - 1), saves[k - 1], saves[i].sync, saves[i].rows);
    }
  }
}
