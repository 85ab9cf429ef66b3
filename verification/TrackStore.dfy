/** The store behind the fetch and match phases, updated in place. */
module TrackStore {
  import opened Wrappers
  import opened SourceTracks

  lemma IdForStays(d: Tables, e: Tables, sync: nat, rows: seq<Source>, k: nat)
    requires Valid(d) && k < |rows| && Saving(d, e, sync, rows, k)
    ensures Stored(e, sync, k) <==> Stored(d, sync, k)
    ensures Stored(d, sync, k) ==> IdAt(e, sync, k) == IdAt(d, sync, k)
  {
    if Stored(d, sync, k) {
      assert At(e, IdAt(d, sync, k), sync, k);
    }
    if Stored(e, sync, k) {
      assert At(d, IdAt(e, sync, k), sync, k);
    }
  }

  /** Exactly the tracks at the first k positions of the sync. */
  ghost predicate AreFirst(ids: set<nat>, d: Tables, sync: nat, k: nat) {
    forall id :: id in ids <==> id in d.tracks && d.tracks[id].sync == sync && d.tracks[id].position < k
  }

  lemma AreFirstStep(ids: set<nat>, d: Tables, sync: nat, k: nat, source: Source)
    requires Valid(d) && AreFirst(ids, d, sync, k)
    ensures AreFirst(ids + {IdFor(d, sync, k)}, Put(d, sync, k, source), sync, k + 1)
  {
    PutValid(d, sync, k, source);
    assert Stored(d, sync, k) ==> At(d, IdAt(d, sync, k), sync, k);
  }

  /** Position to id, for the stored tracks of a sync. */
  ghost predicate IsIndex(existing: map<nat, nat>, d: Tables, sync: nat) {
    && (forall p: nat :: p in existing <==> Stored(d, sync, p))
    && (forall p: nat | p in existing :: At(d, existing[p], sync, p))
  }

  lemma IndexIsIndex(d: Tables, sync: nat)
    requires Valid(d)
    ensures IsIndex(Index(d, sync), d, sync)
  {
    var existing := Index(d, sync);
    forall p: nat
      ensures p in existing <==> Stored(d, sync, p)
    {
      if Stored(d, sync, p) {
        assert At(d, IdAt(d, sync, p), sync, p);
      }
    }
  }

  function Index(d: Tables, sync: nat): map<nat, nat>
    requires Valid(d)
  {
    map id | id in d.tracks && d.tracks[id].sync == sync :: d.tracks[id].position := id
  }

  function PastIds(existing: map<nat, nat>, n: nat): set<nat> {
    set p | p in existing && p >= n :: existing[p]
  }

  lemma PastIdsArePast(d: Tables, e: Tables, sync: nat, rows: seq<Source>, existing: map<nat, nat>, id: nat)
    requires Valid(d) && Saving(d, e, sync, rows, |rows|) && IsIndex(existing, d, sync) && id in e.tracks
    ensures id in PastIds(existing, |rows|) <==> Past(e.tracks[id], sync, |rows|)
  {
    if Past(e.tracks[id], sync, |rows|) {
      var p := e.tracks[id].position;
      assert At(d, id, sync, p);
      assert Stored(d, sync, p) && existing[p] == id;
    }
  }

  /** Deleting by ids is pruning by position. */
  lemma PrunedByIds(e: Tables, sync: nat, n: nat, gone: set<nat>, retained: set<nat>, targetIds: seq<string>)
    requires Valid(e) && AreFirst(retained, e, sync, n)
    requires forall id | id in e.tracks :: id in gone <==> Past(e.tracks[id], sync, n)
    ensures e.tracks - gone == Prune(e, sync, n, targetIds).tracks
    ensures Forgotten(e.targets, gone, retained, targetIds) == Prune(e, sync, n, targetIds).targets
  {
  }

  /** What is left of the matches once some tracks are gone and others forget the given targets. */
  function Forgotten(
    targets: map<Slot, Found>, gone: set<nat>, retained: set<nat>, targetIds: seq<string>): map<Slot, Found> {
    map slot | slot in targets && slot.0 !in gone && !(slot.0 in retained && slot.1 in targetIds) :: targets[slot]
  }

  // ------------------------------------------------------ matching

  predicate IsItem(tracks: map<nat, Row>, id: nat, sync: nat, item: string) {
    id in tracks && tracks[id].sync == sync && tracks[id].source.itemId == Some(item)
  }

  predicate HasItem(tracks: map<nat, Row>, sync: nat, item: string) {
    exists id | id in tracks :: IsItem(tracks, id, sync, item)
  }

  /** No two tracks of the sync carry the same source item. */
  ghost predicate UniqueItems(tracks: map<nat, Row>, sync: nat) {
    forall a, b, item | IsItem(tracks, a, sync, item) && IsItem(tracks, b, sync, item) :: a == b
  }

  /** Some track of the sync with this item has a match. */
  ghost predicate Hit(tracks: map<nat, Row>, sync: nat, item: string, pick: Source -> Option<Found>) {
    exists id :: IsItem(tracks, id, sync, item) && pick(tracks[id].source).Some?
  }

  /** There are tracks of the sync with this item, and all of them have a match. */
  ghost predicate Sure(tracks: map<nat, Row>, sync: nat, item: string, pick: Source -> Option<Found>) {
    HasItem(tracks, sync, item) && forall id | IsItem(tracks, id, sync, item) :: pick(tracks[id].source).Some?
  }

  /** For each item one track that carries it was tried, or none when no track carries it. */
  ghost predicate Tries(tracks: map<nat, Row>, sync: nat, items: seq<string>, tried: seq<Option<nat>>) {
    && |tried| <= |items|
    && forall k {:trigger tried[k]} | 0 <= k < |tried| ::
         if tried[k].Some? then IsItem(tracks, tried[k].value, sync, items[k]) else !HasItem(tracks, sync, items[k])
  }

  /** The items whose track had something to pick. */
  ghost function Successes(tracks: map<nat, Row>, tried: seq<Option<nat>>, pick: Source -> Option<Found>): set<nat> {
    set k: nat | k < |tried| && Succeeds(tracks, tried[k], pick)
  }

  ghost predicate Succeeds(tracks: map<nat, Row>, one: Option<nat>, pick: Source -> Option<Found>) {
    one.Some? && one.value in tracks && pick(tracks[one.value].source).Some?
  }

  /** The target has what was picked for the tracks tried, and everything else is as it was. */
  ghost predicate Written(tracks: map<nat, Row>, was: map<Slot, Found>, now: map<Slot, Found>, target: string,
                          pick: Source -> Option<Found>, tried: seq<Option<nat>>) {
    && (forall one | one in tried && Succeeds(tracks, one, pick) ::
          (one.value, target) in now && Some(now[(one.value, target)]) == pick(tracks[one.value].source))
    && (forall slot: Slot | !(slot.1 == target && Some(slot.0) in tried && Succeeds(tracks, Some(slot.0), pick)) ::
          (slot in now <==> slot in was) && (slot in now ==> now[slot] == was[slot]))
  }

  /** What holds of the match phase after some tries. */
  ghost predicate Matching(tracks: map<nat, Row>, was: map<Slot, Found>, now: map<Slot, Found>, sync: nat,
                           target: string, items: seq<string>, pick: Source -> Option<Found>, tried: seq<Option<nat>>,
                           matched: nat) {
    && Tries(tracks, sync, items, tried)
    && Written(tracks, was, now, target, pick, tried)
    && matched == |Successes(tracks, tried, pick)|
  }

  lemma MatchingNext(tracks: map<nat, Row>, was: map<Slot, Found>, now: map<Slot, Found>, sync: nat, target: string,
                     items: seq<string>, pick: Source -> Option<Found>, tried: seq<Option<nat>>, matched: nat,
                     one: Option<nat>)
    requires Matching(tracks, was, now, sync, target, items, pick, tried, matched) && |tried| < |items|
    requires if one.Some? then IsItem(tracks, one.value, sync, items[|tried|])
             else !HasItem(tracks, sync, items[|tried|])
    ensures if Succeeds(tracks, one, pick) then
              Matching(tracks, was, now[(one.value, target) := pick(tracks[one.value].source).value], sync, target,
                       items, pick, tried + [one], matched + 1)
            else Matching(tracks, was, now, sync, target, items, pick, tried + [one], matched)
  {
    TryNext(tracks, was, now, sync, target, items, pick, tried, one);
  }

  lemma MatchingDone(tracks: map<nat, Row>, was: map<Slot, Found>, now: map<Slot, Found>, sync: nat, target: string,
                     items: seq<string>, pick: Source -> Option<Found>, tried: seq<Option<nat>>, matched: nat)
    requires Matching(tracks, was, now, sync, target, items, pick, tried, matched) && |tried| == |items|
    ensures forall slot | slot in now :: slot in was || slot.0 in tracks
    ensures |set k: nat | k < |items| && Sure(tracks, sync, items[k], pick)| <= matched
    ensures matched <= |set k: nat | k < |items| && Hit(tracks, sync, items[k], pick)|
    ensures UniqueItems(tracks, sync) ==> matched == |set k: nat | k < |items| && Hit(tracks, sync, items[k], pick)|
    ensures forall item | item in items && Sure(tracks, sync, item, pick) ::
              Matched(tracks, now, sync, target, item, pick)
    ensures forall id, item | item in items && Alone(tracks, id, sync, item) && pick(tracks[id].source).Some? ::
              (id, target) in now && Some(now[(id, target)]) == pick(tracks[id].source)
  {
    SuccessesBetween(tracks, sync, items, pick, tried);
    forall item | item in items {
      TriedMatched(tracks, was, now, sync, target, items, pick, tried, item);
    }
  }

  lemma TryNext(tracks: map<nat, Row>, was: map<Slot, Found>, now: map<Slot, Found>, sync: nat, target: string,
                items: seq<string>, pick: Source -> Option<Found>, tried: seq<Option<nat>>, one: Option<nat>)
    requires Tries(tracks, sync, items, tried) && |tried| < |items|
    requires Written(tracks, was, now, target, pick, tried)
    requires if one.Some? then IsItem(tracks, one.value, sync, items[|tried|])
             else !HasItem(tracks, sync, items[|tried|])
    ensures Tries(tracks, sync, items, tried + [one])
    ensures Succeeds(tracks, one, pick) ==>
              && Successes(tracks, tried + [one], pick) == Successes(tracks, tried, pick) + {|tried|}
              && Written(tracks, was, now[(one.value, target) := pick(tracks[one.value].source).value], target, pick,
                         tried + [one])
    ensures !Succeeds(tracks, one, pick) ==>
              && Successes(tracks, tried + [one], pick) == Successes(tracks, tried, pick)
              && Written(tracks, was, now, target, pick, tried + [one])
  {
  }

  lemma {:induction false} SmallerSet<T>(a: set<T>, b: set<T>)
    requires a <= b
    ensures |a| <= |b|
    decreases |b|
  {
    if a != {} {
      var x :| x in a;
      SmallerSet(a - {x}, b - {x});
    }
  }

  /** Whichever tracks were tried, every item whose tracks all have a match counts, and no item without a match
      does. */
  lemma SuccessesBetween(tracks: map<nat, Row>, sync: nat, items: seq<string>, pick: Source -> Option<Found>,
                         tried: seq<Option<nat>>)
    requires Tries(tracks, sync, items, tried) && |tried| == |items|
    ensures |set k: nat | k < |items| && Sure(tracks, sync, items[k], pick)| <= |Successes(tracks, tried, pick)|
    ensures |Successes(tracks, tried, pick)| <= |set k: nat | k < |items| && Hit(tracks, sync, items[k], pick)|
    ensures UniqueItems(tracks, sync) ==>
              Successes(tracks, tried, pick) == set k: nat | k < |items| && Hit(tracks, sync, items[k], pick)
  {
    var sure := set k: nat | k < |items| && Sure(tracks, sync, items[k], pick);
    var some := set k: nat | k < |items| && Hit(tracks, sync, items[k], pick);
    forall k: nat | k < |items|
      ensures Sure(tracks, sync, items[k], pick) ==> Succeeds(tracks, tried[k], pick)
      ensures Succeeds(tracks, tried[k], pick) ==> Hit(tracks, sync, items[k], pick)
    {
    }
    SmallerSet(sure, Successes(tracks, tried, pick));
    SmallerSet(Successes(tracks, tried, pick), some);
  }

  /** Some track with this item has its match stored for the target. */
  ghost predicate Matched(tracks: map<nat, Row>, now: map<Slot, Found>, sync: nat, target: string, item: string,
                          pick: Source -> Option<Found>) {
    exists id :: IsItem(tracks, id, sync, item) && (id, target) in now &&
                 Some(now[(id, target)]) == pick(tracks[id].source)
  }

  /** A tried item whose tracks all have a match is matched, and so is the one track that carries an item alone. */
  lemma TriedMatched(tracks: map<nat, Row>, was: map<Slot, Found>, now: map<Slot, Found>, sync: nat, target: string,
                     items: seq<string>, pick: Source -> Option<Found>, tried: seq<Option<nat>>, item: string)
    requires Tries(tracks, sync, items, tried) && |tried| == |items| && item in items
    requires Written(tracks, was, now, target, pick, tried)
    ensures Sure(tracks, sync, item, pick) ==> Matched(tracks, now, sync, target, item, pick)
    ensures forall id | Alone(tracks, id, sync, item) && pick(tracks[id].source).Some? ::
              (id, target) in now && Some(now[(id, target)]) == pick(tracks[id].source)
  {
    var k :| 0 <= k < |items| && items[k] == item;
    assert tried[k] in tried;
    if Sure(tracks, sync, item, pick) {
      assert IsItem(tracks, tried[k].value, sync, item);
    }
    forall id | Alone(tracks, id, sync, item) && pick(tracks[id].source).Some?
      ensures tried[k] == Some(id)
    {
      assert IsItem(tracks, id, sync, item);
    }
  }

  /** The only track of the sync with this item. */
  ghost predicate Alone(tracks: map<nat, Row>, id: nat, sync: nat, item: string) {
    IsItem(tracks, id, sync, item) && forall twin | IsItem(tracks, twin, sync, item) :: twin == id
  }

  // ------------------------------------------------------ matching a fetched playlist

  predicate HasId(source: Source) {
    source.itemId.Some? && source.itemId.value != ""
  }

  /** The source items a fetch hands to the match phase: tracks without an item id are left out. */
  function Items(rows: seq<Source>, k: nat): seq<string>
    requires k <= |rows|
  {
    if k == 0 then []
    else Items(rows, k - 1) + if HasId(rows[k - 1]) then [rows[k - 1].itemId.value] else []
  }

  lemma {:induction false} ItemsAre(rows: seq<Source>, k: nat, item: string)
    requires k <= |rows|
    ensures item in Items(rows, k) <==> item != "" && exists j | 0 <= j < k :: rows[j].itemId == Some(item)
  {
    if k > 0 {
      ItemsAre(rows, k - 1, item);
    }
  }

  ghost function Among(items: seq<string>, wanted: set<string>): set<nat> {
    set j: nat | j < |items| && items[j] in wanted
  }

  ghost function RowsAmong(rows: seq<Source>, k: nat, wanted: set<string>): set<nat>
    requires k <= |rows|
  {
    set i: nat | i < k && HasId(rows[i]) && rows[i].itemId.value in wanted
  }

  ghost function RowsWithId(rows: seq<Source>, k: nat): set<nat>
    requires k <= |rows|
  {
    set i: nat | i < k && HasId(rows[i])
  }

  lemma AmongMore(items: seq<string>, item: string, wanted: set<string>)
    ensures |Among(items + [item], wanted)| == |Among(items, wanted)| + if item in wanted then 1 else 0
  {
    var before, after := Among(items, wanted), Among(items + [item], wanted);
    assert after == if item in wanted then before + {|items|} else before;
  }

  lemma WithIdMore(rows: seq<Source>, k: nat)
    requires k < |rows|
    ensures |RowsWithId(rows, k + 1)| == |RowsWithId(rows, k)| + if HasId(rows[k]) then 1 else 0
  {
    var before, after := RowsWithId(rows, k), RowsWithId(rows, k + 1);
    assert after == if HasId(rows[k]) then before + {k} else before;
  }

  lemma RowsMore(rows: seq<Source>, k: nat, wanted: set<string>)
    requires k < |rows|
    ensures |RowsAmong(rows, k + 1, wanted)| ==
            |RowsAmong(rows, k, wanted)| + if HasId(rows[k]) && rows[k].itemId.value in wanted then 1 else 0
  {
    var before, after := RowsAmong(rows, k, wanted), RowsAmong(rows, k + 1, wanted);
    assert after == if HasId(rows[k]) && rows[k].itemId.value in wanted then before + {k} else before;
  }

  /** As many items as rows with an item id, in all and among any given ones. */
  lemma {:induction false} ItemsCount(rows: seq<Source>, items: seq<string>, k: nat, wanted: set<string>)
    requires k <= |rows| && items == Items(rows, k)
    ensures |items| == |RowsWithId(rows, k)|
    ensures |Among(items, wanted)| == |RowsAmong(rows, k, wanted)|
    decreases k
  {
    if k == 0 {
      assert RowsWithId(rows, 0) == {} && RowsAmong(rows, 0, wanted) == {} && Among([], wanted) == {};
    } else {
      var before := Items(rows, k - 1);
      ItemsCount(rows, before, k - 1, wanted);
      WithIdMore(rows, k - 1);
      RowsMore(rows, k - 1, wanted);
      if HasId(rows[k - 1]) {
        AmongMore(before, rows[k - 1].itemId.value, wanted);
      } else {
        assert items == before;
      }
    }
  }

  ghost predicate DistinctItems(rows: seq<Source>) {
    forall i, j | 0 <= i < |rows| && 0 <= j < |rows| && rows[i].itemId.Some? && rows[i].itemId == rows[j].itemId ::
      i == j
  }

  /** Row i has an item id, and there is something to pick for every row with the same one. */
  ghost predicate RowSure(rows: seq<Source>, i: nat, pick: Source -> Option<Found>)
    requires i < |rows|
  {
    HasId(rows[i]) && forall j | 0 <= j < |rows| && rows[j].itemId == rows[i].itemId :: pick(rows[j]).Some?
  }

  /** Row i has an item id, and there is something to pick for some row with the same one. */
  ghost predicate RowHit(rows: seq<Source>, i: nat, pick: Source -> Option<Found>)
    requires i < |rows|
  {
    HasId(rows[i]) && exists j | 0 <= j < |rows| && rows[j].itemId == rows[i].itemId :: pick(rows[j]).Some?
  }

  lemma TrackOfRow(d: Tables, sync: nat, rows: seq<Source>, i: nat) returns (id: nat)
    requires Mirrors(d, sync, rows) && i < |rows|
    ensures At(d, id, sync, i) && d.tracks[id].source == rows[i]
  {
    assert Stored(d, sync, i);
    id := IdAt(d, sync, i);
  }

  lemma {:induction false} RowIsItem(d: Tables, sync: nat, rows: seq<Source>, i: nat, pick: Source -> Option<Found>)
    requires Mirrors(d, sync, rows) && i < |rows| && HasId(rows[i])
    ensures Sure(d.tracks, sync, rows[i].itemId.value, pick) <==> RowSure(rows, i, pick)
    ensures Hit(d.tracks, sync, rows[i].itemId.value, pick) <==> RowHit(rows, i, pick)
  {
    var item := rows[i].itemId.value;
    var own := TrackOfRow(d, sync, rows, i);
    assert IsItem(d.tracks, own, sync, item);
    forall j | 0 <= j < |rows| && rows[j].itemId == rows[i].itemId
      ensures Sure(d.tracks, sync, item, pick) ==> pick(rows[j]).Some?
      ensures pick(rows[j]).Some? ==> Hit(d.tracks, sync, item, pick)
    {
      var id := TrackOfRow(d, sync, rows, j);
      assert IsItem(d.tracks, id, sync, item);
    }
    forall id | IsItem(d.tracks, id, sync, item)
      ensures RowSure(rows, i, pick) ==> pick(d.tracks[id].source).Some?
      ensures pick(d.tracks[id].source).Some? ==> RowHit(rows, i, pick)
    {
      ItemIsRow(d, sync, rows, i, id);
    }
  }

  lemma ItemIsRow(d: Tables, sync: nat, rows: seq<Source>, i: nat, id: nat)
    requires Mirrors(d, sync, rows) && i < |rows| && HasId(rows[i])
    requires IsItem(d.tracks, id, sync, rows[i].itemId.value)
    ensures d.tracks[id].position < |rows| && rows[d.tracks[id].position] == d.tracks[id].source
    ensures rows[d.tracks[id].position].itemId == rows[i].itemId
  {
  }

  lemma {:induction false} SureRows(d: Tables, sync: nat, rows: seq<Source>, pick: Source -> Option<Found>)
    requires Mirrors(d, sync, rows)
    ensures var items := Items(rows, |rows|);
            |set k: nat | k < |items| && Sure(d.tracks, sync, items[k], pick)| ==
            |set i: nat | i < |rows| && RowSure(rows, i, pick)|
  {
    var items := Items(rows, |rows|);
    var wanted := set item | item in items && Sure(d.tracks, sync, item, pick);
    ItemsCount(rows, items, |rows|, wanted);
    assert (set k: nat | k < |items| && Sure(d.tracks, sync, items[k], pick)) ==
           Among(items, wanted);
    forall i: nat | i < |rows| && HasId(rows[i])
      ensures rows[i].itemId.value in wanted <==> RowSure(rows, i, pick)
    {
      ItemsAre(rows, |rows|, rows[i].itemId.value);
      RowIsItem(d, sync, rows, i, pick);
    }
    assert (set i: nat | i < |rows| && RowSure(rows, i, pick)) ==
           RowsAmong(rows, |rows|, wanted);
  }

  lemma {:induction false} HitRows(d: Tables, sync: nat, rows: seq<Source>, pick: Source -> Option<Found>)
    requires Mirrors(d, sync, rows)
    ensures var items := Items(rows, |rows|);
            |set k: nat | k < |items| && Hit(d.tracks, sync, items[k], pick)| ==
            |set i: nat | i < |rows| && RowHit(rows, i, pick)|
  {
    var items := Items(rows, |rows|);
    var wanted := set item | item in items && Hit(d.tracks, sync, item, pick);
    ItemsCount(rows, items, |rows|, wanted);
    assert (set k: nat | k < |items| && Hit(d.tracks, sync, items[k], pick)) ==
           Among(items, wanted);
    forall i: nat | i < |rows| && HasId(rows[i])
      ensures rows[i].itemId.value in wanted <==> RowHit(rows, i, pick)
    {
      ItemsAre(rows, |rows|, rows[i].itemId.value);
      RowIsItem(d, sync, rows, i, pick);
    }
    assert (set i: nat | i < |rows| && RowHit(rows, i, pick)) ==
           RowsAmong(rows, |rows|, wanted);
  }

  /** With distinct items the count is exact. */
  lemma DistinctCounts(rows: seq<Source>, pick: Source -> Option<Found>)
    requires DistinctItems(rows)
    ensures (set i: nat | i < |rows| && RowSure(rows, i, pick)) ==
            set i: nat | i < |rows| && HasId(rows[i]) && pick(rows[i]).Some?
    ensures (set i: nat | i < |rows| && RowHit(rows, i, pick)) ==
            set i: nat | i < |rows| && HasId(rows[i]) && pick(rows[i]).Some?
  {
  }

  lemma SaveForgets(d: Tables, sync: nat, rows: seq<Source>, targetIds: seq<string>, target: string)
    requires Valid(d) && rows != [] && target in targetIds
    ensures var e := Saved(d, sync, rows, targetIds);
            forall id | id in e.tracks && e.tracks[id].sync == sync :: (id, target) !in e.targets
  {
    SaveKeeps(d, sync, rows, targetIds);
  }

  /** No other row has the item id of row p. */
  ghost predicate Once(rows: seq<Source>, p: nat)
    requires p < |rows|
  {
    forall j | 0 <= j < |rows| && rows[j].itemId == rows[p].itemId :: j == p
  }

  /** The target has matches only for tracks that have an item id, each as picked for the track; it has one for
      every such track with something to pick whose item occurs once, and for some track of every item whose rows
      all have something to pick. */
  ghost predicate FetchedMatches(tracks: map<nat, Row>, targets: map<Slot, Found>, sync: nat, target: string,
                                 rows: seq<Source>, pick: Source -> Option<Found>) {
    && (forall id | id in tracks && tracks[id].sync == sync && (id, target) in targets ::
          HasId(tracks[id].source) && pick(tracks[id].source) == Some(targets[(id, target)]))
    && (forall id | id in tracks && tracks[id].sync == sync && tracks[id].position < |rows| ::
          HasId(tracks[id].source) && pick(tracks[id].source).Some? && Once(rows, tracks[id].position) ==>
            (id, target) in targets)
    && (forall i: nat | i < |rows| && RowSure(rows, i, pick) ::
          Matched(tracks, targets, sync, target, rows[i].itemId.value, pick))
  }

  /** The target has a match for exactly the tracks of the sync that have an item id and something to pick. */
  ghost predicate ExactMatches(tracks: map<nat, Row>, targets: map<Slot, Found>, sync: nat, target: string,
                               pick: Source -> Option<Found>) {
    forall id | id in tracks && tracks[id].sync == sync ::
      var source := tracks[id].source;
      && ((id, target) in targets <==> source.itemId.Some? && source.itemId.value != "" && pick(source).Some?)
      && ((id, target) in targets ==> targets[(id, target)] == pick(source).value)
  }

  lemma MirrorsByTracks(d: Tables, e: Tables, sync: nat, rows: seq<Source>)
    requires Mirrors(d, sync, rows) && d.tracks == e.tracks
    ensures Mirrors(e, sync, rows)
  {
    forall p: nat
      ensures Stored(d, sync, p) <==> Stored(e, sync, p)
    {
      if Stored(d, sync, p) {
        assert At(e, IdAt(d, sync, p), sync, p);
      }
      if Stored(e, sync, p) {
        assert At(d, IdAt(e, sync, p), sync, p);
      }
    }
  }

  /** A track whose item occurs once in the playlist carries it alone. */
  lemma {:induction false} OnceAlone(d: Tables, sync: nat, rows: seq<Source>, id: nat)
    requires Valid(d) && Mirrors(d, sync, rows) && id in d.tracks && d.tracks[id].sync == sync
    requires HasId(d.tracks[id].source) && Once(rows, d.tracks[id].position)
    ensures Alone(d.tracks, id, sync, d.tracks[id].source.itemId.value)
    ensures d.tracks[id].source.itemId.value in Items(rows, |rows|)
  {
    var item := d.tracks[id].source.itemId;
    ItemsAre(rows, |rows|, item.value);
    assert rows[d.tracks[id].position].itemId == item;
    forall twin | IsItem(d.tracks, twin, sync, item.value)
      ensures twin == id
    {
      assert rows[d.tracks[twin].position].itemId == item;
    }
  }

  lemma {:induction false} MatchesFetched(
    d: Tables, now: map<Slot, Found>, sync: nat, target: string, rows: seq<Source>,
    pick: Source -> Option<Found>, tried: seq<Option<nat>>)
    requires Valid(d) && Mirrors(d, sync, rows)
    requires forall id | id in d.tracks && d.tracks[id].sync == sync :: (id, target) !in d.targets
    requires Tries(d.tracks, sync, Items(rows, |rows|), tried) && |tried| == |Items(rows, |rows|)|
    requires Written(d.tracks, d.targets, now, target, pick, tried)
    ensures FetchedMatches(d.tracks, now, sync, target, rows, pick)
    ensures DistinctItems(rows) ==> ExactMatches(d.tracks, now, sync, target, pick)
  {
    var items := Items(rows, |rows|);
    forall id | id in d.tracks && d.tracks[id].sync == sync && (id, target) in now
      ensures HasId(d.tracks[id].source) && pick(d.tracks[id].source) == Some(now[(id, target)])
    {
      WrittenIsTried(d, now, sync, target, rows, pick, tried, id);
    }
    forall id | id in d.tracks && d.tracks[id].sync == sync && HasId(d.tracks[id].source)
      ensures pick(d.tracks[id].source).Some? && Once(rows, d.tracks[id].position) ==> (id, target) in now
    {
      if pick(d.tracks[id].source).Some? && Once(rows, d.tracks[id].position) {
        OnceAlone(d, sync, rows, id);
        TriedMatched(d.tracks, d.targets, now, sync, target, items, pick, tried, d.tracks[id].source.itemId.value);
      }
    }
    forall i: nat | i < |rows| && RowSure(rows, i, pick)
      ensures Matched(d.tracks, now, sync, target, rows[i].itemId.value, pick)
    {
      RowIsItem(d, sync, rows, i, pick);
      ItemsAre(rows, |rows|, rows[i].itemId.value);
      TriedMatched(d.tracks, d.targets, now, sync, target, items, pick, tried, rows[i].itemId.value);
    }
  }

  /** Only tracks of the sync are tried. */
  lemma {:induction false} TriedOfSync(d: Tables, sync: nat, rows: seq<Source>, tried: seq<Option<nat>>)
    requires Tries(d.tracks, sync, Items(rows, |rows|), tried)
    ensures forall id: nat | Some(id) in tried :: id in d.tracks && d.tracks[id].sync == sync
  {
    forall id: nat | Some(id) in tried
      ensures id in d.tracks && d.tracks[id].sync == sync
    {
      var k :| 0 <= k < |tried| && tried[k] == Some(id);
      assert IsItem(d.tracks, id, sync, Items(rows, |rows|)[k]);
    }
  }

  lemma {:induction false} WrittenIsTried(
    d: Tables, now: map<Slot, Found>, sync: nat, target: string, rows: seq<Source>,
    pick: Source -> Option<Found>, tried: seq<Option<nat>>, id: nat)
    requires id in d.tracks && (id, target) !in d.targets && (id, target) in now
    requires Tries(d.tracks, sync, Items(rows, |rows|), tried)
    requires Written(d.tracks, d.targets, now, target, pick, tried)
    ensures HasId(d.tracks[id].source) && pick(d.tracks[id].source) == Some(now[(id, target)])
  {
    assert Some(id) in tried && Succeeds(d.tracks, Some(id), pick);
    var k :| 0 <= k < |tried| && tried[k] == Some(id);
    ItemsAre(rows, |rows|, Items(rows, |rows|)[k]);
    assert IsItem(d.tracks, id, sync, Items(rows, |rows|)[k]);
  }

  class Database {
    var tracks: map<nat, Row>
    var targets: map<Slot, Found>
    var nextId: nat

    constructor ()
      ensures Contents() == Tables(map[], map[], 0) && Valid(Contents())
    {
      tracks, targets, nextId := map[], map[], 0;
    }

    function Contents(): Tables
      reads this
    {
      Tables(tracks, targets, nextId)
    }

    /** Update or insert row by row, delete what lies past the last position, then forget what the remaining
        tracks matched on the given targets. */
    method SaveSourceTracks(sync: nat, rows: seq<Source>, targetIds: seq<string>)
      requires Valid(Contents())
      modifies this
      ensures Contents() == Saved(old(Contents()), sync, rows, targetIds)
    {
      if rows == [] {
        return;
      }
      ghost var d := Contents();
      var existing := Index(Contents(), sync);
      IndexIsIndex(d, sync);
      var retained := UpsertRows(sync, rows, existing);
      SaveRowsKeeps(d, sync, rows, |rows|);
      var gone := PastIds(existing, |rows|);
      forall id | id in tracks
        ensures id in gone <==> Past(tracks[id], sync, |rows|)
      {
        PastIdsArePast(d, Contents(), sync, rows, existing, id);
      }
      PrunedByIds(Contents(), sync, |rows|, gone, retained, targetIds);
      tracks := tracks - gone;
      targets := Forgotten(targets, gone, retained, targetIds);
    }

    /** Try the items one by one; which of several tracks with the same item is tried is left open. Every item
        counts once, as matched or as failed. */
    method MatchPhase(sync: nat, target: string, items: seq<string>, pick: Source -> Option<Found>)
      returns (matched: nat, failed: nat, ghost tried: seq<Option<nat>>)
      requires Valid(Contents())
      modifies `targets
      ensures Valid(Contents())
      ensures |tried| == |items| && Tries(tracks, sync, items, tried)
      ensures Written(tracks, old(targets), targets, target, pick, tried)
      ensures matched == |Successes(tracks, tried, pick)| && matched + failed == |items|
      ensures |set k: nat | k < |items| && Sure(tracks, sync, items[k], pick)| <= matched
      ensures matched <= |set k: nat | k < |items| && Hit(tracks, sync, items[k], pick)|
      ensures UniqueItems(tracks, sync) ==>
                matched == |set k: nat | k < |items| && Hit(tracks, sync, items[k], pick)|
      ensures forall item | item in items && Sure(tracks, sync, item, pick) ::
                Matched(tracks, targets, sync, target, item, pick)
      ensures forall id, item | item in items && Alone(tracks, id, sync, item) && pick(tracks[id].source).Some? ::
                (id, target) in targets && Some(targets[(id, target)]) == pick(tracks[id].source)
    {
      matched, failed, tried := 0, 0, [];
      for k := 0 to |items|
        invariant |tried| == k && matched + failed == k
        invariant Matching(tracks, old(targets), targets, sync, target, items, pick, tried, matched)
      {
        if HasItem(tracks, sync, items[k]) {
          var id :| id in tracks && IsItem(tracks, id, sync, items[k]);
          MatchingNext(tracks, old(targets), targets, sync, target, items, pick, tried, matched, Some(id));
          tried := tried + [Some(id)];
          var found := pick(tracks[id].source);
          if found.Some? {
            targets := targets[(id, target) := found.value];
            matched := matched + 1;
          } else {
            failed := failed + 1;
          }
        } else {
          MatchingNext(tracks, old(targets), targets, sync, target, items, pick, tried, matched, None);
          tried := tried + [None];
          failed := failed + 1;
        }
      }
      MatchingDone(tracks, old(targets), targets, sync, target, items, pick, tried, matched);
    }

    /** One target of a sync, fetch then match. Every row with an item id counts once. Whatever earlier runs
        left behind, the target ends up with the matches of this playlist, exactly so for items that occur once. */
    method FetchAndMatch(
      sync: nat, rows: seq<Source>, targetIds: seq<string>, target: string, pick: Source -> Option<Found>)
      returns (matched: nat, failed: nat)
      requires Valid(Contents()) && rows != [] && target in targetIds
      modifies this
      ensures Valid(Contents()) && Mirrors(Contents(), sync, rows)
      ensures Contents() == Saved(old(Contents()), sync, rows, targetIds).(targets := targets)
      ensures forall slot: Slot | slot.1 != target || !(slot.0 in tracks && tracks[slot.0].sync == sync) ::
                var saved := Saved(old(Contents()), sync, rows, targetIds).targets;
                (slot in targets <==> slot in saved) && (slot in saved ==> targets[slot] == saved[slot])
      ensures FetchedMatches(tracks, targets, sync, target, rows, pick)
      ensures matched + failed == |set i: nat | i < |rows| && HasId(rows[i])|
      ensures |set i: nat | i < |rows| && RowSure(rows, i, pick)| <= matched
      ensures matched <= |set i: nat | i < |rows| && RowHit(rows, i, pick)|
      ensures DistinctItems(rows) ==>
                && matched == |set i: nat | i < |rows| && HasId(rows[i]) && pick(rows[i]).Some?|
                && ExactMatches(tracks, targets, sync, target, pick)
    {
      SaveMirrors(Contents(), sync, rows, targetIds);
      SaveForgets(Contents(), sync, rows, targetIds, target);
      SaveSourceTracks(sync, rows, targetIds);
      ghost var d := Contents();
      ghost var tried;
      matched, failed, tried := MatchPhase(sync, target, Items(rows, |rows|), pick);
      MirrorsByTracks(d, Contents(), sync, rows);
      MatchesFetched(d, targets, sync, target, rows, pick, tried);
      TriedOfSync(d, sync, rows, tried);
      ItemsCount(rows, Items(rows, |rows|), |rows|, {});
      assert RowsWithId(rows, |rows|) == set i: nat | i < |rows| && HasId(rows[i]);
      SureRows(d, sync, rows, pick);
      HitRows(d, sync, rows, pick);
      if DistinctItems(rows) {
        DistinctCounts(rows, pick);
      }
    }

    method UpsertRows(sync: nat, rows: seq<Source>, existing: map<nat, nat>) returns (retained: set<nat>)
      requires Valid(Contents()) && IsIndex(existing, Contents(), sync)
      modifies this
      ensures Contents() == SaveRows(old(Contents()), sync, rows, |rows|)
      ensures AreFirst(retained, Contents(), sync, |rows|)
    {
      ghost var d := Contents();
      retained := {};
      for k := 0 to |rows|
        invariant Contents() == SaveRows(d, sync, rows, k)
        invariant AreFirst(retained, Contents(), sync, k)
      {
        ghost var id := UpsertStep(d, Contents(), sync, rows, k, existing, retained);
        if k in existing {
          tracks := tracks[existing[k] := Row(sync, k, rows[k])];
          retained := retained + {existing[k]};
        } else {
          tracks, nextId, retained := tracks[nextId := Row(sync, k, rows[k])], nextId + 1, retained + {nextId};
        }
      }
    }
  }

  lemma UpsertStep(
    d: Tables, e: Tables, sync: nat, rows: seq<Source>, k: nat, existing: map<nat, nat>, retained: set<nat>)
    returns (id: nat)
    requires Valid(d) && k < |rows| && e == SaveRows(d, sync, rows, k)
    requires IsIndex(existing, d, sync) && AreFirst(retained, e, sync, k)
    ensures id == if k in existing then existing[k] else e.nextId
    ensures SaveRows(d, sync, rows, k + 1) ==
            Tables(e.tracks[id := Row(sync, k, rows[k])], e.targets, if k in existing then e.nextId else e.nextId + 1)
    ensures AreFirst(retained + {id}, SaveRows(d, sync, rows, k + 1), sync, k + 1)
  {
    id := IdFor(e, sync, k);
    SaveRowsKeeps(d, sync, rows, k);
    IdForStays(d, e, sync, rows, k);
    AreFirstStep(retained, e, sync, k, rows[k]);
    if k in existing {
      assert At(d, existing[k], sync, k) && At(d, IdAt(d, sync, k), sync, k);
    }
    assert SaveRows(d, sync, rows, k + 1) == Put(e, sync, k, rows[k]);
  }
}
