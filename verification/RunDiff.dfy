/** The difference between two recorded runs of a sync. */
module RunDiff {
  import opened Wrappers

  /** A recorded track: its source item, and whether it was matched on some target. */
  datatype RunTrack = RunTrack(itemId: Option<string>, matched: bool, title: Option<string>)

  /** Tracks without an item id all share one key. */
  type Key = Option<string>

  /** A dictionary of tracks by key: the last track of a key counts, at the place of the first. */
  datatype Keyed = Keyed(order: seq<Key>, tracks: map<Key, RunTrack>)

  function ByKey(tracks: seq<RunTrack>, k: nat): Keyed
    requires k <= |tracks|
  {
    if k == 0 then Keyed([], map[])
    else
      var d := ByKey(tracks, k - 1);
      var key := tracks[k - 1].itemId;
      Keyed(if key in d.tracks then d.order else d.order + [key], d.tracks[key := tracks[k - 1]])
  }

  ghost predicate IsDict(d: Keyed) {
    && (forall key :: key in d.order <==> key in d.tracks)
    && (forall i, j | 0 <= i < |d.order| && 0 <= j < |d.order| && d.order[i] == d.order[j] :: i == j)
    && (forall key | key in d.tracks :: d.tracks[key].itemId == key)
  }

  lemma KeyedStep(d: Keyed, t: RunTrack)
    requires IsDict(d)
    ensures IsDict(Keyed(if t.itemId in d.tracks then d.order else d.order + [t.itemId], d.tracks[t.itemId := t]))
  {
  }

  lemma {:induction false} ByKeyIsDict(tracks: seq<RunTrack>, k: nat)
    requires k <= |tracks|
    ensures IsDict(ByKey(tracks, k))
  {
    if k > 0 {
      ByKeyIsDict(tracks, k - 1);
      KeyedStep(ByKey(tracks, k - 1), tracks[k - 1]);
    }
  }

  lemma {:induction false} KeyPresent(tracks: seq<RunTrack>, k: nat, key: Key)
    requires k <= |tracks|
    ensures key in ByKey(tracks, k).tracks <==> exists i | 0 <= i < k :: tracks[i].itemId == key
  {
    if k > 0 {
      KeyPresent(tracks, k - 1, key);
    }
  }

  datatype Verdict = Added | Removed | Unchanged

  /** A track that appears, or becomes matched, counts as added; one that disappears, or stops being matched,
      as removed. */
  function Judge(before: Keyed, after: Keyed, key: Key): Verdict
    requires key in before.tracks || key in after.tracks
  {
    if key !in before.tracks then Added
    else if key !in after.tracks then Removed
    else if after.tracks[key].matched && !before.tracks[key].matched then Added
    else if before.tracks[key].matched && !after.tracks[key].matched then Removed
    else Unchanged
  }

  /** Those of the first k keys of the later run that get the verdict, with their tracks. */
  function Judged(before: Keyed, after: Keyed, v: Verdict, k: nat): seq<RunTrack>
    requires k <= |after.order| && forall key | key in after.order :: key in after.tracks
  {
    if k == 0 then []
    else
      var key := after.order[k - 1];
      Judged(before, after, v, k - 1) + if Judge(before, after, key) == v then [after.tracks[key]] else []
  }

  /** Those of the first k keys of the earlier run that the later run does not have. */
  function Gone(before: Keyed, after: Keyed, k: nat): seq<RunTrack>
    requires k <= |before.order| && forall key | key in before.order :: key in before.tracks
  {
    if k == 0 then []
    else
      var key := before.order[k - 1];
      Gone(before, after, k - 1) + if key in after.tracks then [] else [before.tracks[key]]
  }

  datatype Report = Report(added: seq<RunTrack>, removed: seq<RunTrack>, same: seq<RunTrack>)

  function Compare(before: Keyed, after: Keyed): Report
    requires forall key | key in before.order :: key in before.tracks
    requires forall key | key in after.order :: key in after.tracks
  {
    Report(Judged(before, after, Added, |after.order|),
           Judged(before, after, Removed, |after.order|) + Gone(before, after, |before.order|),
           Judged(before, after, Unchanged, |after.order|))
  }

  function Diff(earlier: seq<RunTrack>, later: seq<RunTrack>): Report {
    ByKeyIsDict(earlier, |earlier|);
    ByKeyIsDict(later, |later|);
    Compare(ByKey(earlier, |earlier|), ByKey(later, |later|))
  }

  method KeyTracks(tracks: seq<RunTrack>) returns (d: Keyed)
    ensures d == ByKey(tracks, |tracks|)
  {
    d := Keyed([], map[]);
    for k := 0 to |tracks|
      invariant d == ByKey(tracks, k)
    {
      var key := tracks[k].itemId;
      d := Keyed(if key in d.tracks then d.order else d.order + [key], d.tracks[key := tracks[k]]);
    }
  }

  method GetSyncDiff(earlier: seq<RunTrack>, later: seq<RunTrack>)
    returns (added: seq<RunTrack>, removed: seq<RunTrack>, same: seq<RunTrack>)
    ensures Report(added, removed, same) == Diff(earlier, later)
  {
    ByKeyIsDict(earlier, |earlier|);
    ByKeyIsDict(later, |later|);
    var before := KeyTracks(earlier);
    var after := KeyTracks(later);
    added, removed, same := Sort(before, after);
    var gone := Missing(before, after);
    removed := removed + gone;
  }

  /** The keys of the later run, sorted by verdict. */
  method Sort(before: Keyed, after: Keyed) returns (added: seq<RunTrack>, removed: seq<RunTrack>, same: seq<RunTrack>)
    requires forall key | key in after.order :: key in after.tracks
    ensures added == Judged(before, after, Added, |after.order|)
    ensures removed == Judged(before, after, Removed, |after.order|)
    ensures same == Judged(before, after, Unchanged, |after.order|)
  {
    added, removed, same := [], [], [];
    for k := 0 to |after.order|
      invariant added == Judged(before, after, Added, k)
      invariant removed == Judged(before, after, Removed, k)
      invariant same == Judged(before, after, Unchanged, k)
    {
      var key := after.order[k];
      var track := after.tracks[key];
      if key !in before.tracks {
        added := added + [track];
        continue;
      }
      var wasMatched, isMatched := before.tracks[key].matched, track.matched;
      if isMatched && !wasMatched {
        added := added + [track];
      } else if wasMatched && !isMatched {
        removed := removed + [track];
      } else {
        same := same + [track];
      }
    }
  }

  method Missing(before: Keyed, after: Keyed) returns (gone: seq<RunTrack>)
    requires forall key | key in before.order :: key in before.tracks
    ensures gone == Gone(before, after, |before.order|)
  {
    gone := [];
    for k := 0 to |before.order|
      invariant gone == Gone(before, after, k)
    {
      if before.order[k] !in after.tracks {
        gone := gone + [before.tracks[before.order[k]]];
      }
    }
  }

  // ------------------------------------------------------ in which order

  /** Among the first k tracks the first key occurs before the second one does. */
  ghost predicate Before(tracks: seq<RunTrack>, k: nat, first: Key, second: Key)
    requires k <= |tracks|
  {
    exists p | 0 <= p < k :: tracks[p].itemId == first && forall q | 0 <= q <= p :: tracks[q].itemId != second
  }

  lemma BeforeMore(tracks: seq<RunTrack>, k: nat, first: Key, second: Key)
    requires k < |tracks| && Before(tracks, k, first, second)
    ensures Before(tracks, k + 1, first, second)
  {
  }

  /** A dictionary keeps its keys in the order in which they first occur. */
  lemma {:induction false} OrderOfKeys(tracks: seq<RunTrack>, k: nat, d: Keyed, i: nat, j: nat)
    requires k <= |tracks| && d == ByKey(tracks, k) && i < j < |d.order|
    ensures Before(tracks, k, d.order[i], d.order[j])
    decreases k
  {
    var so := ByKey(tracks, k - 1);
    ByKeyIsDict(tracks, k - 1);
    if j < |so.order| {
      OrderOfKeys(tracks, k - 1, so, i, j);
      BeforeMore(tracks, k - 1, d.order[i], d.order[j]);
    } else {
      assert so.order[i] in so.tracks && tracks[k - 1].itemId !in so.tracks;
      KeyPresent(tracks, k - 1, so.order[i]);
      KeyPresent(tracks, k - 1, tracks[k - 1].itemId);
    }
  }

  /** The tracks' keys come in the order in which the keys first occur in the run. */
  ghost predicate InOrder(listed: seq<RunTrack>, run: seq<RunTrack>) {
    forall i, j | 0 <= i < j < |listed| :: Before(run, |run|, listed[i].itemId, listed[j].itemId)
  }

  /** The listed tracks have the keys at the given places, which ascend. */
  ghost predicate KeysPicked(listed: seq<RunTrack>, order: seq<Key>, k: nat, at: seq<nat>)
    requires k <= |order|
  {
    && |at| == |listed|
    && (forall i | 0 <= i < |at| :: at[i] < k && order[at[i]] == listed[i].itemId)
    && (forall i, j | 0 <= i < j < |at| :: at[i] < at[j])
  }

  lemma {:induction false} JudgedPicked(before: Keyed, after: Keyed, v: Verdict, k: nat) returns (at: seq<nat>)
    requires IsDict(after) && k <= |after.order|
    ensures KeysPicked(Judged(before, after, v, k), after.order, k, at)
  {
    at := [];
    if k > 0 {
      at := JudgedPicked(before, after, v, k - 1);
      if Judge(before, after, after.order[k - 1]) == v {
        at := at + [k - 1];
      }
    }
  }

  lemma {:induction false} GonePicked(before: Keyed, after: Keyed, k: nat) returns (at: seq<nat>)
    requires IsDict(before) && k <= |before.order|
    ensures KeysPicked(Gone(before, after, k), before.order, k, at)
  {
    at := [];
    if k > 0 {
      at := GonePicked(before, after, k - 1);
      if before.order[k - 1] !in after.tracks {
        at := at + [k - 1];
      }
    }
  }

  lemma PickedInOrder(run: seq<RunTrack>, d: Keyed, listed: seq<RunTrack>, at: seq<nat>)
    requires d == ByKey(run, |run|) && KeysPicked(listed, d.order, |d.order|, at)
    ensures InOrder(listed, run)
  {
    forall i, j | 0 <= i < j < |listed|
      ensures Before(run, |run|, listed[i].itemId, listed[j].itemId)
    {
      OrderOfKeys(run, |run|, d, at[i], at[j]);
    }
  }

  /** Every heading lists the keys of the later run in that run's order; the removed keys that only the earlier run
      has come after those, in the earlier run's order. */
  lemma ReportedInOrder(earlier: seq<RunTrack>, later: seq<RunTrack>)
    returns (judged: seq<RunTrack>, gone: seq<RunTrack>)
    ensures InOrder(Diff(earlier, later).added, later) && InOrder(Diff(earlier, later).same, later)
    ensures Diff(earlier, later).removed == judged + gone && InOrder(judged, later) && InOrder(gone, earlier)
    ensures forall t | t in judged :: t in later
    ensures forall t, u | t in gone && u in later :: t.itemId != u.itemId
  {
    ByKeyIsDict(earlier, |earlier|);
    ByKeyIsDict(later, |later|);
    var before, after := ByKey(earlier, |earlier|), ByKey(later, |later|);
    judged, gone := Judged(before, after, Removed, |after.order|), Gone(before, after, |before.order|);
    var at := JudgedPicked(before, after, Added, |after.order|);
    PickedInOrder(later, after, Judged(before, after, Added, |after.order|), at);
    at := JudgedPicked(before, after, Unchanged, |after.order|);
    PickedInOrder(later, after, Judged(before, after, Unchanged, |after.order|), at);
    at := JudgedPicked(before, after, Removed, |after.order|);
    PickedInOrder(later, after, judged, at);
    at := GonePicked(before, after, |before.order|);
    PickedInOrder(earlier, before, gone, at);
    forall t | t in judged
      ensures t in later
    {
      JudgedFromLater(before, after, Removed, |after.order|, t);
      KeptIsListed(later, |later|, t.itemId);
    }
    forall t, u | t in gone && u in later
      ensures t.itemId != u.itemId
    {
      GoneFromEarlier(before, after, |before.order|, t);
      KeyPresent(later, |later|, u.itemId);
    }
  }

  lemma {:induction false} KeptIsListed(tracks: seq<RunTrack>, k: nat, key: Key)
    requires k <= |tracks| && key in ByKey(tracks, k).tracks
    ensures ByKey(tracks, k).tracks[key] in tracks
  {
    if tracks[k - 1].itemId != key {
      KeptIsListed(tracks, k - 1, key);
    }
  }

  // ------------------------------------------------------ how often a key is reported

  function Count(tracks: seq<RunTrack>, key: Key, k: nat): nat
    requires k <= |tracks|
  {
    if k == 0 then 0 else Count(tracks, key, k - 1) + if tracks[k - 1].itemId == key then 1 else 0
  }

  function Times(tracks: seq<RunTrack>, key: Key): nat {
    Count(tracks, key, |tracks|)
  }

  lemma {:induction false} CountPrefix(tracks: seq<RunTrack>, more: seq<RunTrack>, key: Key, k: nat)
    requires k <= |tracks|
    ensures Count(tracks + more, key, k) == Count(tracks, key, k)
  {
    if k > 0 {
      CountPrefix(tracks, more, key, k - 1);
    }
  }

  lemma {:induction false} TimesSum(tracks: seq<RunTrack>, more: seq<RunTrack>, key: Key, k: nat)
    requires k <= |more|
    ensures Count(tracks + more, key, |tracks| + k) == Times(tracks, key) + Count(more, key, k)
  {
    if k == 0 {
      CountPrefix(tracks, more, key, |tracks|);
    } else {
      TimesSum(tracks, more, key, k - 1);
    }
  }

  lemma OneMore(tracks: seq<RunTrack>, t: RunTrack, key: Key)
    ensures Times(tracks + [t], key) == Times(tracks, key) + if t.itemId == key then 1 else 0
  {
    CountPrefix(tracks, [t], key, |tracks|);
  }

  /** The key is among the first k of the order. */
  predicate Among(order: seq<Key>, key: Key, k: nat)
    requires k <= |order|
  {
    exists i | 0 <= i < k :: order[i] == key
  }

  lemma {:induction false} JudgedTimes(before: Keyed, after: Keyed, v: Verdict, k: nat, key: Key)
    requires IsDict(before) && IsDict(after) && k <= |after.order|
    ensures Times(Judged(before, after, v, k), key) ==
            if Among(after.order, key, k) && Judge(before, after, key) == v then 1 else 0
  {
    if k > 0 {
      var last := after.order[k - 1];
      var so := Judged(before, after, v, k - 1);
      JudgedTimes(before, after, v, k - 1, key);
      if Judge(before, after, last) == v {
        assert Judged(before, after, v, k) == so + [after.tracks[last]];
        OneMore(so, after.tracks[last], key);
      } else {
        assert Judged(before, after, v, k) == so;
      }
    }
  }

  lemma {:induction false} GoneTimes(before: Keyed, after: Keyed, k: nat, key: Key)
    requires IsDict(before) && IsDict(after) && k <= |before.order|
    ensures Times(Gone(before, after, k), key) == if Among(before.order, key, k) && key !in after.tracks then 1 else 0
  {
    if k > 0 {
      var last := before.order[k - 1];
      var so := Gone(before, after, k - 1);
      GoneTimes(before, after, k - 1, key);
      if last in after.tracks {
        assert Gone(before, after, k) == so;
      } else {
        assert Gone(before, after, k) == so + [before.tracks[last]];
        OneMore(so, before.tracks[last], key);
      }
    }
  }

  predicate Has(tracks: seq<RunTrack>, key: Key) {
    exists i | 0 <= i < |tracks| :: tracks[i].itemId == key
  }

  /** The last track of a key decides whether the key counts as matched. */
  predicate Matched(tracks: seq<RunTrack>, key: Key) {
    key in ByKey(tracks, |tracks|).tracks && ByKey(tracks, |tracks|).tracks[key].matched
  }

  lemma AmongAll(d: Keyed, key: Key)
    requires IsDict(d)
    ensures Among(d.order, key, |d.order|) <==> key in d.tracks
  {
    assert key in d.order <==> key in d.tracks;
  }

  lemma RemovedTimes(before: Keyed, after: Keyed, key: Key)
    requires IsDict(before) && IsDict(after)
    ensures Times(Compare(before, after).removed, key) ==
            if (key in before.tracks || key in after.tracks) && Judge(before, after, key) == Removed then 1 else 0
  {
    var judged, gone := Judged(before, after, Removed, |after.order|), Gone(before, after, |before.order|);
    assert Times(judged, key) == if key in after.tracks && Judge(before, after, key) == Removed then 1 else 0 by {
      AmongAll(after, key);
      JudgedTimes(before, after, Removed, |after.order|, key);
    }
    assert Times(gone, key) == if key in before.tracks && key !in after.tracks then 1 else 0 by {
      AmongAll(before, key);
      GoneTimes(before, after, |before.order|, key);
    }
    assert Times(judged + gone, key) == Times(judged, key) + Times(gone, key) by {
      TimesSum(judged, gone, key, |gone|);
    }
  }

  lemma ComparedTimes(before: Keyed, after: Keyed, key: Key)
    requires IsDict(before) && IsDict(after)
    ensures var report := Compare(before, after);
            var had, has := key in before.tracks, key in after.tracks;
            && Times(report.added, key) == (if has && Judge(before, after, key) == Added then 1 else 0)
            && Times(report.removed, key) == (if (had || has) && Judge(before, after, key) == Removed then 1 else 0)
            && Times(report.same, key) == (if has && Judge(before, after, key) == Unchanged then 1 else 0)
  {
    AmongAll(after, key);
    JudgedTimes(before, after, Added, |after.order|, key);
    JudgedTimes(before, after, Unchanged, |after.order|, key);
    RemovedTimes(before, after, key);
  }

  /** How often each key is reported: once if either run has it, and under the heading that its presence and
      matching in the two runs call for. */
  lemma ReportedOnce(earlier: seq<RunTrack>, later: seq<RunTrack>, key: Key)
    ensures var report := Diff(earlier, later);
            var had, has := Has(earlier, key), Has(later, key);
            var was, now := Matched(earlier, key), Matched(later, key);
            && Times(report.added, key) == (if has && (!had || (now && !was)) then 1 else 0)
            && Times(report.removed, key) == (if had && (!has || (was && !now)) then 1 else 0)
            && Times(report.same, key) == (if had && has && was == now then 1 else 0)
  {
    ByKeyIsDict(earlier, |earlier|);
    ByKeyIsDict(later, |later|);
    KeyPresent(earlier, |earlier|, key);
    KeyPresent(later, |later|, key);
    ComparedTimes(ByKey(earlier, |earlier|), ByKey(later, |later|), key);
  }

  /** The dictionary keeps the last track of a key. */
  lemma {:induction false} LastTrackCounts(tracks: seq<RunTrack>, i: nat, k: nat)
    requires i < k <= |tracks| && forall j | i < j < k :: tracks[j].itemId != tracks[i].itemId
    ensures tracks[i].itemId in ByKey(tracks, k).tracks && ByKey(tracks, k).tracks[tracks[i].itemId] == tracks[i]
    decreases k
  {
    if i < k - 1 {
      LastTrackCounts(tracks, i, k - 1);
    }
  }

  lemma {:induction false} JudgedFromLater(before: Keyed, after: Keyed, v: Verdict, k: nat, t: RunTrack)
    requires IsDict(before) && IsDict(after) && k <= |after.order| && t in Judged(before, after, v, k)
    ensures t.itemId in after.tracks && after.tracks[t.itemId] == t
  {
    if k > 0 && t in Judged(before, after, v, k - 1) {
      JudgedFromLater(before, after, v, k - 1, t);
    }
  }

  lemma {:induction false} GoneFromEarlier(before: Keyed, after: Keyed, k: nat, t: RunTrack)
    requires IsDict(before) && IsDict(after) && k <= |before.order| && t in Gone(before, after, k)
    ensures t.itemId !in after.tracks && t.itemId in before.tracks && before.tracks[t.itemId] == t
  {
    if k > 0 && t in Gone(before, after, k - 1) {
      GoneFromEarlier(before, after, k - 1, t);
    }
  }

  /** A reported track is the later run's track of its key, if there is one, and otherwise the earlier run's. */
  lemma ReportedTrack(earlier: seq<RunTrack>, later: seq<RunTrack>, t: RunTrack)
    requires t in Diff(earlier, later).added || t in Diff(earlier, later).removed || t in Diff(earlier, later).same
    ensures var before, after := ByKey(earlier, |earlier|).tracks, ByKey(later, |later|).tracks;
            if t.itemId in after then t == after[t.itemId] else t.itemId in before && t == before[t.itemId]
  {
    ByKeyIsDict(earlier, |earlier|);
    ByKeyIsDict(later, |later|);
    var before, after := ByKey(earlier, |earlier|), ByKey(later, |later|);
    if t in Judged(before, after, Added, |after.order|) {
      JudgedFromLater(before, after, Added, |after.order|, t);
    } else if t in Judged(before, after, Removed, |after.order|) {
      JudgedFromLater(before, after, Removed, |after.order|, t);
    } else if t in Judged(before, after, Unchanged, |after.order|) {
      JudgedFromLater(before, after, Unchanged, |after.order|, t);
    } else {
      GoneFromEarlier(before, after, |before.order|, t);
    }
  }

  /** Swapping the runs swaps the added and the removed keys and keeps the unchanged ones. */
  lemma SwapSwaps(earlier: seq<RunTrack>, later: seq<RunTrack>, key: Key)
    ensures Times(Diff(earlier, later).added, key) == Times(Diff(later, earlier).removed, key)
    ensures Times(Diff(earlier, later).same, key) == Times(Diff(later, earlier).same, key)
  {
    ReportedOnce(earlier, later, key);
    ReportedOnce(later, earlier, key);
  }

  lemma {:induction false} FoundCounts(tracks: seq<RunTrack>, i: nat, k: nat)
    requires i < k <= |tracks|
    ensures Count(tracks, tracks[i].itemId, k) > 0
    decreases k
  {
    if i < k - 1 {
      FoundCounts(tracks, i, k - 1);
    }
  }

  /** A run compared with itself adds and removes nothing. */
  lemma SelfDiff(run: seq<RunTrack>)
    ensures Diff(run, run).added == [] && Diff(run, run).removed == []
  {
    var report := Diff(run, run);
    if report.added != [] {
      ReportedOnce(run, run, report.added[0].itemId);
      FoundCounts(report.added, 0, |report.added|);
    }
    if report.removed != [] {
      ReportedOnce(run, run, report.removed[0].itemId);
      FoundCounts(report.removed, 0, |report.removed|);
    }
  }
}
