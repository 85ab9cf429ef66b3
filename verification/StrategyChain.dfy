/** The three ways of combining strategies are ordered by strictness: what intersection returns sequential
    AND returns, and what sequential AND returns OR returns. */
module StrategyChain {
  import opened Wrappers
  import opened Values
  import opened Similarity
  import opened Selection
  import opened Candidates
  import opened Strategies

  predicate SameAll(cs: seq<Candidate>, ds: seq<Candidate>) {
    |cs| == |ds| && forall i | 0 <= i < |cs| :: Same(cs[i], ds[i])
  }

  /** Both fail, both pick nothing, or both pick candidates with the same matching fields. */
  predicate SameOutcome(a: Outcome, b: Outcome) {
    match (a, b)
    case (Ok(Some(x)), Ok(Some(y))) => Same(x, y)
    case _ => a == b
  }

  /** Candidates under one id differ in nothing but raw data. Unique ids are the common case. */
  predicate TwinsAgree(cs: seq<Candidate>) {
    forall i, j | 0 <= i < |cs| && 0 <= j < |cs| && cs[i].itemId == cs[j].itemId :: Same(cs[i], cs[j])
  }

  predicate Picks(r: Outcome, x: Candidate) {
    SameOutcome(r, Ok(Some(x)))
  }

  predicate Holds(cs: seq<Candidate>, x: Candidate) {
    exists i :: 0 <= i < |cs| && Same(cs[i], x)
  }

  // ------------------------------------------------------ raw data plays no part

  lemma {:induction false} SameCarrier(t: Track, field: string, cs: seq<Candidate>, ds: seq<Candidate>, k: nat)
    requires SameAll(cs, ds) && k <= |cs|
    ensures SameOutcome(Ok(FirstCarrier(t, field, cs, k)), Ok(FirstCarrier(t, field, ds, k)))
    decreases |cs| - k
  {
    if k < |cs| {
      assert Same(cs[k], ds[k]);
      SameCarrier(t, field, cs, ds, k + 1);
    }
  }

  lemma SameFuzzyScores(lex: Lexicon, q: Query, cs: seq<Candidate>, ds: seq<Candidate>)
    requires SameAll(cs, ds)
    ensures FuzzyScores(lex, q, cs) == FuzzyScores(lex, q, ds)
  {
    forall i | 0 <= i < |cs|
      ensures FuzzyScores(lex, q, cs)[i] == FuzzyScores(lex, q, ds)[i]
    {
      assert Same(cs[i], ds[i]);
      assert cs[i].title == ds[i].title && cs[i].artistName == ds[i].artistName;
    }
  }

  lemma SameThroughDict(c: Candidate, d: Candidate)
    requires Same(c, d)
    ensures SameOutcome(Ok(FromDict(ToDict(c))), Ok(FromDict(ToDict(d))))
  {
    ThroughDict(c);
    ThroughDict(d);
  }

  lemma SameFuzzy(lex: Lexicon, s: Strategy, t: Track, cs: seq<Candidate>, ds: seq<Candidate>)
    requires s.Fuzzy? && SameAll(cs, ds)
    ensures SameOutcome(Ok(FuzzyPick(lex, s, t, cs)), Ok(FuzzyPick(lex, s, t, ds)))
  {
    var q := QueryOf(s, t);
    SameFuzzyScores(lex, q, cs, ds);
    var best := Best(FuzzyScores(lex, q, cs), s.titleThreshold);
    if best.Some? {
      SameThroughDict(cs[best.value], ds[best.value]);
    }
  }

  lemma SameAlbum(lex: Lexicon, s: Strategy, t: Track, cs: seq<Candidate>, ds: seq<Candidate>)
    requires s.Album? && SameAll(cs, ds)
    ensures SameOutcome(Ok(AlbumPick(lex, s, t, cs)), Ok(AlbumPick(lex, s, t, ds)))
  {
    var ref := lex.album(OrEmpty(t.albumName));
    forall i | 0 <= i < |cs|
      ensures AlbumScores(lex, s.comparison, ref, cs)[i] == AlbumScores(lex, s.comparison, ref, ds)[i]
    {
      assert Same(cs[i], ds[i]);
      assert cs[i].albumName == ds[i].albumName;
    }
    assert AlbumScores(lex, s.comparison, ref, cs) == AlbumScores(lex, s.comparison, ref, ds);
  }

  lemma {:induction false} SameWithId(ids: set<string>, cs: seq<Candidate>, ds: seq<Candidate>, k: nat)
    requires SameAll(cs, ds) && k <= |cs|
    ensures SameOutcome(Ok(FirstWithId(ids, cs, k)), Ok(FirstWithId(ids, ds, k)))
    decreases |cs| - k
  {
    if k < |cs| {
      assert Same(cs[k], ds[k]);
      SameWithId(ids, cs, ds, k + 1);
    }
  }

  /** No strategy, however nested, looks at raw data. */
  lemma {:induction false} RawIgnored(lex: Lexicon, s: Strategy, t: Track, cs: seq<Candidate>, ds: seq<Candidate>)
    requires SameAll(cs, ds)
    ensures SameOutcome(Match(lex, s, t, cs), Match(lex, s, t, ds))
    decreases s
  {
    match s
    case Mbid(field) => SameCarrier(t, field, cs, ds, 0);
    case Fuzzy(_, _, _) => SameFuzzy(lex, s, t, cs, ds);
    case Album(_, _) => SameAlbum(lex, s, t, cs, ds);
    case Composite(parts, requireAll, mode) =>
      if cs != [] {
        if !requireAll {
          RawIgnoredAnyOf(lex, parts, t, cs, ds, 0);
        } else if mode == "intersection" {
          RawIgnoredIds(lex, parts, t, cs, ds, |parts|);
          var picks := PickedIds(lex, parts, t, cs, |parts|);
          if picks.Ok? && picks.value != [] {
            SameWithId(Shared(picks.value), cs, ds, 0);
          }
        } else {
          RawIgnoredNarrow(lex, parts, t, cs, ds, 0);
        }
      }
  }

  lemma {:induction false} RawIgnoredAnyOf(
    lex: Lexicon, parts: seq<Strategy>, t: Track, cs: seq<Candidate>, ds: seq<Candidate>, k: nat)
    requires SameAll(cs, ds) && k <= |parts|
    ensures SameOutcome(AnyOf(lex, parts, t, cs, k), AnyOf(lex, parts, t, ds, k))
    decreases parts, |parts| - k
  {
    if k < |parts| {
      RawIgnored(lex, parts[k], t, cs, ds);
      RawIgnoredAnyOf(lex, parts, t, cs, ds, k + 1);
    }
  }

  lemma {:induction false} RawIgnoredNarrow(
    lex: Lexicon, parts: seq<Strategy>, t: Track, cs: seq<Candidate>, ds: seq<Candidate>, k: nat)
    requires SameAll(cs, ds) && k <= |parts|
    ensures SameOutcome(Narrow(lex, parts, t, cs, k), Narrow(lex, parts, t, ds, k))
    decreases parts, |parts| - k
  {
    if k < |parts| {
      RawIgnored(lex, parts[k], t, cs, ds);
      var r, q := Match(lex, parts[k], t, cs), Match(lex, parts[k], t, ds);
      if r.Ok? && r.value.Some? {
        RawIgnoredNarrow(lex, parts, t, [r.value.value], [q.value.value], k + 1);
      }
    }
  }

  lemma {:induction false} RawIgnoredIds(
    lex: Lexicon, parts: seq<Strategy>, t: Track, cs: seq<Candidate>, ds: seq<Candidate>, k: nat)
    requires SameAll(cs, ds) && k <= |parts|
    ensures PickedIds(lex, parts, t, cs, k) == PickedIds(lex, parts, t, ds, k)
    decreases parts, k
  {
    if k > 0 {
      RawIgnoredIds(lex, parts, t, cs, ds, k - 1);
      RawIgnored(lex, parts[k - 1], t, cs, ds);
    }
  }

  // ------------------------------------------------------ a pick comes from the list

  lemma {:induction false} CarrierHeld(t: Track, field: string, cs: seq<Candidate>, k: nat)
    requires k <= |cs|
    ensures FirstCarrier(t, field, cs, k).Some? ==>
              FirstCarrier(t, field, cs, k).value in cs && Carries(t, field, FirstCarrier(t, field, cs, k).value)
    decreases |cs| - k
  {
    if k < |cs| {
      CarrierHeld(t, field, cs, k + 1);
    }
  }

  lemma {:induction false} WithIdHeld(ids: set<string>, cs: seq<Candidate>, k: nat)
    requires k <= |cs|
    ensures FirstWithId(ids, cs, k).Some? ==>
              FirstWithId(ids, cs, k).value in cs && FirstWithId(ids, cs, k).value.itemId in ids
    decreases |cs| - k
  {
    if k < |cs| {
      WithIdHeld(ids, cs, k + 1);
    }
  }

  lemma HeldBySame(cs: seq<Candidate>, x: Candidate, y: Candidate)
    requires x in cs && Same(x, y)
    ensures Holds(cs, y)
  {
    var i :| 0 <= i < |cs| && cs[i] == x;
    assert Same(cs[i], y);
  }

  /** Whatever a strategy picks is one of the candidates it was given, up to raw data. */
  lemma {:induction false} PickHeld(lex: Lexicon, s: Strategy, t: Track, cs: seq<Candidate>, x: Candidate)
    requires Match(lex, s, t, cs) == Ok(Some(x))
    ensures Holds(cs, x)
    decreases s
  {
    match s
    case Mbid(field) =>
      CarrierHeld(t, field, cs, 0);
      HeldBySame(cs, x, x);
    case Fuzzy(_, _, _) =>
      var i := Best(FuzzyScores(lex, QueryOf(s, t), cs), s.titleThreshold).value;
      ThroughDict(cs[i]);
      HeldBySame(cs, cs[i], x);
    case Album(_, _) =>
      HeldBySame(cs, x, x);
    case Composite(parts, requireAll, mode) =>
      if !requireAll {
        AnyOfHeld(lex, parts, t, cs, 0, x);
      } else if mode == "intersection" {
        var picks := PickedIds(lex, parts, t, cs, |parts|).value;
        WithIdHeld(Shared(picks), cs, 0);
        HeldBySame(cs, x, x);
      } else {
        NarrowHeld(lex, parts, t, cs, 0, x);
      }
  }

  lemma {:induction false} AnyOfHeld(
    lex: Lexicon, parts: seq<Strategy>, t: Track, cs: seq<Candidate>, k: nat, x: Candidate)
    requires k <= |parts| && AnyOf(lex, parts, t, cs, k) == Ok(Some(x))
    ensures Holds(cs, x)
    decreases parts, |parts| - k
  {
    if Match(lex, parts[k], t, cs) == Ok(None) {
      AnyOfHeld(lex, parts, t, cs, k + 1, x);
    } else {
      PickHeld(lex, parts[k], t, cs, x);
    }
  }

  lemma {:induction false} NarrowHeld(
    lex: Lexicon, parts: seq<Strategy>, t: Track, cs: seq<Candidate>, k: nat, x: Candidate)
    requires k <= |parts| && Narrow(lex, parts, t, cs, k) == Ok(Some(x))
    ensures Holds(cs, x)
    decreases parts, |parts| - k
  {
    if k == |parts| {
      HeldBySame(cs, x, x);
    } else {
      var y := Match(lex, parts[k], t, cs).value.value;
      PickHeld(lex, parts[k], t, cs, y);
      NarrowHeld(lex, parts, t, [y], k + 1, x);
      var i :| 0 <= i < |cs| && Same(cs[i], y);
      HeldBySame(cs, cs[i], x);
    }
  }

  lemma PickOfOne(lex: Lexicon, s: Strategy, t: Track, y: Candidate, x: Candidate)
    requires Match(lex, s, t, [y]) == Ok(Some(x))
    ensures Same(y, x)
  {
    PickHeld(lex, s, t, [y], x);
  }

  // ------------------------------------------------------ a pick is picked again when it stands alone

  /** No composite inside intersects an empty list of parts. */
  predicate WellBuilt(s: Strategy)
    decreases s
  {
    s.Composite? ==>
      && (s.requireAll && s.mode == "intersection" ==> s.parts != [])
      && forall i | 0 <= i < |s.parts| :: WellBuilt(s.parts[i])
  }

  predicate AllWellBuilt(parts: seq<Strategy>) {
    forall i | 0 <= i < |parts| :: WellBuilt(parts[i])
  }

  /** A well-built strategy never fails. */
  lemma {:induction false} NeverFails(lex: Lexicon, s: Strategy, t: Track, cs: seq<Candidate>)
    requires WellBuilt(s)
    ensures Match(lex, s, t, cs).Ok?
    decreases s
  {
    if s.Composite? {
      AnyOfNeverFails(lex, s.parts, t, cs, 0);
      NarrowNeverFails(lex, s.parts, t, cs, 0);
      IdsNeverFail(lex, s.parts, t, cs, |s.parts|);
    }
  }

  lemma {:induction false} AnyOfNeverFails(lex: Lexicon, parts: seq<Strategy>, t: Track, cs: seq<Candidate>, k: nat)
    requires AllWellBuilt(parts) && k <= |parts|
    ensures AnyOf(lex, parts, t, cs, k).Ok?
    decreases parts, |parts| - k
  {
    if k < |parts| {
      NeverFails(lex, parts[k], t, cs);
      AnyOfNeverFails(lex, parts, t, cs, k + 1);
    }
  }

  lemma {:induction false} NarrowNeverFails(lex: Lexicon, parts: seq<Strategy>, t: Track, cs: seq<Candidate>, k: nat)
    requires AllWellBuilt(parts) && k <= |parts|
    ensures Narrow(lex, parts, t, cs, k).Ok?
    decreases parts, |parts| - k
  {
    if k < |parts| {
      NeverFails(lex, parts[k], t, cs);
      var r := Match(lex, parts[k], t, cs);
      if r.value.Some? {
        NarrowNeverFails(lex, parts, t, [r.value.value], k + 1);
      }
    }
  }

  lemma {:induction false} IdsNeverFail(lex: Lexicon, parts: seq<Strategy>, t: Track, cs: seq<Candidate>, k: nat)
    requires AllWellBuilt(parts) && k <= |parts|
    ensures PickedIds(lex, parts, t, cs, k).Ok?
    decreases parts, k
  {
    if k > 0 {
      IdsNeverFail(lex, parts, t, cs, k - 1);
      NeverFails(lex, parts[k - 1], t, cs);
    }
  }

  lemma {:induction false} IdsAre(lex: Lexicon, parts: seq<Strategy>, t: Track, cs: seq<Candidate>, k: nat)
    requires k <= |parts| && PickedIds(lex, parts, t, cs, k).Ok?
    ensures forall j | 0 <= j < k :: IdAt(lex, parts, t, cs, j, PickedIds(lex, parts, t, cs, k).value[j])
    decreases k
  {
    if k > 0 {
      IdsAre(lex, parts, t, cs, k - 1);
    }
  }

  ghost predicate IdAt(lex: Lexicon, parts: seq<Strategy>, t: Track, cs: seq<Candidate>, j: nat, ids: set<string>)
    requires j < |parts|
  {
    var r := Match(lex, parts[j], t, cs);
    r.Ok? && ids == if r.value.Some? then {r.value.value.itemId} else {}
  }

  /** When the parts' picks intersect in x, every part picked x. */
  lemma PartPicks(lex: Lexicon, parts: seq<Strategy>, t: Track, cs: seq<Candidate>, x: Candidate, j: nat)
    requires TwinsAgree(cs) && cs != [] && j < |parts|
    requires Match(lex, Composite(parts, true, "intersection"), t, cs) == Ok(Some(x))
    ensures Picks(Match(lex, parts[j], t, cs), x)
  {
    var picks := PickedIds(lex, parts, t, cs, |parts|).value;
    WithIdHeld(Shared(picks), cs, 0);
    IdsAre(lex, parts, t, cs, |parts|);
    assert IdAt(lex, parts, t, cs, j, picks[j]);
    assert picks[j] in picks;
    var y := Match(lex, parts[j], t, cs).value.value;
    PickHeld(lex, parts[j], t, cs, y);
  }

  function Repeated(ids: set<string>, n: nat): seq<set<string>> {
    seq(n, _ => ids)
  }

  lemma {:induction false} IdsWhenAllPick(
    lex: Lexicon, parts: seq<Strategy>, t: Track, cs: seq<Candidate>, x: Candidate, k: nat)
    requires k <= |parts|
    requires forall j | 0 <= j < k :: Picks(Match(lex, parts[j], t, cs), x)
    ensures PickedIds(lex, parts, t, cs, k) == Ok(Repeated({x.itemId}, k))
    decreases k
  {
    if k > 0 {
      IdsWhenAllPick(lex, parts, t, cs, x, k - 1);
      assert Picks(Match(lex, parts[k - 1], t, cs), x);
      assert Repeated({x.itemId}, k - 1) + [{x.itemId}] == Repeated({x.itemId}, k);
    }
  }

  /** A strategy that picks x from a list whose twins agree picks x again from x alone. */
  lemma {:induction false} Repick(lex: Lexicon, s: Strategy, t: Track, cs: seq<Candidate>, x: Candidate)
    requires WellBuilt(s) && TwinsAgree(cs)
    requires Match(lex, s, t, cs) == Ok(Some(x))
    ensures Picks(Match(lex, s, t, [x]), x)
    decreases s
  {
    match s
    case Mbid(field) => CarrierHeld(t, field, cs, 0);
    case Fuzzy(_, _, _) => RepickFuzzy(lex, s, t, cs, x);
    case Album(_, _) => RepickAlbum(lex, s, t, cs, x);
    case Composite(parts, requireAll, mode) =>
      if !requireAll {
        RepickAnyOf(lex, parts, t, cs, x, 0);
      } else if mode == "intersection" {
        RepickCommon(lex, parts, t, cs, x);
      } else {
        RepickNarrow(lex, parts, t, cs, x, 0);
      }
  }

  lemma RepickFuzzy(lex: Lexicon, s: Strategy, t: Track, cs: seq<Candidate>, x: Candidate)
    requires s.Fuzzy? && FuzzyPick(lex, s, t, cs) == Some(x)
    ensures Picks(Ok(FuzzyPick(lex, s, t, [x])), x)
  {
    var scores := FuzzyScores(lex, QueryOf(s, t), cs);
    var i := Best(scores, s.titleThreshold).value;
    ThroughDict(cs[i]);
    WinnerAlone(scores, s.titleThreshold, i);
    SameFuzzyScores(lex, QueryOf(s, t), [cs[i]], [x]);
    assert FuzzyScores(lex, QueryOf(s, t), [cs[i]]) == [scores[i]];
    ThroughDict(x);
  }

  lemma RepickAlbum(lex: Lexicon, s: Strategy, t: Track, cs: seq<Candidate>, x: Candidate)
    requires s.Album? && AlbumPick(lex, s, t, cs) == Some(x)
    ensures Picks(Ok(AlbumPick(lex, s, t, [x])), x)
  {
    var ref := lex.album(OrEmpty(t.albumName));
    var scores := AlbumScores(lex, s.comparison, ref, cs);
    var i := Best(scores, s.threshold).value;
    WinnerAlone(scores, s.threshold, i);
    assert AlbumScores(lex, s.comparison, ref, [x]) == [scores[i]];
  }

  lemma {:induction false} RepickAnyOf(
    lex: Lexicon, parts: seq<Strategy>, t: Track, cs: seq<Candidate>, x: Candidate, k: nat)
    requires AllWellBuilt(parts) && TwinsAgree(cs) && k <= |parts|
    requires AnyOf(lex, parts, t, cs, k) == Ok(Some(x))
    ensures Picks(AnyOf(lex, parts, t, [x], k), x)
    decreases parts, |parts| - k
  {
    NeverFails(lex, parts[k], t, [x]);
    if Match(lex, parts[k], t, cs) == Ok(None) {
      RepickAnyOf(lex, parts, t, cs, x, k + 1);
      var r := Match(lex, parts[k], t, [x]);
      if r.value.Some? {
        PickOfOne(lex, parts[k], t, x, r.value.value);
      }
    } else {
      Repick(lex, parts[k], t, cs, x);
    }
  }

  lemma {:induction false} RepickNarrow(
    lex: Lexicon, parts: seq<Strategy>, t: Track, cs: seq<Candidate>, x: Candidate, k: nat)
    requires AllWellBuilt(parts) && TwinsAgree(cs) && k <= |parts|
    requires Narrow(lex, parts, t, cs, k) == Ok(Some(x))
    ensures Picks(Narrow(lex, parts, t, [x], k), x)
    decreases parts, |parts| - k
  {
    if k < |parts| {
      var y := Match(lex, parts[k], t, cs).value.value;
      NarrowHeld(lex, parts, t, [y], k + 1, x);
      assert Same(y, x);
      Repick(lex, parts[k], t, cs, y);
      RawIgnored(lex, parts[k], t, [y], [x]);
      var z := Match(lex, parts[k], t, [x]).value.value;
      RawIgnoredNarrow(lex, parts, t, [z], [y], k + 1);
    }
  }

  lemma {:induction false} RepickCommon(lex: Lexicon, parts: seq<Strategy>, t: Track, cs: seq<Candidate>, x: Candidate)
    requires AllWellBuilt(parts) && TwinsAgree(cs) && cs != []
    requires Match(lex, Composite(parts, true, "intersection"), t, cs) == Ok(Some(x))
    ensures forall j | 0 <= j < |parts| :: Picks(Match(lex, parts[j], t, [x]), x)
    ensures Picks(Match(lex, Composite(parts, true, "intersection"), t, [x]), x)
    decreases parts
  {
    forall j | 0 <= j < |parts|
      ensures Picks(Match(lex, parts[j], t, [x]), x)
    {
      PartPicks(lex, parts, t, cs, x, j);
      var y := Match(lex, parts[j], t, cs).value.value;
      Repick(lex, parts[j], t, cs, y);
      RawIgnored(lex, parts[j], t, [y], [x]);
    }
    IdsWhenAllPick(lex, parts, t, [x], x, |parts|);
    CommonOfOne(|parts|, x);
  }

  lemma CommonOfOne(n: nat, x: Candidate)
    requires n > 0
    ensures Common(Repeated({x.itemId}, n), [x]) == Ok(Some(x))
  {
    var picks := Repeated({x.itemId}, n);
    assert picks[0] == {x.itemId};
    assert x.itemId in Shared(picks);
  }

  // ------------------------------------------------------ the chain

  lemma {:induction false} NarrowStays(lex: Lexicon, parts: seq<Strategy>, t: Track, x: Candidate, z: Candidate, k: nat)
    requires k <= |parts| && Same(z, x)
    requires forall j | 0 <= j < |parts| :: Picks(Match(lex, parts[j], t, [x]), x)
    ensures Picks(Narrow(lex, parts, t, [z], k), x)
    decreases |parts| - k
  {
    if k < |parts| {
      assert Picks(Match(lex, parts[k], t, [x]), x);
      RawIgnored(lex, parts[k], t, [z], [x]);
      NarrowStays(lex, parts, t, x, Match(lex, parts[k], t, [z]).value.value, k + 1);
    }
  }

  /** What intersection AND returns, sequential AND returns, for candidates whose twins agree. */
  lemma IntersectionImpliesSequential(
    lex: Lexicon, parts: seq<Strategy>, t: Track, cs: seq<Candidate>, x: Candidate, mode: string)
    requires AllWellBuilt(parts) && TwinsAgree(cs) && mode != "intersection"
    requires Match(lex, Composite(parts, true, "intersection"), t, cs) == Ok(Some(x))
    ensures Picks(Match(lex, Composite(parts, true, mode), t, cs), x)
  {
    RepickCommon(lex, parts, t, cs, x);
    PartPicks(lex, parts, t, cs, x, 0);
    NarrowStays(lex, parts, t, x, Match(lex, parts[0], t, cs).value.value, 1);
  }

  /** What sequential AND returns, OR returns, as soon as there is a strategy at all. */
  lemma SequentialImpliesAny(
    lex: Lexicon, parts: seq<Strategy>, t: Track, cs: seq<Candidate>, x: Candidate, mode: string, anyMode: string)
    requires parts != [] && mode != "intersection"
    requires Match(lex, Composite(parts, true, mode), t, cs) == Ok(Some(x))
    ensures Picks(Match(lex, Composite(parts, false, anyMode), t, cs), x)
  {
    var y := Match(lex, parts[0], t, cs).value.value;
    NarrowHeld(lex, parts, t, [y], 1, x);
  }

  /** With no strategies at all the three modes disagree: intersection fails, sequential AND returns the first
      candidate and OR returns nothing. */
  lemma WithoutStrategies(lex: Lexicon, t: Track, cs: seq<Candidate>, mode: string)
    requires cs != []
    ensures Match(lex, Composite([], true, mode), t, cs) ==
              if mode == "intersection" then Err(NothingToIntersect) else Ok(Some(cs[0]))
    ensures Match(lex, Composite([], false, mode), t, cs) == Ok(None)
  {
    assert PickedIds(lex, [], t, cs, 0) == Ok([]);
  }

  /** Two candidates that differ under one id break the chain: the parts agree on the id while meaning different
      candidates. */
  lemma SharedIdBreaksChain(lex: Lexicon)
    returns (parts: seq<Strategy>, t: Track, cs: seq<Candidate>)
    ensures AllWellBuilt(parts) && parts != [] && !TwinsAgree(cs)
    ensures Match(lex, Composite(parts, true, "intersection"), t, cs) == Ok(Some(cs[0]))
    ensures Match(lex, Composite(parts, true, "sequential"), t, cs) == Ok(None)
  {
    parts := [Mbid("mbid"), Mbid("album_mbid")];
    t := Track(None, None, None, Null, Some("m"), None, Some("a"));
    var c := Candidate("1", "x", "y", "z", Null, Some("m"), None, None, Null);
    var d := Candidate("1", "x", "y", "z", Null, None, None, Some("a"), Null);
    cs := [c, d];
    assert cs[0].itemId == cs[1].itemId;
    assert !Carries(t, "album_mbid", c) && Carries(t, "album_mbid", d);
    assert FirstCarrier(t, "album_mbid", cs, 1) == Some(d);
    assert FirstCarrier(t, "album_mbid", [c], 1) == None;
    assert Match(lex, parts[0], t, cs) == Ok(Some(c));
    assert Match(lex, parts[1], t, cs) == Ok(Some(d));
    assert Match(lex, parts[1], t, [c]) == Ok(None);
    IdsNeverFail(lex, parts, t, cs, 2);
    IdsAre(lex, parts, t, cs, 2);
    var picks := PickedIds(lex, parts, t, cs, 2).value;
    assert IdAt(lex, parts, t, cs, 0, picks[0]) && IdAt(lex, parts, t, cs, 1, picks[1]);
    assert picks[0] == {"1"} && picks[1] == {"1"} && "1" in Shared(picks);
    assert Narrow(lex, parts, t, [c], 1) == Ok(None);
  }
}
