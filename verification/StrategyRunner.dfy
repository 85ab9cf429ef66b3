/** The strategies as they run: candidate loops that keep a best score, and the composite's three loops. */
module StrategyRunner {
  import opened Wrappers
  import opened Values
  import opened Similarity
  import opened Selection
  import opened Candidates
  import opened Strategies

  /** The earliest candidate of maximal combined score, when that score is positive and at least the threshold. */
  method BestMatch(lex: Lexicon, q: Query, cs: seq<Candidate>, threshold: real) returns (best: Option<Candidate>)
    ensures q.title == "" ==> best == None
    ensures q.title != "" ==> best == BestOf(FuzzyScores(lex, q, cs), threshold, cs)
    ensures q.title != "" && q.artist == "" ==>
              IsBest(cs, (c: Candidate) => if c.title == "" then None else Some(TitleScore(lex, q.title, c.title)),
                     threshold, best)
    ensures q.title != "" && q.artist != "" ==>
              IsBestWeighted(cs, q.titleWeight, (c: Candidate) => TitleScore(lex, q.title, c.title),
                             q.artistWeight, (c: Candidate) => ArtistScore(lex, q.artist, c.artistName),
                             threshold, best)
  {
    if q.title == "" {
      return None;
    }
    BestByTitle(lex, q, cs, threshold);
    BestByWeight(lex, q, cs, threshold);
    if cs == [] {
      return None;
    }
    best := None;
    var bestScore := 0.0;
    ghost var scores := FuzzyScores(lex, q, cs);
    ghost var at: Option<nat> := None;
    for k := 0 to |cs|
      invariant Leading(scores, k, at, bestScore)
      invariant best == if at.Some? then Some(cs[at.value]) else None
    {
      LeaderStep(scores, k, at, bestScore);
      if cs[k].title == "" {
        continue;
      }
      var score := FuzzyScore(lex, q, cs[k].title, cs[k].artistName);
      assert scores[k] == score;
      if score.value > bestScore {
        best, bestScore, at := Some(cs[k]), score.value, Some(k);
      }
    }
    LeaderIsBest(scores, threshold, at, bestScore);
    if !(bestScore >= threshold) {
      best := None;
    }
  }

  lemma BestByTitle(lex: Lexicon, q: Query, cs: seq<Candidate>, threshold: real)
    ensures q.artist == "" ==>
              IsBest(cs, (c: Candidate) => if c.title == "" then None else Some(TitleScore(lex, q.title, c.title)),
                     threshold, BestOf(FuzzyScores(lex, q, cs), threshold, cs))
  {
    if q.artist == "" {
      var score := (c: Candidate) => if c.title == "" then None else Some(TitleScore(lex, q.title, c.title));
      BestIsBest(cs, score, threshold, FuzzyScores(lex, q, cs));
    }
  }

  lemma ScoredByWeight(
    lex: Lexicon, q: Query, cs: seq<Candidate>, threshold: real, x: Candidate -> real, y: Candidate -> real)
    requires q.artist != ""
    requires forall c :: x(c) == TitleScore(lex, q.title, c.title)
    requires forall c :: y(c) == ArtistScore(lex, q.artist, c.artistName)
    ensures IsBestWeighted(cs, q.titleWeight, x, q.artistWeight, y, threshold,
                           BestOf(FuzzyScores(lex, q, cs), threshold, cs))
  {
    var score := (c: Candidate) =>
      if c.title == "" then None else Some(Weighed(q.titleWeight, x(c), q.artistWeight, y(c)));
    BestIsBest(cs, score, threshold, FuzzyScores(lex, q, cs));
  }

  lemma BestByWeight(lex: Lexicon, q: Query, cs: seq<Candidate>, threshold: real)
    ensures q.artist != "" ==>
              IsBestWeighted(cs, q.titleWeight, (c: Candidate) => TitleScore(lex, q.title, c.title),
                             q.artistWeight, (c: Candidate) => ArtistScore(lex, q.artist, c.artistName), threshold,
                             BestOf(FuzzyScores(lex, q, cs), threshold, cs))
  {
    if q.artist != "" {
      ScoredByWeight(lex, q, cs, threshold, (c: Candidate) => TitleScore(lex, q.title, c.title),
                     (c: Candidate) => ArtistScore(lex, q.artist, c.artistName));
    }
  }

  lemma ScoreIsWeighed(lex: Lexicon, q: Query, title: string, artist: string)
    requires title != "" && q.artist != ""
    ensures FuzzyScore(lex, q, title, artist) ==
              Some(Weighed(q.titleWeight, TitleScore(lex, q.title, title),
                           q.artistWeight, ArtistScore(lex, q.artist, artist)))
  {
  }

  /** With all the weight on titles the combined score is the title score, with all of it on artists the artist
      score, and with shares of 1 it lies between the two, hence in [0, 1]. */
  lemma ScoreFollowsWeights(lex: Lexicon, q: Query, title: string, artist: string)
    requires title != "" && q.artist != ""
    ensures var x, y := TitleScore(lex, q.title, title), ArtistScore(lex, q.artist, artist);
            var score := FuzzyScore(lex, q, title, artist);
            && score.Some?
            && (q.titleWeight == 1.0 && q.artistWeight == 0.0 ==> score == Some(x))
            && (q.titleWeight == 0.0 && q.artistWeight == 1.0 ==> score == Some(y))
            && (0.0 <= q.titleWeight && 0.0 <= q.artistWeight && q.titleWeight + q.artistWeight == 1.0 ==>
                  x <= score.value <= y || y <= score.value <= x)
  {
    ScoreIsWeighed(lex, q, title, artist);
    WeighedLaws(q.titleWeight, TitleScore(lex, q.title, title), q.artistWeight, ArtistScore(lex, q.artist, artist));
  }

  /** With all the weight on titles the artist asked for plays no part in the choice. */
  lemma TitlesAloneDecide(lex: Lexicon, q: Query, cs: seq<Candidate>, threshold: real)
    requires q.titleWeight == 1.0 && q.artistWeight == 0.0
    ensures BestOf(FuzzyScores(lex, q, cs), threshold, cs) ==
            BestOf(FuzzyScores(lex, q.(artist := ""), cs), threshold, cs)
  {
    forall i | 0 <= i < |cs|
      ensures FuzzyScores(lex, q, cs)[i] == FuzzyScores(lex, q.(artist := ""), cs)[i]
    {
      if cs[i].title != "" && q.artist != "" {
        ScoreFollowsWeights(lex, q, cs[i].title, cs[i].artistName);
      }
    }
    assert FuzzyScores(lex, q, cs) == FuzzyScores(lex, q.(artist := ""), cs);
  }

  method MatchMbid(s: Strategy, t: Track, cs: seq<Candidate>) returns (best: Option<Candidate>)
    requires s.Mbid?
    ensures best == FirstCarrier(t, s.field, cs, 0)
    ensures s.field == "mbid" ==> IsFirstEqual(cs, (c: Candidate) => c.mbid, t.mbid, best)
    ensures s.field == "artist_mbid" ==> IsFirstEqual(cs, (c: Candidate) => c.artistMbid, t.artistMbid, best)
    ensures s.field == "album_mbid" ==> IsFirstEqual(cs, (c: Candidate) => c.albumMbid, t.albumMbid, best)
  {
    FirstCarrierIs(t, "mbid", cs, (c: Candidate) => c.mbid, t.mbid);
    FirstCarrierIs(t, "artist_mbid", cs, (c: Candidate) => c.artistMbid, t.artistMbid);
    FirstCarrierIs(t, "album_mbid", cs, (c: Candidate) => c.albumMbid, t.albumMbid);
    var source := TrackField(t, s.field);
    if !Truthy(source) {
      NoCarrier(t, s.field, cs, 0);
      return None;
    }
    for k := 0 to |cs|
      invariant FirstCarrier(t, s.field, cs, 0) == FirstCarrier(t, s.field, cs, k)
    {
      if CandidateField(cs[k], s.field) == source {
        return Some(cs[k]);
      }
    }
    return None;
  }

  lemma {:induction false} CarrierAt(t: Track, field: string, cs: seq<Candidate>, k: nat)
    requires k <= |cs|
    ensures match FirstCarrier(t, field, cs, k)
            case None => forall i | k <= i < |cs| :: !Carries(t, field, cs[i])
            case Some(b) => exists i :: k <= i < |cs| && cs[i] == b && Carries(t, field, b) &&
                                        forall j | k <= j < i :: !Carries(t, field, cs[j])
    decreases |cs| - k
  {
    if k < |cs| {
      CarrierAt(t, field, cs, k + 1);
    }
  }

  lemma FirstCarrierIs(
    t: Track, field: string, cs: seq<Candidate>, read: Candidate -> Option<string>, wanted: Option<string>)
    requires TrackField(t, field) == OrNull(wanted) && forall c :: CandidateField(c, field) == OrNull(read(c))
    ensures IsFirstEqual(cs, read, wanted, FirstCarrier(t, field, cs, 0))
  {
    CarrierAt(t, field, cs, 0);
    forall c
      ensures Carries(t, field, c) <==> wanted.Some? && wanted.value != "" && read(c) == wanted
    {
    }
    var best := FirstCarrier(t, field, cs, 0);
    if best.Some? {
      var i :| 0 <= i < |cs| && cs[i] == best.value && Carries(t, field, best.value) &&
               forall j | 0 <= j < i :: !Carries(t, field, cs[j]);
      assert forall j | 0 <= j < i :: read(cs[j]) != wanted;
    }
  }

  lemma {:induction false} NoCarrier(t: Track, field: string, cs: seq<Candidate>, k: nat)
    requires !Truthy(TrackField(t, field)) && k <= |cs|
    ensures FirstCarrier(t, field, cs, k) == None
    decreases |cs| - k
  {
    if k < |cs| {
      NoCarrier(t, field, cs, k + 1);
    }
  }

  method MatchFuzzy(lex: Lexicon, s: Strategy, t: Track, cs: seq<Candidate>) returns (best: Option<Candidate>)
    requires s.Fuzzy?
    ensures best == FuzzyPick(lex, s, t, cs)
    ensures t.title.None? || t.title.value == "" ==> best == None
    ensures t.title.Some? && t.title.value != "" ==> exists chosen: Option<Candidate> ::
              && best == (if chosen.Some? then FromDict(ToDict(chosen.value)) else None)
              && FuzzyChoice(lex, t, s.titleWeight, s.artistWeight, s.titleThreshold, cs, chosen)
  {
    var chosen := BestMatch(lex, QueryOf(s, t), cs, s.titleThreshold);
    best := None;
    if chosen.Some? {
      best := FromDict(ToDict(chosen.value));
    }
    assert t.title.Some? && t.title.value != "" ==>
        FuzzyChoice(lex, t, s.titleWeight, s.artistWeight, s.titleThreshold, cs, chosen);
  }

  /** The best candidate for the track's own title and artist; a track without an artist goes by titles. */
  ghost predicate FuzzyChoice(lex: Lexicon, t: Track, titleWeight: real, artistWeight: real, threshold: real,
                              cs: seq<Candidate>, chosen: Option<Candidate>)
    requires t.title.Some?
  {
    if t.artistName.None? || t.artistName.value == "" then
      IsBest(cs, (c: Candidate) => if c.title == "" then None else Some(TitleScore(lex, t.title.value, c.title)),
             threshold, chosen)
    else
      IsBestWeighted(cs, titleWeight, (c: Candidate) => TitleScore(lex, t.title.value, c.title),
                     artistWeight, (c: Candidate) => ArtistScore(lex, t.artistName.value, c.artistName),
                     threshold, chosen)
  }

  method MatchAlbum(lex: Lexicon, s: Strategy, t: Track, cs: seq<Candidate>) returns (best: Option<Candidate>)
    requires s.Album?
    ensures best == AlbumPick(lex, s, t, cs)
    ensures var album := if t.albumName.Some? then t.albumName.value else "";
            if album == "" || lex.album(album) == "" then best == None
            else IsBest(cs, (c: Candidate) =>
                          if lex.album(c.albumName) == "" then None
                          else Some(AlbumScore(lex, s.comparison, lex.album(album), lex.album(c.albumName))),
                        s.threshold, best)
  {
    BestByAlbum(lex, s, t, cs);
    best := None;
    var ref := lex.album(OrEmpty(t.albumName));
    if OrEmpty(t.albumName) == "" || ref == "" {
      return;
    }
    var bestScore := 0.0;
    ghost var scores := AlbumScores(lex, s.comparison, ref, cs);
    ghost var at: Option<nat> := None;
    for k := 0 to |cs|
      invariant Leading(scores, k, at, bestScore)
      invariant best == if at.Some? then Some(cs[at.value]) else None
    {
      LeaderStep(scores, k, at, bestScore);
      if lex.album(cs[k].albumName) == "" {
        continue;
      }
      var score := AlbumScore(lex, s.comparison, ref, lex.album(cs[k].albumName));
      assert scores[k] == Some(score);
      if score > bestScore {
        best, bestScore, at := Some(cs[k]), score, Some(k);
      }
    }
    LeaderIsBest(scores, s.threshold, at, bestScore);
    if !(bestScore >= s.threshold) {
      best := None;
    }
  }

  lemma BestByAlbum(lex: Lexicon, s: Strategy, t: Track, cs: seq<Candidate>)
    requires s.Album?
    ensures var ref := lex.album(OrEmpty(t.albumName));
            OrEmpty(t.albumName) != "" && ref != "" ==>
              IsBest(cs, (c: Candidate) =>
                       if lex.album(c.albumName) == "" then None
                       else Some(AlbumScore(lex, s.comparison, ref, lex.album(c.albumName))),
                     s.threshold, AlbumPick(lex, s, t, cs))
  {
    var ref := lex.album(OrEmpty(t.albumName));
    if OrEmpty(t.albumName) != "" && ref != "" {
      var score := (c: Candidate) =>
        if lex.album(c.albumName) == "" then None
        else Some(AlbumScore(lex, s.comparison, ref, lex.album(c.albumName)));
      BestIsBest(cs, score, s.threshold, AlbumScores(lex, s.comparison, ref, cs));
    }
  }

  // ------------------------------------------------------ composites

  /** Any strategy, by its own loop. */
  method Run(lex: Lexicon, s: Strategy, t: Track, cs: seq<Candidate>) returns (r: Outcome)
    ensures r == Match(lex, s, t, cs)
    decreases s, 1
  {
    match s
    case Mbid(_) => var best := MatchMbid(s, t, cs); r := Ok(best);
    case Fuzzy(_, _, _) => var best := MatchFuzzy(lex, s, t, cs); r := Ok(best);
    case Album(_, _) => var best := MatchAlbum(lex, s, t, cs); r := Ok(best);
    case Composite(_, _, _) => r := RunComposite(lex, s, t, cs);
  }

  /** OR: the outcome of the first part that picks anything or fails, and nothing when no part does. */
  ghost predicate FirstAnswer(lex: Lexicon, parts: seq<Strategy>, t: Track, cs: seq<Candidate>, r: Outcome) {
    if forall i | 0 <= i < |parts| :: Match(lex, parts[i], t, cs) == Ok(None) then r == Ok(None)
    else exists k :: 0 <= k < |parts| && r == Match(lex, parts[k], t, cs) && r != Ok(None) &&
                     forall i | 0 <= i < k :: Match(lex, parts[i], t, cs) == Ok(None)
  }

  lemma {:induction false} AnyIsFirst(lex: Lexicon, parts: seq<Strategy>, t: Track, cs: seq<Candidate>, k: nat)
    requires k <= |parts| && forall i | 0 <= i < k :: Match(lex, parts[i], t, cs) == Ok(None)
    ensures FirstAnswer(lex, parts, t, cs, AnyOf(lex, parts, t, cs, k))
    decreases |parts| - k
  {
    if k < |parts| && Match(lex, parts[k], t, cs) == Ok(None) {
      AnyIsFirst(lex, parts, t, cs, k + 1);
    }
  }

  /** Sequential AND: the first part chooses from all candidates, every later one from the pick before it alone, and
      the first part that picks nothing or fails ends the chain. */
  ghost predicate Narrowed(lex: Lexicon, parts: seq<Strategy>, t: Track, cs: seq<Candidate>, picks: seq<Candidate>,
                           r: Outcome) {
    && Chained(lex, parts, t, cs, picks)
    && var remaining := LeftBy(cs, picks);
       if |picks| < |parts| then r == Match(lex, parts[|picks|], t, remaining) && (r.Err? || r.value.None?)
       else r == Ok(if remaining == [] then None else Some(remaining[0]))
  }

  /** What is left to choose from after some picks. */
  function LeftBy(cs: seq<Candidate>, picks: seq<Candidate>): seq<Candidate> {
    if picks == [] then cs else [picks[|picks| - 1]]
  }

  ghost predicate Chained(lex: Lexicon, parts: seq<Strategy>, t: Track, cs: seq<Candidate>, picks: seq<Candidate>) {
    |picks| <= |parts| && forall i | 0 <= i < |picks| :: ChosenAt(lex, parts, t, cs, picks, i)
  }

  ghost predicate ChosenAt(
    lex: Lexicon, parts: seq<Strategy>, t: Track, cs: seq<Candidate>, picks: seq<Candidate>, i: nat)
    requires i < |picks| <= |parts|
  {
    Match(lex, parts[i], t, if i == 0 then cs else [picks[i - 1]]) == Ok(Some(picks[i]))
  }

  lemma ChainedNext(
    lex: Lexicon, parts: seq<Strategy>, t: Track, cs: seq<Candidate>, picks: seq<Candidate>, c: Candidate)
    requires Chained(lex, parts, t, cs, picks) && |picks| < |parts|
    requires Match(lex, parts[|picks|], t, LeftBy(cs, picks)) == Ok(Some(c))
    ensures Chained(lex, parts, t, cs, picks + [c])
  {
    forall i | 0 <= i < |picks| + 1
      ensures ChosenAt(lex, parts, t, cs, picks + [c], i)
    {
      assert i < |picks| ==> ChosenAt(lex, parts, t, cs, picks, i);
    }
  }

  lemma {:induction false} NarrowIsNarrowed(
    lex: Lexicon, parts: seq<Strategy>, t: Track, cs: seq<Candidate>, before: seq<Candidate>, r: Outcome)
    returns (picks: seq<Candidate>)
    requires Chained(lex, parts, t, cs, before) && r == Narrow(lex, parts, t, LeftBy(cs, before), |before|)
    ensures Narrowed(lex, parts, t, cs, picks, r)
    decreases |parts| - |before|
  {
    picks := before;
    if |before| < |parts| {
      var next := Match(lex, parts[|before|], t, LeftBy(cs, before));
      if next.Ok? && next.value.Some? {
        ChainedNext(lex, parts, t, cs, before, next.value.value);
        picks := NarrowIsNarrowed(lex, parts, t, cs, before + [next.value.value], r);
      }
    }
  }

  /** Intersection AND: the first failure decides; without parts there is nothing to intersect; when some part picks
      nothing the result is nothing, and otherwise it is the first candidate that has the item id of every pick. */
  ghost predicate Intersected(lex: Lexicon, parts: seq<Strategy>, t: Track, cs: seq<Candidate>, r: Outcome) {
    if exists k | 0 <= k < |parts| :: Match(lex, parts[k], t, cs).Err? then
      exists k :: 0 <= k < |parts| && Match(lex, parts[k], t, cs).Err? && r == Match(lex, parts[k], t, cs) &&
                  forall i | 0 <= i < k :: Match(lex, parts[i], t, cs).Ok?
    else if parts == [] then r == Err(NothingToIntersect)
    else if exists k | 0 <= k < |parts| :: Match(lex, parts[k], t, cs) == Ok(None) then r == Ok(None)
    else r.Ok? && IsFirstShared(lex, parts, t, cs, r.value)
  }

  ghost predicate PickedByAll(lex: Lexicon, parts: seq<Strategy>, t: Track, cs: seq<Candidate>, id: string) {
    forall k | 0 <= k < |parts| ::
      var r := Match(lex, parts[k], t, cs); r.Ok? && r.value.Some? && r.value.value.itemId == id
  }

  ghost predicate IsFirstShared(
    lex: Lexicon, parts: seq<Strategy>, t: Track, cs: seq<Candidate>, best: Option<Candidate>) {
    match best
    case None => forall c | c in cs :: !PickedByAll(lex, parts, t, cs, c.itemId)
    case Some(b) => exists i :: 0 <= i < |cs| && cs[i] == b && PickedByAll(lex, parts, t, cs, b.itemId) &&
                                forall j | 0 <= j < i :: !PickedByAll(lex, parts, t, cs, cs[j].itemId)
  }

  lemma {:induction false} PickedIdsAre(lex: Lexicon, parts: seq<Strategy>, t: Track, cs: seq<Candidate>, k: nat)
    requires k <= |parts|
    ensures var picks := PickedIds(lex, parts, t, cs, k);
            if picks.Err? then
              exists i :: 0 <= i < k && Match(lex, parts[i], t, cs) == Err(picks.error) &&
                          forall j | 0 <= j < i :: Match(lex, parts[j], t, cs).Ok?
            else forall i | 0 <= i < k :: IsIdOf(picks.value[i], Match(lex, parts[i], t, cs))
    decreases k
  {
    if k > 0 {
      PickedIdsAre(lex, parts, t, cs, k - 1);
    }
  }

  predicate IsIdOf(ids: set<string>, r: Outcome) {
    r.Ok? && ids == if r.value.Some? then {r.value.value.itemId} else {}
  }

  lemma {:induction false} FirstWithIdAt(ids: set<string>, cs: seq<Candidate>, k: nat)
    requires k <= |cs|
    ensures match FirstWithId(ids, cs, k)
            case None => forall i | k <= i < |cs| :: cs[i].itemId !in ids
            case Some(b) => exists i :: k <= i < |cs| && cs[i] == b && b.itemId in ids &&
                                        forall j | k <= j < i :: cs[j].itemId !in ids
    decreases |cs| - k
  {
    if k < |cs| {
      FirstWithIdAt(ids, cs, k + 1);
    }
  }

  lemma SharedPicks(
    lex: Lexicon, parts: seq<Strategy>, t: Track, cs: seq<Candidate>, picks: seq<set<string>>, id: string)
    requires parts != [] && |picks| == |parts|
    requires forall i | 0 <= i < |parts| :: IsIdOf(picks[i], Match(lex, parts[i], t, cs))
    ensures id in Shared(picks) <==> PickedByAll(lex, parts, t, cs, id)
  {
    if PickedByAll(lex, parts, t, cs, id) {
      forall pick | pick in picks
        ensures id in pick
      {
        var i :| 0 <= i < |picks| && picks[i] == pick;
      }
    } else {
      var k :| 0 <= k < |parts| && !(var r := Match(lex, parts[k], t, cs);
                                     r.Ok? && r.value.Some? && r.value.value.itemId == id);
      assert picks[k] in picks;
    }
  }

  lemma IntersectionIs(lex: Lexicon, parts: seq<Strategy>, t: Track, cs: seq<Candidate>)
    ensures var picks := PickedIds(lex, parts, t, cs, |parts|);
            Intersected(lex, parts, t, cs, if picks.Err? then Err(picks.error) else Common(picks.value, cs))
  {
    PickedIdsAre(lex, parts, t, cs, |parts|);
    var picks := PickedIds(lex, parts, t, cs, |parts|);
    if picks.Ok? {
      CommonIs(lex, parts, t, cs, picks.value);
    }
  }

  lemma CommonIs(lex: Lexicon, parts: seq<Strategy>, t: Track, cs: seq<Candidate>, picks: seq<set<string>>)
    requires |picks| == |parts|
    requires forall i | 0 <= i < |parts| :: IsIdOf(picks[i], Match(lex, parts[i], t, cs))
    ensures Intersected(lex, parts, t, cs, Common(picks, cs))
  {
    if k :| 0 <= k < |parts| && Match(lex, parts[k], t, cs) == Ok(None) {
      assert picks[k] == {};
    } else if parts != [] {
      assert {} !in picks;
      FirstWithIdAt(Shared(picks), cs, 0);
      forall c: Candidate
        ensures c.itemId in Shared(picks) <==> PickedByAll(lex, parts, t, cs, c.itemId)
      {
        SharedPicks(lex, parts, t, cs, picks, c.itemId);
      }
    }
  }

  method RunComposite(lex: Lexicon, s: Strategy, t: Track, cs: seq<Candidate>) returns (r: Outcome)
    requires s.Composite?
    ensures r == Match(lex, s, t, cs)
    ensures cs == [] ==> r == Ok(None)
    ensures cs != [] && !s.requireAll ==> FirstAnswer(lex, s.parts, t, cs, r)
    ensures cs != [] && s.requireAll && s.mode == "intersection" ==> Intersected(lex, s.parts, t, cs, r)
    ensures cs != [] && s.requireAll && s.mode != "intersection" ==>
              exists picks :: Narrowed(lex, s.parts, t, cs, picks, r)
    decreases s, 0
  {
    AnyIsFirst(lex, s.parts, t, cs, 0);
    if cs == [] {
      return Ok(None);
    }
    if s.requireAll {
      if s.mode == "intersection" {
        r := RunIntersection(lex, s.parts, t, cs);
      } else {
        r := RunSequence(lex, s.parts, t, cs);
      }
      return;
    }
    for k := 0 to |s.parts|
      invariant AnyOf(lex, s.parts, t, cs, 0) == AnyOf(lex, s.parts, t, cs, k)
    {
      r := Run(lex, s.parts[k], t, cs);
      if r != Ok(None) {
        return;
      }
    }
    r := Ok(None);
  }

  method RunSequence(lex: Lexicon, parts: seq<Strategy>, t: Track, cs: seq<Candidate>) returns (r: Outcome)
    ensures r == Narrow(lex, parts, t, cs, 0)
    ensures exists picks :: Narrowed(lex, parts, t, cs, picks, r)
    decreases parts
  {
    ghost var picks := NarrowIsNarrowed(lex, parts, t, cs, [], Narrow(lex, parts, t, cs, 0));
    var remaining := cs;
    for k := 0 to |parts|
      invariant Narrow(lex, parts, t, cs, 0) == Narrow(lex, parts, t, remaining, k)
    {
      r := Run(lex, parts[k], t, remaining);
      if r.Err? || r.value.None? {
        return;
      }
      remaining := [r.value.value];
    }
    r := Ok(if remaining == [] then None else Some(remaining[0]));
  }

  method RunIntersection(lex: Lexicon, parts: seq<Strategy>, t: Track, cs: seq<Candidate>) returns (r: Outcome)
    ensures r == if PickedIds(lex, parts, t, cs, |parts|).Err? then Err(PickedIds(lex, parts, t, cs, |parts|).error)
                 else Common(PickedIds(lex, parts, t, cs, |parts|).value, cs)
    ensures Intersected(lex, parts, t, cs, r)
    decreases parts
  {
    IntersectionIs(lex, parts, t, cs);
    var picks: seq<set<string>> := [];
    for k := 0 to |parts|
      invariant PickedIds(lex, parts, t, cs, k) == Ok(picks)
    {
      r := Run(lex, parts[k], t, cs);
      if r.Err? {
        FailureStays(lex, parts, t, cs, k + 1, |parts|);
        return;
      }
      picks := picks + [if r.value.Some? then {r.value.value.itemId} else {}];
    }
    if {} in picks {
      return Ok(None);
    }
    if picks == [] {
      return Err(NothingToIntersect);
    }
    var ids := Shared(picks);
    for k := 0 to |cs|
      invariant FirstWithId(ids, cs, 0) == FirstWithId(ids, cs, k)
    {
      if cs[k].itemId in ids {
        return Ok(Some(cs[k]));
      }
    }
    r := Ok(None);
  }

  lemma {:induction false} FailureStays(
    lex: Lexicon, parts: seq<Strategy>, t: Track, cs: seq<Candidate>, k: nat, n: nat)
    requires k <= n <= |parts| && PickedIds(lex, parts, t, cs, k).Err?
    ensures PickedIds(lex, parts, t, cs, n) == PickedIds(lex, parts, t, cs, k)
    decreases n
  {
    if k < n {
      FailureStays(lex, parts, t, cs, k, n - 1);
    }
  }
}
