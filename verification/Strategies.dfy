/** Match strategies: each picks at most one candidate, and composites combine them in three modes. */
module Strategies {
  import opened Wrappers
  import opened Values
  import opened Similarity
  import opened Selection
  import opened Candidates

  datatype Track = Track(
    title: Option<string>, artistName: Option<string>, albumName: Option<string>, durationMs: Value,
    mbid: Option<string>, artistMbid: Option<string>, albumMbid: Option<string>)

  datatype Strategy =
    | Mbid(field: string)
    | Fuzzy(titleThreshold: real, titleWeight: real, artistWeight: real)
    | Album(comparison: string, threshold: real)
    | Composite(parts: seq<Strategy>, requireAll: bool, mode: string)

  datatype MatchError = NothingToIntersect

  type Outcome = Result<Option<Candidate>, MatchError>

  // ------------------------------------------------------ single strategies

  /** getattr(track, field, None). */
  function TrackField(t: Track, field: string): Value {
    if field == "mbid" then OrNull(t.mbid)
    else if field == "artist_mbid" then OrNull(t.artistMbid)
    else if field == "album_mbid" then OrNull(t.albumMbid)
    else if field == "title" then OrNull(t.title)
    else if field == "artist_name" then OrNull(t.artistName)
    else if field == "album_name" then OrNull(t.albumName)
    else if field == "duration_ms" then t.durationMs
    else Null
  }

  /** getattr(candidate, field, None), for the fields a track has too. */
  function CandidateField(c: Candidate, field: string): Value {
    if field == "mbid" then OrNull(c.mbid)
    else if field == "artist_mbid" then OrNull(c.artistMbid)
    else if field == "album_mbid" then OrNull(c.albumMbid)
    else if field == "title" then Text(c.title)
    else if field == "artist_name" then Text(c.artistName)
    else if field == "album_name" then Text(c.albumName)
    else if field == "duration_ms" then c.durationMs
    else Null
  }

  function OrEmpty(o: Option<string>): string {
    if o.Some? then o.value else ""
  }

  predicate Carries(t: Track, field: string, c: Candidate) {
    Truthy(TrackField(t, field)) && CandidateField(c, field) == TrackField(t, field)
  }

  /** The first candidate from position k on that carries the track's identifier. */
  function FirstCarrier(t: Track, field: string, cs: seq<Candidate>, k: nat): Option<Candidate>
    requires k <= |cs|
    decreases |cs| - k
  {
    if k == |cs| then None else if Carries(t, field, cs[k]) then Some(cs[k]) else FirstCarrier(t, field, cs, k + 1)
  }

  /** What the best-match search looks for; an empty artist means that only titles count. */
  datatype Query = Query(title: string, artist: string, titleWeight: real, artistWeight: real)

  function QueryOf(s: Strategy, t: Track): Query
    requires s.Fuzzy?
  {
    Query(OrEmpty(t.title), OrEmpty(t.artistName), s.titleWeight, s.artistWeight)
  }

  /** A weighted sum. */
  function Weighed(a: real, x: real, b: real, y: real): real {
    a * x + b * y
  }

  /** The first weight belongs to the first value; weights that share out 1 keep the sum between the values. */
  lemma WeighedLaws(a: real, x: real, b: real, y: real)
    ensures Weighed(1.0, x, 0.0, y) == x && Weighed(0.0, x, 1.0, y) == y
    ensures 0.0 <= a && 0.0 <= b && a + b == 1.0 ==>
              (x <= Weighed(a, x, b, y) <= y) || (y <= Weighed(a, x, b, y) <= x)
  {
    if 0.0 <= a && 0.0 <= b && a + b == 1.0 {
      assert Weighed(a, x, b, y) == x + b * (y - x);
      assert Weighed(a, x, b, y) == y + a * (x - y);
      Product(b, y - x);
      Product(a, x - y);
    }
  }

  lemma Product(a: real, d: real)
    requires 0.0 <= a
    ensures 0.0 <= d ==> 0.0 <= a * d
    ensures d <= 0.0 ==> a * d <= 0.0
  {
  }

  function FuzzyScore(lex: Lexicon, q: Query, title: string, artist: string): Option<real> {
    if title == "" then None
    else
      var score := TitleScore(lex, q.title, title);
      if q.artist == "" then Some(score)
      else Some(Weighed(q.titleWeight, score, q.artistWeight, ArtistScore(lex, q.artist, artist)))
  }

  function AlbumRating(lex: Lexicon, comparison: string, ref: string, album: string): Option<real> {
    if lex.album(album) == "" then None else Some(AlbumScore(lex, comparison, ref, lex.album(album)))
  }

  ghost function FuzzyScores(lex: Lexicon, q: Query, cs: seq<Candidate>): Scores {
    seq(|cs|, i requires 0 <= i < |cs| => FuzzyScore(lex, q, cs[i].title, cs[i].artistName))
  }

  ghost function AlbumScores(lex: Lexicon, comparison: string, ref: string, cs: seq<Candidate>): Scores {
    seq(|cs|, i requires 0 <= i < |cs| => AlbumRating(lex, comparison, ref, cs[i].albumName))
  }

  /** The best candidate by a title score and an artist score with their weights; untitled candidates do not count. */
  ghost predicate IsBestWeighted(
    cs: seq<Candidate>, titleWeight: real, titleScore: Candidate -> real, artistWeight: real,
    artistScore: Candidate -> real, threshold: real, best: Option<Candidate>)
  {
    IsBest(cs, (c: Candidate) =>
             if c.title == "" then None
             else Some(Weighed(titleWeight, titleScore(c), artistWeight, artistScore(c))), threshold, best)
  }

  /** The first candidate whose identifier is the wanted one; none when nothing is wanted. */
  ghost predicate IsFirstEqual(
    cs: seq<Candidate>, read: Candidate -> Option<string>, wanted: Option<string>, best: Option<Candidate>)
  {
    match best
    case None => wanted.None? || wanted.value == "" || forall c | c in cs :: read(c) != wanted
    case Some(b) =>
      && wanted.Some? && wanted.value != ""
      && exists i :: 0 <= i < |cs| && cs[i] == b && read(b) == wanted && forall j | 0 <= j < i :: read(cs[j]) != wanted
  }

  /** The candidate of the winning score. */
  ghost function BestOf(scores: Scores, threshold: real, cs: seq<Candidate>): (best: Option<Candidate>)
    requires |scores| == |cs|
  {
    var i := Best(scores, threshold);
    if i.Some? then Some(cs[i.value]) else None
  }

  /** The chosen candidate went through a dictionary and back. */
  ghost function FuzzyPick(lex: Lexicon, s: Strategy, t: Track, cs: seq<Candidate>): Option<Candidate>
    requires s.Fuzzy?
  {
    var q := QueryOf(s, t);
    var best := BestOf(FuzzyScores(lex, q, cs), s.titleThreshold, cs);
    if q.title == "" || best.None? then None else FromDict(ToDict(best.value))
  }

  ghost function AlbumPick(lex: Lexicon, s: Strategy, t: Track, cs: seq<Candidate>): Option<Candidate>
    requires s.Album?
  {
    var ref := lex.album(OrEmpty(t.albumName));
    if OrEmpty(t.albumName) == "" || ref == "" then None
    else BestOf(AlbumScores(lex, s.comparison, ref, cs), s.threshold, cs)
  }

  // ------------------------------------------------------ composites

  function FirstWithId(ids: set<string>, cs: seq<Candidate>, k: nat): Option<Candidate>
    requires k <= |cs|
    decreases |cs| - k
  {
    if k == |cs| then None else if cs[k].itemId in ids then Some(cs[k]) else FirstWithId(ids, cs, k + 1)
  }

  function Shared(picks: seq<set<string>>): set<string>
    requires picks != []
  {
    set id | id in picks[0] && (forall pick | pick in picks :: id in pick)
  }

  /** The candidate whose id all picks share; with no picks at all there is nothing to intersect. */
  function Common(picks: seq<set<string>>, cs: seq<Candidate>): Outcome {
    if {} in picks then Ok(None)
    else if picks == [] then Err(NothingToIntersect)
    else Ok(FirstWithId(Shared(picks), cs, 0))
  }

  /** What a strategy picks for a track from a list of candidates. */
  ghost function Match(lex: Lexicon, s: Strategy, t: Track, cs: seq<Candidate>): Outcome
    decreases s
  {
    match s
    case Mbid(field) => Ok(FirstCarrier(t, field, cs, 0))
    case Fuzzy(_, _, _) => Ok(FuzzyPick(lex, s, t, cs))
    case Album(_, _) => Ok(AlbumPick(lex, s, t, cs))
    case Composite(parts, requireAll, mode) =>
      if cs == [] then Ok(None)
      else if !requireAll then AnyOf(lex, parts, t, cs, 0)
      else if mode == "intersection" then
        var picks := PickedIds(lex, parts, t, cs, |parts|);
        if picks.Err? then Err(picks.error) else Common(picks.value, cs)
      else Narrow(lex, parts, t, cs, 0)
  }

  /** OR: the pick of the first part, from position k on, that picks anything. */
  ghost function AnyOf(lex: Lexicon, parts: seq<Strategy>, t: Track, cs: seq<Candidate>, k: nat): Outcome
    requires k <= |parts|
    decreases parts, |parts| - k
  {
    if k == |parts| then Ok(None)
    else
      var r := Match(lex, parts[k], t, cs);
      if r == Ok(None) then AnyOf(lex, parts, t, cs, k + 1) else r
  }

  /** Sequential AND: each part, from position k on, chooses from what the one before left over. */
  ghost function Narrow(lex: Lexicon, parts: seq<Strategy>, t: Track, remaining: seq<Candidate>, k: nat): Outcome
    requires k <= |parts|
    decreases parts, |parts| - k
  {
    if k == |parts| then Ok(if remaining == [] then None else Some(remaining[0]))
    else
      var r := Match(lex, parts[k], t, remaining);
      if r.Ok? && r.value.Some? then Narrow(lex, parts, t, [r.value.value], k + 1) else r
  }

  /** Intersection AND: the ids picked by the first k parts, each choosing from the full list. */
  ghost function PickedIds(lex: Lexicon, parts: seq<Strategy>, t: Track, cs: seq<Candidate>, k: nat)
    : (picks: Result<seq<set<string>>, MatchError>)
    requires k <= |parts|
    ensures picks.Ok? ==> |picks.value| == k
    decreases parts, k
  {
    if k == 0 then Ok([])
    else
      var before := PickedIds(lex, parts, t, cs, k - 1);
      if before.Err? then before
      else
        var r := Match(lex, parts[k - 1], t, cs);
        if r.Err? then Err(r.error)
        else Ok(before.value + [if r.value.Some? then {r.value.value.itemId} else {}])
  }
}
