/** Candidate tracks of a target library, and the dictionaries they travel in between nodes. */
module Candidates {
  import opened Wrappers
  import opened Values

  datatype Candidate = Candidate(
    itemId: string, title: string, artistName: string, albumName: string, durationMs: Value,
    mbid: Option<string>, artistMbid: Option<string>, albumMbid: Option<string>, raw: Value)

  const KNOWN_FIELDS: set<string> :=
    {"item_id", "title", "artist_name", "album_name", "duration_ms", "mbid", "artist_mbid", "album_mbid"}

  function OrNull(o: Option<string>): Value {
    if o.Some? then Text(o.value) else Null
  }

  /** data.get(key, ""), for a dictionary holding a text under the key. */
  function TextAt(data: map<string, Value>, key: string): string {
    if key in data && data[key].Text? then data[key].s else ""
  }

  function OptionAt(data: map<string, Value>, key: string): Option<string> {
    if key in data && data[key].Text? then Some(data[key].s) else None
  }

  function ToDict(c: Candidate): map<string, Value> {
    map["item_id" := Text(c.itemId), "title" := Text(c.title), "artist_name" := Text(c.artistName),
        "album_name" := Text(c.albumName), "duration_ms" := c.durationMs, "mbid" := OrNull(c.mbid),
        "artist_mbid" := OrNull(c.artistMbid), "album_mbid" := OrNull(c.albumMbid), "raw_data" := c.raw]
  }

  function FromDict(data: map<string, Value>): Option<Candidate> {
    var itemId := if TextAt(data, "item_id") != "" then TextAt(data, "item_id") else TextAt(data, "id");
    if itemId == "" then None
    else Some(Candidate(
      itemId, TextAt(data, "title"), TextAt(data, "artist_name"), TextAt(data, "album_name"),
      Get(data, "duration_ms"), OptionAt(data, "mbid"), OptionAt(data, "artist_mbid"), OptionAt(data, "album_mbid"),
      Dict(data - KNOWN_FIELDS)))
  }

  /** Equal in everything matching looks at: the raw data may differ. */
  predicate Same(a: Candidate, b: Candidate) {
    a.(raw := b.raw) == b
  }

  lemma OnlyRawUnknown(c: Candidate)
    ensures ToDict(c) - KNOWN_FIELDS == map["raw_data" := c.raw]
  {
    assert "raw_data" !in KNOWN_FIELDS;
    assert ToDict(c).Keys == KNOWN_FIELDS + {"raw_data"};
  }

  /** The item id stands under "item_id"; only when that is missing or empty does "id" count, and with neither there
      is no candidate. */
  lemma ItemIdFirst(data: map<string, Value>, a: string, b: string)
    requires a != "" && b != ""
    ensures "item_id" in data && data["item_id"] == Text(a) ==> FromDict(data).Some? && FromDict(data).value.itemId == a
    ensures ("item_id" !in data || data["item_id"] == Text("")) && "id" in data && data["id"] == Text(b) ==>
              FromDict(data).Some? && FromDict(data).value.itemId == b
    ensures "item_id" !in data && "id" !in data ==> FromDict(data).None?
  {
  }

  /** A candidate that passes through a dictionary keeps its matching fields, and is lost only when it has
      no item id; its raw data ends up one level deeper. */
  lemma ThroughDict(c: Candidate)
    ensures FromDict(ToDict(c)).None? <==> c.itemId == ""
    ensures c.itemId != "" ==>
              Same(FromDict(ToDict(c)).value, c) &&
              FromDict(ToDict(c)).value.raw == Dict(map["raw_data" := c.raw])
  {
    OnlyRawUnknown(c);
  }
}
