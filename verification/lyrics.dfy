/**
 * `LyricsLoader.loadLyrics`: ask the lyrics service once for the song and
 * pick between the synced and the plain text it returns. The service call
 * is an input: a function from the query to the optional result.
 */
module Lyrics {
  import opened Kt
  import opened Metadata

  /** What the service is asked: title, artist, album and duration. */
  datatype Query = Query(title: string, artist: Option<string>, album: Option<string>, durationMs: int)

  /** The service's answer: two optional texts. */
  datatype FetchResult = FetchResult(syncedLyrics: Option<string>, plainLyrics: Option<string>)

  /** The query for a song; the album artist stands in for the artist when it is set. */
  function QueryFor(song: Song): (q: Query)
    ensures song.albumArtist.Some? ==> q.artist == song.albumArtist
    ensures song.albumArtist.None? ==> q.artist == song.artistName
    ensures q.title == song.title && q.album == song.albumName && q.durationMs == song.duration
  {
    Query(song.title, if song.albumArtist.Some? then song.albumArtist else song.artistName, song.albumName, song.duration)
  }

  /** `takeIf { it.isNotBlank() }`. */
  function IfNotBlank(s: Option<string>): (r: Option<string>)
    ensures r.Some? <==> s.Some? && !IsBlank(s.value)
    ensures r.Some? ==> r == s
  {
    if s.Some? && !IsBlank(s.value) then s else None
  }

  /** `a ?: b`. */
  function Elvis(a: Option<string>, b: Option<string>): Option<string> {
    if a.Some? then a else b
  }

  /** The choice `loadLyrics` makes from one service answer. */
  function Choose(result: Option<FetchResult>, preferSynced: bool): (r: Option<string>)
    ensures r.None? || !IsBlank(r.value)
    ensures result.None? ==> r.None?
    ensures r.Some? ==> r == result.value.syncedLyrics || r == result.value.plainLyrics
  {
    var synced := if result.Some? then IfNotBlank(result.value.syncedLyrics) else None;
    var plain := if result.Some? then IfNotBlank(result.value.plainLyrics) else None;
    var lyrics := if preferSynced then Elvis(synced, plain) else Elvis(plain, synced);
    if lyrics.Some? && !IsBlank(lyrics.value) then lyrics else None
  }

  /** `loadLyrics(song, preferSynced)` against the service `fetch`. */
  function LoadLyrics(song: Song, preferSynced: bool, fetch: Query -> Option<FetchResult>): (r: Option<string>)
    ensures r.None? || !IsBlank(r.value)
  {
    Choose(fetch(QueryFor(song)), preferSynced)
  }

  /** The texts in the order a mode tries them. */
  function Candidates(res: FetchResult, preferSynced: bool): seq<Option<string>> {
    if preferSynced then [res.syncedLyrics, res.plainLyrics] else [res.plainLyrics, res.syncedLyrics]
  }

  /** The first candidate holding non-blank text. */
  function FirstNonBlank(cs: seq<Option<string>>): (r: Option<string>)
    ensures r.Some? ==> r in cs && !IsBlank(r.value)
    ensures r.None? <==> forall k :: 0 <= k < |cs| ==> cs[k].None? || IsBlank(cs[k].value)
    decreases |cs|
  {
    if |cs| == 0 then None
    else if cs[0].Some? && !IsBlank(cs[0].value) then cs[0]
    else
      var r := FirstNonBlank(cs[1..]);
      assert forall k :: 1 <= k < |cs| ==> cs[k] == cs[1..][k - 1];
      r
  }

  /** The choice is the first non-blank text in the mode's order. */
  lemma ChooseIsFirstNonBlank(res: FetchResult, preferSynced: bool)
    ensures Choose(Some(res), preferSynced) == FirstNonBlank(Candidates(res, preferSynced))
  {
    var cs := Candidates(res, preferSynced);
    assert cs[1..][1..] == [];
    assert FirstNonBlank(cs[1..][1..]) == None;
  }

  /** The preferred text wins when it is non-blank; otherwise the other one is the fallback. */
  lemma PreferredFirst(res: FetchResult, preferSynced: bool)
    ensures var preferred := if preferSynced then res.syncedLyrics else res.plainLyrics;
            var other := if preferSynced then res.plainLyrics else res.syncedLyrics;
            && (preferred.Some? && !IsBlank(preferred.value) ==> Choose(Some(res), preferSynced) == preferred)
            && (preferred.None? || IsBlank(preferred.value) ==> Choose(Some(res), preferSynced) == IfNotBlank(other))
  {
  }

  /** When at most one of the two texts is non-blank, the two modes choose alike. */
  lemma ModesAgree(res: FetchResult)
    requires res.syncedLyrics.None? || IsBlank(res.syncedLyrics.value) || res.plainLyrics.None? || IsBlank(res.plainLyrics.value)
    ensures Choose(Some(res), true) == Choose(Some(res), false)
  {
  }

  /** The modes can disagree only by each choosing its own preferred text. */
  lemma ModesDisagree(res: FetchResult)
    requires Choose(Some(res), true) != Choose(Some(res), false)
    ensures Choose(Some(res), true) == res.syncedLyrics && Choose(Some(res), false) == res.plainLyrics
  {
  }
}
