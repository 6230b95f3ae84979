/**
 * `RealPlaylistRepository`: playlists and playlist members read from the
 * platform media index, each member enriched from a snapshot of
 * `song_metadata` that the repository instance loads once, on first use.
 *
 * A cursor is the sequence of its rows; `None` is a null cursor, and an
 * empty sequence is a cursor whose `moveToFirst()` fails. The database is
 * the table's contents at the moment of the call.
 */
module PlaylistRepository {
  import opened Kt
  import opened Metadata
  import opened Overlay

  /** One row of the playlist-members cursor (columns 0 to 13). */
  datatype MemberRow = MemberRow(
    audioId: int,
    title: string,
    track: int,
    year: Option<string>,
    duration: int,
    data: string,
    dateModified: int,
    albumId: int,
    album: string,
    artistId: int,
    artist: string,
    memberId: int,
    composer: Option<string>,
    albumArtist: Option<string>)

  /** One row of the playlists cursor: `_id` and a nullable `name`. */
  datatype PlaylistRow = PlaylistRow(id: int, name: Option<string>)

  datatype Playlist = Playlist(id: int, name: string)

  /** `Playlist.empty`. */
  const EmptyPlaylist := Playlist(-1, "")

  /** The per-instance `metadataMap`: null until the first lookup. */
  datatype RepoState = RepoState(metadataMap: Option<map<int, SongMetadata>>)

  const Fresh := RepoState(None)

  /** The member as read from the cursor, before any overlay. */
  function BaseSong(row: MemberRow, playlistId: int): (r: PlaylistSong)
    ensures r.song.id == row.audioId && r.playlistId == playlistId && r.idInPlayList == row.memberId
    ensures r.song.artistIds.None? && r.song.artistNames.None?
  {
    PlaylistSong(
      Song(
        id := row.audioId,
        title := row.title,
        trackNumber := row.track,
        year := row.year,
        duration := row.duration,
        data := row.data,
        dateModified := row.dateModified,
        albumId := row.albumId,
        albumName := Some(row.album),
        artistId := row.artistId,
        artistName := Some(row.artist),
        composer := row.composer,
        albumArtist := row.albumArtist,
        artistIds := None,
        artistNames := None),
      playlistId,
      row.memberId)
  }

  /**
   * `getMetadata(id)`: loads the snapshot from `db` if the instance holds
   * none yet, then looks `id` up in the snapshot.
   */
  function GetMetadata(st: RepoState, db: Table, id: int): (res: (RepoState, Option<SongMetadata>))
    ensures res.0.metadataMap.Some?
    ensures st.metadataMap.Some? ==> res.0 == st
    ensures st.metadataMap.None? ==> res.0.metadataMap == Some(AssociateBy(db))
    ensures var snap := res.0.metadataMap.value;
            res.1 == (if id in snap then Some(snap[id]) else None)
  {
    var snap := if st.metadataMap.Some? then st.metadataMap.value else AssociateBy(db);
    (RepoState(Some(snap)), if id in snap then Some(snap[id]) else None)
  }

  /** What a member becomes against a given snapshot: overlaid when a row is cached, the base otherwise. */
  function Enrich(snap: map<int, SongMetadata>, fixYear: bool, row: MemberRow, playlistId: int): (r: PlaylistSong)
    ensures !fixYear || row.audioId !in snap ==> r == BaseSong(row, playlistId)
    ensures fixYear && row.audioId in snap ==> Overlaid(BaseSong(row, playlistId), snap[row.audioId], r)
  {
    var base := BaseSong(row, playlistId);
    if fixYear && row.audioId in snap then
      MergeIsOverlay(base, snap[row.audioId], base);
      Merge(base, snap[row.audioId])
    else base
  }

  /** `getPlaylistSongFromCursorImpl(cursor, playlistId)` on the current row. */
  function SongFromRow(st: RepoState, db: Table, fixYear: bool, row: MemberRow, playlistId: int): (res: (RepoState, PlaylistSong))
    ensures !fixYear ==> res == (st, BaseSong(row, playlistId))
    ensures fixYear ==> res.0.metadataMap.Some? && res.1 == Enrich(res.0.metadataMap.value, true, row, playlistId)
    ensures st.metadataMap.Some? ==> res.0 == st
  {
    var base := BaseSong(row, playlistId);
    if fixYear then
      var (st', meta) := GetMetadata(st, db, row.audioId);
      if meta.Some? then (st', Merge(base, meta.value)) else (st', base)
    else (st, base)
  }

  /** The cursor walk: one song per row, in row order. */
  function SongsFromRows(st: RepoState, db: Table, fixYear: bool, rows: seq<MemberRow>, playlistId: int): (res: (RepoState, seq<PlaylistSong>))
    ensures |res.1| == |rows|
    ensures st.metadataMap.Some? ==> res.0 == st
    ensures fixYear && |rows| > 0 ==> res.0.metadataMap.Some?
    ensures !fixYear ==> res.0 == st
    decreases |rows|
  {
    if |rows| == 0 then (st, [])
    else
      var (st1, s) := SongFromRow(st, db, fixYear, rows[0], playlistId);
      var (st2, ss) := SongsFromRows(st1, db, fixYear, rows[1..], playlistId);
      (st2, [s] + ss)
  }

  /**
   * The walk against an already-loaded snapshot is the row-by-row
   * enrichment against that snapshot, whatever the database now holds.
   */
  lemma {:induction false} SongsFromLoadedSnapshot(snap: map<int, SongMetadata>, db: Table, fixYear: bool,
                                                   rows: seq<MemberRow>, playlistId: int)
    ensures var res := SongsFromRows(RepoState(Some(snap)), db, fixYear, rows, playlistId);
            forall k :: 0 <= k < |rows| ==> res.1[k] == Enrich(snap, fixYear, rows[k], playlistId)
    decreases |rows|
  {
    if |rows| > 0 {
      var st := RepoState(Some(snap));
      SongsFromLoadedSnapshot(snap, db, fixYear, rows[1..], playlistId);
      var res := SongsFromRows(st, db, fixYear, rows, playlistId);
      var tail := SongsFromRows(st, db, fixYear, rows[1..], playlistId);
      assert res.1 == [SongFromRow(st, db, fixYear, rows[0], playlistId).1] + tail.1;
      forall k | 0 <= k < |rows| ensures res.1[k] == Enrich(snap, fixYear, rows[k], playlistId) {
        if k > 0 {
          assert res.1[k] == tail.1[k - 1];
          assert rows[k] == rows[1..][k - 1];
        }
      }
    }
  }

  /**
   * The walk from a fresh instance reads the database once, at the first
   * row, and enriches every row against that one snapshot.
   */
  lemma SongsFromFreshInstance(db: Table, rows: seq<MemberRow>, playlistId: int)
    requires |rows| > 0
    ensures var res := SongsFromRows(Fresh, db, true, rows, playlistId);
            && res.0 == RepoState(Some(AssociateBy(db)))
            && forall k :: 0 <= k < |rows| ==> res.1[k] == Enrich(AssociateBy(db), true, rows[k], playlistId)
  {
    var snap := AssociateBy(db);
    var st1 := RepoState(Some(snap));
    SongsFromLoadedSnapshot(snap, db, true, rows[1..], playlistId);
    var res := SongsFromRows(Fresh, db, true, rows, playlistId);
    var tail := SongsFromRows(st1, db, true, rows[1..], playlistId);
    assert SongFromRow(Fresh, db, true, rows[0], playlistId).0 == st1;
    assert res.1 == [SongFromRow(Fresh, db, true, rows[0], playlistId).1] + tail.1;
    forall k | 0 <= k < |rows| ensures res.1[k] == Enrich(snap, true, rows[k], playlistId) {
      if k > 0 {
        assert res.1[k] == tail.1[k - 1];
        assert rows[k] == rows[1..][k - 1];
      }
    }
  }

  /** `playlistSongs(playlistId)`: nothing for -1, otherwise the walk over the members cursor. */
  function PlaylistSongs(st: RepoState, db: Table, fixYear: bool, playlistId: int,
                         cursor: Option<seq<MemberRow>>): (res: (RepoState, seq<PlaylistSong>))
    ensures playlistId == -1 ==> res == (st, [])
    ensures playlistId != -1 ==> |res.1| == |cursor.OrElse([])|
    ensures cursor.None? ==> res == (st, [])
  {
    if playlistId == -1 then (st, [])
    else match cursor
      case None => (st, [])
      case Some(rows) => SongsFromRows(st, db, fixYear, rows, playlistId)
  }

  /**
   * Once the snapshot is loaded, rows added to `song_metadata` afterwards
   * are never seen: any later database gives the same songs.
   */
  lemma SnapshotNeverRefreshed(st: RepoState, db1: Table, db2: Table, fixYear: bool, playlistId: int,
                               cursor: Option<seq<MemberRow>>)
    requires st.metadataMap.Some?
    ensures PlaylistSongs(st, db1, fixYear, playlistId, cursor) == PlaylistSongs(st, db2, fixYear, playlistId, cursor)
  {
    if playlistId != -1 && cursor.Some? {
      var snap := st.metadataMap.value;
      var rows := cursor.value;
      SongsFromLoadedSnapshot(snap, db1, fixYear, rows, playlistId);
      SongsFromLoadedSnapshot(snap, db2, fixYear, rows, playlistId);
      var r1 := SongsFromRows(st, db1, fixYear, rows, playlistId);
      var r2 := SongsFromRows(st, db2, fixYear, rows, playlistId);
      assert r1.1 == r2.1;
    }
  }

  /** `getPlaylistFromCursorImpl`: the row's playlist, or the empty playlist for a null name. */
  function PlaylistFromRow(row: PlaylistRow): (p: Playlist)
    ensures row.name.None? ==> p == EmptyPlaylist
    ensures row.name.Some? ==> p == Playlist(row.id, row.name.value)
  {
    if row.name.Some? then Playlist(row.id, row.name.value) else EmptyPlaylist
  }

  /** `playlist(cursor)`: the first row's playlist, or the empty playlist for a null or empty cursor. */
  function PlaylistOf(cursor: Option<seq<PlaylistRow>>): (p: Playlist)
    ensures cursor.None? || cursor.value == [] ==> p == EmptyPlaylist
    ensures cursor.Some? && |cursor.value| > 0 && cursor.value[0].name.Some? ==>
              p == Playlist(cursor.value[0].id, cursor.value[0].name.value)
    ensures cursor.Some? && |cursor.value| > 0 && cursor.value[0].name.None? ==> p == EmptyPlaylist
  {
    match cursor
    case None => EmptyPlaylist
    case Some(rows) => if |rows| == 0 then EmptyPlaylist else PlaylistFromRow(rows[0])
  }

  /** `playlists(cursor)`: one playlist per row, in row order; nothing for a null cursor. */
  function PlaylistsOf(cursor: Option<seq<PlaylistRow>>): (ps: seq<Playlist>)
    ensures |ps| == |cursor.OrElse([])|
    ensures forall k :: 0 <= k < |ps| ==> ps[k] == PlaylistFromRow(cursor.value[k])
  {
    match cursor
    case None => []
    case Some(rows) => seq(|rows|, k requires 0 <= k < |rows| => PlaylistFromRow(rows[k]))
  }

  /** `playlist(cursor)` is the head of `playlists(cursor)` when there is one. */
  lemma PlaylistIsFirstOfPlaylists(cursor: Option<seq<PlaylistRow>>)
    ensures var ps := PlaylistsOf(cursor);
            PlaylistOf(cursor) == if |ps| > 0 then ps[0] else EmptyPlaylist
  {
  }
}
