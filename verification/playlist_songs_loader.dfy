/**
 * `PlaylistSongsLoader`: the process-wide loader of playlist members. It
 * repeats the repository's overlay, but its snapshot and its DAO handle are
 * shared by every call in the process, and the DAO is a `lateinit` field
 * that the row conversion initialises before it can be read.
 */
module PlaylistSongsLoader {
  import opened Kt
  import opened Metadata
  import opened Overlay
  import PlaylistRepository

  /**
   * The object's two fields: whether the `lateinit metadataDao` has been
   * assigned, and the `metadataMap` snapshot (null until first loaded).
   */
  datatype LoaderState = LoaderState(daoInitialized: bool, metadataMap: Option<map<int, SongMetadata>>)

  /** The object as the process first sees it. */
  const Start := LoaderState(false, None)

  /** Reading an unassigned `lateinit` property throws this. */
  const Uninitialized := "UninitializedPropertyAccessException"

  /** `getMetadataDao(context)`: assigns the DAO the first time, a no-op after. */
  function GetMetadataDao(st: LoaderState): (st': LoaderState)
    ensures st'.daoInitialized && st'.metadataMap == st.metadataMap
    ensures st.daoInitialized ==> st' == st
  {
    if !st.daoInitialized then LoaderState(true, st.metadataMap) else st
  }

  /**
   * `getMetadata(id)`: loads the snapshot through the DAO if none is held,
   * which throws when the DAO was never assigned; then looks `id` up.
   */
  function GetMetadata(st: LoaderState, db: Table, id: int): (res: Outcome<(LoaderState, Option<SongMetadata>)>)
    ensures res.Thrown? <==> st.metadataMap.None? && !st.daoInitialized
    ensures res.Returned? ==>
              && res.value.0.metadataMap.Some?
              && res.value.0.daoInitialized == st.daoInitialized
              && (st.metadataMap.Some? ==> res.value.0 == st)
              && (st.metadataMap.None? ==> res.value.0.metadataMap == Some(AssociateBy(db)))
              && var snap := res.value.0.metadataMap.value;
                 res.value.1 == (if id in snap then Some(snap[id]) else None)
  {
    if st.metadataMap.None? && !st.daoInitialized then Thrown(Uninitialized)
    else
      var snap := if st.metadataMap.Some? then st.metadataMap.value else AssociateBy(db);
      Returned((LoaderState(st.daoInitialized, Some(snap)), if id in snap then Some(snap[id]) else None))
  }

  /**
   * `getPlaylistSongFromCursorImpl(cursor, playlistId, context)`: the DAO
   * is assigned first, so the lookup that follows cannot throw.
   */
  function SongFromRow(st: LoaderState, db: Table, fixYear: bool, row: PlaylistRepository.MemberRow,
                       playlistId: int): (res: Outcome<(LoaderState, PlaylistSong)>)
    ensures res.Returned?
    ensures res.value.0.daoInitialized
    ensures !fixYear ==> res.value == (GetMetadataDao(st), PlaylistRepository.BaseSong(row, playlistId))
    ensures fixYear ==>
              && res.value.0.metadataMap.Some?
              && res.value.1 == PlaylistRepository.Enrich(res.value.0.metadataMap.value, true, row, playlistId)
    ensures st.metadataMap.Some? ==> res.value.0.metadataMap == st.metadataMap
  {
    var st1 := GetMetadataDao(st);
    var base := PlaylistRepository.BaseSong(row, playlistId);
    if fixYear then
      match GetMetadata(st1, db, row.audioId)
      case Thrown(e) => Thrown(e)
      case Returned((st2, meta)) =>
        if meta.Some? then Returned((st2, Merge(base, meta.value))) else Returned((st2, base))
    else Returned((st1, base))
  }

  /** The cursor walk; an exception from a row would end it. */
  function SongsFromRows(st: LoaderState, db: Table, fixYear: bool, rows: seq<PlaylistRepository.MemberRow>,
                         playlistId: int): (res: Outcome<(LoaderState, seq<PlaylistSong>)>)
    ensures res.Returned? ==> |res.value.1| == |rows|
    ensures res.Returned? && st.metadataMap.Some? ==> res.value.0.metadataMap == st.metadataMap
    ensures res.Returned? && |rows| > 0 ==> res.value.0.daoInitialized
    ensures res.Returned? && fixYear && |rows| > 0 ==> res.value.0.metadataMap.Some?
    ensures res.Returned? && !fixYear ==> res.value.0.metadataMap == st.metadataMap
    decreases |rows|
  {
    if |rows| == 0 then Returned((st, []))
    else
      match SongFromRow(st, db, fixYear, rows[0], playlistId)
      case Thrown(e) => Thrown(e)
      case Returned((st1, s)) =>
        match SongsFromRows(st1, db, fixYear, rows[1..], playlistId)
        case Thrown(e) => Thrown(e)
        case Returned((st2, ss)) => Returned((st2, [s] + ss))
  }

  /** Every row of the walk returns, so the walk as a whole never throws. */
  lemma {:induction false} SongsFromRowsNeverThrows(st: LoaderState, db: Table, fixYear: bool,
                                                     rows: seq<PlaylistRepository.MemberRow>, playlistId: int)
    ensures SongsFromRows(st, db, fixYear, rows, playlistId).Returned?
    decreases |rows|
  {
    if |rows| > 0 {
      var st1 := SongFromRow(st, db, fixYear, rows[0], playlistId).value.0;
      SongsFromRowsNeverThrows(st1, db, fixYear, rows[1..], playlistId);
    }
  }

  /**
   * `getPlaylistSongList(context, playlistId)`: one song per row of the
   * members cursor, in order; a null cursor (the query's SecurityException
   * included) gives no songs. It never throws.
   */
  function PlaylistSongList(st: LoaderState, db: Table, fixYear: bool, playlistId: int,
                            cursor: Option<seq<PlaylistRepository.MemberRow>>): (res: (LoaderState, seq<PlaylistSong>))
    ensures |res.1| == |cursor.OrElse([])|
    ensures cursor.None? ==> res == (st, [])
    ensures cursor.Some? && |cursor.value| > 0 ==> res.0.daoInitialized
  {
    match cursor
    case None => (st, [])
    case Some(rows) =>
      SongsFromRowsNeverThrows(st, db, fixYear, rows, playlistId);
      SongsFromRows(st, db, fixYear, rows, playlistId).value
  }

  /**
   * The loader's conversion of a row equals the repository's, for the same
   * flag and the same snapshot state: the duplicated code is one function.
   */
  lemma SameAsRepository(st: LoaderState, db: Table, fixYear: bool, row: PlaylistRepository.MemberRow,
                         playlistId: int)
    ensures var mine := SongFromRow(st, db, fixYear, row, playlistId).value;
            var theirs := PlaylistRepository.SongFromRow(PlaylistRepository.RepoState(st.metadataMap), db, fixYear, row, playlistId);
            mine.1 == theirs.1 && mine.0.metadataMap == theirs.0.metadataMap
  {
  }

  /** The same for a whole cursor, for any playlist id but the repository's -1 shortcut. */
  lemma {:induction false} SameListAsRepository(st: LoaderState, db: Table, fixYear: bool,
                                                rows: seq<PlaylistRepository.MemberRow>, playlistId: int)
    ensures var mine := SongsFromRows(st, db, fixYear, rows, playlistId);
            var theirs := PlaylistRepository.SongsFromRows(PlaylistRepository.RepoState(st.metadataMap), db, fixYear, rows, playlistId);
            mine.Returned? && mine.value.1 == theirs.1 && mine.value.0.metadataMap == theirs.0.metadataMap
    decreases |rows|
  {
    SongsFromRowsNeverThrows(st, db, fixYear, rows, playlistId);
    if |rows| > 0 {
      var rst := PlaylistRepository.RepoState(st.metadataMap);
      SameAsRepository(st, db, fixYear, rows[0], playlistId);
      var st1 := SongFromRow(st, db, fixYear, rows[0], playlistId).value.0;
      var rst1 := PlaylistRepository.SongFromRow(rst, db, fixYear, rows[0], playlistId).0;
      assert rst1 == PlaylistRepository.RepoState(st1.metadataMap);
      SameListAsRepository(st1, db, fixYear, rows[1..], playlistId);
    }
  }

  /**
   * The snapshot is process-wide and never refreshed: once any call has
   * loaded it, a later call sees the same rows whatever the database holds.
   */
  lemma SnapshotNeverRefreshed(st: LoaderState, db1: Table, db2: Table, fixYear: bool, playlistId: int,
                               cursor: Option<seq<PlaylistRepository.MemberRow>>)
    requires st.metadataMap.Some?
    ensures PlaylistSongList(st, db1, fixYear, playlistId, cursor).1 == PlaylistSongList(st, db2, fixYear, playlistId, cursor).1
  {
    if cursor.Some? {
      var rows := cursor.value;
      SameListAsRepository(st, db1, fixYear, rows, playlistId);
      SameListAsRepository(st, db2, fixYear, rows, playlistId);
      PlaylistRepository.SongsFromLoadedSnapshot(st.metadataMap.value, db1, fixYear, rows, playlistId);
      PlaylistRepository.SongsFromLoadedSnapshot(st.metadataMap.value, db2, fixYear, rows, playlistId);
    }
  }
}
