/**
 * The "fix year" overlay that both playlist loaders apply to a song read
 * from the platform media index: each of the fourteen cached columns of its
 * `song_metadata` row replaces the song's own value when it is non-null.
 */
module Overlay {
  import opened Kt
  import opened Metadata

  /** A song as a member of a playlist (`PlaylistSong`). */
  datatype PlaylistSong = PlaylistSong(song: Song, playlistId: int, idInPlayList: int)

  /** `meta.x ?: base.x` for a column whose song field is non-null. */
  function Pick<T>(cached: Option<T>, base: T): T {
    cached.OrElse(base)
  }

  /** `meta.x ?: base.x` for a column whose song field is nullable. */
  function PickNullable<T>(cached: Option<T>, base: Option<T>): Option<T> {
    if cached.Some? then cached else base
  }

  /**
   * The song rebuilt from `base` with every cached column of `meta` that is
   * non-null; the id, the playlist id and the member id are the base's.
   */
  function Merge(base: PlaylistSong, meta: SongMetadata): (r: PlaylistSong)
    ensures r.song.id == base.song.id && r.playlistId == base.playlistId && r.idInPlayList == base.idInPlayList
  {
    var b := base.song;
    var s := Song(
      id := b.id,
      title := Pick(meta.title, b.title),
      trackNumber := Pick(meta.trackNumber, b.trackNumber),
      year := PickNullable(meta.year, b.year),
      duration := Pick(meta.duration, b.duration),
      data := Pick(meta.data, b.data),
      dateModified := Pick(meta.dateModified, b.dateModified),
      albumId := Pick(meta.albumId, b.albumId),
      albumName := PickNullable(meta.albumName, b.albumName),
      artistId := Pick(meta.artistId, b.artistId),
      artistName := PickNullable(meta.artistName, b.artistName),
      composer := PickNullable(meta.composer, b.composer),
      albumArtist := PickNullable(meta.albumArtist, b.albumArtist),
      artistIds := PickNullable(meta.artistIds, b.artistIds),
      artistNames := PickNullable(meta.artistNames, b.artistNames));
    PlaylistSong(s, base.playlistId, base.idInPlayList)
  }

  /**
   * Whether the result is the overlay of `meta` on `base`, stated column by
   * column: a non-null cached value wins, a null one falls back to the base.
   */
  predicate Overlaid(base: PlaylistSong, meta: SongMetadata, r: PlaylistSong) {
    var b := base.song;
    var s := r.song;
    && s.id == b.id && r.playlistId == base.playlistId && r.idInPlayList == base.idInPlayList
    && (if meta.title.Some? then s.title == meta.title.value else s.title == b.title)
    && (if meta.trackNumber.Some? then s.trackNumber == meta.trackNumber.value else s.trackNumber == b.trackNumber)
    && (if meta.year.Some? then s.year == meta.year else s.year == b.year)
    && (if meta.duration.Some? then s.duration == meta.duration.value else s.duration == b.duration)
    && (if meta.data.Some? then s.data == meta.data.value else s.data == b.data)
    && (if meta.dateModified.Some? then s.dateModified == meta.dateModified.value else s.dateModified == b.dateModified)
    && (if meta.albumId.Some? then s.albumId == meta.albumId.value else s.albumId == b.albumId)
    && (if meta.albumName.Some? then s.albumName == meta.albumName else s.albumName == b.albumName)
    && (if meta.artistId.Some? then s.artistId == meta.artistId.value else s.artistId == b.artistId)
    && (if meta.artistName.Some? then s.artistName == meta.artistName else s.artistName == b.artistName)
    && (if meta.composer.Some? then s.composer == meta.composer else s.composer == b.composer)
    && (if meta.albumArtist.Some? then s.albumArtist == meta.albumArtist else s.albumArtist == b.albumArtist)
    && (if meta.artistIds.Some? then s.artistIds == meta.artistIds else s.artistIds == b.artistIds)
    && (if meta.artistNames.Some? then s.artistNames == meta.artistNames else s.artistNames == b.artistNames)
  }

  /** The merge is the column-by-column overlay, and the only song that is. */
  lemma MergeIsOverlay(base: PlaylistSong, meta: SongMetadata, r: PlaylistSong)
    ensures Overlaid(base, meta, Merge(base, meta))
    ensures Overlaid(base, meta, r) ==> r == Merge(base, meta)
  {
  }

  /** Overlaying one record twice is overlaying it once. */
  lemma MergeIdempotent(base: PlaylistSong, meta: SongMetadata)
    ensures Merge(Merge(base, meta), meta) == Merge(base, meta)
  {
  }

  /** A row with every cached column null leaves the song as it was. */
  lemma MergeAllNull(base: PlaylistSong, id: int)
    ensures Merge(base, SongMetadata(id, None, None, None, None, None, None, None, None, None, None, None, None, None, None)) == base
  {
  }

  /** A row with every column cached decides every field but the three identities. */
  lemma MergeAllCached(base1: PlaylistSong, base2: PlaylistSong, meta: SongMetadata)
    requires base1.song.id == base2.song.id && base1.playlistId == base2.playlistId
    requires base1.idInPlayList == base2.idInPlayList
    requires && meta.title.Some? && meta.trackNumber.Some? && meta.year.Some? && meta.duration.Some?
             && meta.data.Some? && meta.dateModified.Some? && meta.albumId.Some? && meta.albumName.Some?
             && meta.artistId.Some? && meta.artistName.Some? && meta.composer.Some?
             && meta.albumArtist.Some? && meta.artistIds.Some? && meta.artistNames.Some?
    ensures Merge(base1, meta) == Merge(base2, meta)
  {
  }

  /** A cached empty string is non-null, so it replaces the base value too. */
  lemma EmptyCachedYearOverrides(base: PlaylistSong, meta: SongMetadata)
    requires meta.year == Some("")
    ensures Merge(base, meta).song.year == Some("")
  {
  }
}
