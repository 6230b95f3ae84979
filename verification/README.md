# EffinMusic song-metadata enrichment, modelled in Dafny

EffinMusic is an Android music player. It reads songs from the platform media
index and enriches them with tag data it caches in a `song_metadata` table.
This project models that enrichment path and a few small pure decisions
around it:

- **The scanner** (`MetadataScanner`). It seeds an artist name-to-id map from
  the rows already stored. It mints stable artist ids. It splits the ARTIST
  tag on the delimiters the user configured. It writes one row for each song
  id the table does not hold yet, and it skips songs that already have one.
- **The overlay** (`PlaylistRepository`, and its copy in
  `PlaylistSongsLoader`). When the "fix year" flag is on, each cached column
  that is non-null replaces the song's own value. The cached rows come from a
  snapshot that is loaded lazily and never refreshed.
- **The consumers**:
  - the lyrics choice between synced and plain text (`LyricsLoader`);
  - the delimiter selection of the preference dialog (`DelimiterAdapter`);
  - row typing, the artist line and the queue of the artist page
    (`ArtistDetailsAdapter`);
  - progress clamping, time text and the shuffle and repeat buttons of the
    player (`AbsPlayerControlsFragment`).

Everything is immutable data and pure functions:

- The database is a sequence of rows in insertion order: a scan appends each new row at the end, and the resolver is seeded from the rows in that order.
- A cursor is the sequence of its rows; `None` stands for a null cursor.
- Tag extraction is a map from a file path to its tag properties.
- The lyrics service is a function parameter.
- Mutable fields become a state value that each operation threads through.

Modules, one per file:

| module | file | what it holds |
|---|---|---|
| `Kt` | kotlin.dfy | the Kotlin library calls the code relies on: `trim`, `isBlank`, `distinct`, `split` on literal delimiters, `joinToString`, `indexOf`, `toLongOrNull`, `Long.toString` |
| `Metadata` | metadata.dfy | `Song`, the `song_metadata` row, `associateBy`, and the comma split of the `artistNames` column |
| `ArtistIds` | artist_ids.dfy | the artist-id resolver: `initExistingArtists` and `generateArtistId` |
| `ArtistSplit` | artist_split.dfy | the delimiter pattern and the split, trim and dedupe of ARTIST values |
| `Scanner` | scanner.dfy | `scanIfNotExists` as a fold over the song list |
| `Overlay` | overlay.dfy | the per-column merge both loaders apply |
| `PlaylistRepository` | playlist_repository.dfy | the per-instance snapshot, `playlistSongs`, `playlist(cursor)`, `playlists(cursor)` |
| `PlaylistSongsLoader` | playlist_songs_loader.dfy | the process-wide snapshot, the `lateinit` DAO, `getPlaylistSongList` |
| `Lyrics` | lyrics.dfy | `loadLyrics` |
| `Delimiters` | delimiters.dfy | `DelimiterAdapter` |
| `ArtistDetails` | artist_details.dfy | `ArtistItem` and `ArtistDetailsAdapter` |
| `PlayerControls` | player_controls.dfy | `onUpdateProgressViews` and the shuffle and repeat buttons |
| `Pipeline` | pipeline.dfy | what the scanner writes, read back by the seeding, the overlay and the artist line |

Paths below are relative to the repository root. `MS` in the prose means
`app/src/main/java/code/name/monkey/retromusic/repository/MetadataScanner.kt`.

## Model

| member | source | states |
|---|---|---|
| ArtistIds.Generate | app/src/main/java/code/name/monkey/retromusic/repository/MetadataScanner.kt:43-52 | A known name gets its stored id and nothing changes. A new name gets the counter's value, which is recorded, and the counter goes up by one. The map only grows. Validity and injectivity are kept, and a minted id differs from every id already held. |
| ArtistIds.GenerateStable | app/src/main/java/code/name/monkey/retromusic/repository/MetadataScanner.kt:43-52 | Asking twice for the same name gives the same id, and the second call changes nothing. |
| ArtistIds.Learn | app/src/main/java/code/name/monkey/retromusic/repository/MetadataScanner.kt:34-38 | A name already mapped leaves the resolver unchanged. A new name is recorded with the row's id, and the counter becomes one past that id when the id is at least the counter, and stays put otherwise; either way it ends above the id. |
| ArtistIds.LearnOne | app/src/main/java/code/name/monkey/retromusic/repository/MetadataScanner.kt:34-38 | Learning one pair is replaying the one-pair list: the keys grow by the name unless it was mapped, old ids are kept, and a new name gets the pair's id. |
| ArtistIds.LearnPairs | app/src/main/java/code/name/monkey/retromusic/repository/MetadataScanner.kt:34-38 | Replaying the zipped pairs in order: the keys afterwards are the old names plus every paired name, old names keep their ids, each new name gets the id of its first pairing, and the counter either stays put or ends one past a newly recorded id, above every new id. |
| ArtistIds.LearnedFromAppend | app/src/main/java/code/name/monkey/retromusic/repository/MetadataScanner.kt:30-39 | Replaying one list of pairs and then another is replaying their concatenation, so the row-by-row replay composes. |
| ArtistIds.FirstIdAppend | app/src/main/java/code/name/monkey/retromusic/repository/MetadataScanner.kt:35 | In a concatenation the first list's pairing of a name wins over the second's. |
| ArtistIds.SeedFrom | app/src/main/java/code/name/monkey/retromusic/repository/MetadataScanner.kt:30-40 | Replaying the stored rows in order, each row's names zipped with its ids: every name that is paired with an id somewhere in the table is mapped afterwards, to the id of its first pairing; a name left without an id by a shorter id list is not added; old names keep their ids; the counter ends one past a new id or stays put. A row's names are its names column split on commas and trimmed, and its ids are the tokens of its ids column that parse as a Long; a null column gives no entries. |
| ArtistIds.StoredPairsSnoc | app/src/main/java/code/name/monkey/retromusic/repository/MetadataScanner.kt:30 | A row added at the end of the table adds its pairs at the end of the replay. |
| ArtistIds.Seed | app/src/main/java/code/name/monkey/retromusic/repository/MetadataScanner.kt:24-41 | From an empty map and counter 1, the seeded map holds exactly the names that are paired with an id in some stored row, each with its first pairing's id, and the counter is 1 or one past a seeded id and exceeds every id held. |
| ArtistIds.SeedBySamePairs | app/src/main/java/code/name/monkey/retromusic/repository/MetadataScanner.kt:24-41 | Two tables storing the same set of name-id pairs, each name with one id, seed the same map and counter. |
| ArtistIds.SeedIgnoresRowOrder | app/src/main/java/code/name/monkey/retromusic/repository/MetadataScanner.kt:24-41 | Listing the same rows in another order seeds the same map and counter when every name is stored with one id. |
| ArtistIds.ZipIgnoresSurplus | app/src/main/java/code/name/monkey/retromusic/repository/MetadataScanner.kt:34 | Pairing is positional. Names or ids beyond the shorter list are ignored. |
| ArtistIds.AgreesAt | app/src/main/java/code/name/monkey/retromusic/repository/MetadataScanner.kt:34-38 | A map holds a list of pairs if and only if it holds each pair at each position. |
| ArtistIds.LearnedAgrees | app/src/main/java/code/name/monkey/retromusic/repository/MetadataScanner.kt:34-38 | Replaying pairs that never give one name two ids, none naming a mapped name, leaves every pair held, and every new mapping is one of the pairs. |
| ArtistIds.SeedNamesOfPair | app/src/main/java/code/name/monkey/retromusic/repository/MetadataScanner.kt:31 | A names column written as `a, b` reads back as the two trimmed names. |
| ArtistIds.SeedIdsOfDropped | app/src/main/java/code/name/monkey/retromusic/repository/MetadataScanner.kt:32 | An id token that does not parse as a Long is dropped, so `x,n` reads back as `[n]`. |
| ArtistIds.DroppedTokenShiftsIds | app/src/main/java/code/name/monkey/retromusic/repository/MetadataScanner.kt:31-38 | A dropped id token shifts the next id onto the earlier name. Names `a, b` with ids `x,n` map `a` to `n`, leave `b` unmapped, and put the counter just above `n`. |
| ArtistSplit.Pattern | app/src/main/java/code/name/monkey/retromusic/repository/MetadataScanner.kt:78-82 | The pattern's alternatives are exactly the configured delimiters that are not blank. Each appears once and none is empty. |
| ArtistSplit.PatternKeepsOrder | app/src/main/java/code/name/monkey/retromusic/repository/MetadataScanner.kt:78-81 | The alternatives come in the order of their first appearance in the configured list. |
| ArtistSplit.CharPieces | app/src/main/java/code/name/monkey/retromusic/repository/MetadataScanner.kt:82-85 | Splitting on the empty pattern, which an all-blank delimiter list compiles to, gives an empty piece, then one piece per character, then an empty piece. |
| ArtistSplit.SplitOn | app/src/main/java/code/name/monkey/retromusic/repository/MetadataScanner.kt:78-85 | Splitting one value on the compiled pattern gives at least one piece. On a non-empty pattern no delimiter occurs anywhere inside a piece, and `ArtistSplit.SplitOnFirstCut` and `ArtistSplit.SplitOnNoCut` fix which match each cut is. On the empty pattern the pieces are an empty piece, each character on its own, and an empty piece. |
| ArtistSplit.SplitOnFirstCut | app/src/main/java/code/name/monkey/retromusic/repository/MetadataScanner.kt:78-85 | The first cut of a value is at the leftmost position where an alternative of the pattern occurs, on the first listed alternative occurring there: the first piece is the text before it, and the other pieces are the split of the text after it. |
| ArtistSplit.SplitOnNoCut | app/src/main/java/code/name/monkey/retromusic/repository/MetadataScanner.kt:78-85 | On a non-empty pattern, a value in which no alternative occurs is a single piece, the value itself. |
| ArtistSplit.Pieces | app/src/main/java/code/name/monkey/retromusic/repository/MetadataScanner.kt:84-85 | A string is in the flat-mapped list if and only if it is the trim of a piece of one of the tag values. |
| ArtistSplit.PiecesSnoc | app/src/main/java/code/name/monkey/retromusic/repository/MetadataScanner.kt:84-85 | The flat map is in value order: a value added at the end adds its trimmed pieces, in order, at the end. |
| ArtistSplit.PiecesTrimmed | app/src/main/java/code/name/monkey/retromusic/repository/MetadataScanner.kt:85 | Every piece has no whitespace at either end. |
| ArtistSplit.SplitArtists | app/src/main/java/code/name/monkey/retromusic/repository/MetadataScanner.kt:75-90 | The split branch runs exactly when the configured list is non-null and non-empty. There, the names are duplicate-free, non-empty and trimmed, and they are exactly the non-empty trimmed pieces of the values. A missing tag counts as no values. Otherwise the raw tag values come through unchanged, null included. |
| ArtistSplit.SplitArtistsKeepsOrder | app/src/main/java/code/name/monkey/retromusic/repository/MetadataScanner.kt:84-87 | With splitting on, the names come in the order of their first appearance among the trimmed pieces of the values. |
| ArtistSplit.SplitArtistsKeepsOut | app/src/main/java/code/name/monkey/retromusic/repository/MetadataScanner.kt:77-90 | A character that no ARTIST value contains appears in no resulting name, whichever branch runs. |
| ArtistSplit.SingleCharPattern | app/src/main/java/code/name/monkey/retromusic/repository/MetadataScanner.kt:78-81 | One non-blank single-character delimiter is its own pattern. |
| ArtistSplit.SplitTrimDedupe | app/src/main/java/code/name/monkey/retromusic/repository/MetadataScanner.kt:84-87 | The value `a; b ; a` under `;` yields `[a, b]`. Pieces are trimmed and the repeated name is kept once, at its first position. |
| Scanner.GenerateAll | app/src/main/java/code/name/monkey/retromusic/repository/MetadataScanner.kt:92 | Minting for a name list gives one id per name, only extends the resolver, and keeps it valid. |
| Scanner.GenerateAllMaps | app/src/main/java/code/name/monkey/retromusic/repository/MetadataScanner.kt:92 | Afterwards each trimmed name maps to the id returned at its position. |
| Scanner.GenerateAllKeys | app/src/main/java/code/name/monkey/retromusic/repository/MetadataScanner.kt:92 | The keys added are exactly the trimmed names. |
| Scanner.GenerateAllFresh | app/src/main/java/code/name/monkey/retromusic/repository/MetadataScanner.kt:48-49 | Every name new to a valid resolver gets an id between the old and the new counter, so it differs from every earlier id. |
| Scanner.GenerateAllInjective | app/src/main/java/code/name/monkey/retromusic/repository/MetadataScanner.kt:43-52 | Distinct names keep distinct ids. |
| Scanner.YearOf | app/src/main/java/code/name/monkey/retromusic/repository/MetadataScanner.kt:102 | The year is the first DATE value when the tag has one, and empty when the key is missing or its list is empty. |
| Scanner.BuildRecord | app/src/main/java/code/name/monkey/retromusic/repository/MetadataScanner.kt:96-112 | The row copies the song's id, title, album, artist, composer, track number, duration, album artist, path, date, album id and artist id; its year is the tag's year; both artist columns are present, and the names column is empty when there was no ARTIST tag. |
| Scanner.WriteRow | app/src/main/java/code/name/monkey/retromusic/repository/MetadataScanner.kt:92-112 | The row written carries the song's id. Minting only extends the resolver and keeps it valid. |
| Scanner.ScanSong | app/src/main/java/code/name/monkey/retromusic/repository/MetadataScanner.kt:62-113 | A song whose id has a row leaves the state unchanged: no tag read, no progress call, no insert. Otherwise exactly one row is appended: the record `BuildRecord` makes from the song, the tags read at its path (none when the file is unreadable or has no tags), the names split from the ARTIST values (null when the key is absent), with one id per name. One progress call with its 1-based position and the list size is made, and its path is read once. Stored rows never change. |
| Scanner.NewIndices | app/src/main/java/code/name/monkey/retromusic/repository/MetadataScanner.kt:62-63 | The indices a scan processes are in range, and their ids were not in the table beforehand. |
| Scanner.NewIndicesOrdered | app/src/main/java/code/name/monkey/retromusic/repository/MetadataScanner.kt:62-63 | The processed indices are increasing, and their songs carry pairwise distinct ids. |
| Scanner.NewIndicesCover | app/src/main/java/code/name/monkey/retromusic/repository/MetadataScanner.kt:62-63 | The processed ids are exactly the list's ids minus those already stored. |
| Scanner.NewIndicesAllKnown | app/src/main/java/code/name/monkey/retromusic/repository/MetadataScanner.kt:63 | When every id of the list is stored, nothing is processed. |
| Scanner.ScanFrom | app/src/main/java/code/name/monkey/retromusic/repository/MetadataScanner.kt:62-116 | The fold only appends rows, keeps table ids unique, and only extends a valid resolver. |
| Scanner.ScanFromRows | app/src/main/java/code/name/monkey/retromusic/repository/MetadataScanner.kt:62-113 | The fold adds one row per processed index. |
| Scanner.ScanFromProgress | app/src/main/java/code/name/monkey/retromusic/repository/MetadataScanner.kt:62-65 | The progress calls are those of the processed songs, in list order, each with its 1-based position and the full list size. |
| Scanner.ScanFromTagReads | app/src/main/java/code/name/monkey/retromusic/repository/MetadataScanner.kt:67-73 | Tags are read once per processed song, in list order, and for no other song. |
| Scanner.ScanFromIds | app/src/main/java/code/name/monkey/retromusic/repository/MetadataScanner.kt:62-113 | After the fold, the stored ids are the old ids plus every song id of the list. |
| Scanner.ScanIfNotExists | app/src/main/java/code/name/monkey/retromusic/repository/MetadataScanner.kt:54-117 | Seeding comes first. Afterwards every song id of the list has a row, no stored row has changed, and no other id was added. The progress calls, tag reads and row count are those of the processed songs, and the row appended for the `j`-th processed song is the record built for that song from its tags. |
| Scanner.ScanIdempotent | app/src/main/java/code/name/monkey/retromusic/repository/MetadataScanner.kt:62-113 | A second scan of the same list writes nothing, reads no tags and reports no progress, whatever the resolver, tags or delimiters. |
| Scanner.ScanAllKnown | app/src/main/java/code/name/monkey/retromusic/repository/MetadataScanner.kt:62-63 | A list whose every id already has a row leaves the table as it is, with no tag read and no progress call. |
| Metadata.FindById | app/src/main/java/code/name/monkey/retromusic/repository/MetadataScanner.kt:63 | A lookup finds a row if and only if some stored row carries the id, and the row found carries that id. |
| Metadata.IdsOfAppend | app/src/main/java/code/name/monkey/retromusic/repository/MetadataScanner.kt:113 | An insert adds exactly its row's id to the stored ids. |
| Metadata.AssociateBy | app/src/main/java/code/name/monkey/retromusic/repository/PlaylistRepository.kt:159 | The snapshot's keys are the stored ids, and each value is a stored row carrying its key. |
| Metadata.AssociateByUnique | app/src/main/java/code/name/monkey/retromusic/repository/PlaylistRepository.kt:159 | When ids are unique, each stored row is found under its own id. |
| Metadata.SplitNames | app/src/main/java/code/name/monkey/retromusic/repository/MetadataScanner.kt:31 | A null names column gives no names. A present one gives at least one, possibly empty, name. |
| Metadata.JoinedRoundTripWith | app/src/main/java/code/name/monkey/retromusic/repository/MetadataScanner.kt:94 | Joining trimmed names with a delimiter character plus blank padding, then splitting on the character and trimming, gives the names back. This holds when no name contains the character. |
| Metadata.JoinedNamesRoundTrip | app/src/main/java/code/name/monkey/retromusic/repository/MetadataScanner.kt:94 | A names column written with `, ` reads back, through the `,` split and trim, as the same comma-free trimmed names. |
| Metadata.JoinedRawNamesRoundTrip | app/src/main/java/code/name/monkey/retromusic/repository/MetadataScanner.kt:92-94 | Untrimmed comma-free names written with `, ` read back, through the `,` split and trim, as the trims of those names, which are the keys they were minted under. |
| Overlay.Merge | app/src/main/java/code/name/monkey/retromusic/repository/PlaylistRepository.kt:188-206 | The id, playlist id and member id always come from the base. |
| Overlay.MergeIsOverlay | app/src/main/java/code/name/monkey/retromusic/repository/PlaylistRepository.kt:188-206 | The merge is the column-by-column override-with-fallback of all fourteen columns, and no other song is. |
| Overlay.MergeIdempotent | app/src/main/java/code/name/monkey/retromusic/repository/PlaylistRepository.kt:188-206 | Overlaying the same row twice is overlaying it once. |
| Overlay.MergeAllNull | app/src/main/java/code/name/monkey/retromusic/repository/PlaylistRepository.kt:188-206 | A row whose cached columns are all null leaves the song unchanged. |
| Overlay.MergeAllCached | app/src/main/java/code/name/monkey/retromusic/repository/PlaylistRepository.kt:188-206 | A fully cached row decides every field except the three identities, whatever the base. |
| Overlay.EmptyCachedYearOverrides | app/src/main/java/code/name/monkey/retromusic/repository/PlaylistRepository.kt:192 | A cached empty year is non-null, so it replaces the base year. |
| PlaylistRepository.BaseSong | app/src/main/java/code/name/monkey/retromusic/repository/PlaylistRepository.kt:164-183 | The base song carries the row's audio id, the given playlist id and the row's member id. Both artist columns are null. |
| PlaylistRepository.GetMetadata | app/src/main/java/code/name/monkey/retromusic/repository/PlaylistRepository.kt:157-162 | The snapshot is loaded from the database only when none is held. An existing snapshot is kept as it is. The lookup answers from the snapshot. |
| PlaylistRepository.Enrich | app/src/main/java/code/name/monkey/retromusic/repository/PlaylistRepository.kt:185-209 | With the flag off, or with no cached row, the result is the base song exactly. Otherwise it is the overlay of the cached row on the base. |
| PlaylistRepository.SongFromRow | app/src/main/java/code/name/monkey/retromusic/repository/PlaylistRepository.kt:164-210 | With the flag off the state is untouched and the base is returned. With the flag on the snapshot is loaded and the row is enriched against it. |
| PlaylistRepository.SongsFromRows | app/src/main/java/code/name/monkey/retromusic/repository/PlaylistRepository.kt:148-152 | The walk gives one song per row. It never replaces a loaded snapshot, and it loads one when the flag is on and there is a row. |
| PlaylistRepository.SongsFromLoadedSnapshot | app/src/main/java/code/name/monkey/retromusic/repository/PlaylistRepository.kt:157-162 | Against a loaded snapshot, song `k` is row `k` enriched against that snapshot, whatever the database now holds. |
| PlaylistRepository.SongsFromFreshInstance | app/src/main/java/code/name/monkey/retromusic/repository/PlaylistRepository.kt:157-162 | A fresh instance reads the database once, at the first row, and enriches every row against that one snapshot. |
| PlaylistRepository.PlaylistSongs | app/src/main/java/code/name/monkey/retromusic/repository/PlaylistRepository.kt:143-155 | Playlist id -1 or a null cursor gives no songs and no state change. Otherwise there is one song per cursor row. |
| PlaylistRepository.SnapshotNeverRefreshed | app/src/main/java/code/name/monkey/retromusic/repository/PlaylistRepository.kt:157-162 | Once the snapshot is loaded, rows added later are never seen: any later database gives the same songs. |
| PlaylistRepository.PlaylistFromRow | app/src/main/java/code/name/monkey/retromusic/repository/PlaylistRepository.kt:131-141 | A row with a name gives its playlist, and a null name gives the empty playlist. |
| PlaylistRepository.PlaylistOf | app/src/main/java/code/name/monkey/retromusic/repository/PlaylistRepository.kt:71-79 | A null or empty cursor gives the empty playlist. Otherwise the first row decides. |
| PlaylistRepository.PlaylistsOf | app/src/main/java/code/name/monkey/retromusic/repository/PlaylistRepository.kt:102-111 | There is one playlist per row, in row order, and none for a null cursor. |
| PlaylistRepository.PlaylistIsFirstOfPlaylists | app/src/main/java/code/name/monkey/retromusic/repository/PlaylistRepository.kt:71-111 | `playlist(cursor)` is the head of `playlists(cursor)` when there is one, and the empty playlist otherwise. |
| PlaylistSongsLoader.GetMetadataDao | app/src/main/java/code/name/monkey/retromusic/repository/PlaylistSongsLoader.kt:43-48 | The DAO is assigned on the first call. Later calls change nothing. |
| PlaylistSongsLoader.GetMetadata | app/src/main/java/code/name/monkey/retromusic/repository/PlaylistSongsLoader.kt:76-81 | The call throws exactly when no snapshot is held and the DAO was never assigned. Otherwise the snapshot is loaded at most once and the lookup answers from it. |
| PlaylistSongsLoader.SongFromRow | app/src/main/java/code/name/monkey/retromusic/repository/PlaylistSongsLoader.kt:84-132 | The DAO is assigned before the lookup, so the call always returns. It returns the base with the flag off and the enriched row with it on. |
| PlaylistSongsLoader.SongsFromRows | app/src/main/java/code/name/monkey/retromusic/repository/PlaylistSongsLoader.kt:61-71 | A walk that returns gives one song per row and never replaces a loaded snapshot. |
| PlaylistSongsLoader.SongsFromRowsNeverThrows | app/src/main/java/code/name/monkey/retromusic/repository/PlaylistSongsLoader.kt:84-108 | Because the DAO is assigned at line 85, before the lookup at line 108, the walk never throws. |
| PlaylistSongsLoader.PlaylistSongList | app/src/main/java/code/name/monkey/retromusic/repository/PlaylistSongsLoader.kt:53-74 | There is one song per cursor row. A null cursor, which includes the security-exception path, gives no songs and no state change. |
| PlaylistSongsLoader.SameAsRepository | app/src/main/java/code/name/monkey/retromusic/repository/PlaylistSongsLoader.kt:83-132 | The duplicated row conversion equals the repository's for the same flag and snapshot state. |
| PlaylistSongsLoader.SameListAsRepository | app/src/main/java/code/name/monkey/retromusic/repository/PlaylistSongsLoader.kt:53-74 | The whole cursor walk equals the repository's walk. |
| PlaylistSongsLoader.SnapshotNeverRefreshed | app/src/main/java/code/name/monkey/retromusic/repository/PlaylistSongsLoader.kt:76-81 | The snapshot is shared by the whole process and never refreshed: once it is loaded, any later database gives the same songs. |
| Lyrics.QueryFor | app/src/main/java/code/name/monkey/retromusic/lyrics/LyricsLoader.kt:8-13 | The service is asked with the album artist when set, otherwise the artist name, plus the title, album and duration. |
| Lyrics.IfNotBlank | app/src/main/java/code/name/monkey/retromusic/lyrics/LyricsLoader.kt:16 | A text is kept if and only if it is present and not blank. |
| Lyrics.Choose | app/src/main/java/code/name/monkey/retromusic/lyrics/LyricsLoader.kt:15-24 | The result is null or non-blank, it is null for a null answer, and it is one of the two returned texts. |
| Lyrics.LoadLyrics | app/src/main/java/code/name/monkey/retromusic/lyrics/LyricsLoader.kt:7-25 | The lyrics returned are null or non-blank. |
| Lyrics.FirstNonBlank | app/src/main/java/code/name/monkey/retromusic/lyrics/LyricsLoader.kt:15-21 | The result is a non-blank candidate, and it is null exactly when every candidate is null or blank. |
| Lyrics.ChooseIsFirstNonBlank | app/src/main/java/code/name/monkey/retromusic/lyrics/LyricsLoader.kt:15-21 | The choice is the first non-blank text in the mode's order: synced then plain, or plain then synced. |
| Lyrics.PreferredFirst | app/src/main/java/code/name/monkey/retromusic/lyrics/LyricsLoader.kt:15-20 | The preferred text wins when it is non-blank. Otherwise the other text is used if it is non-blank. |
| Lyrics.ModesAgree | app/src/main/java/code/name/monkey/retromusic/lyrics/LyricsLoader.kt:15-20 | When at most one text is non-blank, both modes choose alike. |
| Lyrics.ModesDisagree | app/src/main/java/code/name/monkey/retromusic/lyrics/LyricsLoader.kt:15-20 | The modes differ only when each picks its own preferred text. |
| Delimiters.Create | app/src/main/java/code/name/monkey/retromusic/adapter/DelimiterAdapter.kt:11-16 | The adapter shows the given list, and its selection holds the given elements, each once. |
| Delimiters.Remove | app/src/main/java/code/name/monkey/retromusic/adapter/DelimiterAdapter.kt:41 | Removal drops exactly the given element and keeps the selection duplicate-free. |
| Delimiters.Toggle | app/src/main/java/code/name/monkey/retromusic/adapter/DelimiterAdapter.kt:39-47 | A click flips the clicked delimiter's membership and no other. The checkbox shows the new membership, and the list is unchanged. |
| Delimiters.ToggleTwice | app/src/main/java/code/name/monkey/retromusic/adapter/DelimiterAdapter.kt:39-47 | Two clicks restore the selection as a set. Ticking then unticking restores it exactly. |
| Delimiters.ToggleFlipsOneRow | app/src/main/java/code/name/monkey/retromusic/adapter/DelimiterAdapter.kt:34-47 | A bound row's checkbox shows whether its delimiter is selected. A click flips its own row's checkbox and leaves every row showing a different delimiter as it was. |
| Delimiters.Reset | app/src/main/java/code/name/monkey/retromusic/adapter/DelimiterAdapter.kt:27-30 | Nothing is selected afterwards, and the list is unchanged. |
| Delimiters.ResetDisablesSplit | app/src/main/java/code/name/monkey/retromusic/adapter/DelimiterAdapter.kt:27-30 | After a reset the saved list is empty, so the scanner does not split. |
| Delimiters.GetSelected | app/src/main/java/code/name/monkey/retromusic/adapter/DelimiterAdapter.kt:25 | The result holds exactly the selected delimiters, without duplicates. |
| Delimiters.SelectionIsPattern | app/src/main/java/code/name/monkey/retromusic/adapter/DelimiterAdapter.kt:25 | The scanner's pattern built from the selection holds exactly the selected non-blank delimiters, each once. |
| Delimiters.Update | app/src/main/java/code/name/monkey/retromusic/adapter/DelimiterAdapter.kt:19-23 | The shown list is replaced wholesale, and the selection is untouched. |
| ArtistDetails.ViewType | app/src/main/java/code/name/monkey/retromusic/adapter/artist/ArtistDetailsAdapter.kt:72-79 | The code lies between 0 and 5, and it is the song code exactly for song rows. |
| ArtistDetails.ViewTypeSeparatesVariants | app/src/main/java/code/name/monkey/retromusic/adapter/artist/ArtistDetailsAdapter.kt:57-62 | Two items share a code if and only if they are the same variant, so the six variants get six distinct codes. |
| ArtistDetails.ItemViewType | app/src/main/java/code/name/monkey/retromusic/adapter/artist/ArtistDetailsAdapter.kt:72-79 | An out-of-range position throws. Otherwise the result is the item's code. |
| ArtistDetails.ItemId | app/src/main/java/code/name/monkey/retromusic/adapter/artist/ArtistDetailsAdapter.kt:65-70 | An out-of-range position throws. A song row gives its song id, and any other row gives `NO_ID`. |
| ArtistDetails.Identifier | app/src/main/java/code/name/monkey/retromusic/adapter/artist/ArtistDetailsAdapter.kt:86-89 | The result is a song exactly for in-range song rows, and that song is the row's. Everything else gives null. |
| ArtistDetails.IdentifierMatchesViewType | app/src/main/java/code/name/monkey/retromusic/adapter/artist/ArtistDetailsAdapter.kt:65-89 | A position has an identifier exactly when its code is the song code, and then its item id is that song's id. |
| ArtistDetails.SwapDataSet | app/src/main/java/code/name/monkey/retromusic/adapter/artist/ArtistDetailsAdapter.kt:81-84 | After a swap the item count is the new list's length, and every position gives the new list's view type, item id and song identifier, or throws exactly where the new list would. |
| ArtistDetails.ListOfNotNull | app/src/main/java/code/name/monkey/retromusic/adapter/artist/ArtistDetailsAdapter.kt:236 | The list holds one entry per non-null argument, `a`'s value first and `b`'s value last, and nothing else. |
| ArtistDetails.ShownTag | app/src/main/java/code/name/monkey/retromusic/adapter/artist/ArtistDetailsAdapter.kt:236-238 | One nullable tag contributes at most one name, which is non-empty and trimmed. |
| ArtistDetails.TagArtists | app/src/main/java/code/name/monkey/retromusic/adapter/artist/ArtistDetailsAdapter.kt:235-239 | The flag-off line equals an independent case analysis: the album artist's non-empty trim, then the artist name's non-empty trim unless it is the same name. |
| ArtistDetails.TagArtistsShape | app/src/main/java/code/name/monkey/retromusic/adapter/artist/ArtistDetailsAdapter.kt:235-239 | The flag-off line has at most two entries, all distinct, non-empty and trimmed. |
| ArtistDetails.TagArtistsMembers | app/src/main/java/code/name/monkey/retromusic/adapter/artist/ArtistDetailsAdapter.kt:235-239 | A name is on the flag-off line if and only if it is the non-empty trim of the album artist or of the artist name. |
| ArtistDetails.AlbumArtistLeads | app/src/main/java/code/name/monkey/retromusic/adapter/artist/ArtistDetailsAdapter.kt:236-239 | A non-blank album artist comes first on the flag-off line. |
| ArtistDetails.ArtistLine | app/src/main/java/code/name/monkey/retromusic/adapter/artist/ArtistDetailsAdapter.kt:235-242 | With the flag off the line is the tag-based line. With it on, the line is empty exactly when the names column is null. |
| ArtistDetails.ArtistLineRecoversNames | app/src/main/java/code/name/monkey/retromusic/adapter/artist/ArtistDetailsAdapter.kt:240-242 | With the flag on, a names column the scanner joined with `, ` reads back as its comma-free trimmed names. |
| ArtistDetails.ArtistLineWithoutColumn | app/src/main/java/code/name/monkey/retromusic/adapter/artist/ArtistDetailsAdapter.kt:241 | With the flag on, a null names column gives an empty line. |
| ArtistDetails.SongsOf | app/src/main/java/code/name/monkey/retromusic/adapter/artist/ArtistDetailsAdapter.kt:258 | A song is in the queue exactly when some row is a song row for it, and the queue is no longer than the item list. |
| ArtistDetails.SongsOfAppend | app/src/main/java/code/name/monkey/retromusic/adapter/artist/ArtistDetailsAdapter.kt:258 | The song filter distributes over concatenation, so the queue keeps item order. |
| ArtistDetails.QueueOnClick | app/src/main/java/code/name/monkey/retromusic/adapter/artist/ArtistDetailsAdapter.kt:258-260 | The queue is every song row's song, and the index is the first position of the clicked song, or -1 when absent. |
| ArtistDetails.QueueOpensAtClickedSong | app/src/main/java/code/name/monkey/retromusic/adapter/artist/ArtistDetailsAdapter.kt:258-260 | A click on a song row opens the queue at that song, no later than the row's own place among the songs. When the queue has no repeats, it opens exactly at that place. |
| PlayerControls.Wrap32 | app/src/main/java/code/name/monkey/retromusic/fragments/base/AbsPlayerControlsFragment.kt:129 | Kotlin `Int` arithmetic: the result is congruent to the exact value modulo 2^32, and it equals the exact value when that is in range. |
| PlayerControls.SafeTotal | app/src/main/java/code/name/monkey/retromusic/fragments/base/AbsPlayerControlsFragment.kt:96 | The result is `max(total, 0)`. |
| PlayerControls.SafeProgress | app/src/main/java/code/name/monkey/retromusic/fragments/base/AbsPlayerControlsFragment.kt:97 | The result lies between 0 and the safe total. An in-range progress is unchanged, and values outside the range go to the nearer bound. |
| PlayerControls.SafeProgressNearest | app/src/main/java/code/name/monkey/retromusic/fragments/base/AbsPlayerControlsFragment.kt:97 | The clamped progress is the value in range nearest to the raw progress. |
| PlayerControls.ClampIdempotent | app/src/main/java/code/name/monkey/retromusic/fragments/base/AbsPlayerControlsFragment.kt:96-97 | Clamping already-clamped values changes nothing. |
| PlayerControls.UpdateProgressViews | app/src/main/java/code/name/monkey/retromusic/fragments/base/AbsPlayerControlsFragment.kt:95-145 | One progress tick redraws both the seek widget and the time labels from the same progress and total: the widget as `UpdateWidget` states and the labels as `UpdateTimes` states. |
| PlayerControls.UpdateWidget | app/src/main/java/code/name/monkey/retromusic/fragments/base/AbsPlayerControlsFragment.kt:99-121 | The slider's range becomes 0 to the safe total and its value the safe progress. The seek bar gets the same maximum and target, animated unless the user is seeking. An absent widget stays absent. |
| PlayerControls.UpdateWidgetInRange | app/src/main/java/code/name/monkey/retromusic/fragments/base/AbsPlayerControlsFragment.kt:99-121 | The widget's value always lies within its range. |
| PlayerControls.UpdateWidgetExact | app/src/main/java/code/name/monkey/retromusic/fragments/base/AbsPlayerControlsFragment.kt:96-113 | A progress within `[0, total]` is shown exactly. |
| PlayerControls.Remaining | app/src/main/java/code/name/monkey/retromusic/fragments/base/AbsPlayerControlsFragment.kt:129 | The remaining time is the unclamped `total - progress` in `Int` arithmetic. |
| PlayerControls.RemainingCanBeNegative | app/src/main/java/code/name/monkey/retromusic/fragments/base/AbsPlayerControlsFragment.kt:129 | Progress 5000 in a 3000 ms song shows -2000. |
| PlayerControls.RemainingCanWrap | app/src/main/java/code/name/monkey/retromusic/fragments/base/AbsPlayerControlsFragment.kt:134 | Total `Int.MAX_VALUE` with progress -1 wraps to `Int.MIN_VALUE`. |
| PlayerControls.UpdateTimes | app/src/main/java/code/name/monkey/retromusic/fragments/base/AbsPlayerControlsFragment.kt:122-144 | The total mode shows the total, and the remaining mode shows the remaining time; both clear the click listener. The toggle mode shows either one, by the flag, and installs a listener. Other modes leave the total text alone. The current text is always the raw progress. |
| PlayerControls.ClickTotal | app/src/main/java/code/name/monkey/retromusic/fragments/base/AbsPlayerControlsFragment.kt:138-141 | Without a listener a click does nothing. With one, the flag flips, and both the widget and the time labels are redrawn with the progress and total the listener captured, so a slider moved since that tick is set back. |
| PlayerControls.ClickRevertsSlider | app/src/main/java/code/name/monkey/retromusic/fragments/base/AbsPlayerControlsFragment.kt:99-141 | A click on the total label after the slider was dragged away from the captured progress moves the slider back to the captured progress. |
| PlayerControls.FixedModesIgnoreClicks | app/src/main/java/code/name/monkey/retromusic/fragments/base/AbsPlayerControlsFragment.kt:124-131 | After a total-mode or remaining-mode update, clicks change nothing, whatever the seeking flag and mode at the click. |
| PlayerControls.ToggleClickTwice | app/src/main/java/code/name/monkey/retromusic/fragments/base/AbsPlayerControlsFragment.kt:132-141 | In toggle mode one click switches the text between total and remaining. A second click restores the widget, the labels and the flag. |
| PlayerControls.GetRepeat | app/src/main/java/code/name/monkey/retromusic/fragments/base/AbsPlayerControlsFragment.kt:314-315 | The repeat role is the repeat button exactly when the swap preference is off. |
| PlayerControls.GetShuffle | app/src/main/java/code/name/monkey/retromusic/fragments/base/AbsPlayerControlsFragment.kt:317-318 | The shuffle role is the shuffle button exactly when the swap preference is off. |
| PlayerControls.RolesPartitionButtons | app/src/main/java/code/name/monkey/retromusic/fragments/base/AbsPlayerControlsFragment.kt:314-318 | The two roles are the two buttons, and swapping exchanges them. |
| PlayerControls.SetUpButtons | app/src/main/java/code/name/monkey/retromusic/fragments/base/AbsPlayerControlsFragment.kt:290-298 | The shuffle role shows the shuffle icon and the repeat role the repeat icon. Tints are untouched. |
| PlayerControls.ShuffleTint | app/src/main/java/code/name/monkey/retromusic/fragments/base/AbsPlayerControlsFragment.kt:305-311 | Shuffle mode SHUFFLE gives the enabled colour, and every other mode the disabled one. |
| PlayerControls.UpdateShuffleState | app/src/main/java/code/name/monkey/retromusic/fragments/base/AbsPlayerControlsFragment.kt:305-311 | Only the shuffle role's tint changes. |
| PlayerControls.RepeatLook | app/src/main/java/code/name/monkey/retromusic/fragments/base/AbsPlayerControlsFragment.kt:320-344 | NONE shows the repeat icon disabled, ALL the repeat icon enabled, and THIS the repeat-one icon enabled. Any other value has no look. |
| PlayerControls.UpdateRepeatState | app/src/main/java/code/name/monkey/retromusic/fragments/base/AbsPlayerControlsFragment.kt:320-344 | The repeat role takes the mode's look, or is left alone for an unknown mode. The shuffle role is untouched. |
| PlayerControls.UpdatesCommute | app/src/main/java/code/name/monkey/retromusic/fragments/base/AbsPlayerControlsFragment.kt:305-344 | After set-up, the shuffle and repeat updates commute and leave each role with its own icon and tint. |
| PlayerControls.EnabledTints | app/src/main/java/code/name/monkey/retromusic/fragments/base/AbsPlayerControlsFragment.kt:305-344 | With distinct colours, shuffle is tinted enabled if and only if it is on, and repeat if and only if it is not NONE. |
| Pipeline.RecordIdsRoundTrip | app/src/main/java/code/name/monkey/retromusic/repository/MetadataScanner.kt:93 | The ids column the scanner writes, joined with `,`, is read back by the seeding as exactly the minted ids. |
| Pipeline.RecordNamesRoundTrip | app/src/main/java/code/name/monkey/retromusic/repository/MetadataScanner.kt:94 | The names column the scanner writes for comma-free trimmed names is read back by the seeding as exactly those names. |
| Pipeline.RecordWithoutArtistTag | app/src/main/java/code/name/monkey/retromusic/repository/MetadataScanner.kt:94 | A song without an ARTIST tag gets an empty names column, which reads back as one empty name. |
| Pipeline.LearnPairsFresh | app/src/main/java/code/name/monkey/retromusic/repository/MetadataScanner.kt:34-38 | Pairing distinct new names adds exactly those names, each with its own id, and leaves the old mappings alone. |
| Pipeline.LearnedZipFresh | app/src/main/java/code/name/monkey/retromusic/repository/MetadataScanner.kt:34-38 | Any replay of distinct fresh names against their ids adds exactly those names, each under its own id, and keeps the old mappings. |
| Pipeline.SeedingRecoversRow | app/src/main/java/code/name/monkey/retromusic/repository/MetadataScanner.kt:31-38 | Seeding from a row the scanner wrote recovers exactly its name-to-id pairing, so the next run keeps those artist ids. |
| Pipeline.OneRowPairs | app/src/main/java/code/name/monkey/retromusic/repository/MetadataScanner.kt:31-34 | A row written for comma-free names, stored alone, replays exactly those names zipped with their ids. |
| Pipeline.CommaNameSplits | app/src/main/java/code/name/monkey/retromusic/repository/MetadataScanner.kt:94 | A single name `a,b` written to the names column reads back as the two names `a` and `b`. |
| Pipeline.SeedSplitRow | app/src/main/java/code/name/monkey/retromusic/repository/MetadataScanner.kt:43-52 | After seeding such a row, the original name is unmapped, and minting it gives a new id. |
| Pipeline.CommaNameLosesItsId | app/src/main/java/code/name/monkey/retromusic/repository/MetadataScanner.kt:92-94 | A name holding a comma loses its id across runs: the next scanner mints a different id for it. |
| Pipeline.ScannedNamesReachArtistLine | app/src/main/java/code/name/monkey/retromusic/adapter/artist/ArtistDetailsAdapter.kt:240-242 | Once a scanned row is overlaid on a song, the flag-on artist line is the scanner's comma-free name list. |
| Pipeline.ScannerRecordOverlay | app/src/main/java/code/name/monkey/retromusic/repository/PlaylistRepository.kt:188-206 | Overlaying the scanner's row on the song it was written from changes only the year and the two artist columns. |
| Pipeline.WriteRowAgrees | app/src/main/java/code/name/monkey/retromusic/repository/MetadataScanner.kt:92-113 | For comma-free ARTIST values, the resolver after minting holds every pair the written row will replay: each name, trimmed, under the id minted for it. |
| Pipeline.ScanSongAgrees | app/src/main/java/code/name/monkey/retromusic/repository/MetadataScanner.kt:62-113 | One song of the scan keeps every pair of the table held by the resolver. |
| Pipeline.ScanFromAgrees | app/src/main/java/code/name/monkey/retromusic/repository/MetadataScanner.kt:62-116 | The whole fold keeps every pair of the table held by the resolver. |
| Pipeline.ScanKeepsConsistent | app/src/main/java/code/name/monkey/retromusic/repository/MetadataScanner.kt:54-117 | After seeding from a table that gives each name one id and scanning comma-free tags, the resolver holds every pair of the resulting table. |
| Pipeline.SeedConsistent | app/src/main/java/code/name/monkey/retromusic/repository/MetadataScanner.kt:24-41 | Seeding from a table whose pairs a resolver holds gives each name one id, holds every pair, and maps every name to the id that resolver has for it. |
| Pipeline.ScanThenSeed | app/src/main/java/code/name/monkey/retromusic/repository/MetadataScanner.kt:24-117 | Ids are stable across runs: after a scan, a new scanner seeded from the table knows every written name under its written id, the same id the scanning run used. |
| Pipeline.FirstScanThenSeed | app/src/main/java/code/name/monkey/retromusic/repository/MetadataScanner.kt:24-117 | Starting from an empty table, the next run's seeding holds every pair the first run wrote. |
| Kt.Trim | app/src/main/java/code/name/monkey/retromusic/repository/MetadataScanner.kt:85 | A trimmed string has no whitespace at either end, and it is empty if and only if the input is blank. |
| Kt.TrimIsInfix | app/src/main/java/code/name/monkey/retromusic/repository/MetadataScanner.kt:85 | The trim is a slice of its input with only whitespace before and after it. |
| Kt.TrimKeepsOut | app/src/main/java/code/name/monkey/retromusic/repository/MetadataScanner.kt:85 | Trimming adds no character. |
| Kt.TrimIdempotent | app/src/main/java/code/name/monkey/retromusic/repository/MetadataScanner.kt:92 | Trimming twice is trimming once, so re-trimming split names changes nothing. |
| Kt.TrimAll | app/src/main/java/code/name/monkey/retromusic/repository/MetadataScanner.kt:85 | Each element of the result is the trim of the element at the same position. |
| Kt.NotBlank | app/src/main/java/code/name/monkey/retromusic/repository/MetadataScanner.kt:79 | The result keeps exactly the elements that are not blank. |
| Kt.NotBlankAppend | app/src/main/java/code/name/monkey/retromusic/repository/MetadataScanner.kt:79 | The filter distributes over concatenation. |
| Kt.NotBlankKeepsOrder | app/src/main/java/code/name/monkey/retromusic/repository/MetadataScanner.kt:79 | Two elements kept in some order appear in that order in the input. |
| Kt.NonEmpty | app/src/main/java/code/name/monkey/retromusic/repository/MetadataScanner.kt:86 | The result keeps exactly the non-empty elements. |
| Kt.NonEmptyAppend | app/src/main/java/code/name/monkey/retromusic/repository/MetadataScanner.kt:86 | The filter distributes over concatenation. |
| Kt.NonEmptyKeepsOrder | app/src/main/java/code/name/monkey/retromusic/repository/MetadataScanner.kt:86 | Two elements kept in some order appear in that order in the input. |
| Kt.Distinct | app/src/main/java/code/name/monkey/retromusic/repository/MetadataScanner.kt:87 | The result has no duplicates, and it holds the same elements. A duplicate-free input is returned as it is. |
| Kt.DistinctKeepsOrder | app/src/main/java/code/name/monkey/retromusic/repository/MetadataScanner.kt:87 | The result lists the elements in the order of their first appearance in the input. |
| Kt.DistinctSameElements | app/src/main/java/code/name/monkey/retromusic/repository/MetadataScanner.kt:87 | For strings, membership in the result is membership in the input. |
| Kt.IndexOf | app/src/main/java/code/name/monkey/retromusic/adapter/artist/ArtistDetailsAdapter.kt:259 | The result is the first position holding the element, or -1 exactly when the element is absent. |
| Kt.Split | app/src/main/java/code/name/monkey/retromusic/repository/MetadataScanner.kt:31 | A split gives at least one piece, and no delimiter occurs as an infix of any piece, a multi-character delimiter included. |
| Kt.SplitRebuilds | app/src/main/java/code/name/monkey/retromusic/repository/MetadataScanner.kt:31 | The pieces, with one delimiter between each two, spell the input again. |
| Kt.SplitLongDelimiter | app/src/main/java/code/name/monkey/retromusic/repository/MetadataScanner.kt:31 | A two-character delimiter cuts as a whole: `"a&&b"` split on `&&` gives `a` and `b`. |
| Kt.SplitFirstCut | app/src/main/java/code/name/monkey/retromusic/repository/MetadataScanner.kt:31 | When a delimiter occurs at position i, no delimiter occurs before i, and no delimiter listed earlier occurs at i, the first piece is the text before i and the rest is the split of the text after that delimiter. The leftmost match wins, and among matches at one position the first listed wins. |
| Kt.SplitNoCut | app/src/main/java/code/name/monkey/retromusic/repository/MetadataScanner.kt:31 | A string in which no delimiter occurs splits into itself alone. |
| Kt.SplitPrefersLeftmost | app/src/main/java/code/name/monkey/retromusic/repository/MetadataScanner.kt:31 | `"ab"` split on `ab` and `b` gives two empty pieces: the match starting first is the one cut. |
| Kt.SplitKeepsOut | app/src/main/java/code/name/monkey/retromusic/repository/MetadataScanner.kt:31 | A character absent from the input appears in no piece. |
| Kt.JoinSplit | app/src/main/java/code/name/monkey/retromusic/repository/MetadataScanner.kt:31 | Joining the pieces of a split on one delimiter with that delimiter gives the input back. |
| Kt.SplitJoin | app/src/main/java/code/name/monkey/retromusic/repository/MetadataScanner.kt:31 | Splitting a join on a character that no element contains gives the elements back. |
| Kt.JoinChars | app/src/main/java/code/name/monkey/retromusic/repository/MetadataScanner.kt:93-94 | Every character of a join comes from an element or from the separator. |
| Kt.Zip | app/src/main/java/code/name/monkey/retromusic/repository/MetadataScanner.kt:34 | The pairing is as long as the shorter list, and pair `k` is the two elements at position `k`. |
| Kt.LongToString | app/src/main/java/code/name/monkey/retromusic/repository/MetadataScanner.kt:93 | A printed Long is non-empty and made of digits and a minus sign only. |
| Kt.LongsToStrings | app/src/main/java/code/name/monkey/retromusic/repository/MetadataScanner.kt:93 | Each element of the result is the printed form of the element at the same position. |
| Kt.ToLongOrNull | app/src/main/java/code/name/monkey/retromusic/repository/MetadataScanner.kt:32 | A string parses if and only if it is a non-empty run of ASCII digits with an optional sign. A leading minus gives a non-positive value, and anything else a non-negative one. |
| Kt.ParseLongs | app/src/main/java/code/name/monkey/retromusic/repository/MetadataScanner.kt:32 | Unparsable tokens are dropped, so the result is no longer than the token list. |
| Kt.ParseLongsAppend | app/src/main/java/code/name/monkey/retromusic/repository/MetadataScanner.kt:32 | Parsing distributes over concatenation, so the ids keep token order. |
| Kt.ParseLongToString | app/src/main/java/code/name/monkey/retromusic/repository/MetadataScanner.kt:32 | Parsing a printed Long gives the Long back. |
| Kt.ParseLongsToStrings | app/src/main/java/code/name/monkey/retromusic/repository/MetadataScanner.kt:32 | Parsing the printed forms of a list of Longs gives the list back. |

## Left out

- Tag extraction, file access and platform queries are inputs. TagLib, `openFileDescriptor`, `UriUtil`, the Room DAO and the ContentResolver cursors become maps and sequences. A file descriptor that cannot be opened gives the empty tag map, as a null result does in the code. An exception thrown while opening is not caught at MS:71-73 and would end the whole scan; that path is not modelled.
- Coroutines, `withContext`, `runBlocking` and the IO dispatcher are not modelled. The model runs everything in sequence.
- `appendSongMetadata` (MS:119-141) is not modelled. It is dead code, since its call is commented out at line 115, and it performs JSON file I/O.
- ArtistDetails.QueueOnClick: models the click outside quick-select mode only. In quick-select mode a click, like a long click, toggles the row's selection instead (ArtistDetailsAdapter.kt:254-256 and 263-270). The selection state belongs to the multi-select base adapter, which is not part of this model.
- The order in which `getAllMetadata()` returns rows is not modelled: its query is not part of this model, and the table is read in insertion order. The row id is an INTEGER PRIMARY KEY (RoomMigrations.kt:91), so a plain SELECT may list the rows by id instead. The order matters only when one name is stored with two different ids, because seeding keeps a name's first pairing. When every name is stored with one id, `ArtistIds.SeedIgnoresRowOrder` shows the seeded resolver is the same under any order.
- The regular-expression engine is not modelled. The escaped alternation is a literal split in which, at each position, the first listed delimiter that matches wins. An all-blank delimiter list compiles to the empty pattern. That case is modelled as Kotlin's `Regex.split` does (`ArtistSplit.CharPieces`) rather than excluded.
- Long ids are unbounded integers, so `id + 1` (MS:37) and `nextArtistId++` (MS:48) do not overflow. `toLongOrNull` is modelled for ASCII digits with an optional sign. It has no 64-bit range check, and it does not accept non-ASCII Unicode digits.
- Strings are sequences of characters, with no UTF-16 surrogate pairs. `trim()` and `isBlank()` use a fixed table of whitespace code points: the ASCII controls 0x09-0x0D and 0x1C-0x1F, the space, and the Unicode space separators. Java's exact `Character.isWhitespace` rules for other code points are not modelled.
- `PlayerControls.UpdateTimes` holds the duration texts as the millisecond values they show. `MusicUtil.getReadableDurationString` is not part of this model.
- PlayerControls.UpdateWidget: slider values are exact integers. The source passes `toFloat()` of the progress and total (AbsPlayerControlsFragment.kt:103-106), which rounds values above 2^24 ms (about 4.7 hours); that rounding is not modelled.
- `PlayerControls.UpdateWidget` records the seek bar's animation by its target value and an "animated" flag. The animator itself is not modelled. Views that are null in the source (`songTotalTime?`, `seekBar`, `progressSlider`) are modelled as present, or as `NoWidget`.
- The `MusicService` shuffle and repeat constants are modelled as datatypes. An unknown repeat value is `RepeatOther`, which leaves the button alone as the source's `when` does.
- The float squiggly level, the touch listeners, Glide image loading, animations and navigation are not modelled.
- `ArtistDetails.ArtistText` joins the line with `, ` and has no contract of its own. Its content is stated through `ArtistLine`.
- PlainPlayerFragment's artist line is the same expression as ArtistDetailsAdapter.kt:235-239, so `ArtistDetails.TagArtists` covers it.
- `PlaylistRepository.EmptyPlaylist` stands for `Playlist.empty`, with id -1 and an empty name. The `Playlist` class is not part of this model.
- `PlaylistRepository.BaseSong` reads every column as present. A cursor row's null title, path, album or artist is not modelled.
- Scanner.WriteRow: its own contract states only the row's id and the resolver's growth. The columns of the written row are stated by `Scanner.BuildRecord`, and the two artist columns through `Pipeline.RecordIdsRoundTrip` and `Pipeline.RecordNamesRoundTrip`.
- `Delimiters.ToggleTwice` promises a set-equal selection after untick-then-tick, not an identical sequence. The source's `LinkedHashSet` re-inserts the delimiter at the end.
