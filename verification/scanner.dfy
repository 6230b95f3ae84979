/**
 * `MetadataScanner.scanIfNotExists`: seed the artist resolver from the
 * stored rows, then walk the song list once and write a `song_metadata` row
 * for every song id the table does not hold yet.
 *
 * The walk is a fold that threads the table, the resolver, and the two
 * effects a caller can observe: the `onProgress` calls and the paths whose
 * tags were read. Tag extraction is an input: `files` maps a path to the
 * property map TagLib would return for it.
 */
module Scanner {
  import opened Kt
  import opened Metadata
  import opened ArtistIds
  import opened ArtistSplit

  /** A file's tag properties (`propertyMap`): key to values. */
  type TagMap = map<string, seq<string>>

  /** One `onProgress(songTitle, index, total)` call. */
  datatype Progress = Progress(title: string, index: int, total: int)

  /** Everything a scan changes or emits. */
  datatype ScanState = ScanState(
    table: Table,
    resolver: Resolver,
    progress: seq<Progress>,
    tagReads: seq<string>)

  const DateKey := "DATE"
  const ArtistKey := "ARTIST"

  /** The tags of a path; an unreadable file or absent metadata gives the empty map. */
  function TagsAt(files: map<string, TagMap>, path: string): TagMap {
    if path in files then files[path] else map[]
  }

  /** `tag["DATE"]?.firstOrNull() ?: ""`. */
  function YearOf(tag: TagMap): (y: string)
    ensures DateKey in tag && |tag[DateKey]| > 0 ==> y == tag[DateKey][0]
    ensures (DateKey !in tag || |tag[DateKey]| == 0) ==> y == []
  {
    if DateKey in tag && |tag[DateKey]| > 0 then tag[DateKey][0] else []
  }

  /** `tag["ARTIST"]`: null when the key is absent. */
  function ArtistTag(tag: TagMap): Option<seq<string>> {
    if ArtistKey in tag then Some(tag[ArtistKey]) else None
  }

  /** The names a list of raw names is keyed under: `trim()` of each. */
  function KeysOf(names: seq<string>): set<string> {
    set k | 0 <= k < |names| :: Trim(names[k])
  }

  /** `splitNames.map { generateArtistId(it.trim()) }`: one id per name, in order. */
  function GenerateAll(r: Resolver, names: seq<string>): (res: (Resolver, seq<int>))
    ensures |res.1| == |names|
    ensures Extends(r, res.0)
    ensures Valid(r) ==> Valid(res.0)
    decreases |names|
  {
    if |names| == 0 then (r, [])
    else
      var (r1, id) := Generate(r, Trim(names[0]));
      var (r2, ids) := GenerateAll(r1, names[1..]);
      (r2, [id] + ids)
  }

  /** After minting, every name is mapped to the id returned at its position. */
  lemma {:induction false} GenerateAllMaps(r: Resolver, names: seq<string>)
    ensures var (r', ids) := GenerateAll(r, names);
            forall k :: 0 <= k < |names| ==> Trim(names[k]) in r'.ids && r'.ids[Trim(names[k])] == ids[k]
    decreases |names|
  {
    if |names| > 0 {
      var (r1, id) := Generate(r, Trim(names[0]));
      var (r2, ids) := GenerateAll(r1, names[1..]);
      GenerateAllMaps(r1, names[1..]);
      assert GenerateAll(r, names) == (r2, [id] + ids);
      forall k | 0 <= k < |names|
        ensures Trim(names[k]) in r2.ids && r2.ids[Trim(names[k])] == ([id] + ids)[k]
      {
        if k > 0 {
          assert names[k] == names[1..][k - 1];
        }
      }
    }
  }

  lemma KeysOfCons(names: seq<string>)
    requires |names| > 0
    ensures KeysOf(names) == {Trim(names[0])} + KeysOf(names[1..])
  {
    forall x | x in KeysOf(names) ensures x in {Trim(names[0])} + KeysOf(names[1..]) {
      var k :| 0 <= k < |names| && Trim(names[k]) == x;
      if k > 0 { assert names[1..][k - 1] == names[k]; }
    }
    forall x | x in KeysOf(names[1..]) ensures x in KeysOf(names) {
      var k :| 0 <= k < |names| - 1 && Trim(names[1..][k]) == x;
      assert names[k + 1] == names[1..][k];
    }
  }

  /** Minting for a list adds exactly the trimmed names as keys. */
  lemma {:induction false} GenerateAllKeys(r: Resolver, names: seq<string>)
    ensures GenerateAll(r, names).0.ids.Keys == r.ids.Keys + KeysOf(names)
    decreases |names|
  {
    if |names| > 0 {
      var r1 := Generate(r, Trim(names[0])).0;
      var r2 := GenerateAll(r1, names[1..]).0;
      assert GenerateAll(r, names).0 == r2;
      KeysOfCons(names);
      GenerateAllKeys(r1, names[1..]);
    } else {
      assert KeysOf(names) == {};
    }
  }

  /**
   * Each name new to a valid resolver gets an id at or above the old
   * counter, so it differs from every id handed out before.
   */
  lemma {:induction false} GenerateAllFresh(r: Resolver, names: seq<string>)
    requires Valid(r)
    ensures var r' := GenerateAll(r, names).0;
            forall n :: n in r'.ids && n !in r.ids ==> r.next <= r'.ids[n] < r'.next
    decreases |names|
  {
    if |names| > 0 {
      var r1 := Generate(r, Trim(names[0])).0;
      var r2 := GenerateAll(r1, names[1..]).0;
      assert GenerateAll(r, names).0 == r2;
      GenerateAllFresh(r1, names[1..]);
    }
  }

  /** Distinct names keep distinct ids. */
  lemma {:induction false} GenerateAllInjective(r: Resolver, names: seq<string>)
    requires Valid(r) && Injective(r.ids)
    ensures Injective(GenerateAll(r, names).0.ids)
    decreases |names|
  {
    if |names| > 0 {
      var r1 := Generate(r, Trim(names[0])).0;
      var r2 := GenerateAll(r1, names[1..]).0;
      assert GenerateAll(r, names).0 == r2;
      GenerateAllInjective(r1, names[1..]);
    }
  }

  /** The `song_metadata` row written for `song`, with the names and ids its ARTIST tag gave. */
  function BuildRecord(song: Song, tag: TagMap, names: Option<seq<string>>, ids: seq<int>): (r: SongMetadata)
    ensures r.id == song.id && r.title == Some(song.title) && r.trackNumber == Some(song.trackNumber)
    ensures r.duration == Some(song.duration) && r.data == Some(song.data) && r.dateModified == Some(song.dateModified)
    ensures r.artistId == Some(song.artistId) && r.albumId == Some(song.albumId)
    ensures r.albumName == song.albumName && r.artistName == song.artistName
    ensures r.composer == song.composer && r.albumArtist == song.albumArtist
    ensures r.year == Some(YearOf(tag))
    ensures r.artistIds.Some? && r.artistNames.Some?
    ensures names.None? ==> r.artistNames == Some([])
  {
    SongMetadata(
      id := song.id,
      title := Some(song.title),
      trackNumber := Some(song.trackNumber),
      year := Some(YearOf(tag)),
      duration := Some(song.duration),
      data := Some(song.data),
      dateModified := Some(song.dateModified),
      artistId := Some(song.artistId),
      albumId := Some(song.albumId),
      albumName := song.albumName,
      artistName := song.artistName,
      composer := song.composer,
      albumArtist := song.albumArtist,
      artistIds := Some(Join(LongsToStrings(ids), IdSeparator)),
      artistNames := Some(if names.Some? then Join(names.value, NameSeparator) else []))
  }

  /**
   * The row written for a song that has none yet, with its tags read from
   * `tag`, and the resolver after minting ids for its artists.
   */
  function WriteRow(r: Resolver, song: Song, tag: TagMap, configured: Option<seq<string>>): (res: (SongMetadata, Resolver))
    ensures res.0.id == song.id
    ensures Extends(r, res.1)
    ensures Valid(r) ==> Valid(res.1)
  {
    var names := SplitArtists(ArtistTag(tag), configured);
    var (r', ids) := GenerateAll(r, names.OrElse([]));
    (BuildRecord(song, tag, names, ids), r')
  }

  /**
   * `row` is the record the scanner builds for `song`: its columns come from
   * the song and from the tags at its path, its names column from the split
   * ARTIST values, and its ids column holds one minted id per name.
   */
  ghost predicate RowFor(row: SongMetadata, song: Song, files: map<string, TagMap>, configured: Option<seq<string>>) {
    var tag := TagsAt(files, song.data);
    var names := SplitArtists(ArtistTag(tag), configured);
    exists ids :: |ids| == |names.OrElse([])| && row == BuildRecord(song, tag, names, ids)
  }

  /** The row `WriteRow` builds is the record for its song. */
  lemma WriteRowFor(r: Resolver, song: Song, files: map<string, TagMap>, configured: Option<seq<string>>)
    ensures RowFor(WriteRow(r, song, TagsAt(files, song.data), configured).0, song, files, configured)
  {
    var tag := TagsAt(files, song.data);
    var names := SplitArtists(ArtistTag(tag), configured);
    var (r', ids) := GenerateAll(r, names.OrElse([]));
    assert WriteRow(r, song, tag, configured).0 == BuildRecord(song, tag, names, ids);
  }

  /** One iteration of `forEachIndexed` over song `idx` of `songs`. */
  function ScanSong(st: ScanState, files: map<string, TagMap>, configured: Option<seq<string>>,
                    songs: seq<Song>, idx: nat): (r: ScanState)
    requires idx < |songs|
    ensures songs[idx].id in IdsOf(st.table) ==> r == st
    ensures songs[idx].id !in IdsOf(st.table) ==>
              && |r.table| == |st.table| + 1 && r.table[..|st.table|] == st.table
              && r.table[|st.table|].id == songs[idx].id
              && r.progress == st.progress + [Progress(songs[idx].title, idx + 1, |songs|)]
              && r.tagReads == st.tagReads + [songs[idx].data]
              && RowFor(r.table[|st.table|], songs[idx], files, configured)
    ensures IdsOf(r.table) == IdsOf(st.table) + {songs[idx].id}
    ensures UniqueIds(st.table) ==> UniqueIds(r.table)
    ensures Extends(st.resolver, r.resolver)
    ensures Valid(st.resolver) ==> Valid(r.resolver)
  {
    var song := songs[idx];
    if FindById(st.table, song.id).Some? then st
    else
      var (row, r') := WriteRow(st.resolver, song, TagsAt(files, song.data), configured);
      WriteRowFor(st.resolver, song, files, configured);
      IdsOfAppend(st.table, row);
      assert (st.table + [row])[..|st.table|] == st.table;
      ScanState(st.table + [row], r',
                st.progress + [Progress(song.title, idx + 1, |songs|)],
                st.tagReads + [song.data])
  }

  /**
   * The indices from `from` on that a scan processes when the table holds the
   * ids `known`: those whose id is neither known nor carried by an earlier
   * processed song of the list.
   */
  function NewIndices(known: set<int>, songs: seq<Song>, from: nat): (ks: seq<nat>)
    requires from <= |songs|
    ensures forall i :: 0 <= i < |ks| ==> from <= ks[i] < |songs| && songs[ks[i]].id !in known
    decreases |songs| - from
  {
    if from == |songs| then []
    else if songs[from].id in known then NewIndices(known, songs, from + 1)
    else [from] + NewIndices(known + {songs[from].id}, songs, from + 1)
  }

  /** The processed songs come in list order and carry pairwise distinct ids. */
  lemma {:induction false} NewIndicesOrdered(known: set<int>, songs: seq<Song>, from: nat)
    requires from <= |songs|
    ensures var ks := NewIndices(known, songs, from);
            forall i, j :: 0 <= i < j < |ks| ==> ks[i] < ks[j] && songs[ks[i]].id != songs[ks[j]].id
    decreases |songs| - from
  {
    if from < |songs| {
      var id := songs[from].id;
      NewIndicesStep(known, songs, from);
      if id in known {
        NewIndicesOrdered(known, songs, from + 1);
      } else {
        NewIndicesOrdered(known + {id}, songs, from + 1);
        var ks := NewIndices(known + {id}, songs, from + 1);
        var all := [from] + ks;
        forall i, j | 0 <= i < j < |all| ensures all[i] < all[j] && songs[all[i]].id != songs[all[j]].id {
          assert all[j] == ks[j - 1];
          if i > 0 {
            assert all[i] == ks[i - 1];
          } else {
            assert songs[ks[j - 1]].id !in known + {id};
          }
        }
      }
    }
  }

  /** The ids of the songs from position `from` on. */
  function SongIds(songs: seq<Song>, from: nat): set<int> {
    set k | from <= k < |songs| :: songs[k].id
  }

  /** The progress calls for the processed indices `ks`: 1-based position, full list size. */
  function ProgressOf(songs: seq<Song>, ks: seq<nat>): (r: seq<Progress>)
    requires forall i :: 0 <= i < |ks| ==> ks[i] < |songs|
    ensures |r| == |ks|
  {
    if |ks| == 0 then [] else [Progress(songs[ks[0]].title, ks[0] + 1, |songs|)] + ProgressOf(songs, ks[1..])
  }

  /** The paths whose tags are read for the processed indices `ks`. */
  function PathsOf(songs: seq<Song>, ks: seq<nat>): (r: seq<string>)
    requires forall i :: 0 <= i < |ks| ==> ks[i] < |songs|
    ensures |r| == |ks|
  {
    if |ks| == 0 then [] else [songs[ks[0]].data] + PathsOf(songs, ks[1..])
  }

  lemma SongIdsStep(songs: seq<Song>, from: nat)
    requires from < |songs|
    ensures SongIds(songs, from) == {songs[from].id} + SongIds(songs, from + 1)
  {
  }

  /** What processing song `from` does to the list of processed indices. */
  lemma NewIndicesStep(known: set<int>, songs: seq<Song>, from: nat)
    requires from < |songs|
    ensures songs[from].id in known ==> NewIndices(known, songs, from) == NewIndices(known, songs, from + 1)
    ensures songs[from].id !in known ==>
              NewIndices(known, songs, from) == [from] + NewIndices(known + {songs[from].id}, songs, from + 1)
  {
  }

  lemma ProgressOfCons(songs: seq<Song>, k: nat, ks: seq<nat>)
    requires k < |songs| && forall i :: 0 <= i < |ks| ==> ks[i] < |songs|
    ensures ProgressOf(songs, [k] + ks) == [Progress(songs[k].title, k + 1, |songs|)] + ProgressOf(songs, ks)
  {
    assert ([k] + ks)[1..] == ks;
  }

  lemma PathsOfCons(songs: seq<Song>, k: nat, ks: seq<nat>)
    requires k < |songs| && forall i :: 0 <= i < |ks| ==> ks[i] < |songs|
    ensures PathsOf(songs, [k] + ks) == [songs[k].data] + PathsOf(songs, ks)
  {
    assert ([k] + ks)[1..] == ks;
  }

  /** The fold from song `from` to the end of the list. */
  function ScanFrom(st: ScanState, files: map<string, TagMap>, configured: Option<seq<string>>,
                    songs: seq<Song>, from: nat): (r: ScanState)
    requires from <= |songs|
    ensures |r.table| >= |st.table| && r.table[..|st.table|] == st.table
    ensures UniqueIds(st.table) ==> UniqueIds(r.table)
    ensures Extends(st.resolver, r.resolver)
    ensures Valid(st.resolver) ==> Valid(r.resolver)
    decreases |songs| - from
  {
    if from == |songs| then
      assert st.table[..|st.table|] == st.table;
      st
    else
      var st1 := ScanSong(st, files, configured, songs, from);
      var r := ScanFrom(st1, files, configured, songs, from + 1);
      ExtendsTransitive(st.resolver, st1.resolver, r.resolver);
      assert r.table[..|st1.table|][..|st.table|] == r.table[..|st.table|];
      r
  }

  /** One step of the fold: process song `from`, then continue. */
  lemma ScanFromStep(st: ScanState, files: map<string, TagMap>, configured: Option<seq<string>>,
                     songs: seq<Song>, from: nat)
    requires from < |songs|
    ensures ScanFrom(st, files, configured, songs, from)
              == ScanFrom(ScanSong(st, files, configured, songs, from), files, configured, songs, from + 1)
  {
  }

  /** The set of ids the table holds after processing song `from`. */
  lemma ScanSongIds(st: ScanState, files: map<string, TagMap>, configured: Option<seq<string>>,
                    songs: seq<Song>, from: nat)
    requires from < |songs|
    ensures var st1 := ScanSong(st, files, configured, songs, from);
            var id := songs[from].id;
            && (id in IdsOf(st.table) ==> st1 == st)
            && (id !in IdsOf(st.table) ==> IdsOf(st1.table) == IdsOf(st.table) + {id})
  {
  }

  /** The scan adds one row per song `NewIndices` picks, the table holding the ids `known`. */
  lemma {:induction false} ScanFromRows(st: ScanState, files: map<string, TagMap>,
      configured: Option<seq<string>>, songs: seq<Song>, from: nat, known: set<int>)
    requires from <= |songs|
    requires known == IdsOf(st.table)
    ensures |ScanFrom(st, files, configured, songs, from).table| == |st.table| + |NewIndices(known, songs, from)|
    decreases |songs| - from
  {
    if from < |songs| {
      var st1 := ScanSong(st, files, configured, songs, from);
      var id := songs[from].id;
      ScanFromStep(st, files, configured, songs, from);
      NewIndicesStep(known, songs, from);
      ScanSongIds(st, files, configured, songs, from);
      if id in known {
        ScanFromRows(st1, files, configured, songs, from + 1, known);
      } else {
        ScanFromRows(st1, files, configured, songs, from + 1, known + {id});
      }
    }
  }

  /** `rows` past position `base` are one per index of `ks`, the `j`-th having `P` with `ks[j]`. */
  ghost predicate RowsHave<R>(P: (R, nat) -> bool, rows: seq<R>, base: nat, ks: seq<nat>) {
    base + |ks| == |rows| && forall j :: 0 <= j < |ks| ==> P(rows[base + j], ks[j])
  }

  /**
   * If every processed song appends a row with property `P`, the row added
   * for the `j`-th processed song has `P`.
   */
  lemma {:induction false} ScanFromRowsHave(P: (SongMetadata, nat) -> bool, st: ScanState, files: map<string, TagMap>,
      configured: Option<seq<string>>, songs: seq<Song>, from: nat, known: set<int>)
    requires from <= |songs|
    requires known == IdsOf(st.table)
    requires forall s: ScanState, i :: from <= i < |songs| && songs[i].id !in IdsOf(s.table) ==>
               P(ScanSong(s, files, configured, songs, i).table[|s.table|], i)
    ensures RowsHave(P, ScanFrom(st, files, configured, songs, from).table, |st.table|, NewIndices(known, songs, from))
    decreases |songs| - from
  {
    if from < |songs| {
      var st1 := ScanSong(st, files, configured, songs, from);
      var id := songs[from].id;
      ScanFromStep(st, files, configured, songs, from);
      NewIndicesStep(known, songs, from);
      ScanSongIds(st, files, configured, songs, from);
      if id in known {
        ScanFromRowsHave(P, st1, files, configured, songs, from + 1, known);
      } else {
        ScanFromRowsHave(P, st1, files, configured, songs, from + 1, known + {id});
        ShiftRows(P, ScanFrom(st1, files, configured, songs, from + 1).table, st.table, st1.table,
                  from, NewIndices(known + {id}, songs, from + 1));
      }
    }
  }

  /** Rows past a prefix of `rows`, one more in front: the index bookkeeping of one processed song. */
  lemma ShiftRows<R>(P: (R, nat) -> bool, rows: seq<R>, t: seq<R>, t1: seq<R>, k: nat, ks: seq<nat>)
    requires RowsHave(P, rows, |t1|, ks) && |t1| == |t| + 1 && rows[..|t1|] == t1
    requires P(t1[|t|], k)
    ensures RowsHave(P, rows, |t|, [k] + ks)
  {
    assert rows[|t|] == t1[|t|];
    forall j | 0 <= j < |[k] + ks| ensures P(rows[|t| + j], ([k] + ks)[j]) {
      if j > 0 {
        assert ([k] + ks)[j] == ks[j - 1] && |t| + j == |t1| + (j - 1);
      }
    }
  }

  /** Every song the scan processes appends the record for that song. */
  lemma ScanSongsRowFor(files: map<string, TagMap>, configured: Option<seq<string>>, songs: seq<Song>)
    ensures forall s: ScanState, i :: 0 <= i < |songs| && songs[i].id !in IdsOf(s.table) ==>
              i < |songs| && RowFor(ScanSong(s, files, configured, songs, i).table[|s.table|], songs[i], files, configured)
  {
    forall s: ScanState, i | 0 <= i < |songs| && songs[i].id !in IdsOf(s.table)
      ensures RowFor(ScanSong(s, files, configured, songs, i).table[|s.table|], songs[i], files, configured)
    {
    }
  }

  /**
   * Scanning from the first song on `table`: the row added for the `j`-th
   * processed song is the record for that song.
   */
  lemma ScanFromRowsFor(table: Table, seeded: Resolver, files: map<string, TagMap>,
      configured: Option<seq<string>>, songs: seq<Song>)
    ensures var r := ScanFrom(ScanState(table, seeded, [], []), files, configured, songs, 0);
            var ks := NewIndices(IdsOf(table), songs, 0);
            && |r.table| == |table| + |ks|
            && forall j :: 0 <= j < |ks| ==> RowFor(r.table[|table| + j], songs[ks[j]], files, configured)
  {
    var st := ScanState(table, seeded, [], []);
    var P := (row: SongMetadata, i: nat) => i < |songs| && RowFor(row, songs[i], files, configured);
    ScanSongsRowFor(files, configured, songs);
    ScanFromRowsHave(P, st, files, configured, songs, 0, IdsOf(table));
    assert RowsHave(P, ScanFrom(st, files, configured, songs, 0).table, |table|, NewIndices(IdsOf(table), songs, 0));
  }

  /** Each processed song reports progress once, with its 1-based position and the list size. */
  lemma {:induction false} ScanFromProgress(st: ScanState, files: map<string, TagMap>,
      configured: Option<seq<string>>, songs: seq<Song>, from: nat, known: set<int>)
    requires from <= |songs|
    requires known == IdsOf(st.table)
    ensures ScanFrom(st, files, configured, songs, from).progress
              == st.progress + ProgressOf(songs, NewIndices(known, songs, from))
    decreases |songs| - from
  {
    if from < |songs| {
      var st1 := ScanSong(st, files, configured, songs, from);
      var id := songs[from].id;
      ScanFromStep(st, files, configured, songs, from);
      NewIndicesStep(known, songs, from);
      ScanSongIds(st, files, configured, songs, from);
      if id in known {
        ScanFromProgress(st1, files, configured, songs, from + 1, known);
      } else {
        ScanFromProgress(st1, files, configured, songs, from + 1, known + {id});
        var ks1 := NewIndices(known + {id}, songs, from + 1);
        ProgressOfCons(songs, from, ks1);
        AppendStep(st.progress, st1.progress, ScanFrom(st1, files, configured, songs, from + 1).progress,
                   Progress(songs[from].title, from + 1, |songs|), ProgressOf(songs, ks1), ProgressOf(songs, [from] + ks1));
      }
    } else {
      assert st.progress + [] == st.progress;
    }
  }

  /** Each processed song has its tags read once, in list order. */
  lemma {:induction false} ScanFromTagReads(st: ScanState, files: map<string, TagMap>,
      configured: Option<seq<string>>, songs: seq<Song>, from: nat, known: set<int>)
    requires from <= |songs|
    requires known == IdsOf(st.table)
    ensures ScanFrom(st, files, configured, songs, from).tagReads
              == st.tagReads + PathsOf(songs, NewIndices(known, songs, from))
    decreases |songs| - from
  {
    if from < |songs| {
      var st1 := ScanSong(st, files, configured, songs, from);
      var id := songs[from].id;
      ScanFromStep(st, files, configured, songs, from);
      NewIndicesStep(known, songs, from);
      ScanSongIds(st, files, configured, songs, from);
      if id in known {
        ScanFromTagReads(st1, files, configured, songs, from + 1, known);
      } else {
        ScanFromTagReads(st1, files, configured, songs, from + 1, known + {id});
        var ks1 := NewIndices(known + {id}, songs, from + 1);
        PathsOfCons(songs, from, ks1);
        AppendStep(st.tagReads, st1.tagReads, ScanFrom(st1, files, configured, songs, from + 1).tagReads,
                   songs[from].data, PathsOf(songs, ks1), PathsOf(songs, [from] + ks1));
      }
    } else {
      assert st.tagReads + [] == st.tagReads;
    }
  }

  /** Appending one element in front of a list appended after a prefix. */
  lemma AppendStep<T>(p: seq<T>, p1: seq<T>, rp: seq<T>, x: T, rest: seq<T>, whole: seq<T>)
    requires p1 == p + [x] && rp == p1 + rest && whole == [x] + rest
    ensures rp == p + whole
  {
  }

  lemma UnionStep(a: set<int>, b: set<int>, c: set<int>, x: int, s: set<int>, s1: set<int>)
    requires b == a + {x} && c == b + s1 && s == {x} + s1
    ensures c == a + s
  {
  }

  /** After the fold every song id from `from` on has a row, and no other id was added. */
  lemma {:induction false} ScanFromIds(st: ScanState, files: map<string, TagMap>,
                                       configured: Option<seq<string>>, songs: seq<Song>, from: nat)
    requires from <= |songs|
    ensures IdsOf(ScanFrom(st, files, configured, songs, from).table) == IdsOf(st.table) + SongIds(songs, from)
    decreases |songs| - from
  {
    if from < |songs| {
      var st1 := ScanSong(st, files, configured, songs, from);
      ScanFromIds(st1, files, configured, songs, from + 1);
      var r := ScanFrom(st1, files, configured, songs, from + 1);
      ScanFromStep(st, files, configured, songs, from);
      SongIdsStep(songs, from);
      UnionStep(IdsOf(st.table), IdsOf(st1.table), IdsOf(r.table), songs[from].id,
                SongIds(songs, from), SongIds(songs, from + 1));
    }
  }

  /** The ids of the songs at the indices `ks`. */
  function IdsAt(songs: seq<Song>, ks: seq<nat>): set<int>
    requires forall i :: 0 <= i < |ks| ==> ks[i] < |songs|
  {
    set i | 0 <= i < |ks| :: songs[ks[i]].id
  }

  lemma IdsAtCons(songs: seq<Song>, k: nat, ks: seq<nat>)
    requires k < |songs| && forall i :: 0 <= i < |ks| ==> ks[i] < |songs|
    ensures IdsAt(songs, [k] + ks) == {songs[k].id} + IdsAt(songs, ks)
  {
    var all := [k] + ks;
    forall x | x in IdsAt(songs, all) ensures x in {songs[k].id} + IdsAt(songs, ks) {
      var i :| 0 <= i < |all| && songs[all[i]].id == x;
      if i > 0 { assert all[i] == ks[i - 1]; }
    }
    forall x | x in IdsAt(songs, ks) ensures x in IdsAt(songs, all) {
      var i :| 0 <= i < |ks| && songs[ks[i]].id == x;
      assert all[i + 1] == ks[i];
    }
    assert all[0] == k;
  }

  /**
   * Every song whose id is new to the table is processed once: the
   * processed ids are exactly the list's ids minus those already known.
   */
  lemma {:induction false} NewIndicesCover(known: set<int>, songs: seq<Song>, from: nat)
    requires from <= |songs|
    ensures IdsAt(songs, NewIndices(known, songs, from)) == SongIds(songs, from) - known
    decreases |songs| - from
  {
    if from < |songs| {
      SongIdsStep(songs, from);
      var id := songs[from].id;
      if id in known {
        NewIndicesCover(known, songs, from + 1);
      } else {
        NewIndicesCover(known + {id}, songs, from + 1);
        IdsAtCons(songs, from, NewIndices(known + {id}, songs, from + 1));
      }
    } else {
      assert IdsAt(songs, []) == {};
    }
  }

  /**
   * `scanIfNotExists(songList, …)` on a scanner whose resolver is
   * `resolver`: seeded from the table first, then every song id of the list
   * has a row, no stored row changes, and the effects are those of the
   * songs `NewIndices` picks.
   */
  function ScanIfNotExists(resolver: Resolver, table: Table, files: map<string, TagMap>,
                           configured: Option<seq<string>>, songs: seq<Song>): (r: ScanState)
    ensures |r.table| >= |table| && r.table[..|table|] == table
    ensures forall k :: 0 <= k < |songs| ==> songs[k].id in IdsOf(r.table)
    ensures IdsOf(r.table) == IdsOf(table) + SongIds(songs, 0)
    ensures var ks := NewIndices(IdsOf(table), songs, 0);
            && r.progress == ProgressOf(songs, ks)
            && r.tagReads == PathsOf(songs, ks)
            && |r.table| == |table| + |ks|
            && forall j :: 0 <= j < |ks| ==> RowFor(r.table[|table| + j], songs[ks[j]], files, configured)
    ensures UniqueIds(table) ==> UniqueIds(r.table)
    ensures Extends(SeedFrom(resolver, table), r.resolver)
    ensures Valid(resolver) ==> Valid(r.resolver)
  {
    var st := ScanState(table, SeedFrom(resolver, table), [], []);
    ScanFromRowsFor(table, SeedFrom(resolver, table), files, configured, songs);
    ScanFromProgress(st, files, configured, songs, 0, IdsOf(table));
    ScanFromTagReads(st, files, configured, songs, 0, IdsOf(table));
    ScanFromIds(st, files, configured, songs, 0);
    ScanFrom(st, files, configured, songs, 0)
  }

  /** With every id of the list already known, nothing is processed. */
  lemma {:induction false} NewIndicesAllKnown(known: set<int>, songs: seq<Song>, from: nat)
    requires from <= |songs|
    requires SongIds(songs, from) <= known
    ensures NewIndices(known, songs, from) == []
    decreases |songs| - from
  {
    if from < |songs| {
      SongIdsStep(songs, from);
      NewIndicesAllKnown(known, songs, from + 1);
    }
  }

  /**
   * Scanning a list a second time, on any scanner and with any tags or
   * delimiters, writes nothing, reads no tags and reports no progress.
   */
  lemma ScanIdempotent(resolver: Resolver, table: Table, files: map<string, TagMap>,
                       configured: Option<seq<string>>, songs: seq<Song>,
                       resolver2: Resolver, files2: map<string, TagMap>,
                       configured2: Option<seq<string>>)
    ensures var first := ScanIfNotExists(resolver, table, files, configured, songs);
            var second := ScanIfNotExists(resolver2, first.table, files2, configured2, songs);
            second.table == first.table && second.progress == [] && second.tagReads == []
  {
    var first := ScanIfNotExists(resolver, table, files, configured, songs);
    ScanAllKnown(resolver2, first.table, files2, configured2, songs);
  }

  /** A list whose every id has a row already is a no-op scan. */
  lemma ScanAllKnown(resolver: Resolver, table: Table, files: map<string, TagMap>,
                     configured: Option<seq<string>>, songs: seq<Song>)
    requires SongIds(songs, 0) <= IdsOf(table)
    ensures var r := ScanIfNotExists(resolver, table, files, configured, songs);
            r.table == table && r.progress == [] && r.tagReads == []
  {
    NewIndicesAllKnown(IdsOf(table), songs, 0);
    var r := ScanIfNotExists(resolver, table, files, configured, songs);
    assert r.table[..|table|] == table;
  }
}
