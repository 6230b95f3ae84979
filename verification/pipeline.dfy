/**
 * How the pieces meet: the row the scanner writes is read back by the next
 * scanner's seeding, overlaid onto playlist members, and split again for
 * the artist line. The comma that joins names is also the one that splits
 * them, so the round trip holds exactly for comma-free names.
 */
module Pipeline {
  import opened Kt
  import opened Metadata
  import opened ArtistIds
  import opened Scanner
  import opened Overlay
  import opened ArtistSplit
  import ArtistDetails

  /** Whether a name list survives the `", "` join and `","` split: non-empty, trimmed, comma-free. */
  predicate CommaFree(names: seq<string>) {
    |names| > 0 && forall k :: 0 <= k < |names| ==> Trimmed(names[k]) && ',' !in names[k]
  }

  function NameSet(names: seq<string>): set<string> {
    set k | 0 <= k < |names| :: names[k]
  }

  lemma NameSetCons(names: seq<string>)
    requires |names| > 0
    ensures NameSet(names) == {names[0]} + NameSet(names[1..])
  {
    forall x | x in NameSet(names) ensures x in {names[0]} + NameSet(names[1..]) {
      var k :| 0 <= k < |names| && names[k] == x;
      if k > 0 {
        assert names[1..][k - 1] == x;
      }
    }
  }

  /** The ids column reads back as exactly the ids the scanner joined, for any id list. */
  lemma RecordIdsRoundTrip(song: Song, tag: TagMap, names: Option<seq<string>>, ids: seq<int>)
    ensures SeedIds(BuildRecord(song, tag, names, ids)) == ids
  {
    var strs := LongsToStrings(ids);
    forall x | x in strs ensures ',' !in x {
      var k :| 0 <= k < |strs| && strs[k] == x;
      var num := LongToString(ids[k]);
      forall i | 0 <= i < |num| ensures num[i] != ',' {
        assert num[i] == '-' || IsDigit(num[i]);
      }
    }
    if |ids| == 0 {
      SplitJoin([[]], ',');
      assert Join([[]], IdSeparator) == [];
      ParseLongsSkip([[]]);
    } else {
      SplitJoin(strs, ',');
      ParseLongsToStrings(ids);
    }
  }

  /** The names column reads back as the scanner's split names when they are comma-free. */
  lemma RecordNamesRoundTrip(song: Song, tag: TagMap, names: seq<string>, ids: seq<int>)
    requires CommaFree(names)
    ensures SeedNames(BuildRecord(song, tag, Some(names), ids)) == names
  {
    JoinedNamesRoundTrip(names, Join(names, NameSeparator));
  }

  /** A song without an ARTIST tag is stored with `""`, which reads back as one empty name. */
  lemma RecordWithoutArtistTag(song: Song, tag: TagMap, ids: seq<int>)
    ensures SeedNames(BuildRecord(song, tag, None, ids)) == [[]]
  {
    SplitJoin([[]], ',');
    assert Join([[]], IdSeparator) == [];
    assert Trim([]) == [];
  }

  /** Distinct names zipped with ids never give one name two ids. */
  lemma ZipFunctional(names: seq<string>, ids: seq<int>)
    requires |names| == |ids| && NoDup(names)
    ensures Functional(Zip(names, ids))
  {
    var pairs := Zip(names, ids);
    forall i, j | 0 <= i < |pairs| && 0 <= j < |pairs| && pairs[i].0 == pairs[j].0 ensures pairs[i].1 == pairs[j].1 {
      assert pairs[i] == (names[i], ids[i]) && pairs[j] == (names[j], ids[j]);
    }
  }

  /**
   * Having replayed distinct fresh names against their ids, the resolver
   * maps each name to its own id and adds nothing else.
   */
  lemma LearnedZipFresh(r: Resolver, names: seq<string>, ids: seq<int>, r': Resolver)
    requires |names| == |ids| && NoDup(names)
    requires forall k :: 0 <= k < |names| ==> names[k] !in r.ids
    requires LearnedFrom(r, Zip(names, ids), r')
    ensures r'.ids.Keys == r.ids.Keys + NameSet(names)
    ensures forall k :: 0 <= k < |names| ==> r'.ids[names[k]] == ids[k]
    ensures forall n :: n in r.ids ==> r'.ids[n] == r.ids[n]
  {
    var pairs := Zip(names, ids);
    ZipFunctional(names, ids);
    LearnedAgrees(r, pairs, r');
    ZipAgreesAt(names, ids, r'.ids);
    ZipNames(names, ids);
  }

  lemma ZipAgreesAt(names: seq<string>, ids: seq<int>, m: map<string, int>)
    requires |names| == |ids| && Agrees(Zip(names, ids), m)
    ensures forall k :: 0 <= k < |names| ==> names[k] in m && m[names[k]] == ids[k]
  {
    var pairs := Zip(names, ids);
    AgreesAt(pairs, m);
    forall k | 0 <= k < |names| ensures names[k] in m && m[names[k]] == ids[k] {
      assert pairs[k] == (names[k], ids[k]);
    }
  }

  lemma ZipNames(names: seq<string>, ids: seq<int>)
    requires |names| == |ids|
    ensures forall p :: p in Zip(names, ids) ==> p.0 in NameSet(names)
  {
    var pairs := Zip(names, ids);
    forall p | p in pairs ensures p.0 in NameSet(names) {
      var k :| 0 <= k < |pairs| && pairs[k] == p;
      assert p.0 == names[k];
    }
  }

  /**
   * Replaying distinct fresh names against their ids maps each name to its
   * own id and adds nothing else.
   */
  lemma LearnPairsFresh(r: Resolver, names: seq<string>, ids: seq<int>)
    requires |names| == |ids| && NoDup(names)
    requires forall k :: 0 <= k < |names| ==> names[k] !in r.ids
    ensures var r' := LearnPairs(r, names, ids);
            && r'.ids.Keys == r.ids.Keys + NameSet(names)
            && (forall k :: 0 <= k < |names| ==> r'.ids[names[k]] == ids[k])
            && (forall n :: n in r.ids ==> r'.ids[n] == r.ids[n])
  {
    LearnedZipFresh(r, names, ids, LearnPairs(r, names, ids));
  }

  /**
   * Id stability across runs for one row: a new scanner seeded from a row
   * the scanner wrote for distinct comma-free names knows each name under
   * the id it was given, and knows no other name.
   */
  lemma SeedingRecoversRow(song: Song, tag: TagMap, names: seq<string>, ids: seq<int>)
    requires CommaFree(names) && NoDup(names) && |ids| == |names|
    ensures var r := Seed([BuildRecord(song, tag, Some(names), ids)]);
            && r.ids.Keys == NameSet(names)
            && (forall k :: 0 <= k < |names| ==> r.ids[names[k]] == ids[k])
  {
    var row := BuildRecord(song, tag, Some(names), ids);
    OneRowPairs(song, tag, names, ids);
    SeededZip(names, ids, StoredPairs([row]), Seed([row]));
  }

  /** A resolver that learned distinct names against their ids from scratch maps exactly those names to those ids. */
  lemma SeededZip(names: seq<string>, ids: seq<int>, pairs: seq<(string, int)>, r: Resolver)
    requires |names| == |ids| && NoDup(names)
    requires pairs == Zip(names, ids) && LearnedFrom(Initial, pairs, r)
    ensures r.ids.Keys == NameSet(names)
    ensures forall k :: 0 <= k < |names| ==> r.ids[names[k]] == ids[k]
  {
    LearnedZipFresh(Initial, names, ids, r);
  }

  /** A row written for comma-free names, stored alone, replays exactly those names against their ids. */
  lemma OneRowPairs(song: Song, tag: TagMap, names: seq<string>, ids: seq<int>)
    requires CommaFree(names)
    ensures StoredPairs([BuildRecord(song, tag, Some(names), ids)]) == Zip(names, ids)
  {
    var row := BuildRecord(song, tag, Some(names), ids);
    StoredPairsOne(row);
    RecordNamesRoundTrip(song, tag, names, ids);
    RecordIdsRoundTrip(song, tag, Some(names), ids);
  }

  /** The one name `a + "," + b`, stored alone, reads back as the two names `a` and `b`. */
  lemma CommaNameSplits(a: string, b: string)
    requires Trimmed(a) && Trimmed(b) && ',' !in a && ',' !in b
    ensures SplitNames(Some(Join([a + [','] + b], NameSeparator))) == [a, b]
  {
    var x := a + [','] + b;
    assert Join([x], NameSeparator) == x;
    assert x == Join([a, b], [',']);
    SplitJoin([a, b], ',');
    TrimOfTrimmed(a);
    TrimOfTrimmed(b);
    assert TrimAll([a, b]) == [a, b];
  }

  /**
   * Seeding from a row whose names read back as `[a, b]` against the one id
   * `id` maps `a` alone, so any other name `x` is minted afresh, with an id
   * other than `id`.
   */
  lemma SeedSplitRow(row: SongMetadata, a: string, b: string, id: int, x: string)
    requires SeedNames(row) == [a, b] && SeedIds(row) == [id] && x != a
    ensures x !in Seed([row]).ids && Generate(Seed([row]), x).1 != id
  {
    SeedOneRow(row);
    assert LearnPairs(Initial, [a, b], [id]) == Learn(Initial, a, id);
  }

  /**
   * The round trip breaks for a name holding a comma: the row for the one
   * name `a + "," + b` seeds `a` alone, so the next run mints a new id for
   * the name it had already numbered.
   */
  lemma CommaNameLosesItsId(song: Song, tag: TagMap, a: string, b: string, id: int)
    requires Trimmed(a) && Trimmed(b) && ',' !in a && ',' !in b
    ensures var x := a + [','] + b;
            var r := Seed([BuildRecord(song, tag, Some([x]), [id])]);
            && x !in r.ids
            && Generate(r, x).1 != id
  {
    var x := a + [','] + b;
    var row := BuildRecord(song, tag, Some([x]), [id]);
    CommaNameSplits(a, b);
    RecordIdsRoundTrip(song, tag, Some([x]), [id]);
    assert |x| > |a|;
    SeedSplitRow(row, a, b, id, x);
  }

  /**
   * A member whose record the scanner wrote: once overlaid, the flag-on
   * artist line under it is the scanner's comma-free name list.
   */
  lemma ScannedNamesReachArtistLine(base: PlaylistSong, song: Song, tag: TagMap, names: seq<string>, ids: seq<int>)
    requires CommaFree(names)
    ensures ArtistDetails.ArtistLine(Merge(base, BuildRecord(song, tag, Some(names), ids)).song, true) == names
  {
    var merged := Merge(base, BuildRecord(song, tag, Some(names), ids)).song;
    assert merged.artistNames == Some(Join(names, NameSeparator));
    ArtistDetails.ArtistLineRecoversNames(merged, names);
  }

  /**
   * Overlaying the row the scanner wrote for a song onto that same song,
   * read without the two artist columns, changes the year and adds the two
   * artist columns; every other field is as it was.
   */
  lemma ScannerRecordOverlay(song: Song, tag: TagMap, names: Option<seq<string>>, ids: seq<int>,
                             playlistId: int, idInPlayList: int)
    requires song.artistIds.None? && song.artistNames.None?
    ensures var base := PlaylistSong(song, playlistId, idInPlayList);
            var r := Merge(base, BuildRecord(song, tag, names, ids));
            && r.song == song.(year := Some(YearOf(tag)),
                               artistIds := Some(Join(LongsToStrings(ids), IdSeparator)),
                               artistNames := Some(if names.Some? then Join(names.value, NameSeparator) else []))
            && r.playlistId == playlistId && r.idInPlayList == idInPlayList
  {
  }

  // ---------------------------------------------------------------------
  // Id stability across runs, for whole tables
  // ---------------------------------------------------------------------

  /** No ARTIST value of any file holds a comma. */
  predicate CommaFreeTags(files: map<string, TagMap>) {
    forall path, i :: path in files && ArtistKey in files[path] && 0 <= i < |files[path][ArtistKey]|
      ==> ',' !in files[path][ArtistKey][i]
  }

  /** The resolver holds every pair the table replays. */
  predicate Consistent(st: ScanState) {
    Agrees(StoredPairs(st.table), st.resolver.ids)
  }

  lemma AgreesAppend(a: seq<(string, int)>, b: seq<(string, int)>, m: map<string, int>)
    requires Agrees(a, m) && Agrees(b, m)
    ensures Agrees(a + b, m)
  {
    AgreesAt(a, m);
    AgreesAt(b, m);
    AgreesAt(a + b, m);
    assert forall k :: |a| <= k < |a + b| ==> (a + b)[k] == b[k - |a|];
  }

  lemma AgreesGrow(pairs: seq<(string, int)>, m: map<string, int>, m': map<string, int>)
    requires Agrees(pairs, m)
    requires forall n :: n in m ==> n in m' && m'[n] == m[n]
    ensures Agrees(pairs, m')
  {
    AgreesAt(pairs, m);
    AgreesAt(pairs, m');
  }

  /** Trimmed names zipped with the ids minted for them, when the map holds each trimmed name under its id. */
  lemma ZipAgrees(ns: seq<string>, ids: seq<int>, m: map<string, int>)
    requires |ids| == |ns|
    requires forall k :: 0 <= k < |ns| ==> Trim(ns[k]) in m && m[Trim(ns[k])] == ids[k]
    ensures Agrees(Zip(TrimAll(ns), ids), m)
  {
    var pairs := Zip(TrimAll(ns), ids);
    AgreesAt(pairs, m);
  }

  /**
   * The row written for a song whose ARTIST values are comma-free replays
   * pairs that the resolver after minting holds: each name, trimmed, under
   * the id minted for it.
   */
  lemma WriteRowAgrees(r: Resolver, song: Song, tag: TagMap, configured: Option<seq<string>>)
    requires ArtistKey in tag ==> forall i :: 0 <= i < |tag[ArtistKey]| ==> ',' !in tag[ArtistKey][i]
    ensures var (row, r') := WriteRow(r, song, tag, configured);
            Agrees(RowPairs(row), r'.ids)
  {
    var names := SplitArtists(ArtistTag(tag), configured);
    var ns := names.OrElse([]);
    var (r', ids) := GenerateAll(r, ns);
    var row := BuildRecord(song, tag, names, ids);
    assert WriteRow(r, song, tag, configured) == (row, r');
    RecordIdsRoundTrip(song, tag, names, ids);
    if |ns| > 0 {
      SplitArtistsKeepsOut(ArtistTag(tag), configured, ',');
      JoinedRawNamesRoundTrip(ns, Join(ns, NameSeparator));
      GenerateAllMaps(r, ns);
      ZipAgrees(ns, ids, r'.ids);
      assert RowPairs(row) == Zip(TrimAll(ns), ids);
    } else {
      assert RowPairs(row) == [];
    }
  }

  /** One song of the scan keeps the table's pairs held by the resolver. */
  lemma ScanSongAgrees(st: ScanState, files: map<string, TagMap>, configured: Option<seq<string>>,
                       songs: seq<Song>, idx: nat)
    requires idx < |songs| && CommaFreeTags(files)
    requires Consistent(st)
    ensures Consistent(ScanSong(st, files, configured, songs, idx))
  {
    var song := songs[idx];
    if FindById(st.table, song.id).None? {
      var tag := TagsAt(files, song.data);
      var (row, r') := WriteRow(st.resolver, song, tag, configured);
      var st1 := ScanSong(st, files, configured, songs, idx);
      assert st1.table == st.table + [row] && st1.resolver == r';
      WriteRowAgrees(st.resolver, song, tag, configured);
      ConsistentSnoc(st, row, r');
    }
  }

  /** Adding a row whose pairs a resolver extending the state's holds keeps the state consistent. */
  lemma ConsistentSnoc(st: ScanState, row: SongMetadata, r': Resolver)
    requires Consistent(st) && Extends(st.resolver, r') && Agrees(RowPairs(row), r'.ids)
    ensures Agrees(StoredPairs(st.table + [row]), r'.ids)
  {
    StoredPairsSnoc(st.table, row);
    AgreesGrow(StoredPairs(st.table), st.resolver.ids, r'.ids);
    AgreesAppend(StoredPairs(st.table), RowPairs(row), r'.ids);
  }

  /**
   * A fold `fold(s, i)` that takes one `step` from `i` to `i + 1` and stops
   * at `n` keeps any property every step keeps.
   */
  lemma {:induction false} FoldKeeps<S>(inv: S -> bool, fold: (S, nat) -> S, step: (S, nat) -> S,
                                        st: S, from: nat, n: nat)
    requires from <= n && inv(st)
    requires forall s :: fold(s, n) == s
    requires forall s, i :: from <= i < n ==> fold(s, i) == fold(step(s, i), i + 1)
    requires forall s, i :: from <= i < n && inv(s) ==> inv(step(s, i))
    ensures inv(fold(st, from))
    decreases n - from
  {
    if from < n {
      FoldKeeps(inv, fold, step, step(st, from), from + 1, n);
    }
  }

  /** The scan as a fold over song positions. */
  lemma ScanFromFolds(files: map<string, TagMap>, configured: Option<seq<string>>, songs: seq<Song>)
    ensures forall s, i :: 0 <= i < |songs| ==>
              ScanFrom(s, files, configured, songs, i)
                == ScanFrom(ScanSong(s, files, configured, songs, i), files, configured, songs, i + 1)
    ensures forall s :: ScanFrom(s, files, configured, songs, |songs|) == s
  {
    forall s, i | 0 <= i < |songs|
      ensures ScanFrom(s, files, configured, songs, i)
                == ScanFrom(ScanSong(s, files, configured, songs, i), files, configured, songs, i + 1)
    {
      ScanFromStep(s, files, configured, songs, i);
    }
  }

  /** Every song of the scan keeps the table's pairs held by the resolver. */
  lemma ScanSongsAgree(files: map<string, TagMap>, configured: Option<seq<string>>, songs: seq<Song>)
    requires CommaFreeTags(files)
    ensures forall s, i :: 0 <= i < |songs| && Consistent(s) ==> Consistent(ScanSong(s, files, configured, songs, i))
  {
    forall s, i | 0 <= i < |songs| && Consistent(s) ensures Consistent(ScanSong(s, files, configured, songs, i)) {
      ScanSongAgrees(s, files, configured, songs, i);
    }
  }

  /** The whole fold keeps the table's pairs held by the resolver. */
  lemma ScanFromAgrees(st: ScanState, files: map<string, TagMap>,
      configured: Option<seq<string>>, songs: seq<Song>, from: nat)
    requires from <= |songs| && CommaFreeTags(files) && Consistent(st)
    ensures Consistent(ScanFrom(st, files, configured, songs, from))
  {
    var fold := (s: ScanState, i: nat) => if i <= |songs| then ScanFrom(s, files, configured, songs, i) else s;
    var step := (s: ScanState, i: nat) => if i < |songs| then ScanSong(s, files, configured, songs, i) else s;
    ScanFromFolds(files, configured, songs);
    ScanSongsAgree(files, configured, songs);
    FoldKeeps(Consistent, fold, step, st, from, |songs|);
  }

  /** A scan over a table that gives each name one id leaves the resolver holding every written pair. */
  lemma ScanKeepsConsistent(table: Table, files: map<string, TagMap>, configured: Option<seq<string>>, songs: seq<Song>)
    requires Functional(StoredPairs(table))
    requires CommaFreeTags(files)
    ensures Consistent(ScanIfNotExists(Initial, table, files, configured, songs))
  {
    var seeded := SeedFrom(Initial, table);
    LearnedAgrees(Initial, StoredPairs(table), seeded);
    var st := ScanState(table, seeded, [], []);
    ScanFromAgrees(st, files, configured, songs, 0);
    assert ScanIfNotExists(Initial, table, files, configured, songs) == ScanFrom(st, files, configured, songs, 0);
  }

  /**
   * Seeding from a consistent state's table knows every written name under
   * its written id, each with the id the state's resolver has for it.
   */
  lemma SeedConsistent(st: ScanState)
    requires Consistent(st)
    ensures var next := Seed(st.table);
            && Functional(StoredPairs(st.table))
            && Agrees(StoredPairs(st.table), next.ids)
            && forall n :: n in next.ids ==> n in st.resolver.ids && next.ids[n] == st.resolver.ids[n]
  {
    var pairs := StoredPairs(st.table);
    AgreesFunctional(pairs, st.resolver.ids);
    var next := Seed(st.table);
    LearnedAgrees(Initial, pairs, next);
    AgreedWithin(pairs, st.resolver.ids, next.ids);
  }

  /** A map holding only pairs another map agrees with is part of that map. */
  lemma AgreedWithin(pairs: seq<(string, int)>, m: map<string, int>, m': map<string, int>)
    requires Agrees(pairs, m)
    requires forall n :: n in m' ==> (n, m'[n]) in pairs
    ensures forall n :: n in m' ==> n in m && m'[n] == m[n]
  {
    AgreesAt(pairs, m);
    forall n | n in m' ensures n in m && m'[n] == m[n] {
      var k :| 0 <= k < |pairs| && pairs[k] == (n, m'[n]);
    }
  }

  /**
   * Id stability across runs: if no name of the stored table carries two
   * ids and no ARTIST value holds a comma, then after a scan the table
   * still gives each name one id, and a new scanner seeded from it knows
   * every written name under its written id, each with the id the scanning
   * resolver had for it.
   */
  lemma ScanThenSeed(table: Table, files: map<string, TagMap>, configured: Option<seq<string>>, songs: seq<Song>)
    requires Functional(StoredPairs(table))
    requires CommaFreeTags(files)
    ensures var after := ScanIfNotExists(Initial, table, files, configured, songs);
            var next := Seed(after.table);
            && Functional(StoredPairs(after.table))
            && Agrees(StoredPairs(after.table), next.ids)
            && forall n :: n in next.ids ==> n in after.resolver.ids && next.ids[n] == after.resolver.ids[n]
  {
    ScanKeepsConsistent(table, files, configured, songs);
    SeedConsistent(ScanIfNotExists(Initial, table, files, configured, songs));
  }

  /** Starting from an empty table, every run of the scanner preserves the previous run's ids. */
  lemma FirstScanThenSeed(files: map<string, TagMap>, configured: Option<seq<string>>, songs: seq<Song>)
    requires CommaFreeTags(files)
    ensures var after := ScanIfNotExists(Initial, [], files, configured, songs);
            Agrees(StoredPairs(after.table), Seed(after.table).ids)
  {
    ScanThenSeed([], files, configured, songs);
  }
}
