/**
 * `ArtistDetailsAdapter`: the rows of an artist's page, their view types and
 * stable ids, the artist line shown under each song, and the queue a click
 * on a song opens.
 */
module ArtistDetails {
  import opened Kt
  import opened Metadata

  /** The parts of an artist and an album the page shows; nothing here reads them. */
  datatype Artist = Artist(id: int, name: string)
  datatype Album = Album(id: int, title: string)

  /** `ArtistItem`: one row of the page. */
  datatype ArtistItem =
    | Header(artist: Artist)
    | Albums(albums: seq<Album>)
    | SongsHeader(title: string)
    | SongItem(song: Song)
    | Biography(text: string)
    | Stats(listeners: string, scrobbles: string)

  const TypeHeader := 0
  const TypeAlbums := 1
  const TypeSongsHeader := 2
  const TypeSong := 3
  const TypeBiography := 4
  const TypeStats := 5

  /** `RecyclerView.NO_ID`. */
  const NoId := -1

  /** Reading a list past its end throws this. */
  const OutOfBounds := "IndexOutOfBoundsException"

  /** The view type of one row. */
  function ViewType(item: ArtistItem): (t: int)
    ensures 0 <= t <= 5
    ensures item.SongItem? <==> t == TypeSong
  {
    match item
    case Header(_) => TypeHeader
    case Albums(_) => TypeAlbums
    case SongsHeader(_) => TypeSongsHeader
    case SongItem(_) => TypeSong
    case Biography(_) => TypeBiography
    case Stats(_, _) => TypeStats
  }

  /** Whether two rows are of the same variant. */
  predicate SameVariant(a: ArtistItem, b: ArtistItem) {
    && a.Header? == b.Header? && a.Albums? == b.Albums? && a.SongsHeader? == b.SongsHeader?
    && a.SongItem? == b.SongItem? && a.Biography? == b.Biography? && a.Stats? == b.Stats?
  }

  /** Two rows share a view type exactly when they are of the same variant. */
  lemma ViewTypeSeparatesVariants(a: ArtistItem, b: ArtistItem)
    ensures ViewType(a) == ViewType(b) <==> SameVariant(a, b)
  {
  }

  /** `getItemViewType(position)`. */
  function ItemViewType(items: seq<ArtistItem>, position: int): (r: Outcome<int>)
    ensures r.Thrown? <==> !(0 <= position < |items|)
    ensures r.Returned? ==> r.value == ViewType(items[position])
  {
    if 0 <= position < |items| then Returned(ViewType(items[position])) else Thrown(OutOfBounds)
  }

  /** `getItemId(position)`: the song id for a song row, `NO_ID` for any other row. */
  function ItemId(items: seq<ArtistItem>, position: int): (r: Outcome<int>)
    ensures r.Thrown? <==> !(0 <= position < |items|)
    ensures r.Returned? && items[position].SongItem? ==> r.value == items[position].song.id
    ensures r.Returned? && !items[position].SongItem? ==> r.value == NoId
  {
    if 0 <= position < |items| then
      match items[position]
      case SongItem(song) => Returned(song.id)
      case _ => Returned(NoId)
    else Thrown(OutOfBounds)
  }

  /** `getIdentifier(position)`: the song of a song row; null for any other row or position. */
  function Identifier(items: seq<ArtistItem>, position: int): (r: Option<Song>)
    ensures r.Some? <==> 0 <= position < |items| && items[position].SongItem?
    ensures r.Some? ==> r.value == items[position].song
  {
    if 0 <= position < |items| && items[position].SongItem? then Some(items[position].song) else None
  }

  /** A row has a song identifier exactly when its view type is the song type. */
  lemma IdentifierMatchesViewType(items: seq<ArtistItem>, position: int)
    requires 0 <= position < |items|
    ensures Identifier(items, position).Some? <==> ItemViewType(items, position) == Returned(TypeSong)
    ensures Identifier(items, position).Some? ==> ItemId(items, position) == Returned(Identifier(items, position).value.id)
  {
  }

  /** `getItemCount()`. */
  function ItemCount(items: seq<ArtistItem>): nat {
    |items|
  }

  /** `swapDataSet(newItems)`: the adapter now shows `newItems` and nothing of the old list. */
  function SwapDataSet(items: seq<ArtistItem>, newItems: seq<ArtistItem>): (r: seq<ArtistItem>)
    ensures ItemCount(r) == |newItems|
    ensures forall p :: ItemViewType(r, p) == ItemViewType(newItems, p)
    ensures forall p :: ItemId(r, p) == ItemId(newItems, p)
    ensures forall p :: Identifier(r, p) == Identifier(newItems, p)
  {
    newItems
  }

  /** `listOfNotNull(a, b)`: the non-null arguments, `a`'s first. */
  function ListOfNotNull(a: Option<string>, b: Option<string>): (r: seq<string>)
    ensures |r| == (if a.Some? then 1 else 0) + (if b.Some? then 1 else 0)
    ensures a.Some? ==> r[0] == a.value
    ensures b.Some? ==> r[|r| - 1] == b.value
    ensures forall x :: x in r <==> Some(x) == a || Some(x) == b
  {
    (if a.Some? then [a.value] else []) + (if b.Some? then [b.value] else [])
  }

  /**
   * The names under a song when the flag is off:
   * `listOfNotNull(albumArtist, artistName).map { it.trim() }.filter { it.isNotEmpty() }.distinct()`.
   */
  function TagArtists(song: Song): (r: seq<string>)
    ensures r == TagArtistsReference(song)
  {
    TrimNonEmptyOfTwo(song.albumArtist, song.artistName);
    DistinctOfAtMostTwo(ShownTag(song.albumArtist), ShownTag(song.artistName));
    Distinct(NonEmpty(TrimAll(ListOfNotNull(song.albumArtist, song.artistName))))
  }

  /** What one nullable tag contributes: its trimmed text, unless null or empty after trimming. */
  function ShownTag(tag: Option<string>): (r: seq<string>)
    ensures |r| <= 1
    ensures forall k :: 0 <= k < |r| ==> r[k] != [] && Trimmed(r[k])
  {
    if tag.Some? && Trim(tag.value) != [] then [Trim(tag.value)] else []
  }

  /** The flag-off line stated directly: the album artist's name, then the artist's unless it repeats it. */
  function TagArtistsReference(song: Song): seq<string> {
    var a := ShownTag(song.albumArtist);
    var b := ShownTag(song.artistName);
    if b == a then a else a + b
  }

  /** A nullable tag with `trim()` applied to its text. */
  function TrimTag(tag: Option<string>): Option<string> {
    if tag.Some? then Some(Trim(tag.value)) else None
  }

  /** What a nullable string contributes once empty strings are filtered out. */
  function KeepNonEmpty(x: Option<string>): seq<string> {
    if x.Some? && x.value != [] then [x.value] else []
  }

  lemma TrimAllOfTwo(a: Option<string>, b: Option<string>)
    ensures TrimAll(ListOfNotNull(a, b)) == ListOfNotNull(TrimTag(a), TrimTag(b))
  {
    var raw := ListOfNotNull(a, b);
    if a.Some? && b.Some? {
      assert raw == [a.value, b.value];
    } else if a.Some? {
      assert raw == [a.value];
    } else if b.Some? {
      assert raw == [b.value];
    } else {
      assert raw == [];
    }
  }

  lemma NonEmptyOfTwo(a: Option<string>, b: Option<string>)
    ensures NonEmpty(ListOfNotNull(a, b)) == KeepNonEmpty(a) + KeepNonEmpty(b)
  {
    if b.Some? {
      assert [b.value][1..] == [];
      assert NonEmpty([b.value]) == KeepNonEmpty(b);
    }
    var tail := if b.Some? then [b.value] else [];
    assert NonEmpty(tail) == KeepNonEmpty(b);
    if a.Some? {
      var xs := [a.value] + tail;
      assert xs[1..] == tail;
      assert NonEmpty(xs) == KeepNonEmpty(a) + NonEmpty(tail);
    }
  }

  lemma TrimNonEmptyOfTwo(a: Option<string>, b: Option<string>)
    ensures NonEmpty(TrimAll(ListOfNotNull(a, b))) == ShownTag(a) + ShownTag(b)
  {
    TrimAllOfTwo(a, b);
    NonEmptyOfTwo(TrimTag(a), TrimTag(b));
    assert KeepNonEmpty(TrimTag(a)) == ShownTag(a);
    assert KeepNonEmpty(TrimTag(b)) == ShownTag(b);
  }

  lemma DistinctOfOne(x: string)
    ensures Distinct([x]) == [x]
  {
    assert NoDup([x]);
  }

  lemma DistinctOfPair(x: string, y: string)
    ensures Distinct([x, y]) == if x == y then [x] else [x, y]
  {
    if x == y {
      assert [x, y][..1] == [x];
      DistinctOfOne(x);
    } else {
      assert NoDup([x, y]);
    }
  }

  lemma DistinctOfAtMostTwo(a: seq<string>, b: seq<string>)
    requires |a| <= 1 && |b| <= 1
    ensures Distinct(a + b) == if b == a then a else a + b
  {
    if |a| == 1 && |b| == 1 {
      assert a + b == [a[0], b[0]];
      DistinctOfPair(a[0], b[0]);
    } else if |a| == 1 {
      assert a + b == [a[0]];
      DistinctOfOne(a[0]);
    } else if |b| == 1 {
      assert a + b == [b[0]];
      DistinctOfOne(b[0]);
    } else {
      assert a + b == [];
    }
  }

  /** The flag-off line holds at most two names, each once, each trimmed and non-empty. */
  lemma TagArtistsShape(song: Song)
    ensures var r := TagArtists(song);
            && |r| <= 2 && NoDup(r)
            && forall k :: 0 <= k < |r| ==> r[k] != [] && Trimmed(r[k])
  {
    var r := TagArtists(song);
    var a := ShownTag(song.albumArtist);
    var b := ShownTag(song.artistName);
    ShapeOfTwo(a, b, r);
  }

  lemma ShapeOfTwo(a: seq<string>, b: seq<string>, r: seq<string>)
    requires |a| <= 1 && |b| <= 1
    requires forall k :: 0 <= k < |a| ==> a[k] != [] && Trimmed(a[k])
    requires forall k :: 0 <= k < |b| ==> b[k] != [] && Trimmed(b[k])
    requires r == if b == a then a else a + b
    ensures |r| <= 2 && NoDup(r)
    ensures forall k :: 0 <= k < |r| ==> r[k] != [] && Trimmed(r[k])
  {
    if b != a && |a| == 1 && |b| == 1 {
      assert a[0] != b[0];
    }
  }

  /** A name is on the flag-off line exactly when it is one of the two tags, trimmed and non-empty. */
  lemma TagArtistsMembers(song: Song, x: string)
    ensures x in TagArtists(song) <==>
              x != [] && ((song.albumArtist.Some? && x == Trim(song.albumArtist.value))
                          || (song.artistName.Some? && x == Trim(song.artistName.value)))
  {
    var a := ShownTag(song.albumArtist);
    var b := ShownTag(song.artistName);
    assert TagArtists(song) == if b == a then a else a + b;
    MergeMembers(a, b, x);
    ShownTagMembers(song.albumArtist, x);
    ShownTagMembers(song.artistName, x);
  }

  lemma ShownTagMembers(tag: Option<string>, x: string)
    ensures x in ShownTag(tag) <==> x != [] && tag.Some? && x == Trim(tag.value)
  {
  }

  lemma MergeMembers<T>(a: seq<T>, b: seq<T>, x: T)
    ensures x in (if b == a then a else a + b) <==> x in a || x in b
  {
  }

  /** The album artist's name leads the flag-off line whenever it is non-empty. */
  lemma AlbumArtistLeads(song: Song)
    requires song.albumArtist.Some? && Trim(song.albumArtist.value) != []
    ensures |TagArtists(song)| > 0 && TagArtists(song)[0] == Trim(song.albumArtist.value)
  {
    var r := TagArtists(song);
    var a := ShownTag(song.albumArtist);
    var b := ShownTag(song.artistName);
    assert a == [Trim(song.albumArtist.value)];
    assert r == if b == a then a else a + b;
  }

  /**
   * The artist names shown under a song: from the album artist and artist
   * when the flag is off, from the scanner's comma-joined column when on.
   */
  function ArtistLine(song: Song, fixYear: bool): (r: seq<string>)
    ensures !fixYear ==> r == TagArtistsReference(song)
    ensures fixYear ==> (r == [] <==> song.artistNames.None?)
  {
    if !fixYear then TagArtists(song) else SplitNames(song.artistNames)
  }

  /** The text of the artist line. */
  function ArtistText(song: Song, fixYear: bool): string {
    Join(ArtistLine(song, fixYear), NameSeparator)
  }

  /**
   * With the flag on, a column the scanner joined from trimmed, comma-free
   * names shows exactly those names.
   */
  lemma ArtistLineRecoversNames(song: Song, names: seq<string>)
    requires |names| > 0
    requires forall k :: 0 <= k < |names| ==> Trimmed(names[k]) && ',' !in names[k]
    requires song.artistNames == Some(Join(names, NameSeparator))
    ensures ArtistLine(song, true) == names
  {
    JoinedNamesRoundTrip(names, song.artistNames.value);
  }

  /** With the flag on and no column, the line is empty; the album artist is not consulted. */
  lemma ArtistLineWithoutColumn(song: Song)
    requires song.artistNames.None?
    ensures ArtistLine(song, true) == []
  {
  }

  /** The songs of the song rows, in row order (`filterIsInstance<SongItem>().map { it.song }`). */
  function SongsOf(items: seq<ArtistItem>): (r: seq<Song>)
    ensures |r| <= |items|
    ensures forall s :: s in r <==> SongItem(s) in items
    decreases |items|
  {
    if |items| == 0 then []
    else (if items[0].SongItem? then [items[0].song] else []) + SongsOf(items[1..])
  }

  lemma {:induction false} SongsOfAppend(a: seq<ArtistItem>, b: seq<ArtistItem>)
    ensures SongsOf(a + b) == SongsOf(a) + SongsOf(b)
    decreases |a|
  {
    if |a| > 0 {
      assert (a + b)[1..] == a[1..] + b;
      SongsOfAppend(a[1..], b);
    } else {
      assert a + b == b;
    }
  }

  /** A click on a song row: the queue of every song row and the index it opens at. */
  function QueueOnClick(items: seq<ArtistItem>, song: Song): (res: (seq<Song>, int))
    ensures res.0 == SongsOf(items)
    ensures -1 <= res.1 < |res.0|
    ensures res.1 == -1 <==> song !in res.0
    ensures res.1 >= 0 ==> res.0[res.1] == song && song !in res.0[..res.1]
  {
    var songs := SongsOf(items);
    (songs, IndexOf(songs, song))
  }

  /**
   * Clicking the song row at `position` opens the queue at that song: at the
   * number of song rows above it, or earlier when the same song appears on
   * an earlier row too, and exactly there when the songs are distinct.
   */
  lemma QueueOpensAtClickedSong(items: seq<ArtistItem>, position: nat)
    requires position < |items| && items[position].SongItem?
    ensures var (queue, index) := QueueOnClick(items, items[position].song);
            var above := |SongsOf(items[..position])|;
            && 0 <= index <= above < |queue|
            && queue[index] == items[position].song
            && (NoDup(queue) ==> index == above)
  {
    var song := items[position].song;
    var before := items[..position];
    var rest := items[position..];
    assert items == before + rest;
    SongsOfAppend(before, rest);
    assert rest[1..] == items[position + 1..];
    assert SongsOf(rest) == [song] + SongsOf(items[position + 1..]);
    var queue := SongsOf(items);
    var above := |SongsOf(before)|;
    assert queue[above] == song;
    var index := IndexOf(queue, song);
  }
}
