/**
 * The records the metadata path moves around: the media index's `Song`, the
 * cached `SongMetadataEntity` row of the `song_metadata` table, and the table
 * itself as the list `getAllMetadata()` returns.
 */
module Metadata {
  import opened Kt

  /** A song as the platform media index reports it. */
  datatype Song = Song(
    id: int,
    title: string,
    trackNumber: int,
    year: Option<string>,
    duration: int,
    data: string,
    dateModified: int,
    albumId: int,
    albumName: Option<string>,
    artistId: int,
    artistName: Option<string>,
    composer: Option<string>,
    albumArtist: Option<string>,
    artistIds: Option<string>,
    artistNames: Option<string>)

  /** One row of `song_metadata`; every column but the primary key is nullable. */
  datatype SongMetadata = SongMetadata(
    id: int,
    title: Option<string>,
    trackNumber: Option<int>,
    year: Option<string>,
    duration: Option<int>,
    data: Option<string>,
    dateModified: Option<int>,
    artistId: Option<int>,
    albumId: Option<int>,
    albumName: Option<string>,
    artistName: Option<string>,
    composer: Option<string>,
    albumArtist: Option<string>,
    artistIds: Option<string>,
    artistNames: Option<string>)

  /** The rows of `song_metadata`, in the order they were inserted. */
  type Table = seq<SongMetadata>

  function IdsOf(t: Table): set<int> {
    set i | 0 <= i < |t| :: t[i].id
  }

  /** The primary key holds: no two rows share an id. */
  predicate UniqueIds(t: Table) {
    forall i, j :: 0 <= i < j < |t| ==> t[i].id != t[j].id
  }

  /** `getMetadataById(id)`: the row with that id, or null. */
  function FindById(t: Table, id: int): (r: Option<SongMetadata>)
    ensures r.Some? <==> id in IdsOf(t)
    ensures r.Some? ==> r.value in t && r.value.id == id
  {
    if |t| == 0 then None
    else if t[0].id == id then Some(t[0])
    else
      assert IdsOf(t) == {t[0].id} + IdsOf(t[1..]) by {
        forall x | x in IdsOf(t) ensures x in {t[0].id} + IdsOf(t[1..]) {
          var i :| 0 <= i < |t| && t[i].id == x;
          if i > 0 { assert t[1..][i - 1] == t[i]; }
        }
        forall x | x in IdsOf(t[1..]) ensures x in IdsOf(t) {
          var i :| 0 <= i < |t| - 1 && t[1..][i].id == x;
          assert t[i + 1] == t[1..][i];
        }
      }
      FindById(t[1..], id)
  }

  /** Appending a row adds exactly its id. */
  lemma IdsOfAppend(t: Table, row: SongMetadata)
    ensures IdsOf(t + [row]) == IdsOf(t) + {row.id}
  {
    assert forall i :: 0 <= i < |t| ==> (t + [row])[i] == t[i];
    assert (t + [row])[|t|] == row;
  }

  /**
   * `associateBy { it.id }`: a map from every id in the table to the LAST
   * row carrying it (a LinkedHashMap put overwrites).
   */
  function AssociateBy(t: Table): (m: map<int, SongMetadata>)
    ensures m.Keys == IdsOf(t)
    ensures forall id :: id in m ==> m[id].id == id && m[id] in t
    decreases |t|
  {
    if |t| == 0 then map[]
    else
      var init := t[..|t| - 1];
      var last := t[|t| - 1];
      assert t == init + [last];
      IdsOfAppend(init, last);
      AssociateBy(init)[last.id := last]
  }

  /** With unique ids the snapshot maps each id to its one row. */
  lemma {:induction false} AssociateByUnique(t: Table, i: int)
    requires UniqueIds(t)
    requires 0 <= i < |t|
    ensures t[i].id in AssociateBy(t) && AssociateBy(t)[t[i].id] == t[i]
    decreases |t|
  {
    var init := t[..|t| - 1];
    if i < |t| - 1 {
      assert t[i] == init[i];
      AssociateByUnique(init, i);
    }
  }

  /** The one delimiter both stored columns are split on. */
  const CommaDelimiter: seq<string> := [[',']]

  /** What the scanner joins the ids column with. */
  const IdSeparator: string := [',']

  /** What the scanner joins the names column with. */
  const NameSeparator: string := [','] + Space

  /** The blank that follows the comma in the names column. */
  const Space: string := [' ']

  lemma SpaceIsBlank()
    ensures IsBlank(Space)
  {
    assert Space[0] == ' ';
  }

  /**
   * A comma-joined names column read back: `split(",")` then `trim()` of
   * each piece; a null column reads as no names.
   */
  function SplitNames(column: Option<string>): (r: seq<string>)
    ensures column.None? ==> r == []
    ensures column.Some? ==> |r| > 0
  {
    match column
    case None => []
    case Some(s) => TrimAll(Split(s, CommaDelimiter))
  }

  lemma TrimPaddedAt(names: seq<string>, w: string, k: nat)
    requires |names| > 0 && IsBlank(w) && k < |names| && Trimmed(names[k])
    ensures Trim(PadTail(names, w)[k]) == names[k]
  {
    if k == 0 {
      TrimOfTrimmed(names[0]);
    } else {
      assert PadTail(names, w)[k] == w + names[k];
      TrimAfterBlank(w, names[k]);
    }
  }

  /** Padding every name but the first with blanks and trimming gives the names back. */
  lemma TrimAllPadded(names: seq<string>, w: string)
    requires |names| > 0 && IsBlank(w)
    requires forall k :: 0 <= k < |names| ==> Trimmed(names[k])
    ensures TrimAll(PadTail(names, w)) == names
  {
    var r := TrimAll(PadTail(names, w));
    forall k | 0 <= k < |names| ensures r[k] == names[k] {
      TrimPaddedAt(names, w, k);
    }
  }

  /** Blank padding free of `c` keeps every name free of `c`. */
  lemma PaddedAvoids(names: seq<string>, c: char, w: string)
    requires |names| > 0 && c !in w
    requires forall k :: 0 <= k < |names| ==> c !in names[k]
    ensures forall x :: x in PadTail(names, w) ==> c !in x
  {
    var padded := PadTail(names, w);
    forall x | x in padded ensures c !in x {
      var k :| 0 <= k < |padded| && padded[k] == x;
      if k > 0 {
        assert x == w + names[k];
      }
    }
  }

  /** The round trip for any one-character separator followed by blank padding. */
  lemma JoinedRoundTripWith(names: seq<string>, c: char, w: string)
    requires |names| > 0 && IsBlank(w) && c !in w
    requires forall k :: 0 <= k < |names| ==> Trimmed(names[k]) && c !in names[k]
    ensures TrimAll(Split(Join(names, [c] + w), [[c]])) == names
  {
    JoinPadded(names, c, w);
    PaddedAvoids(names, c, w);
    SplitJoin(PadTail(names, w), c);
    TrimAllPadded(names, w);
  }

  /**
   * Names joined with ", " read back as themselves, provided the list is
   * non-empty and every name is trimmed and free of commas.
   */
  lemma JoinedNamesRoundTrip(names: seq<string>, column: string)
    requires |names| > 0
    requires forall k :: 0 <= k < |names| ==> Trimmed(names[k]) && ',' !in names[k]
    requires column == Join(names, NameSeparator)
    ensures SplitNames(Some(column)) == names
  {
    SpaceIsBlank();
    JoinedRoundTripWith(names, ',', Space);
  }

  /** Blank padding before every name but the first trims away. */
  lemma TrimAllPaddedRaw(names: seq<string>, w: string)
    requires |names| > 0 && IsBlank(w)
    ensures TrimAll(PadTail(names, w)) == TrimAll(names)
  {
    var padded := PadTail(names, w);
    forall k | 0 <= k < |names| ensures Trim(padded[k]) == Trim(names[k]) {
      if k > 0 {
        TrimSkipsBlankPrefix(w, names[k]);
      }
    }
  }

  /**
   * Names joined with ", " read back as the trimmed names, provided the
   * list is non-empty and every name is free of commas.
   */
  lemma JoinedRawNamesRoundTrip(names: seq<string>, column: string)
    requires |names| > 0
    requires forall k :: 0 <= k < |names| ==> ',' !in names[k]
    requires column == Join(names, NameSeparator)
    ensures SplitNames(Some(column)) == TrimAll(names)
  {
    SpaceIsBlank();
    assert ',' !in Space;
    JoinPadded(names, ',', Space);
    PaddedAvoids(names, ',', Space);
    SplitJoin(PadTail(names, Space), ',');
    TrimAllPaddedRaw(names, Space);
  }
}
