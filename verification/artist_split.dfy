/**
 * How `scanIfNotExists` turns the ARTIST tag values into the artist-name
 * list it mints ids for (the `splitNames` value).
 *
 * The configured delimiters are escaped and joined into one alternation, so
 * each one matches literally; the split is modelled as a literal
 * multi-delimiter split in which, at each position, the first delimiter of
 * the list that matches there wins.
 */
module ArtistSplit {
  import opened Kt

  /**
   * The alternatives of the delimiter pattern: the configured delimiters that
   * are not blank, each kept once at its first occurrence.
   */
  function Pattern(configured: seq<string>): (p: seq<string>)
    ensures NoEmptyDelimiter(p) && NoDup(p)
    ensures forall d :: d in p <==> d in configured && !IsBlank(d)
  {
    var nb := NotBlank(configured);
    var p := Distinct(nb);
    assert forall d :: d in p <==> d in nb by {
      forall d | d in p ensures d in nb {
        var i :| 0 <= i < |p| && p[i] == d;
      }
      forall d | d in nb ensures d in p {
        var i :| 0 <= i < |nb| && nb[i] == d;
      }
    }
    p
  }

  /** The pattern lists the kept delimiters in the order they were configured. */
  lemma PatternKeepsOrder(configured: seq<string>)
    ensures FirstOccurrenceOrder(configured, Pattern(configured))
  {
    var nb := NotBlank(configured);
    var p := Pattern(configured);
    assert p == Distinct(nb);
    DistinctKeepsOrder(nb);
    forall i, j | 0 <= i < j < |p| ensures IndexOf(configured, p[i]) < IndexOf(configured, p[j]) {
      assert p[i] in nb && p[j] in nb;
      NotBlankKeepsOrder(configured, p[i], p[j]);
    }
  }

  /**
   * `split` on the empty pattern, which is what an all-blank delimiter list
   * compiles to: the empty match before every character and at the end
   * gives an empty first piece, one piece per character and an empty last
   * piece.
   */
  function CharPieces(s: string): (r: seq<string>)
    ensures |r| == |s| + 2 && r[0] == [] && r[|s| + 1] == []
    ensures forall k :: 0 <= k < |s| ==> r[k + 1] == [s[k]]
  {
    [[]] + seq(|s|, k requires 0 <= k < |s| => [s[k]]) + [[]]
  }

  /**
   * `artist.split(delimiterRegex)`: on a non-empty pattern the pieces hold no
   * delimiter; on the empty pattern every character is a piece of its own.
   */
  function SplitOn(s: string, p: seq<string>): (r: seq<string>)
    requires NoEmptyDelimiter(p)
    ensures |r| >= 1
    ensures |p| > 0 ==> AvoidsDelimiters(r, p)
    ensures |p| == 0 ==> |r| == |s| + 2 && r[0] == [] && r[|s| + 1] == []
                         && forall k :: 0 <= k < |s| ==> r[k + 1] == [s[k]]
  {
    if |p| == 0 then CharPieces(s) else Split(s, p)
  }

  /**
   * Where the split of one value first cuts: at the leftmost position where
   * an alternative of the pattern occurs, on the first listed alternative
   * occurring there. The pieces after the first are the split of what
   * follows that match.
   */
  lemma SplitOnFirstCut(s: string, p: seq<string>, i: int, k: int)
    requires NoEmptyDelimiter(p)
    requires 0 <= k < |p| && OccursAt(p[k], s, i)
    requires forall j, d :: 0 <= j < i && d in p ==> !OccursAt(d, s, j)
    requires forall m :: 0 <= m < k ==> !OccursAt(p[m], s, i)
    ensures SplitOn(s, p) == [s[..i]] + SplitOn(s[i + |p[k]|..], p)
  {
    SplitFirstCut(s, p, i, k);
  }

  /** On a non-empty pattern, a value in which no alternative occurs is its own single piece. */
  lemma SplitOnNoCut(s: string, p: seq<string>)
    requires NoEmptyDelimiter(p) && |p| > 0
    requires forall j, d :: 0 <= j < |s| && d in p ==> !OccursAt(d, s, j)
    ensures SplitOn(s, p) == [s]
  {
    SplitNoCut(s, p);
  }

  /** `x` is a trimmed piece of one of the tag values. */
  predicate IsPiece(x: string, values: seq<string>, p: seq<string>)
    requires NoEmptyDelimiter(p)
  {
    exists i :: 0 <= i < |values| && x in TrimAll(SplitOn(values[i], p))
  }

  /** `flatMap { artist -> artist.split(delimiterRegex).map { it.trim() } }`. */
  function Pieces(values: seq<string>, p: seq<string>): (r: seq<string>)
    requires NoEmptyDelimiter(p)
    ensures forall x :: x in r <==> IsPiece(x, values, p)
    decreases |values|
  {
    if |values| == 0 then []
    else
      var head := TrimAll(SplitOn(values[0], p));
      var tail := Pieces(values[1..], p);
      IsPieceCons(values, p);
      head + tail
  }

  /** A piece of a non-empty list is a piece of its first value or of the rest. */
  lemma IsPieceCons(values: seq<string>, p: seq<string>)
    requires NoEmptyDelimiter(p) && |values| > 0
    ensures forall x :: IsPiece(x, values, p) <==> x in TrimAll(SplitOn(values[0], p)) || IsPiece(x, values[1..], p)
  {
    forall x ensures IsPiece(x, values, p) <==> x in TrimAll(SplitOn(values[0], p)) || IsPiece(x, values[1..], p) {
      SomeCons(values, v => x in TrimAll(SplitOn(v, p)));
    }
  }

  /** Some element of a non-empty list satisfies `f` exactly when the first does or some later one does. */
  lemma SomeCons<T>(xs: seq<T>, f: T -> bool)
    requires |xs| > 0
    ensures (exists i :: 0 <= i < |xs| && f(xs[i])) <==> f(xs[0]) || exists i :: 0 <= i < |xs[1..]| && f(xs[1..][i])
  {
    if exists i :: 0 <= i < |xs| && f(xs[i]) {
      var i :| 0 <= i < |xs| && f(xs[i]);
      if i > 0 {
        assert xs[1..][i - 1] == xs[i];
      }
    }
    if exists i :: 0 <= i < |xs[1..]| && f(xs[1..][i]) {
      var i :| 0 <= i < |xs[1..]| && f(xs[1..][i]);
      assert xs[i + 1] == xs[1..][i];
    }
  }

  /** One more value adds its trimmed pieces after all earlier ones. */
  lemma {:induction false} PiecesSnoc(values: seq<string>, v: string, p: seq<string>)
    requires NoEmptyDelimiter(p)
    ensures Pieces(values + [v], p) == Pieces(values, p) + TrimAll(SplitOn(v, p))
    decreases |values|
  {
    var last := TrimAll(SplitOn(v, p));
    if |values| == 0 {
      assert [v][1..] == [];
      assert Pieces([v], p) == last + [];
      assert values + [v] == [v];
    } else {
      var head := TrimAll(SplitOn(values[0], p));
      assert (values + [v])[0] == values[0];
      assert (values + [v])[1..] == values[1..] + [v];
      PiecesSnoc(values[1..], v, p);
      ConcatAssoc(head, Pieces(values[1..], p), last);
    }
  }

  /** Every piece is the trim of something, so it carries no surrounding whitespace. */
  lemma PiecesTrimmed(values: seq<string>, p: seq<string>, x: string)
    requires NoEmptyDelimiter(p)
    ensures x in Pieces(values, p) ==> Trimmed(x)
  {
    if x !in Pieces(values, p) {
      return;
    }
    var i :| 0 <= i < |values| && x in TrimAll(SplitOn(values[i], p));
    var pieces := TrimAll(SplitOn(values[i], p));
    var k :| 0 <= k < |pieces| && pieces[k] == x;
    assert x == Trim(SplitOn(values[i], p)[k]);
  }

  /** Whether the split branch runs: `!artistDelimiters.isNullOrEmpty()`. */
  predicate SplitEnabled(configured: Option<seq<string>>) {
    configured.Some? && |configured.value| > 0
  }

  /**
   * `splitNames`: with a non-empty configured list, the trimmed, non-empty
   * pieces of every ARTIST value, each kept once at its first occurrence (a
   * missing tag reads as no values); otherwise the tag's values as they are.
   */
  function SplitArtists(artist: Option<seq<string>>, configured: Option<seq<string>>): (r: Option<seq<string>>)
    ensures SplitEnabled(configured) ==> r.Some? && NoDup(r.value)
    ensures SplitEnabled(configured) ==>
              forall x :: x in r.value <==> x != [] && IsPiece(x, artist.OrElse([]), Pattern(configured.value))
    ensures SplitEnabled(configured) ==>
              forall k :: 0 <= k < |r.value| ==> r.value[k] != [] && Trimmed(r.value[k])
    ensures !SplitEnabled(configured) ==> r == artist
  {
    if SplitEnabled(configured) then
      var p := Pattern(configured.value);
      var all := Pieces(artist.OrElse([]), p);
      var kept := NonEmpty(all);
      var names := Distinct(kept);
      DistinctSameElements(kept);
      forall k | 0 <= k < |names| ensures names[k] != [] && Trimmed(names[k]) {
        PiecesTrimmed(artist.OrElse([]), p, names[k]);
      }
      Some(names)
    else artist
  }

  /**
   * With the split branch running, the names come in the order in which
   * they first occur among the pieces.
   */
  lemma SplitArtistsKeepsOrder(artist: Option<seq<string>>, configured: Option<seq<string>>)
    ensures SplitEnabled(configured) ==>
              FirstOccurrenceOrder(Pieces(artist.OrElse([]), Pattern(configured.value)),
                                   SplitArtists(artist, configured).value)
  {
    if SplitEnabled(configured) {
      var all := Pieces(artist.OrElse([]), Pattern(configured.value));
      var kept := NonEmpty(all);
      var names := Distinct(kept);
      assert SplitArtists(artist, configured).value == names;
      DistinctKeepsOrder(kept);
      DistinctSameElements(kept);
      forall i, j | 0 <= i < j < |names| ensures IndexOf(all, names[i]) < IndexOf(all, names[j]) {
        assert names[i] in kept && names[j] in kept;
        NonEmptyKeepsOrder(all, names[i], names[j]);
      }
    }
  }

  /** A character that no ARTIST value contains appears in no piece of the empty-pattern split. */
  lemma CharPiecesKeepOut(s: string, c: char)
    requires c !in s
    ensures forall x :: x in CharPieces(s) ==> c !in x
  {
    var r := CharPieces(s);
    forall x | x in r ensures c !in x {
      var k :| 0 <= k < |r| && r[k] == x;
      if 0 < k <= |s| {
        assert x == [s[k - 1]];
      }
    }
  }

  /** The same for one value split on a pattern, before trimming. */
  lemma SplitOnKeepsOut(s: string, p: seq<string>, c: char)
    requires NoEmptyDelimiter(p)
    requires c !in s
    ensures forall x :: x in TrimAll(SplitOn(s, p)) ==> c !in x
  {
    if |p| == 0 {
      CharPiecesKeepOut(s, c);
    } else {
      SplitKeepsOut(s, p, c);
    }
    TrimKeepsOut(SplitOn(s, p), c);
  }

  /** Trimming adds no character. */
  lemma TrimKeepsOut(pieces: seq<string>, c: char)
    requires forall x :: x in pieces ==> c !in x
    ensures forall x :: x in TrimAll(pieces) ==> c !in x
  {
    forall x | x in TrimAll(pieces) ensures c !in x {
      var j :| 0 <= j < |pieces| && TrimAll(pieces)[j] == x;
      assert pieces[j] in pieces;
    }
  }

  lemma {:induction false} PiecesKeepOut(values: seq<string>, p: seq<string>, c: char)
    requires NoEmptyDelimiter(p)
    requires forall i :: 0 <= i < |values| ==> c !in values[i]
    ensures forall x :: x in Pieces(values, p) ==> c !in x
    decreases |values|
  {
    if |values| > 0 {
      SplitOnKeepsOut(values[0], p, c);
      assert forall i :: 0 <= i < |values| - 1 ==> values[1..][i] == values[i + 1];
      PiecesKeepOut(values[1..], p, c);
    }
  }

  /**
   * A character that no ARTIST value contains appears in no resulting name,
   * whichever branch runs.
   */
  lemma SplitArtistsKeepsOut(artist: Option<seq<string>>, configured: Option<seq<string>>, c: char)
    requires artist.Some? ==> forall i :: 0 <= i < |artist.value| ==> c !in artist.value[i]
    ensures var r := SplitArtists(artist, configured);
            r.Some? ==> forall k :: 0 <= k < |r.value| ==> c !in r.value[k]
  {
    if SplitEnabled(configured) {
      var values := artist.OrElse([]);
      var p := Pattern(configured.value);
      PiecesKeepOut(values, p, c);
      var r := SplitArtists(artist, configured);
      forall k | 0 <= k < |r.value| ensures c !in r.value[k] {
        var x := r.value[k];
        assert x in r.value;
        assert IsPiece(x, values, p);
        assert x in Pieces(values, p);
      }
    }
  }

  /** One non-blank single-character delimiter is a pattern of itself. */
  lemma SingleCharPattern(c: char)
    requires !IsWhitespace(c)
    ensures Pattern([[c]]) == [[c]]
  {
    assert [c][0] == c;
    assert !IsBlank([c]);
    assert NotBlank([[c]]) == [[c]];
  }

  /** A name padded with whitespace on both sides trims back to itself. */
  lemma TrimBothSides(w: string, b: string)
    requires IsBlank(w) && Trimmed(b)
    ensures Trim(w + b + w) == b
  {
    TrimSkipsBlankSuffix(w + b, w);
    TrimAfterBlank(w, b);
  }

  lemma TrimThree(a: string, b: string, w: string)
    requires IsBlank(w) && Trimmed(a) && Trimmed(b)
    ensures TrimAll([a, w + b + w, w + a]) == [a, b, a]
  {
    var xs := [a, w + b + w, w + a];
    TrimAllThree(xs);
    TrimOfTrimmed(a);
    TrimBothSides(w, b);
    TrimAfterBlank(w, a);
  }

  lemma TrimAllThree(xs: seq<string>)
    requires |xs| == 3
    ensures TrimAll(xs) == [Trim(xs[0]), Trim(xs[1]), Trim(xs[2])]
  {
    SeqOfThree(TrimAll(xs), Trim(xs[0]), Trim(xs[1]), Trim(xs[2]));
  }

  lemma SeqOfThree<T>(r: seq<T>, a: T, b: T, c: T)
    requires |r| == 3 && r[0] == a && r[1] == b && r[2] == c
    ensures r == [a, b, c]
  {
  }

  lemma DistinctABA(a: string, b: string)
    requires a != b
    ensures Distinct([a, b, a]) == [a, b]
  {
    assert [a, b, a][..2] == [a, b];
    assert Distinct([a, b]) == [a, b];
  }

  /** The split branch: pattern, flat map, filter, dedupe. */
  lemma SplitBranch(artist: Option<seq<string>>, configured: Option<seq<string>>)
    requires SplitEnabled(configured)
    ensures SplitArtists(artist, configured)
              == Some(Distinct(NonEmpty(Pieces(artist.OrElse([]), Pattern(configured.value)))))
  {
  }

  /** One value under one single-character delimiter. */
  lemma SplitArtistsSingle(v: string, c: char)
    requires !IsWhitespace(c)
    ensures SplitArtists(Some([v]), Some([[c]])) == Some(Distinct(NonEmpty(TrimAll(Split(v, [[c]])))))
  {
    SplitBranch(Some([v]), Some([[c]]));
    SingleCharPattern(c);
    PiecesOne(v, [[c]]);
  }

  /** One value's flat map is its own trimmed pieces. */
  lemma PiecesOne(v: string, p: seq<string>)
    requires NoEmptyDelimiter(p)
    ensures Pieces([v], p) == TrimAll(SplitOn(v, p))
  {
    PiecesSnoc([], v, p);
    assert [] + [v] == [v];
  }

  lemma NonEmptyABA(a: string, b: string)
    requires a != [] && b != []
    ensures NonEmpty([a, b, a]) == [a, b, a]
  {
    assert [a][1..] == [];
    assert NonEmpty([a]) == [a];
    assert [b, a][1..] == [a];
    assert NonEmpty([b, a]) == [b, a];
    assert [a, b, a][1..] == [b, a];
  }

  /**
   * The value "a; b ; a" under the delimiter ";" (any non-blank character
   * absent from both names, with any whitespace `w` as padding) yields
   * [a, b]: pieces are trimmed and the repeated name is kept once, at its
   * first position.
   */
  lemma SplitTrimDedupe(a: string, b: string, w: string, c: char)
    requires Trimmed(a) && Trimmed(b) && a != [] && b != [] && a != b
    requires IsBlank(w) && !IsWhitespace(c) && c !in a && c !in b
    ensures SplitArtists(Some([Join([a, w + b + w, w + a], [c])]), Some([[c]])) == Some([a, b])
  {
    var xs := [a, w + b + w, w + a];
    assert c !in w;
    assert forall x :: x in xs ==> c !in x;
    SplitJoin(xs, c);
    SplitArtistsSingle(Join(xs, [c]), c);
    TrimThree(a, b, w);
    NonEmptyABA(a, b);
    DistinctABA(a, b);
  }
}
