/**
 * The scanner's artist-identity resolver (`MetadataScanner.artistIdMap`
 * and `nextArtistId`): seeding from stored rows, then minting.
 */
module ArtistIds {
  import opened Kt
  import opened Metadata

  /** Name-to-id map and the next id to hand out. */
  datatype Resolver = Resolver(ids: map<string, int>, next: int)

  /** A new scanner: empty map, counter at 1. */
  const Initial := Resolver(map[], 1)

  /** Every id the map holds lies below the counter, and the counter is positive. */
  predicate Valid(r: Resolver) {
    r.next >= 1 && forall n :: n in r.ids ==> r.ids[n] < r.next
  }

  /** `r'` keeps every mapping of `r` and never lowers the counter. */
  predicate Extends(r: Resolver, r': Resolver) {
    && r.ids.Keys <= r'.ids.Keys
    && (forall n :: n in r.ids ==> r'.ids[n] == r.ids[n])
    && r.next <= r'.next
  }

  /** No two names share an id. */
  predicate Injective(m: map<string, int>) {
    forall a, b :: a in m && b in m && a != b ==> m[a] != m[b]
  }

  lemma ExtendsTransitive(r1: Resolver, r2: Resolver, r3: Resolver)
    requires Extends(r1, r2) && Extends(r2, r3)
    ensures Extends(r1, r3)
  {
  }

  // ---------------------------------------------------------------------
  // generateArtistId
  // ---------------------------------------------------------------------

  /**
   * `generateArtistId(name)`: the id already held for `name`, or the
   * counter's value, which is then recorded and the counter advanced.
   */
  function Generate(r: Resolver, name: string): (res: (Resolver, int))
    ensures name in res.0.ids && res.0.ids[name] == res.1
    ensures Extends(r, res.0)
    ensures res.0.ids.Keys == r.ids.Keys + {name}
    ensures name in r.ids ==> res.0 == r
    ensures name !in r.ids ==> res.1 == r.next && res.0.next == r.next + 1
    ensures Valid(r) ==> Valid(res.0)
    ensures Valid(r) && name !in r.ids ==> forall n :: n in r.ids ==> r.ids[n] != res.1
    ensures Valid(r) && Injective(r.ids) ==> Injective(res.0.ids)
  {
    if name in r.ids then (r, r.ids[name])
    else (Resolver(r.ids[name := r.next], r.next + 1), r.next)
  }

  /** Asking twice for one name gives one id and changes nothing the second time. */
  lemma GenerateStable(r: Resolver, name: string)
    ensures var (r1, id1) := Generate(r, name);
            Generate(r1, name) == (r1, id1)
  {
  }

  // ---------------------------------------------------------------------
  // initExistingArtists
  // ---------------------------------------------------------------------

  /**
   * One replayed (name, id) pair: a name already mapped keeps its id and the
   * counter is untouched; a new name takes `id`, and the counter moves past it.
   */
  function Learn(r: Resolver, name: string, id: int): (r': Resolver)
    ensures name in r'.ids && r'.ids.Keys == r.ids.Keys + {name}
    ensures Extends(r, r')
    ensures name in r.ids ==> r' == r
    ensures name !in r.ids ==> r'.ids == r.ids[name := id]
    ensures name !in r.ids ==> r'.next > id && (r'.next == r.next || r'.next == id + 1)
    ensures Valid(r) ==> Valid(r')
  {
    if name in r.ids then r
    else Resolver(r.ids[name := id], if id >= r.next then id + 1 else r.next)
  }

  /** The id carried by the first pair that names `n`, if any pair does. */
  function FirstId(pairs: seq<(string, int)>, n: string): Option<int>
    decreases |pairs|
  {
    if |pairs| == 0 then None
    else if pairs[0].0 == n then Some(pairs[0].1)
    else FirstId(pairs[1..], n)
  }

  /** A name paired somewhere has a first pairing, and that pairing is one of the pairs. */
  lemma {:induction false} FirstIdFound(pairs: seq<(string, int)>, k: int)
    requires 0 <= k < |pairs|
    ensures var f := FirstId(pairs, pairs[k].0);
            f.Some? && (pairs[k].0, f.value) in pairs
    decreases |pairs|
  {
    if pairs[0].0 != pairs[k].0 {
      assert pairs[k] == pairs[1..][k - 1];
      FirstIdFound(pairs[1..], k - 1);
    }
  }

  /** A first pairing is one of the pairs. */
  lemma {:induction false} FirstIdIn(pairs: seq<(string, int)>, n: string)
    ensures FirstId(pairs, n).Some? ==> (n, FirstId(pairs, n).value) in pairs
    decreases |pairs|
  {
    if |pairs| > 0 && pairs[0].0 != n {
      FirstIdIn(pairs[1..], n);
    }
  }

  /** In a concatenation the first list's pairing wins. */
  lemma {:induction false} FirstIdAppend(a: seq<(string, int)>, b: seq<(string, int)>, n: string)
    ensures FirstId(a + b, n) == if FirstId(a, n).Some? then FirstId(a, n) else FirstId(b, n)
    decreases |a|
  {
    if |a| == 0 {
      assert a + b == b;
    } else {
      assert (a + b)[0] == a[0];
      assert (a + b)[1..] == a[1..] + b;
      FirstIdAppend(a[1..], b, n);
    }
  }

  /**
   * The counter after replaying pairs onto `r`: never lowered, above every
   * newly mapped id, and either unchanged or one past a newly mapped id;
   * together, the larger of the old counter and one past the largest new id.
   */
  ghost predicate CounterAfter(r: Resolver, r': Resolver) {
    && r.next <= r'.next
    && (forall n :: n in r'.ids && n !in r.ids ==> r'.ids[n] < r'.next)
    && (r'.next == r.next || exists n :: n in r'.ids && n !in r.ids && r'.next == r'.ids[n] + 1)
  }

  /**
   * `r'` is `r` after replaying `pairs` in order: the names it maps are the
   * old ones and the paired ones; old names keep their ids; each new name
   * has the id of its first pairing.
   */
  ghost predicate LearnedFrom(r: Resolver, pairs: seq<(string, int)>, r': Resolver) {
    && (forall n :: n in r'.ids <==> n in r.ids || FirstId(pairs, n).Some?)
    && (forall n :: n in r.ids ==> r'.ids[n] == r.ids[n])
    && (forall n :: n in r'.ids && n !in r.ids ==> Some(r'.ids[n]) == FirstId(pairs, n))
    && CounterAfter(r, r')
  }

  /** Replaying one pair is learning it. */
  lemma LearnOne(r: Resolver, name: string, id: int)
    ensures LearnedFrom(r, [(name, id)], Learn(r, name, id))
  {
    var pairs := [(name, id)];
    assert pairs[1..] == [];
    forall n ensures FirstId(pairs, n) == if n == name then Some(id) else None {
    }
    var r' := Learn(r, name, id);
    if name !in r.ids {
      assert name in r'.ids && name !in r.ids && r'.ids[name] == id;
    }
  }

  /** Replaying two lists of pairs one after the other is replaying their concatenation. */
  lemma LearnedFromAppend(r: Resolver, a: seq<(string, int)>, r1: Resolver, b: seq<(string, int)>, r2: Resolver)
    requires LearnedFrom(r, a, r1) && LearnedFrom(r1, b, r2)
    ensures LearnedFrom(r, a + b, r2)
  {
    forall n ensures FirstId(a + b, n) == if FirstId(a, n).Some? then FirstId(a, n) else FirstId(b, n) {
      FirstIdAppend(a, b, n);
    }
    if r2.next != r.next {
      if r2.next == r1.next {
        var n :| n in r1.ids && n !in r.ids && r1.next == r1.ids[n] + 1;
        assert n in r2.ids && r2.ids[n] == r1.ids[n];
      } else {
        var n :| n in r2.ids && n !in r1.ids && r2.next == r2.ids[n] + 1;
        assert n !in r.ids;
      }
    }
  }

  lemma ZipCons<A, B>(xs: seq<A>, ys: seq<B>)
    requires |xs| > 0 && |ys| > 0
    ensures Zip(xs, ys) == [(xs[0], ys[0])] + Zip(xs[1..], ys[1..])
  {
  }

  /**
   * `names.zip(ids).forEach { … }`: pairs positionally, ignoring the surplus
   * of the longer list, and replays the pairs in order.
   */
  function LearnPairs(r: Resolver, names: seq<string>, ids: seq<int>): (r': Resolver)
    ensures Extends(r, r')
    ensures Valid(r) ==> Valid(r')
    ensures LearnedFrom(r, Zip(names, ids), r')
    decreases |names|
  {
    if |names| == 0 || |ids| == 0 then r
    else
      var r1 := Learn(r, names[0], ids[0]);
      var r' := LearnPairs(r1, names[1..], ids[1..]);
      LearnOne(r, names[0], ids[0]);
      ZipCons(names, ids);
      LearnedFromAppend(r, [(names[0], ids[0])], r1, Zip(names[1..], ids[1..]), r');
      r'
  }

  /** The names a stored row contributes: `artistNames?.split(",")?.map { it.trim() } ?: emptyList()`. */
  function SeedNames(row: SongMetadata): seq<string> {
    SplitNames(row.artistNames)
  }

  /** The ids a stored row contributes: `artistIds?.split(",")?.mapNotNull { it.trim().toLongOrNull() } ?: emptyList()`. */
  function SeedIds(row: SongMetadata): seq<int> {
    match row.artistIds
    case None => []
    case Some(s) => ParseLongs(Split(s, CommaDelimiter))
  }

  /** The (name, id) pairs one stored row replays. */
  function RowPairs(row: SongMetadata): seq<(string, int)> {
    Zip(SeedNames(row), SeedIds(row))
  }

  /** The pairs a table replays, row after row. */
  function StoredPairs(rows: Table): seq<(string, int)>
    decreases |rows|
  {
    if |rows| == 0 then [] else RowPairs(rows[0]) + StoredPairs(rows[1..])
  }

  /** A table of one row replays that row's pairs. */
  lemma StoredPairsOne(row: SongMetadata)
    ensures StoredPairs([row]) == RowPairs(row)
  {
    assert [row][1..] == [];
    assert RowPairs(row) + [] == RowPairs(row);
  }

  /** Adding a row at the end adds its pairs at the end. */
  lemma {:induction false} StoredPairsSnoc(rows: Table, row: SongMetadata)
    ensures StoredPairs(rows + [row]) == StoredPairs(rows) + RowPairs(row)
    decreases |rows|
  {
    if |rows| == 0 {
      assert rows + [row] == [row];
      assert [row][1..] == [];
      assert RowPairs(row) + [] == RowPairs(row);
    } else {
      assert (rows + [row])[0] == rows[0];
      assert (rows + [row])[1..] == rows[1..] + [row];
      StoredPairsSnoc(rows[1..], row);
      ConcatAssoc(RowPairs(rows[0]), StoredPairs(rows[1..]), RowPairs(row));
    }
  }

  /** The rows in order, each row's pairs in order: the first pairing of a name across the table wins. */
  function SeedFrom(r: Resolver, rows: Table): (r': Resolver)
    ensures Extends(r, r')
    ensures Valid(r) ==> Valid(r')
    ensures LearnedFrom(r, StoredPairs(rows), r')
    decreases |rows|
  {
    if |rows| == 0 then r
    else
      var r1 := LearnPairs(r, SeedNames(rows[0]), SeedIds(rows[0]));
      var r' := SeedFrom(r1, rows[1..]);
      LearnedFromAppend(r, RowPairs(rows[0]), r1, StoredPairs(rows[1..]), r');
      r'
  }

  /** `initExistingArtists()` on a fresh scanner. */
  function Seed(rows: Table): (r: Resolver)
    ensures Valid(r)
    ensures LearnedFrom(Initial, StoredPairs(rows), r)
  {
    SeedFrom(Initial, rows)
  }

  /** Every name is paired with one id wherever it occurs. */
  predicate Functional(pairs: seq<(string, int)>) {
    forall i, j :: 0 <= i < |pairs| && 0 <= j < |pairs| && pairs[i].0 == pairs[j].0 ==> pairs[i].1 == pairs[j].1
  }

  /** The map holds every pair. */
  predicate Agrees(pairs: seq<(string, int)>, m: map<string, int>)
    decreases |pairs|
  {
    |pairs| == 0 || (pairs[0].0 in m && m[pairs[0].0] == pairs[0].1 && Agrees(pairs[1..], m))
  }

  /** `Agrees` pair by pair. */
  lemma {:induction false} AgreesAt(pairs: seq<(string, int)>, m: map<string, int>)
    ensures Agrees(pairs, m) <==> forall k :: 0 <= k < |pairs| ==> pairs[k].0 in m && m[pairs[k].0] == pairs[k].1
    decreases |pairs|
  {
    if |pairs| > 0 {
      AgreesAt(pairs[1..], m);
      assert forall k :: 1 <= k < |pairs| ==> pairs[k] == pairs[1..][k - 1];
    }
  }

  /**
   * Replaying pairs that never give one name two ids, none of them naming
   * a name already mapped, adds exactly those pairs: each paired name under
   * its id, and no new mapping that is not a pair.
   */
  lemma LearnedAgrees(r: Resolver, pairs: seq<(string, int)>, r': Resolver)
    requires LearnedFrom(r, pairs, r') && Functional(pairs)
    requires forall k :: 0 <= k < |pairs| ==> pairs[k].0 !in r.ids
    ensures Agrees(pairs, r'.ids)
    ensures forall n :: n in r'.ids && n !in r.ids ==> (n, r'.ids[n]) in pairs
  {
    forall k | 0 <= k < |pairs| ensures pairs[k].0 in r'.ids && r'.ids[pairs[k].0] == pairs[k].1 {
      var n := pairs[k].0;
      FirstIdFound(pairs, k);
      var v := FirstId(pairs, n).value;
      var i :| 0 <= i < |pairs| && pairs[i] == (n, v);
    }
    AgreesAt(pairs, r'.ids);
    forall n | n in r'.ids && n !in r.ids ensures (n, r'.ids[n]) in pairs {
      FirstIdIn(pairs, n);
    }
  }

  /** Pairs a map agrees with never give one name two ids. */
  lemma AgreesFunctional(pairs: seq<(string, int)>, m: map<string, int>)
    requires Agrees(pairs, m)
    ensures Functional(pairs)
  {
    AgreesAt(pairs, m);
  }

  /** Surplus names or ids beyond the shorter list are ignored. */
  lemma {:induction false} ZipIgnoresSurplus(r: Resolver, names: seq<string>, ids: seq<int>)
    ensures var m := if |names| < |ids| then |names| else |ids|;
            LearnPairs(r, names, ids) == LearnPairs(r, names[..m], ids[..m])
    decreases |names|
  {
    var m := if |names| < |ids| then |names| else |ids|;
    if m > 0 {
      assert names[..m][0] == names[0] && ids[..m][0] == ids[0];
      assert names[..m][1..] == names[1..][..m - 1];
      assert ids[..m][1..] == ids[1..][..m - 1];
      ZipIgnoresSurplus(Learn(r, names[0], ids[0]), names[1..], ids[1..]);
    }
  }

  lemma SplitCommaPair(x: string, y: string)
    requires ',' !in x && ',' !in y
    ensures Split(Join([x, y], IdSeparator), CommaDelimiter) == [x, y]
  {
    assert IdSeparator == [','] && CommaDelimiter == [[',']];
    SplitJoin([x, y], ',');
  }

  lemma ParseDroppedThenLong(x: string, id: int)
    requires ToLongOrNull(Trim(x)) == None
    ensures ParseLongs([x, LongToString(id)]) == [id]
  {
    var s := LongToString(id);
    ParsePrintedLong(id);
    ParseLongsSkip([x, s]);
    assert [x, s][1..] == [s];
    ParseLongsCons([s], id);
    assert [s][1..] == [];
  }

  /** Names written as "a, b" read back as the two trimmed names. */
  lemma SeedNamesOfPair(row: SongMetadata, a: string, b: string)
    requires Trimmed(a) && Trimmed(b) && ',' !in a && ',' !in b
    requires row.artistNames == Some(Join([a, b], NameSeparator))
    ensures SeedNames(row) == [a, b]
  {
    JoinedNamesRoundTrip([a, b], row.artistNames.value);
  }

  /** Ids written as "x,n" with an unparseable `x` read back as `[n]` alone. */
  lemma SeedIdsOfDropped(row: SongMetadata, x: string, id: int)
    requires ',' !in x && ToLongOrNull(Trim(x)) == None
    requires row.artistIds == Some(Join([x, LongToString(id)], IdSeparator))
    ensures SeedIds(row) == [id]
  {
    var num := LongToString(id);
    assert ',' !in num by {
      forall i | 0 <= i < |num| ensures num[i] != ',' {
        assert num[i] == '-' || IsDigit(num[i]);
      }
    }
    SplitCommaPair(x, num);
    ParseDroppedThenLong(x, id);
  }

  /**
   * A non-numeric id token is dropped before pairing, so the following id
   * shifts onto the earlier name: a row with names "a, b" and ids "x,7",
   * where "x" does not parse, maps a to 7 and leaves b unmapped.
   */
  lemma DroppedTokenShiftsIds(row: SongMetadata, a: string, b: string, x: string, id: int)
    requires Trimmed(a) && Trimmed(b) && ',' !in a && ',' !in b
    requires ',' !in x && ToLongOrNull(Trim(x)) == None
    requires row.artistNames == Some(Join([a, b], NameSeparator))
    requires row.artistIds == Some(Join([x, LongToString(id)], IdSeparator))
    ensures var r := Seed([row]);
            r.ids == map[a := id] && r.next == (if id >= 1 then id + 1 else 1)
  {
    SeedNamesOfPair(row, a, b);
    SeedIdsOfDropped(row, x, id);
    SeedOneRow(row);
    LearnTwoNamesOneId(a, b, id);
  }

  /** Seeding from a one-row table replays that row's pairs on a fresh resolver. */
  lemma SeedOneRow(row: SongMetadata)
    ensures Seed([row]) == LearnPairs(Initial, SeedNames(row), SeedIds(row))
  {
    var r1 := LearnPairs(Initial, SeedNames(row), SeedIds(row));
    assert [row][1..] == [];
    assert SeedFrom(Initial, [row]) == SeedFrom(r1, []);
  }

  /** Two names and one id: only the first name is learned. */
  lemma LearnTwoNamesOneId(a: string, b: string, id: int)
    ensures LearnPairs(Initial, [a, b], [id]) == Learn(Initial, a, id)
  {
    assert [id][1..] == [];
  }

  /** When every name has one id, the first pairing of a name is that id. */
  lemma FunctionalFirstId(pairs: seq<(string, int)>, n: string, id: int)
    requires Functional(pairs) && (n, id) in pairs
    ensures FirstId(pairs, n) == Some(id)
  {
    var k :| 0 <= k < |pairs| && pairs[k] == (n, id);
    FirstIdFound(pairs, k);
    var f := FirstId(pairs, n).value;
    var k2 :| 0 <= k2 < |pairs| && pairs[k2] == (n, f);
  }

  /** A pair is stored exactly when some row of the table carries it. */
  lemma {:induction false} StoredPairsIn(rows: Table, p: (string, int))
    ensures p in StoredPairs(rows) <==> exists row :: row in rows && p in RowPairs(row)
    decreases |rows|
  {
    if |rows| > 0 {
      StoredPairsIn(rows[1..], p);
      assert forall row :: row in rows <==> row == rows[0] || row in rows[1..];
    }
  }

  /**
   * Two resolvers learned from scratch with the same map have the same
   * counter: it is 1 or one past a mapped id, and above every mapped id.
   */
  lemma SameMapSameCounter(r: Resolver, r': Resolver)
    requires r.ids == r'.ids && CounterAfter(Initial, r) && CounterAfter(Initial, r')
    ensures r.next == r'.next
  {
  }

  /**
   * Seeding from scratch depends only on which pairs the table stores, not
   * on their order, as long as every name is stored with one id.
   */
  lemma SeedBySamePairs(rows: Table, rows': Table)
    requires forall p :: p in StoredPairs(rows) <==> p in StoredPairs(rows')
    requires Functional(StoredPairs(rows))
    ensures Seed(rows) == Seed(rows')
  {
    var ps, ps' := StoredPairs(rows), StoredPairs(rows');
    var r, r' := Seed(rows), Seed(rows');
    FunctionalSamePairs(ps, ps');
    LearnedSameMap(ps, r, ps', r');
    SameMapSameCounter(r, r');
  }

  /** Whether every name has one id depends only on which pairs there are. */
  lemma FunctionalSamePairs(ps: seq<(string, int)>, ps': seq<(string, int)>)
    requires forall p :: p in ps <==> p in ps'
    requires Functional(ps)
    ensures Functional(ps')
  {
    forall i, j | 0 <= i < |ps'| && 0 <= j < |ps'| && ps'[i].0 == ps'[j].0 ensures ps'[i].1 == ps'[j].1 {
      assert ps'[i] in ps && ps'[j] in ps;
      var i0 :| 0 <= i0 < |ps| && ps[i0] == ps'[i];
      var j0 :| 0 <= j0 < |ps| && ps[j0] == ps'[j];
    }
  }

  /** Replaying the same pairs, each name with one id, from scratch learns the same map. */
  lemma LearnedSameMap(ps: seq<(string, int)>, r: Resolver, ps': seq<(string, int)>, r': Resolver)
    requires forall p :: p in ps <==> p in ps'
    requires Functional(ps) && Functional(ps')
    requires LearnedFrom(Initial, ps, r) && LearnedFrom(Initial, ps', r')
    ensures r.ids == r'.ids
  {
    forall n ensures (n in r.ids <==> n in r'.ids) && (n in r.ids ==> r.ids[n] == r'.ids[n]) {
      FirstIdIn(ps, n);
      FirstIdIn(ps', n);
      if FirstId(ps, n).Some? {
        FunctionalFirstId(ps', n, FirstId(ps, n).value);
      }
      if FirstId(ps', n).Some? {
        FunctionalFirstId(ps, n, FirstId(ps', n).value);
      }
    }
  }

  /**
   * The order in which the stored rows are listed does not change the seeded
   * resolver when every name is stored with one id.
   */
  lemma SeedIgnoresRowOrder(rows: Table, rows': Table)
    requires multiset(rows) == multiset(rows')
    requires Functional(StoredPairs(rows))
    ensures Seed(rows) == Seed(rows')
  {
    forall p ensures p in StoredPairs(rows) <==> p in StoredPairs(rows') {
      StoredPairsIn(rows, p);
      StoredPairsIn(rows', p);
      assert forall row :: row in rows <==> row in rows' by {
        forall row ensures row in rows <==> row in rows' {
          assert row in rows <==> row in multiset(rows);
          assert row in rows' <==> row in multiset(rows');
        }
      }
    }
    SeedBySamePairs(rows, rows');
  }
}
