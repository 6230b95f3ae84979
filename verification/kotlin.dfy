/**
 * The pieces of Kotlin's standard library that the metadata path relies on,
 * stated as pure functions: nullable values and the elvis operator,
 * `isWhitespace`/`trim`/`isBlank`, literal `split` and `joinToString`,
 * order-preserving `distinct`, `indexOf`, and decimal `Long` printing and
 * `toLongOrNull` parsing.
 */
module Kt {

  /** A Kotlin nullable value `T?`. */
  datatype Option<+T> = None | Some(value: T) {
    /** The elvis operator `this ?: default`. */
    function OrElse(default: T): T {
      match this
      case Some(v) => v
      case None => default
    }
  }

  /** A call that either returns or throws (only the exception's name is kept). */
  datatype Outcome<+T> = Returned(value: T) | Thrown(exception: string)

  // ---------------------------------------------------------------------
  // Whitespace and trimming
  // ---------------------------------------------------------------------

  /**
   * `Char.isWhitespace()` on the JVM: `Character.isWhitespace` or
   * `Character.isSpaceChar` (tab..carriage return, the four information
   * separators, and the space, line and paragraph separators).
   */
  predicate IsWhitespace(c: char) {
    var n := c as int;
    || (0x09 <= n <= 0x0D) || (0x1C <= n <= 0x20) || n == 0xA0 || n == 0x1680
    || (0x2000 <= n <= 0x200A) || n == 0x2028 || n == 0x2029 || n == 0x202F
    || n == 0x205F || n == 0x3000
  }

  /** `CharSequence.isBlank()`: empty or whitespace only. */
  predicate IsBlank(s: string) {
    forall i :: 0 <= i < |s| ==> IsWhitespace(s[i])
  }

  /** Drops the longest whitespace prefix. */
  function TrimStart(s: string): (r: string)
    ensures |r| <= |s| && r == s[|s| - |r|..]
    ensures IsBlank(s[..|s| - |r|])
    ensures |r| > 0 ==> !IsWhitespace(r[0])
  {
    if |s| > 0 && IsWhitespace(s[0]) then TrimStart(s[1..]) else s
  }

  /** Drops the longest whitespace suffix. */
  function TrimEnd(s: string): (r: string)
    ensures |r| <= |s| && r == s[..|r|]
    ensures IsBlank(s[|r|..])
    ensures |r| > 0 ==> !IsWhitespace(r[|r| - 1])
  {
    if |s| > 0 && IsWhitespace(s[|s| - 1]) then TrimEnd(s[..|s| - 1]) else s
  }

  lemma BlankConcat(a: string, b: string)
    ensures IsBlank(a + b) <==> IsBlank(a) && IsBlank(b)
  {
    assert forall i :: 0 <= i < |a| ==> a[i] == (a + b)[i];
    assert forall i :: 0 <= i < |b| ==> b[i] == (a + b)[|a| + i];
  }

  lemma TrimStartEmpty(s: string)
    ensures TrimStart(s) == [] <==> IsBlank(s)
  {
    var t := TrimStart(s);
    assert s == s[..|s| - |t|] + t;
    BlankConcat(s[..|s| - |t|], t);
    if |t| > 0 {
      assert !IsWhitespace(t[0]);
    }
  }

  lemma TrimEndEmpty(t: string)
    ensures TrimEnd(t) == [] <==> IsBlank(t)
  {
    var r := TrimEnd(t);
    assert t == r + t[|r|..];
    BlankConcat(r, t[|r|..]);
    if |r| > 0 {
      assert !IsWhitespace(r[|r| - 1]);
    }
  }

  /** No whitespace at either end: what `trim()` produces. */
  predicate Trimmed(s: string) {
    |s| == 0 || (!IsWhitespace(s[0]) && !IsWhitespace(s[|s| - 1]))
  }

  /**
   * `String.trim()`: the result has no whitespace at either end and is
   * empty exactly when `s` is blank.
   */
  function Trim(s: string): (r: string)
    ensures |r| > 0 ==> !IsWhitespace(r[0]) && !IsWhitespace(r[|r| - 1])
    ensures r == [] <==> IsBlank(s)
  {
    TrimBothEnds(s);
    TrimEnd(TrimStart(s))
  }

  lemma TrimBothEnds(s: string)
    ensures var r := TrimEnd(TrimStart(s));
            && (|r| > 0 ==> !IsWhitespace(r[0]) && !IsWhitespace(r[|r| - 1]))
            && (r == [] <==> IsBlank(s))
  {
    var t := TrimStart(s);
    var r := TrimEnd(t);
    TrimStartEmpty(s);
    TrimEndEmpty(t);
    if |r| > 0 {
      assert r[0] == t[0];
    } else {
      assert IsBlank(t);
    }
  }

  /** `r` is a slice of `s` with nothing but whitespace cut off on either side. */
  predicate InfixOf(r: string, s: string) {
    exists i, j :: 0 <= i <= j <= |s| && r == s[i..j] && IsBlank(s[..i]) && IsBlank(s[j..])
  }

  /**
   * `trim()` keeps a slice of its input and cuts nothing but whitespace on
   * either side; with the two ends of the result not being whitespace, this
   * pins the result down.
   */
  lemma TrimIsInfix(s: string)
    ensures InfixOf(Trim(s), s)
  {
    var t := TrimStart(s);
    SliceOfSlice(s, t, TrimEnd(t));
  }

  lemma SliceOfSlice(s: string, t: string, r: string)
    requires |t| <= |s| && t == s[|s| - |t|..] && IsBlank(s[..|s| - |t|])
    requires |r| <= |t| && r == t[..|r|] && IsBlank(t[|r|..])
    ensures InfixOf(r, s)
  {
    var i := |s| - |t|;
    var j := i + |r|;
    assert r == s[i..j];
    assert s[j..] == t[|r|..];
  }

  /** Trimming adds no character: one absent from `s` is absent from its trim. */
  lemma TrimKeepsOut(s: string, c: char)
    requires c !in s
    ensures c !in Trim(s)
  {
    var t := TrimStart(s);
    assert forall x :: x in Trim(s) ==> x in t;
  }

  /** A string with no whitespace at either end is its own trim. */
  lemma TrimOfTrimmed(s: string)
    requires Trimmed(s)
    ensures Trim(s) == s
  {
  }

  /** Trimming twice is trimming once. */
  lemma TrimIdempotent(s: string)
    ensures Trim(Trim(s)) == Trim(s)
  {
    TrimOfTrimmed(Trim(s));
  }

  lemma {:induction false} TrimStartSkipsBlank(w: string, s: string)
    requires IsBlank(w)
    ensures TrimStart(w + s) == TrimStart(s)
    decreases |w|
  {
    if |w| > 0 {
      assert IsWhitespace(w[0]);
      assert (w + s)[0] == w[0];
      assert (w + s)[1..] == w[1..] + s;
      assert IsBlank(w[1..]) by {
        forall i | 0 <= i < |w| - 1 ensures IsWhitespace(w[1..][i]) {
          assert w[1..][i] == w[i + 1];
        }
      }
      TrimStartSkipsBlank(w[1..], s);
    } else {
      assert w + s == s;
    }
  }

  /** Leading whitespace never changes the trimmed value (used for the ", " separator). */
  lemma TrimSkipsBlankPrefix(w: string, s: string)
    requires IsBlank(w)
    ensures Trim(w + s) == Trim(s)
  {
    TrimStartSkipsBlank(w, s);
  }

  /** Leading whitespace before an already-trimmed string trims away to it. */
  lemma TrimAfterBlank(w: string, b: string)
    requires IsBlank(w) && Trimmed(b)
    ensures Trim(w + b) == b
  {
    TrimSkipsBlankPrefix(w, b);
    TrimOfTrimmed(b);
  }

  lemma {:induction false} TrimEndSkipsBlank(s: string, w: string)
    requires IsBlank(w)
    ensures TrimEnd(s + w) == TrimEnd(s)
    decreases |w|
  {
    if |w| > 0 {
      var w' := w[..|w| - 1];
      assert (s + w)[|s + w| - 1] == w[|w| - 1];
      assert (s + w)[..|s + w| - 1] == s + w';
      assert IsBlank(w') by {
        forall i | 0 <= i < |w'| ensures IsWhitespace(w'[i]) {
          assert w'[i] == w[i];
        }
      }
      TrimEndSkipsBlank(s, w');
    } else {
      assert s + w == s;
    }
  }

  /** Trailing whitespace never changes the trimmed value either. */
  lemma TrimSkipsBlankSuffix(s: string, w: string)
    requires IsBlank(w)
    ensures Trim(s + w) == Trim(s)
  {
    var t := TrimStart(s);
    var p := s[..|s| - |t|];
    assert s == p + t;
    if |t| > 0 {
      assert s + w == p + (t + w);
      TrimStartSkipsBlank(p, t + w);
      assert (t + w)[0] == t[0];
      assert TrimStart(t + w) == t + w;
      TrimEndSkipsBlank(t, w);
    } else {
      TrimStartEmpty(s);
      BlankConcat(s, w);
    }
  }

  // ---------------------------------------------------------------------
  // Lists of strings
  // ---------------------------------------------------------------------

  /** No element occurs twice. */
  predicate NoDup<T(==)>(xs: seq<T>) {
    forall i, j :: 0 <= i < j < |xs| ==> xs[i] != xs[j]
  }

  /**
   * `Iterable.distinct()` (a LinkedHashSet walk): the first occurrence of
   * every element, in order of first appearance.
   */
  function Distinct<T(==)>(xs: seq<T>): (r: seq<T>)
    ensures NoDup(r)
    ensures forall i :: 0 <= i < |xs| ==> xs[i] in r
    ensures forall i :: 0 <= i < |r| ==> r[i] in xs
    ensures |r| <= |xs|
    ensures NoDup(xs) ==> r == xs
    decreases |xs|
  {
    if |xs| == 0 then []
    else
      var init := xs[..|xs| - 1];
      var last := xs[|xs| - 1];
      assert xs == init + [last];
      var d := Distinct(init);
      var r := if last in init then d else d + [last];
      DistinctStep(xs, init, last, d, r);
      r
  }

  /** Everything `Distinct` promises, carried from `init` to `init + [last]`. */
  lemma DistinctStep<T>(xs: seq<T>, init: seq<T>, last: T, d: seq<T>, r: seq<T>)
    requires xs == init + [last]
    requires r == if last in init then d else d + [last]
    requires NoDup(d)
    requires forall i :: 0 <= i < |init| ==> init[i] in d
    requires forall i :: 0 <= i < |d| ==> d[i] in init
    requires |d| <= |init|
    requires NoDup(init) ==> d == init
    ensures NoDup(r)
    ensures forall i :: 0 <= i < |xs| ==> xs[i] in r
    ensures forall i :: 0 <= i < |r| ==> r[i] in xs
    ensures |r| <= |xs|
    ensures NoDup(xs) ==> r == xs
  {
    DistinctSnocMembers(xs, init, last, d, r);
    if NoDup(xs) {
      NoDupSnoc(init, last);
    }
  }

  lemma DistinctSnocMembers<T>(xs: seq<T>, init: seq<T>, last: T, d: seq<T>, r: seq<T>)
    requires xs == init + [last]
    requires r == if last in init then d else d + [last]
    requires forall i :: 0 <= i < |init| ==> init[i] in d
    requires forall i :: 0 <= i < |d| ==> d[i] in init
    ensures forall i :: 0 <= i < |xs| ==> xs[i] in r
    ensures forall i :: 0 <= i < |r| ==> r[i] in xs
  {
    forall i | 0 <= i < |xs| ensures xs[i] in r {
      if i < |init| {
        assert xs[i] == init[i];
      }
    }
  }

  lemma NoDupSnoc<T>(init: seq<T>, last: T)
    requires NoDup(init + [last])
    ensures NoDup(init) && last !in init
  {
    var xs := init + [last];
    forall i, j | 0 <= i < j < |init| ensures init[i] != init[j] {
      assert init[i] == xs[i] && init[j] == xs[j];
    }
    forall i | 0 <= i < |init| ensures init[i] != last {
      assert init[i] == xs[i] && last == xs[|init|];
    }
  }

  /** `r` lists its elements in the order of their first occurrence in `xs`. */
  predicate FirstOccurrenceOrder<T(==)>(xs: seq<T>, r: seq<T>) {
    forall i, j :: 0 <= i < j < |r| ==> IndexOf(xs, r[i]) < IndexOf(xs, r[j])
  }

  /** `distinct()` keeps the order of first appearance. */
  lemma {:induction false} DistinctKeepsOrder<T>(xs: seq<T>)
    ensures FirstOccurrenceOrder(xs, Distinct(xs))
    decreases |xs|
  {
    if |xs| > 0 {
      var init := xs[..|xs| - 1];
      var last := xs[|xs| - 1];
      assert xs == init + [last];
      DistinctKeepsOrder(init);
      DistinctSnocOrder(init, last, Distinct(init));
    }
  }

  /** Appending one element keeps the first-occurrence order of a list ordered against `init`. */
  lemma DistinctSnocOrder<T>(init: seq<T>, last: T, d: seq<T>)
    requires forall i :: 0 <= i < |d| ==> d[i] in init
    requires FirstOccurrenceOrder(init, d)
    ensures FirstOccurrenceOrder(init + [last], if last in init then d else d + [last])
  {
    KeptOrderAppend(init, [last], d);
    if last !in init {
      LastIndex(init, last);
      AppendAfterAll(init + [last], d, last);
    }
  }

  /** Elements all found in `a` keep their order of first occurrence in `a + b`. */
  lemma KeptOrderAppend<T>(a: seq<T>, b: seq<T>, d: seq<T>)
    requires forall i :: 0 <= i < |d| ==> d[i] in a
    requires forall i, j :: 0 <= i < j < |d| ==> IndexOf(a, d[i]) < IndexOf(a, d[j])
    ensures forall i :: 0 <= i < |d| ==> IndexOf(a + b, d[i]) < |a|
    ensures forall i, j :: 0 <= i < j < |d| ==> IndexOf(a + b, d[i]) < IndexOf(a + b, d[j])
  {
    forall i | 0 <= i < |d| ensures IndexOf(a + b, d[i]) == IndexOf(a, d[i]) {
      IndexOfAppend(a, b, d[i]);
    }
  }

  lemma LastIndex<T>(init: seq<T>, last: T)
    requires last !in init
    ensures IndexOf(init + [last], last) == |init|
  {
    assert (init + [last])[..|init|] == init;
    IndexOfUnique(init + [last], last, |init|);
  }

  /** An element found after all of `d` extends `d`'s order. */
  lemma AppendAfterAll<T>(xs: seq<T>, d: seq<T>, x: T)
    requires forall i :: 0 <= i < |d| ==> IndexOf(xs, d[i]) < IndexOf(xs, x)
    requires forall i, j :: 0 <= i < j < |d| ==> IndexOf(xs, d[i]) < IndexOf(xs, d[j])
    ensures forall i, j :: 0 <= i < j < |d + [x]| ==> IndexOf(xs, (d + [x])[i]) < IndexOf(xs, (d + [x])[j])
  {
  }

  /** For strings, `distinct()` keeps exactly the elements it was given. */
  lemma DistinctSameElements(xs: seq<string>)
    ensures forall x :: x in Distinct(xs) <==> x in xs
  {
    var r := Distinct(xs);
    forall x | x in r ensures x in xs {
      var i :| 0 <= i < |r| && r[i] == x;
    }
    forall x | x in xs ensures x in r {
      var i :| 0 <= i < |xs| && xs[i] == x;
    }
  }

  /**
   * `filter { it.isNotEmpty() }`: the kept elements are the non-empty ones;
   * `NonEmptyAppend` says they stay in order with their repetitions.
   */
  function NonEmpty(xs: seq<string>): (r: seq<string>)
    ensures forall x :: x in r <==> x in xs && x != []
    ensures |r| <= |xs|
  {
    if |xs| == 0 then []
    else if xs[0] != [] then [xs[0]] + NonEmpty(xs[1..])
    else NonEmpty(xs[1..])
  }

  /** The filter distributes over concatenation, so it keeps the order and the repetitions. */
  lemma {:induction false} NonEmptyAppend(a: seq<string>, b: seq<string>)
    ensures NonEmpty(a + b) == NonEmpty(a) + NonEmpty(b)
    decreases |a|
  {
    if |a| > 0 {
      var x, t := a[0], a[1..];
      assert a == [x] + t;
      assert a + b == [x] + (t + b);
      var h := if x == [] then [] else [x];
      NonEmptyCons(x, t);
      NonEmptyCons(x, t + b);
      NonEmptyAppend(t, b);
      ConcatAssoc(h, NonEmpty(t), NonEmpty(b));
    } else {
      assert a + b == b;
    }
  }

  lemma NonEmptyCons(x: string, t: seq<string>)
    ensures NonEmpty([x] + t) == (if x == [] then [] else [x]) + NonEmpty(t)
  {
    assert ([x] + t)[0] == x;
    assert ([x] + t)[1..] == t;
  }

  /**
   * Two kept elements keep their first-occurrence order: whichever comes
   * first after filtering came first before.
   */
  lemma {:induction false} NonEmptyKeepsOrder(xs: seq<string>, x: string, y: string)
    requires x in NonEmpty(xs) && y in NonEmpty(xs)
    requires IndexOf(NonEmpty(xs), x) < IndexOf(NonEmpty(xs), y)
    ensures IndexOf(xs, x) < IndexOf(xs, y)
    decreases |xs|
  {
    var t := xs[1..];
    if xs[0] == [] {
      assert NonEmpty(xs) == NonEmpty(t);
      IndexOfTail(xs, x);
      IndexOfTail(xs, y);
      NonEmptyKeepsOrder(t, x, y);
    } else if x != xs[0] {
      var r := NonEmpty(xs);
      assert r == [xs[0]] + NonEmpty(t);
      assert r[1..] == NonEmpty(t);
      IndexOfTail(r, x);
      IndexOfTail(r, y);
      IndexOfTail(xs, x);
      IndexOfTail(xs, y);
      NonEmptyKeepsOrder(t, x, y);
    }
  }

  /**
   * `filter { it.isNotBlank() }`: the kept elements are the non-blank ones;
   * `NotBlankAppend` says they stay in order with their repetitions.
   */
  function NotBlank(xs: seq<string>): (r: seq<string>)
    ensures forall x :: x in r <==> x in xs && !IsBlank(x)
    ensures |r| <= |xs|
  {
    if |xs| == 0 then []
    else if !IsBlank(xs[0]) then [xs[0]] + NotBlank(xs[1..])
    else NotBlank(xs[1..])
  }

  /** The filter distributes over concatenation. */
  lemma {:induction false} NotBlankAppend(a: seq<string>, b: seq<string>)
    ensures NotBlank(a + b) == NotBlank(a) + NotBlank(b)
    decreases |a|
  {
    if |a| > 0 {
      var x, t := a[0], a[1..];
      assert a == [x] + t;
      assert a + b == [x] + (t + b);
      var h := if IsBlank(x) then [] else [x];
      NotBlankCons(x, t);
      NotBlankCons(x, t + b);
      NotBlankAppend(t, b);
      ConcatAssoc(h, NotBlank(t), NotBlank(b));
    } else {
      assert a + b == b;
    }
  }

  lemma ConcatAssoc<T>(h: seq<T>, x: seq<T>, y: seq<T>)
    ensures h + (x + y) == (h + x) + y
  {
  }

  lemma NotBlankCons(x: string, t: seq<string>)
    ensures NotBlank([x] + t) == (if IsBlank(x) then [] else [x]) + NotBlank(t)
  {
    assert ([x] + t)[0] == x;
    assert ([x] + t)[1..] == t;
  }

  /** Two kept elements keep their first-occurrence order. */
  lemma {:induction false} NotBlankKeepsOrder(xs: seq<string>, x: string, y: string)
    requires x in NotBlank(xs) && y in NotBlank(xs)
    requires IndexOf(NotBlank(xs), x) < IndexOf(NotBlank(xs), y)
    ensures IndexOf(xs, x) < IndexOf(xs, y)
    decreases |xs|
  {
    var t := xs[1..];
    if IsBlank(xs[0]) {
      assert NotBlank(xs) == NotBlank(t);
      IndexOfTail(xs, x);
      IndexOfTail(xs, y);
      NotBlankKeepsOrder(t, x, y);
    } else if x != xs[0] {
      var r := NotBlank(xs);
      assert r == [xs[0]] + NotBlank(t);
      assert r[1..] == NotBlank(t);
      IndexOfTail(r, x);
      IndexOfTail(r, y);
      IndexOfTail(xs, x);
      IndexOfTail(xs, y);
      NotBlankKeepsOrder(t, x, y);
    }
  }

  /** `map { it.trim() }`. */
  function TrimAll(xs: seq<string>): (r: seq<string>)
    ensures |r| == |xs|
    ensures forall k :: 0 <= k < |xs| ==> r[k] == Trim(xs[k])
  {
    seq(|xs|, k requires 0 <= k < |xs| => Trim(xs[k]))
  }

  /** `joinToString(sep)`. */
  function Join(xs: seq<string>, sep: string): string
  {
    if |xs| == 0 then []
    else if |xs| == 1 then xs[0]
    else xs[0] + sep + Join(xs[1..], sep)
  }

  /** Joining adds no character but the separator's: each comes from an element or from `sep`. */
  lemma {:induction false} JoinChars(xs: seq<string>, sep: string)
    ensures CharsFrom(Join(xs, sep), xs, sep)
    decreases |xs|
  {
    if |xs| > 1 {
      JoinChars(xs[1..], sep);
      JoinCharsStep(xs, sep, Join(xs[1..], sep));
    } else if |xs| == 1 {
      assert Join(xs, sep) == xs[0];
      assert forall i :: 0 <= i < |xs[0]| ==> xs[0][i] in xs[0];
    }
  }

  /** Every character of `r` occurs in `sep` or in one of `xs`. */
  predicate CharsFrom(r: string, xs: seq<string>, sep: string) {
    forall i :: 0 <= i < |r| ==> r[i] in sep || exists k :: 0 <= k < |xs| && r[i] in xs[k]
  }

  lemma JoinCharsStep(xs: seq<string>, sep: string, rest: string)
    requires |xs| > 1
    requires CharsFrom(rest, xs[1..], sep)
    ensures CharsFrom(xs[0] + sep + rest, xs, sep)
  {
    var r := xs[0] + sep + rest;
    forall i | 0 <= i < |r| ensures r[i] in sep || exists k :: 0 <= k < |xs| && r[i] in xs[k] {
      if i < |xs[0]| {
        assert r[i] == xs[0][i];
      } else if i < |xs[0]| + |sep| {
        assert r[i] == sep[i - |xs[0]|];
      } else {
        var c := rest[i - |xs[0]| - |sep|];
        assert r[i] == c;
        if c !in sep {
          var k :| 0 <= k < |xs| - 1 && c in xs[1..][k];
          assert xs[1..][k] == xs[k + 1];
        }
      }
    }
  }

  /** `List.indexOf(x)`: the first position holding `x`, or -1. */
  function IndexOf<T(==)>(xs: seq<T>, x: T): (r: int)
    ensures -1 <= r < |xs|
    ensures r == -1 <==> x !in xs
    ensures r >= 0 ==> xs[r] == x && x !in xs[..r]
  {
    if |xs| == 0 then -1
    else if xs[0] == x then 0
    else
      var k := IndexOf(xs[1..], x);
      assert forall i :: 0 <= i < |xs| - 1 ==> xs[1..][i] == xs[i + 1];
      if k == -1 then -1
      else
        assert xs[..k + 1] == [xs[0]] + xs[1..][..k];
        k + 1
  }

  /** A position holding `x` with no `x` before it is `indexOf(x)`. */
  lemma IndexOfUnique<T>(xs: seq<T>, x: T, k: int)
    requires 0 <= k < |xs| && xs[k] == x && x !in xs[..k]
    ensures IndexOf(xs, x) == k
  {
  }

  /** Appending never moves the first occurrence of an element already present. */
  lemma IndexOfAppend<T>(a: seq<T>, b: seq<T>, x: T)
    requires x in a
    ensures IndexOf(a + b, x) == IndexOf(a, x)
  {
    var k := IndexOf(a, x);
    assert (a + b)[..k] == a[..k];
    IndexOfUnique(a + b, x, k);
  }

  /** `indexOf` of an element other than the head is one past its index in the tail. */
  lemma IndexOfTail<T>(xs: seq<T>, x: T)
    requires |xs| > 0 && xs[0] != x && x in xs
    ensures x in xs[1..] && IndexOf(xs, x) == IndexOf(xs[1..], x) + 1
  {
    var k := IndexOf(xs, x);
    assert xs[1..][k - 1] == x;
  }

  /** `zip`: pairs by position, stopping at the end of the shorter list. */
  function Zip<A, B>(xs: seq<A>, ys: seq<B>): (r: seq<(A, B)>)
    ensures |r| == if |xs| < |ys| then |xs| else |ys|
    ensures forall k :: 0 <= k < |r| ==> r[k] == (xs[k], ys[k])
  {
    if |xs| == 0 || |ys| == 0 then []
    else
      var rest := Zip(xs[1..], ys[1..]);
      assert forall k :: 1 <= k < |rest| + 1 ==> rest[k - 1] == (xs[k], ys[k]);
      [(xs[0], ys[0])] + rest
  }

  // ---------------------------------------------------------------------
  // Literal splitting
  // ---------------------------------------------------------------------

  predicate NoEmptyDelimiter(delims: seq<string>) {
    forall d :: d in delims ==> |d| > 0
  }

  /** The first delimiter, in list order, that `s` starts with. */
  function MatchAt(s: string, delims: seq<string>): (r: Option<string>)
    ensures r.Some? ==> r.value in delims && r.value <= s
    ensures r.None? <==> forall d :: d in delims ==> !(d <= s)
  {
    if |delims| == 0 then None
    else if delims[0] <= s then Some(delims[0])
    else
      assert delims == [delims[0]] + delims[1..];
      MatchAt(s, delims[1..])
  }

  /**
   * Splits `s` on an alternation of literal delimiters, as Kotlin's
   * `Regex.split` does: at each position the earliest alternative (in list
   * order) that matches there ends the current piece; empty pieces,
   * including trailing ones, are kept. `piece` is the text collected since
   * the last match.
   */
  function SplitAcc(s: string, delims: seq<string>, piece: string): (r: seq<string>)
    requires NoEmptyDelimiter(delims)
    ensures |r| >= 1
    decreases |s|
  {
    if |s| == 0 then [piece]
    else match MatchAt(s, delims)
      case Some(d) => [piece] + SplitAcc(s[|d|..], delims, [])
      case None => SplitAcc(s[1..], delims, piece + [s[0]])
  }

  /**
   * `split` on literal delimiters. No delimiter occurs inside any piece,
   * since the split would have cut there; `SplitRebuilds` shows the pieces
   * with the matched delimiters between them spell `s` again, and
   * `SplitFirstCut` / `SplitNoCut` show which match each cut is.
   */
  function Split(s: string, delims: seq<string>): (r: seq<string>)
    requires NoEmptyDelimiter(delims)
    ensures |r| >= 1
    ensures AvoidsDelimiters(r, delims)
  {
    SplitAccAvoidsDelimiters(s, delims, []);
    SplitAcc(s, delims, [])
  }

  /** The pieces of a split, with the delimiters matched between them, spell the input. */
  lemma SplitRebuilds(s: string, delims: seq<string>)
    requires NoEmptyDelimiter(delims)
    ensures RebuiltBy(Split(s, delims), delims, s)
  {
    CutsAccShape(s, delims, []);
    SplitAccRebuilds(s, delims, []);
    assert Split(s, delims) == SplitAcc(s, delims, []);
  }

  /** `d` occurs in `x` starting at position `i`. */
  predicate OccursAt(d: string, x: string, i: int) {
    0 <= i && i + |d| <= |x| && x[i..i + |d|] == d
  }

  /** No delimiter occurs anywhere inside any piece. */
  predicate AvoidsDelimiters(pieces: seq<string>, delims: seq<string>) {
    forall k, d, i :: 0 <= k < |pieces| && d in delims && 0 <= i <= |pieces[k]| ==> !OccursAt(d, pieces[k], i)
  }

  /** The pieces with `cuts[k]` between pieces `k` and `k + 1`. */
  function Interleave(pieces: seq<string>, cuts: seq<string>): string
    requires |pieces| == |cuts| + 1
    decreases |cuts|
  {
    if |cuts| == 0 then pieces[0]
    else pieces[0] + cuts[0] + Interleave(pieces[1..], cuts[1..])
  }

  /** Some choice of delimiters between the pieces spells `s`. */
  ghost predicate RebuiltBy(pieces: seq<string>, delims: seq<string>, s: string) {
    exists cuts :: |cuts| + 1 == |pieces| && (forall k :: 0 <= k < |cuts| ==> cuts[k] in delims)
                   && Interleave(pieces, cuts) == s
  }

  /** The delimiters `SplitAcc` cuts at, in order. */
  function CutsAcc(s: string, delims: seq<string>): seq<string>
    requires NoEmptyDelimiter(delims)
    decreases |s|
  {
    if |s| == 0 then []
    else match MatchAt(s, delims)
      case Some(d) => [d] + CutsAcc(s[|d|..], delims)
      case None => CutsAcc(s[1..], delims)
  }

  /** A two-character delimiter cuts as a whole: `"a&&b".split("&&")` is `[a, b]`. */
  lemma SplitLongDelimiter()
    ensures Split("a&&b", ["&&"]) == ["a", "b"]
  {
    assert MatchAt("a&&b", ["&&"]) == None;
    assert "a&&b"[1..] == "&&b" && [] + ['a'] == "a";
    assert MatchAt("&&b", ["&&"]) == Some("&&");
    assert "&&b"[2..] == "b";
    assert MatchAt("b", ["&&"]) == None;
    assert "b"[1..] == [] && [] + ['b'] == "b";
    assert SplitAcc("a&&b", ["&&"], []) == SplitAcc("&&b", ["&&"], "a");
    assert SplitAcc("&&b", ["&&"], "a") == ["a"] + SplitAcc("b", ["&&"], []);
    assert SplitAcc("b", ["&&"], []) == SplitAcc([], ["&&"], "b");
  }

  /**
   * The first cut of a split: when `delims[k]` occurs at `i`, no delimiter
   * occurs earlier, and no delimiter listed before `delims[k]` occurs at `i`
   * too, the first piece is `s[..i]` and the rest is the split of what
   * follows `delims[k]`. With `SplitNoCut` this fixes every piece: the
   * leftmost match wins, and among matches at one position the first listed.
   */
  lemma SplitFirstCut(s: string, delims: seq<string>, i: int, k: int)
    requires NoEmptyDelimiter(delims)
    requires 0 <= k < |delims| && OccursAt(delims[k], s, i)
    requires forall j, d :: 0 <= j < i && d in delims ==> !OccursAt(d, s, j)
    requires forall m :: 0 <= m < k ==> !OccursAt(delims[m], s, i)
    ensures Split(s, delims) == [s[..i]] + Split(s[i + |delims[k]|..], delims)
  {
    SplitAccFirstCut(s, delims, [], i, k);
    assert [] + s[..i] == s[..i];
  }

  /** With no delimiter anywhere in `s`, the split is `s` alone. */
  lemma SplitNoCut(s: string, delims: seq<string>)
    requires NoEmptyDelimiter(delims)
    requires forall j, d :: 0 <= j < |s| && d in delims ==> !OccursAt(d, s, j)
    ensures Split(s, delims) == [s]
  {
    SplitAccNoCut(s, delims, []);
    assert [] + s == s;
  }

  /** On `"ab"` both `ab` and `b` match; `ab` starts first, so the pieces are two empty strings. */
  lemma SplitPrefersLeftmost()
    ensures Split("ab", ["ab", "b"]) == ["", ""]
  {
    SplitFirstCut("ab", ["ab", "b"], 0, 0);
    assert "ab"[2..] == [];
  }

  /** `MatchAt` picks the first listed delimiter that is a prefix of `s`. */
  lemma {:induction false} MatchAtFirst(s: string, delims: seq<string>, k: int)
    requires 0 <= k < |delims| && delims[k] <= s
    requires forall m :: 0 <= m < k ==> !(delims[m] <= s)
    ensures MatchAt(s, delims) == Some(delims[k])
    decreases k
  {
    if k > 0 {
      assert !(delims[0] <= s);
      MatchAtFirst(s, delims[1..], k - 1);
    }
  }

  /**
   * `delims[k]` is where the split of `s` first cuts: it occurs at `i`, no
   * delimiter occurs earlier, and none listed before it occurs at `i`.
   */
  predicate FirstCutAt(s: string, delims: seq<string>, i: int, k: int) {
    && 0 <= k < |delims| && OccursAt(delims[k], s, i)
    && (forall j, d :: 0 <= j < i && d in delims ==> !OccursAt(d, s, j))
    && (forall m :: 0 <= m < k ==> !OccursAt(delims[m], s, i))
  }

  /** `SplitAcc` form of `SplitFirstCut`, with the collected piece in front. */
  lemma {:induction false} SplitAccFirstCut(s: string, delims: seq<string>, piece: string, i: int, k: int)
    requires NoEmptyDelimiter(delims) && FirstCutAt(s, delims, i, k)
    ensures SplitAcc(s, delims, piece) == [piece + s[..i]] + SplitAcc(s[i + |delims[k]|..], delims, [])
    decreases i
  {
    if i == 0 {
      FirstListedAtStart(s, delims, k);
      assert SplitAcc(s, delims, piece) == [piece] + SplitAcc(s[|delims[k]|..], delims, []);
      assert piece + s[..0] == piece;
    } else {
      FirstCutShifts(s, delims, i, k);
      SplitAccSkips(s, delims, piece);
      var j := i - 1;
      SplitAccFirstCut(s[1..], delims, piece + [s[0]], j, k);
      ShiftedCut(s, delims, piece, i, j, k);
    }
  }

  /** A first cut at `i > 0` is a first cut at `i - 1` of `s[1..]`, and nothing matches at 0. */
  lemma FirstCutShifts(s: string, delims: seq<string>, i: int, k: int)
    requires NoEmptyDelimiter(delims) && FirstCutAt(s, delims, i, k) && i > 0
    ensures |s| > 0 && MatchAt(s, delims) == None && FirstCutAt(s[1..], delims, i - 1, k)
  {
    var t := s[1..];
    NoMatchAtStart(s, delims);
    OccursAfterFirst(delims[k], s, i - 1);
    forall j, d | 0 <= j < i - 1 && d in delims ensures !OccursAt(d, t, j) {
      OccursAfterFirst(d, s, j);
    }
    forall m | 0 <= m < k ensures !OccursAt(delims[m], t, i - 1) {
      OccursAfterFirst(delims[m], s, i - 1);
    }
  }

  /** Where nothing matches, the first character joins the collected piece. */
  lemma SplitAccSkips(s: string, delims: seq<string>, piece: string)
    requires NoEmptyDelimiter(delims) && |s| > 0 && MatchAt(s, delims) == None
    ensures SplitAcc(s, delims, piece) == SplitAcc(s[1..], delims, piece + [s[0]])
  {
  }

  /** A cut found in `s[1..]` after the first character joined the piece is a cut in `s`. */
  lemma ShiftedCut(s: string, delims: seq<string>, piece: string, i: int, j: int, k: int)
    requires NoEmptyDelimiter(delims) && 0 <= k < |delims| && 0 <= j && i == j + 1 && i + |delims[k]| <= |s|
    requires SplitAcc(s, delims, piece) == SplitAcc(s[1..], delims, piece + [s[0]])
    requires SplitAcc(s[1..], delims, piece + [s[0]])
             == [piece + [s[0]] + s[1..][..j]] + SplitAcc(s[1..][j + |delims[k]|..], delims, [])
    ensures SplitAcc(s, delims, piece) == [piece + s[..i]] + SplitAcc(s[i + |delims[k]|..], delims, [])
  {
    assert piece + [s[0]] + s[1..][..j] == piece + s[..i];
    assert s[1..][j + |delims[k]|..] == s[i + |delims[k]|..];
  }

  /** A delimiter occurs in `s[1..]` at `j` exactly when it occurs in `s` at `j + 1`. */
  lemma OccursAfterFirst(d: string, s: string, j: int)
    requires |s| > 0 && 0 <= j
    ensures OccursAt(d, s[1..], j) <==> OccursAt(d, s, j + 1)
  {
    if j + |d| <= |s| - 1 {
      assert s[1..][j..j + |d|] == s[j + 1..j + 1 + |d|];
    }
  }

  /** A delimiter is a prefix of `s` exactly when it occurs at position 0. */
  lemma PrefixOccurs(d: string, s: string)
    ensures d <= s <==> OccursAt(d, s, 0)
  {
    if d <= s {
      assert s[0..|d|] == d;
    }
  }

  /** When no delimiter occurs at position 0, nothing matches there. */
  lemma NoMatchAtStart(s: string, delims: seq<string>)
    requires forall d :: d in delims ==> !OccursAt(d, s, 0)
    ensures MatchAt(s, delims) == None
  {
    forall d | d in delims ensures !(d <= s) {
      PrefixOccurs(d, s);
    }
  }

  /** The first listed delimiter occurring at position 0 is the one matched there. */
  lemma FirstListedAtStart(s: string, delims: seq<string>, k: int)
    requires 0 <= k < |delims| && OccursAt(delims[k], s, 0)
    requires forall m :: 0 <= m < k ==> !OccursAt(delims[m], s, 0)
    ensures MatchAt(s, delims) == Some(delims[k])
  {
    PrefixOccurs(delims[k], s);
    forall m | 0 <= m < k ensures !(delims[m] <= s) {
      PrefixOccurs(delims[m], s);
    }
    MatchAtFirst(s, delims, k);
  }

  /** `SplitAcc` form of `SplitNoCut`. */
  lemma {:induction false} SplitAccNoCut(s: string, delims: seq<string>, piece: string)
    requires NoEmptyDelimiter(delims)
    requires forall j, d :: 0 <= j < |s| && d in delims ==> !OccursAt(d, s, j)
    ensures SplitAcc(s, delims, piece) == [piece + s]
    decreases |s|
  {
    if |s| == 0 {
      assert piece + s == piece;
    } else {
      NoMatchAtStart(s, delims);
      var t := s[1..];
      forall j, d | 0 <= j < |t| && d in delims ensures !OccursAt(d, t, j) {
        OccursAfterFirst(d, s, j);
      }
      SplitAccNoCut(t, delims, piece + [s[0]]);
      assert piece + [s[0]] + t == piece + s;
    }
  }

  /** One cut between every two pieces, each a delimiter. */
  lemma {:induction false} CutsAccShape(s: string, delims: seq<string>, piece: string)
    requires NoEmptyDelimiter(delims)
    ensures var r, cuts := SplitAcc(s, delims, piece), CutsAcc(s, delims);
            |cuts| + 1 == |r| && forall k :: 0 <= k < |cuts| ==> cuts[k] in delims
    decreases |s|
  {
    if |s| > 0 {
      match MatchAt(s, delims)
      case Some(d) =>
        CutsAccShape(s[|d|..], delims, []);
        assert SplitAcc(s, delims, piece) == [piece] + SplitAcc(s[|d|..], delims, []);
        assert CutsAcc(s, delims) == [d] + CutsAcc(s[|d|..], delims);
      case None =>
        CutsAccShape(s[1..], delims, piece + [s[0]]);
    }
  }

  /** The pieces with the cuts between them spell the collected piece and the rest of the input. */
  lemma {:induction false} SplitAccRebuilds(s: string, delims: seq<string>, piece: string)
    requires NoEmptyDelimiter(delims)
    ensures |CutsAcc(s, delims)| + 1 == |SplitAcc(s, delims, piece)|
    ensures Interleave(SplitAcc(s, delims, piece), CutsAcc(s, delims)) == piece + s
    decreases |s|
  {
    CutsAccShape(s, delims, piece);
    if |s| == 0 {
      assert piece + s == piece;
    } else {
      match MatchAt(s, delims)
      case Some(d) =>
        var rest := SplitAcc(s[|d|..], delims, []);
        var cs := CutsAcc(s[|d|..], delims);
        SplitAccRebuilds(s[|d|..], delims, []);
        assert SplitAcc(s, delims, piece) == [piece] + rest;
        assert CutsAcc(s, delims) == [d] + cs;
        InterleaveCons(piece, rest, d, cs);
        assert [] + s[|d|..] == s[|d|..];
        CutAfterPrefix(piece, d, s);
      case None =>
        SplitAccRebuilds(s[1..], delims, piece + [s[0]]);
        assert piece + [s[0]] + s[1..] == piece + s;
    }
  }

  lemma InterleaveCons(p: string, rest: seq<string>, d: string, cs: seq<string>)
    requires |rest| == |cs| + 1
    ensures Interleave([p] + rest, [d] + cs) == p + d + Interleave(rest, cs)
  {
    assert ([p] + rest)[1..] == rest && ([d] + cs)[1..] == cs;
  }

  lemma CutAfterPrefix(p: string, d: string, s: string)
    requires d <= s
    ensures p + d + s[|d|..] == p + s
  {
    assert s == d + s[|d|..];
  }

  lemma {:induction false} SplitAccAvoidsDelimiters(s: string, delims: seq<string>, piece: string)
    requires NoEmptyDelimiter(delims)
    requires forall d, i :: d in delims && 0 <= i < |piece| ==> !OccursAt(d, piece + s, i)
    ensures AvoidsDelimiters(SplitAcc(s, delims, piece), delims)
    decreases |s|
  {
    if |s| == 0 {
      assert piece + s == piece;
    } else {
      match MatchAt(s, delims)
      case Some(d) =>
        var rest := SplitAcc(s[|d|..], delims, []);
        assert SplitAcc(s, delims, piece) == [piece] + rest;
        SplitAccAvoidsDelimiters(s[|d|..], delims, []);
        forall e, i | e in delims && 0 <= i <= |piece| ensures !OccursAt(e, piece, i) {
          if OccursAt(e, piece, i) {
            assert (piece + s)[i..i + |e|] == piece[i..i + |e|];
            assert OccursAt(e, piece + s, i);
          }
        }
      case None =>
        var piece' := piece + [s[0]];
        assert piece' + s[1..] == piece + s;
        forall e, i | e in delims && 0 <= i < |piece'| ensures !OccursAt(e, piece' + s[1..], i) {
          assert i == |piece| ==> (piece + s)[i..] == s;
        }
        assert SplitAcc(s, delims, piece) == SplitAcc(s[1..], delims, piece');
        SplitAccAvoidsDelimiters(s[1..], delims, piece');
    }
  }

  lemma {:induction false} SplitAccKeepsOut(s: string, delims: seq<string>, piece: string, c: char)
    requires NoEmptyDelimiter(delims)
    requires c !in s && c !in piece
    ensures forall p :: p in SplitAcc(s, delims, piece) ==> c !in p
    decreases |s|
  {
    if |s| > 0 {
      match MatchAt(s, delims)
      case Some(d) =>
        assert forall i :: 0 <= i < |s| - |d| ==> s[|d|..][i] == s[i + |d|];
        SplitAccKeepsOut(s[|d|..], delims, [], c);
      case None =>
        assert forall i :: 0 <= i < |s| - 1 ==> s[1..][i] == s[i + 1];
        SplitAccKeepsOut(s[1..], delims, piece + [s[0]], c);
    }
  }

  /** A character absent from `s` is absent from every piece of it. */
  lemma SplitKeepsOut(s: string, delims: seq<string>, c: char)
    requires NoEmptyDelimiter(delims)
    requires c !in s
    ensures forall p :: p in Split(s, delims) ==> c !in p
  {
    SplitAccKeepsOut(s, delims, [], c);
  }

  /** Joining a piece in front of a non-empty list puts one separator between them. */
  lemma JoinCons(x: string, rest: seq<string>, sep: string)
    requires |rest| > 0
    ensures Join([x] + rest, sep) == x + sep + Join(rest, sep)
  {
    assert ([x] + rest)[1..] == rest;
  }

  lemma {:induction false} JoinSplitAcc(s: string, d: string, piece: string)
    requires |d| > 0
    ensures Join(SplitAcc(s, [d], piece), d) == piece + s
    decreases |s|
  {
    if |s| > 0 {
      var tail := s[1..];
      if d <= s {
        var after := s[|d|..];
        var rest := SplitAcc(after, [d], []);
        assert MatchAt(s, [d]) == Some(d);
        assert SplitAcc(s, [d], piece) == [piece] + rest;
        JoinSplitAcc(after, d, []);
        JoinCons(piece, rest, d);
        assert piece + d + after == piece + s by { assert s == d + after; }
      } else {
        assert MatchAt(s, [d]) == None;
        assert SplitAcc(s, [d], piece) == SplitAcc(tail, [d], piece + [s[0]]);
        JoinSplitAcc(tail, d, piece + [s[0]]);
        assert (piece + [s[0]]) + tail == piece + s by { assert s == [s[0]] + tail; }
      }
    }
  }

  /** Splitting on one literal delimiter and joining with it gives `s` back. */
  lemma JoinSplit(s: string, d: string)
    requires |d| > 0
    ensures Join(Split(s, [d]), d) == s
  {
    JoinSplitAcc(s, d, []);
  }

  lemma {:induction false} SplitAccSkipsPlain(x: string, t: string, c: char, piece: string)
    requires c !in x
    ensures SplitAcc(x + t, [[c]], piece) == SplitAcc(t, [[c]], piece + x)
    decreases |x|
  {
    if |x| > 0 {
      assert (x + t)[0] == x[0];
      assert MatchAt(x + t, [[c]]).None?;
      assert (x + t)[1..] == x[1..] + t;
      SplitAccSkipsPlain(x[1..], t, c, piece + [x[0]]);
      assert piece + [x[0]] + x[1..] == piece + x;
    } else {
      assert x + t == t;
      assert piece + x == piece;
    }
  }

  /**
   * Joining pieces free of the one-character delimiter `c` and splitting on
   * `c` gives the pieces back.
   */
  lemma {:induction false} SplitJoin(xs: seq<string>, c: char)
    requires |xs| > 0
    requires forall x :: x in xs ==> c !in x
    ensures Split(Join(xs, [c]), [[c]]) == xs
    decreases |xs|
  {
    if |xs| == 1 {
      assert Join(xs, [c]) == xs[0];
      assert xs[0] + [] == xs[0];
      assert [] + xs[0] == xs[0];
      SplitAccSkipsPlain(xs[0], [], c, []);
      assert xs == [xs[0]];
    } else {
      var t := Join(xs[1..], [c]);
      assert Join(xs, [c]) == xs[0] + ([c] + t);
      SplitAccSkipsPlain(xs[0], [c] + t, c, []);
      assert [] + xs[0] == xs[0];
      assert MatchAt([c] + t, [[c]]) == Some([c]);
      assert ([c] + t)[1..] == t;
      assert SplitAcc([c] + t, [[c]], xs[0]) == [xs[0]] + SplitAcc(t, [[c]], []);
      SplitJoin(xs[1..], c);
      assert xs == [xs[0]] + xs[1..];
    }
  }

  /** `sep + x` for every element after the first: how `", "` decomposes over `","`. */
  function PadTail(xs: seq<string>, pad: string): (r: seq<string>)
    requires |xs| > 0
    ensures |r| == |xs| && r[0] == xs[0]
    ensures forall k :: 1 <= k < |xs| ==> r[k] == pad + xs[k]
  {
    [xs[0]] + seq(|xs| - 1, k requires 0 <= k < |xs| - 1 => pad + xs[k + 1])
  }

  lemma PadTailCons(xs: seq<string>, pad: string)
    requires |xs| > 1
    ensures PadTail(xs, pad) == [xs[0]] + ([pad + xs[1]] + PadTail(xs[1..], pad)[1..])
  {
  }

  lemma {:induction false} JoinPadded(xs: seq<string>, c: char, pad: string)
    requires |xs| > 0
    ensures Join(xs, [c] + pad) == Join(PadTail(xs, pad), [c])
    decreases |xs|
  {
    if |xs| > 1 {
      var rest := xs[1..];
      var q := PadTail(rest, pad);
      var q1 := q[1..];
      var j := Join(q, [c]);
      JoinPadded(rest, c, pad);
      assert xs == [xs[0]] + rest;
      JoinCons(xs[0], rest, [c] + pad);
      PadTailCons(xs, pad);
      JoinCons(xs[0], [pad + rest[0]] + q1, [c]);
      assert q == [rest[0]] + q1;
      JoinPadHead(rest[0], q1, pad, [c]);
      ConcatAssoc(xs[0] + [c], pad, j);
      ConcatAssoc(xs[0], [c], pad);
    }
  }

  /** Padding the first element pads the whole join. */
  lemma JoinPadHead(y: string, rest: seq<string>, pad: string, sep: string)
    ensures Join([pad + y] + rest, sep) == pad + Join([y] + rest, sep)
  {
    if |rest| > 0 {
      JoinCons(pad + y, rest, sep);
      JoinCons(y, rest, sep);
    }
  }

  // ---------------------------------------------------------------------
  // Decimal Long printing and parsing
  // ---------------------------------------------------------------------

  predicate IsDigit(c: char) {
    '0' <= c <= '9'
  }

  predicate AllDigits(s: string) {
    forall i :: 0 <= i < |s| ==> IsDigit(s[i])
  }

  function DigitChar(d: int): (c: char)
    requires 0 <= d < 10
    ensures IsDigit(c) && c as int - '0' as int == d
  {
    (d + '0' as int) as char
  }

  /** The decimal digits of `n`, without leading zeros. */
  function DigitsOf(n: nat): (r: string)
    ensures |r| > 0 && AllDigits(r)
    decreases n
  {
    if n < 10 then [DigitChar(n)] else DigitsOf(n / 10) + [DigitChar(n % 10)]
  }

  /** `Long.toString()`. */
  function LongToString(n: int): (r: string)
    ensures |r| > 0
    ensures forall i :: 0 <= i < |r| ==> r[i] == '-' || IsDigit(r[i])
  {
    if n < 0 then "-" + DigitsOf(-n) else DigitsOf(n)
  }

  function ParseDigits(s: string): nat
    requires AllDigits(s)
    decreases |s|
  {
    if |s| == 0 then 0
    else ParseDigits(s[..|s| - 1]) * 10 + (s[|s| - 1] as int - '0' as int)
  }

  /** A decimal Long literal: an optional `-` or `+`, then one or more decimal digits. */
  predicate LongLiteral(s: string) {
    || (|s| > 0 && AllDigits(s))
    || (|s| > 1 && (s[0] == '-' || s[0] == '+') && AllDigits(s[1..]))
  }

  /**
   * `String.toLongOrNull()`: a value exactly for a decimal literal, negative
   * only under a `-` sign.
   */
  function ToLongOrNull(s: string): (r: Option<int>)
    ensures r.Some? <==> LongLiteral(s)
    ensures r.Some? && s[0] == '-' ==> r.value <= 0
    ensures r.Some? && s[0] != '-' ==> r.value >= 0
  {
    if |s| == 0 then None
    else if s[0] < '0' then
      if |s| == 1 || !AllDigits(s[1..]) then None
      else if s[0] == '-' then Some(0 - ParseDigits(s[1..]))
      else if s[0] == '+' then Some(ParseDigits(s[1..]))
      else None
    else if AllDigits(s) then Some(ParseDigits(s))
    else None
  }

  lemma {:induction false} ParseDigitsOf(n: nat)
    ensures ParseDigits(DigitsOf(n)) == n
    decreases n
  {
    if n >= 10 {
      ParseDigitsOf(n / 10);
      var s := DigitsOf(n);
      assert s[..|s| - 1] == DigitsOf(n / 10);
    }
  }

  /** Printing a Long and parsing it back gives the same value. */
  lemma ParseLongToString(n: int)
    ensures ToLongOrNull(LongToString(n)) == Some(n)
  {
    if n < 0 {
      ParseDigitsOf(-n);
      assert LongToString(n)[1..] == DigitsOf(-n);
    } else {
      ParseDigitsOf(n);
    }
  }

  /** `map { it.toString() }` on a list of Longs. */
  function LongsToStrings(ns: seq<int>): (r: seq<string>)
    ensures |r| == |ns|
    ensures forall k :: 0 <= k < |ns| ==> r[k] == LongToString(ns[k])
  {
    if |ns| == 0 then [] else [LongToString(ns[0])] + LongsToStrings(ns[1..])
  }

  /**
   * `mapNotNull { it.trim().toLongOrNull() }`: at most one value per token;
   * `ParseLongsCons`, `ParseLongsSkip` and `ParseLongsAppend` give the
   * values and their order.
   */
  function ParseLongs(tokens: seq<string>): (r: seq<int>)
    ensures |r| <= |tokens|
  {
    if |tokens| == 0 then []
    else match ToLongOrNull(Trim(tokens[0]))
      case Some(n) => [n] + ParseLongs(tokens[1..])
      case None => ParseLongs(tokens[1..])
  }

  /** `mapNotNull` distributes over concatenation: the values keep the tokens' order. */
  lemma {:induction false} ParseLongsAppend(a: seq<string>, b: seq<string>)
    ensures ParseLongs(a + b) == ParseLongs(a) + ParseLongs(b)
    decreases |a|
  {
    if |a| == 0 {
      assert a + b == b;
    } else {
      var ab := a + b;
      assert ab[0] == a[0];
      assert ab[1..] == a[1..] + b;
      ParseLongsAppend(a[1..], b);
      match ToLongOrNull(Trim(a[0]))
      case Some(n) =>
        ParseLongsCons(ab, n);
        ParseLongsCons(a, n);
      case None =>
        ParseLongsSkip(ab);
        ParseLongsSkip(a);
    }
  }

  /** A printed Long carries no surrounding whitespace. */
  lemma LongToStringTrimmed(n: int)
    ensures Trim(LongToString(n)) == LongToString(n)
  {
    var s := LongToString(n);
    assert s[0] == '-' || IsDigit(s[0]);
    assert s[|s| - 1] == '-' || IsDigit(s[|s| - 1]);
    TrimOfTrimmed(s);
  }

  lemma ParseLongsCons(tokens: seq<string>, n: int)
    requires |tokens| > 0 && ToLongOrNull(Trim(tokens[0])) == Some(n)
    ensures ParseLongs(tokens) == [n] + ParseLongs(tokens[1..])
  {
  }

  lemma ParseLongsSkip(tokens: seq<string>)
    requires |tokens| > 0 && ToLongOrNull(Trim(tokens[0])) == None
    ensures ParseLongs(tokens) == ParseLongs(tokens[1..])
  {
  }

  lemma ParsePrintedLong(n: int)
    ensures ToLongOrNull(Trim(LongToString(n))) == Some(n)
  {
    LongToStringTrimmed(n);
    ParseLongToString(n);
  }

  /** A printed Long at the head of a token list parses to itself. */
  lemma ParsePrintedHead(n: int, rest: seq<string>)
    ensures ParseLongs([LongToString(n)] + rest) == [n] + ParseLongs(rest)
  {
    var tokens := [LongToString(n)] + rest;
    ParsePrintedLong(n);
    ParseLongsCons(tokens, n);
    assert tokens[1..] == rest;
  }

  /** Parsing the printed form of a list of Longs recovers the list. */
  lemma {:induction false} ParseLongsToStrings(ns: seq<int>)
    ensures ParseLongs(LongsToStrings(ns)) == ns
  {
    if |ns| > 0 {
      var rest := LongsToStrings(ns[1..]);
      assert LongsToStrings(ns) == [LongToString(ns[0])] + rest;
      ParsePrintedHead(ns[0], rest);
      ParseLongsToStrings(ns[1..]);
      assert ns == [ns[0]] + ns[1..];
    }
  }
}
