/**
 * `DelimiterAdapter`: the list of delimiters shown in the preference dialog
 * and the set of those the user has ticked. The selection is an
 * insertion-ordered set, modelled as a sequence without repeats.
 */
module Delimiters {
  import opened Kt
  import ArtistSplit

  datatype DelimiterAdapter = DelimiterAdapter(delimiterList: seq<string>, selected: seq<string>)

  /** The selection holds each delimiter at most once. */
  predicate Valid(a: DelimiterAdapter) {
    NoDup(a.selected)
  }

  /** `DelimiterAdapter(delimiters, selected)`. */
  function Create(delimiters: seq<string>, selected: seq<string>): (a: DelimiterAdapter)
    ensures Valid(a) && a.delimiterList == delimiters
    ensures forall x :: x in a.selected <==> x in selected
  {
    DistinctSameElements(selected);
    DelimiterAdapter(delimiters, Distinct(selected))
  }

  /** The sequence without `x`, order kept. */
  function Remove(xs: seq<string>, x: string): (r: seq<string>)
    ensures forall y :: y in r <==> y in xs && y != x
    ensures NoDup(xs) ==> NoDup(r)
    ensures x !in xs ==> r == xs
    decreases |xs|
  {
    if |xs| == 0 then []
    else
      var tail := Remove(xs[1..], x);
      assert forall i :: 1 <= i < |xs| ==> xs[i] == xs[1..][i - 1];
      if xs[0] == x then tail
      else
        var r := [xs[0]] + tail;
        assert NoDup(xs) ==> xs[0] !in xs[1..] && NoDup(xs[1..]);
        assert NoDup(xs) ==> xs[0] !in tail;
        assert forall i :: 1 <= i < |r| ==> r[i] == tail[i - 1];
        r
  }

  /**
   * A click on the row showing `d`: untick it if ticked, tick it otherwise.
   * The result also gives the row's checkbox state after the click.
   */
  function Toggle(a: DelimiterAdapter, d: string): (res: (DelimiterAdapter, bool))
    requires Valid(a)
    ensures Valid(res.0) && res.0.delimiterList == a.delimiterList
    ensures d in res.0.selected <==> d !in a.selected
    ensures res.1 <==> d in res.0.selected
    ensures forall x :: x != d ==> (x in res.0.selected <==> x in a.selected)
  {
    if d in a.selected then (DelimiterAdapter(a.delimiterList, Remove(a.selected, d)), false)
    else (DelimiterAdapter(a.delimiterList, a.selected + [d]), true)
  }

  /** Two clicks on one row restore the selection as a set; ticking then unticking restores it exactly. */
  lemma ToggleTwice(a: DelimiterAdapter, d: string)
    requires Valid(a)
    ensures var a2 := Toggle(Toggle(a, d).0, d).0;
            && a2.delimiterList == a.delimiterList
            && (forall x :: x in a2.selected <==> x in a.selected)
            && (d !in a.selected ==> a2 == a)
  {
    if d !in a.selected {
      var s := a.selected + [d];
      assert s[..|s| - 1] == a.selected;
      RemoveLast(a.selected, d);
    }
  }

  lemma {:induction false} RemoveLast(xs: seq<string>, d: string)
    requires d !in xs
    ensures Remove(xs + [d], d) == xs
    decreases |xs|
  {
    if |xs| == 0 {
      assert [d][1..] == [];
    } else {
      assert (xs + [d])[1..] == xs[1..] + [d];
      RemoveLast(xs[1..], d);
      assert [xs[0]] + xs[1..] == xs;
    }
  }

  /** `resetSelection()`. */
  function Reset(a: DelimiterAdapter): (r: DelimiterAdapter)
    ensures Valid(r) && r.delimiterList == a.delimiterList
    ensures forall x :: x !in r.selected
  {
    DelimiterAdapter(a.delimiterList, [])
  }

  /** `getSelectedDelimiters()`: the ticked delimiters, each once, in the order they were ticked. */
  function GetSelected(a: DelimiterAdapter): (r: seq<string>)
    requires Valid(a)
    ensures NoDup(r)
    ensures forall x :: x in r <==> x in a.selected
  {
    a.selected
  }

  /** `updateDelimiters(newDelimiters)`: the shown list is replaced; the ticks stay, listed or not. */
  function Update(a: DelimiterAdapter, newDelimiters: seq<string>): (r: DelimiterAdapter)
    ensures r.delimiterList == newDelimiters && r.selected == a.selected
  {
    DelimiterAdapter(newDelimiters, a.selected)
  }

  /** `getItemCount()`. */
  function ItemCount(a: DelimiterAdapter): nat {
    |a.delimiterList|
  }

  /** The checkbox state `onBindViewHolder` gives the row at `position`. */
  function IsChecked(a: DelimiterAdapter, position: nat): bool
    requires position < |a.delimiterList|
  {
    a.delimiterList[position] in a.selected
  }

  /** A click on a bound row flips its checkbox and no other row's. */
  lemma ToggleFlipsOneRow(a: DelimiterAdapter, position: nat, other: nat)
    requires Valid(a) && position < ItemCount(a) && other < ItemCount(a)
    ensures var a' := Toggle(a, a.delimiterList[position]).0;
            && ItemCount(a') == ItemCount(a)
            && IsChecked(a', position) == !IsChecked(a, position)
            && (a.delimiterList[other] != a.delimiterList[position] ==> IsChecked(a', other) == IsChecked(a, other))
  {
  }

  /**
   * The dialog's selection is what the scanner splits on: its pattern holds
   * exactly the ticked delimiters that are not blank, each once.
   */
  lemma SelectionIsPattern(a: DelimiterAdapter)
    requires Valid(a)
    ensures var p := ArtistSplit.Pattern(GetSelected(a));
            NoDup(p) && forall d :: d in p <==> d in a.selected && !IsBlank(d)
  {
  }

  /** After a reset the scanner's split branch is off: the configured list is empty. */
  lemma ResetDisablesSplit(a: DelimiterAdapter)
    ensures !ArtistSplit.SplitEnabled(Some(GetSelected(Reset(a))))
  {
  }
}
