/**
 * `AbsPlayerControlsFragment`: the progress widget and time texts updated on
 * every progress tick, and the tint and icon of the shuffle and repeat
 * buttons, which a preference may swap.
 */
module PlayerControls {
  import opened Kt

  // ---------------------------------------------------------------------
  // 32-bit Kotlin `Int`
  // ---------------------------------------------------------------------

  const IntMin := -0x8000_0000
  const IntMax := 0x7FFF_FFFF

  /** Kotlin `Int`. */
  type Int32 = x: int | IntMin <= x <= IntMax

  /** Two's-complement wrap-around of an exact result to 32 bits. */
  function Wrap32(x: int): (r: Int32)
    ensures (r - x) % 0x1_0000_0000 == 0
    ensures IntMin <= x <= IntMax ==> r == x
  {
    var m := x % 0x1_0000_0000;
    if m <= IntMax then m else m - 0x1_0000_0000
  }

  // ---------------------------------------------------------------------
  // onUpdateProgressViews: clamping and the progress widget
  // ---------------------------------------------------------------------

  /** `total.coerceAtLeast(0)`. */
  function SafeTotal(total: Int32): (t: Int32)
    ensures t >= 0 && t >= total
    ensures total >= 0 ==> t == total
    ensures total < 0 ==> t == 0
  {
    if total < 0 then 0 else total
  }

  /** `progress.coerceIn(0, safeTotal)`; the bounds are ordered, so it never throws. */
  function SafeProgress(progress: Int32, total: Int32): (p: Int32)
    ensures 0 <= p <= SafeTotal(total)
    ensures 0 <= progress <= SafeTotal(total) ==> p == progress
    ensures progress < 0 ==> p == 0
    ensures progress > SafeTotal(total) ==> p == SafeTotal(total)
  {
    var hi := SafeTotal(total);
    if progress < 0 then 0 else if progress > hi then hi else progress
  }

  /** The clamped progress is the point of `[0, safeTotal]` nearest to the progress. */
  lemma SafeProgressNearest(progress: Int32, total: Int32, v: int)
    requires 0 <= v <= SafeTotal(total)
    ensures Abs(SafeProgress(progress, total) - progress) <= Abs(v - progress)
  {
  }

  function Abs(x: int): nat {
    if x < 0 then -x else x
  }

  /** Clamping a clamped pair changes nothing. */
  lemma ClampIdempotent(progress: Int32, total: Int32)
    ensures SafeTotal(SafeTotal(total)) == SafeTotal(total)
    ensures SafeProgress(SafeProgress(progress, total), SafeTotal(total)) == SafeProgress(progress, total)
  {
  }

  /**
   * The progress widget the fragment drives: a slider (`valueFrom`,
   * `valueTo`, `value`), a seek bar (`max`, and the `progress` it is set or
   * animated to), or none.
   */
  datatype ProgressWidget =
    | NoWidget
    | Slider(valueFrom: int, valueTo: int, value: int)
    | SeekBar(max: int, progress: int, animated: bool)

  /** Whether the widget's value lies within its range. */
  predicate InRange(w: ProgressWidget) {
    match w
    case NoWidget => true
    case Slider(lo, hi, v) => lo <= v <= hi
    case SeekBar(hi, v, _) => 0 <= v <= hi
  }

  /**
   * The widget after a tick: the seek bar when there is one (set directly
   * while the user drags it, animated otherwise), else the slider.
   */
  function UpdateWidget(w: ProgressWidget, isSeeking: bool, progress: Int32, total: Int32): (r: ProgressWidget)
    ensures r.NoWidget? <==> w.NoWidget?
    ensures r.Slider? ==> r == Slider(0, SafeTotal(total), SafeProgress(progress, total))
    ensures r.SeekBar? ==> r.max == SafeTotal(total) && r.progress == SafeProgress(progress, total)
                           && r.animated == !isSeeking
    ensures w.SeekBar? <==> r.SeekBar?
  {
    var st := SafeTotal(total);
    var sp := SafeProgress(progress, total);
    match w
    case NoWidget => NoWidget
    case Slider(_, _, _) => Slider(0, st, sp)
    case SeekBar(_, _, _) => SeekBar(st, sp, !isSeeking)
  }

  /** Whatever the tick reports, the widget ends within its range. */
  lemma UpdateWidgetInRange(w: ProgressWidget, isSeeking: bool, progress: Int32, total: Int32)
    ensures InRange(UpdateWidget(w, isSeeking, progress, total))
  {
  }

  /** A tick that already lies in range is shown as it is. */
  lemma UpdateWidgetExact(w: ProgressWidget, isSeeking: bool, progress: Int32, total: Int32)
    requires 0 <= progress <= total
    ensures var r := UpdateWidget(w, isSeeking, progress, total);
            (r.Slider? ==> r.value == progress && r.valueTo == total)
            && (r.SeekBar? ==> r.progress == progress && r.max == total)
  {
  }

  // ---------------------------------------------------------------------
  // onUpdateProgressViews: the time texts
  // ---------------------------------------------------------------------

  /** The time-display preference. */
  datatype TimeDisplayMode = TotalTime | RemainingTime | ToggleTime | OtherTime

  /**
   * The two time labels and the total label's click listener; a label's
   * text is the duration in milliseconds handed to the formatter, and the
   * toggle listener remembers the tick it was installed on.
   */
  datatype TimeViews = TimeViews(totalText: Option<int>, listener: Option<(Int32, Int32)>, currentText: Option<int>)

  /** `(total - progress).toLong()`: the subtraction is done in `Int`, then widened. */
  function Remaining(progress: Int32, total: Int32): (r: Int32)
    ensures IntMin <= total - progress <= IntMax ==> r == total - progress
    ensures (r - (total - progress)) % 0x1_0000_0000 == 0
  {
    Wrap32(total - progress)
  }

  /** The remaining time is not clamped: a progress past the total shows a negative duration. */
  lemma RemainingCanBeNegative()
    ensures Remaining(5000, 3000) == -2000
  {
  }

  /** The subtraction can also wrap: a maximal total less a negative progress shows the most negative `Int`. */
  lemma RemainingCanWrap()
    ensures Remaining(-1, IntMax) == IntMin
  {
  }

  /**
   * The time labels after a tick, given the time mode and the
   * `isShowingRemainingTime` preference. An unrecognised mode leaves the
   * total label and its listener as they were.
   */
  function UpdateTimes(v: TimeViews, mode: TimeDisplayMode, showingRemaining: bool,
                       progress: Int32, total: Int32): (r: TimeViews)
    ensures r.currentText == Some(progress)
    ensures mode == TotalTime ==> r.totalText == Some(total) && r.listener.None?
    ensures mode == RemainingTime ==> r.totalText == Some(Remaining(progress, total)) && r.listener.None?
    ensures mode == ToggleTime ==>
              r.totalText == Some(if showingRemaining then Remaining(progress, total) else total)
              && r.listener == Some((progress, total))
    ensures mode == OtherTime ==> r.totalText == v.totalText && r.listener == v.listener
  {
    var cur := Some(progress);
    match mode
    case TotalTime => TimeViews(Some(total), None, cur)
    case RemainingTime => TimeViews(Some(Remaining(progress, total)), None, cur)
    case ToggleTime =>
      TimeViews(Some(if showingRemaining then Remaining(progress, total) else total), Some((progress, total)), cur)
    case OtherTime => TimeViews(v.totalText, v.listener, cur)
  }

  /** The views `onUpdateProgressViews` draws: the progress widget and the time labels. */
  datatype ControlViews = ControlViews(widget: ProgressWidget, times: TimeViews)

  /** `onUpdateProgressViews(progress, total)`: the widget, then the time labels, from the same tick. */
  function UpdateProgressViews(v: ControlViews, isSeeking: bool, mode: TimeDisplayMode, showingRemaining: bool,
                               progress: Int32, total: Int32): (r: ControlViews)
    ensures r.widget == UpdateWidget(v.widget, isSeeking, progress, total)
    ensures r.times == UpdateTimes(v.times, mode, showingRemaining, progress, total)
  {
    ControlViews(UpdateWidget(v.widget, isSeeking, progress, total),
                 UpdateTimes(v.times, mode, showingRemaining, progress, total))
  }

  /**
   * A click on the total label: with the toggle listener installed it flips
   * the preference and calls `onUpdateProgressViews` again with the tick it
   * captured, so the widget is redrawn as well as the labels (with the
   * seeking flag and time mode current at the click); with none, nothing
   * happens.
   */
  function ClickTotal(v: ControlViews, isSeeking: bool, mode: TimeDisplayMode, showingRemaining: bool): (r: (ControlViews, bool))
    ensures v.times.listener.None? ==> r == (v, showingRemaining)
    ensures v.times.listener.Some? ==> r.1 == !showingRemaining
    ensures v.times.listener.Some? ==>
              var (progress, total) := v.times.listener.value;
              && r.0.widget == UpdateWidget(v.widget, isSeeking, progress, total)
              && r.0.times == UpdateTimes(v.times, mode, !showingRemaining, progress, total)
  {
    match v.times.listener
    case None => (v, showingRemaining)
    case Some((progress, total)) =>
      (UpdateProgressViews(v, isSeeking, mode, !showingRemaining, progress, total), !showingRemaining)
  }

  /** In the total and remaining modes a click does nothing: the listener was cleared. */
  lemma FixedModesIgnoreClicks(v: ControlViews, isSeeking: bool, mode: TimeDisplayMode, showingRemaining: bool,
                               progress: Int32, total: Int32, isSeeking': bool, mode': TimeDisplayMode)
    requires mode == TotalTime || mode == RemainingTime
    ensures var u := UpdateProgressViews(v, isSeeking, mode, showingRemaining, progress, total);
            ClickTotal(u, isSeeking', mode', !showingRemaining) == (u, !showingRemaining)
  {
  }

  /**
   * In toggle mode a click swaps the label between the total and the
   * remaining time of the same tick, and a second click restores the
   * labels and the preference; the widget shows that tick throughout.
   */
  lemma ToggleClickTwice(v: ControlViews, isSeeking: bool, showingRemaining: bool, progress: Int32, total: Int32)
    ensures var u := UpdateProgressViews(v, isSeeking, ToggleTime, showingRemaining, progress, total);
            var (u1, s1) := ClickTotal(u, isSeeking, ToggleTime, showingRemaining);
            var (u2, s2) := ClickTotal(u1, isSeeking, ToggleTime, s1);
            && s1 == !showingRemaining
            && u1.times.totalText == Some(if showingRemaining then total else Remaining(progress, total))
            && (u2, s2) == (u, showingRemaining)
  {
  }

  /**
   * The captured tick goes stale: if the user has since dragged the
   * slider to another value, a click on the total label puts the slider
   * back at the progress of the tick the listener captured.
   */
  lemma ClickRevertsSlider(v: ControlViews, isSeeking: bool, showingRemaining: bool,
                           progress: Int32, total: Int32, dragged: int)
    requires 0 <= progress <= total && dragged != progress
    requires v.widget == Slider(0, total, dragged) && v.times.listener == Some((progress, total))
    ensures var (u, _) := ClickTotal(v, isSeeking, ToggleTime, showingRemaining);
            u.widget == Slider(0, total, progress) && u.widget != v.widget
  {
  }

  // ---------------------------------------------------------------------
  // Shuffle and repeat buttons
  // ---------------------------------------------------------------------

  /** The two physical buttons of the layout. */
  datatype Button = RepeatButton | ShuffleButton

  /** `getRepeat()`: the button that acts as repeat. */
  function GetRepeat(swap: bool): (b: Button)
    ensures b == RepeatButton <==> !swap
  {
    if !swap then RepeatButton else ShuffleButton
  }

  /** `getShuffle()`: the button that acts as shuffle. */
  function GetShuffle(swap: bool): (b: Button)
    ensures b == ShuffleButton <==> !swap
  {
    if !swap then ShuffleButton else RepeatButton
  }

  /** The two roles always land on two different buttons, which between them cover the layout. */
  lemma RolesPartitionButtons(swap: bool, b: Button)
    ensures GetRepeat(swap) != GetShuffle(swap)
    ensures b == GetRepeat(swap) || b == GetShuffle(swap)
    ensures GetRepeat(swap) == GetShuffle(!swap)
  {
  }

  datatype Icon = IcShuffle | IcRepeat | IcRepeatOne

  /** What a button shows: its image resource and colour filter, unset until first assigned. */
  datatype Look = Look(icon: Option<Icon>, tint: Option<int>)

  /** The looks of the two physical buttons. */
  datatype Buttons = Buttons(repeat: Look, shuffle: Look)

  function LookOf(bs: Buttons, b: Button): Look {
    if b == RepeatButton then bs.repeat else bs.shuffle
  }

  function WithLook(bs: Buttons, b: Button, l: Look): (r: Buttons)
    ensures LookOf(r, b) == l
    ensures forall o :: o != b ==> LookOf(r, o) == LookOf(bs, o)
  {
    if b == RepeatButton then bs.(repeat := l) else bs.(shuffle := l)
  }

  /** The player's shuffle mode. */
  datatype ShuffleMode = ShuffleNone | ShuffleOn

  /** The player's repeat mode; `RepeatOther` stands for any value outside the three known ones. */
  datatype RepeatMode = RepeatNone | RepeatAll | RepeatThis | RepeatOther

  /** The two colours the fragment tints its controls with. */
  datatype Colors = Colors(enabled: int, disabled: int)

  /** `setUpShuffleButton` and `setUpRepeatButton`: the shuffle icon on the shuffle role, the repeat icon on the repeat role. */
  function SetUpButtons(bs: Buttons, swap: bool): (r: Buttons)
    ensures LookOf(r, GetShuffle(swap)).icon == Some(IcShuffle)
    ensures LookOf(r, GetRepeat(swap)).icon == Some(IcRepeat)
    ensures forall b :: LookOf(r, b).tint == LookOf(bs, b).tint
  {
    var s := GetShuffle(swap);
    var bs1 := WithLook(bs, s, LookOf(bs, s).(icon := Some(IcShuffle)));
    var p := GetRepeat(swap);
    WithLook(bs1, p, LookOf(bs1, p).(icon := Some(IcRepeat)))
  }

  /** The shuffle role's colour for a mode: enabled exactly when shuffling. */
  function ShuffleTint(mode: ShuffleMode, c: Colors): (t: int)
    ensures mode == ShuffleOn ==> t == c.enabled
    ensures mode != ShuffleOn ==> t == c.disabled
  {
    match mode
    case ShuffleOn => c.enabled
    case _ => c.disabled
  }

  /** `updateShuffleState()`: tints the shuffle role and touches nothing else. */
  function UpdateShuffleState(bs: Buttons, mode: ShuffleMode, c: Colors, swap: bool): (r: Buttons)
    ensures LookOf(r, GetShuffle(swap)) == LookOf(bs, GetShuffle(swap)).(tint := Some(ShuffleTint(mode, c)))
    ensures LookOf(r, GetRepeat(swap)) == LookOf(bs, GetRepeat(swap))
  {
    var s := GetShuffle(swap);
    WithLook(bs, s, LookOf(bs, s).(tint := Some(ShuffleTint(mode, c))))
  }

  /** The repeat role's icon and colour for a mode; an unknown mode sets nothing. */
  function RepeatLook(mode: RepeatMode, c: Colors): (l: Option<Look>)
    ensures l.None? <==> mode == RepeatOther
    ensures l.Some? ==> l.value.icon == Some(if mode == RepeatThis then IcRepeatOne else IcRepeat)
    ensures l.Some? ==> l.value.tint == Some(if mode == RepeatNone then c.disabled else c.enabled)
  {
    match mode
    case RepeatNone => Some(Look(Some(IcRepeat), Some(c.disabled)))
    case RepeatAll => Some(Look(Some(IcRepeat), Some(c.enabled)))
    case RepeatThis => Some(Look(Some(IcRepeatOne), Some(c.enabled)))
    case RepeatOther => None
  }

  /** `updateRepeatState()`: restyles the repeat role and touches nothing else. */
  function UpdateRepeatState(bs: Buttons, mode: RepeatMode, c: Colors, swap: bool): (r: Buttons)
    ensures RepeatLook(mode, c).Some? ==> LookOf(r, GetRepeat(swap)) == RepeatLook(mode, c).value
    ensures RepeatLook(mode, c).None? ==> r == bs
    ensures LookOf(r, GetShuffle(swap)) == LookOf(bs, GetShuffle(swap))
  {
    match RepeatLook(mode, c)
    case None => bs
    case Some(l) => WithLook(bs, GetRepeat(swap), l)
  }

  /**
   * After set-up and both updates, in either order, the shuffle role shows
   * the shuffle icon in its mode's colour and the repeat role shows its
   * mode's look: the two updates never restyle each other's button.
   */
  lemma UpdatesCommute(bs: Buttons, swap: bool, sm: ShuffleMode, rm: RepeatMode, c: Colors)
    requires rm != RepeatOther
    ensures var b0 := SetUpButtons(bs, swap);
            var r1 := UpdateRepeatState(UpdateShuffleState(b0, sm, c, swap), rm, c, swap);
            var r2 := UpdateShuffleState(UpdateRepeatState(b0, rm, c, swap), sm, c, swap);
            && r1 == r2
            && LookOf(r1, GetShuffle(swap)) == Look(Some(IcShuffle), Some(ShuffleTint(sm, c)))
            && LookOf(r1, GetRepeat(swap)) == RepeatLook(rm, c).value
  {
    RolesPartitionButtons(swap, RepeatButton);
  }

  /** The repeat role is lit in every known mode but "none", and the shuffle role only when shuffling. */
  lemma EnabledTints(sm: ShuffleMode, rm: RepeatMode, c: Colors)
    requires c.enabled != c.disabled && rm != RepeatOther
    ensures ShuffleTint(sm, c) == c.enabled <==> sm == ShuffleOn
    ensures RepeatLook(rm, c).value.tint == Some(c.enabled) <==> rm != RepeatNone
  {
  }
}
