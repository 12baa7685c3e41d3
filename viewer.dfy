/**
 * The photo viewer page of dash/app.js: a slider over a list of daily images,
 * previous/next buttons, and an autoplay that steps the slider forward on a
 * timer and stops at the last image.
 *
 * `View` is the page's state as a value and the functions below say what
 * each event handler does to it; module ViewerPage holds the same state in
 * the fields that the script and the page update in place.
 */
module Viewer {
  import opened Wrappers
  import Decimal

  /**
   * images        the list loaded from the index file (never changed after load)
   * maxIndex      the script's `maxIndex`, |images| - 1
   * sliderMax     the slider's `max` attribute
   * slider        the slider's value, the position that navigation steps from
   * shown         the index last given to `updateImage`: the photo and the label show it
   * timer         the period of the live interval timer, `None` when `intervalId` is null
   * playDisabled, pauseDisabled   the two buttons' `disabled` flags
   * speed         the speed selector's value, in milliseconds
   */
  datatype View = View(
    images: seq<string>,
    maxIndex: int,
    sliderMax: int,
    slider: int,
    shown: int,
    timer: Option<int>,
    playDisabled: bool,
    pauseDisabled: bool,
    speed: int)
  {
    predicate Playing() {
      timer.Some?
    }
  }

  /** The photo's `src`: an index outside the list reads `undefined` from the array. */
  function PhotoSrc(images: seq<string>, index: int): string {
    "assets/" + (if 0 <= index < |images| then images[index] else "undefined")
  }

  /** The label under the slider: the 1-based position and the count. */
  function LabelText(index: int, count: nat): string {
    Decimal.IntToString(index + 1) + " of " + Decimal.IntToString(count)
  }

  /** The position of the first space in `s`, or |s| when there is none. */
  function FirstSpace(s: string): (k: nat)
    ensures k <= |s|
  {
    if s == [] || s[0] == ' ' then 0 else 1 + FirstSpace(s[1..])
  }

  /** A numeral followed by a space ends at the first space. */
  lemma {:induction false} FirstSpaceAfterNumeral(a: string, x: string)
    requires Decimal.AllDigits(a)
    ensures FirstSpace(a + " " + x) == |a|
  {
    if a != [] {
      assert (a + " " + x)[1..] == a[1..] + " " + x;
      FirstSpaceAfterNumeral(a[1..], x);
    }
  }

  /** Two numerals that are each followed by a space agree up to it. */
  lemma SameNumeralBeforeSpace(a: string, b: string, x: string, y: string)
    requires Decimal.AllDigits(a) && Decimal.AllDigits(b)
    requires a + " " + x == b + " " + y
    ensures a == b
  {
    var s := a + " " + x;
    FirstSpaceAfterNumeral(a, x);
    FirstSpaceAfterNumeral(b, y);
    assert a == s[..|a|] && b == s[..|b|];
  }

  /** The label tells the positions apart: different indexes get different labels. */
  lemma LabelIdentifiesPosition(i: int, j: int, count: nat)
    requires -1 <= i && -1 <= j
    requires LabelText(i, count) == LabelText(j, count)
    ensures i == j
  {
    var a, b := Decimal.NatToString(i + 1), Decimal.NatToString(j + 1);
    var rest := "of " + Decimal.IntToString(count);
    assert LabelText(i, count) == a + " " + rest;
    assert LabelText(j, count) == b + " " + rest;
    SameNumeralBeforeSpace(a, b, rest, rest);
    Decimal.NatToStringInjective(i + 1, j + 1);
  }

  /**
   * What holds after load and after every handler: the slider stays within
   * the list, the buttons agree with the timer, and the shown image differs
   * from the slider position only after the wrap of `playSlideShow`, which
   * moves the slider to 0 while the last image stays on screen.
   */
  ghost predicate Inv(v: View) {
    && v.maxIndex == |v.images| - 1
    && v.sliderMax == v.maxIndex
    && (0 <= v.slider <= v.maxIndex || (v.images == [] && -1 <= v.slider <= 0))
    && (v.shown == v.slider || (v.slider == 0 && v.shown == v.maxIndex))
    && v.playDisabled == v.Playing()
    && v.pauseDisabled == !v.Playing()
  }

  /** `toggleButtons`: play is disabled while playing, pause while not. */
  function ToggleButtons(v: View): (r: View)
    ensures r.playDisabled == r.Playing() && r.pauseDisabled == !r.Playing()
    ensures r.(playDisabled := v.playDisabled, pauseDisabled := v.pauseDisabled) == v
  {
    v.(playDisabled := v.Playing(), pauseDisabled := !v.Playing())
  }

  /** The page right after the index file has loaded: the last image, no autoplay. */
  function Load(images: seq<string>, speed: int): (r: View)
    ensures Inv(r) && !r.Playing() && r.images == images && r.speed == speed
    ensures r.maxIndex == |images| - 1 && r.sliderMax == r.maxIndex
    ensures r.slider == r.shown == |images| - 1
  {
    var v := View(images, |images| - 1, |images| - 1, 0, 0, None, false, false, speed);
    ToggleButtons(UpdateImage(v, v.maxIndex))
  }

  /** `updateImage(index)`: moves the slider and shows the image at `index`. */
  function UpdateImage(v: View, index: int): View {
    v.(slider := index, shown := index)
  }

  /** Dragging the slider to `value`, which the range input keeps within its bounds. */
  function Scrub(v: View, value: int): (r: View)
    requires 0 <= value <= v.sliderMax
    ensures r.slider == r.shown == value
    ensures r.(slider := v.slider, shown := v.shown) == v
    ensures Inv(v) ==> Inv(r)
  {
    UpdateImage(v, value)
  }

  /** `changeImage(direction)`: a step that is taken only when it lands inside the list. */
  function ChangeImage(v: View, direction: int): (r: View)
    ensures 0 <= v.slider + direction < |v.images| ==> r.slider == r.shown == v.slider + direction
    ensures !(0 <= v.slider + direction < |v.images|) ==> r == v
    ensures r.(slider := v.slider, shown := v.shown) == v
    ensures Inv(v) ==> Inv(r)
  {
    var target := v.slider + direction;
    if 0 <= target < |v.images| then UpdateImage(v, target) else v
  }

  /**
   * `playSlideShow`: the old timer is replaced by one with the selected
   * period. At the last index only the slider goes back to 0; the photo and
   * the label keep showing the last image.
   */
  function Play(v: View): (r: View)
    ensures r.Playing() && r.timer == Some(v.speed) && r.playDisabled && !r.pauseDisabled
    ensures r.slider == (if v.slider == v.maxIndex then 0 else v.slider)
    ensures r.(slider := v.slider, timer := v.timer, playDisabled := v.playDisabled, pauseDisabled := v.pauseDisabled) == v
    ensures Inv(v) ==> Inv(r)
  {
    var w := v.(timer := Some(v.speed));
    ToggleButtons(if w.slider == w.maxIndex then w.(slider := 0) else w)
  }

  /**
   * One firing of the interval timer: a step forward while the slider is
   * before the last index, otherwise the timer is cleared and play re-enabled.
   */
  function Tick(v: View): (r: View)
    requires v.Playing()
    ensures v.slider < |v.images| - 1 && Inv(v) ==>
              r.slider == r.shown == v.slider + 1 && r.(slider := v.slider, shown := v.shown) == v
    ensures v.slider >= |v.images| - 1 ==>
              !r.Playing() && !r.playDisabled && r.pauseDisabled
              && r.(timer := v.timer, playDisabled := v.playDisabled, pauseDisabled := v.pauseDisabled) == v
    ensures r.images == v.images && r.speed == v.speed && r.maxIndex == v.maxIndex
    ensures Inv(v) ==> Inv(r)
  {
    if v.slider < |v.images| - 1 then ChangeImage(v, 1) else ToggleButtons(v.(timer := None))
  }

  /** The pause button: the timer is cleared and nothing moves. */
  function Pause(v: View): (r: View)
    ensures !r.Playing() && !r.playDisabled && r.pauseDisabled
    ensures r.(timer := v.timer, playDisabled := v.playDisabled, pauseDisabled := v.pauseDisabled) == v
    ensures Inv(v) ==> Inv(r)
  {
    ToggleButtons(v.(timer := None))
  }

  /** A new speed takes effect at once while playing, and at the next play otherwise. */
  function ChangeSpeed(v: View, speed: int): (r: View)
    ensures !v.Playing() ==> r == v.(speed := speed)
    ensures v.Playing() ==> r == Play(v.(speed := speed)) && r.timer == Some(speed)
    ensures Inv(v) ==> Inv(r)
  {
    var w := v.(speed := speed);
    if w.Playing() then Play(w) else w
  }

  /** The page after `n` further firings of the timer; a cleared timer fires no more. */
  function AfterTicks(v: View, n: nat): View
    decreases n
  {
    if n == 0 || !v.Playing() then v else AfterTicks(Tick(v), n - 1)
  }

  lemma {:induction false} AfterTicksAdd(v: View, a: nat, b: nat)
    ensures AfterTicks(v, a + b) == AfterTicks(AfterTicks(v, a), b)
    decreases a
  {
    if a != 0 && v.Playing() {
      AfterTicksAdd(Tick(v), a - 1, b);
    }
  }

  /**
   * Autoplay from a position before the last: the j-th firing shows
   * position slider + j, and the timer stays live up to the last index.
   */
  lemma {:induction false} AutoplayAdvances(v: View, j: nat)
    requires Inv(v) && v.Playing() && 0 <= v.slider < v.maxIndex
    requires j <= v.maxIndex - v.slider
    ensures Inv(AfterTicks(v, j)) && AfterTicks(v, j).timer == v.timer
    ensures AfterTicks(v, j).images == v.images
    ensures AfterTicks(v, j).slider == v.slider + j
    ensures j > 0 ==> AfterTicks(v, j).shown == v.slider + j
    decreases j
  {
    if j > 0 {
      var t := Tick(v);
      if j > 1 {
        AutoplayAdvances(t, j - 1);
      }
    }
  }

  /**
   * Autoplay from any position in range stops at the last index after
   * exactly maxIndex - slider + 1 firings, and nothing changes afterwards.
   */
  lemma AutoplayStops(v: View, m: nat)
    requires Inv(v) && v.Playing() && 0 <= v.slider <= v.maxIndex
    requires m > v.maxIndex - v.slider
    ensures var last := AfterTicks(v, v.maxIndex - v.slider + 1);
      && !last.Playing() && last.slider == last.shown == v.maxIndex
      && AfterTicks(v, m) == last
  {
    var n := v.maxIndex - v.slider;
    var atEnd := AfterTicks(v, n);
    if n > 0 {
      AutoplayAdvances(v, n);
    }
    assert atEnd.slider == atEnd.shown == v.maxIndex && atEnd.Playing() && Inv(atEnd);
    AfterTicksAdd(v, n, 1);
    var last := Tick(atEnd);
    assert AfterTicks(last, 0) == last;
    assert AfterTicks(v, n + 1) == last;
    AfterTicksAdd(v, n + 1, m - (n + 1));
  }

  /** Autoplay keeps the slider within the list at every firing. */
  lemma {:induction false} AutoplayStaysInRange(v: View, n: nat)
    requires Inv(v) && v.images != []
    ensures Inv(AfterTicks(v, n)) && 0 <= AfterTicks(v, n).slider <= v.maxIndex
    ensures AfterTicks(v, n).images == v.images
    decreases n
  {
    if n != 0 && v.Playing() {
      AutoplayStaysInRange(Tick(v), n - 1);
    }
  }

  /**
   * While the position is past the first image, autoplay never shows the
   * first image.
   */
  lemma {:induction false} AutoplayAvoidsFirst(v: View, n: nat)
    requires Inv(v) && v.slider >= 1 && v.shown >= 1
    ensures AfterTicks(v, n).shown >= 1
    decreases n
  {
    if n != 0 && v.Playing() {
      AutoplayAvoidsFirst(Tick(v), n - 1);
    }
  }

  /**
   * The wrap of `playSlideShow` at the last index: the slider goes to 0, the
   * last image stays on screen, the first firing moves to index 1, and the
   * image at index 0 is never shown during that run.
   */
  lemma WrapSkipsFirstImage(v: View, n: nat)
    requires Inv(v) && |v.images| >= 2 && v.slider == v.maxIndex
    ensures Play(v).slider == 0 && Play(v).shown == v.maxIndex
    ensures Tick(Play(v)).slider == Tick(Play(v)).shown == 1
    ensures AfterTicks(Play(v), n).shown != 0
  {
    var p := Play(v);
    if n > 0 {
      AutoplayAvoidsFirst(Tick(p), n - 1);
    }
  }

  /** A speed change while paused starts nothing and moves nothing. */
  lemma SpeedChangeWhilePaused(v: View, speed: int)
    requires Inv(v) && !v.Playing()
    ensures !ChangeSpeed(v, speed).Playing()
    ensures ChangeSpeed(v, speed).slider == v.slider && ChangeSpeed(v, speed).shown == v.shown
    ensures Play(ChangeSpeed(v, speed)).timer == Some(speed)
  {
  }
}
