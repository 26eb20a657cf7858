/** The floating player bubble: its clock text, its own repeat button, the mini/full toggle,
  * seeking by a click on the progress bar and the lyric line that follows playback. */
module PlayerBubble {
  import opened Wrappers
  import Numbers
  import PlaylistControls

  /** A JavaScript number as the bubble meets it: a finite value, an infinity, or NaN. */
  datatype JsNumber = Finite(value: real) | PosInfinity | NegInfinity | NaN

  // ---------------------------------------------------------------- format

  /** `format(s)`: "0:00" for zero and for anything that is not finite; otherwise whole minutes,
    * a colon and the whole seconds of the minute padded to two digits. */
  function Format(s: JsNumber): string {
    if !s.Finite? || s.value == 0.0 then "0:00"
    else Numbers.ClockText((s.value / 60.0).Floor, Numbers.RealTruncRem(s.value, 60.0).Floor)
  }

  /** For a time that is not negative, the whole seconds of the minute are the whole seconds
    * less the whole minutes' worth. */
  lemma {:induction false} SecondsOfMinute(x: real)
    requires x >= 0.0
    ensures var m := (x / 60.0).Floor;
      && m >= 0
      && Numbers.RealTruncRem(x, 60.0).Floor == x.Floor - 60 * m
      && 0 <= x.Floor - 60 * m < 60
  {
    var m := (x / 60.0).Floor;
    var rem := Numbers.RealTruncRem(x, 60.0);
    assert rem == x - 60.0 * (m as real);
    assert 0.0 <= rem < 60.0;
    var k := 60 * m;
    assert (k as real) == 60.0 * (m as real);
    assert (x - k as real).Floor == x.Floor - k;
  }

  /** For a positive time the clock text reads back as its whole seconds. */
  lemma {:induction false} FormatRoundTrip(x: real)
    requires x > 0.0
    ensures Numbers.IsClock(Format(Finite(x)))
    ensures Numbers.ParseClock(Format(Finite(x))) == x.Floor
  {
    SecondsOfMinute(x);
    var m := (x / 60.0).Floor;
    var sec := x.Floor - 60 * m;
    assert Format(Finite(x)) == Numbers.ClockText(m, sec);
    Numbers.ClockRoundTrip(m, sec);
  }

  /** Zero, infinities and NaN all show the empty clock. */
  lemma {:induction false} FormatOfNothing(s: JsNumber)
    requires !s.Finite? || s.value == 0.0
    ensures Numbers.IsClock(Format(s)) && Numbers.ParseClock(Format(s)) == 0
  {
    var z := "0:00";
    assert Format(s) == z;
    assert z[..1] == "0" && z[2..] == "00" && z[2..][..1] == "0";
    assert "0"[..0] == "";
  }

  // ---------------------------------------------------------------- repeat and mini toggle

  /** `repeatCycle`: off, then one, then all, then off again. */
  function BubbleNextMode(m: PlaylistControls.RepeatMode): (n: PlaylistControls.RepeatMode)
    ensures n != m
  {
    match m
    case Off => PlaylistControls.One
    case One => PlaylistControls.All
    case All => PlaylistControls.Off
  }

  /** The bubble's cycle runs the controls panel's cycle backwards. */
  lemma {:induction false} CyclesAreInverse(m: PlaylistControls.RepeatMode)
    ensures BubbleNextMode(PlaylistControls.NextMode(m)) == m
    ensures PlaylistControls.NextMode(BubbleNextMode(m)) == m
  {
  }

  class Bubble {
    var isMini: bool
    var repeat: PlaylistControls.RepeatMode

    /** The bubble starts small, with repeat off. */
    constructor ()
      ensures isMini && repeat == PlaylistControls.Off
    {
      isMini := true;
      repeat := PlaylistControls.Off;
    }

    /** `toggleMini`: flips the size and reports the size it had before the click. */
    method ToggleMini() returns (reported: bool)
      modifies this
      ensures isMini == !old(isMini) && repeat == old(repeat)
      ensures reported == old(isMini)
    {
      reported := isMini;
      isMini := !isMini;
    }

    /** `repeatCycle`. */
    method RepeatCycle()
      modifies this
      ensures repeat == BubbleNextMode(old(repeat)) && isMini == old(isMini)
    {
      repeat := BubbleNextMode(repeat);
    }
  }

  // ---------------------------------------------------------------- seeking

  /** `a / b` on finite numbers. */
  function JsDivide(a: real, b: real): JsNumber {
    if b != 0.0 then Finite(a / b)
    else if a > 0.0 then PosInfinity
    else if a < 0.0 then NegInfinity
    else NaN
  }

  /** `Math.max(0, v)`. */
  function MaxZero(v: JsNumber): JsNumber {
    match v
    case NaN => NaN
    case PosInfinity => PosInfinity
    case NegInfinity => Finite(0.0)
    case Finite(x) => Finite(if x > 0.0 then x else 0.0)
  }

  /** `Math.min(1, v)`. */
  function MinOne(v: JsNumber): JsNumber {
    match v
    case NaN => NaN
    case PosInfinity => Finite(1.0)
    case NegInfinity => NegInfinity
    case Finite(x) => Finite(if x < 1.0 then x else 1.0)
  }

  /** The fraction `handleSeek` passes to `seekTo` for a click at `clientX` on a bar starting at
    * `left` and `width` wide: where on the bar the click fell, held to [0, 1]. Only a click
    * exactly at the left edge of a bar of no width gives NaN. */
  function SeekFraction(clientX: real, left: real, width: real): (pct: JsNumber)
    ensures pct.NaN? || (pct.Finite? && 0.0 <= pct.value <= 1.0)
    ensures pct.NaN? <==> width == 0.0 && clientX == left
  {
    MinOne(MaxZero(JsDivide(clientX - left, width)))
  }

  /** On a bar of positive width: the exact fraction inside the bar, 0 before it, 1 after it. */
  lemma {:induction false} SeekFractionOnBar(clientX: real, left: real, width: real)
    requires width > 0.0
    ensures left <= clientX <= left + width ==> SeekFraction(clientX, left, width) == Finite((clientX - left) / width)
    ensures clientX < left ==> SeekFraction(clientX, left, width) == Finite(0.0)
    ensures clientX > left + width ==> SeekFraction(clientX, left, width) == Finite(1.0)
  {
    var f := (clientX - left) / width;
    assert clientX - left == f * width;
    if clientX <= left + width {
      assert f * width <= 1.0 * width;
    } else {
      assert f * width > 1.0 * width;
    }
  }

  // ---------------------------------------------------------------- lyric line

  /** `audio.currentTime / (audio.duration || 1)`: NaN and zero durations count as 1, and an
    * infinite one makes the ratio 0. */
  function PlayedRatio(currentTime: real, duration: JsNumber): real {
    match duration
    case Finite(d) => if d != 0.0 then currentTime / d else currentTime
    case NaN => currentTime
    case PosInfinity => 0.0
    case NegInfinity => 0.0
  }

  /** `Math.min(lines - 1, Math.floor(ratio * lines))`. */
  function LineAt(lines: nat, ratio: real): (line: int)
    ensures lines > 0 ==> line <= lines - 1
    ensures lines > 0 && ratio >= 0.0 ==> line >= 0
  {
    var k := (ratio * lines as real).Floor;
    assert lines > 0 && ratio >= 0.0 ==> k >= 0 by {
      if lines > 0 && ratio >= 0.0 {
        Numbers.MulMonotone(lines as real, 0.0, ratio);
      }
    }
    if lines - 1 < k then lines - 1 else k
  }

  /** The lyric tick: nothing when there are no lines, otherwise the line at the played ratio. */
  function LyricIndex(lines: nat, currentTime: real, duration: JsNumber): (idx: Option<int>)
    ensures lines == 0 <==> idx.None?
    ensures idx.Some? ==> idx.value <= lines - 1
  {
    if lines == 0 then None else Some(LineAt(lines, PlayedRatio(currentTime, duration)))
  }

  /** A share of a positive whole below the whole is a fraction in [0, 1). */
  lemma {:induction false} RatioBelowOne(t: real, d: real)
    requires d > 0.0 && 0.0 <= t < d
    ensures 0.0 <= t / d < 1.0
  {
    var r := t / d;
    assert (1.0 - r) * d == d - t;
    PositiveFactor(1.0 - r, d);
  }

  /** A share of a positive whole at or past the whole is at least 1. */
  lemma {:induction false} RatioAtLeastOne(t: real, d: real)
    requires d > 0.0 && t >= d
    ensures t / d >= 1.0
  {
    var r := t / d;
    assert (r - 1.0) * d == t - d;
    PositiveFactor(r - 1.0, d);
  }

  /** A product with a positive factor is positive (not negative) only if the other factor is. */
  lemma {:induction false} PositiveFactor(a: real, d: real)
    requires d > 0.0
    ensures a * d > 0.0 ==> a > 0.0
    ensures a * d >= 0.0 ==> a >= 0.0
  {
  }

  /** The whole part of a fraction in [0, 1) of `lines` is a valid line number. */
  lemma {:induction false} FloorOfShare(r: real, lines: nat)
    requires lines > 0 && 0.0 <= r < 1.0
    ensures 0 <= (r * lines as real).Floor < lines
  {
    Numbers.MulMonotone(lines as real, r, 1.0);
  }

  /** Multiplying the floor bounds of `t / d * n` back by `d`. */
  lemma {:induction false} ShareBounds(t: real, d: real, n: real, k: int)
    requires d > 0.0 && k as real <= t / d * n < k as real + 1.0
    ensures k as real * d <= t * n < (k + 1) as real * d
  {
    var r := t / d;
    var x := r * n;
    assert r * d == t;
    Numbers.MulMonotone(d, k as real, x);
    Numbers.MulMonotone(d, x, k as real + 1.0);
    assert d * x == (r * d) * n;
  }

  /** Within a track of known positive length the index is the line whose equal share of the
    * track holds the current time; from the end on it stays on the last line. */
  lemma {:induction false} LyricIndexFollowsTime(lines: nat, t: real, d: real)
    requires lines > 0 && d > 0.0 && t >= 0.0
    ensures var idx := LyricIndex(lines, t, Finite(d)).value;
      && 0 <= idx < lines
      && (t < d ==> idx as real * d <= t * lines as real < (idx + 1) as real * d)
      && (t >= d ==> idx == lines - 1)
  {
    var n := lines as real;
    var k := (t / d * n).Floor;
    if t < d {
      RatioBelowOne(t, d);
      FloorOfShare(t / d, lines);
      ShareBounds(t, d, n, k);
      assert LyricIndex(lines, t, Finite(d)).value == k;
    } else {
      RatioAtLeastOne(t, d);
      Numbers.MulMonotone(n, 1.0, t / d);
    }
  }

  /** Dividing by a positive number keeps order. */
  lemma {:induction false} RatioMonotone(t1: real, t2: real, d: real)
    requires d > 0.0 && t1 <= t2
    ensures t1 / d <= t2 / d
  {
    var r1, r2 := t1 / d, t2 / d;
    assert r1 * d == t1 && r2 * d == t2;
    assert (r2 - r1) * d == t2 - t1;
    PositiveFactor(r2 - r1, d);
  }

  /** A larger ratio never gives an earlier line. */
  lemma {:induction false} LineAtMonotone(lines: nat, r1: real, r2: real)
    requires lines > 0 && r1 <= r2
    ensures LineAt(lines, r1) <= LineAt(lines, r2)
  {
    var p1, p2 := r1 * lines as real, r2 * lines as real;
    var n := lines as real;
    Numbers.MulMonotone(n, r1, r2);
    assert p1 == n * r1 && p2 == n * r2;
    FloorMonotone(p1, p2);
  }

  /** Rounding down keeps order. */
  lemma {:induction false} FloorMonotone(x: real, y: real)
    requires x <= y
    ensures x.Floor <= y.Floor
  {
  }

  /** The lyric line never moves backwards while the time moves forwards. */
  lemma {:induction false} LyricIndexMonotone(lines: nat, t1: real, t2: real, duration: JsNumber)
    requires lines > 0 && t1 <= t2
    requires duration.Finite? ==> duration.value >= 0.0
    ensures LyricIndex(lines, t1, duration).value <= LyricIndex(lines, t2, duration).value
  {
    if duration.Finite? && duration.value != 0.0 {
      RatioMonotone(t1, t2, duration.value);
    }
    LineAtMonotone(lines, PlayedRatio(t1, duration), PlayedRatio(t2, duration));
  }
}
