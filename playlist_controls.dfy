/** The playlist controls panel: its repeat button, which steps through three modes, and the
  * "Hh Mm" summary of the queue's total length. */
module PlaylistControls {
  import Numbers

  datatype RepeatMode = Off | All | One

  /** The mode `handleRepeatClick` moves to: off, then all, then one, then off again. */
  function NextMode(m: RepeatMode): (n: RepeatMode)
    ensures n != m
  {
    match m
    case Off => All
    case All => One
    case One => Off
  }

  /** Three clicks come back to the starting mode, after passing through the other two. */
  lemma {:induction false} ThreeClicksReturn(m: RepeatMode)
    ensures NextMode(NextMode(NextMode(m))) == m
    ensures {m, NextMode(m), NextMode(NextMode(m))} == {Off, All, One}
  {
  }

  class Controls {
    var repeatMode: RepeatMode

    constructor ()
      ensures repeatMode == Off
    {
      repeatMode := Off;
    }

    /** `handleRepeatClick`: stores the next mode and reports that same mode to `onRepeat`. */
    method HandleRepeatClick() returns (reported: RepeatMode)
      modifies this
      ensures repeatMode == NextMode(old(repeatMode))
      ensures reported == repeatMode
    {
      var nextMode := NextMode(repeatMode);
      repeatMode := nextMode;
      reported := nextMode;
    }
  }

  /** Three clicks on the button report all, one and off from a fresh panel, and leave it off. */
  method ThreeClicksFromStart() returns (first: RepeatMode, second: RepeatMode, third: RepeatMode)
    ensures first == All && second == One && third == Off
  {
    var c := new Controls();
    first := c.HandleRepeatClick();
    second := c.HandleRepeatClick();
    third := c.HandleRepeatClick();
  }

  /** `Math.floor(seconds / 3600)` and `Math.floor((seconds % 3600) / 60)`, the remainder taken
    * the JavaScript way (its sign follows `seconds`). For a length that is not negative these
    * are the whole hours and the whole minutes left over. */
  function DurationParts(seconds: int): (hm: (int, int))
    ensures seconds >= 0 ==> hm.0 >= 0 && 0 <= hm.1 < 60
    ensures seconds >= 0 ==> hm.0 * 3600 + hm.1 * 60 <= seconds < hm.0 * 3600 + hm.1 * 60 + 60
    ensures seconds < 0 ==> hm.0 < 0 && -60 <= hm.1 <= 0
  {
    (seconds / 3600, Numbers.TruncRem(seconds, 3600) / 60)
  }

  /** `formatDuration`: "Hh Mm" when there is at least one whole hour, "Mm" otherwise. */
  function FormatDuration(seconds: int): (text: string)
    ensures |text| >= 2 && text[|text| - 1] == 'm'
  {
    var (hours, minutes) := DurationParts(seconds);
    if hours > 0 then Numbers.IntToString(hours) + "h " + Numbers.IntToString(minutes) + "m"
    else Numbers.IntToString(minutes) + "m"
  }

  /** For a length that is not negative the text is the decimal whole hours followed by "h ",
    * left out when there are none, then the decimal minutes left over, then "m". */
  lemma {:induction false} FormatDurationReads(seconds: int)
    requires seconds >= 0
    ensures exists h: nat, m: nat ::
      && m < 60 && h * 3600 + m * 60 <= seconds < h * 3600 + m * 60 + 60
      && FormatDuration(seconds)
         == (if h > 0 then Numbers.NatToString(h) + "h " else "") + Numbers.NatToString(m) + "m"
  {
    var hm := DurationParts(seconds);
    var h: nat, m: nat := hm.0, hm.1;
    if h > 0 {
      assert FormatDuration(seconds) == Numbers.NatToString(h) + "h " + Numbers.NatToString(m) + "m";
    } else {
      assert FormatDuration(seconds) == "" + Numbers.NatToString(m) + "m";
    }
  }

  /** Number text never contains the letter h. */
  lemma {:induction false} NoHourLetter(i: int)
    ensures forall k :: 0 <= k < |Numbers.IntToString(i)| ==> Numbers.IntToString(i)[k] != 'h'
  {
    var s := Numbers.IntToString(i);
    forall k | 0 <= k < |s| ensures s[k] != 'h' {
      if i < 0 && k > 0 {
        assert s[k] == s[1..][k - 1];
      }
    }
  }

  /** The hour part is shown exactly when the length reaches a full hour. */
  lemma {:induction false} HourShownIffFullHour(seconds: int)
    ensures 'h' in FormatDuration(seconds) <==> seconds >= 3600
  {
    var hm := DurationParts(seconds);
    var ht, mt := Numbers.IntToString(hm.0), Numbers.IntToString(hm.1);
    NoHourLetter(hm.0);
    NoHourLetter(hm.1);
    var m := mt + "m";
    forall k | 0 <= k < |m| ensures m[k] != 'h' {
      if k < |mt| {
        assert m[k] == mt[k];
      }
    }
    if hm.0 > 0 {
      var h := ht + "h ";
      assert FormatDuration(seconds) == h + m;
      assert (h + m)[|ht|] == 'h';
    } else {
      assert FormatDuration(seconds) == m;
    }
  }

  /** Seconds past the last whole minute do not show: lengths with the same whole minutes
    * format alike. */
  lemma {:induction false} FormatIgnoresSeconds(s: int, t: int)
    requires 0 <= s && 0 <= t && s / 60 == t / 60
    ensures FormatDuration(s) == FormatDuration(t)
  {
    var q := s / 60;
    assert s / 3600 == q / 60 && (s % 3600) / 60 == q % 60 by {
      SplitThroughMinutes(s);
    }
    assert t / 3600 == q / 60 && (t % 3600) / 60 == q % 60 by {
      SplitThroughMinutes(t);
    }
  }

  /** Hours and leftover minutes of `s` are those of its whole minutes. */
  lemma {:induction false} SplitThroughMinutes(s: int)
    requires s >= 0
    ensures s / 3600 == (s / 60) / 60 && (s % 3600) / 60 == (s / 60) % 60
  {
    var q, r := s / 60, s % 60;
    var h, m := q / 60, q % 60;
    assert s == 3600 * h + (60 * m + r);
    assert 0 <= 60 * m + r < 3600;
  }
}
