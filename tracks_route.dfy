/** The `GET` handler of the tracks API: how many songs it asks the store for, and how it turns
  * each stored song into the track record the client receives. */
module TracksRoute {
  import opened Wrappers
  import Numbers
  import Text

  // ---------------------------------------------------------------- parseInt

  predicate IsHexDigit(c: char) {
    '0' <= c <= '9' || 'a' <= c <= 'f' || 'A' <= c <= 'F'
  }

  /** A digit of the radix `parseInt` reads in: 10, or 16 after a "0x" prefix. */
  predicate IsRadixDigit(c: char, radix: nat) {
    if radix == 16 then IsHexDigit(c) else Numbers.IsDigit(c)
  }

  function HexValue(c: char): (v: nat)
    requires IsHexDigit(c)
    ensures v < 16
  {
    if '0' <= c <= '9' then (c as int) - ('0' as int)
    else if 'a' <= c <= 'f' then (c as int) - ('a' as int) + 10
    else (c as int) - ('A' as int) + 10
  }

  /** How many characters at the front of `s` are digits of `radix`. */
  function DigitRun(s: string, radix: nat): (n: nat)
    ensures n <= |s|
    ensures forall i :: 0 <= i < n ==> IsRadixDigit(s[i], radix)
    ensures n < |s| ==> !IsRadixDigit(s[n], radix)
  {
    if s != [] && IsRadixDigit(s[0], radix) then
      var n := 1 + DigitRun(s[1..], radix);
      assert forall i :: 1 <= i < n ==> s[i] == s[1..][i - 1];
      n
    else 0
  }

  /** The value of a run of digits of `radix`, most significant first. */
  function RadixValue(s: string, radix: nat): nat
    requires radix == 10 || radix == 16
    requires forall i :: 0 <= i < |s| ==> IsRadixDigit(s[i], radix)
    decreases |s|
  {
    if s == [] then 0
    else
      var last := s[|s| - 1];
      assert IsRadixDigit(last, radix);
      RadixValue(s[..|s| - 1], radix) * radix + HexValue(last)
  }

  /** The number at the front of `u`, after any sign: "0x" or "0X" selects hexadecimal, then
    * the longest run of digits counts; `None` when that run is empty. */
  function ParseUnsigned(u: string): Option<nat> {
    var hex := |u| >= 2 && u[0] == '0' && (u[1] == 'x' || u[1] == 'X');
    var radix: nat := if hex then 16 else 10;
    var v := if hex then u[2..] else u;
    var n := DigitRun(v, radix);
    if n == 0 then None else Some(RadixValue(v[..n], radix))
  }

  /** `parseInt(s)` with no radix: leading whitespace skipped, an optional sign, then the
    * unsigned number; `None` is NaN. */
  function ParseInt(s: string): Option<int> {
    var t := Text.TrimStart(s);
    if t != [] && t[0] == '-' then
      match ParseUnsigned(t[1..])
      case None => None
      case Some(m) => Some(-(m as int))
    else if t != [] && t[0] == '+' then
      match ParseUnsigned(t[1..])
      case None => None
      case Some(m) => Some(m as int)
    else
      match ParseUnsigned(t)
      case None => None
      case Some(m) => Some(m as int)
  }

  /** On decimal digits the reading is the decimal reading of the clock text. */
  lemma {:induction false} DecimalValue(s: string)
    requires Numbers.AllDigits(s)
    ensures forall i :: 0 <= i < |s| ==> IsRadixDigit(s[i], 10)
    ensures RadixValue(s, 10) == Numbers.ParseDigits(s)
    decreases |s|
  {
    if s != [] {
      DecimalValue(s[..|s| - 1]);
    }
  }

  /** The digit run of decimal digits followed by a non-digit is exactly those digits. */
  lemma {:induction false} DigitRunStops(d: string, suffix: string)
    requires Numbers.AllDigits(d)
    requires suffix == [] || !Numbers.IsDigit(suffix[0])
    ensures DigitRun(d + suffix, 10) == |d|
    decreases |d|
  {
    if d != [] {
      assert (d + suffix)[1..] == d[1..] + suffix;
      DigitRunStops(d[1..], suffix);
    } else {
      assert d + suffix == suffix;
    }
  }

  /** A character that can follow a number without being read as part of it or as a prefix. */
  predicate EndsNumber(suffix: string) {
    suffix == [] || (!Numbers.IsDigit(suffix[0]) && suffix[0] != 'x' && suffix[0] != 'X')
  }

  /** The decimal text of a whole number reads back as that number. */
  lemma {:induction false} UnsignedOfDecimal(n: nat, suffix: string)
    requires EndsNumber(suffix)
    ensures ParseUnsigned(Numbers.NatToString(n) + suffix) == Some(n)
  {
    var d := Numbers.NatToString(n);
    var s := d + suffix;
    Numbers.ParseNatToString(n);
    DecimalValue(d);
    DigitRunStops(d, suffix);
    assert s[..|d|] == d;
    assert s[0] == d[0];
    assert |s| >= 2 ==> s[1] == 'x' || s[1] == 'X' ==> |d| == 1;
  }

  /** Text that does not start with whitespace is not trimmed. */
  lemma {:induction false} NoLeadingSpace(s: string)
    requires s != [] && (Numbers.IsDigit(s[0]) || s[0] == '-')
    ensures Text.TrimStart(s) == s
  {
    var c := s[0];
    assert !Text.IsJsWhitespace(c) by {
      assert 45 <= c as int <= 57;
    }
    Text.TrimStartOfNonSpace(s);
  }

  /** `parseInt` reads back the decimal text of every whole number, whatever follows it that
    * cannot continue a number. */
  lemma {:induction false} ParseIntOfDecimal(n: nat, suffix: string)
    requires EndsNumber(suffix)
    ensures ParseInt(Numbers.NatToString(n) + suffix) == Some(n)
  {
    var s := Numbers.NatToString(n) + suffix;
    UnsignedOfDecimal(n, suffix);
    assert s[0] == Numbers.NatToString(n)[0];
    UnsignedText(s);
  }

  /** Text starting with a digit is read without a sign. */
  lemma {:induction false} UnsignedText(s: string)
    requires s != [] && Numbers.IsDigit(s[0])
    ensures ParseUnsigned(s).Some? ==> ParseInt(s) == Some(ParseUnsigned(s).value as int)
  {
    NoLeadingSpace(s);
  }

  /** ... and with a minus sign in front, the negated number. */
  lemma {:induction false} ParseIntOfNegative(n: nat, suffix: string)
    requires EndsNumber(suffix)
    ensures ParseInt("-" + (Numbers.NatToString(n) + suffix)) == Some(-(n as int))
  {
    UnsignedOfDecimal(n, suffix);
    NegativeText(Numbers.NatToString(n) + suffix, n);
  }

  /** Text read as `n`, after a minus sign, is read as `-n`. */
  lemma {:induction false} NegativeText(u: string, n: nat)
    requires ParseUnsigned(u) == Some(n)
    ensures ParseInt("-" + u) == Some(-(n as int))
  {
    var m := "-" + u;
    assert Text.TrimStart(m) == m by {
      NoLeadingSpace(m);
    }
    assert m[1..] == u;
  }

  /** Hexadecimal digits "10" have the value 16. */
  lemma {:induction false} HexTen()
    ensures DigitRun("10", 16) == 2 && RadixValue("10", 16) == 16
  {
    var v := "10";
    assert v[1..] == "0";
    assert "0"[1..] == [];
    assert v[..1] == "1";
    assert "1"[..0] == [];
  }

  /** After "0x" the digits are read in hexadecimal. */
  lemma {:induction false} HexPrefix(v: string)
    ensures var n := DigitRun(v, 16);
      ParseInt("0x" + v) == if n == 0 then None else Some(RadixValue(v[..n], 16) as int)
  {
    var s := "0x" + v;
    NoLeadingSpace(s);
    assert s[2..] == v;
  }

  /** "0x10" is read in hexadecimal, as 16. */
  lemma {:induction false} ParseIntHex()
    ensures ParseInt("0x" + "10") == Some(16)
  {
    var v := "10";
    HexPrefix(v);
    HexTen();
    assert v[..2] == v;
  }

  // ---------------------------------------------------------------- limit

  const DefaultLimit: int := 100
  const MaxLimit: int := 200

  /** `limitParam ? Math.max(1, Math.min(200, parseInt(limitParam))) : 100`; a missing or empty
    * parameter gives the default, and NaN survives both `Math.min` and `Math.max`. */
  function Limit(limitParam: Option<string>): (limit: Option<int>)
    ensures limit.Some? ==> 1 <= limit.value <= MaxLimit
  {
    if limitParam.None? || limitParam.value == "" then Some(DefaultLimit)
    else
      match ParseInt(limitParam.value)
      case None => None
      case Some(n) => Some(if n > MaxLimit then MaxLimit else if n < 1 then 1 else n)
  }

  /** The limit is 100 without a parameter, NaN exactly when the parameter does not start with
    * a number, and otherwise the parsed number held to [1, 200]. */
  lemma {:induction false} LimitCases(limitParam: Option<string>)
    ensures limitParam.None? || limitParam == Some("") ==> Limit(limitParam) == Some(100)
    ensures limitParam.Some? && limitParam.value != "" ==>
      (Limit(limitParam).None? <==> ParseInt(limitParam.value).None?)
    ensures limitParam.Some? && limitParam.value != "" && ParseInt(limitParam.value).Some? ==>
      var n := ParseInt(limitParam.value).value;
      1 <= n <= 200 ==> Limit(limitParam) == Some(n)
  {
  }

  /** A decimal parameter asks for that many songs, held to [1, 200]. */
  lemma {:induction false} ParseLimitOf(n: nat, suffix: string)
    requires EndsNumber(suffix)
    ensures Limit(Some(Numbers.NatToString(n) + suffix)) == Some(if n > 200 then 200 else if n < 1 then 1 else n)
  {
    ParseIntOfDecimal(n, suffix);
  }

  /** "500" asks for 200 songs. */
  lemma {:induction false} LimitAboveRange()
    ensures Limit(Some("500")) == Some(200)
  {
    assert Numbers.NatToString(500) == "500";
    ParseLimitOf(500, "");
    assert "500" + "" == "500";
  }

  /** "0" asks for one song. */
  lemma {:induction false} LimitOfZero()
    ensures Limit(Some("0")) == Some(1)
  {
    assert Numbers.NatToString(0) == "0";
    ParseLimitOf(0, "");
    assert "0" + "" == "0";
  }

  /** "25abc" asks for 25 songs: the letters end the number. */
  lemma {:induction false} LimitWithTrailingText()
    ensures Limit(Some("25abc")) == Some(25)
  {
    assert Numbers.NatToString(25) == "25";
    ParseLimitOf(25, "abc");
    assert "25" + "abc" == "25abc";
  }

  /** A negative parameter asks for one song. */
  lemma {:induction false} NegativeLimit(n: nat, suffix: string)
    requires EndsNumber(suffix)
    ensures Limit(Some("-" + (Numbers.NatToString(n) + suffix))) == Some(1)
  {
    ParseIntOfNegative(n, suffix);
  }

  // ---------------------------------------------------------------- row mapping

  /** A stored song; the optional columns may be null. */
  datatype Song = Song(id: string, title: string, artist: string, album: Option<string>,
                       genre: string, category: Option<string>, durationSeconds: int,
                       audioUrl: Option<string>, coverUrl: Option<string>, lyrics: Option<string>)

  /** The record the client receives. */
  datatype TrackRow = TrackRow(id: string, title: string, artist: string, album: string,
                               genre: string, category: string, duration: string,
                               durationSeconds: int, audioUrl: string, coverUrl: string,
                               lyrics: string)

  /** `value || fallback` on a nullable text column: null and "" both give the fallback. */
  function OrElse(value: Option<string>, fallback: string): (r: string)
    ensures value.Some? && value.value != "" ==> r == value.value
    ensures value.None? || value.value == "" ==> r == fallback
  {
    if value.Some? && value.value != "" then value.value else fallback
  }

  /** The clock text of a length in seconds: `Math.floor(d / 60)`, a colon and `d % 60` padded
    * to two digits. */
  function DurationText(d: int): string {
    Numbers.ClockText(d / 60, Numbers.TruncRem(d, 60))
  }

  /** For a length that is not negative the clock text reads back as that length. */
  lemma {:induction false} DurationTextRoundTrip(d: int)
    requires d >= 0
    ensures Numbers.IsClock(DurationText(d)) && Numbers.ParseClock(DurationText(d)) == d
  {
    assert DurationText(d) == Numbers.ClockText(d / 60, d % 60);
    Numbers.ClockRoundTrip(d / 60, d % 60);
  }

  /** The row a song maps to. */
  function MapSong(s: Song): TrackRow {
    TrackRow(s.id, s.title, s.artist, OrElse(s.album, ""), s.genre, OrElse(s.category, ""),
             DurationText(s.durationSeconds), s.durationSeconds, OrElse(s.audioUrl, ""),
             OrElse(s.coverUrl, "/placeholder.svg"), OrElse(s.lyrics, ""))
  }

  /** Identity columns and the length are copied, missing texts become "" (the cover the
    * placeholder image), and the clock text reads back as the length. */
  lemma {:induction false} MapSongFields(s: Song)
    ensures var r := MapSong(s);
      && r.id == s.id && r.title == s.title && r.artist == s.artist && r.genre == s.genre
      && r.durationSeconds == s.durationSeconds
      && (s.album.None? ==> r.album == "") && (s.category.None? ==> r.category == "")
      && (s.audioUrl.None? ==> r.audioUrl == "") && (s.lyrics.None? ==> r.lyrics == "")
      && (s.coverUrl.None? || s.coverUrl == Some("") ==> r.coverUrl == "/placeholder.svg")
      && (s.durationSeconds >= 0 ==>
            Numbers.IsClock(r.duration) && Numbers.ParseClock(r.duration) == r.durationSeconds)
  {
    if s.durationSeconds >= 0 {
      DurationTextRoundTrip(s.durationSeconds);
    }
  }

  /** `songs.map(...)`: one row per song, in the same order. */
  function MapSongs(songs: seq<Song>): (rows: seq<TrackRow>)
    ensures |rows| == |songs|
    ensures forall i :: 0 <= i < |songs| ==> rows[i] == MapSong(songs[i])
  {
    if songs == [] then [] else [MapSong(songs[0])] + MapSongs(songs[1..])
  }

  /** The response for a limit parameter over the stored songs, oldest first: the first `limit`
    * songs, mapped. `None` stands for the NaN limit, which the store rejects. */
  function Get(limitParam: Option<string>, stored: seq<Song>): (r: Option<seq<TrackRow>>)
    ensures r.None? <==> Limit(limitParam).None?
    ensures r.Some? ==> |r.value| == if |stored| < Limit(limitParam).value then |stored| else Limit(limitParam).value
    ensures r.Some? ==> forall i :: 0 <= i < |r.value| ==> r.value[i] == MapSong(stored[i])
  {
    match Limit(limitParam)
    case None => None
    case Some(n) => Some(MapSongs(if |stored| <= n then stored else stored[..n]))
  }

  /** Without a parameter at most 100 rows come back, and never more than 200 in any case. */
  lemma {:induction false} GetBounds(limitParam: Option<string>, stored: seq<Song>)
    ensures Get(None, stored).Some? && |Get(None, stored).value| <= 100
    ensures Get(limitParam, stored).Some? ==> 1 <= |Get(limitParam, stored).value| <= 200 || stored == []
  {
    LimitCases(limitParam);
  }
}
