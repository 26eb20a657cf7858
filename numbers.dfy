/** Integer arithmetic and decimal text as JavaScript performs them on whole numbers:
  * `Number.prototype.toString`, `String.prototype.padStart(2, "0")` and the `%` operator,
  * which truncates toward zero. */
module Numbers {

  predicate IsDigit(c: char) {
    '0' <= c <= '9'
  }

  predicate AllDigits(s: string) {
    forall i :: 0 <= i < |s| ==> IsDigit(s[i])
  }

  function DigitValue(c: char): (d: nat)
    requires IsDigit(c)
    ensures d < 10
  {
    (c as int) - ('0' as int)
  }

  function DigitChar(d: nat): (c: char)
    requires d < 10
    ensures IsDigit(c) && DigitValue(c) == d
  {
    ((('0' as int) + d) as char)
  }

  /** Decimal rendering of a whole number without sign or leading zeros. */
  function NatToString(n: nat): (s: string)
    ensures 1 <= |s| && AllDigits(s)
    ensures |s| == 1 <==> n < 10
    decreases n
  {
    if n < 10 then [DigitChar(n)] else NatToString(n / 10) + [DigitChar(n % 10)]
  }

  /** The value of a string of decimal digits (leading zeros allowed). */
  function ParseDigits(s: string): (n: nat)
    requires AllDigits(s)
    decreases |s|
  {
    if s == [] then 0 else ParseDigits(s[..|s| - 1]) * 10 + DigitValue(s[|s| - 1])
  }

  /** Reading back the decimal rendering gives the number again. */
  lemma {:induction false} ParseNatToString(n: nat)
    ensures ParseDigits(NatToString(n)) == n
    decreases n
  {
    if n >= 10 {
      var s := NatToString(n);
      assert s[..|s| - 1] == NatToString(n / 10);
      ParseNatToString(n / 10);
    }
  }

  /** Different numbers render differently. */
  lemma {:induction false} NatToStringInjective(m: nat, n: nat)
    requires NatToString(m) == NatToString(n)
    ensures m == n
  {
    ParseNatToString(m);
    ParseNatToString(n);
  }

  /** `String(i)` for a whole number `i`, negative ones with a leading "-". */
  function IntToString(i: int): (s: string)
    ensures 1 <= |s|
    ensures i >= 0 ==> AllDigits(s)
    ensures i < 0 ==> s[0] == '-' && AllDigits(s[1..])
  {
    if i < 0 then "-" + NatToString(-i) else NatToString(i)
  }

  /** `s.padStart(2, "0")`: zeros in front until the string has at least two characters. */
  function PadStart2(s: string): (r: string)
    ensures |r| == if |s| >= 2 then |s| else 2
    ensures r[|r| - |s|..] == s
    ensures forall i :: 0 <= i < |r| - |s| ==> r[i] == '0'
  {
    if |s| >= 2 then s else if |s| == 1 then "0" + s else "00"
  }

  /** JavaScript's `a % n` for a whole number `a` and positive `n`: the sign follows `a`. */
  function TruncRem(a: int, n: int): (r: int)
    requires n > 0
    ensures -n < r < n
    ensures a >= 0 ==> 0 <= r && r == a % n
    ensures a < 0 ==> r <= 0
  {
    if a >= 0 then a % n else -((-a) % n)
  }

  /** `Math.trunc(x)`: the whole number part, rounding toward zero. */
  function RealTrunc(x: real): (t: int)
    ensures x >= 0.0 ==> t == x.Floor
    ensures x < 0.0 ==> x <= t as real <= 0.0
  {
    if x >= 0.0 then x.Floor else -((-x).Floor)
  }

  /** JavaScript's `x % n` on a real `x` and positive `n`: `x - n * trunc(x / n)`. */
  function RealTruncRem(x: real, n: real): (r: real)
    requires n > 0.0
    ensures x >= 0.0 ==> 0.0 <= r < n
  {
    FloorRemainderBounds(x, n);
    x - n * (RealTrunc(x / n) as real)
  }

  lemma {:induction false} FloorRemainderBounds(x: real, n: real)
    requires n > 0.0
    ensures x >= 0.0 ==> 0.0 <= x - n * ((x / n).Floor as real) < n
  {
    if x >= 0.0 {
      var q := x / n;
      var t := q.Floor;
      assert t as real <= q < t as real + 1.0;
      assert x == n * q;
      MulMonotone(n, t as real, q);
      MulMonotone(n, q, t as real + 1.0);
      assert n * (t as real + 1.0) == n * (t as real) + n;
      assert n * q < n * (t as real) + n;
      assert x - n * (t as real) < n;
    }
  }

  lemma {:induction false} MulMonotone(n: real, a: real, b: real)
    requires n > 0.0 && a <= b
    ensures n * a <= n * b
    ensures a < b ==> n * a < n * b
  {
  }

  // ---------------------------------------------------------------- "m:ss" clock text

  /** `${m}:${String(sec).padStart(2, "0")}`. */
  function ClockText(m: int, sec: int): string {
    IntToString(m) + ":" + PadStart2(IntToString(sec))
  }

  /** Digits, a colon, then exactly two digits that stand for fewer than 60 seconds. */
  predicate IsClock(s: string) {
    && |s| >= 4 && s[|s| - 3] == ':' && AllDigits(s[..|s| - 3]) && AllDigits(s[|s| - 2..])
    && ParseDigits(s[|s| - 2..]) < 60
  }

  /** The number of seconds a clock text stands for: minutes times 60 plus seconds. */
  function ParseClock(s: string): nat
    requires IsClock(s)
  {
    ParseDigits(s[..|s| - 3]) * 60 + ParseDigits(s[|s| - 2..])
  }

  /** A number below 100 padded to two digits reads back as itself. */
  lemma {:induction false} PaddedTwoDigits(n: nat)
    requires n < 100
    ensures var t := PadStart2(NatToString(n)); |t| == 2 && AllDigits(t) && ParseDigits(t) == n
  {
    var s := NatToString(n);
    ParseNatToString(n);
    if n < 10 {
      var t := PadStart2(s);
      assert t == "0" + s;
      assert t[..1] == "0";
    } else {
      assert s == NatToString(n / 10) + [DigitChar(n % 10)];
    }
  }

  /** The pieces of `mt:st` for a two-character `st`. */
  lemma {:induction false} ClockPieces(mt: string, st: string)
    requires |st| == 2
    ensures var c := mt + ":" + st;
      |c| == |mt| + 3 && c[..|c| - 3] == mt && c[|c| - 3] == ':' && c[|c| - 2..] == st
  {
  }

  /** Whole minutes and seconds below 60 render as a clock text that reads back exactly. */
  lemma {:induction false} ClockRoundTrip(m: nat, sec: nat)
    requires sec < 60
    ensures IsClock(ClockText(m, sec))
    ensures ParseClock(ClockText(m, sec)) == m * 60 + sec
  {
    var mt := NatToString(m);
    var st := PadStart2(NatToString(sec));
    PaddedTwoDigits(sec);
    ParseNatToString(m);
    assert ClockText(m, sec) == mt + ":" + st;
    ClockPieces(mt, st);
  }
}
