/**
 * WebVTT cue timestamps `HH:MM:SS.mmm` (the "WebVTT timestamp" syntax of the
 * W3C WebVTT specification), as app.py's format_vtt_timestamp builds them:
 * the fractional second is truncated to whole milliseconds and the hours field
 * is zero-padded to two digits but never reduced modulo 24.
 */
module Timestamp {
  import opened Wrappers

  /** The four numeric fields of a timestamp. */
  datatype Fields = Fields(hours: nat, minutes: nat, seconds: nat, millis: nat)

  // ---------------------------------------------------------------------------
  // Decimal digits, as Python's str(int) and the `0N` format spec produce them

  predicate IsDigit(c: char) {
    '0' <= c <= '9'
  }

  predicate AllDigits(s: string) {
    forall i :: 0 <= i < |s| ==> IsDigit(s[i])
  }

  function DigitChar(d: nat): (c: char)
    requires d < 10
    ensures IsDigit(c) && c as int - '0' as int == d
  {
    (d + '0' as int) as char
  }

  /** Decimal notation of `n` without leading zeros (`str(n)` in Python). */
  function Decimal(n: nat): (r: string)
    ensures 1 <= |r| && AllDigits(r)
    ensures n < 10 ==> |r| == 1
    ensures n < 100 ==> |r| <= 2
    ensures n < 1000 ==> |r| <= 3
  {
    if n < 10 then [DigitChar(n)] else Decimal(n / 10) + [DigitChar(n % 10)]
  }

  /** The number a string of decimal digits denotes (leading zeros allowed). */
  function ValueOf(s: string): nat
    requires AllDigits(s)
  {
    if s == [] then 0 else ValueOf(s[..|s| - 1]) * 10 + (s[|s| - 1] as int - '0' as int)
  }

  /** Python's `f"{n:0<width>}"` for a non-negative int: left-pad with zeros to at least `width`. */
  function Padded(n: nat, width: nat): string {
    ZeroPad(Decimal(n), width)
  }

  function ZeroPad(d: string, width: nat): string
    decreases width - |d|
  {
    if |d| >= width then d else ZeroPad("0" + d, width)
  }

  /** Padding keeps the value and reaches the width, and never truncates a longer number. */
  lemma PaddedDigits(n: nat, width: nat)
    ensures var r := Padded(n, width);
      && |r| == (if |Decimal(n)| >= width then |Decimal(n)| else width)
      && AllDigits(r) && ValueOf(r) == n
  {
    ValueOfDecimal(n);
    ZeroPadValue(Decimal(n), width);
  }

  lemma {:induction false} ZeroPadValue(d: string, width: nat)
    requires AllDigits(d)
    ensures var r := ZeroPad(d, width);
      && |r| == (if |d| >= width then |d| else width)
      && AllDigits(r) && ValueOf(r) == ValueOf(d)
    decreases width - |d|
  {
    if |d| < width {
      ValueOfLeadingZeros("0", d);
      ZeroPadValue("0" + d, width);
    }
  }

  lemma {:induction false} ValueOfDecimal(n: nat)
    ensures ValueOf(Decimal(n)) == n
  {
    if n >= 10 {
      var d := Decimal(n);
      assert d[..|d| - 1] == Decimal(n / 10);
      ValueOfDecimal(n / 10);
    }
  }

  lemma {:induction false} ValueOfLeadingZeros(z: string, s: string)
    requires forall i :: 0 <= i < |z| ==> z[i] == '0'
    requires AllDigits(s)
    ensures AllDigits(z + s) && ValueOf(z + s) == ValueOf(s)
    decreases |s|
  {
    if s == [] {
      assert z + s == z;
      ValueOfZeros(z);
    } else {
      assert (z + s)[..|z + s| - 1] == z + s[..|s| - 1];
      ValueOfLeadingZeros(z, s[..|s| - 1]);
    }
  }

  lemma {:induction false} ValueOfZeros(z: string)
    requires forall i :: 0 <= i < |z| ==> z[i] == '0'
    ensures AllDigits(z) && ValueOf(z) == 0
  {
    if z != [] {
      ValueOfZeros(z[..|z| - 1]);
    }
  }

  // ---------------------------------------------------------------------------
  // Splitting a time into fields

  /**
   * The fields of a non-negative time given in whole milliseconds, computed
   * from the whole seconds as app.py:8-11 does: hours, minutes of the hour,
   * seconds of the minute, milliseconds of the second.
   */
  function MillisFields(ms: nat): (f: Fields)
    ensures f.minutes < 60 && f.seconds < 60 && f.millis < 1000
    ensures f.hours * 3_600_000 + f.minutes * 60_000 + f.seconds * 1000 + f.millis == ms
  {
    var s := ms / 1000;
    Fields(s / 3600, s % 3600 / 60, s % 60, ms % 1000)
  }

  /** Python's `x % k` for a positive divisor: the remainder has the divisor's sign. */
  function FloorMod(x: real, k: real): real
    requires k > 0.0
  {
    x - k * (x / k).Floor as real
  }

  /**
   * The fields exactly as app.py:8-11 computes them from seconds, on exact reals:
   * `seconds // 3600`, `(seconds % 3600) // 60`, `int(seconds % 60)` and
   * `int((seconds - int(seconds)) * 1000)`; `int` truncates, which is the floor
   * for a non-negative operand.
   */
  function SecondsFields(x: real): (f: Fields)
    requires x >= 0.0
  {
    Fields((x / 3600.0).Floor, (FloorMod(x, 3600.0) / 60.0).Floor,
           FloorMod(x, 60.0).Floor, ((x - x.Floor as real) * 1000.0).Floor)
  }

  /** The floor of `y / k` is the integer quotient of the floor of `y` by `k`. */
  lemma FloorDiv(y: real, k: nat)
    requires k > 0
    ensures (y / k as real).Floor == y.Floor / k
  {
    var n := y.Floor;
    var q, r := n / k, n % k;
    assert n == q * k + r && 0 <= r < k;
    assert (q * k) as real == q as real * k as real;
    assert ((q + 1) * k) as real == (q + 1) as real * k as real;
    assert q as real * k as real <= y;
    assert y < (q + 1) as real * k as real;
    assert q as real <= y / k as real;
    assert y / k as real < (q + 1) as real;
  }

  /** Python's field arithmetic on seconds agrees with the millisecond split of the truncated time. */
  lemma SecondsFieldsTruncate(x: real)
    requires x >= 0.0
    ensures SecondsFields(x) == MillisFields((x * 1000.0).Floor)
  {
    var n := x.Floor;
    var m := (x * 1000.0).Floor;
    FloorDiv(x * 1000.0, 1000);
    assert x * 1000.0 / 1000.0 == x;
    assert m / 1000 == n;
    FloorDiv(x, 3600);
    FloorDiv(x, 60);
    var y := FloorMod(x, 3600.0);
    assert y == x - (3600 * (n / 3600)) as real;
    assert y.Floor == n % 3600;
    FloorDiv(y, 60);
    assert FloorMod(x, 60.0) == x - (60 * (n / 60)) as real;
    assert FloorMod(x, 60.0).Floor == n % 60;
    assert (x - n as real) * 1000.0 == x * 1000.0 - (1000 * n) as real;
    assert ((x - n as real) * 1000.0).Floor == m - 1000 * n;
  }

  // ---------------------------------------------------------------------------
  // Formatting and its inverse

  /** `f"{hours:02}:{minutes:02}:{sec:02}.{millisec:03}"` (app.py:12). */
  function FormatFields(f: Fields): string {
    Padded(f.hours, 2) + ":" + Padded(f.minutes, 2) + ":" + Padded(f.seconds, 2) + "." + Padded(f.millis, 3)
  }

  /** The cue timestamp of a time given in whole milliseconds. */
  function FormatTimestamp(ms: nat): string {
    FormatFields(MillisFields(ms))
  }

  /**
   * format_vtt_timestamp on a non-negative number of seconds: the same text as
   * the timestamp of the time truncated (not rounded) to whole milliseconds.
   */
  function FormatSeconds(x: real): (r: string)
    requires x >= 0.0
    ensures r == FormatTimestamp((x * 1000.0).Floor)
  {
    SecondsFieldsTruncate(x);
    FormatFields(SecondsFields(x))
  }

  /**
   * Reads `H:MM:SS.mmm` back, where the hours field is any run of at least
   * two digits; the inverse of FormatTimestamp.
   */
  function ParseTimestamp(t: string): Option<nat> {
    if |t| < 12 then None
    else
      var n := |t|;
      var hh, mm, ss, fff := t[..n - 10], t[n - 9..n - 7], t[n - 6..n - 4], t[n - 3..];
      if t[n - 10] == ':' && t[n - 7] == ':' && t[n - 4] == '.'
         && AllDigits(hh) && AllDigits(mm) && AllDigits(ss) && AllDigits(fff)
         && ValueOf(mm) < 60 && ValueOf(ss) < 60
      then Some(ValueOf(hh) * 3_600_000 + ValueOf(mm) * 60_000 + ValueOf(ss) * 1000 + ValueOf(fff))
      else None
  }

  /**
   * The layout of a timestamp: an hours field of at least two digits holding
   * the whole hours (no wrap at 24), then `:MM:SS.mmm` with two-, two- and
   * three-digit fields holding the minutes, seconds and milliseconds.
   */
  lemma FormatTimestampLayout(ms: nat)
    ensures var r, f := FormatTimestamp(ms), MillisFields(ms);
      var n := |r|;
      && n >= 12
      && r[n - 10] == ':' && r[n - 7] == ':' && r[n - 4] == '.'
      && AllDigits(r[..n - 10]) && ValueOf(r[..n - 10]) == f.hours && ValueOf(r[..n - 10]) == ms / 3_600_000
      && AllDigits(r[n - 9..n - 7]) && ValueOf(r[n - 9..n - 7]) == f.minutes
      && AllDigits(r[n - 6..n - 4]) && ValueOf(r[n - 6..n - 4]) == f.seconds
      && AllDigits(r[n - 3..]) && ValueOf(r[n - 3..]) == f.millis
  {
    var f := MillisFields(ms);
    PaddedDigits(f.hours, 2);
    PaddedDigits(f.minutes, 2);
    PaddedDigits(f.seconds, 2);
    PaddedDigits(f.millis, 3);
    FieldsLayout(Padded(f.hours, 2), Padded(f.minutes, 2), Padded(f.seconds, 2), Padded(f.millis, 3));
    WholeHours(ms);
  }

  /** The hours field counts whole hours. */
  lemma WholeHours(ms: nat)
    ensures MillisFields(ms).hours == ms / 3_600_000
  {
    var s := ms / 1000;
    assert ms == 1000 * s + ms % 1000;
    assert s == 3600 * (s / 3600) + s % 3600;
  }

  /** Where the four fields sit in `h:m:s.u` when the last three have widths 2, 2 and 3. */
  lemma FieldsLayout(h: string, m: string, s: string, u: string)
    requires |m| == 2 && |s| == 2 && |u| == 3
    ensures var r := h + ":" + m + ":" + s + "." + u;
      var n := |r|;
      && n == |h| + 10
      && r[n - 10] == ':' && r[n - 7] == ':' && r[n - 4] == '.'
      && r[..n - 10] == h && r[n - 9..n - 7] == m && r[n - 6..n - 4] == s && r[n - 3..] == u
  {
  }

  /** Parsing a formatted timestamp gives back the time: formatting loses nothing at millisecond resolution. */
  lemma ParseFormatRoundTrip(ms: nat)
    ensures ParseTimestamp(FormatTimestamp(ms)) == Some(ms)
  {
    FormatTimestampLayout(ms);
  }

  /** Distinct times give distinct timestamps. */
  lemma FormatTimestampInjective(a: nat, b: nat)
    requires FormatTimestamp(a) == FormatTimestamp(b)
    ensures a == b
  {
    ParseFormatRoundTrip(a);
    ParseFormatRoundTrip(b);
  }

  /** Worked timestamps: zero and five seconds. */
  lemma TimestampExamples()
    ensures FormatTimestamp(0) == "00:00:00.000"
    ensures FormatTimestamp(5_000) == "00:00:05.000"
  {
    ZeroPadding();
    assert MillisFields(5_000) == Fields(0, 0, 5, 0);
    assert Padded(5, 2) == "05";
  }

  lemma ZeroPadding()
    ensures Padded(0, 2) == "00" && Padded(0, 3) == "000"
  {
    assert Decimal(0) == "0";
    assert ZeroPad("00", 3) == "000";
  }

  /** One hour, two minutes, three seconds and four milliseconds. */
  lemma TimestampEachField()
    ensures FormatTimestamp(3_723_004) == "01:02:03.004"
  {
    assert MillisFields(3_723_004) == Fields(1, 2, 3, 4);
    assert Padded(1, 2) == "01";
    assert Padded(2, 2) == "02";
    assert Padded(3, 2) == "03";
    assert Decimal(4) == "4" && "0" + "4" == "04";
    assert Padded(4, 3) == ZeroPad("04", 3) == "004";
  }

  /** Twenty-five hours: the hours field does not wrap at 24. */
  lemma TimestampBeyondADay()
    ensures FormatTimestamp(90_000_000) == "25:00:00.000"
  {
    assert MillisFields(90_000_000) == Fields(25, 0, 0, 0);
    assert Padded(25, 2) == "25";
    ZeroPadding();
  }
}
