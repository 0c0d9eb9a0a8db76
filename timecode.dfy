/** The timestamp codec of transcribe.py: `time_to_seconds`, `seconds_to_vtt_time` and
    `seconds_to_srt_time`. A time is a natural number of milliseconds. */
module Timecode {
  import opened Wrappers
  import opened Strings

  /** `f"{n:02d}"`: the decimal numeral, zero-padded to at least two digits. */
  function Pad2(n: nat): (s: string)
    ensures |s| >= 2
    ensures n < 100 ==> |s| == 2
  {
    DecimalLength(n);
    if n < 10 then ['0'] + Decimal(n) else Decimal(n)
  }

  /** `f"{n:03d}"` for a millisecond count below 1000: exactly three digits. */
  function Pad3(n: nat): (s: string)
    requires n < 1000
    ensures |s| == 3
  {
    DecimalLength(n);
    if n < 10 then "00" + Decimal(n)
    else if n < 100 then ['0'] + Decimal(n)
    else Decimal(n)
  }

  /** Reading back a zero-padded numeral gives the number. */
  lemma Pad2Value(n: nat)
    ensures AllDigits(Pad2(n)) && DigitsValue(Pad2(n)) == n
  {
    DecimalValue(n);
    if n < 10 {
      LeadingZero(Decimal(n));
    }
  }

  lemma Pad3Value(n: nat)
    requires n < 1000
    ensures AllDigits(Pad3(n)) && DigitsValue(Pad3(n)) == n
  {
    DecimalValue(n);
    DecimalLength(n);
    if n < 10 {
      LeadingZero(Decimal(n));
      LeadingZero(['0'] + Decimal(n));
      assert "00" + Decimal(n) == ['0'] + (['0'] + Decimal(n));
    } else if n < 100 {
      LeadingZero(Decimal(n));
    }
  }

  lemma {:induction false} DecimalLength(n: nat)
    ensures n < 10 ==> |Decimal(n)| == 1
    ensures 10 <= n < 100 ==> |Decimal(n)| == 2
    ensures 100 <= n < 1000 ==> |Decimal(n)| == 3
  {
    if n >= 10 {
      DecimalLength(n / 10);
    }
  }

  /** A leading zero does not change the value of a numeral. */
  lemma {:induction false} LeadingZero(s: string)
    requires AllDigits(s)
    ensures AllDigits(['0'] + s) && DigitsValue(['0'] + s) == DigitsValue(s)
    decreases |s|
  {
    var z := ['0'] + s;
    if s != [] {
      LeadingZero(s[..|s| - 1]);
      assert z[..|z| - 1] == ['0'] + s[..|s| - 1];
    }
  }

  /** The formatted time: hours (at least two digits, unbounded), minutes and seconds
      as two digits, `sep`, then milliseconds as three digits. */
  function FormatStamp(ms: nat, sep: char): (s: string)
    ensures |s| >= 12
    ensures ms < 100 * 3_600_000 ==> |s| == 12
  {
    var h, m, sec := ms / 3_600_000, ms % 3_600_000 / 60_000, ms % 60_000 / 1000;
    assert m < 60 && sec < 60;
    Pad2(h) + ":" + Pad2(m) + ":" + Pad2(sec) + [sep] + Pad3(ms % 1000)
  }

  /** Both formatters produce hours of at least two digits, minutes and seconds as two
      digits below 60, the separator, and three millisecond digits. */
  lemma FormatStampShape(ms: nat, sep: char)
    ensures IsFormattedStamp(FormatStamp(ms, sep), sep)
  {
    var h, m, sec := ms / 3_600_000, ms % 3_600_000 / 60_000, ms % 60_000 / 1000;
    Pad2Value(h);
    Pad2Value(m);
    Pad2Value(sec);
    Pad3Value(ms % 1000);
    var t := ":" + Pad2(m) + ":" + Pad2(sec) + [sep] + Pad3(ms % 1000);
    ClockTail(Pad2(m), Pad2(sec), sep, Pad3(ms % 1000));
    FormatStampParts(ms, sep);
    StampOfParts(FormatStamp(ms, sep), Pad2(h), t, sep);
  }

  /** The formatted time as the hours followed by the ten-character clock tail. */
  lemma FormatStampParts(ms: nat, sep: char)
    ensures var h, m, sec := ms / 3_600_000, ms % 3_600_000 / 60_000, ms % 60_000 / 1000;
      FormatStamp(ms, sep) == Pad2(h) + (":" + Pad2(m) + ":" + Pad2(sec) + [sep] + Pad3(ms % 1000))
  {
  }

  /** The ten characters after the hours, field by field. */
  lemma ClockTail(m: string, sec: string, sep: char, frac: string)
    requires |m| == 2 && |sec| == 2 && |frac| == 3
    ensures var t := ":" + m + ":" + sec + [sep] + frac;
      && |t| == 10 && t[0] == ':' && t[3] == ':' && t[6] == sep
      && t[1..3] == m && t[4..6] == sec && t[7..] == frac
  {
  }

  /** Hours followed by a ten-character tail whose fields have the right shape. */
  lemma StampOfParts(s: string, h: string, t: string, sep: char)
    requires s == h + t && |t| == 10 && |h| >= 2 && AllDigits(h)
    requires t[0] == ':' && t[3] == ':' && t[6] == sep
    requires AllDigits(t[1..3]) && DigitsValue(t[1..3]) < 60
    requires AllDigits(t[4..6]) && DigitsValue(t[4..6]) < 60
    requires AllDigits(t[7..])
    ensures IsFormattedStamp(s, sep)
  {
    var n := |s|;
    assert s[..n - 10] == h;
    assert s[n - 9..n - 7] == t[1..3];
    assert s[n - 6..n - 4] == t[4..6];
    assert s[n - 3..] == t[7..];
  }

  /** The shape both formatters produce, with the minute and second fields below 60. */
  predicate IsFormattedStamp(s: string, sep: char) {
    var n := |s|;
    && n >= 12
    && AllDigits(s[..n - 10])
    && s[n - 10] == ':'
    && AllDigits(s[n - 9..n - 7]) && DigitsValue(s[n - 9..n - 7]) < 60
    && s[n - 7] == ':'
    && AllDigits(s[n - 6..n - 4]) && DigitsValue(s[n - 6..n - 4]) < 60
    && s[n - 4] == sep
    && AllDigits(s[n - 3..])
  }

  /** `seconds_to_vtt_time`: the milliseconds come last, after a `.`. */
  function VttTime(ms: nat): (s: string)
    ensures |s| >= 12 && s[|s| - 4] == '.'
    ensures ms < 100 * 3_600_000 ==> |s| == 12
  {
    FormatStamp(ms, '.')
  }

  /** `seconds_to_srt_time`: the milliseconds come last, after a `,`. */
  function SrtTime(ms: nat): (s: string)
    ensures |s| >= 12 && s[|s| - 4] == ','
    ensures ms < 100 * 3_600_000 ==> |s| == 12
  {
    FormatStamp(ms, ',')
  }

  /** The two formatters agree everywhere except at the separator before the milliseconds. */
  lemma VttSrtDifferOnlyInSeparator(ms: nat)
    ensures |VttTime(ms)| == |SrtTime(ms)|
    ensures var v, t, k := VttTime(ms), SrtTime(ms), |VttTime(ms)| - 4;
      v[k] == '.' && t[k] == ',' && v[..k] == t[..k] && v[k + 1..] == t[k + 1..]
  {
    var a := Pad2(ms / 3_600_000) + ":" + Pad2(ms % 3_600_000 / 60_000) + ":" + Pad2(ms % 60_000 / 1000);
    var b := Pad3(ms % 1000);
    assert VttTime(ms) == a + ['.'] + b;
    assert SrtTime(ms) == a + [','] + b;
    assert (a + ['.'] + b)[..|a|] == a == (a + [','] + b)[..|a|];
    assert (a + ['.'] + b)[|a| + 1..] == b == (a + [','] + b)[|a| + 1..];
  }

  /** Value of the third field of a timestamp: whole seconds, optionally followed by `.`
      and one to three decimals, in milliseconds. */
  function SecondsField(f: string): (r: Option<nat>)
    ensures IsNumeral(f) ==> r == Some(DigitsValue(f) * 1000)
  {
    SecondsAround(f, FindFrom(f, '.', 0))
  }

  /** The third field read around its first `.` at `dot` (`|f|` when there is none). */
  function SecondsAround(f: string, dot: nat): Option<nat>
    requires dot <= |f|
  {
    if dot == |f| then
      if IsNumeral(f) then Some(DigitsValue(f) * 1000) else None
    else
      var whole, frac := f[..dot], f[dot + 1..];
      if IsNumeral(whole) && IsNumeral(frac) && |frac| <= 3 then
        Some(DigitsValue(whole) * 1000 + DigitsValue((frac + "00")[..3]))
      else None
  }

  /** `time_to_seconds`: split at `:`, read the first three fields as hours, minutes and
      seconds, and add them up. Fields of 60 or more are not rejected but carried into the
      total; fields after the third are ignored. None stands for the error Python raises. */
  function ParseStamp(s: string): Option<nat> {
    StampOfFields(Split(s, ':'))
  }

  /** The total of the fields `s.split(':')` gave. */
  function StampOfFields(parts: seq<string>): Option<nat> {
    if |parts| < 3 || !IsNumeral(parts[0]) || !IsNumeral(parts[1]) then None
    else match SecondsField(parts[2])
      case None => None
      case Some(secMs) => Some(DigitsValue(parts[0]) * 3_600_000 + DigitsValue(parts[1]) * 60_000 + secMs)
  }

  /** The seconds field `sec.frac` with a three-digit fraction. */
  lemma SecondsFieldOf(sec: string, frac: string)
    requires IsNumeral(sec) && |frac| == 3 && AllDigits(frac)
    ensures SecondsField(sec + "." + frac) == Some(DigitsValue(sec) * 1000 + DigitsValue(frac))
  {
    var third := sec + "." + frac;
    DotAfterNumeral(sec, frac);
    assert third[..|sec|] == sec && third[|sec| + 1..] == frac;
    assert (frac + "00")[..3] == frac;
    assert SecondsAround(third, |sec|) == Some(DigitsValue(sec) * 1000 + DigitsValue(frac));
  }

  /** The first `.` of `sec.frac` is the one after the whole seconds. */
  lemma DotAfterNumeral(sec: string, frac: string)
    requires IsNumeral(sec)
    ensures FindFrom(sec + "." + frac, '.', 0) == |sec|
  {
    var third := sec + "." + frac;
    assert third[|sec|] == '.';
    assert forall k :: 0 <= k < |sec| ==> third[k] == sec[k];
  }

  lemma DigitsHaveNoColon(sec: string, frac: string)
    requires AllDigits(sec) && AllDigits(frac)
    ensures ':' !in sec + "." + frac
  {
    var third := sec + "." + frac;
    forall i | 0 <= i < |third| ensures third[i] != ':' {
      if i < |sec| { assert third[i] == sec[i]; }
      else if i > |sec| { assert third[i] == frac[i - |sec| - 1]; }
    }
  }

  lemma SplitStamp(stamp: string, h: string, m: string, sec: string, frac: string)
    requires AllDigits(h) && AllDigits(m) && AllDigits(sec) && AllDigits(frac)
    requires stamp == h + ":" + m + ":" + sec + "." + frac
    ensures Split(stamp, ':') == [h, m, sec + "." + frac]
  {
    var third := sec + "." + frac;
    DigitsHaveNoColon(sec, frac);
    assert ':' !in h && ':' !in m;
    assert stamp == h + [':'] + (m + [':'] + third);
    SplitThree(h, m, third);
  }

  lemma SplitThree(h: string, m: string, third: string)
    requires ':' !in h && ':' !in m && ':' !in third
    ensures Split(h + [':'] + (m + [':'] + third), ':') == [h, m, third]
  {
    SplitNoSep(third, ':');
    SplitCons(m, ':', third);
    SplitCons(h, ':', m + [':'] + third);
  }

  lemma ParseStampOfParts(stamp: string, h: string, m: string, third: string, secMs: nat)
    requires IsNumeral(h) && IsNumeral(m)
    requires Split(stamp, ':') == [h, m, third]
    requires SecondsField(third) == Some(secMs)
    ensures ParseStamp(stamp) == Some(DigitsValue(h) * 3_600_000 + DigitsValue(m) * 60_000 + secMs)
  {
    var parts := [h, m, third];
    assert parts[0] == h && parts[1] == m && parts[2] == third;
    assert StampOfFields(parts) == Some(DigitsValue(h) * 3_600_000 + DigitsValue(m) * 60_000 + secMs);
  }

  /** Division facts the round trip needs. */
  lemma SplitMillis(t: nat)
    ensures t == t / 3_600_000 * 3_600_000 + t % 3_600_000 / 60_000 * 60_000
                 + t % 60_000 / 1000 * 1000 + t % 1000
    ensures t % 3_600_000 / 60_000 < 60 && t % 60_000 / 1000 < 60
  {
    var a := t % 3_600_000;
    assert a % 60_000 == t % 60_000;
    var b := t % 60_000;
    assert b % 1000 == t % 1000;
  }

  /** `time_to_seconds(seconds_to_vtt_time(t)) == t` for every whole-millisecond time. */
  lemma ParseVttTime(t: nat)
    ensures ParseStamp(VttTime(t)) == Some(t)
  {
    var h, m, sec := t / 3_600_000, t % 3_600_000 / 60_000, t % 60_000 / 1000;
    SplitMillis(t);
    assert VttTime(t) == Pad2(h) + ":" + Pad2(m) + ":" + Pad2(sec) + "." + Pad3(t % 1000);
    var third := Pad2(sec) + "." + Pad3(t % 1000);
    Pad2Value(h);
    Pad2Value(m);
    Pad2Value(sec);
    Pad3Value(t % 1000);
    SplitStamp(VttTime(t), Pad2(h), Pad2(m), Pad2(sec), Pad3(t % 1000));
    SecondsFieldOf(Pad2(sec), Pad3(t % 1000));
    ParseStampOfParts(VttTime(t), Pad2(h), Pad2(m), third, sec * 1000 + t % 1000);
  }

  /** A formatted time holds nothing but digits, the two colons and its separator. */
  lemma FormattedChars(s: string, sep: char)
    requires IsFormattedStamp(s, sep)
    ensures forall k :: 0 <= k < |s| ==> IsDigit(s[k]) || s[k] == ':' || s[k] == sep
  {
    var n := |s|;
    forall k | 0 <= k < n ensures IsDigit(s[k]) || s[k] == ':' || s[k] == sep {
      if k < n - 10 {
        assert s[..n - 10][k] == s[k];
      } else if n - 9 <= k < n - 7 {
        assert s[n - 9..n - 7][k - (n - 9)] == s[k];
      } else if n - 6 <= k < n - 4 {
        assert s[n - 6..n - 4][k - (n - 6)] == s[k];
      } else if n - 3 <= k {
        assert s[n - 3..][k - (n - 3)] == s[k];
      }
    }
  }

  /** The WebVTT cue timestamp the caption reader expects: `\d{2}:\d{2}:\d{2}\.\d{3}`. */
  predicate IsVttStamp(s: string) {
    && |s| == 12
    && IsDigit(s[0]) && IsDigit(s[1]) && s[2] == ':'
    && IsDigit(s[3]) && IsDigit(s[4]) && s[5] == ':'
    && IsDigit(s[6]) && IsDigit(s[7]) && s[8] == '.'
    && IsDigit(s[9]) && IsDigit(s[10]) && IsDigit(s[11])
  }

  /** Below 100 hours, `seconds_to_vtt_time` writes exactly the timestamp shape the caption
      reader looks for. */
  lemma VttTimeIsStamp(t: nat)
    requires t < 100 * 3_600_000
    ensures IsVttStamp(VttTime(t))
  {
    var s := VttTime(t);
    FormatStampShape(t, '.');
    assert |s| == 12;
    assert s[..2][0] == s[0] && s[..2][1] == s[1];
    assert s[3..5][0] == s[3] && s[3..5][1] == s[4];
    assert s[6..8][0] == s[6] && s[6..8][1] == s[7];
    assert s[9..][0] == s[9] && s[9..][1] == s[10] && s[9..][2] == s[11];
  }

  /** `re.match(r'\d{2}:\d{2}:\d{2}', s)`: `s` starts with a clock reading `HH:MM:SS`. */
  predicate StartsWithClock(s: string) {
    && |s| >= 8
    && IsDigit(s[0]) && IsDigit(s[1]) && s[2] == ':'
    && IsDigit(s[3]) && IsDigit(s[4]) && s[5] == ':'
    && IsDigit(s[6]) && IsDigit(s[7])
  }

  /** `re.search(r'\d{2}:\d{2}:\d{2}', s)`: a clock reading somewhere in `s`. */
  predicate HasClock(s: string) {
    exists i :: 0 <= i <= |s| && StartsWithClock(s[i..])
  }

  lemma TwoDigitsValue(d: string)
    requires |d| == 2 && AllDigits(d)
    ensures DigitsValue(d) == DigitValue(d[0]) * 10 + DigitValue(d[1])
  {
    assert DigitsValue(d) == DigitsValue(d[..1]) * 10 + DigitValue(d[1]);
    assert d[..1][..0] == [] && d[..1][0] == d[0];
    assert DigitsValue(d[..1]) == DigitsValue(d[..1][..0]) * 10 + DigitValue(d[0]);
  }

  lemma ThreeDigitsValue(d: string)
    requires |d| == 3 && AllDigits(d)
    ensures DigitsValue(d) == DigitValue(d[0]) * 100 + DigitValue(d[1]) * 10 + DigitValue(d[2])
  {
    assert DigitsValue(d) == DigitsValue(d[..2]) * 10 + DigitValue(d[2]);
    TwoDigitsValue(d[..2]);
  }

  /** Appending a digit to a positive number's numeral appends its character. */
  lemma DecimalSnoc(q: nat, r: nat)
    requires q >= 1 && r < 10
    ensures Decimal(q * 10 + r) == Decimal(q) + [DigitChar(r)]
  {
    assert (q * 10 + r) / 10 == q && (q * 10 + r) % 10 == r;
  }

  /** A two-digit numeral is its own zero-padded rendering. */
  lemma Pad2OfTwoDigits(d: string)
    requires |d| == 2 && AllDigits(d)
    ensures DigitsValue(d) < 100 && Pad2(DigitsValue(d)) == d
  {
    var hi, lo := DigitValue(d[0]), DigitValue(d[1]);
    TwoDigitsValue(d);
    if hi == 0 {
      assert Decimal(lo) == [d[1]];
    } else {
      DecimalSnoc(hi, lo);
    }
  }

  /** A three-digit numeral is its own zero-padded rendering. */
  lemma Pad3OfThreeDigits(d: string)
    requires |d| == 3 && AllDigits(d)
    ensures DigitsValue(d) < 1000 && Pad3(DigitsValue(d)) == d
  {
    var a, b, c := DigitValue(d[0]), DigitValue(d[1]), DigitValue(d[2]);
    ThreeDigitsValue(d);
    assert d == [DigitChar(a), DigitChar(b), DigitChar(c)];
    Pad3OfDigits(a, b, c);
  }

  /** `Pad3` of a number given by its three decimal digits writes those digits. */
  lemma Pad3OfDigits(a: nat, b: nat, c: nat)
    requires a < 10 && b < 10 && c < 10
    ensures Pad3(a * 100 + b * 10 + c) == [DigitChar(a), DigitChar(b), DigitChar(c)]
  {
    var n := a * 100 + b * 10 + c;
    if a == 0 && b == 0 {
      assert Decimal(n) == [DigitChar(c)];
    } else if a == 0 {
      DecimalSnoc(b, c);
      assert Decimal(b) == [DigitChar(b)];
    } else {
      DecimalOfThree(a, b, c, n);
    }
  }

  lemma DecimalOfThree(a: nat, b: nat, c: nat, n: nat)
    requires 1 <= a < 10 && b < 10 && c < 10 && n == a * 100 + b * 10 + c
    ensures Decimal(n) == [DigitChar(a), DigitChar(b), DigitChar(c)]
  {
    var p := a * 10 + b;
    assert n == p * 10 + c;
    DecimalSnoc(p, c);
    DecimalSnoc(a, b);
    assert Decimal(a) == [DigitChar(a)];
    assert Decimal(n) == [DigitChar(a)] + [DigitChar(b)] + [DigitChar(c)];
  }

  /** The value `save_srt` computes for a canonical cue timestamp. */
  function StampValue(s: string): (t: nat)
    requires IsVttStamp(s)
  {
    DigitsValue(s[..2]) * 3_600_000 + DigitsValue(s[3..5]) * 60_000 + DigitsValue(s[6..8]) * 1000 + DigitsValue(s[9..])
  }

  /** `time_to_seconds` accepts every canonical cue timestamp, with the value above. */
  lemma StampValueParses(s: string)
    requires IsVttStamp(s)
    ensures ParseStamp(s) == Some(StampValue(s))
  {
    var h, m, sec, frac := s[..2], s[3..5], s[6..8], s[9..];
    assert s == h + ":" + m + ":" + sec + "." + frac;
    SplitStamp(s, h, m, sec, frac);
    SecondsFieldOf(sec, frac);
    var secMs: nat := DigitsValue(sec) * 1000 + DigitsValue(frac);
    ParseStampOfParts(s, h, m, sec + "." + frac, secMs);
  }

  /** Whole hours, minutes below 60, seconds below 60 and milliseconds below 1000 come
      back unchanged from the field arithmetic of the formatters. */
  lemma FieldsOfTime(h: nat, m: nat, sec: nat, ms: nat)
    requires m < 60 && sec < 60 && ms < 1000
    ensures var t := h * 3_600_000 + m * 60_000 + sec * 1000 + ms;
      t / 3_600_000 == h && t % 3_600_000 / 60_000 == m && t % 60_000 / 1000 == sec && t % 1000 == ms
  {
    var q := sec * 1000 + ms;
    var r := m * 60_000 + q;
    var t := h * 3_600_000 + r;
    DivideOut(h, r, 3_600_000);
    DivideOut(m, q, 60_000);
    assert t == (h * 60 + m) * 60_000 + q;
    DivideOut(h * 60 + m, q, 60_000);
    DivideOut(sec, ms, 1000);
    assert t == (h * 3600 + m * 60 + sec) * 1000 + ms;
    DivideOut(h * 3600 + m * 60 + sec, ms, 1000);
  }

  /** Quotient and remainder of `q * d + r` for a remainder below the divisor, for the
      divisors the formatters use. */
  lemma DivideOut(q: nat, r: nat, d: nat)
    requires d == 1000 || d == 60_000 || d == 3_600_000
    requires r < d
    ensures (q * d + r) / d == q && (q * d + r) % d == r
  {
    if d == 1000 {
      assert q * d + r == q * 1000 + r;
    } else if d == 60_000 {
      assert q * d + r == q * 60_000 + r;
    } else {
      assert q * d + r == q * 3_600_000 + r;
    }
  }

  /** The formatters render a time given by its fields field by field. */
  lemma FormatOfFields(h: nat, m: nat, sec: nat, ms: nat, sep: char)
    requires m < 60 && sec < 60 && ms < 1000
    ensures FormatStamp(h * 3_600_000 + m * 60_000 + sec * 1000 + ms, sep)
         == Pad2(h) + ":" + Pad2(m) + ":" + Pad2(sec) + [sep] + Pad3(ms)
  {
    FieldsOfTime(h, m, sec, ms);
  }

  /** For a cue timestamp whose minute and second fields are below 60, re-deriving the SRT
      time through the value gives the same text with `,` in place of `.`. */
  lemma SrtTimeOfCanonical(s: string)
    requires IsVttStamp(s)
    requires DigitsValue(s[3..5]) < 60 && DigitsValue(s[6..8]) < 60
    ensures SrtTime(StampValue(s)) == s[..8] + "," + s[9..]
  {
    var a, b, c, d := s[..2], s[3..5], s[6..8], s[9..];
    Pad2OfTwoDigits(a);
    Pad2OfTwoDigits(b);
    Pad2OfTwoDigits(c);
    Pad3OfThreeDigits(d);
    SrtOfPadded(StampValue(s), DigitsValue(a), DigitsValue(b), DigitsValue(c), DigitsValue(d), a, b, c, d);
    StampPieces(s);
  }

  /** A time whose fields pad to the given texts renders as those texts. */
  lemma SrtOfPadded(t: nat, h: nat, m: nat, sec: nat, ms: nat, a: string, b: string, c: string, d: string)
    requires m < 60 && sec < 60 && ms < 1000
    requires t == h * 3_600_000 + m * 60_000 + sec * 1000 + ms
    requires Pad2(h) == a && Pad2(m) == b && Pad2(sec) == c && Pad3(ms) == d
    ensures SrtTime(t) == a + ":" + b + ":" + c + [','] + d
  {
    FormatOfFields(h, m, sec, ms, ',');
  }

  lemma StampPieces(s: string)
    requires |s| == 12 && s[2] == ':' && s[5] == ':'
    ensures s[..8] + "," + s[9..] == s[..2] + ":" + s[3..5] + ":" + s[6..8] + [','] + s[9..]
  {
    assert s[..8] == s[..2] + ":" + s[3..5] + ":" + s[6..8];
  }

  /** A minute or second field of 60 or more is carried, never kept: the SRT rendering of
      a cue timestamp keeps its text exactly when both fields are below 60. */
  lemma SrtTimeKeepsTextIff(s: string)
    requires IsVttStamp(s)
    ensures SrtTime(StampValue(s)) == s[..8] + "," + s[9..]
        <==> DigitsValue(s[3..5]) < 60 && DigitsValue(s[6..8]) < 60
  {
    if DigitsValue(s[3..5]) < 60 && DigitsValue(s[6..8]) < 60 {
      SrtTimeOfCanonical(s);
    } else {
      var r := SrtTime(StampValue(s));
      var c := s[..8] + "," + s[9..];
      assert |c| == 12 && c[3..5] == s[3..5] && c[6..8] == s[6..8];
      if r == c {
        FormatStampShape(StampValue(s), ',');
      }
    }
  }
}
