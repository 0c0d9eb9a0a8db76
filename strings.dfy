/** The parts of Python's `str` that the transcript tools rely on: `strip`, `split`,
    `join`, `startswith`, `in`, `isdigit`, `str(int)`, and the tag-removing
    substitution `re.sub(r'<[^>]+>', '', s)`. Digits are ASCII digits. */
module Strings {
  /** Regrouping a concatenation of three sequences. */
  lemma Associative<T>(a: seq<T>, b: seq<T>, d: seq<T>)
    ensures a + b + d == a + (b + d)
  {
  }

  /** Unfolding the first element of a suffix. */
  lemma SuffixCons<T>(s: seq<T>, i: nat)
    requires i < |s|
    ensures s[i..][0] == s[i] && s[i..][1..] == s[i + 1..]
  {
  }

  /** What reading a file in Python's text mode gives for the characters written to it:
      universal newlines turn `\r\n` and a lone `\r` into `\n`. */
  function TextModeRead(s: string): (r: string)
    ensures |r| <= |s|
    ensures '\r' !in r
    ensures '\r' !in s ==> r == s
    decreases |s|
  {
    if s == [] then []
    else if s[0] == '\r' then "\n" + TextModeRead(if 1 < |s| && s[1] == '\n' then s[2..] else s[1..])
    else [s[0]] + TextModeRead(s[1..])
  }

  /** Text mode passes on every character but a carriage return. */
  lemma ReadOther(c: char, s: string)
    requires c != '\r'
    ensures TextModeRead([c] + s) == [c] + TextModeRead(s)
  {
    assert ([c] + s)[1..] == s;
  }

  /** Text mode reads a `\r\n` pair as one `\n`. */
  lemma ReadReturnNewline(s: string)
    ensures TextModeRead("\r\n" + s) == "\n" + TextModeRead(s)
  {
    var x := "\r\n" + s;
    assert x[0] == '\r' && x[1] == '\n' && x[2..] == s;
  }

  /** Text without a carriage return is read as written, whatever follows it. */
  lemma {:induction false} ReadPrefix(a: string, s: string)
    requires '\r' !in a
    ensures TextModeRead(a + s) == a + TextModeRead(s)
    decreases |a|
  {
    if a == [] {
      assert a + s == s;
    } else {
      var c, tail := a[0], a[1..];
      assert [c] + tail == a;
      Associative([c], tail, s);
      ReadOther(c, tail + s);
      ReadPrefix(tail, s);
      Associative([c], tail, TextModeRead(s));
    }
  }

  /** A lone carriage return inside written text is read back as a line break. */
  lemma ReturnReadsAsNewline(a: string, b: string)
    requires '\r' !in a && '\r' !in b && (b == [] || b[0] != '\n')
    ensures TextModeRead(a + "\r" + b) == a + "\n" + b
  {
    var x := "\r" + b;
    assert x[1..] == b;
    assert TextModeRead(x) == "\n" + b;
    ReadPrefix(a, x);
    assert a + "\r" + b == a + x;
  }

  /** A `\r\n` pair inside written text is read back as one line break. */
  lemma ReturnNewlineReadsAsNewline(a: string, b: string)
    requires '\r' !in a && '\r' !in b
    ensures TextModeRead(a + "\r\n" + b) == a + "\n" + b
  {
    ReadReturnNewline(b);
    ReadPrefix(a, "\r\n" + b);
    assert a + "\r\n" + b == a + ("\r\n" + b);
  }

  /** The characters for which Python's `str.isspace()` holds, i.e. what `str.strip()` removes. */
  predicate IsSpace(c: char) {
    c == ' ' || ('\t' <= c <= '\r') || ('\U{1c}' <= c <= '\U{1f}')
    || c == '\U{85}' || c == '\U{a0}' || c == '\U{1680}'
    || ('\U{2000}' <= c <= '\U{200a}') || c == '\U{2028}' || c == '\U{2029}'
    || c == '\U{202f}' || c == '\U{205f}' || c == '\U{3000}'
  }

  predicate IsDigit(c: char) {
    '0' <= c <= '9'
  }

  predicate AllDigits(s: string) {
    forall i :: 0 <= i < |s| ==> IsDigit(s[i])
  }

  /** `s.isdigit()` and `re.match(r'^\d+$', s)` alike: a non-empty run of digits. */
  predicate IsNumeral(s: string) {
    |s| > 0 && AllDigits(s)
  }

  /** No whitespace at either end: what `str.strip()` leaves. */
  predicate IsStripped(s: string) {
    s == [] || (!IsSpace(s[0]) && !IsSpace(s[|s| - 1]))
  }

  predicate AllSpace(s: string) {
    forall i :: 0 <= i < |s| ==> IsSpace(s[i])
  }

  predicate StartsWith(s: string, prefix: string) {
    |prefix| <= |s| && s[..|prefix|] == prefix
  }

  /** Python's `sub in s`. */
  predicate Contains(s: string, sub: string) {
    exists i :: 0 <= i <= |s| && StartsWith(s[i..], sub)
  }

  /** A run of digits has no whitespace at its ends and no line break. */
  lemma NumeralStripped(s: string)
    requires IsNumeral(s)
    ensures IsStripped(s) && '\n' !in s
  {
    assert !IsDigit('\n');
  }

  /** Index of the first non-whitespace character at or after `i`, or `|s|`. */
  function SkipSpace(s: string, i: nat): (j: nat)
    requires i <= |s|
    ensures i <= j <= |s|
    ensures forall k :: i <= k < j ==> IsSpace(s[k])
    ensures j < |s| ==> !IsSpace(s[j])
    decreases |s| - i
  {
    if i < |s| && IsSpace(s[i]) then SkipSpace(s, i + 1) else i
  }

  /** Index just past the last non-whitespace character in `s[lo..j]`, or `lo`. */
  function SkipSpaceBack(s: string, lo: nat, j: nat): (e: nat)
    requires lo <= j <= |s|
    ensures lo <= e <= j
    ensures forall k :: e <= k < j ==> IsSpace(s[k])
    ensures e > lo ==> !IsSpace(s[e - 1])
    decreases j
  {
    if j > lo && IsSpace(s[j - 1]) then SkipSpaceBack(s, lo, j - 1) else j
  }

  /** `s.strip()`: the text between the leading and the trailing whitespace. */
  function Strip(s: string): (r: string)
    ensures |r| <= |s|
  {
    var a := SkipSpace(s, 0);
    s[a..SkipSpaceBack(s, a, |s|)]
  }

  /** `strip()` leaves no whitespace at either end, and leaves nothing exactly when the
      text is all whitespace. */
  lemma StripShape(s: string)
    ensures IsStripped(Strip(s))
    ensures Strip(s) == [] <==> AllSpace(s)
  {
    var a := SkipSpace(s, 0);
    var e := SkipSpaceBack(s, a, |s|);
    var r := s[a..e];
    assert Strip(s) == r;
    if e > a {
      assert r[0] == s[a] && r[|r| - 1] == s[e - 1];
      assert !IsSpace(s[a]);
    } else {
      forall k | 0 <= k < |s| ensures IsSpace(s[k]) {
        if k < a {
          assert IsSpace(s[k]);
        }
      }
    }
  }

  /** `strip()` keeps a contiguous middle part of `s`, starting at offset `k`. */
  lemma StripOffset(s: string) returns (k: nat)
    ensures k + |Strip(s)| <= |s|
    ensures forall i :: 0 <= i < |Strip(s)| ==> Strip(s)[i] == s[k + i]
  {
    k := SkipSpace(s, 0);
  }

  /** When `s` starts with a non-space, `strip()` keeps it up to any later non-space. */
  lemma StripKeepsPrefix(s: string, j: nat)
    requires j < |s| && !IsSpace(s[0]) && !IsSpace(s[j])
    ensures j < |Strip(s)| && Strip(s)[..j + 1] == s[..j + 1]
  {
    assert SkipSpace(s, 0) == 0;
  }

  /** Whitespace around a stripped, non-empty string is exactly what `strip()` removes. */
  lemma StripOfPadded(a: string, s: string, b: string)
    requires AllSpace(a) && AllSpace(b)
    requires IsStripped(s) && s != []
    ensures Strip(a + s + b) == s
  {
    var x := a + s + b;
    var i, e := |a|, |a| + |s|;
    assert x[i] == s[0] && x[e - 1] == s[|s| - 1];
    assert forall k :: 0 <= k < i ==> x[k] == a[k];
    assert forall k :: e <= k < |x| ==> x[k] == b[k - e];
    assert SkipSpace(x, 0) == i;
    assert SkipSpaceBack(x, i, |x|) == e;
    assert x[i..e] == s;
  }

  /** `strip()` is idempotent: a stripped string is its own strip. */
  lemma StripStripped(s: string)
    requires IsStripped(s)
    ensures Strip(s) == s
  {
    if s != [] {
      assert [] + s + [] == s;
      StripOfPadded([], s, []);
    }
  }

  /** `sep.join(parts)`. */
  function Join(parts: seq<string>, sep: char): (s: string)
    decreases |parts|
  {
    if |parts| == 0 then []
    else if |parts| == 1 then parts[0]
    else parts[0] + [sep] + Join(parts[1..], sep)
  }

  /** `s.split(sep)` for a one-character separator: never empty, and no part holds `sep`. */
  function Split(s: string, sep: char): (parts: seq<string>)
    ensures |parts| >= 1
    ensures forall i :: 0 <= i < |parts| ==> sep !in parts[i]
    decreases |s|
  {
    if s == [] then [[]]
    else
      var rest := Split(s[1..], sep);
      if s[0] == sep then [[]] + rest
      else [[s[0]] + rest[0]] + rest[1..]
  }

  lemma {:induction false} SplitNoSep(a: string, sep: char)
    requires sep !in a
    ensures Split(a, sep) == [a]
    decreases |a|
  {
    if a != [] {
      SplitNoSep(a[1..], sep);
      assert [a[0]] + a[1..] == a;
    }
  }

  /** Splitting at the first separator peels off one part. */
  lemma {:induction false} SplitCons(a: string, sep: char, b: string)
    requires sep !in a
    ensures Split(a + [sep] + b, sep) == [a] + Split(b, sep)
    decreases |a|
  {
    var s := a + [sep] + b;
    if a == [] {
      assert s[1..] == b;
    } else {
      assert s[1..] == a[1..] + [sep] + b;
      SplitCons(a[1..], sep, b);
      assert [s[0]] + a[1..] == a;
    }
  }

  /** `split` undoes `join` when no part holds the separator. */
  lemma {:induction false} SplitJoin(parts: seq<string>, sep: char)
    requires |parts| >= 1
    requires forall i :: 0 <= i < |parts| ==> sep !in parts[i]
    ensures Split(Join(parts, sep), sep) == parts
    decreases |parts|
  {
    if |parts| == 1 {
      SplitNoSep(parts[0], sep);
    } else {
      SplitJoin(parts[1..], sep);
      SplitCons(parts[0], sep, Join(parts[1..], sep));
      assert [parts[0]] + parts[1..] == parts;
    }
  }

  /** `join` undoes `split`. */
  lemma {:induction false} JoinSplit(s: string, sep: char)
    ensures Join(Split(s, sep), sep) == s
    decreases |s|
  {
    if s != [] {
      JoinSplit(s[1..], sep);
      var rest := Split(s[1..], sep);
      if s[0] != sep && |rest| > 1 {
        assert Join(rest, sep) == rest[0] + [sep] + Join(rest[1..], sep);
        assert [rest[0]] + rest[1..] == rest;
      }
    }
  }

  /** Index of the first `c` in `s` at or after `i`, or `|s|` when there is none. */
  function FindFrom(s: string, c: char, i: nat): (j: nat)
    requires i <= |s|
    ensures i <= j <= |s|
    ensures j < |s| ==> s[j] == c
    ensures forall k :: i <= k < j ==> s[k] != c
    decreases |s| - i
  {
    if i == |s| || s[i] == c then i else FindFrom(s, c, i + 1)
  }

  /** Searching in `a + b` past `a` is searching in `b`. */
  lemma {:induction false} FindFromShift(a: string, b: string, c: char, i: nat)
    requires i <= |b|
    ensures FindFrom(a + b, c, |a| + i) == |a| + FindFrom(b, c, i)
    decreases |b| - i
  {
    if i < |b| {
      assert (a + b)[|a| + i] == b[i];
      if b[i] != c {
        FindFromShift(a, b, c, i + 1);
      }
    }
  }

  /** `re.sub(r'<[^>]+>', '', s)`: scanning left to right, a `<` followed by at least one
      character other than `>` and then a `>` is removed up to and including that first `>`. */
  function RemoveTags(s: string): (r: string)
    ensures |r| <= |s|
    ensures '<' !in s ==> r == s
    decreases |s|
  {
    if s == [] then []
    else if s[0] == '<' && 2 <= FindFrom(s, '>', 1) < |s| then RemoveTags(s[FindFrom(s, '>', 1) + 1..])
    else [s[0]] + RemoveTags(s[1..])
  }

  function DigitChar(d: nat): (c: char)
    requires d < 10
    ensures IsDigit(c)
  {
    ('0' as int + d) as char
  }

  function DigitValue(c: char): (d: nat)
    requires IsDigit(c)
    ensures d < 10 && DigitChar(d) == c
  {
    c as int - '0' as int
  }

  /** `str(n)` for a non-negative integer: its shortest decimal numeral. */
  function Decimal(n: nat): (s: string)
    ensures IsNumeral(s)
    ensures |s| > 1 ==> s[0] != '0'
    decreases n
  {
    if n < 10 then [DigitChar(n)] else Decimal(n / 10) + [DigitChar(n % 10)]
  }

  /** The value of a run of decimal digits, leading zeros allowed (`int(s)`). */
  function DigitsValue(s: string): nat
    requires AllDigits(s)
    decreases |s|
  {
    if s == [] then 0 else DigitsValue(s[..|s| - 1]) * 10 + DigitValue(s[|s| - 1])
  }

  /** Reading back `str(n)` gives `n`. */
  lemma {:induction false} DecimalValue(n: nat)
    ensures DigitsValue(Decimal(n)) == n
    decreases n
  {
    if n >= 10 {
      DecimalValue(n / 10);
      var s := Decimal(n);
      assert s[..|s| - 1] == Decimal(n / 10);
    }
  }
}
