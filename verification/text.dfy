/**
 * The parts of Python's string handling that the port-specification parser
 * relies on: `str.split(sep)` with an explicit one-character separator, and
 * `int(token)` in base 10 together with the whitespace it skips around the digits.
 */
module Text {
  import opened Wrappers

  /** The characters `int()` skips before and after the digits, as inclusive
      (low, high) code-point ranges. Among ASCII characters these are only tab,
      line feed, vertical tab, form feed, carriage return and space (the C-locale
      test); above ASCII, every character `str.isspace()` accepts. The ASCII
      separators U+001C..U+001F, which `str.isspace()` accepts, are not skipped. */
  const IntWhitespace: seq<(char, char)> := [
    ('\t', '\r'), (' ', ' '), ('\U{85}', '\U{85}'), ('\U{A0}', '\U{A0}'),
    ('\U{1680}', '\U{1680}'), ('\U{2000}', '\U{200A}'), ('\U{2028}', '\U{2029}'),
    ('\U{202F}', '\U{202F}'), ('\U{205F}', '\U{205F}'), ('\U{3000}', '\U{3000}')
  ]

  predicate InRanges(c: char, ranges: seq<(char, char)>) {
    ranges != [] && (ranges[0].0 <= c <= ranges[0].1 || InRanges(c, ranges[1..]))
  }

  predicate IsSpace(c: char) {
    InRanges(c, IntWhitespace)
  }

  lemma {:induction false} OutsideRanges(c: char, ranges: seq<(char, char)>)
    requires forall i :: 0 <= i < |ranges| ==> c < ranges[i].0 || ranges[i].1 < c
    ensures !InRanges(c, ranges)
  {
    if ranges != [] {
      OutsideRanges(c, ranges[1..]);
    }
  }

  /** Printable ASCII characters (digits and signs among them) are not whitespace. */
  lemma VisibleNotSpace(c: char)
    requires '!' <= c <= '~'
    ensures !IsSpace(c)
  {
    OutsideRanges(c, IntWhitespace);
  }

  ghost predicate AllSpace(s: string) {
    forall i :: 0 <= i < |s| ==> IsSpace(s[i])
  }

  predicate IsDigit(c: char) {
    '0' <= c <= '9'
  }

  // ---------------------------------------------------------------- split / join

  /** `sep.join(parts)`. */
  function Join(parts: seq<string>, sep: char): string
    requires |parts| >= 1
  {
    if |parts| == 1 then parts[0] else parts[0] + [sep] + Join(parts[1..], sep)
  }

  /** `s.split(sep)`: the pieces between occurrences of `sep`, empty pieces included. */
  function Split(s: string, sep: char): (parts: seq<string>)
    ensures |parts| >= 1
    ensures forall i :: 0 <= i < |parts| ==> sep !in parts[i]
  {
    if s == [] then [[]]
    else
      var rest := Split(s[1..], sep);
      if s[0] == sep then [[]] + rest
      else [[s[0]] + rest[0]] + rest[1..]
  }

  /** Joining the pieces back with the separator gives the original string. */
  lemma {:induction false} SplitJoin(s: string, sep: char)
    ensures Join(Split(s, sep), sep) == s
  {
    if s != [] {
      var rest := Split(s[1..], sep);
      SplitJoin(s[1..], sep);
      if s[0] == sep {
        assert ([[]] + rest)[1..] == rest;
      } else {
        var parts := Split(s, sep);
        if |rest| > 1 {
          assert parts[1..] == rest[1..];
          assert Join(rest, sep) == rest[0] + [sep] + Join(rest[1..], sep);
        }
        assert s == [s[0]] + s[1..];
      }
    }
  }

  /** A piece free of the separator, followed by the separator, splits off as one piece. */
  lemma {:induction false} SplitPiece(w: string, t: string, sep: char)
    requires sep !in w
    ensures Split(w + [sep] + t, sep) == [w] + Split(t, sep)
    ensures Split(w, sep) == [w]
  {
    if w != [] {
      SplitPiece(w[1..], t, sep);
      assert (w + [sep] + t)[1..] == w[1..] + [sep] + t;
      assert [w[0]] + w[1..] == w;
    } else {
      assert ([sep] + t)[1..] == t;
    }
  }

  /** Splitting a join of separator-free pieces gives the pieces back. */
  lemma {:induction false} JoinSplit(parts: seq<string>, sep: char)
    requires |parts| >= 1
    requires forall i :: 0 <= i < |parts| ==> sep !in parts[i]
    ensures Split(Join(parts, sep), sep) == parts
  {
    if |parts| == 1 {
      SplitPiece(parts[0], [], sep);
    } else {
      JoinSplit(parts[1..], sep);
      SplitPiece(parts[0], Join(parts[1..], sep), sep);
      assert parts == [parts[0]] + parts[1..];
    }
  }

  /** A character that does not occur in `s` occurs in none of its pieces. */
  lemma {:induction false} SplitKeepsOut(s: string, sep: char, c: char)
    requires c !in s
    ensures forall i :: 0 <= i < |Split(s, sep)| ==> c !in Split(s, sep)[i]
  {
    if s != [] {
      assert forall x :: x in s[1..] ==> x in s;
      SplitKeepsOut(s[1..], sep, c);
    }
  }

  /** A character that occurs in none of the pieces, and is not the separator, is not in their join. */
  lemma {:induction false} JoinKeepsOut(parts: seq<string>, sep: char, c: char)
    requires |parts| >= 1 && c != sep
    requires forall i :: 0 <= i < |parts| ==> c !in parts[i]
    ensures c !in Join(parts, sep)
  {
    if |parts| > 1 {
      JoinKeepsOut(parts[1..], sep, c);
    }
  }

  // ---------------------------------------------------------------- strip

  function TrimStart(s: string): string
  {
    if s != [] && IsSpace(s[0]) then TrimStart(s[1..]) else s
  }

  function TrimEnd(s: string): string
  {
    if s != [] && IsSpace(s[|s| - 1]) then TrimEnd(s[..|s| - 1]) else s
  }

  /** `s` without the leading and trailing whitespace that `int()` skips. */
  function Strip(s: string): string
  {
    TrimEnd(TrimStart(s))
  }

  /** TrimStart removes a run of whitespace from the front and stops at a non-space. */
  lemma {:induction false} TrimStartRemovesSpace(s: string)
    ensures var r := TrimStart(s);
      && |r| <= |s| && r == s[|s| - |r|..]
      && AllSpace(s[..|s| - |r|])
      && (r == [] || !IsSpace(r[0]))
  {
    if s != [] && IsSpace(s[0]) {
      TrimStartRemovesSpace(s[1..]);
      var r := TrimStart(s);
      assert s[1..][|s| - 1 - |r|..] == s[|s| - |r|..];
      assert s[..|s| - |r|] == [s[0]] + s[1..][..|s| - 1 - |r|];
    }
  }

  /** TrimEnd removes a run of whitespace from the back and stops at a non-space. */
  lemma {:induction false} TrimEndRemovesSpace(s: string)
    ensures var r := TrimEnd(s);
      && |r| <= |s| && r == s[..|r|]
      && AllSpace(s[|r|..])
      && (r == [] || !IsSpace(r[|r| - 1]))
  {
    if s != [] && IsSpace(s[|s| - 1]) {
      var p := s[..|s| - 1];
      TrimEndRemovesSpace(p);
      var r := TrimEnd(s);
      assert p[..|r|] == s[..|r|];
      assert s[|r|..] == p[|r|..] + [s[|s| - 1]];
    }
  }

  /** What strip removes is whitespace at the two ends of `s`, and what it keeps
      neither starts nor ends with whitespace. */
  lemma StripDecomposes(s: string) returns (pre: string, post: string)
    ensures s == pre + Strip(s) + post
    ensures AllSpace(pre) && AllSpace(post)
    ensures Strip(s) == [] || (!IsSpace(Strip(s)[0]) && !IsSpace(Strip(s)[|Strip(s)| - 1]))
  {
    var t := TrimStart(s);
    var r := TrimEnd(t);
    TrimStartRemovesSpace(s);
    TrimEndRemovesSpace(t);
    pre, post := s[..|s| - |t|], t[|r|..];
    assert t == r + post by {
      assert r == t[..|r|];
    }
    assert s == pre + t by {
      assert t == s[|s| - |t|..];
    }
    Reassociate(pre, r, post);
  }

  lemma Reassociate(a: string, b: string, c: string)
    ensures a + (b + c) == a + b + c
  {
  }

  lemma {:induction false} TrimStartPadded(pre: string, t: string)
    requires AllSpace(pre)
    requires t == [] || !IsSpace(t[0])
    ensures TrimStart(pre + t) == t
  {
    if pre != [] {
      assert (pre + t)[1..] == pre[1..] + t;
      TrimStartPadded(pre[1..], t);
    }
  }

  lemma {:induction false} TrimEndPadded(t: string, post: string)
    requires AllSpace(post)
    requires t == [] || !IsSpace(t[|t| - 1])
    ensures TrimEnd(t + post) == t
  {
    if post != [] {
      var n := |post| - 1;
      assert (t + post)[..|t + post| - 1] == t + post[..n];
      TrimEndPadded(t, post[..n]);
    } else {
      assert t + post == t;
    }
  }

  /** Whitespace around a token without whitespace at its ends is exactly what strip removes. */
  lemma StripPadded(pre: string, t: string, post: string)
    requires AllSpace(pre) && AllSpace(post)
    requires t == [] || (!IsSpace(t[0]) && !IsSpace(t[|t| - 1]))
    ensures Strip(pre + t + post) == t
  {
    if t == [] {
      assert pre + t + post == pre + post;
      assert AllSpace(pre + post);
      TrimStartPadded(pre + post, []);
      assert pre + post + [] == pre + post;
    } else {
      assert pre + t + post == pre + (t + post);
      TrimStartPadded(pre, t + post);
      TrimEndPadded(t, post);
    }
  }

  // ---------------------------------------------------------------- int()

  /** Decimal digits, with single underscores allowed between two digits (`1_000`). */
  predicate IsDigitRun(b: string) {
    && b != []
    && IsDigit(b[0])
    && IsDigit(b[|b| - 1])
    && (forall i :: 0 <= i < |b| ==> IsDigit(b[i]) || b[i] == '_')
    && (forall i :: 0 <= i < |b| - 1 ==> b[i] == '_' ==> b[i + 1] != '_')
  }

  function DigitValue(c: char): nat
    requires IsDigit(c)
  {
    c as int - '0' as int
  }

  /** The number a digit run denotes; underscores are skipped. */
  function DigitsValue(b: string): nat
  {
    if b == [] then 0
    else if IsDigit(b[|b| - 1]) then 10 * DigitsValue(b[..|b| - 1]) + DigitValue(b[|b| - 1])
    else DigitsValue(b[..|b| - 1])
  }

  /** `int()` of an already stripped token: an optional sign, then a digit run. */
  function ParseSigned(t: string): (r: Option<int>)
    ensures r.Some? && r.value < 0 ==> t != [] && t[0] == '-'
    ensures t == [] ==> r == None
  {
    if t != [] && (t[0] == '+' || t[0] == '-') then
      if IsDigitRun(t[1..]) then
        Some(if t[0] == '-' then -(DigitsValue(t[1..]) as int) else DigitsValue(t[1..]))
      else None
    else if IsDigitRun(t) then Some(DigitsValue(t))
    else None
  }

  /** Python's `int(token)` in base 10: skip surrounding whitespace, then a signed digit run.
      Anything else raises `ValueError`, modelled as `None`. */
  function ParseInt(token: string): Option<int>
  {
    ParseSigned(Strip(token))
  }

  /** Only a token holding a minus sign can denote a negative number. */
  lemma ParseIntNonNegative(token: string)
    requires '-' !in token
    ensures ParseInt(token).Some? ==> ParseInt(token).value >= 0
  {
    var t := Strip(token);
    assert ParseInt(token) == ParseSigned(t);
    var pre, post := StripDecomposes(token);
    if t != [] {
      assert token[|pre|] == t[0];
    }
  }

  /** An empty or all-whitespace token is not a number. */
  lemma ParseIntRejectsBlank(token: string)
    requires AllSpace(token)
    ensures ParseInt(token) == None
  {
    TrimStartAllSpace(token);
  }

  /** A leading file separator (U+001C) is not skipped, so the token is not a number. */
  lemma ExampleFileSeparatorRejected()
    ensures ParseInt("\U{1C}80") == None
  {
    OutsideRanges('\U{1C}', IntWhitespace);
    VisibleNotSpace('0');
    assert !IsDigit('\U{1C}');
  }

  lemma {:induction false} TrimStartAllSpace(s: string)
    requires AllSpace(s)
    ensures TrimStart(s) == []
  {
    if s != [] {
      TrimStartAllSpace(s[1..]);
    }
  }

  // ---------------------------------------------------------------- decimal formatting

  function DigitChar(d: nat): (c: char)
    requires d < 10
    ensures IsDigit(c) && DigitValue(c) == d
  {
    ('0' as int + d) as char
  }

  /** `str(n)` for a non-negative `n`: its decimal digits without leading zeros. */
  function Decimal(n: nat): (s: string)
    ensures s != [] && forall i :: 0 <= i < |s| ==> IsDigit(s[i])
  {
    if n < 10 then [DigitChar(n)] else Decimal(n / 10) + [DigitChar(n % 10)]
  }

  lemma {:induction false} DecimalValue(n: nat)
    ensures DigitsValue(Decimal(n)) == n
  {
    var s := Decimal(n);
    assert s[..|s| - 1] == if n < 10 then [] else Decimal(n / 10);
    if n >= 10 {
      DecimalValue(n / 10);
    }
  }

  /** Surrounding whitespace does not change what `int()` reads. */
  lemma ParseIntPadded(pre: string, t: string, post: string)
    requires AllSpace(pre) && AllSpace(post)
    requires t != [] && '!' <= t[0] <= '~' && '!' <= t[|t| - 1] <= '~'
    ensures ParseInt(pre + t + post) == ParseSigned(t)
  {
    VisibleNotSpace(t[0]);
    VisibleNotSpace(t[|t| - 1]);
    StripPadded(pre, t, post);
  }

  /** `int()` reads back what `str()` writes, with or without a sign and surrounding whitespace. */
  lemma DecimalRoundTrip(pre: string, n: nat, post: string)
    requires AllSpace(pre) && AllSpace(post)
    ensures ParseInt(pre + Decimal(n) + post) == Some(n)
    ensures ParseInt(pre + ['+'] + Decimal(n) + post) == Some(n)
    ensures ParseInt(pre + ['-'] + Decimal(n) + post) == Some(-(n as int))
  {
    var d := Decimal(n);
    SignedDecimal(n);
    ParseIntPadded(pre, d, post);
    ParseIntPadded(pre, ['+'] + d, post);
    Reassociate(pre, ['+'], d);
    ParseIntPadded(pre, ['-'] + d, post);
    Reassociate(pre, ['-'], d);
  }

  lemma SignedDecimal(n: nat)
    ensures ParseSigned(Decimal(n)) == Some(n)
    ensures ParseSigned(['+'] + Decimal(n)) == Some(n)
    ensures ParseSigned(['-'] + Decimal(n)) == Some(-(n as int))
  {
    var d := Decimal(n);
    DecimalValue(n);
    assert IsDigitRun(d);
    assert (['+'] + d)[1..] == d;
    assert (['-'] + d)[1..] == d;
  }
}
