/** The few operations of the `string` library that the generators use, re-specified.
    A `char` is one Unicode scalar value; the original's `length` counts UTF-16 code
    units, and the two agree on text inside the Basic Multilingual Plane. */
module Strings {

  /** ECMAScript WhiteSpace and LineTerminator characters: what `trim` removes. */
  predicate IsWhitespace(c: char)
  {
    || c == ' ' || c == '\t' || c == '\n' || c == '\r'
    || c == '\U{000B}' || c == '\U{000C}' || c == '\U{00A0}' || c == '\U{1680}'
    || ('\U{2000}' <= c <= '\U{200A}')
    || c == '\U{2028}' || c == '\U{2029}' || c == '\U{202F}' || c == '\U{205F}'
    || c == '\U{3000}' || c == '\U{FEFF}'
  }

  predicate AllWhitespace(s: string)
  {
    forall i :: 0 <= i < |s| ==> IsWhitespace(s[i])
  }

  /** True when `s` neither starts nor ends with whitespace. */
  predicate Trimmed(s: string)
  {
    s == [] || (!IsWhitespace(s[0]) && !IsWhitespace(s[|s| - 1]))
  }

  function Max(a: int, b: int): int
  {
    if a < b then b else a
  }

  /** Strips the leading whitespace of `s`. */
  function TrimStart(s: string): string
  {
    if |s| > 0 && IsWhitespace(s[0]) then TrimStart(s[1..]) else s
  }

  /** Strips the trailing whitespace of `s`. */
  function TrimEnd(s: string): string
  {
    if |s| > 0 && IsWhitespace(s[|s| - 1]) then TrimEnd(s[..|s| - 1]) else s
  }

  /** `trim`: strips leading and trailing whitespace, so the result is never longer
      (`TrimSpec` characterises what it keeps). */
  function Trim(s: string): (r: string)
    ensures |r| <= |s|
  {
    TrimStartSpec(s);
    TrimEndSpec(TrimStart(s));
    TrimEnd(TrimStart(s))
  }

  /** `TrimStart` drops exactly the longest all-whitespace prefix. */
  lemma {:induction false} TrimStartSpec(s: string)
    ensures var r := TrimStart(s);
      && |r| <= |s| && r == s[|s| - |r|..]
      && AllWhitespace(s[..|s| - |r|])
      && (r == [] || !IsWhitespace(r[0]))
    decreases |s|
  {
    if |s| > 0 && IsWhitespace(s[0]) {
      TrimStartSpec(s[1..]);
      var r := TrimStart(s);
      assert s[..|s| - |r|] == [s[0]] + s[1..][..|s| - 1 - |r|];
    }
  }

  /** `TrimEnd` drops exactly the longest all-whitespace suffix. */
  lemma {:induction false} TrimEndSpec(s: string)
    ensures var r := TrimEnd(s);
      && |r| <= |s| && r == s[..|r|]
      && AllWhitespace(s[|r|..])
      && (r == [] || !IsWhitespace(r[|r| - 1]))
    decreases |s|
  {
    if |s| > 0 && IsWhitespace(s[|s| - 1]) {
      TrimEndSpec(s[..|s| - 1]);
      var r := TrimEnd(s);
      assert s[|r|..] == s[..|s| - 1][|r|..] + [s[|s| - 1]];
    }
  }

  /** `trim` keeps the part of `s` that follows its leading whitespace and is followed
      only by whitespace, and what it keeps neither starts nor ends with whitespace. */
  lemma TrimSpec(s: string)
    ensures |TrimStart(s)| <= |s|
    ensures var r := Trim(s); var a := |s| - |TrimStart(s)|;
      && Trimmed(r)
      && 0 <= a && a + |r| <= |s|
      && s[a..a + |r|] == r
      && AllWhitespace(s[..a])
      && AllWhitespace(s[a + |r|..])
  {
    var t := TrimStart(s);
    TrimStartSpec(s);
    TrimEndSpec(t);
    var r := Trim(s);
    var a := |s| - |t|;
    assert s[a..a + |r|] == t[..|r|];
    assert s[a + |r|..] == t[|r|..];
    if r != [] {
      assert r[0] == t[0];
    }
  }

  /** `repeat(c, n)`: `n` copies of `c`. */
  function Repeat(c: char, n: nat): (r: string)
    ensures |r| == n
    ensures forall i :: 0 <= i < n ==> r[i] == c
  {
    seq(n, _ => c)
  }

  /** `padRight(n, c)`: appends `c` until the length reaches `n`; never truncates. */
  function PadRight(s: string, n: int, c: char): (r: string)
    ensures |r| == Max(|s|, n)
    ensures r[..|s|] == s
    ensures forall i :: |s| <= i < |r| ==> r[i] == c
  {
    if |s| >= n then s else s + Repeat(c, n - |s|)
  }

  /** `padLeft(n, c)`: prepends `c` until the length reaches `n`; never truncates. */
  function PadLeft(s: string, n: int, c: char): (r: string)
    ensures |r| == Max(|s|, n)
    ensures r[|r| - |s|..] == s
    ensures forall i :: 0 <= i < |r| - |s| ==> r[i] == c
  {
    if |s| >= n then s else Repeat(c, n - |s|) + s
  }

  /** Number of occurrences of `c` in `s`. */
  function CountChar(c: char, s: string): nat
  {
    if |s| == 0 then 0 else CountChar(c, s[..|s| - 1]) + (if s[|s| - 1] == c then 1 else 0)
  }

  lemma {:induction false} CountCharAppend(c: char, a: string, b: string)
    ensures CountChar(c, a + b) == CountChar(c, a) + CountChar(c, b)
    decreases |b|
  {
    if |b| == 0 {
      assert a + b == a;
    } else {
      assert (a + b)[..|a + b| - 1] == a + b[..|b| - 1];
      CountCharAppend(c, a, b[..|b| - 1]);
    }
  }

  lemma CountCharAbsent(c: char, s: string)
    requires c !in s
    ensures CountChar(c, s) == 0
  {
    if |s| > 0 {
      assert s[..|s| - 1] + [s[|s| - 1]] == s;
      CountCharAbsent(c, s[..|s| - 1]);
    }
  }

  /** `replaceAll("\r\n", "\n")`: rewrites each Windows line break, scanning left to right. */
  function NormalizeNewlines(s: string): (r: string)
    ensures CountChar('\n', r) == CountChar('\n', s)
    ensures '\r' !in s ==> r == s
    decreases |s|
  {
    if |s| == 0 then s
    else if |s| >= 2 && s[0] == '\r' && s[1] == '\n' then
      var rest := NormalizeNewlines(s[2..]);
      CountCharAppend('\n', "\n", rest);
      CountCharAppend('\n', "\r\n", s[2..]);
      assert s == "\r\n" + s[2..];
      "\n" + rest
    else
      var rest := NormalizeNewlines(s[1..]);
      CountCharAppend('\n', [s[0]], rest);
      CountCharAppend('\n', [s[0]], s[1..]);
      assert s == [s[0]] + s[1..];
      [s[0]] + rest
  }

  /** Index of the first occurrence of `c` in `s`. */
  function IndexOf(s: string, c: char): (i: nat)
    requires c in s
    ensures i < |s| && s[i] == c && c !in s[..i]
  {
    if s[0] == c then 0 else 1 + IndexOf(s[1..], c)
  }

  /** Joins `parts` with the separator `sep`. */
  function Join(parts: seq<string>, sep: char): string
  {
    if |parts| == 0 then "" else if |parts| == 1 then parts[0]
    else parts[0] + [sep] + Join(parts[1..], sep)
  }

  /** `split(sep)`: the maximal separator-free pieces of `s`, in order; there is always
      one more piece than there are separators, and joining them gives `s` back. */
  function Split(s: string, sep: char): (r: seq<string>)
    ensures |r| == CountChar(sep, s) + 1
    ensures forall k :: 0 <= k < |r| ==> sep !in r[k]
    ensures Join(r, sep) == s
    decreases |s|
  {
    if sep !in s then
      CountCharAbsent(sep, s);
      [s]
    else
      var i := IndexOf(s, sep);
      var rest := Split(s[i + 1..], sep);
      assert s == s[..i] + [sep] + s[i + 1..];
      CountCharAppend(sep, s[..i] + [sep], s[i + 1..]);
      CountCharAppend(sep, s[..i], [sep]);
      CountCharAbsent(sep, s[..i]);
      assert CountChar(sep, [sep]) == CountChar(sep, []) + 1;
      [s[..i]] + rest
  }

  /** `lines()`: normalises `\r\n` to `\n`, then splits on `\n`. */
  function Lines(s: string): (r: seq<string>)
    ensures |r| == CountChar('\n', s) + 1
    ensures forall k :: 0 <= k < |r| ==> '\n' !in r[k]
    ensures Join(r, '\n') == NormalizeNewlines(s)
  {
    Split(NormalizeNewlines(s), '\n')
  }

  /** Joins `parts` with Windows line breaks. */
  function CrlfJoin(parts: seq<string>): string
  {
    if |parts| == 0 then "" else if |parts| == 1 then parts[0]
    else parts[0] + "\r\n" + CrlfJoin(parts[1..])
  }

  /** Text without a line feed holds no `\r\n` to rewrite. */
  lemma {:induction false} NormalizeWithoutLineFeed(s: string)
    requires '\n' !in s
    ensures NormalizeNewlines(s) == s
    decreases |s|
  {
    if |s| > 0 {
      NormalizeWithoutLineFeed(s[1..]);
      assert s == [s[0]] + s[1..];
    }
  }

  /** A leading `\r\n` becomes `\n`. */
  lemma NormalizeCrlf(t: string)
    ensures NormalizeNewlines("\r\n" + t) == "\n" + NormalizeNewlines(t)
  {
    var s := "\r\n" + t;
    assert s[0] == '\r' && s[1] == '\n' && s[2..] == t;
  }

  lemma ConcatAssoc(x: string, y: string, z: string)
    ensures x + (y + z) == (x + y) + z
  {
  }

  /** Normalising distributes over a concatenation that does not cut a `\r\n` in two. */
  lemma {:induction false} NormalizeAppend(a: string, b: string)
    requires a == [] || b == [] || a[|a| - 1] != '\r' || b[0] != '\n'
    ensures NormalizeNewlines(a + b) == NormalizeNewlines(a) + NormalizeNewlines(b)
    decreases |a|
  {
    var ab := a + b;
    if |a| == 0 {
      assert ab == b;
    } else if |a| >= 2 && a[0] == '\r' && a[1] == '\n' {
      var t := a[2..];
      assert ab[0] == '\r' && ab[1] == '\n';
      assert ab[2..] == t + b;
      assert t != [] ==> t[|t| - 1] == a[|a| - 1];
      NormalizeAppend(t, b);
      ConcatAssoc("\n", NormalizeNewlines(t), NormalizeNewlines(b));
    } else {
      var t := a[1..];
      assert ab[0] == a[0];
      assert |ab| >= 2 ==> ab[1] == if |a| >= 2 then a[1] else b[0];
      assert ab[1..] == t + b;
      assert t != [] ==> t[|t| - 1] == a[|a| - 1];
      NormalizeAppend(t, b);
      ConcatAssoc([a[0]], NormalizeNewlines(t), NormalizeNewlines(b));
    }
  }

  /** Every `\r\n` between lines that hold no line feed becomes a single `\n`. */
  lemma {:induction false} NormalizeCrlfJoin(parts: seq<string>)
    requires forall k :: 0 <= k < |parts| ==> '\n' !in parts[k]
    ensures NormalizeNewlines(CrlfJoin(parts)) == Join(parts, '\n')
    decreases |parts|
  {
    if |parts| == 1 {
      NormalizeWithoutLineFeed(parts[0]);
    } else if |parts| >= 2 {
      var rest := CrlfJoin(parts[1..]);
      assert CrlfJoin(parts) == parts[0] + ("\r\n" + rest);
      NormalizeWithoutLineFeed(parts[0]);
      NormalizeAppend(parts[0], "\r\n" + rest);
      NormalizeCrlf(rest);
      NormalizeCrlfJoin(parts[1..]);
      ConcatAssoc(parts[0], "\n", Join(parts[1..], '\n'));
    }
  }

  /** Splitting separator-free pieces joined by the separator gives the pieces back. */
  lemma {:induction false} SplitJoin(parts: seq<string>, sep: char)
    requires |parts| >= 1
    requires forall k :: 0 <= k < |parts| ==> sep !in parts[k]
    ensures Split(Join(parts, sep), sep) == parts
    decreases |parts|
  {
    if |parts| > 1 {
      JoinSplitsAtFirst(parts, sep);
      SplitJoin(parts[1..], sep);
      assert parts == [parts[0]] + parts[1..];
    }
  }

  /** The first separator of a join ends its first piece. */
  lemma JoinSplitsAtFirst(parts: seq<string>, sep: char)
    requires |parts| > 1 && sep !in parts[0]
    ensures var s := Join(parts, sep);
      && sep in s
      && IndexOf(s, sep) == |parts[0]|
      && s[..|parts[0]|] == parts[0]
      && s[|parts[0]| + 1..] == Join(parts[1..], sep)
  {
    var s := Join(parts, sep);
    var n := |parts[0]|;
    assert s == parts[0] + [sep] + Join(parts[1..], sep);
    assert s[n] == sep;
    assert s[..n] == parts[0];
    var i := IndexOf(s, sep);
    assert i == n;
  }

  /** Lines joined with Windows line breaks come back as exactly those lines: each
      `\r\n` is one line break, with no stray `\r` left on a line. */
  lemma LinesOfCrlf(parts: seq<string>)
    requires |parts| >= 1
    requires forall k :: 0 <= k < |parts| ==> '\n' !in parts[k]
    ensures Lines(CrlfJoin(parts)) == parts
  {
    NormalizeCrlfJoin(parts);
    SplitJoin(parts, '\n');
  }

  /** Decimal digit character for `d`. */
  function DigitChar(d: nat): (c: char)
    requires d < 10
    ensures '0' <= c <= '9'
  {
    ('0' as int + d) as char
  }

  predicate IsDigit(c: char)
  {
    '0' <= c <= '9'
  }

  /** Decimal rendering of `n` as in a template literal `${n}`: digits only, no leading zero. */
  function NatToString(n: nat): (r: string)
    ensures |r| >= 1
    ensures forall i :: 0 <= i < |r| ==> IsDigit(r[i])
    ensures r[0] == '0' <==> n == 0
  {
    if n < 10 then [DigitChar(n)] else NatToString(n / 10) + [DigitChar(n % 10)]
  }

  /** The number a string of decimal digits denotes. */
  function DecimalValue(s: string): nat
    requires forall i :: 0 <= i < |s| ==> IsDigit(s[i])
  {
    if |s| == 0 then 0 else 10 * DecimalValue(s[..|s| - 1]) + DigitValue(s[|s| - 1])
  }

  /** The value of a decimal digit character; inverse of `DigitChar`. */
  function DigitValue(c: char): (d: nat)
    requires IsDigit(c)
    ensures d < 10 && DigitChar(d) == c
  {
    c as int - '0' as int
  }

  /** Reading the rendered number back gives the number. */
  lemma {:induction false} NatToStringRoundTrip(n: nat)
    ensures DecimalValue(NatToString(n)) == n
  {
    if n >= 10 {
      var r := NatToString(n);
      assert r[..|r| - 1] == NatToString(n / 10);
      NatToStringRoundTrip(n / 10);
    }
  }

  /** Distinct numbers render differently. */
  lemma NatToStringInjective(m: nat, n: nat)
    requires NatToString(m) == NatToString(n)
    ensures m == n
  {
    NatToStringRoundTrip(m);
    NatToStringRoundTrip(n);
  }

  /** Length of the longest prefix of `s` made only of `c`. */
  function LeadingRun(c: char, s: string): (n: nat)
    ensures n <= |s|
    ensures forall i :: 0 <= i < n ==> s[i] == c
    ensures n < |s| ==> s[n] != c
  {
    if |s| == 0 || s[0] != c then 0 else 1 + LeadingRun(c, s[1..])
  }

  /** A run of `n` copies of `c` followed by something that does not start with `c`
      is recognised as a run of exactly `n`. */
  lemma {:induction false} LeadingRunOfRepeat(c: char, n: nat, t: string)
    requires t == [] || t[0] != c
    ensures LeadingRun(c, Repeat(c, n) + t) == n
    decreases n
  {
    if n > 0 {
      assert (Repeat(c, n) + t)[1..] == Repeat(c, n - 1) + t;
      LeadingRunOfRepeat(c, n - 1, t);
    } else {
      assert Repeat(c, n) + t == t;
    }
  }

  /** Removing whitespace that is not there changes nothing. */
  lemma TrimOfTrimmed(s: string)
    requires Trimmed(s)
    ensures Trim(s) == s
  {
    assert TrimStart(s) == s;
  }

  /** `trim` is idempotent. */
  lemma TrimIdempotent(s: string)
    ensures Trim(Trim(s)) == Trim(s)
  {
    TrimSpec(s);
    TrimOfTrimmed(Trim(s));
  }

  /** A whitespace-only string trims to the empty string. */
  lemma {:induction false} TrimAllWhitespace(s: string)
    requires AllWhitespace(s)
    ensures Trim(s) == ""
    decreases |s|
  {
    if |s| > 0 {
      TrimAllWhitespace(s[1..]);
    }
  }
}
