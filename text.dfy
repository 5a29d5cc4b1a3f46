/** The parts of Rust's `str` API that the rendering pipeline relies on, on
    strings of Unicode scalar values: `lines()`, `trim()`, `trim_end()`,
    `starts_with`, `contains`, `repeat`, ASCII case mapping, and the decimal
    rendering of unsigned integers done by `format!("{}")`. */
module Text {
  import opened Base

  // ---------------------------------------------------------------------
  // Counting and searching

  /** Number of occurrences of `c` in `s`. */
  function Count(s: string, c: char): nat {
    if s == [] then 0 else (if s[0] == c then 1 else 0) + Count(s[1..], c)
  }

  lemma {:induction false} CountAppend(a: string, b: string, c: char)
    ensures Count(a + b, c) == Count(a, c) + Count(b, c)
  {
    if a == [] {
      assert a + b == b;
    } else {
      assert (a + b)[1..] == a[1..] + b;
      CountAppend(a[1..], b, c);
    }
  }

  lemma {:induction false} CountZero(s: string, c: char)
    ensures Count(s, c) == 0 <==> c !in s
  {
    if s != [] {
      CountZero(s[1..], c);
      assert s == [s[0]] + s[1..];
    }
  }

  /** Index of the first `c` in `s`, if any. */
  function Find(s: string, c: char): (r: Option<nat>)
    ensures r.Some? ==> r.value < |s| && s[r.value] == c && c !in s[..r.value]
    ensures r.None? ==> c !in s
  {
    if s == [] then None
    else if s[0] == c then Some(0)
    else match Find(s[1..], c)
      case None => None
      case Some(i) =>
        assert s[..i + 1] == [s[0]] + s[1..][..i];
        Some(i + 1)
  }

  lemma FindAt(a: string, c: char, b: string)
    requires c !in a
    ensures Find(a + [c] + b, c) == Some(|a|)
  {
    var s := a + [c] + b;
    assert s[|a|] == c;
    assert forall j :: 0 <= j < |a| ==> s[j] == a[j];
  }

  // ---------------------------------------------------------------------
  // Rust `str::lines()`

  /** Drops one trailing carriage return. */
  function StripCr(line: string): (r: string)
    ensures line == r || line == r + ['\r']
  {
    if |line| > 0 && line[|line| - 1] == '\r' then line[..|line| - 1] else line
  }

  /** Rust `str::lines()`: the pieces of `s` between line feeds, each with a
      carriage return that stood right before its line feed removed; a final
      line feed does not start an empty last line, and "" has no lines. A
      carriage return at the very end, with no line feed after it, is kept. */
  function Lines(s: string): (ls: seq<string>)
    ensures forall k :: 0 <= k < |ls| ==> '\n' !in ls[k]
    decreases |s|
  {
    if s == [] then []
    else match Find(s, '\n')
      case None => [s]
      case Some(i) =>
        var first := StripCr(s[..i]);
        assert forall j :: 0 <= j < |first| ==> first[j] == s[..i][j];
        [first] + Lines(s[i + 1..])
  }

  /** Rows written one after another, each followed by a line feed: what the
      source's loops produce with `push_str(row); push('\n')`. */
  function Terminated(rows: seq<string>): string {
    if rows == [] then "" else rows[0] + "\n" + Terminated(rows[1..])
  }

  lemma {:induction false} TerminatedSnoc(rows: seq<string>, r: string)
    ensures Terminated(rows + [r]) == Terminated(rows) + r + "\n"
  {
    if rows == [] {
      assert rows + [r] == [r];
    } else {
      assert (rows + [r])[1..] == rows[1..] + [r];
      TerminatedSnoc(rows[1..], r);
    }
  }

  lemma {:induction false} TerminatedAppend(a: seq<string>, b: seq<string>)
    ensures Terminated(a + b) == Terminated(a) + Terminated(b)
  {
    if a == [] {
      assert a + b == b;
    } else {
      assert (a + b)[1..] == a[1..] + b;
      TerminatedAppend(a[1..], b);
    }
  }

  /** Rows without line feeds, each terminated, hold one line feed per row. */
  lemma {:induction false} CountTerminated(rows: seq<string>)
    requires forall k :: 0 <= k < |rows| ==> '\n' !in rows[k]
    ensures Count(Terminated(rows), '\n') == |rows|
  {
    if rows != [] {
      CountTerminated(rows[1..]);
      CountAppend(rows[0] + "\n", Terminated(rows[1..]), '\n');
      CountAppend(rows[0], "\n", '\n');
      CountZero(rows[0], '\n');
    }
  }

  /** Rows without line feeds, each terminated, read back as that many lines. */
  lemma TerminatedLineCount(rows: seq<string>)
    requires forall k :: 0 <= k < |rows| ==> '\n' !in rows[k]
    ensures |Lines(Terminated(rows))| == |rows|
  {
    LinesOfTerminated(rows);
  }

  /** `StripCr` applied to every row. */
  function StripAll(rows: seq<string>): (r: seq<string>)
    ensures |r| == |rows|
    ensures forall k :: 0 <= k < |rows| ==> r[k] == StripCr(rows[k])
  {
    if rows == [] then [] else [StripCr(rows[0])] + StripAll(rows[1..])
  }

  /** Reading back rows that contain no line feed gives the rows again, each
      without a carriage return at its end. */
  lemma {:induction false} LinesOfTerminated(rows: seq<string>)
    requires forall k :: 0 <= k < |rows| ==> '\n' !in rows[k]
    ensures Lines(Terminated(rows)) == StripAll(rows)
  {
    if rows != [] {
      var s := Terminated(rows);
      var rest := Terminated(rows[1..]);
      assert s == rows[0] + ['\n'] + rest;
      FindAt(rows[0], '\n', rest);
      assert s[..|rows[0]|] == rows[0];
      assert s[|rows[0]| + 1..] == rest;
      LinesOfTerminated(rows[1..]);
    }
  }

  /** A text that is empty or ends in a line feed has one line per line feed. */
  lemma {:induction false} LinesCount(s: string)
    requires s == [] || s[|s| - 1] == '\n'
    ensures |Lines(s)| == Count(s, '\n')
    decreases |s|
  {
    if s != [] {
      match Find(s, '\n')
      case None =>
        assert false;
      case Some(i) =>
        assert s == s[..i] + ['\n'] + s[i + 1..];
        CountAppend(s[..i] + ['\n'], s[i + 1..], '\n');
        CountAppend(s[..i], ['\n'], '\n');
        CountZero(s[..i], '\n');
        LinesCount(s[i + 1..]);
    }
  }

  // ---------------------------------------------------------------------
  // Rust `trim`, `trim_start`, `trim_end`

  /** Rust `char::is_whitespace`: the Unicode White_Space property. */
  predicate IsWhitespace(c: char) {
    ('\t' <= c <= '\r') || c == ' ' || c == '\U{85}' || c == '\U{A0}' || c == '\U{1680}'
    || ('\U{2000}' <= c <= '\U{200A}') || c == '\U{2028}' || c == '\U{2029}'
    || c == '\U{202F}' || c == '\U{205F}' || c == '\U{3000}'
  }

  /** Neither end of `s` is whitespace. */
  predicate Trimmed(s: string) {
    s == [] || (!IsWhitespace(s[0]) && !IsWhitespace(s[|s| - 1]))
  }

  /** Rust `trim_start`: `s` without its leading whitespace. */
  function TrimStart(s: string): (r: string)
    ensures |r| <= |s| && r == s[|s| - |r|..]
    ensures forall k :: 0 <= k < |s| - |r| ==> IsWhitespace(s[k])
    ensures r == [] || !IsWhitespace(r[0])
  {
    if s != [] && IsWhitespace(s[0]) then TrimStart(s[1..]) else s
  }

  /** Rust `trim_end`: `s` without its trailing whitespace. */
  function TrimEnd(s: string): (r: string)
    ensures |r| <= |s| && r == s[..|r|]
    ensures forall k :: |r| <= k < |s| ==> IsWhitespace(s[k])
    ensures r == [] || !IsWhitespace(r[|r| - 1])
  {
    if s != [] && IsWhitespace(s[|s| - 1]) then TrimEnd(s[..|s| - 1]) else s
  }

  /** Where `trim` cuts `s` at the front: the length of its leading whitespace. */
  function TrimOffset(s: string): nat {
    |s| - |TrimStart(s)|
  }

  /** Rust `trim`: the result is the infix of `s` at `TrimOffset(s)`, only
      whitespace was cut at either end, and no whitespace is left at either end. */
  function Trim(s: string): (r: string)
    ensures TrimOffset(s) + |r| <= |s| && r == s[TrimOffset(s)..TrimOffset(s) + |r|]
    ensures forall j :: 0 <= j < TrimOffset(s) ==> IsWhitespace(s[j])
    ensures forall j :: TrimOffset(s) + |r| <= j < |s| ==> IsWhitespace(s[j])
    ensures Trimmed(r)
  {
    var t := TrimStart(s);
    var r := TrimEnd(t);
    TrimSplice(s, t, r);
    assert r != [] ==> r[0] == t[0];
    r
  }

  /** The end of `t`, a suffix of `s`, cut back to its prefix `r`. */
  lemma TrimSplice(s: string, t: string, r: string)
    requires |t| <= |s| && t == s[|s| - |t|..]
    requires |r| <= |t| && r == t[..|r|]
    requires forall j :: |r| <= j < |t| ==> IsWhitespace(t[j])
    ensures var k := |s| - |t|;
            r == s[k..k + |r|] && forall j :: k + |r| <= j < |s| ==> IsWhitespace(s[j])
  {
    var k := |s| - |t|;
    forall j | k + |r| <= j < |s|
      ensures IsWhitespace(s[j])
    {
      assert s[j] == t[j - k];
    }
  }

  /** Trimming a string that has no whitespace at either end changes nothing;
      in particular `trim` is idempotent. */
  lemma TrimOfTrimmed(s: string)
    requires Trimmed(s)
    ensures Trim(s) == s
  {
    assert TrimStart(s) == s;
  }

  // ---------------------------------------------------------------------
  // Regrouping concatenations

  lemma Assoc(a: string, b: string, c: string)
    ensures a + b + c == a + (b + c)
  {
  }

  lemma Assoc4(a: string, b: string, c: string, d: string)
    ensures a + b + c + d == a + (b + (c + d))
  {
  }

  // ---------------------------------------------------------------------
  // Prefixes, substrings, repetition, case

  predicate StartsWith(s: string, p: string) {
    |p| <= |s| && s[..|p|] == p
  }

  /** `p` occurs in `s` starting at index `i`. */
  predicate OccursAt(s: string, p: string, i: nat) {
    i + |p| <= |s| && s[i..i + |p|] == p
  }

  /** Rust `str::contains` with a string pattern. */
  predicate Contains(s: string, p: string) {
    exists i: nat :: i <= |s| && OccursAt(s, p, i)
  }

  lemma ContainsInfix(a: string, p: string, b: string)
    ensures Contains(a + p + b, p)
  {
    assert (a + p + b)[|a|..|a| + |p|] == p;
    assert OccursAt(a + p + b, p, |a|);
  }

  /** A string lacking some character of `p` does not contain `p`. */
  lemma NotContainsChar(s: string, p: string, c: char)
    requires c in p && c !in s
    ensures !Contains(s, p)
  {
    var k :| 0 <= k < |p| && p[k] == c;
    forall i: nat | i + |p| <= |s|
      ensures !OccursAt(s, p, i)
    {
      assert s[i..i + |p|][k] == s[i + k] != c;
    }
  }

  /** Rust `str::repeat` of a one-character string. */
  function Repeat(c: char, n: nat): (r: string)
    ensures |r| == n && forall k :: 0 <= k < n ==> r[k] == c
  {
    seq(n, _ => c)
  }

  function LowerAscii(c: char): char {
    if 'A' <= c <= 'Z' then (c as int + 32) as char else c
  }

  function UpperAscii(c: char): char {
    if 'a' <= c <= 'z' then (c as int - 32) as char else c
  }

  /** `to_lowercase` restricted to ASCII letters. */
  function ToLower(s: string): (r: string)
    ensures |r| == |s| && forall k :: 0 <= k < |s| ==> r[k] == LowerAscii(s[k])
  {
    seq(|s|, k requires 0 <= k < |s| => LowerAscii(s[k]))
  }

  /** Rust `str::replace` of one character by another. */
  function ReplaceChar(s: string, from: char, to: char): (r: string)
    ensures |r| == |s|
    ensures forall k :: 0 <= k < |s| ==> r[k] == if s[k] == from then to else s[k]
  {
    seq(|s|, k requires 0 <= k < |s| => if s[k] == from then to else s[k])
  }

  // ---------------------------------------------------------------------
  // Decimal rendering, as `format!("{}", n)` prints an unsigned integer

  predicate IsDigit(c: char) {
    '0' <= c <= '9'
  }

  predicate AllDigits(s: string) {
    forall k :: 0 <= k < |s| ==> IsDigit(s[k])
  }

  function DigitChar(d: nat): (c: char)
    requires d < 10
    ensures IsDigit(c) && c as int - '0' as int == d
  {
    ('0' as int + d) as char
  }

  /** Decimal digits of `n`, most significant first, without leading zeros. */
  function NatStr(n: nat): (r: string)
    ensures |r| >= 1 && AllDigits(r)
    ensures r[0] == '0' ==> n == 0 && r == "0"
  {
    if n < 10 then [DigitChar(n)] else NatStr(n / 10) + [DigitChar(n % 10)]
  }

  /** The number a string of decimal digits denotes. */
  function DigitsValue(s: string): nat
    requires AllDigits(s)
  {
    if s == [] then 0 else DigitsValue(s[..|s| - 1]) * 10 + (s[|s| - 1] as int - '0' as int)
  }

  /** Reading the digits back gives the number. */
  lemma {:induction false} NatStrValue(n: nat)
    ensures DigitsValue(NatStr(n)) == n
  {
    if n >= 10 {
      var s := NatStr(n);
      assert s[..|s| - 1] == NatStr(n / 10);
      NatStrValue(n / 10);
    }
  }

  lemma NatStrInjective(m: nat, n: nat)
    requires NatStr(m) == NatStr(n)
    ensures m == n
  {
    NatStrValue(m);
    NatStrValue(n);
  }

  /** Length of the longest prefix of `s` made of digits. */
  function DigitRun(s: string): (k: nat)
    ensures k <= |s| && AllDigits(s[..k]) && (k == |s| || !IsDigit(s[k]))
  {
    if s != [] && IsDigit(s[0]) then
      var k := DigitRun(s[1..]) + 1;
      assert s[..k] == [s[0]] + s[1..][..k - 1];
      k
    else 0
  }

  /** The digit run of a rendered number followed by a non-digit is exactly
      that number's digits. */
  lemma DigitRunOfNatStr(n: nat, rest: string)
    requires rest == [] || !IsDigit(rest[0])
    ensures DigitRun(NatStr(n) + rest) == |NatStr(n)|
  {
    DigitRunOfDigits(NatStr(n), rest);
  }

  lemma {:induction false} DigitRunOfDigits(d: string, rest: string)
    requires AllDigits(d)
    requires rest == [] || !IsDigit(rest[0])
    ensures DigitRun(d + rest) == |d|
  {
    if d != [] {
      assert (d + rest)[1..] == d[1..] + rest;
      DigitRunOfDigits(d[1..], rest);
    } else {
      assert d + rest == rest;
    }
  }

  /** Reads a number off the front of `s`: its value and what follows it;
      `None` when `s` does not start with a digit. */
  function ReadNat(s: string): (r: Option<(nat, string)>)
    ensures r.Some? ==> |r.value.1| < |s|
  {
    var k := DigitRun(s);
    if k == 0 then None else Some((DigitsValue(s[..k]), s[k..]))
  }

  lemma ReadNatStr(n: nat, rest: string)
    requires rest == [] || !IsDigit(rest[0])
    ensures ReadNat(NatStr(n) + rest) == Some((n, rest))
  {
    var s := NatStr(n) + rest;
    DigitRunOfNatStr(n, rest);
    assert s[..|NatStr(n)|] == NatStr(n);
    assert s[|NatStr(n)|..] == rest;
    NatStrValue(n);
  }
}
