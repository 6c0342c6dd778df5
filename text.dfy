/**
 * The parts of Python's `str` that the grading engine relies on: the character
 * classes behind `str.isspace` and `str.isalpha`, `str.strip()` with no argument,
 * and `str(n)` for a non-negative integer.
 */
module Text {

  /** Python's `c.isspace()`: the characters Unicode classes as whitespace
      (bidirectional class WS, B or S, or general category Zs). */
  const SPACE_CHARS: set<char> := {
    '\t', '\n', '\U{0B}', '\U{0C}', '\r', '\U{1C}', '\U{1D}', '\U{1E}', '\U{1F}', ' ',
    '\U{85}', '\U{A0}', '\U{1680}',
    '\U{2000}', '\U{2001}', '\U{2002}', '\U{2003}', '\U{2004}', '\U{2005}',
    '\U{2006}', '\U{2007}', '\U{2008}', '\U{2009}', '\U{200A}',
    '\U{2028}', '\U{2029}', '\U{202F}', '\U{205F}', '\U{3000}'
  }

  predicate IsSpace(c: char) {
    c in SPACE_CHARS
  }

  /** Python's `c.isalpha()`, restricted to ASCII and Latin-1: the letters whose
      code point is below U+0100. */
  predicate IsAlpha(c: char) {
    || ('A' <= c <= 'Z') || ('a' <= c <= 'z')
    || c == '\U{AA}' || c == '\U{B5}' || c == '\U{BA}'
    || ('\U{C0}' <= c <= '\U{D6}') || ('\U{D8}' <= c <= '\U{F6}') || ('\U{F8}' <= c <= '\U{FF}')
  }

  /** No letter is whitespace. */
  lemma AlphaNotSpace(c: char)
    requires IsAlpha(c)
    ensures !IsSpace(c)
  {
  }

  predicate AllSpace(s: string) {
    forall i :: 0 <= i < |s| ==> IsSpace(s[i])
  }

  /** Neither the first nor the last character is whitespace. */
  predicate Trimmed(s: string) {
    s == [] || (!IsSpace(s[0]) && !IsSpace(s[|s| - 1]))
  }

  /** Number of whitespace characters `s.lstrip()` removes. */
  function LeadingSpaces(s: string): (n: nat)
    ensures n <= |s|
    ensures forall k :: 0 <= k < n ==> IsSpace(s[k])
    ensures n < |s| ==> !IsSpace(s[n])
  {
    if s == [] || !IsSpace(s[0]) then 0 else 1 + LeadingSpaces(s[1..])
  }

  /** Number of whitespace characters `s.rstrip()` removes. */
  function TrailingSpaces(s: string): (n: nat)
    ensures n <= |s|
    ensures forall k :: |s| - n <= k < |s| ==> IsSpace(s[k])
    ensures n < |s| ==> !IsSpace(s[|s| - 1 - n])
  {
    if s == [] || !IsSpace(s[|s| - 1]) then 0 else 1 + TrailingSpaces(s[..|s| - 1])
  }

  /** Python's `s.strip()`: a trimmed slice of `s`, starting after the leading
      whitespace, with only whitespace around it. */
  function Strip(s: string): (r: string)
    ensures Trimmed(r)
    ensures StripsTo(s, LeadingSpaces(s), r)
  {
    var i := LeadingSpaces(s);
    if i == |s| then
      assert s[..i] == s;
      []
    else
      var j := |s| - TrailingSpaces(s);
      assert i < j;
      assert AllSpace(s[j..]) by {
        forall k | 0 <= k < |s| - j ensures IsSpace(s[j..][k]) { assert s[j..][k] == s[j + k]; }
      }
      s[i..j]
  }

  /** `r` is the slice of `s` at `i` with only whitespace before and after it. */
  predicate StripsTo(s: string, i: nat, r: string) {
    i + |r| <= |s| && r == s[i..i + |r|] && AllSpace(s[..i]) && AllSpace(s[i + |r|..])
  }

  /** Every character of an all-whitespace prefix is whitespace. */
  lemma SpaceBefore(s: string, n: nat, m: nat)
    requires m < n <= |s| && AllSpace(s[..n])
    ensures IsSpace(s[m])
  {
    assert s[..n][m] == s[m];
  }

  /** The slice that `Strip` keeps is the only trimmed slice of `s` with only
      whitespace around it, so the contract of `Strip` fixes its result. */
  lemma StripUnique(s: string, i: nat, j: nat)
    requires i <= j <= |s|
    requires AllSpace(s[..i]) && AllSpace(s[j..]) && Trimmed(s[i..j])
    ensures Strip(s) == s[i..j]
  {
    var r := Strip(s);
    var k := LeadingSpaces(s);
    forall m | 0 <= m < i
      ensures IsSpace(s[m])
    {
      SpaceBefore(s, i, m);
    }
    if i < j {
      assert s[i..j][0] == s[i] && s[i..j][j - i - 1] == s[j - 1];
      if r != [] {
        assert r[0] == s[k] && r[|r| - 1] == s[k + |r| - 1];
      }
    }
  }

  /** A string with no whitespace at either end is its own strip. */
  lemma StripTrimmed(s: string)
    requires Trimmed(s)
    ensures Strip(s) == s
  {
    StripUnique(s, 0, |s|);
    assert s[0..|s|] == s;
  }

  /** `s.strip().strip() == s.strip()`. */
  lemma StripIdempotent(s: string)
    ensures Strip(Strip(s)) == Strip(s)
  {
    StripTrimmed(Strip(s));
  }

  /** Whitespace added around a trimmed string is exactly what `Strip` removes. */
  lemma StripPadded(before: string, t: string, after: string)
    requires AllSpace(before) && AllSpace(after) && Trimmed(t)
    ensures Strip(before + t + after) == t
  {
    var s := before + t + after;
    assert s[..|before|] == before;
    assert s[|before| + |t|..] == after;
    assert s[|before|..|before| + |t|] == t;
    StripUnique(s, |before|, |before| + |t|);
  }

  /** A trimmed string behind a non-space character and a ". " separator stays trimmed. */
  lemma PrefixedTrimmed(c: char, t: string)
    requires !IsSpace(c) && t != [] && Trimmed(t)
    ensures Strip([c] + ". " + t) == [c] + ". " + t
  {
    var s := [c] + ". " + t;
    assert s[0] == c && s[|s| - 1] == t[|t| - 1];
    StripTrimmed(s);
  }

  /** The character of a decimal digit. */
  function Digit(d: nat): (c: char)
    requires d < 10
    ensures '0' <= c <= '9'
  {
    (('0' as int) + d) as char
  }

  /** The number a string of decimal digits denotes, most significant first. */
  function DigitsValue(s: string): nat
    requires forall k :: 0 <= k < |s| ==> '0' <= s[k] <= '9'
  {
    if s == [] then 0
    else DigitsValue(s[..|s| - 1]) * 10 + ((s[|s| - 1] as int) - ('0' as int))
  }

  /** Python's `str(n)` for `n >= 0`: its decimal digits, most significant first,
      with no leading zero, denoting `n`. */
  function Decimal(n: nat): (r: string)
    ensures |r| >= 1
    ensures forall k :: 0 <= k < |r| ==> '0' <= r[k] <= '9'
    ensures r[0] == '0' ==> n == 0
    ensures n < 10 <==> |r| == 1
    ensures DigitsValue(r) == n
    ensures n >= 10 ==> |r| >= 2
    ensures r[|r| - 1] == Digit(n % 10)
  {
    if n < 10 then [Digit(n)]
    else
      var front := Decimal(n / 10);
      var r := front + [Digit(n % 10)];
      assert r[..|r| - 1] == front;
      r
  }

  /** Distinct numbers print differently: both renderings denote their number. */
  lemma DecimalInjective(a: nat, b: nat)
    requires Decimal(a) == Decimal(b)
    ensures a == b
  {
    assert DigitsValue(Decimal(a)) == a && DigitsValue(Decimal(b)) == b;
  }
}
