/**
 * Character and string helpers shared by the Python and the Rust parts:
 * decimal rendering, whitespace classes, word splitting, trimming and
 * substring search.
 */
module Text {

  predicate IsDigit(c: char)
  {
    '0' <= c <= '9'
  }

  function DigitValue(c: char): nat
    requires IsDigit(c)
  {
    (c - '0') as nat
  }

  function DigitChar(d: nat): (c: char)
    requires d < 10
    ensures IsDigit(c) && DigitValue(c) == d
  {
    ('0' as int + d) as char
  }

  predicate AllDigits(s: string)
  {
    forall i :: 0 <= i < |s| ==> IsDigit(s[i])
  }

  /** Value of a string of decimal digits, read most significant first. */
  function DigitsValue(s: string): nat
    requires AllDigits(s)
  {
    if s == [] then 0
    else DigitsValue(s[..|s| - 1]) * 10 + DigitValue(s[|s| - 1])
  }

  /** Decimal rendering of a natural number (Python `str`, Rust `to_string`). */
  function NatToString(n: nat): (s: string)
    ensures |s| >= 1 && AllDigits(s)
    ensures s[0] == '0' ==> n == 0
    ensures n < 10 ==> s == [DigitChar(n)]
  {
    if n < 10 then [DigitChar(n)]
    else NatToString(n / 10) + [DigitChar(n % 10)]
  }

  /** Decimal rendering of an integer, with a leading '-' when negative. */
  function IntToString(i: int): string
  {
    if i < 0 then "-" + NatToString(-i) else NatToString(i)
  }

  /** Decimal rendering can be read back. */
  lemma {:induction false} NatToStringValue(n: nat)
    ensures DigitsValue(NatToString(n)) == n
  {
    if n >= 10 {
      var s := NatToString(n / 10) + [DigitChar(n % 10)];
      assert s[..|s| - 1] == NatToString(n / 10);
      NatToStringValue(n / 10);
    }
  }

  function Spaces(n: nat): (s: string)
    ensures |s| == n && forall i :: 0 <= i < n ==> s[i] == ' '
  {
    if n == 0 then "" else " " + Spaces(n - 1)
  }

  /** Python's `str.isspace` for one character (the characters `str.split()` splits on). */
  predicate PyIsSpace(c: char)
  {
    RustIsWhitespace(c) || ('\U{1c}' <= c <= '\U{1f}')
  }

  /** Rust's `char::is_whitespace` (the Unicode White_Space property). */
  predicate RustIsWhitespace(c: char)
  {
    ('\t' <= c <= '\r') || c == ' ' || c == '\U{85}' || c == '\U{a0}' || c == '\U{1680}'
    || ('\U{2000}' <= c <= '\U{200a}') || c == '\U{2028}' || c == '\U{2029}'
    || c == '\U{202f}' || c == '\U{205f}' || c == '\U{3000}'
  }

  function WordLength(s: string, sep: char -> bool): (n: nat)
    ensures n <= |s|
    ensures forall i :: 0 <= i < n ==> !sep(s[i])
    ensures n < |s| ==> sep(s[n])
  {
    if s == [] || sep(s[0]) then 0 else 1 + WordLength(s[1..], sep)
  }

  /**
   * The maximal runs of non-separator characters, in order: Python's
   * `str.split()` and Rust's `split_whitespace` for the matching separator class.
   */
  function Words(s: string, sep: char -> bool): seq<string>
    decreases |s|
  {
    if s == [] then []
    else if sep(s[0]) then Words(s[1..], sep)
    else
      var n := WordLength(s, sep);
      [s[..n]] + Words(s[n..], sep)
  }

  /** A non-empty string without separators is one word. */
  lemma {:induction false} WordsOfSeparatorFree(s: string, sep: char -> bool)
    requires |s| > 0 && forall i :: 0 <= i < |s| ==> !sep(s[i])
    ensures Words(s, sep) == [s]
  {
    var n := WordLength(s, sep);
    assert !sep(s[0]);
    assert n == |s|;
    assert s[..n] == s && s[n..] == [];
  }

  /** Removes, from both ends, every character satisfying `strip` (Rust `trim_matches`, Python `strip(chars)`). */
  function TrimEnds(s: string, strip: char -> bool): (r: string)
    ensures |r| <= |s|
  {
    TrimEnd(TrimStart(s, strip), strip)
  }

  function TrimStart(s: string, strip: char -> bool): (r: string)
    ensures |r| <= |s| && r == s[|s| - |r|..]
    ensures |r| > 0 ==> !strip(r[0])
    ensures forall i :: 0 <= i < |s| - |r| ==> strip(s[i])
  {
    if s != [] && strip(s[0]) then
      var r := TrimStart(s[1..], strip);
      assert forall i :: 1 <= i < |s| ==> s[i] == s[1..][i - 1];
      r
    else s
  }

  function TrimEnd(s: string, strip: char -> bool): (r: string)
    ensures |r| <= |s| && r == s[..|r|]
    ensures |r| > 0 ==> !strip(r[|r| - 1])
    ensures forall i :: |r| <= i < |s| ==> strip(s[i])
  {
    if s != [] && strip(s[|s| - 1]) then
      var r := TrimEnd(s[..|s| - 1], strip);
      assert forall i :: 0 <= i < |s| - 1 ==> s[i] == s[..|s| - 1][i];
      r
    else s
  }

  /** Trimming a string that neither starts nor ends with a stripped character changes nothing. */
  lemma {:induction false} TrimEndsUnchanged(s: string, strip: char -> bool)
    requires |s| > 0 ==> !strip(s[0]) && !strip(s[|s| - 1])
    ensures TrimEnds(s, strip) == s
  {
  }

  /** A leading stripped character before an untrimmed string is the only thing trimmed. */
  lemma TrimEndsAfter(c: char, t: string, strip: char -> bool)
    requires strip(c) && |t| > 0 && !strip(t[0]) && !strip(t[|t| - 1])
    ensures TrimEnds([c] + t, strip) == t
  {
    assert ([c] + t)[1..] == t;
    TrimEndsUnchanged(t, strip);
  }

  predicate StartsWith(s: string, prefix: string)
  {
    |prefix| <= |s| && s[..|prefix|] == prefix
  }

  /** `pattern` occurs somewhere in `s`. */
  predicate Contains(s: string, pattern: string)
  {
    exists i :: 0 <= i <= |s| - |pattern| && OccursAt(s, pattern, i)
  }

  predicate OccursAt(s: string, pattern: string, i: int)
  {
    0 <= i <= |s| - |pattern| && s[i..i + |pattern|] == pattern
  }

  /** Every character except `c`, in order (Python `re.sub(c, "", s)` for a literal `c`). */
  function Without(s: string, c: char): (r: string)
    ensures forall i :: 0 <= i < |r| ==> r[i] != c
  {
    if s == [] then []
    else (if s[0] == c then [] else [s[0]]) + Without(s[1..], c)
  }

  /** Every occurrence of `x` replaced by `y`. */
  function ReplaceChar(s: string, x: char, y: char): (r: string)
    ensures |r| == |s|
    ensures forall i :: 0 <= i < |s| ==> r[i] == (if s[i] == x then y else s[i])
  {
    if s == [] then [] else [if s[0] == x then y else s[0]] + ReplaceChar(s[1..], x, y)
  }

  /** Rust's `str::split` on one character: n separators give n+1 pieces. */
  function Split(s: string, c: char): (parts: seq<string>)
    ensures |parts| >= 1
    decreases |s|
  {
    if c in s then
      var i := IndexOf(s, c);
      [s[..i]] + Split(s[i + 1..], c)
    else [s]
  }

  function IndexOf(s: string, c: char): (i: nat)
    requires c in s
    ensures i < |s| && s[i] == c && c !in s[..i]
  {
    if s[0] == c then 0 else 1 + IndexOf(s[1..], c)
  }

  /** ASCII lower-casing (`to_lowercase` on the ASCII names it is applied to). */
  function AsciiLower(s: string): (r: string)
    ensures |r| == |s|
    ensures forall i :: 0 <= i < |s| ==> r[i] == LowerChar(s[i])
  {
    if s == [] then [] else [LowerChar(s[0])] + AsciiLower(s[1..])
  }

  function LowerChar(c: char): char
  {
    if 'A' <= c <= 'Z' then (c as int + 32) as char else c
  }

  predicate EndsWith(s: string, suffix: string)
  {
    |suffix| <= |s| && s[|s| - |suffix|..] == suffix
  }

  lemma EndsWithAppend(a: string, b: string, suffix: string)
    requires EndsWith(b, suffix)
    ensures EndsWith(a + b, suffix)
  {
    assert (a + b)[|a + b| - |suffix|..] == b[|b| - |suffix|..];
  }

  lemma StartsWithAppend(a: string, b: string)
    ensures StartsWith(a + b, a)
  {
    assert (a + b)[..|a|] == a;
  }
}
