/**
 * Character classes and string/number helpers with JavaScript's semantics:
 * `\s` and `trim`, `.` in a regular expression, `indexOf`, `lastIndexOf`,
 * `toLowerCase` and `String(n)` for a non-negative integer.
 */
module Text {

  predicate IsAsciiDigit(c: char) { '0' <= c <= '9' }
  predicate IsAsciiUpper(c: char) { 'A' <= c <= 'Z' }
  predicate IsAsciiLower(c: char) { 'a' <= c <= 'z' }

  predicate AllDigits(s: string) {
    forall i | 0 <= i < |s| :: IsAsciiDigit(s[i])
  }

  /** The characters a regular-expression `.` does not match. */
  predicate IsLineTerminator(c: char) {
    c == '\n' || c == '\r' || c == '\U{2028}' || c == '\U{2029}'
  }

  predicate NoLineTerminator(s: string) {
    forall i | 0 <= i < |s| :: !IsLineTerminator(s[i])
  }

  /** JavaScript's `\s` class, which is also the set `trim()` removes. */
  predicate IsJsSpace(c: char) {
    || c == '\t' || c == '\n' || c == '\U{000B}' || c == '\U{000C}' || c == '\r' || c == ' '
    || c == '\U{00A0}' || c == '\U{1680}' || ('\U{2000}' <= c <= '\U{200A}')
    || c == '\U{2028}' || c == '\U{2029}' || c == '\U{202F}' || c == '\U{205F}'
    || c == '\U{3000}' || c == '\U{FEFF}'
  }

  lemma LineTerminatorIsSpace(c: char)
    ensures IsLineTerminator(c) ==> IsJsSpace(c)
  {
  }

  // ---------------------------------------------------------------- searching

  /** `m` occurs in `s` starting at index `i`. */
  predicate OccursAt(m: string, s: string, i: nat) {
    i + |m| <= |s| && s[i..i + |m|] == m
  }

  predicate StartsWith(s: string, prefix: string) {
    OccursAt(prefix, s, 0)
  }

  /** `s.indexOf(m, from)`: the first occurrence at or after `from`, or -1. */
  function IndexFrom(s: string, m: string, from: nat): (r: int)
    requires from <= |s|
    ensures r == -1 || (from <= r <= |s| && OccursAt(m, s, r))
    ensures r == -1 ==> forall i | from <= i <= |s| :: !OccursAt(m, s, i)
    ensures r >= 0 ==> forall i | from <= i < r :: !OccursAt(m, s, i)
    decreases |s| - from
  {
    if OccursAt(m, s, from) then from
    else if from == |s| then -1
    else IndexFrom(s, m, from + 1)
  }

  /** `s.indexOf(m)`. */
  function IndexOf(s: string, m: string): int {
    IndexFrom(s, m, 0)
  }

  /** `s.includes(m)`. */
  predicate Contains(s: string, m: string) {
    IndexOf(s, m) >= 0
  }

  lemma ContainsIff(s: string, m: string)
    ensures Contains(s, m) <==> exists i | 0 <= i <= |s| :: OccursAt(m, s, i)
  {
  }

  /**
   * When `m` does not occur in `a + m` without its last character, the first
   * occurrence of `m` in `a + m + b` is the one right after `a`: every earlier
   * occurrence would lie inside `a + m[..|m| - 1]`.
   */
  lemma {:induction false} FirstOccurrenceAfterPrefix(a: string, m: string, b: string)
    requires |m| > 0
    requires !Contains(a + m[..|m| - 1], m)
    ensures IndexOf(a + m + b, m) == |a|
  {
    var s := a + m + b;
    var t := a + m[..|m| - 1];
    assert forall i | 0 <= i <= |t| :: !OccursAt(m, t, i);
    assert OccursAt(m, s, |a|) by { assert s[|a|..|a| + |m|] == m; }
    forall i | 0 <= i < |a|
      ensures !OccursAt(m, s, i)
    {
      if OccursAt(m, s, i) {
        assert s[i..i + |m|] == t[i..i + |m|];
        assert OccursAt(m, t, i);
      }
    }
  }

  /** `s.lastIndexOf(c)` for one character. */
  function LastIndexOfChar(s: string, c: char): (r: int)
    ensures -1 <= r < |s|
    ensures r >= 0 ==> s[r] == c && forall i | r < i < |s| :: s[i] != c
    ensures r == -1 ==> forall i | 0 <= i < |s| :: s[i] != c
  {
    if s == [] then -1
    else if s[|s| - 1] == c then |s| - 1
    else LastIndexOfChar(s[..|s| - 1], c)
  }

  /** `s.split(c).pop()`: the text after the last `c`, or all of `s` when there is none. */
  function AfterLast(s: string, c: char): (r: string)
    ensures forall i | 0 <= i < |r| :: r[i] != c
    ensures r == s || (|r| < |s| && s[|s| - |r| - 1] == c)
    ensures r == s[|s| - |r|..]
  {
    var k := LastIndexOfChar(s, c);
    if k == -1 then s else s[k + 1..]
  }

  // ---------------------------------------------------------------- case and trim

  /**
   * `toLowerCase` as far as it can produce ASCII: ASCII capitals and the
   * Kelvin sign (U+212A, which lowers to `k`); other characters are kept.
   */
  function LowerChar(c: char): char {
    if IsAsciiUpper(c) then (c as int + 32) as char
    else if c == '\U{212A}' then 'k'
    else c
  }

  function Lower(s: string): (r: string)
    ensures |r| == |s|
    ensures forall i | 0 <= i < |s| :: r[i] == LowerChar(s[i])
  {
    seq(|s|, i requires 0 <= i < |s| => LowerChar(s[i]))
  }

  /** `s.trimStart()`. */
  function TrimStart(s: string): (r: string)
    ensures |r| <= |s| && r == s[|s| - |r|..]
    ensures forall i | 0 <= i < |s| - |r| :: IsJsSpace(s[i])
    ensures r != [] ==> !IsJsSpace(r[0])
  {
    if s != [] && IsJsSpace(s[0]) then TrimStart(s[1..]) else s
  }

  /** `s.trimEnd()`. */
  function TrimEnd(s: string): (r: string)
    ensures |r| <= |s| && r == s[..|r|]
    ensures forall i | |r| <= i < |s| :: IsJsSpace(s[i])
    ensures r != [] ==> !IsJsSpace(r[|r| - 1])
  {
    if s != [] && IsJsSpace(s[|s| - 1]) then TrimEnd(s[..|s| - 1]) else s
  }

  /** `s.trim()`. */
  function Trim(s: string): string {
    TrimEnd(TrimStart(s))
  }

  // ---------------------------------------------------------------- decimal numbers

  function DigitChar(d: nat): (c: char)
    requires d < 10
    ensures IsAsciiDigit(c) && c as int - '0' as int == d
  {
    ('0' as int + d) as char
  }

  function DigitValue(c: char): nat
    requires IsAsciiDigit(c)
  {
    c as int - '0' as int
  }

  /** The value of a string of decimal digits. */
  function DecimalValue(s: string): nat
    requires AllDigits(s)
  {
    if s == [] then 0 else DecimalValue(s[..|s| - 1]) * 10 + DigitValue(s[|s| - 1])
  }

  /** `String(n)` for a non-negative integer: its decimal digits, no leading zero. */
  function NatToString(n: nat): (s: string)
    ensures 1 <= |s| && AllDigits(s)
    ensures DecimalValue(s) == n
    ensures s[0] == '0' ==> n == 0
    decreases n
  {
    if n < 10 then [DigitChar(n)]
    else
      var prefix := NatToString(n / 10);
      var s := prefix + [DigitChar(n % 10)];
      assert s[..|s| - 1] == prefix;
      s
  }

  function Pow10(k: nat): (p: nat)
    ensures p >= 1
  {
    if k == 0 then 1 else 10 * Pow10(k - 1)
  }

  /** A number with `k` digits prints as `k` characters. */
  lemma {:induction false} NatToStringLength(n: nat, k: nat)
    requires 1 <= k && Pow10(k - 1) <= n < Pow10(k)
    ensures |NatToString(n)| == k
  {
    if k > 1 {
      assert Pow10(k - 1) == 10 * Pow10(k - 2);
      NatToStringLength(n / 10, k - 1);
    }
  }
}
