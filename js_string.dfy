/**
 * The few JavaScript string built-ins the route relies on: ASCII case
 * mapping (`toLowerCase`/`toUpperCase`), the `\w` and `\s` character classes,
 * `trim`, and the decimal rendering of an integer inside a template literal.
 */
module JsString {

  predicate IsAsciiUpper(c: char) { 'A' <= c <= 'Z' }

  predicate IsAsciiLower(c: char) { 'a' <= c <= 'z' }

  function LowerChar(c: char): char {
    if IsAsciiUpper(c) then (c as int + 32) as char else c
  }

  function UpperChar(c: char): char {
    if IsAsciiLower(c) then (c as int - 32) as char else c
  }

  /** `String.prototype.toLowerCase`, restricted to ASCII letters. */
  function ToLower(s: string): (r: string)
    ensures |r| == |s|
    ensures forall i :: 0 <= i < |s| ==> r[i] == LowerChar(s[i])
    ensures forall i :: 0 <= i < |r| ==> !IsAsciiUpper(r[i])
  {
    seq(|s|, i requires 0 <= i < |s| => LowerChar(s[i]))
  }

  /** No ASCII upper-case letter anywhere in `s`. */
  predicate NoUpper(s: string) {
    forall i :: 0 <= i < |s| ==> !IsAsciiUpper(s[i])
  }

  lemma ToLowerFixesLower(s: string)
    requires NoUpper(s)
    ensures ToLower(s) == s
  {
  }

  /** The regular-expression class `\w`: ASCII letters, digits and `_`. */
  predicate IsWordChar(c: char) {
    IsAsciiUpper(c) || IsAsciiLower(c) || ('0' <= c <= '9') || c == '_'
  }

  /** The regular-expression class `\s`, which is also what `trim` removes:
      ECMAScript WhiteSpace and LineTerminator code points. */
  predicate IsWhitespace(c: char) {
    c == '\t' || c == '\n' || c == '\U{B}' || c == '\U{C}' || c == '\r' || c == ' '
    || c == '\U{A0}' || c == '\U{1680}' || ('\U{2000}' <= c <= '\U{200A}')
    || c == '\U{2028}' || c == '\U{2029}' || c == '\U{202F}' || c == '\U{205F}'
    || c == '\U{3000}' || c == '\U{FEFF}'
  }

  function TrimStart(s: string): (r: string)
    ensures |r| <= |s| && r == s[|s| - |r|..]
    ensures r != [] ==> !IsWhitespace(r[0])
    ensures forall i :: 0 <= i < |s| - |r| ==> IsWhitespace(s[i])
  {
    if s != [] && IsWhitespace(s[0]) then TrimStart(s[1..]) else s
  }

  function TrimEnd(s: string): (r: string)
    ensures |r| <= |s| && r == s[..|r|]
    ensures r != [] ==> !IsWhitespace(r[|r| - 1])
    ensures forall i :: |r| <= i < |s| ==> IsWhitespace(s[i])
  {
    if s != [] && IsWhitespace(s[|s| - 1]) then TrimEnd(s[..|s| - 1]) else s
  }

  /** `String.prototype.trim`: `s` with the whitespace at both ends removed. */
  function Trim(s: string): (r: string)
    ensures |r| <= |s|
    ensures r != [] ==> !IsWhitespace(r[0]) && !IsWhitespace(r[|r| - 1])
    ensures exists a :: InsideWhitespace(s, a, r)
  {
    InsideBothEnds(s, TrimStart(s), TrimEnd(TrimStart(s)));
    TrimEnd(TrimStart(s))
  }

  /** Removing a whitespace prefix and then a whitespace suffix leaves an inner slice. */
  lemma InsideBothEnds(s: string, t: string, r: string)
    requires |t| <= |s| && t == s[|s| - |t|..] && forall i :: 0 <= i < |s| - |t| ==> IsWhitespace(s[i])
    requires |r| <= |t| && r == t[..|r|] && forall i :: |r| <= i < |t| ==> IsWhitespace(t[i])
    ensures InsideWhitespace(s, |s| - |t|, r)
  {
    var a := |s| - |t|;
    forall k | a + |r| <= k < |s| ensures IsWhitespace(s[k]) {
      assert s[k] == t[k - a];
    }
  }

  /** `r` is the part of `s` that starts at `a`, and only whitespace surrounds it. */
  predicate InsideWhitespace(s: string, a: int, r: string) {
    && 0 <= a <= |s| - |r| && r == s[a..a + |r|]
    && (forall k :: 0 <= k < a ==> IsWhitespace(s[k]))
    && (forall k :: a + |r| <= k < |s| ==> IsWhitespace(s[k]))
  }

  /** A string with no surrounding whitespace. */
  predicate Trimmed(s: string) {
    s != [] ==> !IsWhitespace(s[0]) && !IsWhitespace(s[|s| - 1])
  }

  lemma TrimFixesTrimmed(s: string)
    requires Trimmed(s)
    ensures Trim(s) == s
  {
  }

  function DigitChar(d: nat): char
    requires d < 10
  {
    "0123456789"[d]
  }

  /** Decimal form of a natural number, as a template literal prints it. */
  function NatToString(n: nat): (r: string)
    ensures r != []
    ensures forall i :: 0 <= i < |r| ==> '0' <= r[i] <= '9'
  {
    if n < 10 then [DigitChar(n)] else NatToString(n / 10) + [DigitChar(n % 10)]
  }

  function IntToString(n: int): (r: string)
    ensures r != []
  {
    if n < 0 then "-" + NatToString(-n) else NatToString(n)
  }

  /** `t` occurs in `s` starting at index `k`. */
  predicate OccursAt(s: string, t: string, k: int) {
    0 <= k <= |s| - |t| && s[k..k + |t|] == t
  }

  /** `t` occurs in `s` as a contiguous substring. */
  ghost predicate Contains(s: string, t: string) {
    exists k :: OccursAt(s, t, k)
  }

  /** `t` sits right after `a` in `a + t + b`. */
  lemma OccursInside(a: string, t: string, b: string)
    ensures OccursAt(a + t + b, t, |a|)
  {
    assert (a + t + b)[|a|..|a| + |t|] == t;
  }

  /** An occurrence survives appending more text. */
  lemma OccursExtend(s: string, t: string, k: int, u: string)
    requires OccursAt(s, t, k)
    ensures OccursAt(s + u, t, k)
  {
    assert (s + u)[k..k + |t|] == s[k..k + |t|];
  }

  /** Literal `t` occurs at index `i` of `s`, ignoring ASCII case. */
  predicate LitAt(s: string, i: nat, t: string) {
    LitFrom(s, i, t, 0)
  }

  /** Characters `j..` of `t` occur in `s` from index `i + j` on, ignoring ASCII case. */
  predicate LitFrom(s: string, i: nat, t: string, j: nat)
    requires j <= |t|
    ensures LitFrom(s, i, t, j) ==> i + |t| <= |s|
    decreases |t| - j
  {
    i + |t| <= |s| && (j == |t| || (LowerChar(s[i + j]) == LowerChar(t[j]) && LitFrom(s, i, t, j + 1)))
  }

  /** Literal `t` occurs nowhere in `s` at or after index `i`. */
  predicate LitNowhere(s: string, t: string, i: nat)
    decreases |s| - i
  {
    i >= |s| || (!LitAt(s, i, t) && LitNowhere(s, t, i + 1))
  }

  /** A literal cannot start where its first character does not occur. */
  lemma {:induction false} FirstCharAbsent(s: string, t: string, i: nat)
    requires |t| > 0
    requires forall k :: i <= k < |s| ==> LowerChar(s[k]) != LowerChar(t[0])
    ensures LitNowhere(s, t, i)
    decreases |s| - i
  {
    if i < |s| {
      FirstCharAbsent(s, t, i + 1);
    }
  }

  /** No character of `s` is `c` once lower-cased. */
  predicate Avoids(s: string, c: char) {
    forall k :: 0 <= k < |s| ==> LowerChar(s[k]) != c
  }

  lemma AvoidsConcat(a: string, b: string, c: char)
    requires Avoids(a, c) && Avoids(b, c)
    ensures Avoids(a + b, c)
  {
    forall k | 0 <= k < |a + b| ensures LowerChar((a + b)[k]) != c {
      if k >= |a| {
        assert (a + b)[k] == b[k - |a|];
      }
    }
  }

  /** A match of `t` from `j` on agrees with `t` at every later position `m`. */
  lemma {:induction false} LitFromChar(s: string, i: nat, t: string, j: nat, m: nat)
    requires j <= m < |t| && LitFrom(s, i, t, j)
    ensures LowerChar(s[i + m]) == LowerChar(t[m])
    decreases m - j
  {
    if j < m {
      LitFromChar(s, i, t, j + 1, m);
    }
  }

  /** A literal occurs nowhere in a string that lacks one of its characters. */
  lemma {:induction false} CharAbsent(s: string, t: string, m: nat, i: nat)
    requires m < |t| && Avoids(s, LowerChar(t[m]))
    ensures LitNowhere(s, t, i)
    decreases |s| - i
  {
    if i < |s| {
      if LitAt(s, i, t) {
        LitFromChar(s, i, t, 0, m);
      }
      CharAbsent(s, t, m, i + 1);
    }
  }
}
