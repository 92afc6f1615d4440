/**
 * The JavaScript string built-ins the directory relies on: the `\s` character class and
 * `trim`, `toLowerCase` (on ASCII letters), `includes`, the `\D` replacement used to keep
 * only digits, and `Number` applied to a decimal numeral.
 */
module Text {
  import opened Wrappers
  import Seqs

  /** JavaScript's WhiteSpace and LineTerminator characters: what `trim` strips and `\s` matches. */
  predicate IsWhitespace(c: char) {
    || c == '\t' || c == '\n' || c == '\U{B}' || c == '\U{C}' || c == '\r' || c == ' '
    || c == '\U{A0}' || c == '\U{1680}' || ('\U{2000}' <= c <= '\U{200A}')
    || c == '\U{2028}' || c == '\U{2029}' || c == '\U{202F}' || c == '\U{205F}'
    || c == '\U{3000}' || c == '\U{FEFF}'
  }

  /** The regular-expression class `\d`: ASCII digits only. */
  predicate IsDigit(c: char) {
    '0' <= c <= '9'
  }

  predicate IsAsciiLetter(c: char) {
    'a' <= c <= 'z' || 'A' <= c <= 'Z'
  }

  predicate AllDigits(s: string) {
    forall i :: 0 <= i < |s| ==> IsDigit(s[i])
  }

  function LowerChar(c: char): char {
    if 'A' <= c <= 'Z' then (c as int - 'A' as int + 'a' as int) as char else c
  }

  predicate IsAsciiUpper(c: char) {
    'A' <= c <= 'Z'
  }

  /**
   * `toLowerCase`, taken as a map on ASCII letters: no upper-case letter is left, each one
   * becomes its lower-case partner, and every other character is kept in place.
   */
  function Lower(s: string): (r: string)
    ensures |r| == |s|
    ensures forall i :: 0 <= i < |r| ==> !IsAsciiUpper(r[i])
    ensures forall i :: 0 <= i < |s| && !IsAsciiUpper(s[i]) ==> r[i] == s[i]
    ensures forall i :: 0 <= i < |s| && IsAsciiUpper(s[i]) ==>
              IsAsciiLetter(r[i]) && r[i] as int - s[i] as int == 'a' as int - 'A' as int
  {
    seq(|s|, i requires 0 <= i < |s| => LowerChar(s[i]))
  }

  /** Lower-casing twice is lower-casing once. */
  lemma LowerIdempotent(s: string)
    ensures Lower(Lower(s)) == Lower(s)
  {
    var r := Lower(s);
    assert forall i :: 0 <= i < |r| ==> Lower(r)[i] == r[i];
  }

  /** `trimStart`: the longest suffix of `s` that does not begin with whitespace. */
  function TrimStart(s: string): (r: string)
    ensures |r| <= |s| && r == s[|s| - |r|..]
    ensures r == [] || !IsWhitespace(r[0])
    ensures forall k :: 0 <= k < |s| - |r| ==> IsWhitespace(s[k])
    decreases |s|
  {
    if s != [] && IsWhitespace(s[0]) then TrimStart(s[1..]) else s
  }

  /** `trimEnd`: the longest prefix of `s` that does not end with whitespace. */
  function TrimEnd(s: string): (r: string)
    ensures |r| <= |s| && r == s[..|r|]
    ensures r == [] || !IsWhitespace(r[|r| - 1])
    ensures forall k :: |r| <= k < |s| ==> IsWhitespace(s[k])
    decreases |s|
  {
    if s != [] && IsWhitespace(s[|s| - 1]) then TrimEnd(s[..|s| - 1]) else s
  }

  /**
   * `trim`: the infix of `s` left when its leading and trailing whitespace is removed; it is
   * empty exactly when `s` is all whitespace, and otherwise begins and ends with a character
   * that is not whitespace.
   */
  function Trim(s: string): (r: string)
    ensures |r| <= |s|
    ensures exists i, j :: 0 <= i <= j <= |s| && r == s[i..j] &&
              (forall k :: 0 <= k < i ==> IsWhitespace(s[k])) &&
              (forall k :: j <= k < |s| ==> IsWhitespace(s[k]))
    ensures r == [] <==> forall k :: 0 <= k < |s| ==> IsWhitespace(s[k])
    ensures r == [] || (!IsWhitespace(r[0]) && !IsWhitespace(r[|r| - 1]))
  {
    var t := TrimStart(s);
    var r := TrimEnd(t);
    TrimParts(s, t, r);
    r
  }

  /** Cutting leading whitespace and then trailing whitespace leaves an infix of `s` between the two runs. */
  lemma TrimParts(s: string, t: string, r: string)
    requires |t| <= |s| && t == s[|s| - |t|..] && (forall k :: 0 <= k < |s| - |t| ==> IsWhitespace(s[k]))
    requires t == [] || !IsWhitespace(t[0])
    requires |r| <= |t| && r == t[..|r|] && (forall k :: |r| <= k < |t| ==> IsWhitespace(t[k]))
    requires r == [] || !IsWhitespace(r[|r| - 1])
    ensures exists i, j :: 0 <= i <= j <= |s| && r == s[i..j] &&
              (forall k :: 0 <= k < i ==> IsWhitespace(s[k])) &&
              (forall k :: j <= k < |s| ==> IsWhitespace(s[k]))
    ensures r == [] <==> forall k :: 0 <= k < |s| ==> IsWhitespace(s[k])
    ensures r == [] || (!IsWhitespace(r[0]) && !IsWhitespace(r[|r| - 1]))
  {
    var i := |s| - |t|;
    var j := i + |r|;
    forall k | i <= k < |s|
      ensures s[k] == t[k - i]
    {
    }
    assert r == s[i..j];
    if r != [] {
      assert r[0] == t[0];
    }
    assert (forall k :: 0 <= k < i ==> IsWhitespace(s[k])) && (forall k :: j <= k < |s| ==> IsWhitespace(s[k]));
  }

  /** JavaScript truthiness of a value that is a string or missing: present and not ''. */
  predicate Truthy(v: Option<string>) {
    v.Some? && v.value != ""
  }

  /** `!s.trim()`: the string is empty or only whitespace. */
  predicate IsBlank(s: string) {
    Trim(s) == []
  }

  /** A string with no whitespace at either end is its own trim. */
  lemma TrimUntouched(s: string)
    requires s == [] || (!IsWhitespace(s[0]) && !IsWhitespace(s[|s| - 1]))
    ensures Trim(s) == s
  {
  }

  predicate StartsWith(s: string, prefix: string) {
    |prefix| <= |s| && s[..|prefix|] == prefix
  }

  /** `haystack.includes(needle)`, as a scan from the left. */
  predicate Contains(haystack: string, needle: string)
    decreases |haystack|
  {
    StartsWith(haystack, needle) || (haystack != [] && Contains(haystack[1..], needle))
  }

  /** A successful scan has found an offset where `needle` occurs. */
  lemma {:induction false} ContainsHasOffset(haystack: string, needle: string)
    requires Contains(haystack, needle)
    ensures exists i :: 0 <= i <= |haystack| && StartsWith(haystack[i..], needle)
    decreases |haystack|
  {
    if StartsWith(haystack, needle) {
      assert haystack[0..] == haystack;
    } else {
      ContainsHasOffset(haystack[1..], needle);
      var j :| 0 <= j <= |haystack[1..]| && StartsWith(haystack[1..][j..], needle);
      assert haystack[1..][j..] == haystack[j + 1..];
    }
  }

  /** An occurrence at any offset is found by the scan. */
  lemma {:induction false} OffsetContains(haystack: string, needle: string, i: nat)
    requires i <= |haystack| && StartsWith(haystack[i..], needle)
    ensures Contains(haystack, needle)
    decreases i
  {
    if i == 0 {
      assert haystack[0..] == haystack;
    } else {
      assert haystack[1..][i - 1..] == haystack[i..];
      OffsetContains(haystack[1..], needle, i - 1);
    }
  }

  /** The scan finds `needle` exactly when it occurs at some offset of `haystack`. */
  lemma ContainsIffOccurs(haystack: string, needle: string)
    ensures Contains(haystack, needle) <==>
            exists i :: 0 <= i <= |haystack| && StartsWith(haystack[i..], needle)
  {
    if Contains(haystack, needle) {
      ContainsHasOffset(haystack, needle);
    }
    if exists i :: 0 <= i <= |haystack| && StartsWith(haystack[i..], needle) {
      var i :| 0 <= i <= |haystack| && StartsWith(haystack[i..], needle);
      OffsetContains(haystack, needle, i);
    }
  }

  /** `value.replace(/\D/g, '')`: the digits of `s`, in order. */
  function KeepDigits(s: string): (r: string)
    ensures AllDigits(r)
    ensures |r| <= |s|
  {
    Seqs.Select(s, IsDigit)
  }

  /** Stripping non-digits leaves a digit string unchanged, so applying it twice is applying it once. */
  lemma KeepDigitsFixesDigits(s: string)
    ensures AllDigits(s) ==> KeepDigits(s) == s
    ensures KeepDigits(KeepDigits(s)) == KeepDigits(s)
  {
    if AllDigits(s) {
      Seqs.SelectAll(s, IsDigit);
    }
    Seqs.SelectAll(KeepDigits(s), IsDigit);
  }

  function DigitValue(c: char): nat
    requires IsDigit(c)
  {
    c as int - '0' as int
  }

  function DigitChar(d: nat): (c: char)
    requires d < 10
    ensures IsDigit(c) && DigitValue(c) == d
  {
    ('0' as int + d) as char
  }

  /** The value of a decimal numeral (most significant digit first). */
  function DecimalValue(s: string): nat
    requires AllDigits(s)
    decreases |s|
  {
    if s == [] then 0 else DecimalValue(s[..|s| - 1]) * 10 + DigitValue(s[|s| - 1])
  }

  /**
   * The decimal numeral of `n`: what `String(n)` writes for an integer below 10^21, where it
   * does not switch to exponent notation.
   */
  function Decimal(n: nat): (r: string)
    ensures r != [] && AllDigits(r) && DecimalValue(r) == n
    decreases n
  {
    if n < 10 then [DigitChar(n)]
    else
      var r := Decimal(n / 10) + [DigitChar(n % 10)];
      assert r[..|r| - 1] == Decimal(n / 10);
      r
  }

  /**
   * `Number(s)` for the strings a route parameter carries: surrounding whitespace is ignored,
   * a blank string is 0, a decimal numeral is its value, and anything else is NaN (None).
   */
  function NumberOf(s: string): Option<int> {
    var t := Trim(s);
    if t == [] then Some(0)
    else if AllDigits(t) then Some(DecimalValue(t))
    else None
  }

  /**
   * The decimal numeral of `n` reads back as `n`. `Number` itself is exact only below 2^53, so
   * for `Number(String(n)) == n` the id must lie in that range.
   */
  lemma NumberOfDecimal(n: nat)
    ensures NumberOf(Decimal(n)) == Some(n)
  {
    var d := Decimal(n);
    assert !IsWhitespace(d[0]) && !IsWhitespace(d[|d| - 1]);
    TrimUntouched(d);
  }
}
