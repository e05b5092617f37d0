// Helpers shared by the modules below: an Option type, C strings as Dafny
// strings, and the bounded copies and prefix compares the firmware uses.

module Opt {
  datatype Option<T> = None | Some(value: T)
}

module CStr {

  /** A C string without its terminating NUL: no NUL inside. */
  predicate CString(s: string)
  {
    forall i | 0 <= i < |s| :: s[i] != '\0'
  }

  /** `s` and its NUL fit a `char[n]` buffer. */
  predicate Fits(s: string, n: nat)
  {
    CString(s) && |s| < n
  }

  /** The first (at most) `n` characters of `s`. */
  function Take(s: string, n: nat): (r: string)
    ensures |r| <= n && |r| <= |s|
    ensures r == s[..|r|]
    ensures |s| <= n ==> r == s
    ensures n <= |s| ==> |r| == n
  {
    if |s| <= n then s else s[..n]
  }

  predicate StartsWith(s: string, p: string)
  {
    |p| <= |s| && s[..|p|] == p
  }

  /** `strncmp(a, b, n) == 0` for C strings. */
  predicate StrnEq(a: string, b: string, n: nat)
  {
    Take(a, n) == Take(b, n)
  }

  /**
   * `snprintf(buf, size, "%s", s)`: the text that ends up in a `char[size]`
   * buffer, truncated to leave room for the NUL.
   */
  function Bounded(size: nat, s: string): (r: string)
    requires size > 0
    ensures |r| < size && |r| <= |s|
    ensures r == s[..|r|]
    ensures |s| < size ==> r == s
  {
    Take(s, size - 1)
  }

  /** Comparing against a literal over the literal's length is a prefix test. */
  lemma StrnEqPrefix(s: string, p: string)
    ensures StrnEq(s, p, |p|) <==> StartsWith(s, p)
  {
  }

  lemma CStringConcat(a: string, b: string)
    requires CString(a) && CString(b)
    ensures CString(a + b)
  {
    assert forall i | 0 <= i < |a + b| :: (a + b)[i] == (if i < |a| then a[i] else b[i - |a|]);
  }

  lemma CStringSlice(s: string, i: nat, j: nat)
    requires CString(s) && i <= j <= |s|
    ensures CString(s[i..j])
  {
    assert forall k | 0 <= k < j - i :: s[i..j][k] == s[i + k];
  }

  // ---- strchr ----

  /** `strchr(s + from, c)`: the first index at or after `from` holding `c`, or -1 (NULL). */
  function Find(s: string, c: char, from: int): (r: int)
    requires 0 <= from <= |s|
    ensures r == -1 || (from <= r < |s| && s[r] == c)
    decreases |s| - from
  {
    if from == |s| then -1 else if s[from] == c then from else Find(s, c, from + 1)
  }

  /** strchr finds the first occurrence: nothing between `from` and the result matches. */
  lemma {:induction false} FindFirst(s: string, c: char, from: int, i: int)
    requires 0 <= from <= i < |s| && s[i] == c
    ensures Find(s, c, from) != -1 && Find(s, c, from) <= i
    decreases i - from
  {
    if s[from] != c {
      FindFirst(s, c, from + 1, i);
    }
  }

  // ---- decimal numbers ----

  predicate IsDigit(c: char)
  {
    '0' <= c <= '9'
  }

  predicate AllDigits(s: string)
  {
    forall i | 0 <= i < |s| :: IsDigit(s[i])
  }

  function DigitValue(c: char): nat
    requires IsDigit(c)
  {
    c as int - '0' as int
  }

  function DigitChar(d: nat): (c: char)
    requires d < 10
    ensures IsDigit(c) && DigitValue(c) == d
  {
    ('0' as int + d) as char
  }

  /** The digits at the start of `s`. */
  function DigitPrefix(s: string): (r: string)
    ensures AllDigits(r) && StartsWith(s, r)
    ensures |r| < |s| ==> !IsDigit(s[|r|])
    decreases |s|
  {
    if s == [] || !IsDigit(s[0]) then [] else [s[0]] + DigitPrefix(s[1..])
  }

  /** The value of a run of decimal digits, most significant first. */
  function DecimalValue(s: string): nat
    requires AllDigits(s)
  {
    if s == [] then 0 else DecimalValue(s[..|s| - 1]) * 10 + DigitValue(s[|s| - 1])
  }

  /** `sprintf(buf, "%d", n)` for a non-negative `n`. */
  function DecimalString(n: nat): (s: string)
    ensures AllDigits(s) && CString(s) && |s| >= 1
    decreases n
  {
    if n < 10 then [DigitChar(n)] else DecimalString(n / 10) + [DigitChar(n % 10)]
  }

  /** Parsing the decimal rendering of a number gives the number back. */
  lemma {:induction false} DecimalRoundTrip(n: nat)
    ensures DecimalValue(DecimalString(n)) == n
    decreases n
  {
    var s := DecimalString(n);
    if n >= 10 {
      DecimalRoundTrip(n / 10);
      assert s[..|s| - 1] == DecimalString(n / 10);
    }
  }

  /** Different numbers render differently, so `%d` keys are unique. */
  lemma DecimalStringInjective(m: nat, n: nat)
    requires DecimalString(m) == DecimalString(n)
    ensures m == n
  {
    DecimalRoundTrip(m);
    DecimalRoundTrip(n);
  }
}
