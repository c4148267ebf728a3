/** The string operations of Python's `str` that the program relies on. */
module Text {

  /**
   * The characters Python's `str.isspace()` accepts, which `str.strip()` with no
   * argument removes: the ASCII controls TAB to CR and FS to US, SPACE, NEL,
   * NO-BREAK SPACE and the Unicode space separators and line/paragraph separators.
   */
  predicate IsSpace(c: char) {
    || '\U{9}' <= c <= '\U{D}'
    || '\U{1C}' <= c <= '\U{20}'
    || c == '\U{85}' || c == '\U{A0}' || c == '\U{1680}'
    || '\U{2000}' <= c <= '\U{200A}'
    || c == '\U{2028}' || c == '\U{2029}' || c == '\U{202F}' || c == '\U{205F}'
    || c == '\U{3000}'
  }

  /** How many characters at the front of `s` satisfy `p`. */
  function LeadingCount(s: string, p: char -> bool): (n: nat)
    ensures n <= |s|
  {
    if s == [] || !p(s[0]) then 0 else 1 + LeadingCount(s[1..], p)
  }

  /** The leading run is exactly the longest prefix whose characters satisfy `p`. */
  lemma {:induction false} LeadingCountSpec(s: string, p: char -> bool)
    ensures forall k :: 0 <= k < LeadingCount(s, p) ==> p(s[k])
    ensures LeadingCount(s, p) < |s| ==> !p(s[LeadingCount(s, p)])
  {
    if s != [] && p(s[0]) {
      LeadingCountSpec(s[1..], p);
      forall k | 0 <= k < LeadingCount(s, p)
        ensures p(s[k])
      {
        if k > 0 {
          assert s[k] == s[1..][k - 1];
        }
      }
    }
  }

  /** How many characters at the back of `s` satisfy `p`. */
  function TrailingCount(s: string, p: char -> bool): (n: nat)
    ensures n <= |s|
  {
    if s == [] || !p(s[|s| - 1]) then 0 else 1 + TrailingCount(s[..|s| - 1], p)
  }

  /** The trailing run is exactly the longest suffix whose characters satisfy `p`. */
  lemma {:induction false} TrailingCountSpec(s: string, p: char -> bool)
    ensures forall k :: |s| - TrailingCount(s, p) <= k < |s| ==> p(s[k])
    ensures TrailingCount(s, p) < |s| ==> !p(s[|s| - 1 - TrailingCount(s, p)])
  {
    if s != [] && p(s[|s| - 1]) {
      var t := s[..|s| - 1];
      TrailingCountSpec(t, p);
      forall k | |s| - TrailingCount(s, p) <= k < |s|
        ensures p(s[k])
      {
        if k < |s| - 1 {
          assert s[k] == t[k];
        }
      }
      if TrailingCount(s, p) < |s| {
        assert s[|s| - 1 - TrailingCount(s, p)] == t[|t| - 1 - TrailingCount(t, p)];
      }
    }
  }

  /** The string neither starts nor ends with a character satisfying `p`. */
  predicate IsTrimmed(s: string, p: char -> bool) {
    s == [] || (!p(s[0]) && !p(s[|s| - 1]))
  }

  /** `s.strip(chars)` where `p` tells the characters to remove: a contiguous piece of `s`. */
  function Strip(s: string, p: char -> bool): (r: string)
    ensures LeadingCount(s, p) + |r| <= |s|
    ensures r == s[LeadingCount(s, p)..LeadingCount(s, p) + |r|]
  {
    var t := s[LeadingCount(s, p)..];
    t[..|t| - TrailingCount(t, p)]
  }

  /**
   * What `strip` removes and keeps: everything cut off at either end satisfies
   * `p`, and the result itself is trimmed.
   */
  lemma StripShape(s: string, p: char -> bool)
    ensures IsTrimmed(Strip(s, p), p)
    ensures forall k :: 0 <= k < LeadingCount(s, p) ==> p(s[k])
    ensures forall k :: LeadingCount(s, p) + |Strip(s, p)| <= k < |s| ==> p(s[k])
  {
    var i := LeadingCount(s, p);
    var t := s[i..];
    var r := Strip(s, p);
    LeadingCountSpec(s, p);
    TrailingCountSpec(t, p);
    forall k | i + |r| <= k < |s|
      ensures p(s[k])
    {
      assert s[k] == t[k - i];
    }
    if r != [] {
      assert r[0] == s[i];
      assert r[|r| - 1] == t[|t| - 1 - TrailingCount(t, p)];
    }
  }

  /** `s.strip()`: remove leading and trailing whitespace. */
  function StripSpace(s: string): (r: string) {
    Strip(s, IsSpace)
  }

  /** Stripping changes a string exactly when it has something to strip. */
  lemma StripIdentityIff(s: string, p: char -> bool)
    ensures Strip(s, p) == s <==> IsTrimmed(s, p)
  {
    StripShape(s, p);
    if IsTrimmed(s, p) && s != [] {
      assert LeadingCount(s, p) == 0;
      assert TrailingCount(s, p) == 0;
    }
  }

  /** Stripping leaves nothing exactly when every character is one it removes. */
  lemma StripEmptyIff(s: string, p: char -> bool)
    ensures Strip(s, p) == [] <==> forall k :: 0 <= k < |s| ==> p(s[k])
  {
    StripShape(s, p);
    if Strip(s, p) != [] {
      assert Strip(s, p)[0] == s[LeadingCount(s, p)];
    }
  }

  /** Stripping twice is stripping once. */
  lemma StripIdempotent(s: string, p: char -> bool)
    ensures Strip(Strip(s, p), p) == Strip(s, p)
  {
    StripShape(s, p);
    StripIdentityIff(Strip(s, p), p);
  }

  /** `c * n` for a one-character string `c`: empty when `n` is not positive. */
  function Repeat(c: char, n: int): (r: string)
    ensures |r| == if n <= 0 then 0 else n
    ensures forall k :: 0 <= k < |r| ==> r[k] == c
    decreases n
  {
    if n <= 0 then "" else [c] + Repeat(c, n - 1)
  }

  predicate IsAsciiDigit(c: char) { '0' <= c <= '9' }

  function Digit(d: nat): (c: char)
    requires d < 10
    ensures IsAsciiDigit(c)
  {
    (48 + d) as char
  }

  function DigitValue(c: char): (d: nat)
    requires IsAsciiDigit(c)
    ensures d < 10 && Digit(d) == c
  {
    (c as int - 48) as nat
  }

  /** `"%02d" % n` for `n` below 100. */
  function Pad2(n: nat): (r: string)
    requires n < 100
    ensures |r| == 2 && IsAsciiDigit(r[0]) && IsAsciiDigit(r[1])
    ensures 10 * DigitValue(r[0]) + DigitValue(r[1]) == n
  {
    [Digit(n / 10), Digit(n % 10)]
  }

  /** `str(n)` for a natural number: decimal digits without leading zeros. */
  function NatToString(n: nat): (r: string)
    ensures r != []
    ensures forall k :: 0 <= k < |r| ==> IsAsciiDigit(r[k])
    ensures |r| > 1 ==> r[0] != '0'
  {
    if n < 10 then [Digit(n)] else NatToString(n / 10) + [Digit(n % 10)]
  }

  /** The number a string of decimal digits denotes. */
  function DigitsValue(s: string): nat
    requires forall k :: 0 <= k < |s| ==> IsAsciiDigit(s[k])
  {
    if s == [] then 0 else 10 * DigitsValue(s[..|s| - 1]) + DigitValue(s[|s| - 1])
  }

  /** Reading back `str(n)` gives `n`. */
  lemma {:induction false} NatToStringRoundTrip(n: nat)
    ensures DigitsValue(NatToString(n)) == n
  {
    if n >= 10 {
      NatToStringRoundTrip(n / 10);
      var r := NatToString(n);
      assert r[..|r| - 1] == NatToString(n / 10);
    }
  }

  /** `sep.join(xs)`. */
  function JoinWith(xs: seq<string>, sep: string): (r: string)
    ensures xs == [] ==> r == ""
    ensures |xs| == 1 ==> r == xs[0]
    ensures xs != [] ==> xs[0] <= r
  {
    if xs == [] then ""
    else if |xs| == 1 then xs[0]
    else xs[0] + sep + JoinWith(xs[1..], sep)
  }

  /** Joining one more string appends the separator and that string, so `sep.join([a, b])` is `a + sep + b`. */
  lemma {:induction false} JoinWithAppend(xs: seq<string>, x: string, sep: string)
    requires xs != []
    ensures JoinWith(xs + [x], sep) == JoinWith(xs, sep) + sep + x
    decreases |xs|
  {
    if |xs| == 1 {
      assert (xs + [x])[1..] == [x];
    } else {
      assert (xs + [x])[1..] == xs[1..] + [x];
      JoinWithAppend(xs[1..], x, sep);
    }
  }
}
