/**
 * The handful of string operations the system relies on: prefix and suffix
 * tests, Python's `s.split(sep)[-1]` and `s[:-1]`, and decimal rendering of a
 * natural number (what `'{0}'.format(n)` prints for a non-negative int).
 */
module Text {

  /** A line break; kept as a character so that the texts built with it stay transparent to the verifier. */
  const NL: string := ['\n']

  predicate StartsWith(s: string, p: string)
  {
    p <= s
  }

  predicate EndsWith(s: string, x: string)
  {
    |x| <= |s| && s[|s| - |x|..] == x
  }

  /** `s.split(sep)[-1]`: the longest suffix of `s` that contains no `sep`. */
  function LastSegment(s: string, sep: char): (r: string)
    ensures sep !in r
    ensures EndsWith(s, r)
    ensures |r| < |s| ==> s[|s| - |r| - 1] == sep
  {
    if s == [] then []
    else if s[|s| - 1] == sep then []
    else LastSegment(s[..|s| - 1], sep) + [s[|s| - 1]]
  }

  /** `s[:-1]`: everything but the last character; empty stays empty. */
  function DropLast(s: string): (r: string)
    ensures |s| == 0 ==> r == []
    ensures |s| > 0 ==> r + [s[|s| - 1]] == s
  {
    if |s| == 0 then [] else s[..|s| - 1]
  }

  /**
   * `uri.split('/')[-1][:-1]`: the last path segment of a bracketed URI with
   * its closing character removed, e.g. "Apple" for "<http://dbpedia.org/resource/Apple>".
   */
  function LocalName(uri: string): string
  {
    DropLast(LastSegment(uri, '/'))
  }

  /** The segment after the last separator is exactly what follows it. */
  lemma {:induction false} LastSegmentAfter(p: string, sep: char, x: string)
    requires sep !in x
    ensures LastSegment(p + [sep] + x, sep) == x
  {
    var s := p + [sep] + x;
    if x != [] {
      var init := x[..|x| - 1];
      assert s[..|s| - 1] == p + [sep] + init;
      assert s[|s| - 1] == x[|x| - 1];
      LastSegmentAfter(p, sep, init);
      assert init + [x[|x| - 1]] == x;
    }
  }

  /** The local name of `p/x>` (closing character `c`, no `/` in `x`) is `x`. */
  lemma LocalNameOf(p: string, x: string, c: char)
    requires '/' !in x && c != '/'
    ensures LocalName(p + "/" + x + [c]) == x
  {
    assert p + "/" + x + [c] == p + ['/'] + (x + [c]);
    LastSegmentAfter(p, '/', x + [c]);
    assert (x + [c])[..|x + [c]| - 1] == x;
  }

  predicate IsDigit(c: char)
  {
    '0' <= c <= '9'
  }

  predicate AllDigits(s: string)
  {
    forall i :: 0 <= i < |s| ==> IsDigit(s[i])
  }

  function DigitChar(d: nat): (c: char)
    requires d < 10
    ensures IsDigit(c) && (c as int) - ('0' as int) == d
  {
    "0123456789"[d]
  }

  /** Decimal notation of `n`, without leading zeros. */
  function NatToString(n: nat): (s: string)
    ensures |s| >= 1 && AllDigits(s)
    ensures s[0] == '0' <==> n == 0
    ensures n == 0 ==> s == "0"
    decreases n
  {
    if n < 10 then [DigitChar(n)] else NatToString(n / 10) + [DigitChar(n % 10)]
  }

  /** The value of a string of decimal digits: the inverse of NatToString. */
  function DigitsValue(s: string): nat
    requires AllDigits(s)
  {
    if s == [] then 0
    else DigitsValue(s[..|s| - 1]) * 10 + ((s[|s| - 1] as int) - ('0' as int))
  }

  lemma {:induction false} DigitsValueOfNatToString(n: nat)
    ensures DigitsValue(NatToString(n)) == n
    decreases n
  {
    if n >= 10 {
      var s := NatToString(n);
      assert s[..|s| - 1] == NatToString(n / 10);
      DigitsValueOfNatToString(n / 10);
    }
  }

  /** Distinct numbers are printed differently. */
  lemma NatToStringInjective(m: nat, n: nat)
    requires NatToString(m) == NatToString(n)
    ensures m == n
  {
    DigitsValueOfNatToString(m);
    DigitsValueOfNatToString(n);
  }

  function Spaces(n: nat): (s: string)
    ensures |s| == n && forall i :: 0 <= i < n ==> s[i] == ' '
  {
    seq(n, _ => ' ')
  }
}
