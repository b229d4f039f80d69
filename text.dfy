/**
 * Character-level helpers shared by the countdown formatter and the query
 * builders: decimal digits as JavaScript renders an integral number, and
 * searching inside a string.
 */
module Text {
  import opened Wrappers

  predicate IsDigit(c: char) {
    '0' <= c <= '9'
  }

  predicate AllDigits(s: string) {
    forall i :: 0 <= i < |s| ==> IsDigit(s[i])
  }

  function DigitValue(c: char): (d: nat)
    requires IsDigit(c)
    ensures d < 10
  {
    c as int - '0' as int
  }

  function DigitChar(d: nat): (c: char)
    requires d < 10
    ensures IsDigit(c) && DigitValue(c) == d
  {
    ('0' as int + d) as char
  }

  /**
   * The decimal text of a non-negative integer, as JavaScript's `String(n)`
   * renders an integral number below 10^21: at least one digit and no
   * leading zero.
   */
  function NatToString(n: nat): (s: string)
    ensures 1 <= |s| && AllDigits(s)
    ensures 1 < |s| ==> s[0] != '0'
    ensures (n < 10 <==> |s| == 1) && (n < 100 <==> |s| <= 2)
    decreases n
  {
    if n < 10 then [DigitChar(n)] else NatToString(n / 10) + [DigitChar(n % 10)]
  }

  /** `String(n)` for an integral number of either sign. */
  function IntToString(n: int): (s: string)
    ensures 1 <= |s|
  {
    if n < 0 then "-" + NatToString(-n) else NatToString(n)
  }

  /**
   * The text of `n` starts with '-' exactly when `n` is negative, and the
   * digits after the sign read back as the magnitude of `n`.
   */
  lemma IntToStringReadsBack(n: int)
    ensures var s := IntToString(n);
      && (s[0] == '-' <==> n < 0)
      && var digits := if n < 0 then s[1..] else s;
         AllDigits(digits) && ParseNat(digits) == (if n < 0 then -n else n)
  {
    if n < 0 {
      assert IntToString(n)[1..] == NatToString(-n);
      ParseNatToString(-n);
    } else {
      ParseNatToString(n);
    }
  }

  /** Reads a string of digits back as a number; leading zeros add nothing. */
  function ParseNat(s: string): nat
    requires AllDigits(s)
  {
    if s == [] then 0 else ParseNat(s[..|s| - 1]) * 10 + DigitValue(s[|s| - 1])
  }

  /** Reading the rendered digits of `n` gives back `n`. */
  lemma {:induction false} ParseNatToString(n: nat)
    ensures ParseNat(NatToString(n)) == n
    decreases n
  {
    if n >= 10 {
      var s := NatToString(n);
      assert s[..|s| - 1] == NatToString(n / 10);
      ParseNatToString(n / 10);
    }
  }

  /** A leading '0' does not change the value read. */
  lemma {:induction false} ParseLeadingZero(s: string)
    requires AllDigits(s)
    ensures AllDigits("0" + s) && ParseNat("0" + s) == ParseNat(s)
    decreases |s|
  {
    if s != [] {
      var t := s[..|s| - 1];
      assert ("0" + s)[..|s|] == "0" + t;
      ParseLeadingZero(t);
    }
  }

  /** JavaScript's `s.padStart(width, fill)` for a one-character fill string. */
  function PadStart(s: string, width: nat, fill: char): (r: string)
    ensures |r| == if |s| < width then width else |s|
    ensures r[|r| - |s|..] == s
    ensures forall i :: 0 <= i < |r| - |s| ==> r[i] == fill
  {
    if |s| < width then Repeat(fill, width - |s|) + s else s
  }

  function Repeat(c: char, n: nat): (r: string)
    ensures |r| == n && forall i :: 0 <= i < n ==> r[i] == c
  {
    if n == 0 then [] else [c] + Repeat(c, n - 1)
  }

  /** `t` occurs in `s` starting at index `k`. */
  predicate OccursAt(s: string, t: string, k: int) {
    0 <= k && k + |t| <= |s| && s[k..k + |t|] == t
  }

  /** A string that starts with `p` is `p` followed by the rest. */
  lemma PrefixSplit(s: string, p: string)
    requires |p| <= |s| && s[..|p|] == p
    ensures s == p + s[|p|..]
  {
  }

  /** A string that ends with `p` is the rest followed by `p`. */
  lemma SuffixSplit(s: string, p: string)
    requires |p| <= |s| && s[|s| - |p|..] == p
    ensures s == s[..|s| - |p|] + p
  {
  }

  /**
   * The text enclosed by `open` and `close`, when `s` starts with the one
   * and ends with the other without the two overlapping.
   */
  function Between(s: string, open: string, close: string): (r: Option<string>)
    ensures r.Some? <==> |open| + |close| <= |s| && s[..|open|] == open && s[|s| - |close|..] == close
    ensures r.Some? ==> s == open + r.value + close
  {
    if |s| < |open| + |close| || s[..|open|] != open || s[|s| - |close|..] != close then None
    else
      PrefixSplit(s, open);
      SuffixSplit(s[|open|..], close);
      Some(s[|open|..|s| - |close|])
  }

  /** Whatever is enclosed comes back out. */
  lemma BetweenEnclosed(open: string, x: string, close: string)
    ensures Between(open + x + close, open, close) == Some(x)
  {
    var s := open + x + close;
    assert s[..|open|] == open;
    assert s[|s| - |close|..] == close;
    assert s[|open|..|s| - |close|] == x;
  }

  lemma OccursAtMiddle(a: string, t: string, b: string)
    ensures OccursAt(a + t + b, t, |a|)
  {
    assert (a + t + b)[|a|..|a| + |t|] == t;
  }

  predicate Lacks(s: string, c: char) {
    forall i :: 0 <= i < |s| ==> s[i] != c
  }

  /** Index of the first `c` in `s`, or `|s|` when there is none. */
  function FirstIndexOf(s: string, c: char): (k: nat)
    ensures k <= |s| && Lacks(s[..k], c)
    ensures k < |s| ==> s[k] == c
  {
    if s == [] then 0
    else if s[0] == c then 0
    else 1 + FirstIndexOf(s[1..], c)
  }

  /** The first `c` in `a + b` is the first one of `b` when `a` has none. */
  lemma {:induction false} FirstIndexOfAfter(a: string, b: string, c: char)
    requires Lacks(a, c) && 0 < |b| && b[0] == c
    ensures FirstIndexOf(a + b, c) == |a|
    decreases |a|
  {
    if a != [] {
      assert (a + b)[1..] == a[1..] + b;
      FirstIndexOfAfter(a[1..], b, c);
    }
  }
}
