/** String helpers shared by the coordinator and the configuration flow:
    Python's decimal rendering of an integer (`f"{port}"`) and prefix tests. */
module Text {

  predicate IsDigit(c: char)
  {
    '0' <= c <= '9'
  }

  function DigitChar(d: nat): (c: char)
    requires d < 10
    ensures IsDigit(c)
  {
    ['0', '1', '2', '3', '4', '5', '6', '7', '8', '9'][d]
  }

  function DigitValue(c: char): (d: nat)
    requires IsDigit(c)
    ensures d < 10
  {
    (c as int - '0' as int) as nat
  }

  /** The decimal digits of `n`, most significant first, no leading zeros. */
  function NatToString(n: nat): (s: string)
    ensures |s| > 0
    ensures forall i :: 0 <= i < |s| ==> IsDigit(s[i])
  {
    if n < 10 then [DigitChar(n)] else NatToString(n / 10) + [DigitChar(n % 10)]
  }

  /** `str(n)` for a Python int: a minus sign before the digits of `-n`. */
  function IntToString(n: int): (s: string)
    ensures |s| > 0
  {
    if n < 0 then "-" + NatToString(-n) else NatToString(n)
  }

  /** Reads a string of decimal digits back as a number. */
  function ParseNat(s: string): nat
    requires forall i :: 0 <= i < |s| ==> IsDigit(s[i])
  {
    if s == [] then 0 else ParseNat(s[..|s| - 1]) * 10 + DigitValue(s[|s| - 1])
  }

  lemma {:induction false} DigitRoundTrip(d: nat)
    requires d < 10
    ensures DigitValue(DigitChar(d)) == d
  {
    var digits := ['0', '1', '2', '3', '4', '5', '6', '7', '8', '9'];
    assert DigitChar(d) == digits[d];
  }

  /** Parsing the rendering of a number gives the number back. */
  lemma {:induction false} ParseNatToString(n: nat)
    ensures ParseNat(NatToString(n)) == n
  {
    if n < 10 {
      DigitRoundTrip(n);
    } else {
      var s := NatToString(n);
      assert s[..|s| - 1] == NatToString(n / 10);
      ParseNatToString(n / 10);
      DigitRoundTrip(n % 10);
    }
  }

  /** Distinct naturals render as distinct digit strings. */
  lemma NatToStringInjective(a: nat, b: nat)
    requires NatToString(a) == NatToString(b)
    ensures a == b
  {
    ParseNatToString(a);
    ParseNatToString(b);
  }

  /** Distinct integers render as distinct strings. */
  lemma IntToStringInjective(m: int, n: int)
    requires IntToString(m) == IntToString(n)
    ensures m == n
  {
    SignsAgree(m, n);
    if m < 0 {
      DigitsOfNegative(m);
      DigitsOfNegative(n);
      NatToStringInjective(-m, -n);
    } else {
      DigitsOfNonNegative(m);
      DigitsOfNonNegative(n);
      NatToStringInjective(m, n);
    }
  }

  lemma SignsAgree(m: int, n: int)
    requires IntToString(m) == IntToString(n)
    ensures m < 0 <==> n < 0
  {
    SignOfRendering(m);
    SignOfRendering(n);
  }

  lemma DigitsOfNonNegative(n: int)
    requires n >= 0
    ensures IntToString(n) == NatToString(n)
  {
  }

  /** A negative number renders as a minus sign before the digits of its
      magnitude. */
  lemma DigitsOfNegative(n: int)
    requires n < 0
    ensures IntToString(n)[1..] == NatToString(-n)
  {
    assert IntToString(n) == "-" + NatToString(-n);
  }

  /** A rendering starts with a minus sign exactly for negative numbers. */
  lemma SignOfRendering(n: int)
    ensures IntToString(n)[0] == '-' <==> n < 0
  {
    if n >= 0 {
      assert IsDigit(NatToString(n)[0]);
    }
  }

  /** `s.startswith(p)`. */
  predicate StartsWith(s: string, p: string)
  {
    |p| <= |s| && s[..|p|] == p
  }

  /** Equal strings that share a prefix agree on what follows it. */
  lemma CancelPrefix(p: string, a: string, b: string)
    requires p + a == p + b
    ensures a == b
  {
    assert a == (p + a)[|p|..];
    assert b == (p + b)[|p|..];
  }

  /** Only digits and a minus sign occur in a rendering. */
  lemma RenderingAlphabet(n: int, c: char)
    requires !IsDigit(c) && c != '-'
    ensures c !in IntToString(n)
  {
    if n < 0 {
      assert IntToString(n) == "-" + NatToString(-n);
    }
  }

  /** The text before the last `c` and the text after it. */
  function SplitLast(t: string, c: char): (string, string)
  {
    if t == [] then ([], [])
    else if t[|t| - 1] == c then (t[..|t| - 1], [])
    else
      var (h, l) := SplitLast(t[..|t| - 1], c);
      (h, l + [t[|t| - 1]])
  }

  /** Splitting at the last separator undoes joining with one, when the
      second part has no separator. */
  lemma {:induction false} SplitLastOf(h: string, c: char, l: string)
    requires c !in l
    ensures SplitLast(h + [c] + l, c) == (h, l)
  {
    var t := h + [c] + l;
    if l == [] {
      assert t[..|t| - 1] == h;
    } else {
      var init := l[..|l| - 1];
      assert t[..|t| - 1] == h + [c] + init;
      assert t[|t| - 1] == l[|l| - 1];
      SplitLastOf(h, c, init);
      assert l == init + [l[|l| - 1]];
    }
  }
}
