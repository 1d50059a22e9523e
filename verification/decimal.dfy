/** Decimal rendering of non-negative integers, as Python's `str(n)` and
    `'%s' % n` produce it, together with the parser that inverts it. */
module Decimal {

  /** The ASCII digit for `d`. */
  function DigitChar(d: nat): (c: char)
    requires d < 10
    ensures '0' <= c <= '9'
  {
    ('0' as int + d) as char
  }

  predicate IsDigit(c: char)
  {
    '0' <= c <= '9'
  }

  predicate AllDigits(s: string)
  {
    forall i :: 0 <= i < |s| ==> IsDigit(s[i])
  }

  /** A rendering without superfluous leading zeros, as `str` produces. */
  predicate Canonical(s: string)
  {
    |s| >= 1 && AllDigits(s) && (|s| > 1 ==> s[0] != '0')
  }

  /** `str(n)` for a non-negative Python int. */
  function FromNat(n: nat): (s: string)
    ensures Canonical(s)
    ensures n < 10 <==> |s| == 1
    decreases n
  {
    if n < 10 then [DigitChar(n)]
    else FromNat(n / 10) + [DigitChar(n % 10)]
  }

  /** Each further digit position multiplies the bound by ten. */
  lemma {:induction false} FromNatLength(n: nat, k: nat, bound: nat)
    requires n < bound
    requires bound == Power10(k) && k >= 1
    ensures |FromNat(n)| <= k
    decreases k
  {
    if n >= 10 {
      assert Power10(1) == 10;
      assert n / 10 < Power10(k - 1);
      FromNatLength(n / 10, k - 1, Power10(k - 1));
    }
  }

  function Power10(k: nat): (p: nat)
    ensures p >= 1
  {
    if k == 0 then 1 else 10 * Power10(k - 1)
  }

  /** Numbers below 10000 render in at most four digits. */
  lemma FromNatShort(n: nat)
    requires n < 10000
    ensures |FromNat(n)| <= 4
  {
    assert Power10(4) == 10000;
    FromNatLength(n, 4, 10000);
  }

  /** The number a string of digits denotes (`int(s)` for digit strings). */
  function Value(s: string): nat
    requires AllDigits(s)
    decreases |s|
  {
    if |s| == 0 then 0
    else 10 * Value(s[..|s| - 1]) + (s[|s| - 1] as int - '0' as int)
  }

  /** Parsing the rendering of `n` gives `n` back. */
  lemma {:induction false} ValueOfFromNat(n: nat)
    ensures Value(FromNat(n)) == n
    decreases n
  {
    if n >= 10 {
      var s := FromNat(n);
      assert s[..|s| - 1] == FromNat(n / 10);
      ValueOfFromNat(n / 10);
    }
  }

  /** Rendering the value of a canonical digit string gives the string back. */
  lemma {:induction false} FromNatOfValue(s: string)
    requires Canonical(s)
    ensures FromNat(Value(s)) == s
    decreases |s|
  {
    if |s| > 1 {
      var init := s[..|s| - 1];
      assert AllDigits(init);
      ValueIsZeroOnlyForZeros(init);
      assert init[0] == s[0];
      assert Value(init) > 0;
      FromNatOfValue(init);
      assert s == init + [s[|s| - 1]];
    }
  }

  /** A digit string with a non-zero first digit has a non-zero value. */
  lemma {:induction false} ValueIsZeroOnlyForZeros(s: string)
    requires AllDigits(s) && |s| >= 1 && s[0] != '0'
    ensures Value(s) > 0
    decreases |s|
  {
    if |s| > 1 {
      var init := s[..|s| - 1];
      assert AllDigits(init) && init[0] == s[0];
      ValueIsZeroOnlyForZeros(init);
    }
  }

  /** Distinct numbers have distinct renderings. */
  lemma FromNatInjective(a: nat, b: nat)
    requires FromNat(a) == FromNat(b)
    ensures a == b
  {
    ValueOfFromNat(a);
    ValueOfFromNat(b);
  }
}
