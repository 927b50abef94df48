/** Decimal rendering of non-negative integers, as Go's fmt package does it for
    the verbs %d and %0Nd (zero flag, minimum width N).

    DigitsValue reads a digit string back as a number; it is the independent
    reference against which the renderings are stated. */
module Format {

  predicate IsDigit(c: char) {
    '0' <= c <= '9'
  }

  predicate IsDigits(s: string) {
    forall k :: 0 <= k < |s| ==> IsDigit(s[k])
  }

  /** The value of a digit, '0' being 0. */
  function DigitValue(c: char): nat
    requires IsDigit(c)
  {
    c as int - '0' as int
  }

  function DigitChar(d: nat): (c: char)
    requires d < 10
    ensures IsDigit(c) && DigitValue(c) == d
  {
    ('0' as int + d) as char
  }

  function Pow10(k: nat): (p: nat)
    ensures p >= 1
  {
    if k == 0 then 1 else 10 * Pow10(k - 1)
  }

  /** The number a string of decimal digits denotes, most significant digit
      first; the empty string denotes 0 and leading zeros add nothing. */
  function DigitsValue(s: string): nat
    requires IsDigits(s)
  {
    if s == [] then 0 else DigitsValue(s[..|s| - 1]) * 10 + DigitValue(s[|s| - 1])
  }

  /** A string of k zeros: the padding of %0Nd. */
  function Zeros(k: nat): (z: string)
    ensures |z| == k && IsDigits(z)
    ensures forall i :: 0 <= i < k ==> z[i] == '0'
  {
    seq(k, _ => '0')
  }

  lemma DigitsValueSnoc(s: string, c: char)
    requires IsDigits(s) && IsDigit(c)
    ensures IsDigits(s + [c])
    ensures DigitsValue(s + [c]) == DigitsValue(s) * 10 + DigitValue(c)
  {
    assert (s + [c])[..|s|] == s;
  }

  /** %d of a non-negative int: the shortest decimal rendering. It is a
      non-empty digit string denoting n that starts with '0' only for 0. */
  function Decimal(n: nat): (s: string)
    ensures IsDigits(s) && |s| >= 1
    ensures DigitsValue(s) == n
    ensures s[0] == '0' <==> n == 0
    ensures |s| == 1 <==> n < 10
  {
    if n < 10 then
      [DigitChar(n)]
    else
      var t := Decimal(n / 10);
      DigitsValueSnoc(t, DigitChar(n % 10));
      t + [DigitChar(n % 10)]
  }

  /** Leading zeros do not change the value of a digit string. */
  lemma {:induction false} LeadingZerosValue(k: nat, s: string)
    requires IsDigits(s)
    ensures IsDigits(Zeros(k) + s)
    ensures DigitsValue(Zeros(k) + s) == DigitsValue(s)
    decreases |s|, k
  {
    var z := Zeros(k);
    if s == [] {
      assert z + s == z;
      if k > 0 {
        assert z[..k - 1] == Zeros(k - 1);
        LeadingZerosValue(k - 1, []);
        assert Zeros(k - 1) + [] == Zeros(k - 1);
      }
    } else {
      var t := s[..|s| - 1];
      assert (z + s)[..|z + s| - 1] == z + t;
      LeadingZerosValue(k, t);
    }
  }

  /** %0Nd of a non-negative int: the decimal rendering, left-padded with '0'
      to at least `width` characters. */
  function ZeroPadded(n: nat, width: nat): string {
    var d := Decimal(n);
    if |d| < width then Zeros(width - |d|) + d else d
  }

  /** ZeroPadded(n, width) denotes n, is at least `width` long, and carries a
      leading '0' beyond the width only when it is the rendering "0". */
  lemma ZeroPaddedDigits(n: nat, width: nat)
    ensures var s := ZeroPadded(n, width);
            && IsDigits(s) && |s| >= width && |s| >= 1
            && DigitsValue(s) == n
            && (|s| > width && |s| > 1 ==> s[0] != '0')
  {
    var d := Decimal(n);
    if |d| < width {
      LeadingZerosValue(width - |d|, d);
    }
  }

  /** A digit string of length L denotes less than 10^L, and at least 10^(L-1)
      when its first digit is not '0'. */
  lemma {:induction false} DigitsValueBounds(s: string)
    requires IsDigits(s)
    ensures DigitsValue(s) < Pow10(|s|)
    ensures |s| >= 1 && s[0] != '0' ==> DigitsValue(s) >= Pow10(|s| - 1)
    decreases |s|
  {
    if s != [] {
      var t := s[..|s| - 1];
      DigitsValueBounds(t);
      assert DigitsValue(s) == DigitsValue(t) * 10 + DigitValue(s[|s| - 1]);
      assert DigitsValue(t) + 1 <= Pow10(|t|);
      assert (DigitsValue(t) + 1) * 10 <= Pow10(|t|) * 10;
      if |s| >= 2 && s[0] != '0' {
        assert t[0] == s[0];
        assert DigitsValue(t) * 10 >= Pow10(|t| - 1) * 10;
      }
    }
  }

  lemma Pow10Monotone(i: nat, j: nat)
    requires i <= j
    ensures Pow10(i) <= Pow10(j)
    decreases j
  {
    if i < j {
      Pow10Monotone(i, j - 1);
    }
  }

  lemma LastDigitUnique(a: nat, d: nat, b: nat, e: nat)
    requires d < 10 && e < 10 && a * 10 + d == b * 10 + e
    ensures a == b && d == e
  {
    assert (a * 10 + d) / 10 == a && (b * 10 + e) / 10 == b;
  }

  /** A digit string whose first digit is not '0' is the shortest rendering
      of its value: no digit string denoting the same number is shorter. */
  lemma LeadingDigitLength(s: string, t: string)
    requires IsDigits(s) && IsDigits(t) && DigitsValue(s) == DigitsValue(t)
    requires |t| >= 1 && t[0] != '0'
    ensures |t| <= |s|
  {
    DigitsValueBounds(s);
    DigitsValueBounds(t);
    if |s| < |t| {
      Pow10Monotone(|s|, |t| - 1);
    }
  }

  /** Two digit strings of the same length that denote the same number are
      the same string. */
  lemma {:induction false} DigitsValueInjective(s: string, t: string)
    requires IsDigits(s) && IsDigits(t) && |s| == |t|
    requires DigitsValue(s) == DigitsValue(t)
    ensures s == t
    decreases |s|
  {
    if s != [] {
      var s', t' := s[..|s| - 1], t[..|t| - 1];
      var a, b := DigitsValue(s'), DigitsValue(t');
      var d, e := DigitValue(s[|s| - 1]), DigitValue(t[|t| - 1]);
      LastDigitUnique(a, d, b, e);
      DigitsValueInjective(s', t');
      assert s == s' + [s[|s| - 1]] && t == t' + [t[|t| - 1]];
    }
  }

  /** %0Nd is determined by what it promises: for a width of at least 1, the
      only digit string that denotes n, is at least `width` long and has no
      leading '0' beyond the width is ZeroPadded(n, width). */
  lemma ZeroPaddedUnique(n: nat, width: nat, s: string)
    requires width >= 1
    requires IsDigits(s) && |s| >= width && DigitsValue(s) == n
    requires |s| > width ==> s[0] != '0'
    ensures s == ZeroPadded(n, width)
  {
    var p := ZeroPadded(n, width);
    ZeroPaddedDigits(n, width);
    if |s| < |p| {
      LeadingDigitLength(s, p);
    } else if |p| < |s| {
      LeadingDigitLength(p, s);
    }
    DigitsValueInjective(s, p);
  }
}
