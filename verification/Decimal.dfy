/** Base-ten text, as fmt's %d and %0Nd write it. */
module Decimal {

  function DigitChar(d: nat): char
    requires d < 10
  {
    ('0' as int + d) as char
  }

  predicate IsDigit(c: char) { '0' <= c <= '9' }

  predicate AllDigits(s: string) { forall i | 0 <= i < |s| :: IsDigit(s[i]) }

  /** The number a digit string denotes. */
  function Value(s: string): nat
    requires AllDigits(s)
  {
    if s == [] then 0 else Value(s[..|s| - 1]) * 10 + (s[|s| - 1] as int - '0' as int)
  }

  function Digits(n: nat): string {
    if n < 10 then [DigitChar(n)] else Digits(n / 10) + [DigitChar(n % 10)]
  }

  /** fmt's %d. */
  function Format(n: int): string {
    if n < 0 then "-" + Digits(-n) else Digits(n)
  }

  function Zeros(n: nat): string {
    seq(n, i => '0')
  }

  /** fmt's %0<width>d on a non-negative number. */
  function Padded(n: nat, width: nat): string {
    var d := Digits(n);
    if |d| >= width then d else Zeros(width - |d|) + d
  }

  function Pow10(k: nat): (r: nat)
    ensures r > 0
  {
    if k == 0 then 1 else 10 * Pow10(k - 1)
  }

  lemma {:induction false} DigitsRoundTrip(n: nat)
    ensures AllDigits(Digits(n)) && |Digits(n)| > 0
    ensures Value(Digits(n)) == n
  {
    if n >= 10 {
      DigitsRoundTrip(n / 10);
      assert Digits(n)[..|Digits(n)| - 1] == Digits(n / 10);
    } else {
      assert Digits(n)[..0] == "";
    }
  }

  lemma {:induction false} DigitsLength(n: nat, k: nat)
    requires n < Pow10(k) && k > 0
    ensures |Digits(n)| <= k
  {
    if n >= 10 {
      assert k > 1;
      DigitsLength(n / 10, k - 1);
    }
  }

  lemma {:induction false} LeadingZeros(z: nat, s: string)
    requires AllDigits(s)
    ensures AllDigits(Zeros(z) + s) && Value(Zeros(z) + s) == Value(s)
  {
    var t := Zeros(z) + s;
    if s == [] {
      if z > 0 {
        assert t[..|t| - 1] == Zeros(z - 1) + s;
        LeadingZeros(z - 1, s);
      }
    } else {
      assert t[..|t| - 1] == Zeros(z) + s[..|s| - 1];
      LeadingZeros(z, s[..|s| - 1]);
    }
  }

  /** A number below 10^width is written with exactly width digits and keeps its value. */
  lemma PaddedRoundTrip(n: nat, width: nat)
    requires width > 0 && n < Pow10(width)
    ensures |Padded(n, width)| == width && AllDigits(Padded(n, width))
    ensures Value(Padded(n, width)) == n
  {
    DigitsRoundTrip(n);
    DigitsLength(n, width);
    LeadingZeros(width - |Digits(n)|, Digits(n));
  }

  lemma FormatInjective(m: int, n: int)
    requires Format(m) == Format(n)
    ensures m == n
  {
    var p, q := if m < 0 then -m else m, if n < 0 then -n else n;
    DigitsRoundTrip(p);
    DigitsRoundTrip(q);
    assert IsDigit(Digits(p)[0]) && IsDigit(Digits(q)[0]) && !IsDigit('-');
    assert m < 0 ==> Format(m)[0] == '-' && Format(m)[1..] == Digits(p);
    assert n < 0 ==> Format(n)[0] == '-' && Format(n)[1..] == Digits(q);
  }
}
