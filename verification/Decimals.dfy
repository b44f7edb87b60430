/** Decimal notation: what the %d, %0nd and %.nf conversions print and what strtod reads back. */
module Decimals {

  predicate IsDigit(c: char) {
    '0' <= c <= '9'
  }

  function DigitChar(d: nat): (c: char)
    requires d < 10
    ensures IsDigit(c) && DigitValue(c) == d
  {
    '0' + d as char
  }

  function DigitValue(c: char): (d: nat)
    ensures d < 10
  {
    if IsDigit(c) then c as int - '0' as int else 0
  }

  predicate AllDigits(s: string) {
    forall i | 0 <= i < |s| :: IsDigit(s[i])
  }

  function Pow10(n: nat): (p: nat)
    ensures p > 0
  {
    if n == 0 then 1 else 10 * Pow10(n - 1)
  }

  /** The conversion %d of a non-negative number. */
  function Digits(n: nat): (s: string)
    ensures |s| > 0 && AllDigits(s)
  {
    if n < 10 then [DigitChar(n)] else Digits(n / 10) + [DigitChar(n % 10)]
  }

  /** The last k digits of n, with leading zeros. */
  function Padded(n: nat, k: nat): (s: string)
    ensures |s| == k && AllDigits(s)
  {
    if k == 0 then [] else Padded(n / 10, k - 1) + [DigitChar(n % 10)]
  }

  /** The value of a string of digits before the decimal point. */
  function NatValue(s: string): nat {
    if |s| == 0 then 0 else 10 * NatValue(s[..|s|-1]) + DigitValue(s[|s|-1])
  }

  /** The value of a string of digits after the decimal point. */
  function FracValue(s: string): real {
    if |s| == 0 then 0.0 else (DigitValue(s[0]) as real + FracValue(s[1..])) / 10.0
  }

  lemma NatValueSnoc(s: string, d: nat)
    requires d < 10
    ensures NatValue(s + [DigitChar(d)]) == 10 * NatValue(s) + d
  {
    assert (s + [DigitChar(d)])[..|s|] == s;
  }

  lemma {:induction false} DigitsValue(n: nat)
    ensures NatValue(Digits(n)) == n
  {
    if n < 10 {
      NatValueSnoc([], n);
      assert [] + [DigitChar(n)] == [DigitChar(n)];
    } else {
      DigitsValue(n / 10);
      NatValueSnoc(Digits(n / 10), n % 10);
    }
  }

  lemma {:induction false} PaddedValue(n: nat, k: nat)
    requires n < Pow10(k)
    ensures NatValue(Padded(n, k)) == n
  {
    if k > 0 {
      PaddedValue(n / 10, k - 1);
      NatValueSnoc(Padded(n / 10, k - 1), n % 10);
    }
  }

  lemma QuotientIs(a: real, b: real, q: real)
    requires b != 0.0 && a == q * b
    ensures a / b == q
  {
  }

  lemma TenthOfShare(a: real, d: real, p: real)
    requires p > 0.0
    ensures (a + d / p) / 10.0 == a / 10.0 + d / (10.0 * p)
  {
    var q := d / p;
    assert q * p == d;
    QuotientIs(d, 10.0 * p, q / 10.0);
  }

  lemma FracValueStep(s: string)
    requires |s| > 0
    ensures FracValue(s) == (DigitValue(s[0]) as real + FracValue(s[1..])) / 10.0
  {
  }

  lemma Pow10Step(n: nat)
    ensures Pow10(n + 1) as real == 10.0 * Pow10(n) as real && Pow10(n) as real > 0.0 && Pow10(0) == 1
  {
  }

  lemma FracValueDigit(d: nat)
    requires d < 10
    ensures FracValue([DigitChar(d)]) == d as real / 10.0 && FracValue([]) == 0.0
  {
  }

  /** One more digit after the point adds its share. */
  lemma {:induction false} FracValueSnoc(s: string, d: nat)
    requires d < 10
    ensures FracValue(s + [DigitChar(d)]) == FracValue(s) + d as real / Pow10(|s| + 1) as real
  {
    hide FracValue, Pow10, DigitChar, DigitValue;
    var t := s + [DigitChar(d)];
    Pow10Step(|s|);
    if |s| == 0 {
      assert t == [DigitChar(d)];
      FracValueDigit(d);
      Pow10Step(0);
    } else {
      FracValueSnoc(s[1..], d);
      assert t[1..] == s[1..] + [DigitChar(d)];
      FracValueStep(s);
      FracValueStep(t);
      TenthOfShare(DigitValue(s[0]) as real + FracValue(s[1..]), d as real, Pow10(|s|) as real);
    }
  }

  lemma PaddedStep(n: nat, k: nat)
    requires k > 0
    ensures Padded(n, k) == Padded(n / 10, k - 1) + [DigitChar(n % 10)] && |Padded(n / 10, k - 1)| == k - 1
    ensures n < Pow10(k) ==> n / 10 < Pow10(k - 1)
    ensures n as real == 10.0 * (n / 10) as real + (n % 10) as real
  {
    hide DigitChar;
  }

  lemma {:induction false} FracPaddedValue(n: nat, k: nat)
    requires n < Pow10(k)
    ensures FracValue(Padded(n, k)) == n as real / Pow10(k) as real
  {
    hide FracValue, Pow10, Padded, DigitChar;
    if k == 0 {
      FracPaddedNone(n);
    } else {
      PaddedStep(n, k);
      FracPaddedValue(n / 10, k - 1);
      FracValueSnoc(Padded(n / 10, k - 1), n % 10);
      Pow10Step(k - 1);
      SplitLastDigit((n / 10) as real, (n % 10) as real, n as real, Pow10(k - 1) as real);
    }
  }

  lemma FracPaddedNone(n: nat)
    requires n < Pow10(0)
    ensures FracValue(Padded(n, 0)) == n as real / Pow10(0) as real
  {
  }

  lemma SplitLastDigit(q: real, r: real, n: real, p: real)
    requires p > 0.0 && n == 10.0 * q + r
    ensures q / p + r / (10.0 * p) == n / (10.0 * p)
  {
    var u, v := q / p, r / (10.0 * p);
    assert u * p == q && v * (10.0 * p) == r;
    QuotientIs(n, 10.0 * p, u + v);
  }

  // ----- Reading

  /** The length of the run of digits that s starts with. */
  function Run(s: string): (n: nat)
    ensures n <= |s|
  {
    if |s| == 0 || !IsDigit(s[0]) then 0 else 1 + Run(s[1..])
  }

  /** The conversion of strtod for plain decimals: the value and the rest of the text; nothing is
      consumed when there is no digit. */
  function Strtod(s: string): (r: (real, string))
    ensures |r.1| <= |s|
  {
    var n := Run(s);
    if n < |s| && s[n] == '.' then
      var m := Run(s[n+1..]);
      if n + m == 0 then (0.0, s)
      else (NatValue(s[..n]) as real + FracValue(s[n+1..][..m]), s[n+1+m..])
    else if n == 0 then (0.0, s)
    else (NatValue(s[..n]) as real, s[n..])
  }

  /** The text after a number does not continue it. */
  predicate Ends(rest: string) {
    |rest| == 0 || (!IsDigit(rest[0]) && rest[0] != '.')
  }

  lemma {:induction false} RunOf(s: string, rest: string)
    requires AllDigits(s) && (|rest| == 0 || !IsDigit(rest[0]))
    ensures Run(s + rest) == |s|
  {
    if |s| > 0 {
      assert (s + rest)[1..] == s[1..] + rest;
      RunOf(s[1..], rest);
    } else {
      assert s + rest == rest;
    }
  }

  lemma StrtodWhole(s: string, rest: string)
    requires |s| > 0 && AllDigits(s) && Ends(rest)
    ensures Strtod(s + rest) == (NatValue(s) as real, rest)
  {
    RunOf(s, rest);
    assert (s + rest)[..|s|] == s && (s + rest)[|s|..] == rest;
  }

  lemma StrtodByRuns(t: string, n: nat, m: nat)
    requires n == Run(t) && 0 < n < |t| && t[n] == '.' && m == Run(t[n+1..])
    ensures Strtod(t) == (NatValue(t[..n]) as real + FracValue(t[n+1..][..m]), t[n+1+m..])
  {
    hide Run, NatValue, FracValue;
  }

  lemma PointSlices(t: string, s: string, f: string, rest: string)
    requires t == s + "." + f + rest
    ensures t == s + ("." + f + rest) && t[|s|] == '.'
    ensures t[..|s|] == s && t[|s|+1..] == f + rest
    ensures (f + rest)[..|f|] == f && t[|s|+1+|f|..] == rest
  {
  }

  lemma StrtodPoint(s: string, f: string, rest: string)
    requires |s| > 0 && AllDigits(s) && AllDigits(f) && Ends(rest)
    ensures Strtod(s + "." + f + rest) == (NatValue(s) as real + FracValue(f), rest)
  {
    hide Strtod, NatValue, FracValue, Run, AllDigits;
    var t := s + "." + f + rest;
    PointSlices(t, s, f, rest);
    RunOf(s, "." + f + rest);
    RunOf(f, rest);
    StrtodByRuns(t, |s|, |f|);
  }

  function Quotient(a: nat, b: nat): nat
    requires b > 0
  {
    a / b
  }

  function Remainder(a: nat, b: nat): (r: nat)
    requires b > 0
    ensures r < b
  {
    a % b
  }

  lemma DivMod(a: nat, b: nat)
    requires b > 0
    ensures a == Quotient(a, b) * b + Remainder(a, b)
  {
  }
}
