/**
 * Decimal notation as `BigInt.prototype.toString()` and `String(n)` write
 * it for integers: most significant digit first, no leading zeros.
 */
module Decimal {
  import opened Strings

  /** The smaller of two naturals. */
  function Min(a: nat, b: nat): (m: nat)
    ensures m <= a && m <= b && (m == a || m == b)
  {
    if a <= b then a else b
  }

  function Pow10(k: nat): (r: nat)
    ensures r >= 1
  {
    if k == 0 then 1 else 10 * Pow10(k - 1)
  }

  predicate AllDigits(s: string) {
    forall i :: 0 <= i < |s| ==> IsAsciiDigit(s[i])
  }

  function DigitValue(c: char): (d: nat)
    requires IsAsciiDigit(c)
    ensures d < 10
  {
    c as int - '0' as int
  }

  function DigitChar(d: nat): (c: char)
    requires d < 10
    ensures IsAsciiDigit(c) && DigitValue(c) == d
  {
    ('0' as int + d) as char
  }

  /** The number a digit string denotes; the empty string denotes zero. */
  function Value(s: string): nat
    requires AllDigits(s)
  {
    if s == [] then 0 else Value(s[..|s| - 1]) * 10 + DigitValue(s[|s| - 1])
  }

  lemma ValueSnoc(h: string, c: char)
    requires AllDigits(h) && IsAsciiDigit(c)
    ensures AllDigits(h + [c])
    ensures Value(h + [c]) == Value(h) * 10 + DigitValue(c)
  {
    assert (h + [c])[..|h|] == h;
  }

  /** `n.toString()` for a non-negative integer `n`. */
  function ToString(n: nat): (r: string)
    ensures |r| >= 1 && AllDigits(r)
    ensures Value(r) == n
    ensures r[0] == '0' ==> r == "0"
  {
    if n < 10 then
      ValueSnoc([], DigitChar(n));
      [] + [DigitChar(n)]
    else
      var h := ToString(n / 10);
      ValueSnoc(h, DigitChar(n % 10));
      h + [DigitChar(n % 10)]
  }

  /** Distinct numbers have distinct renderings. */
  lemma ToStringInjective(m: nat, n: nat)
    requires ToString(m) == ToString(n)
    ensures m == n
  {
  }

  /** A number below `10^k` needs at most `k` digits. */
  lemma {:induction false} ToStringLength(n: nat, k: nat)
    requires k >= 1 && n < Pow10(k)
    ensures |ToString(n)| <= k
  {
    if n >= 10 {
      ToStringLength(n / 10, k - 1);
    }
  }

  /** Euclidean division by a positive divisor: quotient, remainder and their bounds. */
  lemma DivBounds(n: nat, p: nat)
    requires p >= 1
    ensures n / p >= 0 && 0 <= n % p < p
    ensures n == (n / p) * p + n % p
  {
  }

  /** A digit string holds no character that is not a digit. */
  lemma DigitsExclude(s: string, c: char)
    requires AllDigits(s) && !IsAsciiDigit(c)
    ensures c !in s
  {
  }

  lemma AllDigitsAppend(s: string, t: string)
    requires AllDigits(s) && AllDigits(t)
    ensures AllDigits(s + t)
  {
  }

  /** Digits `s` followed by digits `t` denote `s` shifted by `|t|` places plus `t`. */
  lemma {:induction false} ValueAppend(s: string, t: string)
    requires AllDigits(s) && AllDigits(t)
    ensures AllDigits(s + t)
    ensures Value(s + t) == Value(s) * Pow10(|t|) + Value(t)
  {
    AllDigitsAppend(s, t);
    if t == [] {
      assert s + t == s;
    } else {
      var t' := t[..|t| - 1];
      var c := t[|t| - 1];
      LastSplit(t);
      ConcatAssoc(s, t', [c]);
      ValueAppend(s, t');
      ValueSnoc(s + t', c);
      ValueSnoc(t', c);
      ValueAppendStep(Value(s), Pow10(|t'|), Value(t'), DigitValue(c));
    }
  }

  lemma ValueAppendStep(a: nat, p: nat, b: nat, d: nat)
    ensures (a * p + b) * 10 + d == a * (10 * p) + (b * 10 + d)
  {
  }

  /** `k` zeros. */
  function Zeros(k: nat): (r: string)
    ensures |r| == k && AllDigits(r)
    ensures forall i :: 0 <= i < k ==> r[i] == '0'
  {
    seq(k, _ => '0')
  }

  lemma {:induction false} ValueZeros(k: nat)
    ensures Value(Zeros(k)) == 0
  {
    if k > 0 {
      assert Zeros(k) == Zeros(k - 1) + ['0'];
      ValueZeros(k - 1);
      ValueSnoc(Zeros(k - 1), '0');
    }
  }

  /** Leading zeros do not change the value. */
  lemma ValueLeadingZeros(s: string, k: nat)
    requires AllDigits(s)
    ensures AllDigits(Zeros(k) + s)
    ensures Value(Zeros(k) + s) == Value(s)
  {
    ValueZeros(k);
    ValueAppend(Zeros(k), s);
  }

  /** Trailing zeros scale the value by a power of ten. */
  lemma ValueTrailingZeros(s: string, k: nat)
    requires AllDigits(s)
    ensures AllDigits(s + Zeros(k))
    ensures Value(s + Zeros(k)) == Value(s) * Pow10(k)
  {
    ValueZeros(k);
    ValueAppend(s, Zeros(k));
  }

  /** A digit string of length `k` denotes less than `10^k`. */
  lemma {:induction false} ValueBound(s: string)
    requires AllDigits(s)
    ensures Value(s) < Pow10(|s|)
  {
    if s != [] {
      ValueBound(s[..|s| - 1]);
    }
  }

  /**
   * `String(n)` for an integer-valued number: a minus sign exactly for a
   * negative number, then the canonical digits of its magnitude.
   */
  function IntToString(n: int): (r: string)
    ensures r != [] && (r[0] == '-' <==> n < 0)
    ensures var digits := if n < 0 then r[1..] else r;
            digits != [] && AllDigits(digits) && Value(digits) == (if n < 0 then -n else n)
            && (digits[0] == '0' ==> digits == "0")
  {
    if n < 0 then "-" + ToString(-n) else ToString(n)
  }
}
