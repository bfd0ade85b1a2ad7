/** Decimal rendering of integers, as JavaScript's `n + ''` produces it, and its inverse. */
module Text {
  import opened Types

  predicate IsDigit(c: char) { '0' <= c <= '9' }

  predicate AllDigits(s: string) { forall i :: 0 <= i < |s| ==> IsDigit(s[i]) }

  function DigitChar(d: int): (c: char)
    requires 0 <= d < 10
    ensures IsDigit(c) && c as int - '0' as int == d
  {
    ('0' as int + d) as char
  }

  /** The number a string of decimal digits denotes (the inverse of NatToString). */
  function DecimalValue(s: string): nat
    requires AllDigits(s)
  {
    if s == [] then 0 else DecimalValue(s[..|s| - 1]) * 10 + (s[|s| - 1] as int - '0' as int)
  }

  function Pow10(k: nat): (p: nat)
    ensures p >= 1
  {
    if k == 0 then 1 else 10 * Pow10(k - 1)
  }

  /** Decimal digits of `n`, most significant first, without leading zeros. */
  function NatToString(n: nat): (s: string)
    ensures |s| >= 1 && AllDigits(s)
    ensures |s| > 1 ==> s[0] != '0'
  {
    if n < 10 then [DigitChar(n)] else NatToString(n / 10) + [DigitChar(n % 10)]
  }

  /** JavaScript's rendering of an integer: a minus sign, then the digits of its magnitude. */
  function IntToString(i: int): string
  {
    if i < 0 then "-" + NatToString(-i) else NatToString(i)
  }

  function Zeros(k: nat): (s: string)
    ensures |s| == k && AllDigits(s)
    ensures forall i :: 0 <= i < k ==> s[i] == '0'
  {
    seq(k, _ => '0')
  }

  lemma {:induction false} ValueOfAppend(s: string, c: char)
    requires AllDigits(s) && IsDigit(c)
    ensures AllDigits(s + [c])
    ensures DecimalValue(s + [c]) == DecimalValue(s) * 10 + (c as int - '0' as int)
  {
    assert (s + [c])[..|s + [c]| - 1] == s;
  }

  /** Reading back the digits NatToString writes gives the number again. */
  lemma {:induction false} ValueOfNatToString(n: nat)
    ensures DecimalValue(NatToString(n)) == n
  {
    if n < 10 {
      assert NatToString(n) == [] + [DigitChar(n)];
      ValueOfAppend([], DigitChar(n));
    } else {
      ValueOfNatToString(n / 10);
      ValueOfAppend(NatToString(n / 10), DigitChar(n % 10));
    }
  }

  /** NatToString is injective: different numbers have different renderings. */
  lemma NatToStringInjective(a: nat, b: nat)
    requires NatToString(a) == NatToString(b)
    ensures a == b
  {
    ValueOfNatToString(a);
    ValueOfNatToString(b);
  }

  /** Leading zeros do not change the value of a digit string. */
  lemma {:induction false} ValueOfZerosPrefix(k: nat, s: string)
    requires AllDigits(s)
    ensures AllDigits(Zeros(k) + s)
    ensures DecimalValue(Zeros(k) + s) == DecimalValue(s)
    decreases |s|
  {
    if s == [] {
      assert Zeros(k) + s == Zeros(k);
      ValueOfZeros(k);
    } else {
      var init, last := s[..|s| - 1], s[|s| - 1];
      assert s == init + [last];
      assert Zeros(k) + s == (Zeros(k) + init) + [last];
      ValueOfZerosPrefix(k, init);
      ValueOfAppend(Zeros(k) + init, last);
      ValueOfAppend(init, last);
    }
  }

  lemma {:induction false} ValueOfZeros(k: nat)
    ensures DecimalValue(Zeros(k)) == 0
  {
    if k > 0 {
      assert Zeros(k) == Zeros(k - 1) + ['0'];
      ValueOfZeros(k - 1);
      ValueOfAppend(Zeros(k - 1), '0');
    }
  }

  /** A number below 10^k has at most k digits; one at or above 10^(k-1) has at least k. */
  lemma {:induction false} NatToStringLength(n: nat, k: nat)
    requires 1 <= k
    requires n < Pow10(k)
    ensures |NatToString(n)| <= k
    ensures n >= Pow10(k - 1) ==> |NatToString(n)| == k
  {
    if n >= 10 {
      assert k > 1;
      NatToStringLength(n / 10, k - 1);
      if n >= Pow10(k - 1) {
        assert Pow10(k - 1) == 10 * Pow10(k - 2);
      }
    } else if k > 1 {
      assert Pow10(k - 1) == 10 * Pow10(k - 2);
    }
  }
}
