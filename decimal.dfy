/** Decimal rendering of unsigned integers, as `std::to_string` does for
    `size_t` and `uint64_t` values, together with its inverse. */
module Decimal {
  import opened Common

  predicate IsDigit(b: byte)
  {
    48 <= b <= 57
  }

  /** The ASCII digit of a value below ten. */
  function DigitByte(d: nat): (b: byte)
    requires d < 10
    ensures IsDigit(b) && b as int - 48 == d
  {
    (48 + d) as byte
  }

  /** The number of decimal digits of `n` (at least one: zero is "0"). */
  function NumDigits(n: nat): nat
  {
    if n < 10 then 1 else 1 + NumDigits(n / 10)
  }

  /** `std::to_string(n)` for an unsigned `n`: most significant digit first,
      no sign, no leading zeros. */
  function Digits(n: nat): (s: seq<byte>)
    ensures |s| >= 1
    ensures forall i :: 0 <= i < |s| ==> IsDigit(s[i])
    ensures n > 0 ==> s[0] != 48
  {
    if n < 10 then [DigitByte(n)] else Digits(n / 10) + [DigitByte(n % 10)]
  }

  /** The value a string of decimal digits denotes. */
  function ValueOf(s: seq<byte>): nat
    requires forall i :: 0 <= i < |s| ==> IsDigit(s[i])
  {
    if s == [] then 0
    else
      assert IsDigit(s[|s| - 1]);
      10 * ValueOf(s[..|s| - 1]) + (s[|s| - 1] as int - 48)
  }

  /** Ten to the power `k`, the least number of `k + 1` digits. */
  function Pow10(k: nat): (p: nat)
    ensures p >= 1
    ensures NumDigits(p) == k + 1
  {
    if k == 0 then 1 else 10 * Pow10(k - 1)
  }

  /** Reading the digits back gives the number (decimal rendering is injective). */
  lemma {:induction false} ValueOfDigits(n: nat)
    ensures ValueOf(Digits(n)) == n
  {
    if n >= 10 {
      var s := Digits(n);
      assert s[..|s| - 1] == Digits(n / 10);
      ValueOfDigits(n / 10);
    }
  }

  lemma DigitsInjective(m: nat, n: nat)
    requires Digits(m) == Digits(n)
    ensures m == n
  {
    ValueOfDigits(m);
    ValueOfDigits(n);
  }

  lemma {:induction false} DigitsLength(n: nat)
    ensures |Digits(n)| == NumDigits(n)
  {
    if n >= 10 {
      DigitsLength(n / 10);
    }
  }

  /** A larger number never has fewer digits. */
  lemma {:induction false} NumDigitsMonotone(m: nat, n: nat)
    requires m <= n
    ensures NumDigits(m) <= NumDigits(n)
  {
    if m >= 10 {
      NumDigitsMonotone(m / 10, n / 10);
    }
  }

  /** `n` has at most `k` digits exactly when it is below ten to the `k`. */
  lemma {:induction false} NumDigitsBound(n: nat, k: nat)
    requires k >= 1
    ensures NumDigits(n) <= k <==> n < Pow10(k)
  {
    if n >= 10 && k >= 2 {
      NumDigitsBound(n / 10, k - 1);
    } else if n >= 10 {
      assert Pow10(1) == 10;
      if NumDigits(n / 10) == 0 { assert false; }
    }
  }

  /** The two powers of ten around the 64-bit maximum. */
  lemma Pow10Nineteen()
    ensures Pow10(19) == 10000000000000000000 && Pow10(20) == 100000000000000000000
  {
    assert Pow10(10) == 10000000000;
    assert Pow10(20) == 10000000000 * Pow10(10);
  }

  /** The 64-bit maximum, the worst-case count, has twenty digits. */
  lemma MaxCountDigits()
    ensures NumDigits(UINT64_MAX) == 20
    ensures forall n: nat :: n <= UINT64_MAX ==> NumDigits(n) <= 20
  {
    Pow10Nineteen();
    NumDigitsBound(UINT64_MAX, 20);
    NumDigitsBound(UINT64_MAX, 19);
    forall n: nat | n <= UINT64_MAX
      ensures NumDigits(n) <= 20
    {
      NumDigitsMonotone(n, UINT64_MAX);
    }
  }
}
