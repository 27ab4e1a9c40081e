/** Decimal digit strings, powers of ten, and the rational m * 10^k they scale to. */
module Decimals {

  type Digit = c: char | '0' <= c <= '9' witness '0'
  type Digits = seq<Digit>

  function DigitValue(d: Digit): nat {
    d as int - '0' as int
  }

  function DigitChar(v: nat): (d: Digit)
    requires v < 10
    ensures DigitValue(d) == v
  {
    ('0' as int + v) as char
  }

  function Pow10(n: nat): (p: nat)
    ensures 1 <= p
  {
    if n == 0 then 1 else 10 * Pow10(n - 1)
  }

  /** The natural number a digit string writes; the empty string writes zero. */
  function Value(ds: Digits): nat {
    if |ds| == 0 then 0 else 10 * Value(ds[..|ds| - 1]) + DigitValue(ds[|ds| - 1])
  }

  function Zeros(n: nat): (ds: Digits)
    ensures |ds| == n && forall i :: 0 <= i < n ==> ds[i] == '0'
  {
    seq(n, i => '0')
  }

  predicate AllZero(ds: Digits) {
    forall i :: 0 <= i < |ds| ==> ds[i] == '0'
  }

  function TrimLeft(ds: Digits): (r: Digits)
    ensures |r| <= |ds|
    ensures |r| > 0 ==> r[0] != '0'
  {
    if |ds| > 0 && ds[0] == '0' then TrimLeft(ds[1..]) else ds
  }

  function TrailingZeros(ds: Digits): (n: nat)
    ensures n <= |ds|
  {
    if |ds| > 0 && ds[|ds| - 1] == '0' then 1 + TrailingZeros(ds[..|ds| - 1]) else 0
  }

  lemma {:induction false} LastKeptDigit(ds: Digits)
    requires TrailingZeros(ds) < |ds|
    ensures ds[|ds| - TrailingZeros(ds) - 1] != '0'
  {
    if ds[|ds| - 1] == '0' {
      LastKeptDigit(ds[..|ds| - 1]);
    }
  }

  lemma {:induction false} TrimLeftDropsZeros(ds: Digits)
    ensures ds == Zeros(|ds| - |TrimLeft(ds)|) + TrimLeft(ds)
  {
    if |ds| > 0 && ds[0] == '0' {
      TrimLeftDropsZeros(ds[1..]);
    }
  }

  lemma {:induction false} PowSum(a: nat, b: nat)
    ensures Pow10(a + b) == Pow10(a) * Pow10(b)
  {
    if a == 0 {
    } else {
      PowSum(a - 1, b);
    }
  }

  lemma PowMonotone(a: nat, b: nat)
    requires a <= b
    ensures Pow10(a) <= Pow10(b)
  {
    PowSum(a, b - a);
    assert Pow10(a) * 1 <= Pow10(a) * Pow10(b - a);
  }

  lemma {:induction false} ValueConcat(a: Digits, b: Digits)
    ensures Value(a + b) == Value(a) * Pow10(|b|) + Value(b)
  {
    if |b| == 0 {
      assert a + b == a;
    } else {
      var init := b[..|b| - 1];
      ValueConcat(a, init);
      assert (a + b)[..|a + b| - 1] == a + init;
      assert Value(a) * Pow10(|b|) == 10 * (Value(a) * Pow10(|init|));
    }
  }

  lemma {:induction false} ValueOfZeros(ds: Digits)
    requires AllZero(ds)
    ensures Value(ds) == 0
  {
    if |ds| > 0 {
      ValueOfZeros(ds[..|ds| - 1]);
    }
  }

  lemma {:induction false} ValueBelow(ds: Digits)
    ensures Value(ds) < Pow10(|ds|)
  {
    if |ds| > 0 {
      ValueBelow(ds[..|ds| - 1]);
    }
  }

  lemma ValueAtLeast(ds: Digits)
    requires |ds| > 0 && ds[0] != '0'
    ensures Pow10(|ds| - 1) <= Value(ds)
  {
    ValueConcat(ds[..1], ds[1..]);
    assert ds == ds[..1] + ds[1..];
    OneDigit(ds[0]);
    assert ds[..1] == [ds[0]];
    AtLeastOnce(DigitValue(ds[0]), Pow10(|ds| - 1));
  }

  lemma OneDigit(d: Digit)
    ensures Value([d]) == DigitValue(d)
    ensures d != '0' ==> DigitValue(d) >= 1
  {
    assert [d][..0] == [];
  }

  lemma AtLeastOnce(a: nat, p: nat)
    requires a >= 1
    ensures p <= a * p
  {
  }

  lemma ValuePadded(ds: Digits, n: nat)
    ensures Value(ds + Zeros(n)) == Value(ds) * Pow10(n)
  {
    ValueConcat(ds, Zeros(n));
    ValueOfZeros(Zeros(n));
  }

  lemma ValueTrimmed(ds: Digits)
    ensures Value(TrimLeft(ds)) == Value(ds)
  {
    var r := TrimLeft(ds);
    TrimLeftDropsZeros(ds);
    ValueConcat(Zeros(|ds| - |r|), r);
    ValueOfZeros(Zeros(|ds| - |r|));
  }

  lemma {:induction false} SameLengthSameValue(a: Digits, b: Digits)
    requires |a| == |b| && Value(a) == Value(b)
    ensures a == b
  {
    if |a| > 0 {
      var n := |a| - 1;
      assert DigitValue(a[n]) == Value(a) % 10 == Value(b) % 10 == DigitValue(b[n]);
      SameLengthSameValue(a[..n], b[..n]);
      assert a == a[..n] + [a[n]] && b == b[..n] + [b[n]];
    }
  }

  lemma ShorterFromValue(a: Digits, b: Digits)
    requires |a| > 0 && a[0] != '0'
    requires Value(a) <= Value(b)
    ensures |a| <= |b|
  {
    if |a| > |b| {
      PowMonotone(|b|, |a| - 1);
      ValueBelow(b);
      ValueAtLeast(a);
    }
  }

  /** Without leading zeros the digit string of a number is unique. */
  lemma CanonicalDigitsUnique(a: Digits, b: Digits)
    requires |a| > 0 && a[0] != '0'
    requires |b| > 0 && b[0] != '0'
    requires Value(a) == Value(b)
    ensures a == b
  {
    ShorterFromValue(a, b);
    ShorterFromValue(b, a);
    SameLengthSameValue(a, b);
  }

  /** A power of ten divides the number only when the string ends in that many zeros. */
  lemma {:induction false} DivisibleByPower(ds: Digits, k: nat, q: nat)
    requires |ds| > 0 && ds[0] != '0'
    requires Value(ds) == q * Pow10(k)
    ensures k <= TrailingZeros(ds)
  {
    if k > 0 {
      var init := ds[..|ds| - 1];
      TenTimes(q, Pow10(k - 1));
      LastDigit(Value(init), DigitValue(ds[|ds| - 1]), q * Pow10(k - 1));
      if |init| == 0 {
        ZeroDigit(ds[0]);
      } else {
        DivisibleByPower(init, k - 1, q);
      }
    }
  }

  lemma ZeroDigit(d: Digit)
    ensures DigitValue(d) == 0 <==> d == '0'
  {
  }

  lemma TenTimes(q: int, p: int)
    ensures q * (10 * p) == 10 * (q * p)
  {
  }

  lemma LastDigit(a: nat, d: nat, b: int)
    requires d < 10 && 10 * a + d == 10 * b
    ensures d == 0 && a == b
  {
  }

  lemma {:induction false} TrailingZerosMaximal(ds: Digits, k: nat)
    ensures k <= TrailingZeros(ds) <==> k <= |ds| && AllZero(ds[|ds| - k..])
    decreases k
  {
    if 0 < k <= |ds| {
      var init := ds[..|ds| - 1];
      TrailingZerosMaximal(init, k - 1);
      assert ds[|ds| - k..] == init[|init| - (k - 1)..] + [ds[|ds| - 1]];
    }
  }

  lemma {:induction false} TrailingZerosProper(ds: Digits)
    requires |ds| > 0 && ds[0] != '0'
    ensures TrailingZeros(ds) < |ds|
  {
    if |ds| > 1 {
      TrailingZerosProper(ds[..|ds| - 1]);
    }
  }

  lemma SplitTrailingZeros(ds: Digits, k: nat)
    requires k <= TrailingZeros(ds)
    ensures Value(ds) == Value(ds[..|ds| - k]) * Pow10(k)
  {
    var head := ds[..|ds| - k];
    TrailingZerosMaximal(ds, k);
    assert ds == head + Zeros(k) by { assert ds[|ds| - k..] == Zeros(k); }
    ValuePadded(head, k);
  }

  // ---- the rational m * 10^k -------------------------------------------------------

  function Scaled(m: int, k: int): real
    decreases if k < 0 then -k else k
  {
    if k == 0 then m as real
    else if k > 0 then 10.0 * Scaled(m, k - 1)
    else Scaled(m, k + 1) / 10.0
  }

  lemma {:induction false} ScaledOrder(a: int, b: int, k: int)
    ensures Scaled(a, k) == Scaled(b, k) <==> a == b
    ensures Scaled(a, k) < Scaled(b, k) <==> a < b
    decreases if k < 0 then -k else k
  {
    if k > 0 {
      ScaledOrder(a, b, k - 1);
    } else if k < 0 {
      ScaledOrder(a, b, k + 1);
    }
  }

  lemma {:induction false} ScaledStep(m: int, k: int)
    ensures Scaled(10 * m, k) == Scaled(m, k + 1)
    decreases if k < 0 then -k else k
  {
    if k > 0 {
      ScaledStep(m, k - 1);
    } else if k < 0 {
      ScaledStep(m, k + 1);
    }
  }

  lemma {:induction false} ScaledShift(m: int, k: int, gap: nat)
    ensures Scaled(m * Pow10(gap), k) == Scaled(m, k + gap)
    decreases gap
  {
    if gap > 0 {
      TenTimes(m, Pow10(gap - 1));
      ScaledStep(m * Pow10(gap - 1), k);
      ScaledShift(m, k + 1, gap - 1);
    }
  }

  /** Two scaled numbers compare as their mantissas do once brought to the smaller exponent. */
  lemma ScaledCompare(m: int, k: int, n: int, j: int)
    requires k <= j
    ensures Scaled(m, k) == Scaled(n, j) <==> m == n * Pow10(j - k)
    ensures Scaled(m, k) < Scaled(n, j) <==> m < n * Pow10(j - k)
  {
    ScaledShift(n, k, j - k);
    ScaledOrder(m, n * Pow10(j - k), k);
  }

  // ---- writing integers -------------------------------------------------------------

  function NaturalDigits(n: nat): (ds: Digits)
    ensures |ds| > 0 && Value(ds) == n
    ensures n > 0 ==> ds[0] != '0'
  {
    if n < 10 then
      assert [DigitChar(n)][..0] == [];
      [DigitChar(n)]
    else
      var init := NaturalDigits(n / 10);
      assert (init + [DigitChar(n % 10)])[..|init|] == init;
      init + [DigitChar(n % 10)]
  }

  function IntegerText(n: int): string {
    if n < 0 then "-" + NaturalDigits(-n) else NaturalDigits(n)
  }

  lemma IntegerTextInjective(a: int, b: int)
    requires IntegerText(a) == IntegerText(b)
    ensures a == b
  {
    var ta, tb := IntegerText(a), IntegerText(b);
    assert (ta[0] == '-') == (a < 0) && (tb[0] == '-') == (b < 0);
    if a < 0 {
      assert ta[1..] == NaturalDigits(-a) && tb[1..] == NaturalDigits(-b);
    }
  }
}
