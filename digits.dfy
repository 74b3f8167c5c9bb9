/**
  Digit properties of the classified number: `digitSum` and `isArmstrong`,
  both computed over the decimal text of |n| (toString, split into characters,
  parseInt of each character, then a left fold), with arithmetic reference
  definitions over n / 10 and n % 10.
 */
module DigitProperties {
  import opened Decimal

  function Abs(n: int): nat {
    if n < 0 then -n else n
  }

  /** parseInt(digit, 10) of every character of a string of digits. */
  function DigitValues(s: string): (ds: seq<int>)
    requires AllDigits(s)
    ensures |ds| == |s|
    ensures forall i :: 0 <= i < |ds| ==> 0 <= ds[i] < 10
  {
    seq(|s|, i requires 0 <= i < |s| => DigitValue(s[i]) as int)
  }

  /** reduce((acc, x) => acc + x, 0). */
  function Sum(xs: seq<int>): int {
    if xs == [] then 0 else Sum(xs[..|xs| - 1]) + xs[|xs| - 1]
  }

  /** Math.pow on a non-negative integer exponent. */
  function Pow(b: int, e: nat): int {
    if e == 0 then 1 else b * Pow(b, e - 1)
  }

  /** reduce((acc, x) => acc + Math.pow(x, k), 0). */
  function PowerSum(xs: seq<int>, k: nat): int {
    if xs == [] then 0 else PowerSum(xs[..|xs| - 1], k) + Pow(xs[|xs| - 1], k)
  }

  /** digitSum: the sum of the decimal digits of |n|. */
  function DigitSum(n: int): (r: int)
    ensures 0 <= r <= 9 * |NatToString(Abs(n))|
  {
    var s := NatToString(Abs(n));
    SumOfDigitsBounds(DigitValues(s));
    Sum(DigitValues(s))
  }

  /**
    isArmstrong: the digits of |n|, each raised to the digit count, sum to |n|;
    this agrees with the arithmetic definition over n / 10 and n % 10.
   */
  predicate IsArmstrong(n: int)
    ensures IsArmstrong(n) <==> DecimalPowerSum(Abs(n), DigitCount(Abs(n))) == Abs(n)
  {
    StringLength(Abs(n));
    PowerSumOfString(Abs(n), DigitCount(Abs(n)));
    var s := NatToString(Abs(n));
    PowerSum(DigitValues(s), |s|) == Abs(n)
  }

  lemma {:induction false} SumOfDigitsBounds(xs: seq<int>)
    requires forall i :: 0 <= i < |xs| ==> 0 <= xs[i] < 10
    ensures 0 <= Sum(xs) <= 9 * |xs|
  {
    if xs != [] {
      SumOfDigitsBounds(xs[..|xs| - 1]);
    }
  }

  // Arithmetic reference definitions over n / 10 and n % 10.

  function DecimalDigitSum(m: nat): nat {
    if m < 10 then m else DecimalDigitSum(m / 10) + m % 10
  }

  function DigitCount(m: nat): nat {
    if m < 10 then 1 else DigitCount(m / 10) + 1
  }

  function DecimalPowerSum(m: nat, k: nat): int {
    if m < 10 then Pow(m, k) else DecimalPowerSum(m / 10, k) + Pow(m % 10, k)
  }

  lemma DigitValuesAppend(s: string, c: char)
    requires AllDigits(s) && IsDigit(c)
    ensures AllDigits(s + [c])
    ensures DigitValues(s + [c]) == DigitValues(s) + [DigitValue(c) as int]
  {
  }

  /** The decimal text of m has DigitCount(m) characters. */
  lemma {:induction false} StringLength(m: nat)
    ensures |NatToString(m)| == DigitCount(m)
  {
    if m >= 10 {
      StringLength(m / 10);
    }
  }

  /** Folding the characters of the decimal text is the arithmetic digit sum. */
  lemma {:induction false} SumOfString(m: nat)
    ensures Sum(DigitValues(NatToString(m))) == DecimalDigitSum(m)
  {
    if m >= 10 {
      var t := NatToString(m / 10);
      var c := DigitChar(m % 10);
      DigitValuesAppend(t, c);
      SumOfString(m / 10);
      var xs := DigitValues(t + [c]);
      assert xs[..|xs| - 1] == DigitValues(t);
    }
  }

  lemma {:induction false} PowerSumOfString(m: nat, k: nat)
    ensures PowerSum(DigitValues(NatToString(m)), k) == DecimalPowerSum(m, k)
  {
    if m >= 10 {
      var t := NatToString(m / 10);
      var c := DigitChar(m % 10);
      DigitValuesAppend(t, c);
      PowerSumOfString(m / 10, k);
      var xs := DigitValues(t + [c]);
      assert xs[..|xs| - 1] == DigitValues(t);
    } else {
      assert DigitValues(NatToString(m)) == [m];
    }
  }

  /** digitSum agrees with the arithmetic digit sum of |n|. */
  lemma DigitSumReference(n: int)
    ensures DigitSum(n) == DecimalDigitSum(Abs(n))
  {
    SumOfString(Abs(n));
  }

  lemma {:induction false} DecimalDigitSumBound(m: nat)
    ensures DecimalDigitSum(m) <= m
  {
    if m >= 10 {
      DecimalDigitSumBound(m / 10);
    }
  }

  /** The digit sum never exceeds |n|, and is zero only for zero. */
  lemma DigitSumBounds(n: int)
    ensures 0 <= DigitSum(n) <= Abs(n)
    ensures DigitSum(n) == 0 <==> n == 0
  {
    DigitSumReference(n);
    DecimalDigitSumBound(Abs(n));
    DecimalDigitSumZero(Abs(n));
  }

  lemma {:induction false} DecimalDigitSumZero(m: nat)
    ensures DecimalDigitSum(m) == 0 <==> m == 0
  {
    if m >= 10 {
      DecimalDigitSumZero(m / 10);
    }
  }

  /** Both digit properties ignore the sign. */
  lemma SignIgnored(n: int)
    ensures DigitSum(n) == DigitSum(-n)
    ensures IsArmstrong(n) == IsArmstrong(-n)
  {
    assert Abs(n) == Abs(-n);
  }

  /** Every single-digit value, zero and negatives included, is an Armstrong number. */
  lemma SingleDigitArmstrong(n: int)
    requires -10 < n < 10
    ensures IsArmstrong(n)
  {
    assert Pow(Abs(n), 1) == Abs(n) * Pow(Abs(n), 0);
  }

  lemma ArmstrongExamples()
    ensures IsArmstrong(153) && IsArmstrong(371) && IsArmstrong(9474)
    ensures !IsArmstrong(10)
    ensures IsArmstrong(-153)
  {
    assert DigitCount(153) == 3 && DecimalPowerSum(153, 3) == 1 + 125 + 27;
    assert DigitCount(371) == 3 && DecimalPowerSum(371, 3) == 27 + 343 + 1;
    assert DigitCount(9474) == 4 && DecimalPowerSum(9474, 4) == 6561 + 256 + 2401 + 256;
    assert DigitCount(10) == 2 && DecimalPowerSum(10, 2) == 1;
    assert Abs(-153) == 153;
  }

  lemma DigitSumExamples()
    ensures DigitSum(-123) == 6 && DigitSum(0) == 0 && DigitSum(4) == 4
  {
    DigitSumReference(-123);
    DigitSumReference(0);
    DigitSumReference(4);
  }
}
