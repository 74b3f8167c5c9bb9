/**
  Perfection of the classified number: the reference definition "the proper
  divisors sum to n", and the divisor-pair loop of `isPerfect`.
 */
module Perfection {
  import opened Divisibility

  /** The sum of the divisors of n in [lo, hi). */
  function DivisorSum(n: int, lo: int, hi: int): int
    requires lo >= 1
    decreases hi - lo
  {
    if hi <= lo then 0 else DivisorSum(n, lo, hi - 1) + (if n % (hi - 1) == 0 then hi - 1 else 0)
  }

  /** n is perfect: it exceeds 1 and equals the sum of its divisors in [1, n). */
  predicate Perfect(n: int) {
    n > 1 && DivisorSum(n, 1, n) == n
  }

  lemma {:induction false} DivisorSumSplit(n: int, a: int, b: int, c: int)
    requires 1 <= a <= b <= c
    ensures DivisorSum(n, a, c) == DivisorSum(n, a, b) + DivisorSum(n, b, c)
    decreases c - b
  {
    if b < c {
      DivisorSumSplit(n, a, b, c - 1);
    }
  }

  lemma {:induction false} DivisorSumNone(n: int, a: int, b: int)
    requires 1 <= a
    requires forall e :: a <= e < b ==> n % e != 0
    ensures DivisorSum(n, a, b) == 0
    decreases b - a
  {
    if a < b {
      DivisorSumNone(n, a, b - 1);
    }
  }

  /** A range whose only divisor of n is x sums to x. */
  lemma DivisorSumSingle(n: int, a: int, b: int, x: int)
    requires 1 <= a <= x < b && n % x == 0
    requires forall e :: a <= e < b && e != x ==> n % e != 0
    ensures DivisorSum(n, a, b) == x
  {
    DivisorSumSplit(n, a, x, b);
    DivisorSumSplit(n, x, x + 1, b);
    DivisorSumNone(n, a, x);
    DivisorSumNone(n, x + 1, b);
  }

  /**
    The lower end of the complements the loop has added: n / i + 1, or i once
    that is smaller. The divisors of n in [Upper(n, i), n) are exactly the
    complements n / d of the divisors d in [2, i), each counted once.
   */
  function Upper(n: int, i: int): int
    requires i >= 1
  {
    var u := n / i + 1;
    if u >= i then u else i
  }

  /** Before the loop: no divisor of n lies in (n / 2, n). */
  lemma PerfectInit(n: int)
    requires n >= 2
    ensures 2 <= Upper(n, 2) <= n
    ensures DivisorSum(n, Upper(n, 2), n) == 0
  {
    DivLe(n, 2, n / 2);
    forall e | n / 2 + 1 <= e < n
      ensures n % e != 0
    {
      if n % e == 0 {
        Cofactor(n, e);
        assert e * 2 <= e * (n / e) == n;
        DivLe(n, 2, e);
      }
    }
    DivisorSumNone(n, Upper(n, 2), n);
  }

  lemma UpperBounds(n: int, i: int)
    requires n >= 2 && i >= 2 && i * i <= n
    ensures Upper(n, i) == n / i + 1
    ensures i + 1 <= Upper(n, i + 1) <= Upper(n, i) <= n
  {
    DivLe(n, i, i);
    DivAntitone(n, i);
    QuotientBelow(n, i);
  }

  lemma DivAntitone(n: int, i: int)
    requires n >= 0 && i >= 1
    ensures n / (i + 1) <= n / i
  {
    var q := n / (i + 1);
    DivLe(n, i + 1, q);
    assert q * i <= q * (i + 1);
    DivLe(n, i, q);
  }

  lemma QuotientBelow(n: int, i: int)
    requires n >= 2 && i >= 2
    ensures n / i + 1 <= n
  {
    var q := n / i;
    DivLe(n, i, q);
    assert q * 2 <= q * i;
  }

  /** A divisor of n in [Upper(n, i + 1), Upper(n, i)) is the complement of i. */
  lemma BandDivisor(n: int, i: int, e: int)
    requires n >= 2 && i >= 2 && i * i <= n
    requires Upper(n, i + 1) <= e < Upper(n, i) && n % e == 0
    ensures n % i == 0 && e == n / i
  {
    UpperBounds(n, i);
    DivLe(n, i, e);
    DivLe(n, i + 1, e);
    Band(n, i, e);
    ModUniqueZero(n, i, e);
  }

  /** Without i dividing n, no divisor lies between Upper(n, i + 1) and Upper(n, i). */
  lemma BandEmpty(n: int, i: int)
    requires n >= 2 && i >= 2 && i * i <= n && n % i != 0
    ensures DivisorSum(n, Upper(n, i + 1), Upper(n, i)) == 0
  {
    forall e | Upper(n, i + 1) <= e < Upper(n, i)
      ensures n % e != 0
    {
      if n % e == 0 {
        BandDivisor(n, i, e);
      }
    }
    DivisorSumNone(n, Upper(n, i + 1), Upper(n, i));
  }

  /** When i divides n, its complement n / i is the only divisor in the band. */
  lemma BandComplement(n: int, i: int)
    requires n >= 2 && i >= 2 && i * i <= n && n % i == 0 && n / i != i
    ensures DivisorSum(n, Upper(n, i + 1), Upper(n, i)) == n / i
  {
    var x := n / i;
    ComplementInBand(n, i);
    forall e | Upper(n, i + 1) <= e < Upper(n, i) && e != x
      ensures n % e != 0
    {
      if n % e == 0 {
        BandDivisor(n, i, e);
      }
    }
    DivisorSumSingle(n, Upper(n, i + 1), Upper(n, i), x);
  }

  lemma ComplementInBand(n: int, i: int)
    requires n >= 2 && i >= 2 && i * i <= n && n % i == 0 && n / i != i
    ensures Upper(n, i + 1) <= n / i < Upper(n, i) && n % (n / i) == 0
  {
    var x := n / i;
    UpperBounds(n, i);
    DivLe(n, i, i);
    ComplementDivides(n, i);
    ComplementAboveNext(n, i, x);
  }

  lemma ComplementDivides(n: int, i: int)
    requires n >= 2 && i >= 2 && n % i == 0
    ensures n / i >= 1 && n == (n / i) * i && n % (n / i) == 0
  {
    var x := n / i;
    assert n == i * x;
    assert x >= 1;
    ModUniqueZero(n, x, i);
  }

  lemma ComplementAboveNext(n: int, i: int, x: int)
    requires n >= 0 && i >= 1 && x >= 1 && n == x * i
    ensures n / (i + 1) < x
  {
    assert x * (i + 1) == n + x;
    DivLe(n, i + 1, x);
  }

  /** The divisors of n between Upper(n, i + 1) and Upper(n, i): just n / i, when new. */
  lemma PerfectBand(n: int, i: int)
    requires n >= 2 && i >= 2 && i * i <= n
    ensures i + 1 <= Upper(n, i + 1) <= Upper(n, i) <= n
    ensures DivisorSum(n, Upper(n, i + 1), Upper(n, i)) ==
            if n % i == 0 && n / i != i then n / i else 0
  {
    UpperBounds(n, i);
    if n % i != 0 {
      BandEmpty(n, i);
    } else if n / i != i {
      BandComplement(n, i);
    }
  }

  /** One iteration adds i and its complement n / i (once when they coincide). */
  lemma PerfectStep(n: int, i: int)
    requires n >= 2 && i >= 2 && i * i <= n
    ensures i + 1 <= Upper(n, i + 1) <= n
    ensures DivisorSum(n, 2, i + 1) + DivisorSum(n, Upper(n, i + 1), n) ==
            DivisorSum(n, 2, i) + DivisorSum(n, Upper(n, i), n) +
            (if n % i == 0 then i + (if n / i != i then n / i else 0) else 0)
  {
    PerfectBand(n, i);
    DivisorSumSplit(n, Upper(n, i + 1), Upper(n, i), n);
  }

  /**
    After the loop: past the square root Upper(n, i) is i itself, so the small
    and the large divisors together are all the proper divisors.
   */
  lemma PerfectExit(n: int, i: int)
    requires n >= 2 && i >= 2 && i * i > n && i <= n
    ensures Upper(n, i) == i
    ensures 1 + DivisorSum(n, 2, i) + DivisorSum(n, Upper(n, i), n) == DivisorSum(n, 1, n)
  {
    DivLe(n, i, i);
    DivisorSumSplit(n, 1, 2, n);
    DivisorSumSplit(n, 2, i, n);
  }

  /**
    isPerfect: reject n <= 1, then start the sum at 1 and, for each i with
    i * i <= n (the source's `i <= Math.sqrt(n)`) that divides n, add i and,
    when different, its complement n / i.
   */
  method IsPerfect(n: int) returns (b: bool)
    ensures b == Perfect(n)
    ensures n <= 1 ==> !b
  {
    if n <= 1 {
      return false;
    }
    PerfectInit(n);
    var sum := 1;
    var i := 2;
    while i * i <= n
      invariant 2 <= i <= Upper(n, i) <= n
      invariant sum == 1 + DivisorSum(n, 2, i) + DivisorSum(n, Upper(n, i), n)
      decreases n - i
    {
      PerfectStep(n, i);
      if n % i == 0 {
        sum := sum + i;
        var complement := n / i;
        if complement != i {
          sum := sum + complement;
        }
      }
      i := i + 1;
    }
    PerfectExit(n, i);
    b := sum == n;
  }

  lemma PerfectExamples()
    ensures Perfect(6) && Perfect(28) && !Perfect(12)
  {
    assert DivisorSum(6, 1, 6) == 6;
    assert DivisorSum(28, 1, 8) == 14;
    assert DivisorSum(28, 1, 15) == 28;
    assert DivisorSum(28, 1, 22) == 28;
    assert DivisorSum(28, 1, 28) == 28;
    assert DivisorSum(12, 1, 7) == 16;
    assert DivisorSum(12, 1, 12) == 16;
  }
}
