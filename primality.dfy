/**
  Primality of the classified number: the reference definition "greater than
  one and no divisor in [2, n)", and the trial-division loop of `isPrime`.
 */
module Primality {
  import opened Divisibility

  /** n is prime: it exceeds 1 and no d in [2, n) divides it. */
  predicate Prime(n: int) {
    n > 1 && forall d :: 2 <= d < n ==> n % d != 0
  }

  /** A composite odd number has an odd divisor of at least 3 whose square is at most n. */
  lemma SmallOddDivisor(n: int, d: int) returns (i: int)
    requires n > 2 && n % 2 == 1 && 2 <= d < n && n % d == 0
    ensures 3 <= i && i % 2 == 1 && i * i <= n && n % i == 0
  {
    Cofactor(n, d);
    var c := n / d;
    if d % 2 == 0 {
      EvenDivisor(n, d);
    }
    if c % 2 == 0 {
      EvenDivisor(n, c);
    }
    if d <= c {
      assert d * d <= d * c;
      i := d;
    } else {
      assert c * c <= c * d;
      i := c;
    }
  }

  /**
    Trial division by odd numbers up to the square root decides primality of
    an odd number greater than 2.
   */
  lemma TrialDivision(n: int)
    requires n > 2 && n % 2 == 1
    ensures Prime(n) <==> forall i :: 3 <= i && i % 2 == 1 && i * i <= n ==> n % i != 0
  {
    if !Prime(n) {
      var d :| 2 <= d < n && n % d == 0;
      var i := SmallOddDivisor(n, d);
    } else {
      forall i | 3 <= i && i % 2 == 1 && i * i <= n
        ensures n % i != 0
      {
        SquareBelow(i, n);
      }
    }
  }

  /** No odd d in [3, i) divides n: what the loop has established so far. */
  predicate NoOddDivisorBelow(n: int, i: int) {
    forall d :: 3 <= d < i && d % 2 == 1 ==> n % d != 0
  }

  lemma NoOddDivisorStep(n: int, i: int)
    requires i % 2 == 1 && NoOddDivisorBelow(n, i) && n % i != 0
    ensures NoOddDivisorBelow(n, i + 2)
  {
  }

  /** A divisor found by the loop shows that n is not prime. */
  lemma FoundDivisor(n: int, i: int)
    requires 2 <= i && i * i <= n && n % i == 0
    ensures !Prime(n)
  {
    SquareBelow(i, n);
  }

  /** When the loop runs past the square root without finding a divisor, n is prime. */
  lemma TrialExit(n: int, i: int)
    requires n > 2 && n % 2 == 1 && 3 <= i && i * i > n
    requires NoOddDivisorBelow(n, i)
    ensures Prime(n)
  {
    forall d | 3 <= d && d % 2 == 1 && d * d <= n
      ensures n % d != 0
    {
      if d >= i {
        MulMono(i, d);
      }
    }
    TrialDivision(n);
  }

  /**
    isPrime: reject n <= 1, accept 2, reject other even numbers, then test the
    odd divisors i with i * i <= n (the source's `i <= Math.sqrt(n)`).
   */
  method IsPrime(n: int) returns (b: bool)
    ensures b == Prime(n)
    ensures n <= 1 ==> !b
    ensures n == 2 ==> b
    ensures n > 2 && n % 2 == 0 ==> !b
  {
    if n <= 1 {
      return false;
    }
    if n == 2 {
      return true;
    }
    if n % 2 == 0 {
      assert 2 <= 2 < n && n % 2 == 0;
      return false;
    }
    var i := 3;
    while i * i <= n
      invariant 3 <= i && i % 2 == 1
      invariant NoOddDivisorBelow(n, i)
      decreases n - i
    {
      if n % i == 0 {
        FoundDivisor(n, i);
        return false;
      }
      SquareBelow(i, n);
      NoOddDivisorStep(n, i);
      i := i + 2;
    }
    TrialExit(n, i);
    return true;
  }

  lemma PrimeExamples()
    ensures Prime(2) && Prime(3) && Prime(7) && Prime(13)
    ensures !Prime(1) && !Prime(0) && !Prime(-7) && !Prime(9) && !Prime(91)
  {
    assert 9 % 3 == 0;
    assert 91 % 7 == 0;
  }
}
