/** Facts about divisibility, Euclidean quotients and products used by the classifier proofs. */
module Divisibility {

  /** Euclidean remainder is determined by any quotient/remainder decomposition. */
  lemma ModUnique(a: int, m: int, k: int, r: int)
    requires m > 0 && 0 <= r < m && a == m * k + r
    ensures a % m == r && a / m == k
  {
    var t := k - a / m;
    assert a % m - r == m * t;
    if t >= 1 {
      assert false;
    } else if t <= -1 {
      assert false;
    }
  }

  /** A multiple of c leaves no remainder, and its quotient is the other factor. */
  lemma ModUniqueZero(n: int, c: int, d: int)
    requires c > 0 && n == c * d
    ensures n % c == 0 && n / c == d
  {
    ModUnique(n, c, d, 0);
  }

  /** An even number divides only even numbers. */
  lemma EvenDivisor(n: int, d: int)
    requires d > 0 && d % 2 == 0 && n % d == 0
    ensures n % 2 == 0
  {
    var c := n / d;
    var k := d / 2;
    assert n == d * c;
    assert n == 2 * (k * c);
  }

  /** The quotient of n by a divisor d multiplies back to n and is itself a divisor. */
  lemma Cofactor(n: int, d: int)
    requires 2 <= d < n && n % d == 0
    ensures 2 <= n / d < n && n % (n / d) == 0 && d * (n / d) == n
  {
    var c := n / d;
    assert n == d * c;
    CofactorBounds(n, d, c);
    ModUniqueZero(n, c, d);
  }

  lemma CofactorBounds(n: int, d: int, c: int)
    requires 2 <= d < n && n == d * c
    ensures 2 <= c < n
  {
    if c <= 1 {
      assert false;
    }
    assert 2 * c <= d * c;
  }

  lemma MulMono(a: int, b: int)
    requires 0 <= a <= b
    ensures a * a <= b * b
  {
    assert a * a <= a * b;
    assert a * b <= b * b;
  }

  /** A number at least 2 whose square is at most n is below n. */
  lemma SquareBelow(i: int, n: int)
    requires 2 <= i && i * i <= n
    ensures i < n
  {
    assert i * 2 <= i * i;
  }

  /** Floor division by a positive j: e is at most n / j exactly when e * j is at most n. */
  lemma DivLe(n: int, j: int, e: int)
    requires n >= 0 && j > 0
    ensures e <= n / j <==> e * j <= n
  {
    var q := n / j;
    assert q * j <= n < q * j + j;
    if e <= q {
      assert e * j <= q * j;
    } else {
      assert e * j >= (q + 1) * j;
    }
  }

  /** A divisor e with e * j <= n < e * (j + 1) has cofactor exactly j. */
  lemma Band(n: int, j: int, e: int)
    requires j >= 1 && e >= 1 && e * j <= n < e * (j + 1) && n % e == 0
    ensures e * j == n
  {
    var c := n / e;
    assert n == e * c;
    if c < j {
      assert false;
    }
    if c > j {
      assert false;
    }
  }
}
