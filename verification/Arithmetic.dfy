/** Powers of two, and the remainders of multiples. */
module Arithmetic {
  predicate PowerOfTwo(n: nat) { n == 1 || (n > 1 && n % 2 == 0 && PowerOfTwo(n / 2)) }

  lemma ModUnique(x: int, q: int, r: int, m: int)
    requires m > 0 && x == q * m + r && 0 <= r < m
    ensures x % m == r && x / m == q
  {
    var d := q - x / m;
    assert d * m == x % m - r;
    assert d > 0 ==> d * m >= m;
    assert d < 0 ==> d * m <= -m;
  }

  lemma MultipleMod(q: int, m: int)
    requires m > 0
    ensures q * m % m == 0
  {
    ModUnique(q * m, q, 0, m);
  }

  /** Sums and differences of multiples are multiples. */
  lemma MultiplesAdd(a: int, b: int, m: int)
    requires m > 0 && a % m == 0 && b % m == 0
    ensures (a + b) % m == 0 && (a - b) % m == 0
  {
    ModUnique(a + b, a / m + b / m, 0, m);
    ModUnique(a - b, a / m - b / m, 0, m);
  }

  /** A multiple of a multiple. */
  lemma MultipleOfMultiple(a: int, n: int, m: int)
    requires m > 0 && n > 0 && n % m == 0 && a % n == 0
    ensures a % m == 0
  {
    var q, c := a / n, n / m;
    assert a == q * (c * m) == q * c * m;
    MultipleMod(q * c, m);
  }

  /** The least multiple that is not negative is zero. */
  lemma SmallMultiple(d: int, m: nat)
    requires m > 0 && -(m as int) < d < m && d % m == 0
    ensures d == 0
  {
    if d < 0 {
      ModUnique(d, -1, d + m, m);
    } else {
      ModUnique(d, 0, d, m);
    }
  }

  lemma AddMod(a: nat, b: nat, m: nat)
    requires m > 0
    ensures (a + b) % m == (a % m + b) % m
  {
    var q := a / m;
    assert a == q * m + a % m;
    ModUnique(a + b, q + (a % m + b) / m, (a % m + b) % m, m);
  }
}
