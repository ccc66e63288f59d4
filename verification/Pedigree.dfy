/** The pedigree-based random numbers: word arithmetic, and the frames whose dot
    products follow the pedigree. */
module Pedigree {
  import opened Arithmetic
  import opened Counting

  const WORD: nat := 0x1_0000_0000_0000_0000
  const HALF: nat := 0x1_0000_0000
  const DPRNG_PRIME: nat := WORD - 59
  const MAX_DEPTH: nat := 4096

  // ---------------------------------------------------------------------
  // The mixing function is a permutation of the words
  // ---------------------------------------------------------------------

  function SwapHalves(x: nat): (r: nat)
    requires x < WORD
    ensures r < WORD
  {
    x / HALF + x % HALF * HALF
  }

  function Square(x: nat): (r: nat)
    ensures r < WORD
  {
    x * (2 * x + 1) % WORD
  }

  function Rounds(x: nat, n: nat): (r: nat)
    requires x < WORD
    ensures r < WORD
  {
    if n == 0 then x else SwapHalves(Square(Rounds(x, n - 1)))
  }

  method Mix(a: nat) returns (x: nat)
    requires a < WORD
    ensures x == Rounds(a, 4)
  {
    x := a;
    for i := 0 to 4
      invariant x == Rounds(a, i)
    {
      x := x * (2 * x + 1) % WORD;
      x := SwapHalves(x);
    }
  }

  /** The two halves of a word change places. */
  lemma SwappedHalves(x: nat)
    requires x < WORD
    ensures SwapHalves(x) / HALF == x % HALF && SwapHalves(x) % HALF == x / HALF
  {
    assert x / HALF < HALF;
  }

  /** The polynomial, by its first value and its differences. */
  lemma SquareSteps(x: nat)
    ensures Square(0) == 0 && Square(x + 1) == (Square(x) + 4 * x + 3) % WORD
  {
    var y := x * (2 * x + 1);
    assert (x + 1) * (2 * (x + 1) + 1) == y + 4 * x + 3;
    AddMod(y, 4 * x + 3, WORD);
  }

  /** One round: the word with its halves swapped back is x(2x + 1), up to a multiple of
      2^64. */
  lemma RoundIs(a: nat, n: nat)
    requires a < WORD
    ensures Rounds(a, 0) == a
    ensures var x, y := Rounds(a, n), Rounds(a, n + 1);
      y % HALF * HALF + y / HALF < WORD && (x * (2 * x + 1) - (y % HALF * HALF + y / HALF)) % WORD == 0
  {
    var x, y := Rounds(a, n), Rounds(a, n + 1);
    var z := Square(x);
    SwappedHalves(z);
    assert z == z / HALF * HALF + z % HALF == y % HALF * HALF + y / HALF;
    SameModulus(x * (2 * x + 1), z, WORD);
  }

  /** A word that changes in every round. */
  lemma MixedOne()
    ensures Rounds(1, 1) == 3 * HALF && Rounds(1, 2) == 3 && Rounds(1, 3) == 21 * HALF && Rounds(1, 4) == 21
  {
    assert Rounds(1, 0) == 1;
    assert Rounds(1, 1) == 3 * HALF;
    assert Rounds(1, 2) == 3;
    assert Rounds(1, 3) == 21 * HALF;
  }

  function Pow2(n: nat): (r: nat)
    ensures r > 0
  {
    if n == 0 then 1 else 2 * Pow2(n - 1)
  }

  lemma OddProduct(a: int, k: int)
    requires a % 2 == 1 && k % 2 == 1
    ensures a * k % 2 == 1
  {
    var b, l := a / 2, k / 2;
    assert a == 2 * b + 1 && k == 2 * l + 1;
    assert a * k == 2 * (2 * b * l + b + l) + 1;
  }

  lemma EvenFactor(a: int, k: int)
    requires k % 2 == 1 && a * k % 2 == 0
    ensures a % 2 == 0
  {
    if a % 2 == 1 {
      OddProduct(a, k);
    }
  }

  lemma HalfMultiple(a: int, b: int, m: int)
    requires m > 0 && a == 2 * b && a % (2 * m) == 0
    ensures b % m == 0
  {
    var q := a / (2 * m);
    assert b == q * m;
    MultipleMod(q, m);
  }

  lemma DoubleMultiple(a: int, b: int, m: int)
    requires m > 0 && a == 2 * b && b % m == 0
    ensures a % (2 * m) == 0
  {
    var q := b / m;
    assert a == q * (2 * m);
    MultipleMod(q, 2 * m);
  }

  /** An odd factor does not matter to divisibility by a power of two. */
  lemma {:induction false} OddCancels(a: int, k: int, n: nat)
    requires k % 2 == 1 && a * k % Pow2(n) == 0
    ensures a % Pow2(n) == 0
    decreases n
  {
    if n > 0 {
      var m := Pow2(n - 1);
      var q := a * k / Pow2(n);
      assert a * k == 2 * (q * m);
      EvenFactor(a, k);
      var b := a / 2;
      assert a * k == 2 * (b * k);
      HalfMultiple(a * k, b * k, m);
      OddCancels(b, k, n - 1);
      DoubleMultiple(a, b, m);
    }
  }

  lemma SameModulus(x: int, y: int, m: int)
    requires m > 0 && x % m == y % m
    ensures (x - y) % m == 0
  {
    var q := x / m - y / m;
    assert x - y == q * m by {
      assert x == x / m * m + x % m && y == y / m * m + y % m;
    }
    MultipleMod(q, m);
  }

  lemma {:induction false} Pow2Sum(m: nat, n: nat)
    ensures Pow2(m + n) == Pow2(m) * Pow2(n)
  {
    if m > 0 {
      Pow2Sum(m - 1, n);
      assert Pow2(m + n) == 2 * Pow2(m - 1 + n);
    }
  }

  lemma WordIsPower()
    ensures Pow2(64) == WORD
  {
    assert Pow2(4) == 2 * Pow2(3) == 4 * Pow2(2) == 8 * Pow2(1) == 16;
    Pow2Sum(4, 4);
    Pow2Sum(8, 8);
    Pow2Sum(16, 16);
    Pow2Sum(32, 32);
  }

  /** x (2x + 1) modulo 2^64 is injective, because the difference of two values has
      the factor x - y and an odd one. */
  lemma SquareInjective(x: nat, y: nat)
    requires x < WORD && y < WORD && Square(x) == Square(y)
    ensures x == y
  {
    var d, k := x - y, 2 * (x + y) + 1;
    SameModulus(x * (2 * x + 1), y * (2 * y + 1), WORD);
    assert x * (2 * x + 1) - y * (2 * y + 1) == d * k;
    WordIsPower();
    OddCancels(d, k, 64);
    SmallMultiple(d, WORD);
  }

  lemma SwapInvolution(x: nat)
    requires x < WORD
    ensures SwapHalves(SwapHalves(x)) == x
  {
    ModUnique(SwapHalves(x), x % HALF, x / HALF, HALF);
  }

  lemma {:induction false} RoundsInjective(x: nat, y: nat, n: nat)
    requires x < WORD && y < WORD && Rounds(x, n) == Rounds(y, n)
    ensures x == y
  {
    if n > 0 {
      SwapInvolution(Square(Rounds(x, n - 1)));
      SwapInvolution(Square(Rounds(y, n - 1)));
      SquareInjective(Rounds(x, n - 1), Rounds(y, n - 1));
      RoundsInjective(x, y, n - 1);
    }
  }

  /** The mixing function is a bijection on 64-bit words. */
  lemma MixBijective(y: nat)
    requires y < WORD
    ensures exists x: nat :: x < WORD && Rounds(x, 4) == y
    ensures forall x: nat, z: nat | x < WORD && z < WORD && Rounds(x, 4) == Rounds(z, 4) :: x == z
  {
    forall x: nat, z: nat | x < WORD && z < WORD && Rounds(x, 4) == Rounds(z, 4)
      ensures x == z
    {
      RoundsInjective(x, z, 4);
    }
    var f := (x: int) => if 0 <= x < WORD then Rounds(x, 4) else 0;
    InjectionOnto(Below(WORD), f, y);
  }

  // ---------------------------------------------------------------------
  // Arithmetic modulo the prime
  // ---------------------------------------------------------------------

  lemma BelowTwice(y: nat)
    requires y < WORD
    ensures y % DPRNG_PRIME == y - if y >= DPRNG_PRIME then DPRNG_PRIME else 0
  {
  }

  function MixModP(x: nat): (r: nat)
    requires x < WORD
    ensures r == Rounds(x, 4) % DPRNG_PRIME
  {
    BelowTwice(Rounds(x, 4));
    var y := Rounds(x, 4);
    y - if y >= DPRNG_PRIME then DPRNG_PRIME else 0
  }

  /** The addition with its wrap-around at 2^64 is exact modulo the prime. */
  function SumModP(a: nat, b: nat): (z: nat)
    requires a < DPRNG_PRIME && b < DPRNG_PRIME
    ensures z == (a + b) % DPRNG_PRIME
  {
    var z := (a + b) % WORD;
    if z < a || z >= DPRNG_PRIME then (z - DPRNG_PRIME) % WORD else z
  }
}
