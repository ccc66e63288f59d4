/** The laws of the matrix product, of what the multiplication adds to a block. They fix
    the product: it is bilinear, and known on the matrices with a single one. */
module MatMulLaws {
  import opened MatMul

  /** What has been added to the entry (i, j). */
  function Gain(after: seq<int>, before: seq<int>, n: nat, i: nat, j: nat): int
    requires Square(after, n) && Square(before, n) && i < n && j < n
  {
    Entry(after, n, i, j) - Entry(before, n, i, j)
  }

  ghost predicate IsUnit(e: seq<int>, n: nat, t: nat, u: nat) {
    && Square(e, n) && t < n && u < n
    && forall i: nat, j: nat | i < n && j < n :: Entry(e, n, i, j) == if i == t && j == u then 1 else 0
  }

  ghost predicate IsIdentity(e: seq<int>, n: nat) {
    && Square(e, n)
    && forall i: nat, j: nat | i < n && j < n :: Entry(e, n, i, j) == if i == j then 1 else 0
  }

  /** `c` is x * a + y * b. */
  ghost predicate IsCombination(c: seq<int>, x: int, a: seq<int>, y: int, b: seq<int>, n: nat) {
    && Square(a, n) && Square(b, n) && Square(c, n)
    && forall i: nat, j: nat | i < n && j < n :: Entry(c, n, i, j) == x * Entry(a, n, i, j) + y * Entry(b, n, i, j)
  }

  // ---------------------------------------------------------------------
  // Of the inner product
  // ---------------------------------------------------------------------

  /** A factor whose column `j` has a single one, in row `t`. */
  lemma {:induction false} DotPicksRight(a: seq<int>, e: seq<int>, n: nat, i: nat, j: nat, k: nat, len: nat, t: nat)
    requires Square(a, n) && Square(e, n) && i < n && j < n && k + len <= n && t < n
    requires forall s: nat | s < n :: Entry(e, n, s, j) == if s == t then 1 else 0
    ensures Dot(a, e, n, i, j, k, len) == if k <= t < k + len then Entry(a, n, i, t) else 0
  {
    if len > 0 {
      DotPicksRight(a, e, n, i, j, k, len - 1, t);
    }
  }

  lemma {:induction false} DotPicksLeft(e: seq<int>, b: seq<int>, n: nat, i: nat, j: nat, k: nat, len: nat, t: nat)
    requires Square(b, n) && Square(e, n) && i < n && j < n && k + len <= n && t < n
    requires forall s: nat | s < n :: Entry(e, n, i, s) == if s == t then 1 else 0
    ensures Dot(e, b, n, i, j, k, len) == if k <= t < k + len then Entry(b, n, t, j) else 0
  {
    if len > 0 {
      DotPicksLeft(e, b, n, i, j, k, len - 1, t);
    }
  }

  lemma {:induction false} DotOfZeros(a: seq<int>, b: seq<int>, n: nat, i: nat, j: nat, k: nat, len: nat)
    requires Square(a, n) && Square(b, n) && i < n && j < n && k + len <= n
    requires forall s: nat | s < n :: Entry(a, n, i, s) == 0 || Entry(b, n, s, j) == 0
    ensures Dot(a, b, n, i, j, k, len) == 0
  {
    if len > 0 {
      DotOfZeros(a, b, n, i, j, k, len - 1);
    }
  }

  lemma Spread(x: int, a: int, y: int, b: int, c: int)
    ensures (x * a + y * b) * c == x * (a * c) + y * (b * c)
    ensures c * (x * a + y * b) == x * (c * a) + y * (c * b)
  {
  }

  lemma Grouped(x: int, p: int, q: int, y: int, r: int, s: int)
    ensures x * p + y * r + (x * q + y * s) == x * (p + q) + y * (r + s)
  {
  }

  lemma {:induction false} DotLinearRight(a: seq<int>, b: seq<int>, b': seq<int>, c: seq<int>, x: int, y: int, n: nat, i: nat, j: nat, k: nat, len: nat)
    requires Square(a, n) && IsCombination(c, x, b, y, b', n) && i < n && j < n && k + len <= n
    ensures Dot(a, c, n, i, j, k, len) == x * Dot(a, b, n, i, j, k, len) + y * Dot(a, b', n, i, j, k, len)
  {
    if len > 0 {
      var s := k + len - 1;
      DotLinearRight(a, b, b', c, x, y, n, i, j, k, len - 1);
      Spread(x, Entry(b, n, s, j), y, Entry(b', n, s, j), Entry(a, n, i, s));
      Grouped(x, Dot(a, b, n, i, j, k, len - 1), Entry(a, n, i, s) * Entry(b, n, s, j),
              y, Dot(a, b', n, i, j, k, len - 1), Entry(a, n, i, s) * Entry(b', n, s, j));
    }
  }

  lemma {:induction false} DotLinearLeft(a: seq<int>, a': seq<int>, c: seq<int>, b: seq<int>, x: int, y: int, n: nat, i: nat, j: nat, k: nat, len: nat)
    requires Square(b, n) && IsCombination(c, x, a, y, a', n) && i < n && j < n && k + len <= n
    ensures Dot(c, b, n, i, j, k, len) == x * Dot(a, b, n, i, j, k, len) + y * Dot(a', b, n, i, j, k, len)
  {
    if len > 0 {
      var s := k + len - 1;
      DotLinearLeft(a, a', c, b, x, y, n, i, j, k, len - 1);
      Spread(x, Entry(a, n, i, s), y, Entry(a', n, i, s), Entry(b, n, s, j));
      Grouped(x, Dot(a, b, n, i, j, k, len - 1), Entry(a, n, i, s) * Entry(b, n, s, j),
              y, Dot(a', b, n, i, j, k, len - 1), Entry(a', n, i, s) * Entry(b, n, s, j));
    }
  }

  // ---------------------------------------------------------------------
  // Of what is added
  // ---------------------------------------------------------------------

  /** A times the matrix with a single one, in row `t` and column `u`: column `t` of A
      becomes column `u`, as far as the block reaches. */
  lemma AddedUnitRight(after: seq<int>, before: seq<int>, a: seq<int>, e: seq<int>, n: nat, q: Block, t: nat, u: nat, i: nat, j: nat)
    requires Added(after, before, a, e, n, q) && IsUnit(e, n, t, u) && i < n && j < n
    ensures Gain(after, before, n, i, j) == if q.Has(i, j) && j == u && q.k <= t < q.k + q.len then Entry(a, n, i, t) else 0
  {
    AddedAt(after, before, a, e, n, q, i, j);
    if j == u {
      DotPicksRight(a, e, n, i, j, q.k, q.len, t);
    } else {
      DotOfZeros(a, e, n, i, j, q.k, q.len);
    }
  }

  /** The matrix with a single one times B: row `u` of B becomes row `t`. */
  lemma AddedUnitLeft(after: seq<int>, before: seq<int>, e: seq<int>, b: seq<int>, n: nat, q: Block, t: nat, u: nat, i: nat, j: nat)
    requires Added(after, before, e, b, n, q) && IsUnit(e, n, t, u) && i < n && j < n
    ensures Gain(after, before, n, i, j) == if q.Has(i, j) && i == t && q.k <= u < q.k + q.len then Entry(b, n, u, j) else 0
  {
    AddedAt(after, before, e, b, n, q, i, j);
    if i == t {
      DotPicksLeft(e, b, n, i, j, q.k, q.len, u);
    } else {
      DotOfZeros(e, b, n, i, j, q.k, q.len);
    }
  }

  /** The identity on either side adds the other matrix. */
  lemma AddedIdentity(after: seq<int>, before: seq<int>, a: seq<int>, b: seq<int>, n: nat, i: nat, j: nat)
    requires Added(after, before, a, b, n, Block(0, 0, 0, n)) && i < n && j < n
    ensures IsIdentity(b, n) ==> Gain(after, before, n, i, j) == Entry(a, n, i, j)
    ensures IsIdentity(a, n) ==> Gain(after, before, n, i, j) == Entry(b, n, i, j)
  {
    AddedAt(after, before, a, b, n, Block(0, 0, 0, n), i, j);
    if IsIdentity(b, n) {
      DotPicksRight(a, b, n, i, j, 0, n, j);
    }
    if IsIdentity(a, n) {
      DotPicksLeft(a, b, n, i, j, 0, n, i);
    }
  }

  /** The product is linear in the second matrix. */
  lemma AddedLinearRight(r: seq<int>, s: seq<int>, t: seq<int>, before: seq<int>, a: seq<int>, b: seq<int>, b': seq<int>, c: seq<int>,
                         x: int, y: int, n: nat, q: Block, i: nat, j: nat)
    requires Added(r, before, a, b, n, q) && Added(s, before, a, b', n, q) && Added(t, before, a, c, n, q)
    requires IsCombination(c, x, b, y, b', n) && i < n && j < n
    ensures Gain(t, before, n, i, j) == x * Gain(r, before, n, i, j) + y * Gain(s, before, n, i, j)
  {
    AddedAt(r, before, a, b, n, q, i, j);
    AddedAt(s, before, a, b', n, q, i, j);
    AddedAt(t, before, a, c, n, q, i, j);
    if q.Has(i, j) {
      DotLinearRight(a, b, b', c, x, y, n, i, j, q.k, q.len);
    }
  }

  /** And in the first. */
  lemma AddedLinearLeft(r: seq<int>, s: seq<int>, t: seq<int>, before: seq<int>, a: seq<int>, a': seq<int>, c: seq<int>, b: seq<int>,
                        x: int, y: int, n: nat, q: Block, i: nat, j: nat)
    requires Added(r, before, a, b, n, q) && Added(s, before, a', b, n, q) && Added(t, before, c, b, n, q)
    requires IsCombination(c, x, a, y, a', n) && i < n && j < n
    ensures Gain(t, before, n, i, j) == x * Gain(r, before, n, i, j) + y * Gain(s, before, n, i, j)
  {
    AddedAt(r, before, a, b, n, q, i, j);
    AddedAt(s, before, a', b, n, q, i, j);
    AddedAt(t, before, c, b, n, q, i, j);
    if q.Has(i, j) {
      DotLinearLeft(a, a', c, b, x, y, n, i, j, q.k, q.len);
    }
  }
}
