/** Divide-and-conquer matrix multiplication on blocks of row-major matrices, as its
    serial elision: the spawned calls run at the spawn. */
module MatMul {
  import opened Arithmetic

  const THRESHOLD: nat := 16

  /** The place of row `i`, column `j` in a row-major matrix of width `n`. */
  function At(i: nat, j: nat, n: nat): (p: nat)
    requires i < n && j < n
    ensures p < n * n
  {
    assert i * n <= (n - 1) * n;
    i * n + j
  }

  /** The places in order: row by row, and in each row column by column. */
  lemma PlacesInOrder(i: nat, j: nat, n: nat)
    requires i < n && j < n
    ensures At(0, 0, n) == 0
    ensures if j + 1 < n then At(i, j + 1, n) == At(i, j, n) + 1
            else if i + 1 < n then At(i + 1, 0, n) == At(i, j, n) + 1
            else At(i, j, n) + 1 == n * n
  {
    assert (i + 1) * n == i * n + n;
  }

  lemma {:induction false} LaterRow(i: nat, j: nat, i': nat, n: nat)
    requires i < i' && j < n
    ensures i * n + j < i' * n
  {
    assert i' * n == (i' - 1) * n + n;
    if i + 1 < i' {
      LaterRow(i, j, i' - 1, n);
    }
  }

  lemma AtInjective(i: nat, j: nat, i': nat, j': nat, n: nat)
    requires i < n && j < n && i' < n && j' < n && At(i, j, n) == At(i', j', n)
    ensures i == i' && j == j'
  {
    if i < i' {
      LaterRow(i, j, i', n);
    } else if i' < i {
      LaterRow(i', j', i, n);
    }
  }

  /** A square matrix of width `n`. */
  ghost predicate Square(s: seq<int>, n: nat) { |s| == n * n }

  function Entry(s: seq<int>, n: nat, i: nat, j: nat): int
    requires i < n && j < n && |s| == n * n
  {
    s[At(i, j, n)]
  }

  /** The sum of A[i, t] * B[t, j] for t from `k` up to `k` + `len`. */
  ghost function Dot(a: seq<int>, b: seq<int>, n: nat, i: nat, j: nat, k: nat, len: nat): int
    requires Square(a, n) && Square(b, n) && i < n && j < n && k + len <= n
  {
    if len == 0 then 0 else Dot(a, b, n, i, j, k, len - 1) + Entry(a, n, i, k + len - 1) * Entry(b, n, k + len - 1, j)
  }

  lemma {:induction false} DotSplit(a: seq<int>, b: seq<int>, n: nat, i: nat, j: nat, k: nat, l: nat, m: nat)
    requires Square(a, n) && Square(b, n) && i < n && j < n && k + l + m <= n
    ensures Dot(a, b, n, i, j, k, l + m) == Dot(a, b, n, i, j, k, l) + Dot(a, b, n, i, j, k + l, m)
  {
    if m > 0 {
      DotSplit(a, b, n, i, j, k, l, m - 1);
      assert Dot(a, b, n, i, j, k, l + m) == Dot(a, b, n, i, j, k, l + m - 1) + Entry(a, n, i, k + l + m - 1) * Entry(b, n, k + l + m - 1, j);
    }
  }

  /** A block: its top left corner and its width, and the range of the inner index. */
  datatype Block = Block(r: nat, c: nat, k: nat, len: nat) {
    predicate Fits(n: nat) { r + len <= n && c + len <= n && k + len <= n }
    predicate Has(i: nat, j: nat) { r <= i < r + len && c <= j < c + len }
  }

  /** What is added to the entry (i, j) by the product of the blocks. */
  ghost function Share(a: seq<int>, b: seq<int>, n: nat, q: Block, i: nat, j: nat): int
    requires Square(a, n) && Square(b, n) && q.Fits(n) && i < n && j < n
  {
    if q.Has(i, j) then Dot(a, b, n, i, j, q.k, q.len) else 0
  }

  /** The block of the product has been added, and nothing else has changed. */
  ghost predicate Added(after: seq<int>, before: seq<int>, a: seq<int>, b: seq<int>, n: nat, q: Block) {
    && Square(after, n) && Square(before, n) && Square(a, n) && Square(b, n) && q.Fits(n)
    && forall i: nat, j: nat | i < n && j < n :: Entry(after, n, i, j) == Entry(before, n, i, j) + Share(a, b, n, q, i, j)
  }

  lemma AddedAt(after: seq<int>, before: seq<int>, a: seq<int>, b: seq<int>, n: nat, q: Block, i: nat, j: nat)
    requires Added(after, before, a, b, n, q) && i < n && j < n
    ensures Entry(after, n, i, j) == Entry(before, n, i, j) + Share(a, b, n, q, i, j)
  {
  }

  /** Every place is that of some row and column. */
  lemma AtOnto(p: nat, n: nat) returns (i: nat, j: nat)
    requires p < n * n
    ensures i < n && j < n && At(i, j, n) == p
  {
    i, j := p / n, p % n;
    assert p == n * i + j;
    assert i >= n ==> n * i >= n * n;
    assert n * i == i * n;
  }

  /** The result is determined: every way to add the block ends in the same matrix. */
  lemma AddedUnique(x: seq<int>, y: seq<int>, before: seq<int>, a: seq<int>, b: seq<int>, n: nat, q: Block)
    requires Added(x, before, a, b, n, q) && Added(y, before, a, b, n, q)
    ensures x == y
  {
    forall p | 0 <= p < n * n
      ensures x[p] == y[p]
    {
      var i, j := AtOnto(p, n);
      AddedAt(x, before, a, b, n, q, i, j);
      AddedAt(y, before, a, b, n, q, i, j);
    }
  }

  // ---------------------------------------------------------------------
  // The quadrants
  // ---------------------------------------------------------------------

  /** The lengths that can be halved down to the threshold. */
  predicate Halves(len: nat) { len < THRESHOLD || (len % 2 == 0 && Halves(len / 2)) }

  lemma {:induction false} PowersHalve(n: nat)
    requires PowerOfTwo(n)
    ensures Halves(n)
  {
    if n > 1 {
      PowersHalve(n / 2);
    }
  }

  /** The block of quadrant (y, x), with the lower or the upper half of the inner
      range. */
  function Quadrant(q: Block, y: nat, x: nat, z: nat): Block {
    var mid := q.len / 2;
    Block(if y == 0 then q.r else q.r + mid, if x == 0 then q.c else q.c + mid, if z == 0 then q.k else q.k + mid, mid)
  }

  /** The calls between two syncs write disjoint places. */
  lemma QuadrantsApart(q: Block, n: nat, y: nat, x: nat, z: nat, y': nat, x': nat, z': nat, i: nat, j: nat, i': nat, j': nat)
    requires q.Fits(n) && y <= 1 && x <= 1 && y' <= 1 && x' <= 1 && (y, x) != (y', x')
    requires i < n && j < n && i' < n && j' < n
    requires Quadrant(q, y, x, z).Has(i, j) && Quadrant(q, y', x', z').Has(i', j')
    ensures At(i, j, n) != At(i', j', n)
  {
    if At(i, j, n) == At(i', j', n) {
      AtInjective(i, j, i', j', n);
    }
  }

  /** Half of the inner range has been added to the whole block. */
  ghost predicate HalfAdded(after: seq<int>, before: seq<int>, a: seq<int>, b: seq<int>, n: nat, q: Block, z: nat) {
    && Square(after, n) && Square(before, n) && Square(a, n) && Square(b, n) && q.Fits(n) && q.len % 2 == 0 && z <= 1
    && forall i: nat, j: nat | i < n && j < n :: Entry(after, n, i, j) == Entry(before, n, i, j) + HalfShare(a, b, n, q, z, i, j)
  }

  ghost function HalfShare(a: seq<int>, b: seq<int>, n: nat, q: Block, z: nat, i: nat, j: nat): int
    requires Square(a, n) && Square(b, n) && q.Fits(n) && i < n && j < n && z <= 1
  {
    var mid := q.len / 2;
    if q.Has(i, j) then Dot(a, b, n, i, j, if z == 0 then q.k else q.k + mid, mid) else 0
  }

  /** Every entry of the block lies in exactly one quadrant. */
  lemma QuadrantsTile(a: seq<int>, b: seq<int>, n: nat, q: Block, z: nat, i: nat, j: nat)
    requires Square(a, n) && Square(b, n) && q.Fits(n) && q.len % 2 == 0 && z <= 1 && i < n && j < n
    ensures HalfShare(a, b, n, q, z, i, j) ==
              Share(a, b, n, Quadrant(q, 0, 0, z), i, j) + Share(a, b, n, Quadrant(q, 0, 1, z), i, j)
              + Share(a, b, n, Quadrant(q, 1, 0, z), i, j) + Share(a, b, n, Quadrant(q, 1, 1, z), i, j)
  {
  }

  /** Four calls add half of the inner range to the whole block. */
  lemma Round(s0: seq<int>, s1: seq<int>, s2: seq<int>, s3: seq<int>, s4: seq<int>, a: seq<int>, b: seq<int>, n: nat, q: Block, z: nat)
    requires q.Fits(n) && q.len % 2 == 0 && z <= 1
    requires Added(s1, s0, a, b, n, Quadrant(q, 0, 0, z)) && Added(s2, s1, a, b, n, Quadrant(q, 0, 1, z))
    requires Added(s3, s2, a, b, n, Quadrant(q, 1, 0, z)) && Added(s4, s3, a, b, n, Quadrant(q, 1, 1, z))
    ensures HalfAdded(s4, s0, a, b, n, q, z)
  {
    forall i: nat, j: nat | i < n && j < n
      ensures Entry(s4, n, i, j) == Entry(s0, n, i, j) + HalfShare(a, b, n, q, z, i, j)
    {
      QuadrantsTile(a, b, n, q, z, i, j);
      AddedAt(s1, s0, a, b, n, Quadrant(q, 0, 0, z), i, j);
      AddedAt(s2, s1, a, b, n, Quadrant(q, 0, 1, z), i, j);
      AddedAt(s3, s2, a, b, n, Quadrant(q, 1, 0, z), i, j);
      AddedAt(s4, s3, a, b, n, Quadrant(q, 1, 1, z), i, j);
    }
  }

  lemma TwoHalves(a: seq<int>, b: seq<int>, n: nat, q: Block, i: nat, j: nat)
    requires Square(a, n) && Square(b, n) && q.Fits(n) && q.len % 2 == 0 && i < n && j < n
    ensures HalfShare(a, b, n, q, 0, i, j) + HalfShare(a, b, n, q, 1, i, j) == Share(a, b, n, q, i, j)
  {
    var mid := q.len / 2;
    assert mid + mid == q.len;
    DotSplit(a, b, n, i, j, q.k, mid, mid);
  }

  /** The two rounds add the whole product. */
  lemma TwoRounds(s: seq<int>, t: seq<int>, u: seq<int>, a: seq<int>, b: seq<int>, n: nat, q: Block)
    requires HalfAdded(t, s, a, b, n, q, 0) && HalfAdded(u, t, a, b, n, q, 1)
    ensures Added(u, s, a, b, n, q)
  {
    forall i: nat, j: nat | i < n && j < n
      ensures Entry(u, n, i, j) == Entry(s, n, i, j) + Share(a, b, n, q, i, j)
    {
      TwoHalves(a, b, n, q, i, j);
      assert Entry(t, n, i, j) == Entry(s, n, i, j) + HalfShare(a, b, n, q, 0, i, j);
    }
  }

  // ---------------------------------------------------------------------
  // The loops
  // ---------------------------------------------------------------------

  /** A write to one place of a matrix. */
  lemma OneEntry(s: seq<int>, n: nat, i: nat, j: nat, v: int, i': nat, j': nat)
    requires Square(s, n) && i < n && j < n && i' < n && j' < n
    ensures Entry(s[At(i, j, n) := v], n, i', j') == if i == i' && j == j' then v else Entry(s, n, i', j')
  {
    if At(i, j, n) == At(i', j', n) {
      AtInjective(i, j, i', j', n);
    }
  }

  /** The innermost loop: one entry of C. */
  method AddEntry(c: array<int>, a: array<int>, b: array<int>, n: nat, i: nat, j: nat, k: nat, len: nat)
    requires c != a && c != b && c.Length == a.Length == b.Length == n * n && i < n && j < n && k + len <= n
    modifies c
    ensures c[..] == old(c[..])[At(i, j, n) := Entry(old(c[..]), n, i, j) + Dot(a[..], b[..], n, i, j, k, len)]
  {
    ghost var s, x, y := c[..], a[..], b[..];
    var p := At(i, j, n);
    for t := 0 to len
      invariant c[..] == s[p := Entry(s, n, i, j) + Dot(x, y, n, i, j, k, t)]
    {
      c[p] := c[p] + a[At(i, k + t, n)] * b[At(k + t, j, n)];
    }
    assert a[..] == x && b[..] == y;
  }

  /** The rows above `i`, and in row `i` the columns before `j`, are done. */
  ghost predicate DoneUpTo(after: seq<int>, before: seq<int>, a: seq<int>, b: seq<int>, n: nat, q: Block, i: nat, j: nat) {
    && Square(after, n) && Square(before, n) && Square(a, n) && Square(b, n) && q.Fits(n)
    && forall i': nat, j': nat | i' < n && j' < n ::
         Entry(after, n, i', j') == Entry(before, n, i', j') +
           if i' < i || (i' == i && j' < j) then Share(a, b, n, q, i', j') else 0
  }

  lemma DoneNext(s: seq<int>, t: seq<int>, before: seq<int>, a: seq<int>, b: seq<int>, n: nat, q: Block, i: nat, j: nat)
    requires DoneUpTo(s, before, a, b, n, q, i, j) && q.Has(i, j) && i < n && j < n
    requires t == s[At(i, j, n) := Entry(s, n, i, j) + Dot(a, b, n, i, j, q.k, q.len)]
    ensures DoneUpTo(t, before, a, b, n, q, i, j + 1)
  {
    forall i': nat, j': nat | i' < n && j' < n
      ensures Entry(t, n, i', j') == Entry(before, n, i', j') +
                if i' < i || (i' == i && j' < j + 1) then Share(a, b, n, q, i', j') else 0
    {
      OneEntry(s, n, i, j, Entry(s, n, i, j) + Dot(a, b, n, i, j, q.k, q.len), i', j');
    }
  }

  /** The middle loop: one row of the block. */
  method AddRow(c: array<int>, a: array<int>, b: array<int>, n: nat, q: Block, i: nat, ghost s: seq<int>)
    requires c != a && c != b && c.Length == a.Length == b.Length == n * n && q.r <= i < q.r + q.len
    requires DoneUpTo(c[..], s, a[..], b[..], n, q, i, q.c)
    modifies c
    ensures DoneUpTo(c[..], s, a[..], b[..], n, q, i + 1, q.c)
  {
    ghost var x, y := a[..], b[..];
    for j := 0 to q.len
      invariant DoneUpTo(c[..], s, x, y, n, q, i, q.c + j)
    {
      ghost var t := c[..];
      AddEntry(c, a, b, n, i, q.c + j, q.k, q.len);
      assert a[..] == x && b[..] == y;
      DoneNext(t, c[..], s, x, y, n, q, i, q.c + j);
    }
    assert a[..] == x && b[..] == y;
  }

  /** The triple loop. */
  method Loops(c: array<int>, a: array<int>, b: array<int>, n: nat, q: Block)
    requires c != a && c != b && c.Length == a.Length == b.Length == n * n && q.Fits(n)
    modifies c
    ensures Added(c[..], old(c[..]), a[..], b[..], n, q)
  {
    ghost var s, x, y := c[..], a[..], b[..];
    for i := 0 to q.len
      invariant DoneUpTo(c[..], s, x, y, n, q, q.r + i, q.c)
      invariant a[..] == x && b[..] == y
    {
      AddRow(c, a, b, n, q, q.r + i, s);
    }
  }

  // ---------------------------------------------------------------------
  // Divide and conquer
  // ---------------------------------------------------------------------

  /** Adds the product of a block of A and a block of B to a block of C. Whatever the
      threshold, it ends in the same matrix as the triple loop. */
  method MmDac(c: array<int>, a: array<int>, b: array<int>, n: nat, q: Block)
    requires c != a && c != b && c.Length == a.Length == b.Length == n * n && q.Fits(n) && Halves(q.len)
    modifies c
    ensures Added(c[..], old(c[..]), a[..], b[..], n, q)
    decreases q.len
  {
    if q.len < THRESHOLD {
      Loops(c, a, b, n, q);
    } else {
      ghost var s, x, y := c[..], a[..], b[..];
      FourCalls(c, a, b, n, q, 0);
      ghost var t := c[..];
      assert a[..] == x && b[..] == y;
      FourCalls(c, a, b, n, q, 1);
      assert a[..] == x && b[..] == y;
      TwoRounds(s, t, c[..], x, y, n, q);
    }
  }

  /** The calls between two syncs. */
  method FourCalls(c: array<int>, a: array<int>, b: array<int>, n: nat, q: Block, z: nat)
    requires c != a && c != b && c.Length == a.Length == b.Length == n * n && q.Fits(n)
    requires q.len >= THRESHOLD && Halves(q.len) && z <= 1
    modifies c
    ensures HalfAdded(c[..], old(c[..]), a[..], b[..], n, q, z)
    decreases q.len, 0
  {
    ghost var s, x, y := c[..], a[..], b[..];
    MmDac(c, a, b, n, Quadrant(q, 0, 0, z));
    ghost var s1 := c[..];
    MmDac(c, a, b, n, Quadrant(q, 0, 1, z));
    ghost var s2 := c[..];
    MmDac(c, a, b, n, Quadrant(q, 1, 0, z));
    ghost var s3 := c[..];
    MmDac(c, a, b, n, Quadrant(q, 1, 1, z));
    assert a[..] == x && b[..] == y;
    Round(s, s1, s2, s3, c[..], x, y, n, q, z);
  }
}
