/** The global pool as long as blocks move in whole batches: chunks are used up
    exactly, and nothing is wasted. */
module WholeBatches {
  import opened Arithmetic
  import opened InternalMalloc

  const PAGE: nat := 4096

  function Batch(b: nat): (r: nat)
    ensures r >= 4
    ensures b < NUM_BUCKETS ==> r * SizeOf(b) == PAGE || r * SizeOf(b) == 2 * PAGE
  {
    Capacity(b) / 2
  }

  /** Where the chunk in use begins, what has been wasted, and how long the global
      lists are. */
  datatype Store = Store(begin: nat, wasted: nat, sizes: seq<nat>)

  function Sizes(ks: seq<Bucket>): (r: seq<nat>)
    ensures |r| == |ks|
  {
    seq(|ks|, b requires 0 <= b < |ks| => ks[b].size)
  }

  /** The global list of one bucket is longer by `n`. */
  ghost predicate Grown(ks: seq<Bucket>, js: seq<Bucket>, b: nat, n: nat) {
    && |ks| == |js| && b < |js|
    && Sizes(ks) == Sizes(js)[b := js[b].size + n] && (NoneLost(js) ==> NoneLost(ks))
  }

  lemma PushGrows(js: seq<Bucket>, b: nat, p: nat)
    requires b < |js|
    ensures Grown(js[b := js[b].Push(p)], js, b, 1)
  {
  }

  lemma GrownMore(ks: seq<Bucket>, js: seq<Bucket>, hs: seq<Bucket>, b: nat, n: nat)
    requires Grown(ks, js, b, 1) && Grown(js, hs, b, n)
    ensures Grown(ks, hs, b, n + 1)
  {
    assert Sizes(js)[b] == js[b].size;
  }

  /** The global lists count no bytes as lost to rounding. */
  ghost predicate NoneLost(ks: seq<Bucket>) { forall b | 0 <= b < |ks| :: ks[b].wasted == 0 }

  ghost predicate Whole(s: Store) {
    s.begin % PAGE == 0 && s.wasted == 0 && |s.sizes| == NUM_BUCKETS && InBatches(s.sizes)
  }

  ghost predicate InBatches(sizes: seq<nat>) {
    sizes == [] || (InBatches(sizes[..|sizes| - 1]) && sizes[|sizes| - 1] % Batch(|sizes| - 1) == 0)
  }

  lemma {:induction false} BatchesAt(sizes: seq<nat>, b: nat)
    requires InBatches(sizes) && b < |sizes|
    ensures sizes[b] % Batch(b) == 0
  {
    if b < |sizes| - 1 {
      BatchesAt(sizes[..|sizes| - 1], b);
    }
  }

  lemma {:induction false} BatchesChange(sizes: seq<nat>, b: nat, n: nat)
    requires InBatches(sizes) && b < |sizes| && n % Batch(b) == 0
    ensures InBatches(sizes[b := n])
  {
    var last := |sizes| - 1;
    if b < last {
      BatchesChange(sizes[..last], b, n);
      assert sizes[b := n][..last] == sizes[..last][b := n];
    } else {
      assert sizes[b := n][..last] == sizes[..last];
    }
  }

  /** The block that the global pool hands out is off the list, or carved from a chunk
      that has room for it or is used up. */
  ghost predicate OneTaken(t: Store, s: Store, b: nat) {
    && b < |s.sizes|
    && if s.sizes[b] > 0 then t == s.(sizes := s.sizes[b := s.sizes[b] - 1])
       else s.begin % SizeOf(b) == 0 ==> t == s.(begin := s.begin + SizeOf(b))
  }

  /** After `i` blocks of a batch. */
  ghost predicate PartTaken(t: Store, s: Store, b: nat, i: nat) {
    && b < |s.sizes|
    && if s.sizes[b] > 0 then i <= s.sizes[b] && t == s.(sizes := s.sizes[b := s.sizes[b] - i])
       else t == s.(begin := s.begin + i * SizeOf(b))
  }

  /** Places that follow a whole page at block distance are block places. */
  lemma BlockPlace(begin: nat, b: nat, i: nat)
    requires begin % PAGE == 0 && b < NUM_BUCKETS
    ensures (begin + i * SizeOf(b)) % SizeOf(b) == 0
  {
    MultipleOfMultiple(begin, PAGE, SizeOf(b));
    MultipleMod(i, SizeOf(b));
    MultiplesAdd(begin, i * SizeOf(b), SizeOf(b));
  }

  /** A chunk without room for a block is used up. */
  lemma ChunkUsedUp(begin: nat, end: nat, b: nat)
    requires b < NUM_BUCKETS && begin % SizeOf(b) == 0 && end % CHUNK == 0 && begin <= end < begin + SizeOf(b)
    ensures begin == end
  {
    MultipleOfMultiple(end, CHUNK, SizeOf(b));
    MultiplesAdd(end, begin, SizeOf(b));
    SmallMultiple(end - begin, SizeOf(b));
  }

  lemma WholeSize(s: Store, b: nat)
    requires Whole(s) && b < NUM_BUCKETS && s.sizes[b] > 0
    ensures s.sizes[b] >= Batch(b)
  {
    BatchesAt(s.sizes, b);
    if s.sizes[b] < Batch(b) {
      SmallMultiple(s.sizes[b], Batch(b));
    }
  }

  lemma PartNext(u: Store, t: Store, s: Store, b: nat, i: nat)
    requires Whole(s) && b < NUM_BUCKETS && PartTaken(t, s, b, i) && OneTaken(u, t, b) && i < Batch(b)
    ensures PartTaken(u, s, b, i + 1)
  {
    if s.sizes[b] > 0 {
      WholeSize(s, b);
    } else {
      BlockPlace(s.begin, b, i);
      Times(i, SizeOf(b));
    }
  }

  /** A whole batch leaves whole batches. */
  lemma BatchTaken(t: Store, s: Store, b: nat)
    requires Whole(s) && b < NUM_BUCKETS && PartTaken(t, s, b, Batch(b))
    ensures Whole(t)
  {
    if s.sizes[b] > 0 {
      WholeSize(s, b);
      MultipleMod(1, Batch(b));
      BatchesAt(s.sizes, b);
      MultiplesAdd(s.sizes[b], Batch(b), Batch(b));
      BatchesChange(s.sizes, b, s.sizes[b] - Batch(b));
    } else {
      MultiplesAdd(s.begin, PAGE, PAGE);
      MultiplesAdd(s.begin, 2 * PAGE, PAGE);
      assert t.begin == s.begin + PAGE || t.begin == s.begin + 2 * PAGE;
    }
  }

  lemma {:induction false} ZerosInBatches(sizes: seq<nat>)
    requires forall b | 0 <= b < |sizes| :: sizes[b] == 0
    ensures InBatches(sizes)
  {
    if sizes != [] {
      ZerosInBatches(sizes[..|sizes| - 1]);
    }
  }

  /** A block off a global list. */
  lemma PopTaken(begin: nat, wasted: nat, ks: seq<Bucket>, b: nat)
    requires b < |ks| && ks[b].list != [] && ks[b].size > 0
    ensures var js := ks[b := ks[b].Pop()];
      OneTaken(Store(begin, wasted, Sizes(js)), Store(begin, wasted, Sizes(ks)), b) && (NoneLost(ks) ==> NoneLost(js))
  {
  }

  /** A whole batch comes back. */
  lemma BatchFreed(begin: nat, wasted: nat, ks: seq<Bucket>, js: seq<Bucket>, b: nat)
    requires Whole(Store(begin, wasted, Sizes(js))) && b < NUM_BUCKETS && Grown(ks, js, b, Batch(b))
    ensures Whole(Store(begin, wasted, Sizes(ks)))
  {
    var s := Store(begin, wasted, Sizes(js));
    MultipleMod(1, Batch(b));
    BatchesAt(s.sizes, b);
    MultiplesAdd(s.sizes[b], Batch(b), Batch(b));
    BatchesChange(s.sizes, b, s.sizes[b] + Batch(b));
  }
}
