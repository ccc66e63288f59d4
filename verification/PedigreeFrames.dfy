/** Pedigree frames: ranks and dot products along spawns, syncs and bumps. */
module PedigreeFrames {
  import opened Arithmetic
  import opened Pedigree

  /** The random weights and the constant term. */
  datatype Dprng = Dprng(m: seq<nat>, x: nat) {
    ghost predicate Ok() {
      |m| == MAX_DEPTH && x < DPRNG_PRIME && forall i | 0 <= i < MAX_DEPTH :: m[i] < DPRNG_PRIME
    }
  }

  method InitDprng(seed: nat) returns (g: Dprng)
    requires seed < WORD
    ensures g.Ok() && g.x == MixModP((seed + MAX_DEPTH) % WORD)
    ensures forall i | 0 <= i < MAX_DEPTH :: g.m[i] == MixModP((seed + i) % WORD)
  {
    var m := new nat[MAX_DEPTH];
    for i := 0 to MAX_DEPTH
      invariant forall k | 0 <= k < i :: m[k] == MixModP((seed + k) % WORD)
    {
      m[i] := MixModP((seed + i) % WORD);
    }
    g := Dprng(m[..], MixModP((seed + MAX_DEPTH) % WORD));
  }

  // ---------------------------------------------------------------------
  // The dot product of a pedigree
  // ---------------------------------------------------------------------

  /** r0 m[0] + (r1 + 1) m[1] + ... + (rd + 1) m[d]. */
  ghost function Weighted(m: seq<nat>, ranks: seq<nat>): nat
    requires 0 < |ranks| <= |m|
  {
    var d := |ranks| - 1;
    if d == 0 then ranks[0] * m[0] else Weighted(m, ranks[..d]) + (ranks[d] + 1) * m[d]
  }

  ghost function Dot(g: Dprng, ranks: seq<nat>): nat
    requires g.Ok() && 0 < |ranks| <= MAX_DEPTH
  {
    (g.x + Weighted(g.m, ranks)) % DPRNG_PRIME
  }

  lemma RootDot(g: Dprng)
    requires g.Ok()
    ensures Dot(g, [0]) == g.x
  {
    assert Weighted(g.m, [0]) == 0;
  }

  /** One more at the last rank adds the weight of its depth. */
  lemma BumpDot(g: Dprng, chain: seq<nat>, rank: nat)
    requires g.Ok() && |chain| < MAX_DEPTH
    ensures Dot(g, chain + [rank + 1]) == (Dot(g, chain + [rank]) + g.m[|chain|]) % DPRNG_PRIME
  {
    var d := |chain|;
    var r, s := chain + [rank], chain + [rank + 1];
    assert r[..d] == chain == s[..d];
    assert Weighted(g.m, s) == Weighted(g.m, r) + g.m[d];
    AddMod(g.x + Weighted(g.m, r), g.m[d], DPRNG_PRIME);
  }

  /** A first child's dot product adds the weight of the new depth. */
  lemma SpawnDot(g: Dprng, ranks: seq<nat>)
    requires g.Ok() && 0 < |ranks| < MAX_DEPTH
    ensures Dot(g, ranks + [0]) == (Dot(g, ranks) + g.m[|ranks|]) % DPRNG_PRIME
  {
    var d := |ranks|;
    assert (ranks + [0])[..d] == ranks;
    AddMod(g.x + Weighted(g.m, ranks), g.m[d], DPRNG_PRIME);
  }

  // ---------------------------------------------------------------------
  // Frames
  // ---------------------------------------------------------------------

  class Frame {
    const pedigreeRank: nat
    const parent: Frame?
    const depth: nat
    /** The ranks at which the ancestors spawned, the root's first. */
    ghost const chain: seq<nat>
    var rank: nat
    var dotproduct: nat

    constructor Root(x: nat)
      ensures parent == null && chain == [] && depth == 0 && pedigreeRank == 0 && rank == 0 && dotproduct == x
    {
      pedigreeRank, parent, depth, chain, rank, dotproduct := 0, null, 0, [], 0, x;
    }

    constructor Child(parentFrame: Frame, dotproduct: nat)
      ensures parent == parentFrame && chain == parentFrame.chain + [parentFrame.rank] && depth == parentFrame.depth + 1
      ensures pedigreeRank == parentFrame.rank && rank == 0 && this.dotproduct == dotproduct
    {
      pedigreeRank, parent, depth := parentFrame.rank, parentFrame, parentFrame.depth + 1;
      chain := parentFrame.chain + [parentFrame.rank];
      rank := 0;
      this.dotproduct := dotproduct;
    }

    /** The links to the ancestors. */
    ghost predicate Linked()
      decreases depth
    {
      && |chain| == depth
      && if parent == null then depth == 0 && pedigreeRank == 0
         else depth == parent.depth + 1 && chain == parent.chain + [pedigreeRank] && parent.Linked()
    }

    /** The pedigree of the frame, and its place among the weights. */
    ghost predicate Valid(g: Dprng)
      requires g.Ok()
      reads this
    {
      Linked() && depth < MAX_DEPTH && dotproduct == Dot(g, chain + [rank])
    }

    /** The ranks that a walk along the pedigree's parent links reads. */
    ghost function Ancestry(): seq<nat>
      requires Linked()
      decreases depth
    {
      [pedigreeRank] + if parent == null then [] else parent.Ancestry()
    }
  }

  function Reversed(s: seq<nat>): seq<nat> {
    if s == [] then [] else Reversed(s[1..]) + [s[0]]
  }

  lemma {:induction false} ReversedAppend(s: seq<nat>, r: nat)
    ensures Reversed(s + [r]) == [r] + Reversed(s)
  {
    if s == [] {
      assert [] + [r] == [r];
    } else {
      assert (s + [r])[1..] == s[1..] + [r];
      ReversedAppend(s[1..], r);
    }
  }

  /** What a program reads from get_pedigree onwards is the frame's chain of spawn
      ranks from the leaf to the root. */
  lemma {:induction false} AncestryIsChain(f: Frame)
    requires f.Linked()
    ensures f.Ancestry() == Reversed([0] + f.chain)
    decreases f.depth
  {
    if f.parent == null {
      assert [0] + f.chain == [0];
    } else {
      AncestryIsChain(f.parent);
      ReversedAppend([0] + f.parent.chain, f.pedigreeRank);
      assert [0] + f.chain == [0] + f.parent.chain + [f.pedigreeRank];
    }
  }

  /** All the frames of a run. */
  class Pedigrees {
    const g: Dprng
    const root: Frame
    ghost var frames: set<Frame>

    ghost predicate Valid()
      reads this, frames
    {
      && g.Ok() && root in frames && root.chain == []
      && (forall f | f in frames :: f.Valid(g) && (f.parent == null ==> f == root))
      && (forall f {:trigger f.parent in frames} | f in frames && f.parent != null :: f.parent in frames)
    }

    constructor (seed: nat)
      requires seed < WORD
      ensures Valid() && fresh(frames)
      ensures frames == {root} && root.rank == 0 && g.x == MixModP((seed + MAX_DEPTH) % WORD)
      ensures forall i | 0 <= i < MAX_DEPTH :: g.m[i] == MixModP((seed + i) % WORD)
    {
      var generator := InitDprng(seed);
      g := generator;
      var first := new Frame.Root(generator.x);
      root := first;
      frames := {first};
      RootDot(generator);
      assert first.chain + [first.rank] == [0];
    }

    method ExtendSpawn(parentFrame: Frame) returns (child: Frame)
      requires Valid() && parentFrame in frames && parentFrame.depth + 1 < MAX_DEPTH
      modifies this`frames, parentFrame
      ensures Valid() && fresh(child) && frames == old(frames) + {child}
      ensures child.parent == parentFrame && child.chain == parentFrame.chain + [old(parentFrame.rank)] && child.rank == 0
      ensures parentFrame.rank == old(parentFrame.rank) + 1
    {
      var dot := parentFrame.dotproduct;
      SpawnDot(g, parentFrame.chain + [parentFrame.rank]);
      BumpDot(g, parentFrame.chain, parentFrame.rank);
      child := new Frame.Child(parentFrame, SumModP(dot, g.m[parentFrame.depth + 1]));
      assert child.Valid(g);
      parentFrame.rank := parentFrame.rank + 1;
      parentFrame.dotproduct := SumModP(dot, g.m[parentFrame.depth]);
      frames := frames + {child};
    }

    /** The frame is popped when the spawned function returns, after its own children
        have, and the worker goes on with the frame of its parent, which is still there. */
    method ExtendReturnFromSpawn(child: Frame) returns (extension: Frame)
      requires Valid() && child in frames && child != root && forall f | f in frames :: f.parent != child
      modifies this`frames
      ensures Valid() && frames == old(frames) - {child} && extension in frames && extension == child.parent
      ensures child.chain == extension.chain + [child.pedigreeRank]
    {
      assert child.parent in frames;
      frames := frames - {child};
      extension := child.parent;
    }

    method BumpWorkerRank(f: Frame)
      requires Valid() && f in frames
      modifies f
      ensures Valid() && f.rank == old(f.rank) + 1
    {
      BumpDot(g, f.chain, f.rank);
      f.rank := f.rank + 1;
      f.dotproduct := SumModP(f.dotproduct, g.m[f.depth]);
    }

    /** A sync is one step of the pedigree. */
    method ExtendSync(f: Frame)
      requires Valid() && f in frames
      modifies f
      ensures Valid() && f.rank == old(f.rank) + 1
    {
      BumpWorkerRank(f);
    }

    /** The random number drawn depends on the pedigree and on nothing else. */
    method GetDprand(f: Frame) returns (r: nat)
      requires Valid() && f in frames
      modifies f
      ensures Valid() && f.rank == old(f.rank) + 1
      ensures r == MixModP(Dot(g, f.chain + [old(f.rank) + 1]))
    {
      BumpWorkerRank(f);
      r := MixModP(f.dotproduct);
    }
  }
}
