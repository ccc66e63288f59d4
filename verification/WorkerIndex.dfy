/** The permutation of workers that keeps the engaged ones in front, updated under
    its lock together with the packed count of disengaged workers and sentinels. */
module WorkerIndex {
  const HALF: nat := 0x1_0000_0000
  const WORD: nat := HALF * HALF

  function Disengaged(word: nat): nat { word / HALF }
  function Sentinels(word: nat): nat { word % HALF }

  /** The bits of the two counts side by side; negative counts wrap. */
  function Pack(disengaged: int, sentinels: int): nat {
    disengaged % HALF * HALF + sentinels % HALF
  }

  /** The atomic addition of the processor. */
  function FetchAdd(word: nat, delta: int): (r: nat)
    ensures r < WORD
  {
    (word + delta) % WORD
  }

  /** Adding Pack(-1, 1) takes one worker from the upper half to the lower. */
  lemma UnpackReengage(disengaged: nat, sentinels: nat)
    requires 0 < disengaged < HALF && sentinels < HALF - 1
    ensures FetchAdd(disengaged * HALF + sentinels, Pack(-1, 1)) == (disengaged - 1) * HALF + sentinels + 1
  {
    assert Pack(-1, 1) == WORD - HALF + 1;
  }

  lemma UnpackDisengaged(disengaged: nat, sentinels: nat, val: int)
    requires val in {-1, 1} && 0 <= disengaged + val < HALF && sentinels < HALF && disengaged < HALF
    ensures FetchAdd(disengaged * HALF + sentinels, Pack(val, 0)) == (disengaged + val) * HALF + sentinels
  {
    assert Pack(-1, 0) == WORD - HALF && Pack(1, 0) == HALF;
  }

  lemma UnpackSentinels(disengaged: nat, sentinels: nat, val: int)
    requires val in {-1, 1} && 0 <= sentinels + val < HALF && disengaged < HALF && sentinels < HALF
    ensures FetchAdd(disengaged * HALF + sentinels, val) == disengaged * HALF + (sentinels + val)
  {
  }

  class IndexMap {
    const nworkers: nat
    var disengagedSentinel: nat
    const indexToWorker: array<nat>
    const workerToIndex: array<nat>
    ghost var off: set<nat>

    /** What holds whenever the lock is free: the packed count is that of the
        disengaged workers, which are exactly the ones in the last places. */
    ghost predicate Valid()
      reads this, indexToWorker, workerToIndex
    {
      Listed() && Disengaged(disengagedSentinel) == |off|
    }

    /** The same, but for the count, which is updated before the places are. */
    ghost predicate Listed()
      reads this, indexToWorker, workerToIndex
    {
      && nworkers == indexToWorker.Length == workerToIndex.Length < HALF && indexToWorker != workerToIndex
      && Inverse() && |off| <= nworkers && (forall w | w in off :: w < nworkers)
      && forall w | 0 <= w < nworkers :: w in off <==> workerToIndex[w] >= nworkers - |off|
    }

    ghost predicate Inverse()
      reads this, indexToWorker, workerToIndex
      requires nworkers == indexToWorker.Length == workerToIndex.Length
    {
      && (forall i | 0 <= i < nworkers :: indexToWorker[i] < nworkers && workerToIndex[indexToWorker[i]] == i)
      && (forall w | 0 <= w < nworkers :: workerToIndex[w] < nworkers && indexToWorker[workerToIndex[w]] == w)
    }

    constructor (n: nat)
      requires n < HALF
      ensures Valid() && nworkers == n && off == {} && disengagedSentinel == 0
      ensures fresh(indexToWorker) && fresh(workerToIndex)
    {
      nworkers, disengagedSentinel, off := n, 0, {};
      indexToWorker := new nat[n](i => i);
      workerToIndex := new nat[n](i => i);
    }

    /** Exchanges the places of `self` and of the worker at the target index. */
    method SwapWorkerWithTarget(self: nat, targetIndex: nat)
      requires nworkers == indexToWorker.Length == workerToIndex.Length && indexToWorker != workerToIndex
      requires Inverse() && self < nworkers && targetIndex < nworkers
      modifies indexToWorker, workerToIndex
      ensures Inverse() && workerToIndex[self] == targetIndex
      ensures var other := old(indexToWorker[targetIndex]);
        && workerToIndex[other] == old(workerToIndex[self])
        && forall w | 0 <= w < nworkers && w != self && w != other :: workerToIndex[w] == old(workerToIndex[w])
    {
      var selfIndex := workerToIndex[self];
      var targetWorker := indexToWorker[targetIndex];
      indexToWorker[selfIndex] := targetWorker;
      indexToWorker[targetIndex] := self;
      workerToIndex[targetWorker] := selfIndex;
      workerToIndex[self] := targetIndex;
    }

    /** Moves `self` to the front of the disengaged workers. */
    method MoveOut(self: nat, lastIndex: nat)
      requires Listed() && self < nworkers && self !in off && lastIndex == nworkers - (|off| + 1)
      requires Disengaged(disengagedSentinel) == |off| + 1
      modifies this`off, indexToWorker, workerToIndex
      ensures Valid() && off == old(off) + {self}
    {
      if workerToIndex[self] < lastIndex {
        SwapWorkerWithTarget(self, lastIndex);
      }
      off := off + {self};
    }

    /** Moves `self` to the end of the engaged workers. */
    method MoveIn(self: nat, lastIndex: nat)
      requires Listed() && self in off && lastIndex == nworkers - |off|
      requires Disengaged(disengagedSentinel) == |off| - 1
      modifies this`off, indexToWorker, workerToIndex
      ensures Valid() && off == old(off) - {self}
    {
      if workerToIndex[self] > lastIndex {
        SwapWorkerWithTarget(self, lastIndex);
      }
      off := off - {self};
    }

    /** What workers without the lock do to the word: they change its lower half. */
    method OtherWorkers(sentinels: nat)
      requires sentinels < HALF
      modifies this`disengagedSentinel
      ensures Disengaged(disengagedSentinel) == old(Disengaged(disengagedSentinel)) && Sentinels(disengagedSentinel) == sentinels
    {
      disengagedSentinel := Disengaged(disengagedSentinel) * HALF + sentinels;
    }

    /** Other workers leave the count of sentinels at `sentinels` while the places are
        being updated. */
    method DisengageWorker(self: nat, sentinels: nat)
      requires Valid() && self < nworkers && self !in off && sentinels < HALF
      modifies this`disengagedSentinel, this`off, indexToWorker, workerToIndex
      ensures Valid() && off == old(off) + {self} && Sentinels(disengagedSentinel) == sentinels
    {
      OffBound(self);
      UnpackDisengaged(|off|, Sentinels(disengagedSentinel), 1);
      var before := disengagedSentinel;
      disengagedSentinel := FetchAdd(disengagedSentinel, Pack(1, 0));
      assert Sentinels(disengagedSentinel) == Sentinels(before);
      OtherWorkers(sentinels);
      MoveOut(self, nworkers - (before / HALF + 1));
    }

    method ReengageWorker(self: nat, sentinels: nat)
      requires Valid() && self in off && sentinels < HALF
      modifies this`disengagedSentinel, this`off, indexToWorker, workerToIndex
      ensures Valid() && off == old(off) - {self} && Sentinels(disengagedSentinel) == sentinels
    {
      UnpackDisengaged(|off|, Sentinels(disengagedSentinel), -1);
      var before := disengagedSentinel;
      disengagedSentinel := FetchAdd(disengagedSentinel, Pack(-1, 0));
      assert Sentinels(disengagedSentinel) == Sentinels(before);
      OtherWorkers(sentinels);
      MoveIn(self, nworkers - before / HALF);
    }

    /** The first half of try_to_disengage_thief: it fails, and changes nothing,
        exactly when the lock is not free or the word is no longer the one that the
        caller has read. */
    method TryToDisengage(self: nat, expected: nat, lockFree: bool) returns (ok: bool)
      requires Valid() && self < nworkers && self !in off
      requires disengagedSentinel == expected ==> 0 < Sentinels(expected)
      modifies this`disengagedSentinel, this`off, indexToWorker, workerToIndex
      ensures Valid() && ok == (lockFree && old(disengagedSentinel) == expected)
      ensures off == if ok then old(off) + {self} else old(off)
      ensures if ok then Sentinels(disengagedSentinel) == old(Sentinels(disengagedSentinel)) - 1 else disengagedSentinel == old(disengagedSentinel)
    {
      if !lockFree || disengagedSentinel != expected {
        return false;
      }
      OffBound(self);
      var updated := Pack(Disengaged(expected) + 1, Sentinels(expected) - 1);
      disengagedSentinel := updated;
      MoveOut(self, nworkers - updated / HALF);
      return true;
    }

    /** The second half: the thief is awake again, and a sentinel. */
    method ReengageThief(self: nat)
      requires Valid() && self in off && Sentinels(disengagedSentinel) + 1 < HALF
      modifies this`disengagedSentinel, this`off, indexToWorker, workerToIndex
      ensures Valid() && off == old(off) - {self} && Sentinels(disengagedSentinel) == old(Sentinels(disengagedSentinel)) + 1
    {
      UnpackReengage(|off|, Sentinels(disengagedSentinel));
      var before := disengagedSentinel;
      disengagedSentinel := FetchAdd(disengagedSentinel, Pack(-1, 1));
      MoveIn(self, nworkers - Disengaged(before));
    }

    /** A thief draws its victim from the engaged workers, and from all of them. */
    lemma StealableAreEngaged(w: nat)
      requires Valid() && w < nworkers
      ensures w !in off <==> exists i :: 0 <= i < nworkers - Disengaged(disengagedSentinel) && indexToWorker[i] == w
    {
      if w !in off {
        assert indexToWorker[workerToIndex[w]] == w;
      }
    }

    /** An engaged worker leaves room in the last place of the engaged. */
    lemma OffBound(self: nat)
      requires Valid() && self < nworkers && self !in off
      ensures |off| < nworkers
    {
      assert workerToIndex[self] < nworkers - |off|;
    }
  }
}
