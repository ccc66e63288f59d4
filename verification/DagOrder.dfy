/** What a program orders, every run of the scheduler does in that order: whatever is
    stolen, no update is done before those that it must come after. */
module DagOrder {
  import opened Options
  import opened ClosureTree
  import opened ClosureInvariant
  import opened SerialOrder

  // ---------------------------------------------------------------------
  // The order of a program
  // ---------------------------------------------------------------------

  function Of(code: Code): set<int> { set u | u in Serial(code) }

  /** What comes after the next sync. */
  function AfterSync(code: Code): Code {
    if code == [] then [] else if code[0] == Sync then code[1..] else AfterSync(code[1..])
  }

  /** Update `u` must be done before `v`: in the order of one function instance, what has
      been called comes before everything later, and what has been spawned before
      everything after the next sync. */
  ghost predicate Precedes(code: Code, u: int, v: int)
    decreases code
  {
    code != [] &&
    (|| Precedes(code[1..], u, v)
     || match code[0]
        case Update(w) => u == w && v in Of(code[1..])
        case Spawn(body) => Precedes(body, u, v) || (u in Of(body) && v in Of(AfterSync(code[1..])))
        case Call(body) => Precedes(body, u, v) || (u in Of(body) && v in Of(code[1..]))
        case Sync => false)
  }

  predicate Distinct(us: seq<int>) { forall i, j | 0 <= i < j < |us| :: us[i] != us[j] }

  /** Everything that `whole` orders before an update of `code` is in `past`, or comes
      earlier in `code`, or is in `spawned` if a sync of `code` comes first. */
  ghost predicate Ordered(whole: Code, code: Code, past: set<int>, spawned: set<int>)
    decreases code
  {
    code == [] ||
    match code[0]
    case Update(v) => (forall u | Precedes(whole, u, v) :: u in past) && Ordered(whole, code[1..], past + {v}, spawned)
    case Spawn(body) => Ordered(whole, body, past, {}) && Ordered(whole, code[1..], past, spawned + Of(body))
    case Call(body) => Ordered(whole, body, past, {}) && Ordered(whole, code[1..], past + Of(body), spawned)
    case Sync => Ordered(whole, code[1..], past + spawned, {})
  }

  lemma {:induction false} OrderedMore(whole: Code, code: Code, past: set<int>, spawned: set<int>, past': set<int>, spawned': set<int>)
    requires Ordered(whole, code, past, spawned) && past <= past' && spawned <= past' + spawned'
    ensures Ordered(whole, code, past', spawned')
    decreases code
  {
    if code != [] {
      match code[0]
      case Update(v) =>
        OrderedMore(whole, code[1..], past + {v}, spawned, past' + {v}, spawned');
      case Spawn(body) =>
        OrderedMore(whole, body, past, {}, past', {});
        OrderedMore(whole, code[1..], past, spawned + Of(body), past', spawned' + Of(body));
      case Call(body) =>
        OrderedMore(whole, body, past, {}, past', {});
        OrderedMore(whole, code[1..], past + Of(body), spawned, past' + Of(body), spawned');
      case Sync =>
        OrderedMore(whole, code[1..], past + spawned, {}, past' + spawned', {});
    }
  }

  lemma {:induction false} PrecedesInside(code: Code, u: int, v: int)
    requires Precedes(code, u, v)
    ensures u in Of(code) && v in Of(code)
    decreases code
  {
    if Precedes(code[1..], u, v) {
      PrecedesInside(code[1..], u, v);
    } else {
      match code[0]
      case Update(_) =>
      case Spawn(body) =>
        AfterSyncInside(code[1..]);
        if Precedes(body, u, v) { PrecedesInside(body, u, v); }
      case Call(body) =>
        if Precedes(body, u, v) { PrecedesInside(body, u, v); }
    }
  }

  lemma {:induction false} AfterSyncInside(code: Code)
    ensures Of(AfterSync(code)) <= Of(code)
  {
    if code != [] {
      if code[0] != Sync {
        AfterSyncInside(code[1..]);
      }
      assert Of(code[1..]) <= Of(code);
    }
  }

  lemma DistinctParts(a: seq<int>, b: seq<int>)
    requires Distinct(a + b)
    ensures Distinct(a) && Distinct(b) && forall u | u in a :: u !in b
  {
    assert forall i | 0 <= i < |a| :: a[i] == (a + b)[i];
    assert forall i | 0 <= i < |b| :: b[i] == (a + b)[|a| + i];
  }

  /** What `whole` orders within `code` and before it. */
  ghost predicate Known(whole: Code, code: Code, past: set<int>, spawned: set<int>) {
    forall u, v | v in Of(code) && Precedes(whole, u, v) ::
      u in past || Precedes(code, u, v) || (u in spawned && v in Of(AfterSync(code)))
  }

  lemma {:induction false} KnownIsOrdered(whole: Code, code: Code, past: set<int>, spawned: set<int>)
    requires Distinct(Serial(code)) && Known(whole, code, past, spawned)
    ensures Ordered(whole, code, past, spawned)
    decreases code
  {
    if code != [] {
      var rest := code[1..];
      AfterSyncInside(rest);
      match code[0]
      case Update(v) =>
        DistinctParts([v], Serial(rest));
        forall u | Precedes(whole, u, v)
          ensures u in past
        {
          assert v in Of(code) && v in [v];
          if Precedes(rest, u, v) { PrecedesInside(rest, u, v); }
        }
        KnownIsOrdered(whole, rest, past + {v}, spawned);
      case Spawn(body) =>
        DistinctParts(Serial(body), Serial(rest));
        KnownInBody(whole, code, body, past, spawned);
        KnownIsOrdered(whole, body, past, {});
        KnownInRest(whole, code, body, past, spawned);
        KnownIsOrdered(whole, rest, past, spawned + Of(body));
      case Call(body) =>
        DistinctParts(Serial(body), Serial(rest));
        KnownInBody(whole, code, body, past, spawned);
        KnownIsOrdered(whole, body, past, {});
        KnownInRest(whole, code, body, past, spawned);
        KnownIsOrdered(whole, rest, past + Of(body), spawned);
      case Sync =>
        KnownIsOrdered(whole, rest, past + spawned, {});
    }
  }

  lemma KnownInBody(whole: Code, code: Code, body: Code, past: set<int>, spawned: set<int>)
    requires code != [] && (code[0] == Spawn(body) || code[0] == Call(body)) && Known(whole, code, past, spawned)
    requires forall u | u in Serial(body) :: u !in Serial(code[1..])
    ensures Known(whole, body, past, {})
  {
    forall u, v | v in Of(body) && Precedes(whole, u, v)
      ensures u in past || Precedes(body, u, v)
    {
      AfterSyncInside(code[1..]);
      assert v in Of(code);
      if Precedes(code[1..], u, v) { PrecedesInside(code[1..], u, v); }
    }
  }

  lemma KnownInRest(whole: Code, code: Code, body: Code, past: set<int>, spawned: set<int>)
    requires code != [] && (code[0] == Spawn(body) || code[0] == Call(body)) && Known(whole, code, past, spawned)
    requires forall u | u in Serial(body) :: u !in Serial(code[1..])
    ensures code[0].Spawn? ==> Known(whole, code[1..], past, spawned + Of(body))
    ensures code[0].Call? ==> Known(whole, code[1..], past + Of(body), spawned)
  {
    forall u, v | v in Of(code[1..]) && Precedes(whole, u, v)
      ensures u in past || Precedes(code[1..], u, v) || (u in spawned && v in Of(AfterSync(code[1..])))
                || (u in Of(body) && (code[0].Call? || v in Of(AfterSync(code[1..]))))
    {
      assert v in Of(code);
      if Precedes(body, u, v) { PrecedesInside(body, u, v); }
    }
  }

  lemma ProgramOrdered(code: Code)
    requires Distinct(Serial(code))
    ensures Ordered(code, code, {}, {})
  {
    KnownIsOrdered(code, code, {}, {});
  }
}
