/** The numbers that a program draws: the same in every run, whatever has been stolen. */
module DrawnNumbers {
  import opened Options
  import opened Pedigree
  import PedigreeFrames
  import opened ClosureTree
  import opened PedigreeRuns
  import opened PedigreeOrder
  import opened SerialPedigrees

  /** In a run that has led to `t`, worker `w` is about to do update `u`, which draws. */
  ghost predicate AboutToDraw(code: Code, nworkers: nat, lab: Labels, steps: seq<Step>, x: Ext, t: State, w: Wid, u: int) {
    && nworkers > 0 && Leads(Start(nworkers), Init(code, nworkers), steps, x, t, lab)
    && w < |t.workers| && Enabled(t, Exec(w))
    && var rest := Top(t.workers[w].stack).rest; rest != [] && rest[0] == Update(u) && lab(u).Some?
  }

  /** The frame that the worker's extension pointer leads to. */
  ghost predicate IsExtension(f: PedigreeFrames.Frame, x: Ext, w: Wid)
    reads f
  {
    w < |x.workers| && f.chain == ChainOf(x.heap, x.workers[w].extension) && f.rank == RankOf(x.heap, x.workers[w].extension)
  }

  /** __cilkrts_get_dprand on the worker's extension: the number depends on the weights and
      on the pedigree of the update in the serial elision. */
  method Draw(p: PedigreeFrames.Pedigrees, f: PedigreeFrames.Frame, ghost code: Code, ghost nworkers: nat, ghost lab: Labels,
              ghost steps: seq<Step>, ghost x: Ext, ghost t: State, ghost w: Wid, ghost u: int)
    returns (r: nat)
    requires p.Valid() && f in p.frames && IsExtension(f, x, w)
    requires AllLabelled(Draws(code, [], 0, lab), lab) && AboutToDraw(code, nworkers, lab, steps, x, t, w, u)
    modifies f
    ensures p.Valid() && 0 < |lab(u).value| <= MAX_DEPTH && r == MixModP(PedigreeFrames.Dot(p.g, lab(u).value))
  {
    DrawsAreSerial(code, nworkers, lab, steps, x, t, w, u);
    r := p.GetDprand(f);
  }

  /** Two runs of the same code, on any numbers of workers and under any schedules, draw for
      the same update at the same pedigree: with the same weights, the same number. */
  lemma SameDraw(code: Code, n: nat, n': nat, steps: seq<Step>, steps': seq<Step>, x: Ext, x': Ext, t: State, t': State,
                 w: Wid, w': Wid, u: int, g: PedigreeFrames.Dprng)
    requires forall i, j | 0 <= i < j < |Serial(code)| :: Serial(code)[i] != Serial(code)[j]
    requires AboutToDraw(code, n, SerialLabels(code), steps, x, t, w, u)
    requires AboutToDraw(code, n', SerialLabels(code), steps', x', t', w', u)
    ensures w < |x.workers| && w' < |x'.workers| && DrawnAt(x, w) == DrawnAt(x', w') == SerialLabels(code)(u).value
    ensures g.Ok() && |DrawnAt(x, w)| <= MAX_DEPTH ==> MixModP(PedigreeFrames.Dot(g, DrawnAt(x, w))) == MixModP(PedigreeFrames.Dot(g, DrawnAt(x', w')))
  {
    SerialLabelsAreRight(code);
    DrawsAreSerial(code, n, SerialLabels(code), steps, x, t, w, u);
    DrawsAreSerial(code, n', SerialLabels(code), steps', x', t', w', u);
  }

  /** The first draw of an update, if it has one. */
  lemma {:induction false} FirstFound(ds: seq<Draw>, u: int) returns (i: nat)
    requires First(ds, u) != []
    ensures i < |ds| && ds[i].update == u && ds[i].pedigree == First(ds, u)
  {
    if ds[0].update == u {
      i := 0;
    } else {
      i := FirstFound(ds[1..], u);
      i := i + 1;
    }
  }

  /** Different updates draw at different pedigrees, in the same run or in two runs, and
      whatever has been stolen in them. */
  lemma DifferentDraws(code: Code, n: nat, n': nat, steps: seq<Step>, steps': seq<Step>, x: Ext, x': Ext, t: State, t': State,
                       w: Wid, w': Wid, u: int, u': int)
    requires forall i, j | 0 <= i < j < |Serial(code)| :: Serial(code)[i] != Serial(code)[j]
    requires AboutToDraw(code, n, SerialLabels(code), steps, x, t, w, u) && u != u'
    requires AboutToDraw(code, n', SerialLabels(code), steps', x', t', w', u')
    ensures w < |x.workers| && w' < |x'.workers| && DrawnAt(x, w) != DrawnAt(x', w')
  {
    SerialLabelsAreRight(code);
    DrawsAreSerial(code, n, SerialLabels(code), steps, x, t, w, u);
    DrawsAreSerial(code, n', SerialLabels(code), steps', x', t', w', u');
    var ds := Draws(code, [], 0, Everywhere());
    var i := FirstFound(ds, u);
    var j := FirstFound(ds, u');
    SerialPedigreesIncrease(code, Everywhere(), if i < j then i else j, if i < j then j else i);
  }
}
