/** The four phases of an incremental repair, as functions on records and sets
    of pairs.  A batch is evaluated on the records before it and then written
    at once, so the order inside a batch plays no part. */
module RepairSpec {
  import opened Records
  import opened PairGraph

  ghost predicate HasArcInto(g: Graph, p: nat, targets: set<nat>)
    requires g.Valid() && p < g.pairs
  {
    exists a :: 0 <= a < g.actions && g.next[p][a] in targets
  }

  /** The off-diagonal pairs with an arc into the targets. */
  ghost function Sources(g: Graph, targets: set<nat>): (s: set<nat>)
    requires g.Valid()
    ensures forall p: nat {:trigger p in s} :: p in s <==> p < g.pairs && !g.diagonal[p] && HasArcInto(g, p, targets)
  {
    set p | p in Upto(g.pairs) && !g.diagonal[p] && HasArcInto(g, p, targets)
  }

  ghost function OffDiagonal(g: Graph, pairs: set<nat>): (s: set<nat>)
    requires g.Valid()
    ensures forall p: nat {:trigger p in s} :: p in s <==> p in pairs && p < g.pairs && !g.diagonal[p]
  {
    set p | p in pairs && p < g.pairs && !g.diagonal[p]
  }

  /** Pairs of the batch whose re-evaluation is farther than the record. */
  ghost function Raised(g: Graph, r: Entries, batch: set<nat>): (s: set<nat>)
    requires Fits(g, r) && batch <= Upto(g.pairs)
    ensures forall p: nat {:trigger p in s} :: p in s <==> p in batch && r[p].distance < Best(g, r, p).distance
  {
    set p | p in batch && r[p].distance < Best(g, r, p).distance
  }

  ghost function Lowered(g: Graph, r: Entries, batch: set<nat>): (s: set<nat>)
    requires Fits(g, r) && batch <= Upto(g.pairs)
    ensures forall p: nat {:trigger p in s} :: p in s <==> p in batch && Best(g, r, p).distance < r[p].distance
  {
    set p | p in batch && Best(g, r, p).distance < r[p].distance
  }

  /** Write every re-evaluation of the batch. */
  ghost function Relaxed(g: Graph, r: Entries, batch: set<nat>): (s: Entries)
    requires Fits(g, r) && batch <= Upto(g.pairs)
    ensures Fits(g, s)
    ensures forall p {:trigger s[p]} | 0 <= p < g.pairs :: s[p] == if p in batch then Best(g, r, p) else r[p]
  {
    seq(g.pairs, p requires 0 <= p < g.pairs => if p in batch then Best(g, r, p) else r[p])
  }

  /** What the first two phases write: a re-evaluation that is farther is not
      believed yet. */
  function Settle(current: Entry, candidate: Entry): Entry {
    if current.distance < candidate.distance then UNREACHABLE else candidate
  }

  /** Write every re-evaluation of the batch, but make a raised pair unreachable. */
  ghost function Settled(g: Graph, r: Entries, batch: set<nat>): (s: Entries)
    requires Fits(g, r) && batch <= Upto(g.pairs)
    ensures Fits(g, s)
    ensures forall p {:trigger s[p]} | 0 <= p < g.pairs ::
              s[p] == if p in batch then Settle(r[p], Best(g, r, p)) else r[p]
  {
    seq(g.pairs, p requires 0 <= p < g.pairs => if p in batch then Settle(r[p], Best(g, r, p)) else r[p])
  }

  datatype Phase = Phase(records: Entries, invalid: set<nat>, lowered: set<nat>, touched: set<nat>)

  ghost predicate PhaseFits(g: Graph, s: Phase) {
    && Fits(g, s.records)
    && s.invalid <= Upto(g.pairs) && s.lowered <= Upto(g.pairs) && s.touched <= Upto(g.pairs)
  }

  /** Phases one and two share this step: settle a batch of pairs. */
  ghost function SettleBatch(g: Graph, s: Phase, batch: set<nat>): (t: Phase)
    requires PhaseFits(g, s) && batch <= Upto(g.pairs)
    ensures PhaseFits(g, t)
  {
    Phase(Settled(g, s.records, batch),
          s.invalid + Raised(g, s.records, batch),
          s.lowered + Lowered(g, s.records, batch),
          s.touched + batch)
  }

  /** Phase one: settle the seeds. */
  ghost function Seed(g: Graph, r: Entries, seeds: set<nat>, touched: set<nat>): (t: Phase)
    requires Fits(g, r) && touched <= Upto(g.pairs)
    ensures PhaseFits(g, t)
  {
    SettleBatch(g, Phase(r, {}, {}, touched), OffDiagonal(g, seeds))
  }

  /** Phase two: settle the sources of newly invalid pairs until none is new. */
  ghost function Invalidate(g: Graph, s: Phase, wave: set<nat>): (t: Phase)
    requires PhaseFits(g, s)
    ensures PhaseFits(g, t)
    decreases Upto(g.pairs) - s.invalid, wave
  {
    if wave == {} then s
    else
      var batch := Sources(g, wave) - s.invalid;
      var raised := Raised(g, s.records, batch);
      assert raised != {} ==> exists p :: p in raised && p in Upto(g.pairs) - s.invalid;
      Invalidate(g, SettleBatch(g, s, batch), raised)
  }

  ghost predicate NoFarther(g: Graph, r: Entries, p: nat, q: nat)
    requires Fits(g, r) && p < g.pairs && q < g.pairs
  {
    Best(g, r, p).distance <= Best(g, r, q).distance
  }

  /** Pairs that have a finite re-evaluation and none nearer among the others. */
  ghost function Nearest(g: Graph, r: Entries, todo: set<nat>): (s: set<nat>)
    requires Fits(g, r) && todo <= Upto(g.pairs)
    ensures s <= todo
    ensures forall p: nat {:trigger p in s} :: p in s <==>
              && p in todo && Best(g, r, p).distance < NONE
              && forall q {:trigger NoFarther(g, r, p, q)} | q in todo :: NoFarther(g, r, p, q)
  {
    set p | p in todo && Best(g, r, p).distance < NONE &&
            forall q {:trigger NoFarther(g, r, p, q)} | q in todo :: NoFarther(g, r, p, q)
  }

  /** Phase three: rebuild the pairs of todo level by level, nearest first. */
  ghost function Rebuild(g: Graph, r: Entries, todo: set<nat>): (s: Entries)
    requires Fits(g, r) && todo <= Upto(g.pairs)
    ensures Fits(g, s)
    decreases todo
  {
    var level := Nearest(g, r, todo);
    if level == {} then r
    else
      assert exists p :: p in level && p in todo;
      Rebuild(g, Relaxed(g, r, level), todo - level)
  }

  /** The pairs of todo that the rebuild reaches. */
  ghost function Rebuilt(g: Graph, r: Entries, todo: set<nat>): (s: set<nat>)
    requires Fits(g, r) && todo <= Upto(g.pairs)
    ensures s <= todo
    decreases todo
  {
    var level := Nearest(g, r, todo);
    if level == {} then {}
    else
      assert exists p :: p in level && p in todo;
      level + Rebuilt(g, Relaxed(g, r, level), todo - level)
  }

  /** The pairs the rebuild works on.  With one flag for both lists, as in the
      program, a pair already queued as lowered is skipped. */
  ghost function Rebuildable(s: Phase): set<nat> { s.invalid - s.lowered }

  // ---------- A batch of over-estimates only lowers ----------

  ghost function Total(r: Entries, k: nat): nat
    requires k <= |r|
  {
    if k == 0 then 0 else r[k - 1].distance + Total(r, k - 1)
  }

  lemma {:induction false} TotalFalls(s: Entries, r: Entries, k: nat)
    requires |s| == |r| && k <= |r|
    requires forall p | 0 <= p < k :: s[p].distance <= r[p].distance
    ensures Total(s, k) <= Total(r, k)
    ensures (exists p :: 0 <= p < k && s[p].distance < r[p].distance) ==> Total(s, k) < Total(r, k)
  {
    if k > 0 {
      TotalFalls(s, r, k - 1);
    }
  }

  /** Relaxing part of an over-estimate lowers records and keeps it one. */
  lemma RelaxedKeepsOverEstimate(g: Graph, r: Entries, batch: set<nat>)
    requires Fits(g, r) && OverEstimate(g, r) && batch <= Upto(g.pairs)
    requires forall p | p in batch :: !g.diagonal[p]
    ensures OverEstimate(g, Relaxed(g, r, batch))
    ensures AtMost(g, Relaxed(g, r, batch), r)
  {
    var s := Relaxed(g, r, batch);
    forall p | 0 <= p < g.pairs && !g.diagonal[p] ensures Best(g, s, p).distance <= s[p].distance {
      BestIsMonotone(g, s, r, p);
    }
  }

  lemma LoweringLowersTotal(g: Graph, r: Entries, batch: set<nat>)
    requires Fits(g, r) && OverEstimate(g, r) && batch <= Upto(g.pairs)
    requires forall p | p in batch :: !g.diagonal[p]
    ensures Total(Relaxed(g, r, batch), g.pairs) <= Total(r, g.pairs)
    ensures Lowered(g, r, batch) != {} ==> Total(Relaxed(g, r, batch), g.pairs) < Total(r, g.pairs)
  {
    RelaxedKeepsOverEstimate(g, r, batch);
    var s := Relaxed(g, r, batch);
    TotalFalls(s, r, g.pairs);
    if Lowered(g, r, batch) != {} {
      var p :| p in Lowered(g, r, batch);
      assert s[p].distance < r[p].distance;
    }
  }

  /** Phase four: relax the sources of lowered pairs until none is lowered. */
  ghost function Propagate(g: Graph, r: Entries, wave: set<nat>): (s: Entries)
    requires Fits(g, r) && OverEstimate(g, r)
    ensures Fits(g, s) && OverEstimate(g, s)
    decreases Total(r, g.pairs), wave
  {
    if wave == {} then r
    else
      var batch := Sources(g, wave);
      RelaxedKeepsOverEstimate(g, r, batch);
      LoweringLowersTotal(g, r, batch);
      Propagate(g, Relaxed(g, r, batch), Lowered(g, r, batch))
  }

  /** The pairs that phase four touches. */
  ghost function PropagateTouches(g: Graph, r: Entries, wave: set<nat>): (s: set<nat>)
    requires Fits(g, r) && OverEstimate(g, r)
    ensures s <= Upto(g.pairs)
    decreases Total(r, g.pairs), wave
  {
    if wave == {} then {}
    else
      var batch := Sources(g, wave);
      RelaxedKeepsOverEstimate(g, r, batch);
      LoweringLowersTotal(g, r, batch);
      batch + PropagateTouches(g, Relaxed(g, r, batch), Lowered(g, r, batch))
  }
}
