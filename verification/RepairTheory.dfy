/** What a whole repair leaves behind: safety of every run, and exactly when the
    outcome is the record array of a full rebuild. */
module RepairTheory {
  import opened Records
  import opened PairGraph
  import opened RepairSpec

  // ---------- Old and new graph ----------

  /** Off the diagonal, only the seeds' arcs differ. */
  ghost predicate ChangedOnlyAt(old_: Graph, g: Graph, seeds: set<nat>) {
    && old_.Valid() && g.Valid()
    && old_.pairs == g.pairs && old_.actions == g.actions && old_.diagonal == g.diagonal
    && forall p | 0 <= p < g.pairs && !g.diagonal[p] && p !in seeds ::
         old_.next[p] == g.next[p] && old_.ends[p] == g.ends[p]
  }

  lemma SameArcsSameBest(old_: Graph, g: Graph, r: Entries, p: nat)
    requires old_.Valid() && Fits(g, r) && old_.pairs == g.pairs && old_.actions == g.actions
    requires p < g.pairs && old_.next[p] == g.next[p] && old_.ends[p] == g.ends[p]
    ensures Best(old_, r, p) == Best(g, r, p)
  {
    var e := Best(old_, r, p);
    BestIsBest(old_, r, p);
    BestIsBest(g, r, p);
    forall a | 0 <= a < g.actions ensures Cost(old_, r, p, a) == Cost(g, r, p, a) {}
    assert Optimal(g, r, p, Upto(g.actions), e.distance) == Optimal(old_, r, p, Upto(g.actions), e.distance);
    BestIsUnique(g, r, p, Upto(g.actions), e, Best(g, r, p));
  }

  // ---------- Phases one and two ----------

  /** Each pair is unreachable by invalidation, or its own re-evaluation, or still
      has a changed successor that a later batch will follow; or it was lost before
      the repair began, and still is. */
  ghost predicate Settling(g: Graph, s: Phase, wave: set<nat>, lost: set<nat>) {
    && PhaseFits(g, s) && Rooted(g, s.records) && wave <= s.invalid
    && (forall p | p in s.invalid || p in s.lowered :: !g.diagonal[p])
    && (forall p | p in s.invalid :: s.records[p] == UNREACHABLE)
    && (forall p {:trigger Best(g, s.records, p)} | 0 <= p < g.pairs && !g.diagonal[p] && p !in s.invalid ::
          && (s.records[p] == Best(g, s.records, p) || (p in lost && s.records[p] == UNREACHABLE)
              || HasArcInto(g, p, wave) || HasArcInto(g, p, s.lowered))
          && (Best(g, s.records, p).distance <= s.records[p].distance || HasArcInto(g, p, wave)))
  }

  lemma SettledSuccessors(g: Graph, r: Entries, batch: set<nat>, p: nat)
    requires Fits(g, r) && batch <= Upto(g.pairs) && p < g.pairs
    requires !HasArcInto(g, p, Raised(g, r, batch))
    ensures Best(g, Settled(g, r, batch), p).distance <= Best(g, r, p).distance
    ensures !HasArcInto(g, p, Lowered(g, r, batch)) ==> Best(g, Settled(g, r, batch), p) == Best(g, r, p)
  {
    var s := Settled(g, r, batch);
    var e := Best(g, r, p);
    forall a | 0 <= a < g.actions ensures s[g.next[p][a]].distance <= r[g.next[p][a]].distance {
      assert g.next[p][a] !in Raised(g, r, batch);
    }
    if e.distance < NONE {
      assert Cost(g, s, p, e.action) <= Cost(g, r, p, e.action);
    }
    if !HasArcInto(g, p, Lowered(g, r, batch)) {
      BestReadsDistances(g, s, r, p);
    }
  }

  lemma HasArcIntoMore(g: Graph, p: nat, few: set<nat>, many: set<nat>)
    requires g.Valid() && p < g.pairs && few <= many && HasArcInto(g, p, few)
    ensures HasArcInto(g, p, many)
  {
  }

  lemma SeedSettles(old_: Graph, g: Graph, r: Entries, seeds: set<nat>, touched: set<nat>)
    requires ChangedOnlyAt(old_, g, seeds) && Truthful(old_, r) && touched <= Upto(g.pairs)
    ensures var s := Seed(g, r, seeds, touched); Settling(g, s, s.invalid, Inconsistent(old_, r))
  {
    var batch, lost := OffDiagonal(g, seeds), Inconsistent(old_, r);
    var s := Seed(g, r, seeds, touched);
    forall p | 0 <= p < g.pairs && !g.diagonal[p] && p !in s.invalid
      ensures s.records[p] == Best(g, s.records, p) || (p in lost && s.records[p] == UNREACHABLE)
           || HasArcInto(g, p, s.invalid) || HasArcInto(g, p, s.lowered)
      ensures Best(g, s.records, p).distance <= s.records[p].distance || HasArcInto(g, p, s.invalid)
    {
      if p !in batch {
        SameArcsSameBest(old_, g, r, p);
      }
      if !HasArcInto(g, p, s.invalid) {
        SettledSuccessors(g, r, batch, p);
      }
    }
  }

  lemma InvalidateStepSettles(g: Graph, s: Phase, wave: set<nat>, lost: set<nat>)
    requires Settling(g, s, wave, lost)
    ensures var batch := Sources(g, wave) - s.invalid;
            Settling(g, SettleBatch(g, s, batch), Raised(g, s.records, batch), lost)
  {
    var r := s.records;
    var batch := Sources(g, wave) - s.invalid;
    var raised := Raised(g, r, batch);
    var t := SettleBatch(g, s, batch);
    forall p | 0 <= p < g.pairs && !g.diagonal[p] && p !in t.invalid
      ensures t.records[p] == Best(g, t.records, p) || (p in lost && t.records[p] == UNREACHABLE)
           || HasArcInto(g, p, raised) || HasArcInto(g, p, t.lowered)
      ensures Best(g, t.records, p).distance <= t.records[p].distance || HasArcInto(g, p, raised)
    {
      if !HasArcInto(g, p, raised) {
        SettledSuccessors(g, r, batch, p);
        if HasArcInto(g, p, s.lowered) {
          HasArcIntoMore(g, p, s.lowered, t.lowered);
        }
        if HasArcInto(g, p, Lowered(g, r, batch)) {
          HasArcIntoMore(g, p, Lowered(g, r, batch), t.lowered);
        }
      }
    }
  }

  lemma {:induction false} InvalidateSettles(g: Graph, s: Phase, wave: set<nat>, lost: set<nat>)
    requires Settling(g, s, wave, lost)
    ensures Settling(g, Invalidate(g, s, wave), {}, lost)
    decreases Upto(g.pairs) - s.invalid, wave
  {
    if wave != {} {
      var batch := Sources(g, wave) - s.invalid;
      var raised := Raised(g, s.records, batch);
      InvalidateStepSettles(g, s, wave, lost);
      assert raised != {} ==> exists p :: p in raised && p in Upto(g.pairs) - s.invalid;
      InvalidateSettles(g, SettleBatch(g, s, batch), raised, lost);
    }
  }

  lemma SettledIsOverEstimate(g: Graph, s: Phase, lost: set<nat>)
    requires Settling(g, s, {}, lost)
    ensures OverEstimate(g, s.records) && Vacant(g, s.records, s.invalid)
  {
  }

  // ---------- Phase three ----------

  ghost predicate Vacant(g: Graph, r: Entries, todo: set<nat>)
    requires Fits(g, r)
  {
    && todo <= Upto(g.pairs)
    && forall p | p in todo :: !g.diagonal[p] && r[p] == UNREACHABLE
  }

  /** The minimum over a non-empty set of finite values is attained. */
  lemma {:induction false} NearestExists(g: Graph, r: Entries, todo: set<nat>, p: nat)
    requires Fits(g, r) && todo <= Upto(g.pairs) && p in todo && Best(g, r, p).distance < NONE
    ensures Nearest(g, r, todo) != {}
    decreases Best(g, r, p).distance
  {
    if q :| q in todo && !NoFarther(g, r, p, q) {
      NearestExists(g, r, todo, q);
    } else {
      assert p in Nearest(g, r, todo);
    }
  }

  /** A rebuild of todo that ends in s has reached exactly the pairs done: it writes
      nothing else, leaves unreachable only pairs without a finite re-evaluation,
      and keeps an over-estimate one. */
  ghost predicate RebuildLeaves(g: Graph, r: Entries, todo: set<nat>, s: Entries, done: set<nat>)
    requires Fits(g, r) && Fits(g, s)
  {
    && OverEstimate(g, s) && AtMost(g, s, r) && done <= todo <= Upto(g.pairs)
    && (forall p | 0 <= p < g.pairs && p !in done :: s[p] == r[p])
    && (forall p | p in done :: s[p].distance < NONE)
    && (forall p {:trigger Best(g, s, p)} | p in done :: s[p] == Best(g, s, p) || HasArcInto(g, p, done))
    && (forall p {:trigger Best(g, s, p)} | p in todo - done :: Best(g, s, p) == UNREACHABLE)
  }

  lemma UntouchedSuccessors(g: Graph, r: Entries, s: Entries, done: set<nat>, p: nat)
    requires Fits(g, r) && Fits(g, s) && p < g.pairs
    requires forall q | 0 <= q < g.pairs && q !in done :: s[q] == r[q]
    requires !HasArcInto(g, p, done)
    ensures forall a | 0 <= a < g.actions :: g.next[p][a] !in done && s[g.next[p][a]] == r[g.next[p][a]]
    ensures Best(g, s, p) == Best(g, r, p)
  {
    forall a | 0 <= a < g.actions ensures g.next[p][a] !in done {}
    BestReadsDistances(g, s, r, p);
  }

  lemma RebuildStep(g: Graph, r: Entries, todo: set<nat>, s: Entries, inner: set<nat>)
    requires Fits(g, r) && OverEstimate(g, r) && Vacant(g, r, todo) && Fits(g, s)
    requires var level := Nearest(g, r, todo); RebuildLeaves(g, Relaxed(g, r, level), todo - level, s, inner)
    ensures RebuildLeaves(g, r, todo, s, Nearest(g, r, todo) + inner)
  {
    var level := Nearest(g, r, todo);
    var done := level + inner;
    RelaxedKeepsOverEstimate(g, r, level);
    forall p | p in done ensures s[p] == Best(g, s, p) || HasArcInto(g, p, done) {
      if HasArcInto(g, p, inner) {
        HasArcIntoMore(g, p, inner, done);
      } else if p in level && !HasArcInto(g, p, done) {
        UntouchedSuccessors(g, r, s, done, p);
      }
    }
  }

  lemma {:induction false} RebuildOutcome(g: Graph, r: Entries, todo: set<nat>)
    requires Fits(g, r) && OverEstimate(g, r) && Vacant(g, r, todo)
    ensures RebuildLeaves(g, r, todo, Rebuild(g, r, todo), Rebuilt(g, r, todo))
    decreases todo
  {
    var level := Nearest(g, r, todo);
    if level == {} {
      forall p | p in todo ensures Best(g, r, p).distance == NONE {
        if Best(g, r, p).distance < NONE {
          NearestExists(g, r, todo, p);
        }
      }
    } else {
      assert exists p :: p in level && p in todo;
      var mid := Relaxed(g, r, level);
      RelaxedKeepsOverEstimate(g, r, level);
      RebuildOutcome(g, mid, todo - level);
      RebuildStep(g, r, todo, Rebuild(g, mid, todo - level), Rebuilt(g, mid, todo - level));
    }
  }

  // ---------- Phase four ----------

  /** An unreachable pair that the rebuild did not work on and no batch has looked at
      since: none of its successors was queued at the start or has moved. */
  ghost predicate Asleep(g: Graph, s: Phase, todo: set<nat>, r: Entries, p: nat)
    requires PhaseFits(g, s) && Fits(g, r) && p < g.pairs
  {
    && p !in todo && s.records[p] == r[p] == UNREACHABLE
    && forall a | 0 <= a < g.actions ::
         && g.next[p][a] !in s.lowered
         && r[g.next[p][a]].distance == s.records[g.next[p][a]].distance
  }

  ghost predicate Pending(g: Graph, s: Phase, todo: set<nat>, r: Entries, wave: set<nat>)
    requires PhaseFits(g, s) && Fits(g, r)
  {
    forall p {:trigger Best(g, r, p)} | 0 <= p < g.pairs && !g.diagonal[p] ::
      r[p] == Best(g, r, p) || HasArcInto(g, p, wave) || Asleep(g, s, todo, r, p)
  }

  lemma RelaxedSuccessors(g: Graph, r: Entries, batch: set<nat>, p: nat)
    requires Fits(g, r) && OverEstimate(g, r) && batch <= Upto(g.pairs) && p < g.pairs
    requires forall q | q in batch :: !g.diagonal[q]
    requires !HasArcInto(g, p, Lowered(g, r, batch))
    ensures forall a | 0 <= a < g.actions ::
              Relaxed(g, r, batch)[g.next[p][a]].distance == r[g.next[p][a]].distance
    ensures Best(g, Relaxed(g, r, batch), p) == Best(g, r, p)
  {
    forall a | 0 <= a < g.actions
      ensures Relaxed(g, r, batch)[g.next[p][a]].distance == r[g.next[p][a]].distance
    {
      assert g.next[p][a] !in Lowered(g, r, batch);
    }
    BestReadsDistances(g, Relaxed(g, r, batch), r, p);
  }

  lemma {:induction false} PropagateSettles(g: Graph, s: Phase, todo: set<nat>, r: Entries, wave: set<nat>)
    requires PhaseFits(g, s) && Fits(g, r) && OverEstimate(g, r) && Pending(g, s, todo, r, wave)
    ensures Pending(g, s, todo, Propagate(g, r, wave), {})
    decreases Total(r, g.pairs), wave
  {
    if wave != {} {
      var batch := Sources(g, wave);
      var lowered := Lowered(g, r, batch);
      var t := Relaxed(g, r, batch);
      RelaxedKeepsOverEstimate(g, r, batch);
      LoweringLowersTotal(g, r, batch);
      forall p | 0 <= p < g.pairs && !g.diagonal[p]
        ensures t[p] == Best(g, t, p) || HasArcInto(g, p, lowered) || Asleep(g, s, todo, t, p)
      {
        if !HasArcInto(g, p, lowered) {
          RelaxedSuccessors(g, r, batch, p);
        }
      }
      PropagateSettles(g, s, todo, t, lowered);
    }
  }

  // ---------- The whole repair ----------

  /** Records after phases three and four, when the rebuild works on todo. */
  ghost function FinishWith(g: Graph, s: Phase, todo: set<nat>): (r: Entries)
    requires PhaseFits(g, s) && OverEstimate(g, s.records) && Vacant(g, s.records, todo)
    ensures Fits(g, r) && OverEstimate(g, r)
  {
    RebuildOutcome(g, s.records, todo);
    Propagate(g, Rebuild(g, s.records, todo), s.lowered + Rebuilt(g, s.records, todo))
  }

  lemma RebuildPends(g: Graph, s: Phase, todo: set<nat>, lost: set<nat>, r: Entries, done: set<nat>, p: nat)
    requires Settling(g, s, {}, lost) && Rebuildable(s) <= todo <= s.invalid
    requires Fits(g, r) && RebuildLeaves(g, s.records, todo, r, done)
    requires p < g.pairs && !g.diagonal[p]
    ensures r[p] == Best(g, r, p) || HasArcInto(g, p, s.lowered + done) || Asleep(g, s, todo, r, p)
  {
    if HasArcInto(g, p, s.lowered) {
      HasArcIntoMore(g, p, s.lowered, s.lowered + done);
    } else if HasArcInto(g, p, done) {
      HasArcIntoMore(g, p, done, s.lowered + done);
    } else {
      UntouchedSuccessors(g, s.records, r, done, p);
      assert forall a | 0 <= a < g.actions :: g.next[p][a] !in s.lowered;
      if p !in s.invalid {
        assert Best(g, s.records, p) == Best(g, r, p);
      }
    }
  }

  lemma FinishPends(g: Graph, s: Phase, todo: set<nat>, lost: set<nat>)
    requires Settling(g, s, {}, lost) && Rebuildable(s) <= todo <= s.invalid
    ensures OverEstimate(g, s.records) && Vacant(g, s.records, todo)
    ensures Pending(g, s, todo, FinishWith(g, s, todo), {})
  {
    SettledIsOverEstimate(g, s, lost);
    RebuildOutcome(g, s.records, todo);
    var r, done := Rebuild(g, s.records, todo), Rebuilt(g, s.records, todo);
    forall p | 0 <= p < g.pairs && !g.diagonal[p]
      ensures r[p] == Best(g, r, p) || HasArcInto(g, p, s.lowered + done) || Asleep(g, s, todo, r, p)
    {
      RebuildPends(g, s, todo, lost, r, done, p);
    }
    PropagateSettles(g, s, todo, r, s.lowered + done);
  }

  /** What sleeps to the end was skipped by the rebuild, or was lost before the repair. */
  lemma AsleepWasSkipped(g: Graph, s: Phase, todo: set<nat>, lost: set<nat>, r: Entries, p: nat)
    requires Settling(g, s, {}, lost) && Rebuildable(s) <= todo && Fits(g, r)
    requires p < g.pairs && !g.diagonal[p] && Asleep(g, s, todo, r, p)
    ensures r[p] == Best(g, r, p) || p in lost || p in s.invalid * s.lowered - todo
  {
    BestReadsDistances(g, s.records, r, p);
  }

  /** All that a run of phases three and four needs to start from. */
  ghost predicate Finishable(g: Graph, s: Phase) {
    PhaseFits(g, s) && OverEstimate(g, s.records) && Vacant(g, s.records, s.invalid)
  }

  /** Records after phases three and four of the program: the rebuild skips every
      invalid pair that is also queued as lowered. */
  ghost function Finish(g: Graph, s: Phase): (r: Entries)
    requires Finishable(g, s)
    ensures Fits(g, r) && OverEstimate(g, r)
  {
    FinishWith(g, s, Rebuildable(s))
  }

  /** Whatever was skipped or lost, the records are truthful again. */
  lemma FinishIsTruthful(g: Graph, s: Phase, todo: set<nat>, lost: set<nat>)
    requires Settling(g, s, {}, lost) && Rebuildable(s) <= todo <= s.invalid
    ensures OverEstimate(g, s.records) && Vacant(g, s.records, todo)
    ensures Truthful(g, FinishWith(g, s, todo))
  {
    FinishPends(g, s, todo, lost);
  }
}
