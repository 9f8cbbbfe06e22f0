/** The main results about a repair that starts from exact records, or from the truthful
    ones that an earlier repair has left. */
module RepairTheorems {
  import opened Records
  import opened PairGraph
  import opened RepairSpec
  import opened RepairTheory
  import opened RepairBounds
  import opened Witnesses

  /** The state in which the rebuild starts: after the seeds and all invalidations. */
  ghost function Invalidated(g: Graph, r: Entries, seeds: set<nat>, touched: set<nat>): (s: Phase)
    requires Fits(g, r) && touched <= Upto(g.pairs)
    ensures PhaseFits(g, s)
  {
    var s := Seed(g, r, seeds, touched);
    Invalidate(g, s, s.invalid)
  }

  lemma InvalidatedIsReady(old_: Graph, g: Graph, r: Entries, seeds: set<nat>, touched: set<nat>)
    requires ChangedOnlyAt(old_, g, seeds) && Truthful(old_, r) && touched <= Upto(g.pairs)
    ensures var s := Invalidated(g, r, seeds, touched);
            && Settling(g, s, {}, Inconsistent(old_, r)) && Finishable(g, s) && Dense(s.records, 2 * g.pairs + 1)
  {
    var s, lost := Seed(g, r, seeds, touched), Inconsistent(old_, r);
    SeedSettles(old_, g, r, seeds, touched);
    InvalidateSettles(g, s, s.invalid, lost);
    SettledIsOverEstimate(g, Invalidate(g, s, s.invalid), lost);
    TruthfulIsBounded(old_, r);
    SeedIsBounded(g, r, seeds, touched);
    InvalidateIsBounded(g, s, s.invalid);
    InvalidatedIsDense(g, Invalidate(g, s, s.invalid));
  }

  lemma FinishIsAddable(g: Graph, s: Phase, todo: set<nat>)
    requires PhaseFits(g, s) && OverEstimate(g, s.records) && Vacant(g, s.records, todo)
    requires Dense(s.records, 2 * g.pairs + 1) && Allocatable(g)
    ensures Addable(FinishWith(g, s, todo))
  {
    RebuildOutcome(g, s.records, todo);
    RebuildKeepsDense(g, s.records, todo, 2 * g.pairs + 1);
    PropagateKeepsDense(g, Rebuild(g, s.records, todo), s.lowered + Rebuilt(g, s.records, todo), 2 * g.pairs + 1);
    DenseIsAddable(g, FinishWith(g, s, todo));
  }

  // ---------- When the skipped pairs are not picked up again ----------

  /** T is a set of unreachable pairs that stay so for good.  Each has a finite
      re-evaluation, but the rebuild does not work on it; none of its successors is
      queued, and no word that avoids T improves one of them. */
  ghost predicate Sealed(g: Graph, s: Phase, T: set<nat>)
    requires PhaseFits(g, s)
  {
    && T != {} && T <= Upto(g.pairs)
    && (forall p | p in T :: !g.diagonal[p] && p !in Rebuildable(s) && s.records[p] == UNREACHABLE)
    && (forall p | p in T :: Best(g, s.records, p).distance < NONE)
    && (forall p, a | p in T && 0 <= a < g.actions :: g.next[p][a] !in s.lowered)
    && (forall p, a, w | p in T && 0 <= a < g.actions && SolvesAvoiding(g, T, g.next[p][a], w) ::
          s.records[g.next[p][a]].distance <= |w|)
  }

  /** If nothing was lost before, the pairs of a sealed set were queued as lowered and
      then invalidated, and the rebuild skips them because they are queued. */
  lemma SealedWasSkipped(g: Graph, s: Phase, T: set<nat>)
    requires Settling(g, s, {}, {}) && Sealed(g, s, T)
    ensures T <= s.invalid * s.lowered
  {
    forall p | p in T ensures p in s.invalid {
      assert Best(g, s.records, p).distance < NONE;
    }
  }

  /** What keeps a sealed set out of every batch. */
  ghost predicate StillSealed(g: Graph, s: Phase, T: set<nat>, r: Entries, wave: set<nat>)
    requires PhaseFits(g, s) && Fits(g, r)
  {
    && OverEstimate(g, r) && AtMost(g, r, s.records)
    && (forall p | p in T && p < g.pairs :: r[p].distance == NONE)
    && (forall x | x in wave :: x in s.lowered || (x < g.pairs && r[x].distance < s.records[x].distance))
  }

  lemma SealedIsNoSource(g: Graph, s: Phase, T: set<nat>, r: Entries, wave: set<nat>, p: nat)
    requires PhaseFits(g, s) && Fits(g, r) && Sealed(g, s, T) && StillSealed(g, s, T, r, wave) && p in T
    ensures !HasArcInto(g, p, wave)
  {
    forall a | 0 <= a < g.actions ensures g.next[p][a] !in wave {
      var x := g.next[p][a];
      if x in wave {
        var w := OverEstimateHasWord(g, r, T, x);
      }
    }
  }

  lemma {:induction false} SealedStays(g: Graph, s: Phase, T: set<nat>, r: Entries, wave: set<nat>)
    requires PhaseFits(g, s) && Fits(g, r) && Sealed(g, s, T) && StillSealed(g, s, T, r, wave)
    ensures StillSealed(g, s, T, Propagate(g, r, wave), {})
    decreases Total(r, g.pairs), wave
  {
    if wave != {} {
      var batch := Sources(g, wave);
      RelaxedKeepsOverEstimate(g, r, batch);
      LoweringLowersTotal(g, r, batch);
      forall p | p in T ensures Relaxed(g, r, batch)[p].distance == NONE {
        SealedIsNoSource(g, s, T, r, wave, p);
      }
      SealedStays(g, s, T, Relaxed(g, r, batch), Lowered(g, r, batch));
    }
  }

  lemma SealedIsInexact(g: Graph, s: Phase, T: set<nat>)
    requires Finishable(g, s) && Sealed(g, s, T)
    ensures !Consistent(g, Finish(g, s))
  {
    var todo := Rebuildable(s);
    RebuildOutcome(g, s.records, todo);
    SealedStays(g, s, T, Rebuild(g, s.records, todo), s.lowered + Rebuilt(g, s.records, todo));
    var r := Finish(g, s);
    var p :| p in T;
    BestIsMonotone(g, r, s.records, p);
    assert r[p].distance == NONE && Best(g, r, p).distance < NONE;
  }

  /** The pairs left inconsistent by a finished run form a sealed set. */
  lemma AsleepIsSealed(g: Graph, s: Phase, r: Entries)
    requires PhaseFits(g, s) && Fits(g, r) && OverEstimate(g, r) && Addable(r)
    requires Pending(g, s, Rebuildable(s), r, {}) && Inconsistent(g, r) != {}
    ensures Sealed(g, s, Inconsistent(g, r))
  {
    var T := Inconsistent(g, r);
    forall p | p in T ensures Asleep(g, s, Rebuildable(s), r, p) && Best(g, s.records, p).distance < NONE {
      assert Asleep(g, s, Rebuildable(s), r, p);
      BestReadsDistances(g, s.records, r, p);
    }
    forall p, a, w | p in T && 0 <= a < g.actions && SolvesAvoiding(g, T, g.next[p][a], w)
      ensures s.records[g.next[p][a]].distance <= |w|
    {
      assert Asleep(g, s, Rebuildable(s), r, p);
      UnderEstimateBoundsWords(g, r, T, g.next[p][a], w);
    }
  }

  /** Phases three and four leave exact records if and only if no set of unreachable
      pairs is sealed off. */
  lemma FinishIsExactIff(g: Graph, s: Phase, lost: set<nat>)
    requires Settling(g, s, {}, lost) && Dense(s.records, 2 * g.pairs + 1) && Allocatable(g)
    ensures Finishable(g, s) && (Consistent(g, Finish(g, s)) <==> !exists T :: Sealed(g, s, T))
  {
    SettledIsOverEstimate(g, s, lost);
    if T :| Sealed(g, s, T) {
      SealedIsInexact(g, s, T);
    }
    if !Consistent(g, Finish(g, s)) {
      FinishPends(g, s, Rebuildable(s), lost);
      FinishIsTruthful(g, s, Rebuildable(s), lost);
      FinishIsAddable(g, s, Rebuildable(s));
      ConsistentIsTruthful(g, Finish(g, s));
      AsleepIsSealed(g, s, Finish(g, s));
    }
  }

  // ---------- The whole repair ----------

  /** Records after the four phases, started from truthful records of the old graph. */
  ghost function Repaired(old_: Graph, g: Graph, r: Entries, seeds: set<nat>, touched: set<nat>): (s: Entries)
    requires ChangedOnlyAt(old_, g, seeds) && Truthful(old_, r) && touched <= Upto(g.pairs)
    ensures Fits(g, s) && OverEstimate(g, s)
  {
    InvalidatedIsReady(old_, g, r, seeds, touched);
    Finish(g, Invalidated(g, r, seeds, touched))
  }

  /** Repair equals rebuild, field by field, if and only if no set of unreachable pairs
      is sealed off when the rebuild starts. */
  lemma RepairEqualsRebuildIff(old_: Graph, g: Graph, r: Entries, seeds: set<nat>, touched: set<nat>, full: Entries)
    requires ChangedOnlyAt(old_, g, seeds) && Truthful(old_, r) && touched <= Upto(g.pairs)
    requires Consistent(g, full) && Allocatable(g)
    ensures Repaired(old_, g, r, seeds, touched) == full
            <==> !exists T :: Sealed(g, Invalidated(g, r, seeds, touched), T)
  {
    var s := Invalidated(g, r, seeds, touched);
    InvalidatedIsReady(old_, g, r, seeds, touched);
    FinishIsExactIff(g, s, Inconsistent(old_, r));
    FinishIsAddable(g, s, Rebuildable(s));
    ExactIsBounded(g, full);
    if Consistent(g, Finish(g, s)) {
      ConsistentIsUnique(g, full, Finish(g, s));
    }
  }

  /** From exact records it does whenever no pair is on both lists. */
  lemma RepairEqualsRebuildIfDisjoint(old_: Graph, g: Graph, r: Entries, seeds: set<nat>, touched: set<nat>,
                                      full: Entries)
    requires ChangedOnlyAt(old_, g, seeds) && Consistent(old_, r) && touched <= Upto(g.pairs)
    requires Consistent(g, full) && Allocatable(g)
    requires var s := Invalidated(g, r, seeds, touched); s.invalid !! s.lowered
    ensures Truthful(old_, r) && Repaired(old_, g, r, seeds, touched) == full
  {
    ConsistentIsTruthful(old_, r);
    RepairEqualsRebuildIff(old_, g, r, seeds, touched, full);
    InvalidatedIsReady(old_, g, r, seeds, touched);
    if T :| Sealed(g, Invalidated(g, r, seeds, touched), T) {
      SealedWasSkipped(g, Invalidated(g, r, seeds, touched), T);
    }
  }

  /** Settling raises some records; without a lowered one the others stay low. */
  lemma RaisingKeepsUnderEstimate(g: Graph, r: Entries, batch: set<nat>, invalid: set<nat>)
    requires Fits(g, r) && UnderEstimate(g, r, invalid + batch) && batch <= Upto(g.pairs)
    requires forall p | p in batch :: !g.diagonal[p]
    requires Lowered(g, r, batch) == {}
    ensures UnderEstimate(g, Settled(g, r, batch), invalid + Raised(g, r, batch))
  {
    var s := Settled(g, r, batch);
    forall p | 0 <= p < g.pairs ensures r[p].distance <= s[p].distance {
      assert p !in Lowered(g, r, batch);
    }
    forall p | 0 <= p < g.pairs && !g.diagonal[p] && p !in invalid + Raised(g, r, batch)
      ensures s[p].distance <= Best(g, s, p).distance
    {
      BestIsMonotone(g, r, s, p);
    }
  }

  lemma {:induction false} NothingLowered(g: Graph, s: Phase, wave: set<nat>)
    requires PhaseFits(g, s) && s.lowered == {} && UnderEstimate(g, s.records, s.invalid)
    ensures Invalidate(g, s, wave).lowered == {}
    decreases Upto(g.pairs) - s.invalid, wave
  {
    if wave != {} {
      var batch := Sources(g, wave) - s.invalid;
      var raised := Raised(g, s.records, batch);
      assert raised != {} ==> exists p :: p in raised && p in Upto(g.pairs) - s.invalid;
      forall p | p in batch ensures p !in Lowered(g, s.records, batch) {
        assert s.records[p].distance <= Best(g, s.records, p).distance;
      }
      RaisingKeepsUnderEstimate(g, s.records, batch, s.invalid);
      NothingLowered(g, SettleBatch(g, s, batch), raised);
    }
  }

  /** A check on the seeds alone: if re-evaluating them raises none, or lowers none,
      then the repair ends in the records of a full rebuild. */
  lemma OneSidedSeedsAreExact(old_: Graph, g: Graph, r: Entries, seeds: set<nat>, touched: set<nat>, full: Entries)
    requires ChangedOnlyAt(old_, g, seeds) && Consistent(old_, r) && touched <= Upto(g.pairs)
    requires Consistent(g, full) && Allocatable(g)
    requires Raised(g, r, OffDiagonal(g, seeds)) == {} || Lowered(g, r, OffDiagonal(g, seeds)) == {}
    ensures Truthful(old_, r) && Repaired(old_, g, r, seeds, touched) == full
  {
    var batch := OffDiagonal(g, seeds);
    var s := Seed(g, r, seeds, touched);
    if Lowered(g, r, batch) == {} {
      forall p | 0 <= p < g.pairs && !g.diagonal[p] && p !in batch ensures r[p] == Best(g, r, p) {
        SameArcsSameBest(old_, g, r, p);
      }
      RaisingKeepsUnderEstimate(g, r, batch, {});
      NothingLowered(g, s, s.invalid);
    }
    RepairEqualsRebuildIfDisjoint(old_, g, r, seeds, touched, full);
  }

  /** With a frontier flag of its own, the rebuild would skip no pair, and the
      repair would end in the records of a full rebuild every time. */
  lemma SeparateFrontierFlagIsExact(old_: Graph, g: Graph, r: Entries, seeds: set<nat>, touched: set<nat>,
                                    full: Entries)
    requires ChangedOnlyAt(old_, g, seeds) && Consistent(old_, r) && touched <= Upto(g.pairs)
    requires Consistent(g, full) && Allocatable(g)
    ensures var s := Invalidated(g, r, seeds, touched);
            && OverEstimate(g, s.records) && Vacant(g, s.records, s.invalid)
            && FinishWith(g, s, s.invalid) == full
  {
    ConsistentIsTruthful(old_, r);
    var s := Invalidated(g, r, seeds, touched);
    InvalidatedIsReady(old_, g, r, seeds, touched);
    NothingSleeps(g, s);
    FinishIsAddable(g, s, s.invalid);
    ExactIsBounded(g, full);
    ConsistentIsUnique(g, full, FinishWith(g, s, s.invalid));
  }

  /** If nothing was lost and the rebuild skips nothing, the records end exact. */
  lemma NothingSleeps(g: Graph, s: Phase)
    requires Settling(g, s, {}, {})
    ensures OverEstimate(g, s.records) && Vacant(g, s.records, s.invalid)
    ensures Consistent(g, FinishWith(g, s, s.invalid))
  {
    FinishPends(g, s, s.invalid, {});
    var r := FinishWith(g, s, s.invalid);
    forall p | 0 <= p < g.pairs && !g.diagonal[p] ensures r[p] == Best(g, r, p) {
      if Asleep(g, s, s.invalid, r, p) {
        AsleepWasSkipped(g, s, s.invalid, {}, r, p);
      }
    }
  }

  // ---------- What holds of every run ----------

  /** From truthful records, exact or not, and whatever was skipped or lost: the records
      left are truthful again, none of them stops the program's checks, and the witnesses
      that a finite record names form a chain of exactly its length in the new graph. */
  lemma FiniteRecordsAreWitnessed(old_: Graph, g: Graph, r: Entries, seeds: set<nat>, touched: set<nat>)
    requires ChangedOnlyAt(old_, g, seeds) && Truthful(old_, r) && touched <= Upto(g.pairs) && Allocatable(g)
    ensures var s := Repaired(old_, g, r, seeds, touched);
            && Truthful(g, s) && Addable(s) && AllFollowable(g, s)
            && forall p {:trigger Witness(g, s, p)} | 0 <= p < g.pairs && s[p].distance < NONE ::
                 Solves(g, p, Witness(g, s, p)) && |Witness(g, s, p)| == s[p].distance
  {
    var u, s := Invalidated(g, r, seeds, touched), Repaired(old_, g, r, seeds, touched);
    InvalidatedIsReady(old_, g, r, seeds, touched);
    FinishIsTruthful(g, u, Rebuildable(u), Inconsistent(old_, r));
    FinishIsAddable(g, u, Rebuildable(u));
    TruthfulIsFollowable(g, s);
    forall p | 0 <= p < g.pairs && s[p].distance < NONE ensures Solves(g, p, Witness(g, s, p)) {
      WitnessSolves(g, s, p);
    }
  }

  /** Rebuilding every off-diagonal pair from nothing makes exact records, so every
      graph has them. */
  lemma ExactExists(g: Graph)
    requires g.Valid()
    ensures exists r :: Consistent(g, r)
  {
    var blank := seq(g.pairs, p requires 0 <= p < g.pairs => if g.diagonal[p] then ROOT else UNREACHABLE);
    var s := Phase(blank, OffDiagonal(g, Upto(g.pairs)), {}, {});
    assert Settling(g, s, {}, {});
    NothingSleeps(g, s);
    assert Consistent(g, FinishWith(g, s, s.invalid));
  }
}
