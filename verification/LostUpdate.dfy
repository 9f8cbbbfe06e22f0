/** The update that loses a pair is one that update_cells accepts and reports done. */
module LostUpdate {
  import opened Records
  import opened PairGraph
  import opened RepairSpec
  import opened RepairBounds
  import opened RepairTheorems
  import opened RepairSteps
  import opened Pairs
  import opened Snapshot
  import opened RepairRun
  import opened Changes
  import opened CellUpdate
  import opened LostPair

  const CHANGE: seq<Change> := [Change(1, 1, 1, 0)]

  const SEED_LIST: seq<nat> := [1, 4, 5, 6]

  /** The one-cell change and its seeds. */
  lemma SeedsOfChange()
    ensures AreSeeds(4, CHANGE, SEED_LIST) && Listed(SEED_LIST) == SEEDS
    ensures BEFORE.Valid() && AllFit(BEFORE, CHANGE) && Applied(BEFORE, CHANGE) == AFTER
  {
    OneCell();
    assert CHANGE[..0] == [];
    assert Applied(BEFORE, []) == BEFORE;
    forall p: nat ensures p in SEED_LIST <==> p < PairCount(4) && HasChanged(4, CHANGE, p) {
      PairsOfFour(0);
      if p < 10 {
        PairsOfFour(p);
        assert CHANGE[0].state == 1;
        assert forall s :: ChangesRow(CHANGE, s) <==> s == 1;
      }
    }
    assert forall p: nat :: p in Listed(SEED_LIST) <==> p in SEEDS;
  }

  /** The first two rounds of the repair already touch pairs 1, 2, 5 and 6. */
  lemma FourAreTouched(g: Graph, r: Entries)
    requires Spelled(g, ROWS_AFTER) && PairGraph.Fits(g, r) && Distances(r, [0, 1, 2, 3, 0, 3, 2, 0, 1, 0])
    ensures {1, 2, 5, 6} <= Invalidated(g, r, SEEDS, {}).touched
  {
    var s0 := Seed(g, r, SEEDS, {});
    SeedsSettle(g, r);
    RoundTouches(g, s0, {1});
    assert 2 in Sources(g, {1}) by {
      SourcesOf(g, {1});
    }
    assert s0.touched == OffDiagonal(g, SEEDS);
  }

  lemma UpdateStarts(before: seq<PairRecord>)
    requires ExactFor(BEFORE, before) && |before| == PairCount(4)
    ensures Startable(BEFORE, AFTER, before, SEED_LIST) && Listed(SEED_LIST) == SEEDS
  {
    SeedsOfChange();
    PairsOfFour(0);
    ExactForIsTruthful(BEFORE, before);
    forall objective: Objective
      ensures Repairable(PairGraphOf(BEFORE, objective), PairGraphOf(AFTER, objective), Part(before, objective),
              Listed(SEED_LIST), {})
    {
      SeedsAreComplete(BEFORE, CHANGE, SEED_LIST, objective);
      assert Truthful(PairGraphOf(BEFORE, objective), Part(before, objective));
    }
  }

  lemma UpdateLoses(before: seq<PairRecord>)
    requires ExactFor(BEFORE, before) && Startable(BEFORE, AFTER, before, SEED_LIST) && Listed(SEED_LIST) == SEEDS
    ensures Loses(BEFORE, AFTER, before, SEED_LIST, Merge)
  {
    var g, r := PairGraphOf(AFTER, Merge), Part(before, Merge);
    ExactExists(g);
    var full :| Consistent(g, full);
    RepairLosesAPair(r, full);
  }

  lemma MergeTouchesFour(before: seq<PairRecord>)
    requires Consistent(PairGraphOf(BEFORE, Merge), Part(before, Merge))
    ensures PairGraph.Fits(PairGraphOf(AFTER, Merge), Part(before, Merge))
    ensures {1, 2, 5, 6} <= Invalidated(PairGraphOf(AFTER, Merge), Part(before, Merge), SEEDS, {}).touched
  {
    var o, g, r := PairGraphOf(BEFORE, Merge), PairGraphOf(AFTER, Merge), Part(before, Merge);
    BeforeIsSpelled();
    AfterIsSpelled();
    ExactBefore(o, r);
    FourAreTouched(g, r);
  }

  lemma FourIsMore(few: set<nat>, many: set<nat>)
    requires {1, 2, 5, 6} <= few <= many
    ensures |many| > 3
  {
    SubsetSize({1, 2, 5, 6}, many);
  }

  lemma UpdateTouchesFour(before: seq<PairRecord>)
    requires ExactFor(BEFORE, before) && Startable(BEFORE, AFTER, before, SEED_LIST) && Listed(SEED_LIST) == SEEDS
    ensures 3 < |BothTouched(BEFORE, AFTER, before, SEED_LIST)|
  {
    MergeTouchesFour(before);
    InvalidatedIsTouched(BEFORE, AFTER, before, SEED_LIST);
    FourIsMore(Invalidated(PairGraphOf(AFTER, Merge), Part(before, Merge), SEEDS, {}).touched,
               BothTouched(BEFORE, AFTER, before, SEED_LIST));
  }

  /** From exact records of both objectives, update_cells with this change and an
      explicit budget of ten repairs, reports success and loses the pair.  The automatic
      budget is three here, too small, and would fall back to a full build. */
  lemma LossSucceeds(before: seq<PairRecord>)
    requires ExactFor(BEFORE, before) && |before| == 10
    ensures Startable(BEFORE, AFTER, before, SEED_LIST)
    ensures !FallsBack(BEFORE, AFTER, before, SEED_LIST, 10) && FallsBack(BEFORE, AFTER, before, SEED_LIST, 0)
    ensures Loses(BEFORE, AFTER, before, SEED_LIST, Merge)
  {
    PairsOfFour(0);
    UpdateStarts(before);
    UpdateTouchesFour(before);
    AllPairsSuffice(BEFORE, AFTER, before, SEED_LIST, 10);
    ManyTouchedFallBack(BEFORE, AFTER, before, SEED_LIST, 0);
    UpdateLoses(before);
  }
}
