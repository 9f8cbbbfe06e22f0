/** Updating the cells of a prepared snapshot: repair it, or build it again. */
module CellUpdate {
  import opened Records
  import opened PairGraph
  import opened RepairSpec
  import opened RepairTheory
  import opened RepairBounds
  import opened RepairTheorems
  import opened RepairSteps
  import opened Pairs
  import opened Columns
  import opened Snapshot
  import opened RepairRun
  import opened Oracle
  import opened Changes
  import opened EdgeUpdates

  /** Both objectives' records are those of a full build. */
  ghost predicate ExactFor(m: Automaton, records: seq<PairRecord>) {
    && m.Valid()
    && forall objective: Objective {:trigger Part(records, objective)} ::
         Consistent(PairGraphOf(m, objective), Part(records, objective))
  }

  /** Both objectives' records promise nothing false: what a repair may leave. */
  ghost predicate TruthfulFor(m: Automaton, records: seq<PairRecord>) {
    && m.Valid()
    && forall objective: Objective {:trigger Part(records, objective)} ::
         Truthful(PairGraphOf(m, objective), Part(records, objective))
  }

  lemma ExactForIsTruthful(m: Automaton, records: seq<PairRecord>)
    requires ExactFor(m, records)
    ensures TruthfulFor(m, records)
  {
    forall objective: Objective ensures Truthful(PairGraphOf(m, objective), Part(records, objective)) {
      ConsistentIsTruthful(PairGraphOf(m, objective), Part(records, objective));
    }
  }

  /** sg_pair_snapshot_build */
  method BuildStore(model: Automaton) returns (store: Store)
    requires model.Valid() && PairCount(model.states) <= SIZE_MAX / 8
    ensures fresh(store) && store.Valid() && store.model == model && ExactFor(model, store.records)
  {
    var oracle := Build(model);
    var records: seq<PairRecord> := [];
    for pair := 0 to PairCount(model.states)
      invariant |records| == pair
      invariant forall p | 0 <= p < pair :: records[p] == PairRecord(p, oracle.merge[p], oracle.resolution[p])
    {
      var status, record := oracle.Record(pair);
      records := records + [record];
    }
    store := new Store(model, records);
    assert Part(records, Merge) == oracle.merge;
    assert Part(records, Resolution) == oracle.resolution;
  }

  /** The loop over the changes.  Each one moves its cell, so none is refused. */
  method SetCells(store: Store, changes: seq<Change>)
    requires store.Valid() && Effective(store.model, changes)
    modifies store`model, store`columns
    ensures store.Valid() && store.model == Applied(old(store.model), changes)
  {
    assert changes[..0] == [];
    for k := 0 to |changes|
      invariant store.Valid() && AllFit(old(store.model), changes[..k])
      invariant store.model == Applied(old(store.model), changes[..k])
    {
      var c := changes[k];
      assert changes[..k + 1] == changes[..k] + [c];
      OtherCellsStay(old(store.model), changes[..k], c.state, c.action);
      AppliedAppend(old(store.model), changes[..k], c);
      ghost var next := WithCell(store.model, c.state, c.action, c.target, c.output);
      assert next.delta[c.state][c.action] == c.target && next.eta[c.state][c.action] == c.output;
      var status, moved := store.SetCell(c.state, c.action, c.target, c.output);
      if status != Ok || !moved {
        assert false;
      }
    }
    assert changes[..|changes|] == changes;
  }

  /** A quarter of the pairs, rounded up, unless the caller names a budget. */
  function Budget(requested: int, pairs: nat): (b: nat)
    requires requested >= 0
    ensures requested == 0 ==> 4 * b >= pairs && (pairs > 0 ==> pairs > 4 * (b - 1))
    ensures requested > 0 ==> b == requested
  {
    if requested == 0 then pairs / 4 + (if pairs % 4 != 0 then 1 else 0) else requested
  }

  /** The seeds of some changes are never refused. */
  lemma SeedsAreTaken(n: nat, changes: seq<Change>, seeds: seq<nat>)
    requires AreSeeds(n, changes, seeds) && PairCount(n) <= SIZE_MAX / 8
    requires forall k | 0 <= k < |changes| :: changes[k].state < n
    ensures |seeds| < NONE && Verdict(seeds, PairCount(n)) == Ok
    ensures changes != [] ==> seeds != []
  {
    AscendingIsDistinct(seeds);
    assert forall k | 0 <= k < |seeds| :: seeds[k] in seeds;
    FewDistinct(seeds, PairCount(n));
    if changes != [] {
      var p := PairIndex(n, changes[0].state, changes[0].state);
      StatesOfIndex(n, changes[0].state, changes[0].state);
      assert ChangesRow(changes, changes[0].state);
      assert HasChanged(n, changes, p);
      assert p in seeds;
    }
  }

  lemma ReadyForRepair(store: Store, old_: Automaton, changes: seq<Change>, seeds: seq<nat>)
    requires store.Valid() && AllFit(old_, changes) && store.model == Applied(old_, changes)
    requires TruthfulFor(old_, store.records) && AreSeeds(old_.states, changes, seeds)
    requires PairCount(old_.states) <= SIZE_MAX / 8
    ensures Changed(store, old_, seeds)
  {
    forall objective: Objective
      ensures ChangedOnlyAt(PairGraphOf(old_, objective), PairGraphOf(store.model, objective), Listed(seeds))
      ensures Truthful(PairGraphOf(old_, objective), Part(store.records, objective))
    {
      SeedsAreComplete(old_, changes, seeds, objective);
    }
  }

  /** The records of both objectives after an incremental repair. */
  ghost predicate Incremental(old_: Automaton, m: Automaton, before: seq<PairRecord>, after: seq<PairRecord>,
                              seeds: seq<nat>)
  {
    && Startable(old_, m, before, seeds)
    && Part(after, Merge) == RepairedPart(old_, m, before, seeds, Merge)
    && Part(after, Resolution) == RepairedPart(old_, m, before, seeds, Resolution)
  }

  /** Repair the changed candidate within the budget. */
  method TryRepair(candidate: Store, ghost old_: Automaton, changes: seq<Change>, budget: nat)
    returns (repaired: bool, ghost seeds: seq<nat>)
    requires candidate.Valid() && AllFit(old_, changes) && candidate.model == Applied(old_, changes)
    requires TruthfulFor(old_, candidate.records) && PairCount(old_.states) <= SIZE_MAX / 8
    requires changes != [] && budget > 0
    modifies candidate
    ensures candidate.Valid() && candidate.model == old(candidate.model)
    ensures AreSeeds(old_.states, changes, seeds) && Startable(old_, candidate.model, old(candidate.records), seeds)
    ensures repaired <==> |BothTouched(old_, candidate.model, old(candidate.records), seeds)| <= budget
    ensures repaired ==> Incremental(old_, candidate.model, old(candidate.records), candidate.records, seeds)
  {
    var updates, ids := BuildEdgeUpdates(candidate.model, changes);
    seeds := ids;
    ReadyForRepair(candidate, old_, changes, ids);
    SeedsAreTaken(old_.states, changes, ids);
    var status := RepairStore(candidate, ids, budget, old_);
    if status != Ok && status != ResourceBound {
      assert false;
    }
    repaired := status == Ok;
  }

  /** Whether update_cells builds from nothing: when it is asked to, or when the two
      repairs touch more pairs than the budget allows. */
  ghost predicate FallsBack(old_: Automaton, m: Automaton, before: seq<PairRecord>, seeds: seq<nat>, requested: int)
    requires Startable(old_, m, before, seeds) && requested >= -1
  {
    requested == -1 || |BothTouched(old_, m, before, seeds)| > Budget(requested, |before|)
  }

  /** A budget of all pairs is never too small. */
  lemma AllPairsSuffice(old_: Automaton, m: Automaton, before: seq<PairRecord>, seeds: seq<nat>, requested: nat)
    requires Startable(old_, m, before, seeds) && 0 < PairCount(m.states) <= requested
    ensures !FallsBack(old_, m, before, seeds, requested)
  {
  }

  lemma ManyTouchedFallBack(old_: Automaton, m: Automaton, before: seq<PairRecord>, seeds: seq<nat>, requested: nat)
    requires Startable(old_, m, before, seeds) && |BothTouched(old_, m, before, seeds)| > Budget(requested, |before|)
    ensures FallsBack(old_, m, before, seeds, requested)
  {
  }

  /** The work of update_cells on a prepared snapshot.  It never fails: a repair over
      its budget gives way to a full build.  The prepared snapshot is not written.  It
      need not be exact, only truthful, and the result is truthful again. */
  method UpdateCells(prepared: Store, changes: seq<Change>, requested: int)
    returns (result: Store, rebuilt: bool, ghost seeds: seq<nat>)
    requires prepared.Valid() && TruthfulFor(prepared.model, prepared.records)
    requires PairCount(prepared.model.states) <= SIZE_MAX / 8
    requires Effective(prepared.model, changes) && changes != [] && requested >= -1
    ensures fresh(result) && result.Valid() && result.model == Applied(prepared.model, changes)
    ensures TruthfulFor(result.model, result.records) && (rebuilt ==> ExactFor(result.model, result.records))
    ensures requested == -1 ==> rebuilt
    ensures requested != -1 ==>
              && AreSeeds(prepared.model.states, changes, seeds)
              && Startable(prepared.model, result.model, prepared.records, seeds)
              && (rebuilt <==> FallsBack(prepared.model, result.model, prepared.records, seeds, requested))
    ensures !rebuilt ==>
              && Incremental(prepared.model, result.model, prepared.records, result.records, seeds)
              && |prepared.records| == |result.records|
              && Persisted(prepared.records, result.records, result.changedPairs) == result.records
  {
    seeds := [];
    var candidate := new Store.Clone(prepared);
    SetCells(candidate, changes);
    var repaired := false;
    if requested != -1 {
      PairsExist(prepared.model.states);
      repaired, seeds := TryRepair(candidate, prepared.model, changes, Budget(requested, |candidate.records|));
    }
    if repaired {
      candidate.ChangedPairsSuffice();
      IncrementalIsTruthful(prepared.model, candidate.model, prepared.records, candidate.records, seeds);
      return candidate, false, seeds;
    }
    result := BuildStore(candidate.model);
    ExactForIsTruthful(result.model, result.records);
    rebuilt := true;
  }

  lemma PairsExist(n: nat)
    requires n > 0
    ensures PairCount(n) > 0
  {
    StatesOfIndex(n, 0, 0);
  }

  /** An incremental update leaves records that promise nothing false, whether it loses
      pairs or not. */
  lemma IncrementalIsTruthful(old_: Automaton, m: Automaton, before: seq<PairRecord>, after: seq<PairRecord>,
                              seeds: seq<nat>)
    requires Incremental(old_, m, before, after, seeds)
    ensures TruthfulFor(m, after)
  {
    forall objective: Objective ensures Truthful(PairGraphOf(m, objective), Part(after, objective)) {
      PartIsTruthful(old_, m, before, after, seeds, objective);
    }
  }

  lemma PartIsTruthful(old_: Automaton, m: Automaton, before: seq<PairRecord>, after: seq<PairRecord>,
                       seeds: seq<nat>, objective: Objective)
    requires Incremental(old_, m, before, after, seeds)
    ensures Truthful(PairGraphOf(m, objective), Part(after, objective))
  {
    var o, g := PairGraphOf(old_, objective), PairGraphOf(m, objective);
    var touched := if objective == Merge then {} else TouchedBy(old_, m, before, seeds, Merge, {});
    FiniteRecordsAreWitnessed(o, g, Part(before, objective), Listed(seeds), touched);
  }

  /** One update: incremental, or a full build. */
  ghost predicate Updated(old_: Automaton, m: Automaton, before: seq<PairRecord>, after: seq<PairRecord>) {
    ExactFor(m, after) || (exists seeds {:trigger Incremental(old_, m, before, after, seeds)} ::
                            Incremental(old_, m, before, after, seeds))
  }

  lemma UpdatedIsTruthful(old_: Automaton, m: Automaton, before: seq<PairRecord>, after: seq<PairRecord>)
    requires Updated(old_, m, before, after)
    ensures TruthfulFor(m, after)
  {
    if ExactFor(m, after) {
      ExactForIsTruthful(m, after);
    } else {
      var seeds :| Incremental(old_, m, before, after, seeds);
      IncrementalIsTruthful(old_, m, before, after, seeds);
    }
  }

  /** A version of the automaton and the records kept for it. */
  datatype Version = Version(model: Automaton, records: seq<PairRecord>)

  /** Over any sequence of updates from truthful records, all records stay truthful. */
  lemma {:induction false} UpdatesStayTruthful(versions: seq<Version>, k: nat)
    requires k < |versions| && TruthfulFor(versions[0].model, versions[0].records)
    requires forall i {:trigger versions[i]} | 0 < i < |versions| ::
               Updated(versions[i - 1].model, versions[i].model, versions[i - 1].records, versions[i].records)
    ensures TruthfulFor(versions[k].model, versions[k].records)
  {
    if k > 0 {
      UpdatesStayTruthful(versions, k - 1);
      UpdatedIsTruthful(versions[k - 1].model, versions[k].model, versions[k - 1].records, versions[k].records);
    }
  }

  /** Some set of unreachable pairs is sealed off when this objective's rebuild starts. */
  ghost predicate Loses(old_: Automaton, m: Automaton, before: seq<PairRecord>, seeds: seq<nat>, objective: Objective)
    requires Startable(old_, m, before, seeds)
  {
    assert PairGraphOf(old_, objective) == PairGraphOf(old_, objective);
    exists T :: Sealed(PairGraphOf(m, objective),
                       Invalidated(PairGraphOf(m, objective), Part(before, objective), Listed(seeds), {}), T)
  }

  /** What was touched before plays no part in which pairs are sealed off. */
  lemma {:induction false} TouchedIsIrrelevant(g: Graph, s: Phase, t: Phase, wave: set<nat>)
    requires PhaseFits(g, s) && PhaseFits(g, t)
    requires s.records == t.records && s.invalid == t.invalid && s.lowered == t.lowered
    ensures var u, v := Invalidate(g, s, wave), Invalidate(g, t, wave);
            u.records == v.records && u.invalid == v.invalid && u.lowered == v.lowered
    decreases Upto(g.pairs) - s.invalid, wave
  {
    if wave != {} {
      var batch := Sources(g, wave) - s.invalid;
      var raised := Raised(g, s.records, batch);
      assert raised != {} ==> exists p :: p in raised && p in Upto(g.pairs) - s.invalid;
      TouchedIsIrrelevant(g, SettleBatch(g, s, batch), SettleBatch(g, t, batch), raised);
    }
  }

  lemma RepairedIsExactIff(old_: Automaton, m: Automaton, before: seq<PairRecord>, after: seq<PairRecord>,
                           seeds: seq<nat>, objective: Objective)
    requires Incremental(old_, m, before, after, seeds)
    ensures Consistent(PairGraphOf(m, objective), Part(after, objective)) <==> !Loses(old_, m, before, seeds, objective)
  {
    var o, g, r := PairGraphOf(old_, objective), PairGraphOf(m, objective), Part(before, objective);
    var touched := if objective == Merge then {} else TouchedBy(old_, m, before, seeds, Merge, {});
    var s, u := Invalidated(g, r, Listed(seeds), touched), Invalidated(g, r, Listed(seeds), {});
    InvalidatedIsReady(o, g, r, Listed(seeds), touched);
    FinishIsExactIff(g, s, Inconsistent(o, r));
    TouchedIsIrrelevant(g, Seed(g, r, Listed(seeds), touched), Seed(g, r, Listed(seeds), {}),
                        Seed(g, r, Listed(seeds), touched).invalid);
    SealedAlike(g, s, u);
  }

  lemma SealedAlike(g: Graph, s: Phase, u: Phase)
    requires PhaseFits(g, s) && PhaseFits(g, u)
    requires s.records == u.records && s.invalid == u.invalid && s.lowered == u.lowered
    ensures (exists T :: Sealed(g, s, T)) <==> (exists T :: Sealed(g, u, T))
  {
    assert forall T {:trigger Sealed(g, s, T)} {:trigger Sealed(g, u, T)} :: Sealed(g, s, T) <==> Sealed(g, u, T);
  }

  /** An incremental update leaves the records of a full build, all fields of all
      pairs, if and only if neither objective seals pairs off. */
  lemma UpdateIsExactIff(old_: Automaton, m: Automaton, before: seq<PairRecord>, after: seq<PairRecord>,
                         seeds: seq<nat>, full: seq<PairRecord>)
    requires Incremental(old_, m, before, after, seeds)
    requires ExactFor(m, full) && |full| == |after|
    requires forall p | 0 <= p < |after| :: after[p].pair == full[p].pair
    ensures after == full <==> !Loses(old_, m, before, seeds, Merge) && !Loses(old_, m, before, seeds, Resolution)
  {
    RepairedIsExactIff(old_, m, before, after, seeds, Merge);
    RepairedIsExactIff(old_, m, before, after, seeds, Resolution);
    if !Loses(old_, m, before, seeds, Merge) && !Loses(old_, m, before, seeds, Resolution) {
      SameParts(m, after, full, Merge);
      SameParts(m, after, full, Resolution);
      forall p | 0 <= p < |after| ensures after[p] == full[p] {
        assert Part(after, Merge)[p] == Part(full, Merge)[p] && Part(after, Resolution)[p] == Part(full, Resolution)[p];
      }
    }
  }

  lemma SameParts(m: Automaton, records: seq<PairRecord>, full: seq<PairRecord>, objective: Objective)
    requires m.Valid() && PairGraphOf(m, objective).pairs <= SIZE_MAX / 8
    requires Consistent(PairGraphOf(m, objective), Part(records, objective))
    requires Consistent(PairGraphOf(m, objective), Part(full, objective))
    ensures Part(records, objective) == Part(full, objective)
  {
    var g := PairGraphOf(m, objective);
    ExactIsBounded(g, Part(records, objective));
    ExactIsBounded(g, Part(full, objective));
    ConsistentIsUnique(g, Part(records, objective), Part(full, objective));
  }
}
