/** Planning from a snapshot's records: whatever updates have left, and when it is the
    same as planning from a fresh build. */
module CachedPlans {
  import opened Records
  import opened Pairs
  import opened Snapshot
  import opened Supports
  import opened WordSearch
  import opened SupportSearch
  import opened PairWords
  import opened Witnesses
  import opened Planner
  import opened CellUpdate
  import opened Disambiguation

  /** snapshot_record_read */
  function SnapshotSource(records: seq<PairRecord>): Source {
    (call: nat, ids: seq<nat>) =>
      if forall k | 0 <= k < |ids| :: ids[k] < |records|
      then Answer(Ok, seq(|ids|, k requires 0 <= k < |ids| && ids[k] < |records| => records[ids[k]]))
      else Answer(InvalidArgument, [])
  }

  lemma SnapshotIsHonest(records: seq<PairRecord>)
    ensures Fills(SnapshotSource(records)) && Honest(SnapshotSource(records), records)
  {
    forall call: nat, ids: seq<nat> | forall k | 0 <= k < |ids| :: ids[k] < |records|
      ensures SnapshotSource(records)(call, ids)
           == Answer(Ok, seq(|ids|, k requires 0 <= k < |ids| && ids[k] < |records| => records[ids[k]]))
    {
      var answer := SnapshotSource(records)(call, ids);
      assert answer.records == seq(|ids|, k requires 0 <= k < |ids| && ids[k] < |records| => records[ids[k]]);
    }
  }

  lemma SnapshotIsKnown(m: Automaton, records: seq<PairRecord>)
    requires TruthfulFor(m, records) && |records| == PairCount(m.states) <= SIZE_MAX / 8
    requires forall p | 0 <= p < |records| :: records[p].pair == p
    ensures Known(m, Merge, SnapshotSource(records), true, records)
    ensures Known(m, Resolution, SnapshotSource(records), true, records)
  {
    SnapshotIsHonest(records);
    TruthfulIsReadable(PairGraphOf(m, Merge), Part(records, Merge));
    TruthfulIsReadable(PairGraphOf(m, Resolution), Part(records, Resolution));
  }

  /** A synchronization planned from a snapshot never fails on its records, exact or
      not, and keeps the contract. */
  method PlanFromSnapshot(store: Store, initialIds: seq<nat>, budget: nat) returns (status: Status, result: PlanResult)
    requires store.Valid() && TruthfulFor(store.model, store.records) && PairCount(store.model.states) <= SIZE_MAX / 8
    ensures status == if IdsValid(store.model.states, initialIds) && budget > 0 then Ok else InvalidArgument
    ensures AllFollowable(PairGraphOf(store.model, Merge), Part(store.records, Merge))
    ensures status.Ok? ==>
              && SyncContract(store.model, SupportSearch.IdSet(initialIds), AllLetters(store.model), budget, result)
              && SyncHonestly(store.model, store.records, SupportSearch.IdSet(initialIds), budget, result)
  {
    SnapshotIsKnown(store.model, store.records);
    status, result := PlanSync(store.model, SnapshotSource(store.records), initialIds, budget, true, store.records);
  }

  /** After an update that loses nothing, a plan from the cached snapshot is the plan from
      a full build: outcome, word, expansions and final support. */
  lemma CachedIsUncached(old_: Automaton, m: Automaton, before: seq<PairRecord>, cached: seq<PairRecord>,
                         seeds: seq<nat>,
                         built: seq<PairRecord>, initial: set<nat>, budget: nat, r: PlanResult, s: PlanResult)
    requires Incremental(old_, m, before, cached, seeds) && ExactFor(m, built) && |built| == |cached|
    requires forall p | 0 <= p < |cached| :: cached[p].pair == built[p].pair
    requires !Loses(old_, m, before, seeds, Merge) && !Loses(old_, m, before, seeds, Resolution)
    requires IsSupport(m, initial) && AllFollowable(PairGraphOf(m, Merge), Part(cached, Merge))
    requires AllFollowable(PairGraphOf(m, Merge), Part(built, Merge))
    requires SyncHonestly(m, cached, initial, budget, r) && SyncHonestly(m, built, initial, budget, s)
    ensures r == s
  {
    UpdateIsExactIff(old_, m, before, cached, seeds, built);
    SyncIsDetermined(m, WitnessWords(m, Part(built, Merge)), initial, AllLetters(m), budget, r, s);
  }

  /** The same for disambiguation: outcome, method, word, expansions and branches. */
  lemma CachedDisambiguationIsUncached(old_: Automaton, m: Automaton, before: seq<PairRecord>,
                                       cached: seq<PairRecord>, seeds: seq<nat>, built: seq<PairRecord>,
                                       initial: set<nat>, bound: nat, restricted: bool, letters: seq<nat>,
                                       budget: nat, r: BranchPlan, s: BranchPlan)
    requires Incremental(old_, m, before, cached, seeds) && ExactFor(m, built) && |built| == |cached|
    requires forall p | 0 <= p < |cached| :: cached[p].pair == built[p].pair
    requires !Loses(old_, m, before, seeds, Merge) && !Loses(old_, m, before, seeds, Resolution)
    requires AreLetters(m, letters) && AllFollowable(PairGraphOf(m, Resolution), Part(cached, Resolution))
    requires AllFollowable(PairGraphOf(m, Resolution), Part(built, Resolution))
    requires PlanHonestly(m, Part(cached, Resolution), initial, bound, restricted, letters, budget, r)
    requires PlanHonestly(m, Part(built, Resolution), initial, bound, restricted, letters, budget, s)
    ensures r == s
  {
    UpdateIsExactIff(old_, m, before, cached, seeds, built);
    PlanIsDetermined(m, Part(built, Resolution), initial, bound, restricted, letters, budget, r, s);
  }
}
