/** The incremental repair of the pair records, one objective after the other. */
module Repair {
  import opened Records
  import opened PairGraph
  import opened RepairSpec
  import opened RepairBounds
  import opened RepairSteps
  import opened RebuildSteps
  import opened Arcs
  import opened Pairs
  import opened Snapshot
  import opened MinHeap

  class Context {
    const store: Store
    const budget: nat
    var diagonal: seq<bool>
    var touched: seq<bool>
    var touchedCount: nat
    var positions: seq<nat>

    /** Everything that stays put while positions are in use. */
    ghost predicate Mapped()
      reads this, store
    {
      && store.Valid()
      && |diagonal| == |touched| == |positions| == |store.records| < NONE
      && (forall p | 0 <= p < |diagonal| :: diagonal[p] == SameState(store.model, p))
      && touchedCount == |Flagged(touched)|
    }

    ghost predicate Valid()
      reads this, store
    {
      Mapped() && forall p | 0 <= p < |positions| :: positions[p] == NONE
    }

    ghost predicate Placed(ids: seq<nat>)
      reads `positions
    {
      forall k | 0 <= k < |ids| :: ids[k] < |positions| && positions[ids[k]] == k
    }

    ghost function Entries(objective: Objective): (r: Entries)
      reads store
    {
      Part(store.records, objective)
    }

    /** The records fit the graph and every distance can be added to. */
    ghost predicate Readable(objective: Objective)
      reads store
    {
      Evaluable(store.model, store.records, objective) && Addable(Entries(objective))
    }

    constructor (store: Store, budget: nat)
      requires store.Valid() && |store.records| < NONE
      ensures Valid() && this.store == store && this.budget == budget
      ensures touchedCount == 0 && Flagged(touched) == {}
    {
      var n, pairs := store.model.states, |store.records|;
      this.store, this.budget := store, budget;
      var flags := seq(pairs, _ => false);
      for state := 0 to n
        invariant |flags| == pairs
        invariant forall p | 0 <= p < pairs ::
                    flags[p] == (SameState(store.model, p) && States(n, p).0 < state)
      {
        StatesOfIndex(n, state, state);
        var pair := PairIndex(n, state, state);
        forall p | 0 <= p < pairs && States(n, p) == (state, state) ensures p == pair {}
        flags := flags[pair := true];
      }
      diagonal := flags;
      touched := seq(pairs, _ => false);
      touchedCount := 0;
      positions := seq(pairs, _ => NONE);
    }

    // ---------- sg_evaluate_pairs ----------

    /** The first loop: remember where each pair is, refuse a repeated one, and start
        from a root or from nothing. */
    method Place(ids: seq<nat>, current: seq<PairRecord>, objective: Objective)
      returns (status: Status, candidates: seq<PairRecord>)
      requires Valid() && |current| == |ids| < NONE
      requires forall k | 0 <= k < |ids| :: ids[k] < |positions| && current[k] == store.records[ids[k]]
      modifies this`positions
      ensures |positions| == |old(positions)|
      ensures forall p | 0 <= p < |positions| && p !in ids :: positions[p] == NONE
      ensures status == if Distinct(ids) then Ok else InvalidModel
      ensures status.Ok? ==> |candidates| == |ids| && forall k | 0 <= k < |ids| ::
                && positions[ids[k]] == k
                && candidates[k] == current[k].With(objective, if diagonal[ids[k]] then ROOT else UNREACHABLE)
    {
      candidates := [];
      status := Ok;
      for k := 0 to |ids|
        invariant |positions| == |old(positions)| && |candidates| == k
        invariant Distinct(ids[..k])
        invariant forall p | 0 <= p < |positions| && p !in ids[..k] :: positions[p] == NONE
        invariant forall l | 0 <= l < k ::
                    && positions[ids[l]] == l
                    && candidates[l] == current[l].With(objective, if diagonal[ids[l]] then ROOT else UNREACHABLE)
      {
        assert ids[..k + 1] == ids[..k] + [ids[k]];
        if positions[ids[k]] != NONE {
          assert ids[k] in ids[..k];
          if Distinct(ids) {
            DistinctIndex(ids, k);
          }
          return InvalidModel, candidates;
        }
        DistinctAppend(ids[..k], ids[k]);
        positions := positions[ids[k] := k];
        var entry := if diagonal[ids[k]] then ROOT else UNREACHABLE;
        candidates := candidates + [current[k].With(objective, entry)];
      }
      assert ids[..|ids|] == ids;
    }

    /** The last loop. */
    method Unplace(ids: seq<nat>)
      requires forall p | 0 <= p < |positions| && p !in ids :: positions[p] == NONE
      modifies this`positions
      ensures |positions| == |old(positions)| && forall p | 0 <= p < |positions| :: positions[p] == NONE
    {
      for k := 0 to |ids|
        invariant |positions| == |old(positions)|
        invariant forall p | 0 <= p < |positions| && p !in ids[k..] :: positions[p] == NONE
      {
        if ids[k] < |positions| {
          positions := positions[ids[k] := NONE];
        }
      }
    }

    /** One turn of the arc loop: the arc is offered to its source's candidate. */
    method FoldArc(ids: seq<nat>, arcs: seq<Arc>, l: nat, target: PairRecord, objective: Objective,
                   candidates: seq<PairRecord>)
      returns (next: seq<PairRecord>)
      requires Mapped() && Readable(objective)
      requires Distinct(ids) && Outgoing(store.model, ids, arcs) && Placed(ids) && l < |arcs|
      requires arcs[l].target < |store.records| && target == store.records[arcs[l].target]
      requires |candidates| == |ids| && forall k {:trigger ids[k]} | 0 <= k < |ids| ::
                 Folded(store.model, store.records, objective, ids[k], arcs[..l], candidates[k])
      ensures |next| == |ids| && forall k {:trigger ids[k]} | 0 <= k < |ids| ::
                Folded(store.model, store.records, objective, ids[k], arcs[..l + 1], next[k])
    {
      var arc := arcs[l];
      ghost var before := arcs[..l];
      assert arc in arcs && arcs[..l + 1] == before + [arc];
      DistinctIndex(arcs, l);
      var position := positions[arc.source];
      assert ids[position] == arc.source;
      next := candidates;
      if diagonal[arc.source] {
        FoldOther(store.model, store.records, objective, arc.source, before, arc, candidates[position]);
      } else {
        var candidate := candidates[position];
        FoldOffer(store.model, store.records, objective, before, arc, candidate);
        ChecksPass(objective, arc.source, before, arc.target, candidate);
        var entry := Offer(candidate.Part(objective), arc, target.Part(objective).distance, objective);
        next := candidates[position := candidate.With(objective, entry)];
      }
      forall k | 0 <= k < |ids| && k != position
        ensures Folded(store.model, store.records, objective, ids[k], arcs[..l + 1], candidates[k])
      {
        assert ids[k] != ids[position];
        FoldOther(store.model, store.records, objective, ids[k], before, arc, candidates[k]);
      }
    }

    /** The arc loop: offer every arc to the candidate of its source.  Whatever the
        order of the arcs, each candidate ends as the re-evaluation of its pair. */
    method Fold(ids: seq<nat>, arcs: seq<Arc>, targets: seq<PairRecord>, objective: Objective, start: seq<PairRecord>)
      returns (candidates: seq<PairRecord>)
      requires Mapped() && Readable(objective)
      requires Distinct(ids) && Outgoing(store.model, ids, arcs) && Placed(ids) && |start| == |ids|
      requires |targets| == |arcs|
      requires forall l | 0 <= l < |arcs| ::
               arcs[l].target < |store.records| && targets[l] == store.records[arcs[l].target]
      requires forall k | 0 <= k < |ids| :: Folded(store.model, store.records, objective, ids[k], [], start[k])
      ensures |candidates| == |ids|
      ensures forall k | 0 <= k < |ids| :: candidates[k] == Candidate(store.model, store.records, objective, ids[k])
    {
      candidates := start;
      assert arcs[..0] == [];
      for l := 0 to |arcs|
        invariant |candidates| == |ids|
        invariant forall k {:trigger ids[k]} | 0 <= k < |ids| ::
                    Folded(store.model, store.records, objective, ids[k], arcs[..l], candidates[k])
      {
        candidates := FoldArc(ids, arcs, l, targets[l], objective, candidates);
      }
      assert arcs[..|arcs|] == arcs;
      forall k | 0 <= k < |ids| ensures candidates[k] == Candidate(store.model, store.records, objective, ids[k]) {
        FoldEnds(store.model, store.records, objective, ids[k], arcs, candidates[k]);
      }
    }

    /** Neither overflow check of the arc loop can fire. */
    lemma ChecksPass(objective: Objective, p: nat, arcs: seq<Arc>, target: nat, candidate: PairRecord)
      requires store.Valid() && Readable(objective) && p < |store.records| && target < |store.records|
      requires !SameState(store.model, p) && Folded(store.model, store.records, objective, p, arcs, candidate)
      ensures var d := store.records[target].Part(objective).distance; d == NONE || d < NONE - 1
      ensures candidate.Part(objective).support < SIZE_MAX
    {
      assert Entries(objective)[target] == store.records[target].Part(objective);
      SupportIsSmall(PairGraphOf(store.model, objective), Entries(objective), p, SeenIn(store.model, p, arcs),
                     candidate.Part(objective));
    }

    /** sg_evaluate_pairs: the current record and the candidate of each listed pair. */
    method Evaluate(ids: seq<nat>, objective: Objective)
      returns (status: Status, current: seq<PairRecord>, candidates: seq<PairRecord>)
      requires Valid() && Readable(objective) && |ids| < NONE
      modifies this`positions
      ensures Valid()
      ensures status == Verdict(ids, |store.records|)
      ensures status.Ok? ==> |current| == |candidates| == |ids| && forall k | 0 <= k < |ids| ::
                && current[k] == store.records[ids[k]]
                && candidates[k] == Candidate(store.model, store.records, objective, ids[k])
    {
      candidates := [];
      status, current := store.ReadRecords(ids);
      if !status.Ok? {
        return;
      }
      var arcs;
      status, arcs := store.ReadOutgoing(ids);
      var start;
      status, start := Place(ids, current, objective);
      if status.Ok? {
        candidates := FoldTargets(ids, arcs, objective, start);
      }
      Unplace(ids);
    }

    /** Read the record of every target, then fold. */
    method FoldTargets(ids: seq<nat>, arcs: seq<Arc>, objective: Objective, start: seq<PairRecord>)
      returns (candidates: seq<PairRecord>)
      requires Mapped() && Readable(objective)
      requires Distinct(ids) && Outgoing(store.model, ids, arcs) && Placed(ids) && |start| == |ids|
      requires forall k | 0 <= k < |ids| ::
                 start[k] == store.records[ids[k]].With(objective, if SameState(store.model, ids[k]) then ROOT
                     else UNREACHABLE)
      ensures |candidates| == |ids|
      ensures forall k | 0 <= k < |ids| :: candidates[k] == Candidate(store.model, store.records, objective, ids[k])
    {
      forall k | 0 <= k < |ids|
        ensures Folded(store.model, store.records, objective, ids[k], [], start[k])
      {
        FoldStarts(store.model, store.records, objective, ids[k]);
      }
      assert forall l | 0 <= l < |arcs| :: arcs[l] in arcs;
      var targetIds := TargetsOf(arcs);
      var read, targets := store.ReadRecords(targetIds);
      candidates := Fold(ids, arcs, targets, objective, start);
    }

    method TargetsOf(arcs: seq<Arc>) returns (ids: seq<nat>)
      requires store.Valid() && forall l | 0 <= l < |arcs| :: IsArc(store.model, arcs[l])
      ensures |ids| == |arcs|
      ensures forall l | 0 <= l < |arcs| :: ids[l] == arcs[l].target < |store.records|
    {
      ids := [];
      for l := 0 to |arcs|
        invariant |ids| == l
        invariant forall i | 0 <= i < l :: ids[i] == arcs[i].target < |store.records|
      {
        var arc := arcs[l];
        assert PairGraphOf(store.model, Merge).next[arc.source][arc.action] == arc.target;
        ids := ids + [arc.target];
      }
    }

    // ---------- Budget and predecessors ----------

    /** sg_mark_touched */
    method MarkTouched(pair: nat) returns (within: bool)
      requires Valid() && pair < |touched|
      modifies this`touched, this`touchedCount
      ensures Valid()
      ensures Flagged(touched) == Flagged(old(touched)) + {pair}
      ensures within == (|Flagged(touched)| <= budget)
    {
      FlagOne(touched, pair);
      if !touched[pair] {
        touched := touched[pair := true];
        touchedCount := touchedCount + 1;
      } else {
        assert Flagged(touched) == Flagged(touched) + {pair};
      }
      within := touchedCount <= budget;
    }

    /** sg_collect_sources: the off-diagonal pairs with an arc into the targets,
        without the excluded ones, each once. */
    method CollectSources(targets: seq<nat>, excluded: seq<bool>, objective: Objective) returns (sources: seq<nat>)
      requires Valid() && |excluded| == |store.records|
      requires forall k | 0 <= k < |targets| :: targets[k] < |store.records|
      modifies this`positions
      ensures Valid()
      ensures Distinct(sources)
      ensures forall k | 0 <= k < |sources| :: sources[k] < |store.records| && !diagonal[sources[k]]
      ensures Listed(sources) == Sources(PairGraphOf(store.model, objective), Listed(targets)) - Flagged(excluded)
    {
      var status, arcs := store.ReadIncoming(targets);
      sources := UniqueSources(arcs, excluded);
      assert forall k | 0 <= k < |sources| :: sources[k] in sources;
      SourcesAreListed(targets, arcs, objective);
    }

    method UniqueSources(arcs: seq<Arc>, excluded: seq<bool>) returns (sources: seq<nat>)
      requires Valid() && |excluded| == |store.records|
      requires forall l | 0 <= l < |arcs| :: arcs[l].source < |store.records|
      modifies this`positions
      ensures Valid()
      ensures Distinct(sources)
      ensures forall p: nat :: p in sources <==>
                p < |diagonal| && !diagonal[p] && !excluded[p] && exists i :: 0 <= i < |arcs| && arcs[i].source == p
    {
      sources := [];
      for l := 0 to |arcs|
        invariant Mapped() && Distinct(sources) && |sources| <= l
        invariant Placed(sources)
        invariant forall p | 0 <= p < |positions| && p !in sources :: positions[p] == NONE
        invariant forall p: nat :: p in sources <==>
                    p < |diagonal| && !diagonal[p] && !excluded[p] && exists i :: 0 <= i < l && arcs[i].source == p
      {
        var source := arcs[l].source;
        if !diagonal[source] && !excluded[source] && positions[source] == NONE {
          FewDistinct(sources, |positions|);
          assert source !in sources;
          DistinctAppend(sources, source);
          positions := positions[source := |sources|];
          sources := sources + [source];
        }
      }
      Unplace(sources);
    }

    lemma SourcesAreListed(targets: seq<nat>, arcs: seq<Arc>, objective: Objective)
      requires store.Valid() && Incoming(store.model, (set t | t in targets), arcs)
      ensures forall p: nat :: p in Sources(PairGraphOf(store.model, objective), Listed(targets)) <==>
                p < |store.records| && !SameState(store.model, p) && exists i :: 0 <= i < |arcs| && arcs[i].source == p
    {
      var g := PairGraphOf(store.model, objective);
      forall p: nat | p < |store.records| && HasArcInto(g, p, Listed(targets))
        ensures exists i :: 0 <= i < |arcs| && arcs[i].source == p
      {
        var a :| 0 <= a < g.actions && g.next[p][a] in Listed(targets);
        assert ArcOf(store.model, p, a) in arcs;
      }
      forall i | 0 <= i < |arcs| ensures arcs[i].source < g.pairs && HasArcInto(g, arcs[i].source, Listed(targets)) {
        assert arcs[i] in arcs;
        assert g.next[arcs[i].source][arcs[i].action] in Listed(targets);
      }
    }
  }

  /** The work on one objective: the flags, lists and heap of sg_objective_state. */
  class Pass {
    const context: Context
    const objective: Objective
    const heap: Heap
    var invalid: seq<bool>
    var finalized: seq<bool>
    var queued: seq<bool>
    var tentative: seq<nat>
    var invalidated: seq<nat>
    var lowered: seq<nat>

    /** sg_objective_state_init */
    constructor (context: Context, objective: Objective)
      requires context.Valid()
      ensures Valid() && this.context == context && this.objective == objective
      ensures fresh(heap) && heap.Valid() && heap.items == []
      ensures Flagged(invalid) == Flagged(queued) == Flagged(finalized) == {}
      ensures invalidated == [] && lowered == [] && Fresh()
    {
      var pairs := |context.store.records|;
      this.context, this.objective := context, objective;
      heap := new Heap();
      invalid := seq(pairs, _ => false);
      finalized := seq(pairs, _ => false);
      queued := seq(pairs, _ => false);
      tentative := seq(pairs, _ => NONE);
      invalidated, lowered := [], [];
    }

    ghost predicate Valid()
      reads this, context, context.store
    {
      && context.Valid()
      && |invalid| == |finalized| == |queued| == |tentative| == |context.store.records|
    }

    /** Nothing of the rebuild has begun. */
    ghost predicate Fresh()
      reads `finalized, `tentative
    {
      Flagged(finalized) == {} && forall p | 0 <= p < |tentative| :: tentative[p] == NONE
    }

    ghost function G(): (g: Graph)
      requires context.store.model.Valid()
      reads context.store
    {
      PairGraphOf(context.store.model, objective)
    }

    ghost function R(): (r: Entries)
      reads context.store
    {
      context.Entries(objective)
    }

    ghost function Touched(): set<nat>
      reads context`touched
    {
      Flagged(context.touched)
    }

    /** The set-level view of phases one and two. */
    ghost function Now(): Phase
      reads this, context, context.store
    {
      Phase(R(), Flagged(invalid), Flagged(queued), Touched())
    }

    /** Flags and lists agree, records can be read, and the budget is not yet spent. */
    ghost predicate Ready()
      reads this, context, context.store
    {
      && Valid() && context.Readable(objective)
      && SameIds(invalidated, invalid) && Distinct(invalidated) && SameIds(lowered, queued)
      && |Touched()| <= context.budget
    }

    // ---------- Phases one and two ----------

    method MarkInvalid(pair: nat)
      requires pair < |invalid| && SameIds(invalidated, invalid)
      requires Distinct(invalidated) && pair !in Flagged(invalid)
      modifies this`invalid, this`invalidated
      ensures Distinct(invalidated) && |invalid| == |old(invalid)| && SameIds(invalidated, invalid)
      ensures Flagged(invalid) == old(Flagged(invalid)) + {pair}
      ensures invalidated == old(invalidated) + [pair]
    {
      FlagOne(invalid, pair);
      SameIdsAppend(invalidated, invalid, pair);
      DistinctAppend(invalidated, pair);
      invalid := invalid[pair := true];
      invalidated := invalidated + [pair];
    }

    method QueueLowered(pair: nat)
      requires pair < |queued|
      modifies this`queued, this`lowered
      ensures |queued| == |old(queued)|
      ensures Flagged(queued) == old(Flagged(queued)) + {pair}
      ensures lowered == old(lowered) + (if pair in old(Flagged(queued)) then [] else [pair])
      ensures old(SameIds(lowered, queued)) ==> SameIds(lowered, queued)
    {
      FlagOne(queued, pair);
      if !queued[pair] {
        if SameIds(lowered, queued) {
          SameIdsAppend(lowered, queued, pair);
        }
        queued := queued[pair := true];
        lowered := lowered + [pair];
      }
    }

    /** The loop body that the first two phases share. */
    method SettleOne(pair: nat, current: PairRecord, candidate: PairRecord)
      returns (within: bool, write: PairRecord)
      requires Valid() && pair < |invalid|
      requires SameIds(invalidated, invalid) && SameIds(lowered, queued)
      requires Distinct(invalidated) && pair !in Flagged(invalid)
      requires candidate == current.With(objective, candidate.Part(objective))
      modifies this`invalid, this`invalidated, this`queued, this`lowered, context`touched, context`touchedCount
      ensures Valid() && Distinct(invalidated)
      ensures Touched() == old(Touched()) + {pair} && within == (|Touched()| <= context.budget)
      ensures write == current.With(objective, Settle(current.Part(objective), candidate.Part(objective)))
      ensures SameIds(invalidated, invalid) && SameIds(lowered, queued)
      ensures within && Farther(candidate, current) ==> invalidated == old(invalidated) + [pair]
      ensures within && !Farther(candidate, current) ==> invalidated == old(invalidated)
      ensures within && Farther(current, candidate) ==> Flagged(queued) == old(Flagged(queued)) + {pair}
      ensures within && !Farther(current, candidate) ==> Flagged(queued) == old(Flagged(queued))
    {
      within := context.MarkTouched(pair);
      write := if Farther(candidate, current) then current.With(objective, UNREACHABLE) else candidate;
      if within {
        if Farther(candidate, current) {
          MarkInvalid(pair);
        } else if Farther(current, candidate) {
          QueueLowered(pair);
        }
      }
    }

    predicate Farther(first: PairRecord, second: PairRecord) {
      first.Part(objective).distance > second.Part(objective).distance
    }

    /** What an evaluation of the listed pairs returned. */
    ghost predicate Evaluated(ids: seq<nat>, current: seq<PairRecord>, candidates: seq<PairRecord>)
      reads context.store
    {
      && Evaluable(context.store.model, context.store.records, objective)
      && |current| == |candidates| == |ids| && Distinct(ids)
      && forall k | 0 <= k < |ids| ::
           && ids[k] < |context.store.records|
           && current[k] == context.store.records[ids[k]]
           && candidates[k] == Candidate(context.store.model, context.store.records, objective, ids[k])
    }

    ghost function Done(ids: seq<nat>): (s: set<nat>)
      requires context.store.Valid()
      reads context.store
      ensures s <= Upto(G().pairs)
    {
      OffDiagonal(G(), Listed(ids))
    }

    lemma DoneNext(ids: seq<nat>, k: nat)
      requires context.store.Valid() && k < |ids| && Distinct(ids) && ids[k] < |context.store.records|
      ensures ids[k] !in Done(ids[..k])
      ensures Done(ids[..k + 1]) == if SameState(context.store.model, ids[k]) then Done(ids[..k])
              else Done(ids[..k]) + {ids[k]}
    {
      PrefixGrows(ids, k);
    }

    /** One turn of the loop that the first two phases share. */
    method SettleNext(pair: nat, current: PairRecord, candidate: PairRecord, ghost before: Phase, ghost done: set<nat>,
                      ghost old_: seq<nat>, ghost news: seq<nat>, writes: seq<PairRecord>)
      returns (within: bool, ghost news': seq<nat>, writes': seq<PairRecord>)
      requires Valid() && Evaluable(context.store.model, context.store.records, objective)
      requires pair < |invalid| && pair !in done && !SameState(context.store.model, pair)
      requires SameIds(invalidated, invalid) && SameIds(lowered, queued)
      requires invalidated == old_ + news && Distinct(invalidated) && pair !in old_
      requires PhaseFits(G(), before) && before.records == R()
      requires SettledSoFar(G(), context.store.records, objective, before, done, news, Flagged(queued), Touched(),
               writes)
      requires current == context.store.records[pair]
      requires candidate == Candidate(context.store.model, context.store.records, objective, pair)
      modifies this`invalid, this`invalidated, this`queued, this`lowered, context`touched, context`touchedCount
      ensures Valid() && Distinct(invalidated)
      ensures Touched() == old(Touched()) + {pair} && within == (|Touched()| <= context.budget)
      ensures SameIds(invalidated, invalid) && SameIds(lowered, queued)
      ensures within ==> invalidated == old_ + news'
      ensures within ==>
                SettledSoFar(G(), context.store.records, objective, before, done + {pair}, news', Flagged(queued),
                    Touched(), writes')
    {
      ghost var queued0, touched0 := Flagged(queued), Touched();
      assert pair !in invalidated by {
        SettledIs(G(), context.store.records, objective, before, done, news, Flagged(queued), Touched(), writes);
        assert pair !in Listed(news);
      }
      var write;
      within, write := SettleOne(pair, current, candidate);
      news', writes' := news, writes;
      if within {
        if Farther(candidate, current) {
          AppendLater(old_, news, pair);
          news' := news + [pair];
        }
        if write.Part(objective) != current.Part(objective) {
          writes' := writes + [write];
        }
        assert news' == news + (if Farther(candidate, current) then [pair] else []);
        SettledNext(G(), context.store.records, objective, before, done, news, queued0, touched0, writes, pair,
                    current.Part(objective), candidate.Part(objective), news', Flagged(queued), writes');
      }
    }

    /** The first k pairs of the list are settled, except the diagonal ones. */
    ghost predicate SettledUpto(ids: seq<nat>, k: nat, before: Phase, old_: seq<nat>, news: seq<nat>,
                                writes: seq<PairRecord>)
      requires k <= |ids|
      reads this, context, context.store
    {
      && Valid() && |Touched()| <= context.budget && SameIds(invalidated, invalid) && SameIds(lowered, queued)
      && invalidated == old_ + news && Distinct(invalidated)
      && SettledSoFar(G(), context.store.records, objective, before, Done(ids[..k]), news, Flagged(queued), Touched(),
          writes)
    }

    /** They are not.  Contracts carry the negation of this around in one piece. */
    ghost predicate Unsettled(ids: seq<nat>, k: nat, before: Phase, old_: seq<nat>, news: seq<nat>,
                              writes: seq<PairRecord>)
      requires k <= |ids|
      reads this, context, context.store
    {
      !SettledUpto(ids, k, before, old_, news, writes)
    }

    /** An evaluated list without a pair that was invalidated before. */
    ghost predicate Settleable(ids: seq<nat>, current: seq<PairRecord>, candidates: seq<PairRecord>, old_: seq<nat>)
      reads context.store
    {
      Evaluated(ids, current, candidates) && context.store.Valid() && forall p | p in Done(ids) :: p !in old_
    }

    ghost predicate Unsettleable(ids: seq<nat>, current: seq<PairRecord>, candidates: seq<PairRecord>, old_: seq<nat>)
      reads context.store
    {
      !Settleable(ids, current, candidates, old_)
    }

    /** One turn of the loop on a pair off the diagonal. */
    method SettleOff(ids: seq<nat>, current: seq<PairRecord>, candidates: seq<PairRecord>, k: nat,
                     ghost before: Phase, ghost old_: seq<nat>, ghost news: seq<nat>, writes: seq<PairRecord>)
      returns (within: bool, ghost news': seq<nat>, writes': seq<PairRecord>)
      requires !Unsettleable(ids, current, candidates, old_) && k < |ids|
               && !Unsettled(ids, k, before, old_, news, writes)
      requires ids[k] < |context.store.records| && !SameState(context.store.model, ids[k])
      modifies this`invalid, this`invalidated, this`queued, this`lowered, context`touched, context`touchedCount
      ensures Valid() && SameIds(invalidated, invalid) && Distinct(invalidated) && SameIds(lowered, queued)
      ensures Touched() <= before.touched + Done(ids) && within == (|Touched()| <= context.budget)
      ensures within ==> !Unsettled(ids, k + 1, before, old_, news', writes')
    {
      ghost var done := Done(ids[..k]);
      OffIsReady(ids, current, candidates, k, before, old_, news, writes);
      within, news', writes' := SettleNext(ids[k], current[k], candidates[k], before, done, old_, news, writes);
      if within {
        OffIsSettled(ids, k, before, old_, news', writes');
      }
    }

    lemma OffIsReady(ids: seq<nat>, current: seq<PairRecord>, candidates: seq<PairRecord>, k: nat,
                     before: Phase, old_: seq<nat>, news: seq<nat>, writes: seq<PairRecord>)
      requires !Unsettleable(ids, current, candidates, old_) && k < |ids|
               && !Unsettled(ids, k, before, old_, news, writes)
      requires ids[k] < |context.store.records| && !SameState(context.store.model, ids[k])
      ensures Valid() && Evaluable(context.store.model, context.store.records, objective) && Distinct(ids)
      ensures |current| == |candidates| == |ids| && ids[k] < |invalid| && ids[k] !in Done(ids[..k]) && ids[k] !in old_
      ensures SameIds(invalidated, invalid) && SameIds(lowered, queued) && invalidated == old_ + news
              && Distinct(invalidated)
      ensures SettledSoFar(G(), context.store.records, objective, before, Done(ids[..k]), news, Flagged(queued),
              Touched(), writes)
      ensures current[k] == context.store.records[ids[k]]
      ensures candidates[k] == Candidate(context.store.model, context.store.records, objective, ids[k])
      ensures PhaseFits(G(), before) && before.records == R()
      ensures Touched() == before.touched + Done(ids[..k]) && Done(ids[..k]) + {ids[k]} <= Done(ids)
    {
      DoneNext(ids, k);
      DoneIsPrefix(ids, k);
      SettledIs(G(), context.store.records, objective, before, Done(ids[..k]), news, Flagged(queued), Touched(),
          writes);
    }

    lemma OffIsSettled(ids: seq<nat>, k: nat, before: Phase, old_: seq<nat>, news: seq<nat>, writes: seq<PairRecord>)
      requires Valid() && Distinct(ids) && k < |ids| && ids[k] < |context.store.records|
               && !SameState(context.store.model, ids[k])
      requires |Touched()| <= context.budget && SameIds(invalidated, invalid) && SameIds(lowered, queued)
      requires invalidated == old_ + news && Distinct(invalidated)
      requires SettledSoFar(G(), context.store.records, objective, before, Done(ids[..k]) + {ids[k]}, news,
               Flagged(queued), Touched(), writes)
      ensures !Unsettled(ids, k + 1, before, old_, news, writes)
    {
      DoneNext(ids, k);
    }

    /** A pair on the diagonal changes nothing. */
    lemma SkipDiagonal(ids: seq<nat>, current: seq<PairRecord>, candidates: seq<PairRecord>, k: nat,
                       before: Phase, old_: seq<nat>, news: seq<nat>, writes: seq<PairRecord>)
      requires !Unsettleable(ids, current, candidates, old_) && k < |ids|
               && !Unsettled(ids, k, before, old_, news, writes)
      requires ids[k] < |context.store.records| && SameState(context.store.model, ids[k])
      ensures !Unsettled(ids, k + 1, before, old_, news, writes)
      ensures Touched() <= before.touched + Done(ids)
    {
      assert Done(ids[..k + 1]) == Done(ids[..k]) by {
        DoneNext(ids, k);
      }
      assert Done(ids[..k]) <= Done(ids) by {
        DoneIsPrefix(ids, k);
      }
      SettledIs(G(), context.store.records, objective, before, Done(ids[..k]), news, Flagged(queued), Touched(),
          writes);
    }

    /** One turn of the loop. */
    method SettleAt(ids: seq<nat>, current: seq<PairRecord>, candidates: seq<PairRecord>, k: nat,
                    ghost before: Phase, ghost old_: seq<nat>, ghost news: seq<nat>, writes: seq<PairRecord>)
      returns (within: bool, ghost news': seq<nat>, writes': seq<PairRecord>)
      requires !Unsettleable(ids, current, candidates, old_) && k < |ids|
               && !Unsettled(ids, k, before, old_, news, writes)
      modifies this`invalid, this`invalidated, this`queued, this`lowered, context`touched, context`touchedCount
      ensures Valid() && SameIds(invalidated, invalid) && Distinct(invalidated) && SameIds(lowered, queued)
      ensures Touched() <= before.touched + Done(ids) && within == (|Touched()| <= context.budget)
      ensures within ==> !Unsettled(ids, k + 1, before, old_, news', writes')
    {
      within, news', writes' := true, news, writes;
      if !context.diagonal[ids[k]] {
        within, news', writes' := SettleOff(ids, current, candidates, k, before, old_, news, writes);
      } else {
        SkipDiagonal(ids, current, candidates, k, before, old_, news, writes);
      }
    }

    lemma SettleStarts(ids: seq<nat>)
      requires Ready()
      ensures !Unsettled(ids, 0, Now(), invalidated, [], [])
    {
      SettledStart(G(), context.store.records, objective, Now());
      assert Done(ids[..0]) == {};
    }

    lemma SettleEnds(ids: seq<nat>, before: Phase, old_: seq<nat>, news: seq<nat>, writes: seq<PairRecord>)
      requires !Unsettled(ids, |ids|, before, old_, news, writes)
      ensures Valid() && SameIds(invalidated, invalid) && Distinct(invalidated) && SameIds(lowered, queued)
      ensures |Touched()| <= context.budget && Touched() == before.touched + Done(ids) && invalidated == old_ + news
      ensures SettledSoFar(G(), context.store.records, objective, before, Done(ids), news, Flagged(queued), Touched(),
              writes)
    {
      assert ids[..|ids|] == ids;
      SettledIs(G(), context.store.records, objective, before, Done(ids), news, Flagged(queued), Touched(), writes);
    }

    /** The loop of the first two phases over an evaluated list. */
    method SettleAll(ids: seq<nat>, current: seq<PairRecord>, candidates: seq<PairRecord>)
      returns (status: Status, writes: seq<PairRecord>, ghost news: seq<nat>)
      requires Ready() && !Unsettleable(ids, current, candidates, invalidated)
      modifies this`invalid, this`invalidated, this`queued, this`lowered, context`touched, context`touchedCount
      ensures Valid() && SameIds(invalidated, invalid) && Distinct(invalidated) && SameIds(lowered, queued)
      ensures Touched() <= old(Touched()) + Done(ids)
      ensures status == if |Touched()| <= context.budget then Ok else ResourceBound
      ensures status.Ok? ==> !Unsettled(ids, |ids|, old(Now()), old(invalidated), news, writes)
    {
      writes, news := [], [];
      ghost var before, old_ := Now(), invalidated;
      SettleStarts(ids);
      for k := 0 to |ids|
        invariant !Unsettled(ids, k, before, old_, news, writes)
      {
        var within;
        within, news, writes := SettleAt(ids, current, candidates, k, before, old_, news, writes);
        if !within {
          return ResourceBound, writes, news;
        }
      }
      SettleEnds(ids, before, old_, news, writes);
      status := Ok;
    }

    lemma DoneIsPrefix(ids: seq<nat>, k: nat)
      requires context.store.Valid() && k < |ids|
      ensures Done(ids[..k]) <= Done(ids)
      ensures ids[k] < |context.store.records| && !SameState(context.store.model, ids[k]) ==> ids[k] in Done(ids)
    {
    }

    /** sg_write_records */
    method Commit(writes: seq<PairRecord>, ghost wanted: Entries)
      requires Valid() && Achieving(context.store.records, objective, writes, wanted)
      modifies context.store
      ensures Valid() && context.store.model == old(context.store.model)
      ensures R() == wanted && OnlyPart(old(context.store.records), context.store.records, objective)
    {
      WrittenAchieves(context.store.records, objective, writes, wanted);
      if |writes| != 0 {
        var status := context.store.WriteRecords(writes);
      }
    }

    /** Write what an evaluated list has been settled to. */
    method CommitSettled(ghost ids: seq<nat>, ghost news: seq<nat>, writes: seq<PairRecord>, ghost before: Phase,
                         ghost old_: seq<nat>)
      requires !Unsettled(ids, |ids|, before, old_, news, writes) && before.invalid == Listed(old_)
      modifies context.store
      ensures Valid() && context.store.model == old(context.store.model)
      ensures PhaseFits(G(), before) && Now() == RepairSpec.SettleBatch(G(), before, old(Done(ids)))
      ensures Listed(news) == Raised(G(), before.records, old(Done(ids)))
      ensures OnlyPart(old(context.store.records), context.store.records, objective)
    {
      ghost var done := Done(ids);
      SettleEnds(ids, before, old_, news, writes);
      SettledIs(G(), context.store.records, objective, before, done, news, Flagged(queued), Touched(), writes);
      assert Flagged(invalid) == before.invalid + Listed(news) by {
        ListedAppend(old_, news);
        SameIdsAreListed(invalidated, invalid);
      }
      Commit(writes, Settled(G(), before.records, done));
    }

    /** Settle an evaluated list and write the outcome. */
    method SettleEvaluated(ids: seq<nat>, current: seq<PairRecord>, candidates: seq<PairRecord>)
      returns (status: Status, ghost news: seq<nat>)
      requires Ready() && Evaluated(ids, current, candidates) && Done(ids) !! Flagged(invalid)
      modifies this`invalid, this`invalidated, this`queued, this`lowered,
               context`touched, context`touchedCount, context.store
      ensures Valid() && context.store.model == old(context.store.model)
      ensures status == if |old(Touched()) + old(Done(ids))| <= context.budget then Ok else ResourceBound
      ensures status.Ok? ==>
                && PhaseFits(G(), old(Now())) && Now() == RepairSpec.SettleBatch(G(), old(Now()), old(Done(ids)))
                && SameIds(invalidated, invalid) && Distinct(invalidated) && SameIds(lowered, queued)
                && invalidated == old(invalidated) + news
                && Listed(news) == Raised(G(), old(R()), old(Done(ids)))
      ensures OnlyPart(old(context.store.records), context.store.records, objective)
      ensures !status.Ok? ==> context.store.records == old(context.store.records)
    {
      ghost var before, done := Now(), Done(ids);
      var writes;
      assert forall p | p in Done(ids) :: p !in invalidated;
      status, writes, news := SettleAll(ids, current, candidates);
      if status.Ok? {
        SettleEnds(ids, before, old(invalidated), news, writes);
        SameIdsAreListed(old(invalidated), old(invalid));
        CommitSettled(ids, news, writes, before, old(invalidated));
      } else {
        SubsetSize(Touched(), before.touched + done);
      }
    }

    /** Evaluate a list and settle it. */
    method SettleBatch(ids: seq<nat>) returns (status: Status, ghost news: seq<nat>)
      requires Ready() && |ids| < NONE && Done(ids) !! Flagged(invalid)
      modifies this`invalid, this`invalidated, this`queued, this`lowered,
               context`touched, context`touchedCount, context`positions, context.store
      ensures Valid() && context.store.model == old(context.store.model)
      ensures status == if Verdict(ids, |invalid|) != Ok then Verdict(ids, |invalid|)
                        else if |old(Touched()) + old(Done(ids))| <= context.budget then Ok else ResourceBound
      ensures status.Ok? ==>
                && PhaseFits(G(), old(Now())) && Now() == RepairSpec.SettleBatch(G(), old(Now()), old(Done(ids)))
                && SameIds(invalidated, invalid) && Distinct(invalidated) && SameIds(lowered, queued)
                && invalidated == old(invalidated) + news
                && Listed(news) == Raised(G(), old(R()), old(Done(ids)))
      ensures OnlyPart(old(context.store.records), context.store.records, objective)
      ensures !status.Ok? ==> context.store.records == old(context.store.records)
    {
      news := [];
      var current, candidates;
      status, current, candidates := context.Evaluate(ids, objective);
      if status.Ok? {
        assert Evaluated(ids, current, candidates);
        status, news := SettleEvaluated(ids, current, candidates);
      }
    }

    /** One turn of the loop of sg_invalidate_dependents, on the targets after head. */
    method InvalidateRound(head: nat) returns (status: Status)
      requires Ready() && head <= |invalidated|
      modifies this`invalid, this`invalidated, this`queued, this`lowered,
               context`touched, context`touchedCount, context`positions, context.store
      ensures Valid() && context.store.model == old(context.store.model)
      ensures OnlyPart(old(context.store.records), context.store.records, objective)
      ensures var batch := Sources(G(), old(Listed(invalidated[head..]))) - old(Flagged(invalid));
              && batch <= Upto(G().pairs) && PhaseFits(G(), old(Now()))
              && status == (if |old(Touched()) + batch| <= context.budget then Ok else ResourceBound)
              && (status.Ok? ==>
                   && Now() == RepairSpec.SettleBatch(G(), old(Now()), batch)
                   && SameIds(invalidated, invalid) && Distinct(invalidated) && SameIds(lowered, queued)
                   && |old(invalidated)| <= |invalidated|
                   && Listed(invalidated[|old(invalidated)|..]) == Raised(G(), old(R()), batch))
    {
      SameIdsAreListed(invalidated, invalid);
      assert forall k | 0 <= k < |invalidated| :: invalidated[k] in invalidated;
      var sources := context.CollectSources(invalidated[head..], invalid, objective);
      assert Done(sources) == Listed(sources);
      FewDistinct(sources, |invalid|);
      ghost var news;
      status, news := SettleBatch(sources);
      ListedDrop(old(invalidated), news);
    }

    /** sg_invalidate_dependents */
    method InvalidateDependents() returns (status: Status)
      requires Ready() && Allocatable(G()) && BoundedWhileSettling(G(), Now(), Flagged(invalid))
      modifies this`invalid, this`invalidated, this`queued, this`lowered,
               context`touched, context`touchedCount, context`positions, context.store
      ensures Valid() && context.store.model == old(context.store.model)
      ensures OnlyPart(old(context.store.records), context.store.records, objective)
      ensures PhaseFits(G(), old(Now()))
      ensures var after := Invalidate(G(), old(Now()), old(Flagged(invalid)));
              && status == (if |after.touched| <= context.budget then Ok else ResourceBound)
              && (status.Ok? ==> Ready() && Now() == after)
    {
      var head := 0;
      ghost var g, start, all := G(), Now(), Invalidate(G(), Now(), Flagged(invalid));
      assert invalidated[0..] == invalidated;
      SameIdsAreListed(invalidated, invalid);
      SizeInPairs(g, Flagged(invalid));
      while head < |invalidated|
        invariant Ready() && context.store.model == old(context.store.model) && g == G()
        invariant OnlyPart(old(context.store.records), context.store.records, objective)
        invariant head <= |invalidated|
        invariant BoundedWhileSettling(g, Now(), Listed(invalidated[head..]))
        invariant Invalidate(g, Now(), Listed(invalidated[head..])) == all
        invariant |Flagged(invalid)| <= g.pairs
        decreases g.pairs - |Flagged(invalid)|, |invalidated| - head
      {
        ghost var before, wave, was := Now(), Listed(invalidated[head..]), context.store.records;
        assert invalidated[head] in wave;
        var count := |invalidated|;
        status := InvalidateRound(head);
        OnlyPartTwice(old(context.store.records), was, context.store.records, objective);
        ghost var batch := Sources(g, wave) - before.invalid;
        InvalidateNext(g, before, wave, RepairSpec.SettleBatch(g, before, batch), Raised(g, before.records, batch));
        if !status.Ok? {
          SubsetSize(before.touched + batch, all.touched);
          return;
        }
        head := count;
        ListedIsEmpty(invalidated[head..]);
        BoundedIsAddable(g, Now(), Listed(invalidated[head..]));
      }
      assert Listed(invalidated[head..]) == {};
      status := Ok;
    }

    // ---------- Phase three ----------

    /** tentative := distance; push. */
    method Offer(pair: nat, distance: nat, ghost finished: set<nat>, ghost waiting: set<nat>)
      requires heap.Valid() && pair < |tentative| && pair in Flagged(invalid)
      requires distance < NONE && distance <= tentative[pair]
      requires HeapCovers(heap.items, tentative, Flagged(invalid), finished, waiting)
      modifies this`tentative, heap
      ensures heap.Valid() && tentative == old(tentative)[pair := distance]
      ensures HeapCovers(heap.items, tentative, Flagged(invalid), finished, waiting + {pair})
    {
      heap.Push(pair, distance);
      CoversPush(old(heap.items), heap.items, tentative, Flagged(invalid), finished, waiting, pair, distance);
      tentative := tentative[pair := distance];
    }

    /** sg_seed_rebuild_heap */
    method SeedHeap()
      requires Ready() && Fresh() && heap.Valid() && heap.items == []
      requires forall p | p in Flagged(invalid) :: !SameState(context.store.model, p)
      modifies this`tentative, context`positions, heap
      ensures Ready() && heap.Valid()
      ensures HeapCovers(heap.items, tentative, Flagged(invalid), {}, Flagged(invalid))
      ensures forall p {:trigger tentative[p]} | p in Flagged(invalid) :: tentative[p] == Best(G(), R(), p).distance
    {
      SameIdsAreListed(invalidated, invalid);
      assert forall k | 0 <= k < |invalidated| :: invalidated[k] in invalidated;
      FewDistinct(invalidated, |invalid|);
      var status, current, candidates := context.Evaluate(invalidated, objective);
      OfferAll(candidates);
      forall p | p in Flagged(invalid) ensures tentative[p] == Best(G(), R(), p).distance {
        assert p in Listed(invalidated);
        var k :| 0 <= k < |invalidated| && invalidated[k] == p;
      }
    }

    method OfferAll(candidates: seq<PairRecord>)
      requires Fresh() && heap.Valid() && heap.items == [] && Distinct(invalidated)
      requires |candidates| == |invalidated| && |invalid| == |tentative| && SameIds(invalidated, invalid)
      requires forall l | 0 <= l < |candidates| :: candidates[l].Part(objective).distance <= NONE
      modifies this`tentative, heap
      ensures heap.Valid() && |tentative| == |invalid|
      ensures HeapCovers(heap.items, tentative, Flagged(invalid), {}, Flagged(invalid))
      ensures forall l | 0 <= l < |invalidated| ::
                invalidated[l] < |tentative| && tentative[invalidated[l]] == candidates[l].Part(objective).distance
    {
      SameIdsAreListed(invalidated, invalid);
      assert forall l | 0 <= l < |invalidated| :: invalidated[l] in Listed(invalidated);
      for k := 0 to |invalidated|
        invariant heap.Valid() && |tentative| == |invalid|
        invariant HeapCovers(heap.items, tentative, Flagged(invalid), {}, Listed(invalidated[..k]))
        invariant forall l | 0 <= l < k ::
                    invalidated[l] < |tentative| && tentative[invalidated[l]] == candidates[l].Part(objective).distance
        invariant forall l | k <= l < |invalidated| :: invalidated[l] < |tentative| && tentative[invalidated[l]] == NONE
      {
        var pair, distance := invalidated[k], candidates[k].Part(objective).distance;
        assert invalidated[..k + 1] == invalidated[..k] + [pair];
        ListedAppend(invalidated[..k], [pair]);
        assert Listed([pair]) == {pair};
        assert pair in Listed(invalidated);
        DistinctIndex(invalidated, k);
        assert forall l | 0 <= l < k :: invalidated[l] == invalidated[..k][l];
        if distance != NONE {
          Offer(pair, distance, {}, Listed(invalidated[..k]));
        }
      }
      assert invalidated[..|invalidated|] == invalidated;
    }

    /** The pairs the rebuild still waits for. */
    ghost function Waiting(): set<nat>
      reads `invalid, `finalized, `queued
    {
      Flagged(invalid) - Flagged(finalized) - Flagged(queued)
    }

    /** What the inner loop keeps: the frontier is what was popped and current. */
    ghost predicate Popping(frontier: seq<nat>, distance: nat, waiting: set<nat>)
      reads this, heap
    {
      && |queued| == |tentative| == |finalized| == |invalid| && heap.Valid() && Distinct(frontier)
      && Waiting() == waiting - Listed(frontier)
      && (forall p | p in frontier :: p in waiting && p < |tentative| && tentative[p] == distance)
      && HeapCovers(heap.items, tentative, Flagged(invalid), Flagged(finalized), waiting - Listed(frontier))
      && (forall e | e in heap.items :: distance <= e.distance)
    }

    method PopOne(frontier: seq<nat>, distance: nat, ghost waiting: set<nat>) returns (longer: seq<nat>)
      requires Popping(frontier, distance, waiting) && |heap.items| != 0 && heap.items[0].distance == distance
      modifies this`queued, heap
      ensures Popping(longer, distance, waiting) && |heap.items| < |old(heap.items)|
      ensures Flagged(queued) - Listed(longer) == old(Flagged(queued)) - Listed(frontier)
      ensures Listed(frontier) <= Listed(longer) && Listed(longer) - Listed(frontier) !! old(Flagged(queued))
    {
      var entry := heap.Pop();
      longer := frontier;
      ItemsOf(old(heap.items), heap.items, entry);
      CoversPop(old(heap.items), heap.items, tentative, Flagged(invalid), Flagged(finalized),
          waiting - Listed(frontier), entry);
      if !finalized[entry.pair] && tentative[entry.pair] == entry.distance && !queued[entry.pair] {
        FlagOne(queued, entry.pair);
        DistinctAppend(frontier, entry.pair);
        ListedAppend(frontier, [entry.pair]);
        assert Listed([entry.pair]) == {entry.pair};
        queued := queued[entry.pair := true];
        longer := frontier + [entry.pair];
        assert waiting - Listed(longer) == waiting - Listed(frontier) - {entry.pair};
      }
    }

    /** The inner loop: pop every entry at the least distance, keep each pair whose
        entry is current and that is not queued. */
    method PopLevel(distance: nat) returns (frontier: seq<nat>)
      requires |invalid| == |finalized| == |queued| == |tentative|
      requires heap.Valid() && heap.items != [] && heap.items[0].distance == distance
      requires HeapCovers(heap.items, tentative, Flagged(invalid), Flagged(finalized), Waiting())
      modifies this`queued, heap
      ensures |queued| == |tentative| && heap.Valid() && |heap.items| < |old(heap.items)|
      ensures Distinct(frontier) && Flagged(queued) == old(Flagged(queued)) + Listed(frontier)
      ensures Listed(frontier) !! old(Flagged(queued))
      ensures forall p: nat :: p in frontier <==> p in old(Waiting()) && p < |tentative| && tentative[p] == distance
      ensures HeapCovers(heap.items, tentative, Flagged(invalid), Flagged(finalized), old(Waiting()) - Listed(frontier))
      ensures forall p | p in old(Waiting()) :: p < |tentative| && distance <= tentative[p]
    {
      forall e | e in heap.items ensures distance <= e.distance {
        var k :| 0 <= k < |heap.items| && heap.items[k] == e;
        TopIsLeast(heap.items, k);
      }
      ghost var waiting := Waiting();
      frontier := [];
      assert Listed(frontier) == {};
      frontier := PopOne(frontier, distance, waiting);
      while |heap.items| != 0 && heap.items[0].distance == distance
        invariant Popping(frontier, distance, waiting) && |heap.items| < |old(heap.items)|
        invariant Flagged(queued) - Listed(frontier) == old(Flagged(queued))
        invariant Listed(frontier) !! old(Flagged(queued)) && Listed(frontier) <= Flagged(queued)
        decreases |heap.items|
      {
        frontier := PopOne(frontier, distance, waiting);
      }
      forall e | e in heap.items ensures distance < e.distance {
        var k :| 0 <= k < |heap.items| && heap.items[k] == e;
        TopIsLeast(heap.items, k);
      }
    }

    method ClearQueued(frontier: seq<nat>)
      requires forall k | 0 <= k < |frontier| :: frontier[k] < |queued|
      modifies this`queued
      ensures |queued| == |old(queued)| && Flagged(queued) == old(Flagged(queued)) - Listed(frontier)
    {
      for k := 0 to |frontier|
        invariant |queued| == |old(queued)| && Flagged(queued) == old(Flagged(queued)) - Listed(frontier[..k])
      {
        assert frontier[..k + 1] == frontier[..k] + [frontier[k]];
        FlagOne(queued, frontier[k]);
        queued := queued[frontier[k] := false];
      }
      assert frontier[..|frontier|] == frontier;
    }

    method FinalizePair(pair: nat)
      requires pair < |finalized| && pair < |queued|
      modifies this`finalized, this`queued, this`lowered
      ensures |finalized| == |old(finalized)| && |queued| == |old(queued)|
      ensures old(SameIds(lowered, queued)) ==> SameIds(lowered, queued)
      ensures Flagged(finalized) == old(Flagged(finalized)) + {pair}
      ensures Flagged(queued) == old(Flagged(queued)) + {pair}
    {
      FlagOne(finalized, pair);
      finalized := finalized[pair := true];
      QueueLowered(pair);
    }

    /** An evaluated frontier: off-diagonal pairs, all at the level's distance. */
    ghost predicate IsFrontier(ids: seq<nat>, current: seq<PairRecord>, candidates: seq<PairRecord>, distance: nat)
      reads context.store
    {
      && Evaluated(ids, current, candidates) && distance < NONE
      && forall k | 0 <= k < |ids| ::
           !SameState(context.store.model, ids[k]) && candidates[k].Part(objective).distance == distance
    }

    ghost predicate NoFrontier(ids: seq<nat>, current: seq<PairRecord>, candidates: seq<PairRecord>, distance: nat)
      reads context.store
    {
      !IsFrontier(ids, current, candidates, distance)
    }

    /** The first k pairs of the frontier are finalized, queued and written. */
    ghost predicate FinishedUpto(ids: seq<nat>, k: nat, finalized0: set<nat>, queued0: set<nat>,
                                 writes: seq<PairRecord>)
      requires k <= |ids|
      reads this, context, context.store
    {
      && Valid() && SameIds(lowered, queued)
      && Flagged(finalized) == finalized0 + Listed(ids[..k]) && Flagged(queued) == queued0 + Listed(ids[..k])
      && RelaxedSoFar(G(), context.store.records, objective, Listed(ids[..k]), writes)
    }

    ghost predicate Unfinished(ids: seq<nat>, k: nat, finalized0: set<nat>, queued0: set<nat>, writes: seq<PairRecord>)
      requires k <= |ids|
      reads this, context, context.store
    {
      !FinishedUpto(ids, k, finalized0, queued0, writes)
    }

    /** One turn of the loop.  The candidate is at the level's distance, so the branch
        that skips or pushes back is never taken. */
    method FinishAt(ids: seq<nat>, current: seq<PairRecord>, candidates: seq<PairRecord>, distance: nat, k: nat,
                    ghost finalized0: set<nat>, ghost queued0: set<nat>, writes: seq<PairRecord>)
      returns (more: seq<PairRecord>)
      requires !NoFrontier(ids, current, candidates, distance) && k < |ids|
      requires !Unfinished(ids, k, finalized0, queued0, writes)
      modifies this`finalized, this`queued, this`lowered
      ensures !Unfinished(ids, k + 1, finalized0, queued0, more)
    {
      if candidates[k].Part(objective).distance != distance {
        assert false;
      }
      FrontierNext(ids, current, candidates, distance, k, writes);
      ghost var done, next := Listed(ids[..k]), Listed(ids[..k + 1]);
      assert finalized0 + next == (finalized0 + done) + {ids[k]} && queued0 + next == (queued0 + done) + {ids[k]} by {
        PrefixGrows(ids, k);
        UnionGrows(finalized0, done, ids[k], next);
        UnionGrows(queued0, done, ids[k], next);
      }
      FinalizePair(ids[k]);
      more := writes;
      if candidates[k].Part(objective) != current[k].Part(objective) {
        more := writes + [candidates[k]];
      }
      assert Valid();
      assert SameIds(lowered, queued);
      assert Flagged(finalized) == finalized0 + Listed(ids[..k + 1]);
      assert Flagged(queued) == queued0 + Listed(ids[..k + 1]);
      assert RelaxedSoFar(G(), context.store.records, objective, Listed(ids[..k + 1]), more);
    }

    /** The write of one turn, if it needs one. */
    lemma FrontierNext(ids: seq<nat>, current: seq<PairRecord>, candidates: seq<PairRecord>, distance: nat, k: nat,
                       writes: seq<PairRecord>)
      requires context.store.Valid() && IsFrontier(ids, current, candidates, distance) && k < |ids|
      requires RelaxedSoFar(G(), context.store.records, objective, Listed(ids[..k]), writes)
      ensures RelaxedSoFar(G(), context.store.records, objective, Listed(ids[..k + 1]),
                           if candidates[k].Part(objective) != current[k].Part(objective)
                               then writes + [candidates[k]] else writes)
    {
      PrefixGrows(ids, k);
      RelaxedNext(G(), context.store.records, objective, Listed(ids[..k]), writes, ids[k],
          candidates[k].Part(objective),
                  if candidates[k].Part(objective) != current[k].Part(objective) then writes + [candidates[k]]
                      else writes);
    }

    lemma FinishStarts(ids: seq<nat>)
      requires Valid() && Evaluable(context.store.model, context.store.records, objective) && SameIds(lowered, queued)
      ensures !Unfinished(ids, 0, Flagged(finalized), Flagged(queued), [])
    {
      RelaxedStart(G(), context.store.records, objective);
      assert Listed(ids[..0]) == {};
    }

    lemma FinishEnds(ids: seq<nat>, finalized0: set<nat>, queued0: set<nat>, writes: seq<PairRecord>)
      requires !Unfinished(ids, |ids|, finalized0, queued0, writes)
      ensures Valid() && SameIds(lowered, queued)
      ensures Flagged(finalized) == finalized0 + Listed(ids) && Flagged(queued) == queued0 + Listed(ids)
      ensures RelaxedSoFar(G(), context.store.records, objective, Listed(ids), writes)
    {
      assert ids[..|ids|] == ids;
    }

    /** The loop that finalizes an evaluated frontier. */
    method FinishLevel(ids: seq<nat>, current: seq<PairRecord>, candidates: seq<PairRecord>, distance: nat)
      returns (writes: seq<PairRecord>)
      requires Valid() && !NoFrontier(ids, current, candidates, distance) && SameIds(lowered, queued)
      modifies this`finalized, this`queued, this`lowered
      ensures !Unfinished(ids, |ids|, old(Flagged(finalized)), old(Flagged(queued)), writes)
    {
      writes := [];
      ghost var finalized0, queued0 := Flagged(finalized), Flagged(queued);
      FinishStarts(ids);
      for k := 0 to |ids|
        invariant !Unfinished(ids, k, finalized0, queued0, writes)
      {
        writes := FinishAt(ids, current, candidates, distance, k, finalized0, queued0, writes);
      }
    }

    /** The rebuild as a value; first is what was queued before it began. */
    ghost function Progress(first: set<nat>): View
      requires context.store.model.Valid()
      reads this, context, context.store, heap
    {
      View(G(), R(), tentative, heap.items, Flagged(invalid), Flagged(finalized), first)
    }

    ghost predicate Working(first: set<nat>)
      reads this, context, context.store, heap
    {
      && Valid() && context.Readable(objective) && heap.Valid()
      && SameIds(lowered, queued) && Flagged(queued) == first + Flagged(finalized)
    }

    /** The inner loop and the loop that takes the frontier's flags back. */
    method TakeLevel(distance: nat) returns (frontier: seq<nat>)
      requires |invalid| == |finalized| == |queued| == |tentative|
      requires heap.Valid() && heap.items != [] && heap.items[0].distance == distance
      requires HeapCovers(heap.items, tentative, Flagged(invalid), Flagged(finalized), Waiting())
      modifies this`queued, heap
      ensures |queued| == |tentative| && Flagged(queued) == old(Flagged(queued))
      ensures heap.Valid() && |heap.items| < |old(heap.items)|
      ensures Distinct(frontier) && forall k | 0 <= k < |frontier| :: frontier[k] < |tentative|
      ensures forall p: nat :: p in Listed(frontier) <==> p in Waiting() && p < |tentative| && tentative[p] == distance
      ensures HeapCovers(heap.items, tentative, Flagged(invalid), Flagged(finalized), Waiting() - Listed(frontier))
      ensures forall p | p in Waiting() :: p < |tentative| && distance <= tentative[p]
    {
      frontier := PopLevel(distance);
      assert forall k | 0 <= k < |frontier| :: frontier[k] in frontier;
      ClearQueued(frontier);
      assert Flagged(queued) == old(Flagged(queued));
    }

    /** Evaluate a frontier, finalize it and write it. */
    method WriteLevel(frontier: seq<nat>, distance: nat)
      requires Valid() && context.Readable(objective) && SameIds(lowered, queued) && distance < NONE
      requires Distinct(frontier)
      requires forall k | 0 <= k < |frontier| ::
                 && frontier[k] < |invalid| && !SameState(context.store.model, frontier[k])
                 && Best(G(), R(), frontier[k]).distance == distance
      modifies this`finalized, this`queued, this`lowered, context`positions, context.store
      ensures Valid() && context.store.model == old(context.store.model)
      ensures OnlyPart(old(context.store.records), context.store.records, objective)
      ensures Listed(frontier) <= Upto(G().pairs) && R() == Relaxed(G(), old(R()), Listed(frontier))
      ensures Flagged(finalized) == old(Flagged(finalized)) + Listed(frontier)
      ensures Flagged(queued) == old(Flagged(queued)) + Listed(frontier) && SameIds(lowered, queued)
    {
      FewDistinct(frontier, |invalid|);
      var status, current, candidates := context.Evaluate(frontier, objective);
      var writes := FinishLevel(frontier, current, candidates, distance);
      FinishEnds(frontier, old(Flagged(finalized)), old(Flagged(queued)), writes);
      Commit(writes, Relaxed(G(), R(), Listed(frontier)));
    }

    /** One turn of the arc loop of sg_relax_invalid_predecessors. */
    method RelaxOne(arc: Arc, distance: nat, ghost before: Entries, ghost level: set<nat>, ghost first: set<nat>)
      requires Working(first) && Relaxing(Progress(first), before, level, distance)
      requires IsArc(context.store.model, arc) && arc.target in level
      modifies this`tentative, heap
      ensures Working(first) && Relaxing(Progress(first), before, level, distance)
      ensures forall p | p in Progress(first).Open() :: tentative[p] <= old(tentative)[p]
      ensures arc.source in Progress(first).Open() && !(objective.Resolution? && arc.outputsDiffer) ==>
                tentative[arc.source] <= distance + 1
    {
      ArcInGraph(context.store.model, objective, arc);
      var source := arc.source;
      if !invalid[source] || finalized[source] || context.diagonal[source] {
        return;
      }
      var candidate := if objective.Resolution? && arc.outputsDiffer then 1 else distance + 1;
      if candidate < tentative[source] {
        ghost var v := Progress(first);
        heap.Push(source, candidate);
        OfferKeepsRelaxing(v, before, level, distance, source, arc.action, candidate, heap.items);
        tentative := tentative[source := candidate];
      }
    }

    /** The loop over the arcs into a level. */
    method OfferArcs(arcs: seq<Arc>, distance: nat, ghost before: Entries, ghost level: set<nat>,
                     ghost open: set<nat>, ghost first: set<nat>)
      requires Working(first) && Relaxing(Progress(first), before, level, distance) && open == Progress(first).Open()
      requires forall l {:trigger arcs[l]} | 0 <= l < |arcs| ::
               IsArc(context.store.model, arcs[l]) && arcs[l].target in level
      modifies this`tentative, heap
      ensures Working(first) && Relaxing(Progress(first), before, level, distance)
      ensures ArcsOffered(tentative, open, arcs, |arcs|, objective, distance)
    {
      for l := 0 to |arcs|
        invariant Working(first) && Relaxing(Progress(first), before, level, distance)
        invariant ArcsOffered(tentative, open, arcs, l, objective, distance)
      {
        ghost var was := tentative;
        RelaxOne(arcs[l], distance, before, level, first);
        ArcsOfferedNext(was, tentative, open, arcs, l, objective, distance);
      }
    }

    /** sg_relax_invalid_predecessors */
    method RelaxPredecessors(targets: seq<nat>, distance: nat, ghost before: Entries, ghost first: set<nat>)
      requires Working(first) && Relaxing(Progress(first), before, Listed(targets), distance)
      requires forall k | 0 <= k < |targets| :: targets[k] < |tentative|
      modifies this`tentative, heap
      ensures Working(first) && Sound(Progress(first), {})
      ensures Progress(first) == old(Progress(first)).(tentative := tentative, items := heap.items)
    {
      ghost var level, open := Listed(targets), Progress(first).Open();
      var status, arcs := context.store.ReadIncoming(targets);
      assert level == (set t | t in targets);
      forall l | 0 <= l < |arcs| ensures IsArc(context.store.model, arcs[l]) && arcs[l].target in level {
        assert arcs[l] in arcs;
      }
      OfferArcs(arcs, distance, before, level, open, first);
      AllOffered(context.store.model, objective, Progress(first), arcs, level, distance);
      RelaxingEnds(Progress(first), before, level, distance);
    }

    /** Write a level, ready to be relaxed. */
    method WriteFrontier(frontier: seq<nat>, distance: nat, ghost first: set<nat>, ghost after: View)
      requires Working(first) && distance < NONE && Distinct(frontier)
      requires forall k | 0 <= k < |frontier| ::
                 && frontier[k] < |invalid| && !SameState(context.store.model, frontier[k])
                 && Best(G(), R(), frontier[k]).distance == distance
      requires after.r == Relaxed(G(), R(), Listed(frontier))
      requires after == Progress(first).(r := after.r, finished := Flagged(finalized) + Listed(frontier))
      requires Addable(after.r)
      modifies this`finalized, this`queued, this`lowered, context`positions, context.store
      ensures Working(first) && context.store.model == old(context.store.model)
      ensures OnlyPart(old(context.store.records), context.store.records, objective)
      ensures Progress(first) == after
    {
      WriteLevel(frontier, distance);
      assert R() == after.r;
    }

    ghost predicate Popped(frontier: seq<nat>, distance: nat, first: set<nat>)
      reads this, context, context.store, heap
    {
      && Working(first) && Sound(Progress(first), Listed(frontier)) && distance < NONE && Distinct(frontier)
      && (forall k | 0 <= k < |frontier| :: frontier[k] < |tentative|)
      && IsLevel(Progress(first), distance, Listed(frontier))
    }

    /** Write a popped level, ready to be relaxed. */
    method WritePopped(frontier: seq<nat>, distance: nat, ghost first: set<nat>)
      requires Popped(frontier, distance, first) && frontier != []
      modifies this`finalized, this`queued, this`lowered, context`positions, context.store
      ensures Working(first) && context.store.model == old(context.store.model)
      ensures OnlyPart(old(context.store.records), context.store.records, objective)
      ensures Relaxing(Progress(first), old(R()), Listed(frontier), distance)
      ensures Listed(frontier) == Nearest(G(), old(R()), old(Progress(first)).Waiting())
      ensures var v := old(Progress(first));
              Progress(first) == v.(r := R(), finished := v.finished + Listed(frontier))
    {
      ghost var v := Progress(first);
      assert Listed(frontier) <= Upto(v.g.pairs);
      ghost var w := v.(r := Relaxed(v.g, v.r, Listed(frontier)), finished := v.finished + Listed(frontier));
      PrepareLevel(v, distance, frontier, w);
      WriteFrontier(frontier, distance, first, w);
    }

    /** Write a level and relax what leads into it. */
    method RebuildLevel(frontier: seq<nat>, distance: nat, ghost first: set<nat>)
      requires Popped(frontier, distance, first) && frontier != []
      modifies this`finalized, this`queued, this`lowered, this`tentative, heap, context`positions, context.store
      ensures Working(first) && context.store.model == old(context.store.model)
      ensures OnlyPart(old(context.store.records), context.store.records, objective)
      ensures Sound(Progress(first), {}) && SameOutcome(old(Progress(first)), Progress(first))
      ensures |Progress(first).Waiting()| < |old(Progress(first)).Waiting()|
    {
      ghost var v := Progress(first);
      WritePopped(frontier, distance, first);
      RelaxPredecessors(frontier, distance, v.r, first);
      ListedIsEmpty(frontier);
      LevelSameOutcome(v, Progress(first), Listed(frontier));
    }

    /** Pop the next frontier. */
    method TakeFrontier(ghost first: set<nat>) returns (frontier: seq<nat>, distance: nat)
      requires Working(first) && Sound(Progress(first), {}) && heap.items != []
      modifies this`queued, heap
      ensures Popped(frontier, distance, first) && |heap.items| < |old(heap.items)|
      ensures Progress(first) == old(Progress(first)).(items := heap.items)
    {
      ghost var v := Progress(first);
      distance := heap.items[0].distance;
      assert heap.items[0] in heap.items;
      assert Waiting() == v.Waiting() - {};
      frontier := TakeLevel(distance);
      TakeKeepsSound(v, Progress(first), Listed(frontier));
    }

    /** One turn of the outer loop: either every popped entry was stale or skipped, or
        the next level of the specification is written. */
    method RebuildRound(ghost first: set<nat>)
      requires Working(first) && Sound(Progress(first), {}) && heap.items != []
      modifies this`finalized, this`queued, this`lowered, this`tentative, heap, context`positions, context.store
      ensures Working(first) && context.store.model == old(context.store.model)
      ensures OnlyPart(old(context.store.records), context.store.records, objective)
      ensures Sound(Progress(first), {}) && SameOutcome(old(Progress(first)), Progress(first))
      ensures var waiting, before := |Progress(first).Waiting()|, |old(Progress(first)).Waiting()|;
              waiting < before || (waiting == before && |heap.items| < |old(heap.items)|)
    {
      ghost var v := Progress(first);
      var frontier, distance := TakeFrontier(first);
      if |frontier| != 0 {
        RebuildLevel(frontier, distance, first);
      } else {
        ListedIsEmpty(frontier);
        StaleTurn(v, Progress(first));
      }
    }

    /** Fill the heap. */
    method StartRebuild() returns (ghost first: set<nat>)
      requires Ready() && Fresh() && heap.Valid() && heap.items == [] && Allocatable(G())
      requires OverEstimate(G(), R()) && Dense(R(), 2 * G().pairs + 1)
      requires forall p | p in Flagged(invalid) :: !SameState(context.store.model, p) && R()[p] == UNREACHABLE
      modifies this`tentative, context`positions, heap
      ensures Working(first) && Sound(Progress(first), {})
      ensures first == Flagged(queued) && Flagged(finalized) == {}
      ensures Progress(first).Waiting() == Rebuildable(Now())
    {
      first := Flagged(queued);
      SeedHeap();
      assert Progress(first).Shape();
      StartIsSound(Progress(first));
    }

    /** The outer loop. */
    method RebuildLoop(ghost first: set<nat>)
      requires Working(first) && Sound(Progress(first), {})
      modifies this`finalized, this`queued, this`lowered, this`tentative, heap, context`positions, context.store
      ensures Working(first) && context.store.model == old(context.store.model)
      ensures OnlyPart(old(context.store.records), context.store.records, objective)
      ensures Sound(Progress(first), {}) && SameOutcome(old(Progress(first)), Progress(first)) && heap.items == []
    {
      while |heap.items| != 0
        invariant Working(first) && context.store.model == old(context.store.model)
        invariant OnlyPart(old(context.store.records), context.store.records, objective)
        invariant Sound(Progress(first), {}) && SameOutcome(old(Progress(first)), Progress(first))
        decreases |Progress(first).Waiting()|, |heap.items|
      {
        ghost var was := context.store.records;
        RebuildRound(first);
        OnlyPartTwice(old(context.store.records), was, context.store.records, objective);
      }
    }

    /** sg_rebuild_invalidated */
    method RebuildInvalidated()
      requires Ready() && Fresh() && heap.Valid() && heap.items == [] && Allocatable(G())
      requires OverEstimate(G(), R()) && Dense(R(), 2 * G().pairs + 1)
      requires forall p | p in Flagged(invalid) :: !SameState(context.store.model, p) && R()[p] == UNREACHABLE
      modifies this`finalized, this`queued, this`lowered, this`tentative, heap, context`positions, context.store
      ensures Valid() && context.Readable(objective) && context.store.model == old(context.store.model)
      ensures OnlyPart(old(context.store.records), context.store.records, objective)
      ensures Fits(G(), old(R())) && Rebuildable(old(Now())) <= Upto(G().pairs)
      ensures R() == Rebuild(G(), old(R()), Rebuildable(old(Now())))
      ensures SameIds(lowered, queued)
      ensures Flagged(queued) == old(Flagged(queued)) + Rebuilt(G(), old(R()), Rebuildable(old(Now())))
    {
      ghost var first := StartRebuild();
      RebuildLoop(first);
      EmptyHeapEnds(Progress(first));
    }

    // ---------- Phase four ----------

    /** One turn of the loop over the evaluated sources.  A candidate is never farther
        than its record, so the model is never refused here. */
    method PropagateOne(pair: nat, current: PairRecord, candidate: PairRecord) returns (within: bool)
      requires Valid() && pair < |queued|
      requires candidate.Part(objective).distance <= current.Part(objective).distance
      modifies this`queued, this`lowered, context`touched, context`touchedCount
      ensures Valid()
      ensures Touched() == old(Touched()) + {pair} && within == (|Touched()| <= context.budget)
      ensures within && Farther(current, candidate) ==>
                && Flagged(queued) == old(Flagged(queued)) + {pair}
                && lowered == old(lowered) + (if pair in old(Flagged(queued)) then [] else [pair])
      ensures within && !Farther(current, candidate) ==> queued == old(queued) && lowered == old(lowered)
    {
      within := context.MarkTouched(pair);
      if within {
        if Farther(candidate, current) {
          assert false;
        }
        if Farther(current, candidate) {
          QueueLowered(pair);
        }
      }
    }

    /** One turn, with its write. */
    method PropagateNext(pair: nat, current: PairRecord, candidate: PairRecord, ghost before: set<nat>,
                         ghost done: set<nat>,
                         ghost old_: seq<nat>, ghost news: seq<nat>, writes: seq<PairRecord>)
      returns (within: bool, ghost news': seq<nat>, writes': seq<PairRecord>)
      requires Valid() && Evaluable(context.store.model, context.store.records, objective) && OverEstimate(G(), R())
      requires pair < |invalid| && pair !in done && !SameState(context.store.model, pair)
      requires lowered == old_ + news && SameIds(news, queued)
      requires PropagatedSoFar(G(), context.store.records, objective, before, done, news, Touched(), writes)
      requires current == context.store.records[pair]
      requires candidate == Candidate(context.store.model, context.store.records, objective, pair)
      modifies this`queued, this`lowered, context`touched, context`touchedCount
      ensures Valid()
      ensures Touched() == old(Touched()) + {pair} && within == (|Touched()| <= context.budget)
      ensures within ==> lowered == old_ + news' && SameIds(news', queued)
      ensures within ==>
                PropagatedSoFar(G(), context.store.records, objective, before, done + {pair}, news', Touched(), writes')
    {
      assert candidate.Part(objective) == Best(G(), R(), pair);
      assert pair !in news by {
        assert pair !in Listed(news);
      }
      SameIdsAppend(news, queued, pair);
      SameIdsAreListed(news, queued);
      ghost var touched := Touched();
      within := PropagateOne(pair, current, candidate);
      news', writes' := news, writes;
      if within {
        if Farther(current, candidate) {
          AppendLater(old_, news, pair);
          news' := news + [pair];
          ListedAppend(news, [pair]);
          assert Listed([pair]) == {pair};
          SameIdsAreListed(news', queued);
        }
        if candidate.Part(objective) != current.Part(objective) {
          writes' := writes + [candidate];
        }
        PropagatedNext(G(), context.store.records, objective, before, done, news, touched, writes, pair,
                       current.Part(objective), candidate.Part(objective), news', writes');
      }
    }

    ghost predicate OverEstimate0()
      reads context.store
    {
      Evaluable(context.store.model, context.store.records, objective) && OverEstimate(G(), R())
    }

    /** The first k of the evaluated sources are done. */
    ghost predicate PropagatedUpto(ids: seq<nat>, k: nat, before: set<nat>, old_: seq<nat>, news: seq<nat>,
                                   writes: seq<PairRecord>)
      requires k <= |ids|
      reads this, context, context.store
    {
      && Valid() && |Touched()| <= context.budget && lowered == old_ + news && SameIds(news, queued)
      && PropagatedSoFar(G(), context.store.records, objective, before, Listed(ids[..k]), news, Touched(), writes)
    }

    /** They are not.  Contracts carry the negation of this around in one piece. */
    ghost predicate Behind(ids: seq<nat>, k: nat, before: set<nat>, old_: seq<nat>, news: seq<nat>,
                           writes: seq<PairRecord>)
      requires k <= |ids|
      reads this, context, context.store
    {
      !PropagatedUpto(ids, k, before, old_, news, writes)
    }

    /** Off-diagonal pairs whose evaluations cannot be farther than their records. */
    ghost predicate Relaxable(ids: seq<nat>, current: seq<PairRecord>, candidates: seq<PairRecord>)
      reads context.store
    {
      && OverEstimate0() && Evaluated(ids, current, candidates)
      && forall k | 0 <= k < |ids| :: !SameState(context.store.model, ids[k])
    }

    ghost predicate Unrelaxable(ids: seq<nat>, current: seq<PairRecord>, candidates: seq<PairRecord>)
      reads context.store
    {
      !Relaxable(ids, current, candidates)
    }

    /** One turn of the loop. */
    method PropagateAt(ids: seq<nat>, current: seq<PairRecord>, candidates: seq<PairRecord>, k: nat,
                       ghost before: set<nat>, ghost old_: seq<nat>, ghost news: seq<nat>, writes: seq<PairRecord>)
      returns (within: bool, ghost news': seq<nat>, writes': seq<PairRecord>)
      requires !Unrelaxable(ids, current, candidates) && k < |ids| && !Behind(ids, k, before, old_, news, writes)
      modifies this`queued, this`lowered, context`touched, context`touchedCount
      ensures Valid() && within == (|Touched()| <= context.budget) && Touched() <= before + Listed(ids)
      ensures within ==> !Behind(ids, k + 1, before, old_, news', writes')
    {
      PrefixGrows(ids, k);
      PrefixInside(ids, k);
      within, news', writes' := PropagateNext(ids[k], current[k], candidates[k], before, Listed(ids[..k]), old_, news,
          writes);
    }

    lemma PropagateStarts(ids: seq<nat>)
      requires Valid() && OverEstimate0() && Flagged(queued) == {} && |Touched()| <= context.budget
      ensures !Behind(ids, 0, Touched(), lowered, [], [])
    {
      PropagatedStart(G(), context.store.records, objective, Touched());
      assert Listed(ids[..0]) == {};
      SameIdsAreListed([], queued);
    }

    lemma PropagateEnds(ids: seq<nat>, before: set<nat>, old_: seq<nat>, news: seq<nat>, writes: seq<PairRecord>)
      requires !Behind(ids, |ids|, before, old_, news, writes)
      ensures Valid() && lowered == old_ + news && SameIds(news, queued) && |Touched()| <= context.budget
      ensures PropagatedSoFar(G(), context.store.records, objective, before, Listed(ids), news, Touched(), writes)
    {
      assert ids[..|ids|] == ids;
    }

    /** The loop over the evaluated sources. */
    method PropagateAll(ids: seq<nat>, current: seq<PairRecord>, candidates: seq<PairRecord>)
      returns (status: Status, writes: seq<PairRecord>, ghost news: seq<nat>)
      requires Valid() && !Unrelaxable(ids, current, candidates) && Flagged(queued) == {}
               && |Touched()| <= context.budget
      modifies this`queued, this`lowered, context`touched, context`touchedCount
      ensures Valid() && Touched() <= old(Touched()) + Listed(ids)
      ensures status == if |Touched()| <= context.budget then Ok else ResourceBound
      ensures status.Ok? ==> !Behind(ids, |ids|, old(Touched()), old(lowered), news, writes)
    {
      writes, news := [], [];
      ghost var before, old_ := Touched(), lowered;
      PropagateStarts(ids);
      for k := 0 to |ids|
        invariant !Behind(ids, k, before, old_, news, writes)
      {
        var within;
        within, news, writes := PropagateAt(ids, current, candidates, k, before, old_, news, writes);
        if !within {
          return ResourceBound, writes, news;
        }
      }
      PropagateEnds(ids, before, old_, news, writes);
      status := Ok;
    }

    /** Evaluate the sources of a wave and write what they are now worth. */
    method PropagateBatch(ids: seq<nat>) returns (status: Status, ghost news: seq<nat>)
      requires Valid() && context.Readable(objective) && OverEstimate0() && |Touched()| <= context.budget
      requires Distinct(ids) && Flagged(queued) == {}
      requires forall k | 0 <= k < |ids| :: ids[k] < |queued| && !SameState(context.store.model, ids[k])
      modifies this`queued, this`lowered, context`touched, context`touchedCount, context`positions, context.store
      ensures Valid() && context.store.model == old(context.store.model)
      ensures OnlyPart(old(context.store.records), context.store.records, objective)
      ensures Evaluable(context.store.model, old(context.store.records), objective) && Listed(ids) <= Upto(G().pairs)
      ensures status == if |old(Touched()) + Listed(ids)| <= context.budget then Ok else ResourceBound
      ensures status.Ok? ==>
                && Touched() == old(Touched()) + Listed(ids)
                && R() == Relaxed(G(), old(R()), Listed(ids))
                && lowered == old(lowered) + news && SameIds(news, queued)
                && Listed(news) == Lowered(G(), old(R()), Listed(ids))
    {
      FewDistinct(ids, |queued|);
      var current, candidates, writes;
      status, current, candidates := context.Evaluate(ids, objective);
      status, writes, news := PropagateAll(ids, current, candidates);
      if status.Ok? {
        PropagateEnds(ids, old(Touched()), old(lowered), news, writes);
        Commit(writes, Relaxed(G(), R(), Listed(ids)));
      } else {
        SubsetSize(Touched(), old(Touched()) + Listed(ids));
      }
    }

    /** Take the flags of the targets back and collect their sources. */
    method TakeWave(head: nat) returns (sources: seq<nat>)
      requires Valid() && head <= |lowered| && SameIds(lowered[head..], queued)
      modifies this`queued, context`positions
      ensures Valid() && Flagged(queued) == {} && Distinct(sources)
      ensures forall k | 0 <= k < |sources| :: sources[k] < |queued| && !SameState(context.store.model, sources[k])
      ensures Listed(sources) == Sources(G(), old(Flagged(queued)))
    {
      var targets := lowered[head..];
      assert forall k | 0 <= k < |targets| :: targets[k] in targets;
      SameIdsAreListed(targets, queued);
      ClearQueued(targets);
      assert Flagged(queued) == {};
      var none := seq(|queued|, _ => false);
      assert Flagged(none) == {};
      sources := context.CollectSources(targets, none, objective);
    }

    ghost function Current(): Wave
      reads this, context, context.store
    {
      Wave(R(), Flagged(queued), Touched())
    }

    /** One turn of the loop of sg_propagate_decreases, on the targets after head. */
    method PropagateRound(head: nat) returns (status: Status, ghost news: seq<nat>)
      requires Valid() && context.Readable(objective) && OverEstimate0() && |Touched()| <= context.budget
      requires head <= |lowered| && SameIds(lowered[head..], queued)
      modifies this`queued, this`lowered, context`touched, context`touchedCount, context`positions, context.store
      ensures Valid() && context.store.model == old(context.store.model)
      ensures OnlyPart(old(context.store.records), context.store.records, objective)
      ensures Fits(G(), old(R()))
      ensures status == if |NextWave(G(), old(Current())).touched| <= context.budget then Ok else ResourceBound
      ensures status.Ok? ==>
                && Current() == NextWave(G(), old(Current()))
                && lowered == old(lowered) + news && SameIds(news, queued)
    {
      var sources := TakeWave(head);
      status, news := PropagateBatch(sources);
      SameIdsAreListed(news, queued);
    }

    /** sg_propagate_decreases */
    method PropagateDecreases() returns (status: Status)
      requires Valid() && context.Readable(objective) && Propagable(G(), R()) && |Touched()| <= context.budget
      requires SameIds(lowered, queued)
      modifies this`queued, this`lowered, context`touched, context`touchedCount, context`positions, context.store
      ensures Valid() && context.store.model == old(context.store.model)
      ensures OnlyPart(old(context.store.records), context.store.records, objective)
      ensures Propagable(G(), old(R()))
      ensures var touched := old(Touched()) + PropagateTouches(G(), old(R()), old(Flagged(queued)));
              && status == (if |touched| <= context.budget then Ok else ResourceBound)
              && (status.Ok? ==> Touched() == touched && R() == Propagate(G(), old(R()), old(Flagged(queued))))
    {
      var head := 0;
      ghost var g, start := G(), Current();
      assert lowered[0..] == lowered;
      while head < |lowered|
        invariant Valid() && context.Readable(objective) && |Touched()| <= context.budget
        invariant context.store.model == old(context.store.model)
        invariant OnlyPart(old(context.store.records), context.store.records, objective)
        invariant head <= |lowered| && SameIds(lowered[head..], queued)
        invariant SameEnd(g, start, Current())
        decreases Total(R(), g.pairs), |lowered| - head
      {
        ghost var was, before := context.store.records, Current();
        assert lowered[head] in lowered[head..];
        var count := |lowered|;
        ghost var news;
        status, news := PropagateRound(head);
        OnlyPartTwice(old(context.store.records), was, context.store.records, objective);
        PropagateUnfolds(g, start, before, NextWave(g, before));
        if !status.Ok? {
          SubsetSize(before.touched + Sources(g, before.queued),
              start.touched + PropagateTouches(g, start.r, start.queued));
          return;
        }
        assert lowered[count..] == news;
        SameIdsAreListed(news, queued);
        ListedIsEmpty(news);
        head := count;
      }
      SameIdsAreListed(lowered[head..], queued);
      assert Listed(lowered[head..]) == {};
      status := Ok;
    }
  }
}
