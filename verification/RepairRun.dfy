/** A whole repair: both objectives, one after the other, on one budget. */
module RepairRun {
  import opened Records
  import opened PairGraph
  import opened RepairSpec
  import opened RepairTheory
  import opened RepairBounds
  import opened RepairTheorems
  import opened RepairSteps
  import opened Pairs
  import opened Snapshot
  import opened Repair

  // ---------- Between the phases ----------

  /** Truthful records of the old graph, and every changed arc starts at a seed. */
  ghost predicate Repairable(old_: Graph, g: Graph, r: Entries, seeds: set<nat>, touched: set<nat>) {
    ChangedOnlyAt(old_, g, seeds) && Truthful(old_, r) && touched <= Upto(g.pairs) && Allocatable(g)
  }

  lemma ReadyToSettle(old_: Graph, g: Graph, r: Entries, seeds: set<nat>, touched: set<nat>)
    requires Repairable(old_, g, r, seeds, touched)
    ensures Fits(g, r) && Addable(r)
    ensures var s := Seed(g, r, seeds, touched); BoundedWhileSettling(g, s, s.invalid) && Addable(s.records)
  {
    TruthfulIsBounded(old_, r);
    SeedIsBounded(g, r, seeds, touched);
    BoundedIsAddable(g, Seed(g, r, seeds, touched), Seed(g, r, seeds, touched).invalid);
  }

  /** What phases three and four need, and what they spend. */
  lemma ReadyToFinish(g: Graph, s: Phase)
    requires Finishable(g, s) && Dense(s.records, 2 * g.pairs + 1) && Allocatable(g)
    ensures Propagable(g, Rebuild(g, s.records, Rebuildable(s)))
  {
    RebuildOutcome(g, s.records, Rebuildable(s));
    RebuildKeepsDense(g, s.records, Rebuildable(s), 2 * g.pairs + 1);
  }

  ghost function Spent(g: Graph, s: Phase): (t: set<nat>)
    requires Finishable(g, s) && Dense(s.records, 2 * g.pairs + 1) && Allocatable(g)
    ensures s.touched <= t <= Upto(g.pairs)
  {
    ReadyToFinish(g, s);
    s.touched + PropagateTouches(g, Rebuild(g, s.records, Rebuildable(s)),
                                 s.lowered + Rebuilt(g, s.records, Rebuildable(s)))
  }

  /** The pairs on which one objective's repair spends budget. */
  ghost function Touches(old_: Graph, g: Graph, r: Entries, seeds: set<nat>, touched: set<nat>): (t: set<nat>)
    requires Repairable(old_, g, r, seeds, touched)
    ensures t <= Upto(g.pairs)
  {
    InvalidatedIsReady(old_, g, r, seeds, touched);
    Spent(g, Invalidated(g, r, seeds, touched))
  }

  /** Each phase spends at least what the phases before it spent. */
  lemma BudgetGrows(old_: Graph, g: Graph, r: Entries, seeds: set<nat>, touched: set<nat>)
    requires Repairable(old_, g, r, seeds, touched)
    ensures |Seed(g, r, seeds, touched).touched| <= |Invalidated(g, r, seeds, touched).touched|
            <= |Touches(old_, g, r, seeds, touched)|
  {
    var s := Seed(g, r, seeds, touched);
    InvalidateTouchesMore(g, s, s.invalid);
    SubsetSize(s.touched, Invalidated(g, r, seeds, touched).touched);
    SubsetSize(Invalidated(g, r, seeds, touched).touched, Touches(old_, g, r, seeds, touched));
  }

  // ---------- One objective ----------

  ghost predicate Prepared(context: Context, old_: Automaton, objective: Objective, seeds: seq<nat>)
    reads context, context.store
  {
    && context.Valid() && old_.Valid()
    && Repairable(PairGraphOf(old_, objective), PairGraphOf(context.store.model, objective),
                  context.Entries(objective), Listed(seeds), Flagged(context.touched))
  }

  /** Phases one and two. */
  method Settle(pass: Pass, seeds: seq<nat>, ghost old_: Graph) returns (status: Status)
    requires pass.Ready() && pass.Now() == Phase(pass.R(), {}, {}, pass.Touched()) && pass.invalidated == []
    requires Repairable(old_, pass.G(), pass.R(), Listed(seeds), pass.Touched()) && |seeds| < NONE
    modifies pass`invalid, pass`invalidated, pass`queued, pass`lowered,
             pass.context`touched, pass.context`touchedCount, pass.context`positions, pass.context.store
    ensures pass.Valid() && pass.context.store.model == old(pass.context.store.model)
    ensures OnlyPart(old(pass.context.store.records), pass.context.store.records, pass.objective)
    ensures Fits(pass.G(), old(pass.R()))
    ensures var after := Invalidated(pass.G(), old(pass.R()), Listed(seeds), old(pass.Touched()));
            && status == (if Verdict(seeds, pass.G().pairs) != Ok then Verdict(seeds, pass.G().pairs)
                          else if |after.touched| <= pass.context.budget then Ok else ResourceBound)
            && (status.Ok? ==> pass.Ready() && pass.Now() == after)
  {
    ghost var before, g := pass.context.store.records, pass.G();
    ghost var r, touched := pass.R(), pass.Touched();
    ReadyToSettle(old_, g, r, Listed(seeds), touched);
    BudgetGrows(old_, g, r, Listed(seeds), touched);
    ghost var news;
    assert pass.Done(seeds) == OffDiagonal(g, Listed(seeds));
    status, news := pass.SettleBatch(seeds);
    if status.Ok? {
      assert pass.Now() == Seed(g, r, Listed(seeds), touched);
      ghost var mid := pass.context.store.records;
      status := pass.InvalidateDependents();
      OnlyPartTwice(before, mid, pass.context.store.records, pass.objective);
    } else {
      assert |Invalidated(g, r, Listed(seeds), touched).touched| > pass.context.budget || Verdict(seeds, g.pairs) != Ok;
    }
  }

  /** Phases three and four. */
  method Finish(pass: Pass) returns (status: Status)
    requires pass.Ready() && pass.Fresh() && pass.heap.Valid() && pass.heap.items == []
    requires Finishable(pass.G(), pass.Now()) && Dense(pass.R(), 2 * pass.G().pairs + 1) && Allocatable(pass.G())
    modifies pass`finalized, pass`queued, pass`lowered, pass`tentative, pass.heap,
             pass.context`touched, pass.context`touchedCount, pass.context`positions, pass.context.store
    ensures pass.Valid() && pass.context.store.model == old(pass.context.store.model)
    ensures OnlyPart(old(pass.context.store.records), pass.context.store.records, pass.objective)
    ensures Finishable(pass.G(), old(pass.Now())) && Dense(old(pass.R()), 2 * pass.G().pairs + 1)
    ensures var touches := Spent(pass.G(), old(pass.Now()));
            && status == (if |touches| <= pass.context.budget then Ok else ResourceBound)
            && (status.Ok? ==> pass.Touched() == touches && pass.R() == RepairTheory.Finish(pass.G(), old(pass.Now())))
  {
    ghost var before, g, s := pass.context.store.records, pass.G(), pass.Now();
    ReadyToFinish(g, s);
    assert forall p | p in Flagged(pass.invalid) :: p in s.invalid;
    pass.RebuildInvalidated();
    ghost var mid := pass.context.store.records;
    status := pass.PropagateDecreases();
    OnlyPartTwice(before, mid, pass.context.store.records, pass.objective);
  }

  /** The four phases. */
  method RunPhases(pass: Pass, seeds: seq<nat>, ghost old_: Graph) returns (status: Status)
    requires pass.Ready() && pass.Now() == Phase(pass.R(), {}, {}, pass.Touched()) && pass.invalidated == []
    requires pass.Fresh() && pass.heap.Valid() && pass.heap.items == []
    requires Repairable(old_, pass.G(), pass.R(), Listed(seeds), pass.Touched()) && |seeds| < NONE
    modifies pass, pass.heap,
             pass.context`touched, pass.context`touchedCount, pass.context`positions, pass.context.store
    ensures pass.Valid() && pass.context.store.model == old(pass.context.store.model)
    ensures OnlyPart(old(pass.context.store.records), pass.context.store.records, pass.objective)
    ensures Repairable(old_, pass.G(), old(pass.R()), Listed(seeds), old(pass.Touched()))
    ensures var touches := Touches(old_, pass.G(), old(pass.R()), Listed(seeds), old(pass.Touched()));
            && status == (if Verdict(seeds, pass.G().pairs) != Ok then Verdict(seeds, pass.G().pairs)
                          else if |touches| <= pass.context.budget then Ok else ResourceBound)
            && (status.Ok? ==>
                 && pass.Touched() == touches
                 && pass.R() == Repaired(old_, pass.G(), old(pass.R()), Listed(seeds), old(pass.Touched())))
  {
    ghost var before, g, r, touched := pass.context.store.records, pass.G(), pass.R(), pass.Touched();
    InvalidatedIsReady(old_, g, r, Listed(seeds), touched);
    BudgetGrows(old_, g, r, Listed(seeds), touched);
    status := Settle(pass, seeds, old_);
    if status.Ok? {
      ghost var mid := pass.context.store.records;
      status := Finish(pass);
      OnlyPartTwice(before, mid, pass.context.store.records, pass.objective);
    }
  }

  method StartPass(context: Context, objective: Objective) returns (pass: Pass)
    requires context.Valid() && context.Readable(objective) && |Flagged(context.touched)| <= context.budget
    ensures fresh(pass) && fresh(pass.heap) && pass.context == context && pass.objective == objective
    ensures pass.Ready() && pass.Now() == Phase(pass.R(), {}, {}, pass.Touched()) && pass.invalidated == []
    ensures pass.Fresh() && pass.heap.Valid() && pass.heap.items == []
  {
    pass := new Pass(context, objective);
  }

  /** sg_repair_one_objective */
  method RepairOneObjective(context: Context, seeds: seq<nat>, objective: Objective, ghost old_: Automaton)
    returns (status: Status)
    requires Prepared(context, old_, objective, seeds) && |seeds| < NONE && |Flagged(context.touched)| <= context.budget
    modifies context`touched, context`touchedCount, context`positions, context.store
    ensures context.Valid() && context.store.model == old(context.store.model)
    ensures OnlyPart(old(context.store.records), context.store.records, objective)
    ensures var g := PairGraphOf(context.store.model, objective);
            var r, touched := old(context.Entries(objective)), old(Flagged(context.touched));
            var touches := Touches(PairGraphOf(old_, objective), g, r, Listed(seeds), touched);
            && status == (if Verdict(seeds, g.pairs) != Ok then Verdict(seeds, g.pairs)
                          else if |touches| <= context.budget then Ok else ResourceBound)
            && (status.Ok? ==>
                 && Flagged(context.touched) == touches
                 && context.Entries(objective) == Repaired(PairGraphOf(old_, objective), g, r, Listed(seeds), touched))
  {
    ghost var o := PairGraphOf(old_, objective);
    ReadyToSettle(o, PairGraphOf(context.store.model, objective), context.Entries(objective), Listed(seeds),
                  Flagged(context.touched));
    var pass := StartPass(context, objective);
    status := RunPhases(pass, seeds, o);
  }

  // ---------- Both objectives ----------

  /** What one objective's repair wrote leaves the other's entries alone. */
  lemma OnlyPartKeepsOther(old_: seq<PairRecord>, records: seq<PairRecord>, objective: Objective, other: Objective)
    requires OnlyPart(old_, records, objective) && other != objective
    ensures Part(records, other) == Part(old_, other)
  {
  }

  /** The store holds truthful records of the automaton as it was, and every arc that
      differs now starts at a seed. */
  ghost predicate Changed(store: Store, old_: Automaton, seeds: seq<nat>)
    reads store
  {
    && store.Valid() && old_.Valid() && Allocatable(PairGraphOf(store.model, Merge))
    && forall objective: Objective {:trigger Part(store.records, objective)} ::
         && ChangedOnlyAt(PairGraphOf(old_, objective), PairGraphOf(store.model, objective), Listed(seeds))
         && Truthful(PairGraphOf(old_, objective), Part(store.records, objective))
  }

  lemma ChangedIsRepairable(store: Store, old_: Automaton, seeds: seq<nat>, objective: Objective, touched: set<nat>)
    requires Changed(store, old_, seeds) && touched <= Upto(|store.records|)
    ensures Repairable(PairGraphOf(old_, objective), PairGraphOf(store.model, objective),
                       Part(store.records, objective), Listed(seeds), touched)
  {
    assert |Part(store.records, objective)| == |store.records|;
  }

  ghost function TouchedBy(old_: Automaton, m: Automaton, records: seq<PairRecord>, seeds: seq<nat>,
                           objective: Objective, touched: set<nat>): (t: set<nat>)
    requires old_.Valid() && m.Valid()
    requires Repairable(PairGraphOf(old_, objective), PairGraphOf(m, objective), Part(records, objective),
                        Listed(seeds), touched)
    ensures touched <= t <= Upto(PairCount(m.states))
  {
    var g, r := PairGraphOf(m, objective), Part(records, objective);
    var s := Seed(g, r, Listed(seeds), touched);
    InvalidateTouchesMore(g, s, s.invalid);
    Touches(PairGraphOf(old_, objective), g, r, Listed(seeds), touched)
  }

  /** Both objectives can be repaired from these records. */
  ghost predicate Startable(old_: Automaton, m: Automaton, records: seq<PairRecord>, seeds: seq<nat>) {
    && old_.Valid() && m.Valid()
    && forall objective: Objective {:trigger PairGraphOf(old_, objective)} ::
         Repairable(PairGraphOf(old_, objective), PairGraphOf(m, objective), Part(records, objective), Listed(seeds),
             {})
  }

  /** The pairs that the two repairs touch together. */
  ghost function BothTouched(old_: Automaton, m: Automaton, records: seq<PairRecord>, seeds: seq<nat>): (t: set<nat>)
    requires Startable(old_, m, records, seeds)
    ensures t <= Upto(PairCount(m.states)) && |t| <= PairCount(m.states)
    ensures TouchedBy(old_, m, records, seeds, Merge, {}) <= t
  {
    var first := TouchedBy(old_, m, records, seeds, Merge, {});
    assert PairGraphOf(old_, Resolution) == PairGraphOf(old_, Resolution);
    var both := TouchedBy(old_, m, records, seeds, Resolution, first);
    SizeInPairs(PairGraphOf(m, Resolution), both);
    both
  }

  /** What the first two phases of the merge repair touch is part of it. */
  lemma InvalidatedIsTouched(old_: Automaton, m: Automaton, records: seq<PairRecord>, seeds: seq<nat>)
    requires Startable(old_, m, records, seeds)
    ensures PairGraph.Fits(PairGraphOf(m, Merge), Part(records, Merge))
    ensures Invalidated(PairGraphOf(m, Merge), Part(records, Merge), Listed(seeds), {}).touched <= BothTouched(old_,
            m, records, seeds)
  {
    var o, g, r := PairGraphOf(old_, Merge), PairGraphOf(m, Merge), Part(records, Merge);
    InvalidatedIsReady(o, g, r, Listed(seeds), {});
  }

  /** The records of one objective after both repairs. */
  ghost function RepairedPart(old_: Automaton, m: Automaton, records: seq<PairRecord>, seeds: seq<nat>,
                              objective: Objective): Entries
    requires Startable(old_, m, records, seeds)
  {
    assert PairGraphOf(old_, objective) == PairGraphOf(old_, objective);
    var touched := if objective == Merge then {} else TouchedBy(old_, m, records, seeds, Merge, {});
    Repaired(PairGraphOf(old_, objective), PairGraphOf(m, objective), Part(records, objective), Listed(seeds), touched)
  }

  lemma ChangedIsStartable(store: Store, old_: Automaton, seeds: seq<nat>)
    requires Changed(store, old_, seeds)
    ensures Startable(old_, store.model, store.records, seeds)
  {
    forall objective: Objective
      ensures Repairable(PairGraphOf(old_, objective), PairGraphOf(store.model, objective),
              Part(store.records, objective), Listed(seeds), {})
    {
      ChangedIsRepairable(store, old_, seeds, objective, {});
    }
  }

  /** sg_pair_store_repair: either a refusal, or the budget does not cover the pairs
      that the two objectives touch together, or both are repaired. */
  method RepairStore(store: Store, seeds: seq<nat>, budget: nat, ghost old_: Automaton) returns (status: Status)
    requires Changed(store, old_, seeds) && |seeds| < NONE
    modifies store
    ensures store.Valid() && store.model == old(store.model)
    ensures Startable(old_, store.model, old(store.records), seeds)
    ensures status == (if seeds == [] || budget == 0 then InvalidArgument
                       else if Verdict(seeds, |store.records|) != Ok then Verdict(seeds, |store.records|)
                       else if |BothTouched(old_, store.model, old(store.records), seeds)| <= budget then Ok
                           else ResourceBound)
    ensures status.Ok? ==>
              && Part(store.records, Merge) == RepairedPart(old_, store.model, old(store.records), seeds, Merge)
              && Part(store.records, Resolution) == RepairedPart(old_, store.model, old(store.records), seeds,
                  Resolution)
  {
    ghost var m, records := store.model, store.records;
    ChangedIsRepairable(store, old_, seeds, Merge, {});
    ghost var first := TouchedBy(old_, m, records, seeds, Merge, {});
    ChangedIsStartable(store, old_, seeds);
    ChangedIsRepairable(store, old_, seeds, Resolution, first);
    SubsetSize(first, BothTouched(old_, m, records, seeds));
    if |seeds| == 0 || budget == 0 {
      return InvalidArgument;
    }
    var context := new Context(store, budget);
    status := RepairOneObjective(context, seeds, Merge, old_);
    OnlyPartKeepsOther(records, store.records, Merge, Resolution);
    if status.Ok? {
      ghost var mid := store.records;
      status := RepairOneObjective(context, seeds, Resolution, old_);
      OnlyPartKeepsOther(mid, store.records, Resolution, Merge);
    }
  }
}
