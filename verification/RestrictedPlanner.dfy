/** sg_plan_sync_allowed: the planner over a list of permitted letters, and why it
    agrees with the unrestricted one. */
module RestrictedPlanner {
  import opened Records
  import opened PairGraph
  import opened RepairBounds
  import opened Pairs
  import opened Snapshot
  import opened Supports
  import opened WordSearch
  import opened SupportSearch
  import opened Witnesses
  import opened Planner
  import opened Restricted
  import opened PairSearch

  /** The pick is what offering the first words of the pairs leaves.  The definition is
      some steps away, so that only PickedIs unfolds it. */
  ghost predicate Picked(m: Automaton, active: set<nat>, letters: seq<nat>, best: Pick, pairs: seq<(nat, nat)>) {
    PickedIn(m, active, letters, best, pairs, DEPTH + 1)
  }

  ghost predicate PickedIn(m: Automaton, active: set<nat>, letters: seq<nat>, best: Pick, pairs: seq<(nat, nat)>,
                           steps: nat)
    decreases steps
  {
    if steps > 0 then PickedIn(m, active, letters, best, pairs, steps - 1)
    else
      && AreLetters(m, letters) && Merging(m, FirstWords(m, letters))
      && (forall k | 0 <= k < |pairs| :: pairs[k].0 < m.states && pairs[k].1 < m.states)
      && Shrinks(m, active, best) && best == PickFrom(m, active, FirstWords(m, letters), pairs)
  }

  lemma PickedIs(m: Automaton, active: set<nat>, letters: seq<nat>, best: Pick, pairs: seq<(nat, nat)>)
    ensures Picked(m, active, letters, best, pairs) <==>
              && AreLetters(m, letters) && Merging(m, FirstWords(m, letters))
              && (forall k | 0 <= k < |pairs| :: pairs[k].0 < m.states && pairs[k].1 < m.states)
              && Shrinks(m, active, best) && best == PickFrom(m, active, FirstWords(m, letters), pairs)
  {
    var k: nat := DEPTH + 1;
    while k > 0
      invariant PickedIn(m, active, letters, best, pairs, DEPTH + 1) == PickedIn(m, active, letters, best, pairs, k)
    {
      k := k - 1;
    }
  }

  lemma OfferedNext(m: Automaton, active: set<nat>, letters: seq<nat>, best: Pick, pairs: seq<(nat, nat)>,
                    pair: (nat, nat), better: Pick)
    requires Picked(m, active, letters, best, pairs) && pair.0 < m.states && pair.1 < m.states
    requires AreLetters(m, letters) && Merging(m, FirstWords(m, letters)) && Shrinks(m, active, better)
             && better == Planner.Offer(m, active, FirstWords(m, letters), best, pair)
    ensures Picked(m, active, letters, better, pairs + [pair])
  {
    PickedIs(m, active, letters, best, pairs);
    PickedIs(m, active, letters, better, pairs + [pair]);
    assert (pairs + [pair])[..|pairs|] == pairs;
  }

  /** One candidate pair: search its word, and offer it. */
  method ConsiderPair(m: Automaton, letters: seq<nat>, active: set<nat>, first: nat, second: nat, best: Pick,
                      ghost pairs: seq<(nat, nat)>)
    returns (better: Pick)
    requires AreLetters(m, letters) && PairCount(m.states) < NONE && IsSupport(m, active)
    requires first in active && second in active && first < second
    requires Picked(m, active, letters, best, pairs)
    ensures Picked(m, active, letters, better, pairs + [(first, second)])
  {
    ghost var words := FirstWords(m, letters);
    var pair := PairIndex(m.states, first, second);
    IndexInRange(m.states, first, second);
    PickedIs(m, active, letters, best, pairs);
    OfferShrinks(m, active, words, best, (first, second));
    var found, word := AllowedMergeWord(m, letters, first, second);
    better := best;
    if found {
      MergeWordIsUnique(m, letters, pair, word, words[pair]);
      MergingIs(m, words);
      var status, support := ApplyWord(m, active, word);
      if Beats(support, word, pair, best) {
        better := Some(word, support, pair);
      }
    }
    OfferedNext(m, active, letters, best, pairs, (first, second), better);
  }

  /** Planner.PairsUpto, some steps away, so that only PairsToIs unfolds it. */
  ghost function PairsTo(active: set<nat>, n: nat, i: nat, j: nat): seq<(nat, nat)>
    requires i < j
  {
    PairsIn(active, n, i, j, DEPTH + 1)
  }

  ghost function PairsIn(active: set<nat>, n: nat, i: nat, j: nat, steps: nat): seq<(nat, nat)>
    requires i < j
    decreases steps
  {
    if steps > 0 then PairsIn(active, n, i, j, steps - 1) else PairsUpto(active, n, i, j)
  }

  lemma PairsToIs(active: set<nat>, n: nat, i: nat, j: nat)
    requires i < j
    ensures PairsTo(active, n, i, j) == PairsUpto(active, n, i, j)
  {
    var k: nat := DEPTH + 1;
    while k > 0
      invariant PairsIn(active, n, i, j, DEPTH + 1) == PairsIn(active, n, i, j, k)
    {
      k := k - 1;
    }
  }

  lemma RowGrows(active: set<nat>, n: nat, i: nat, j: nat)
    requires i in active && i < j
    ensures PairsTo(active, n, i, j + 1) == if j in active then PairsTo(active, n, i, j) + [(i, j)]
            else PairsTo(active, n, i, j)
  {
    PairsToIs(active, n, i, j);
    PairsToIs(active, n, i, j + 1);
  }

  /** The pairs of the rows before one. */
  ghost function RowsUpto(active: set<nat>, n: nat, row: nat): seq<(nat, nat)>
    requires row <= n
  {
    if row == 0 then [] else PairsTo(active, n, row - 1, n)
  }

  lemma RowStarts(active: set<nat>, n: nat, row: nat)
    requires row < n
    ensures PairsTo(active, n, row, row + 1) == RowsUpto(active, n, row)
    ensures row !in active ==> RowsUpto(active, n, row + 1) == RowsUpto(active, n, row)
  {
    PairsToIs(active, n, row, row + 1);
    PairsToIs(active, n, row, n);
    if row > 0 {
      PairsToIs(active, n, row - 1, n);
    }
    if row !in active {
      RowIsSkipped(active, n, row, n);
    }
  }

  /** The inner loop of sg_best_merge_allowed: the pairs of one first state. */
  method ConsiderRow(m: Automaton, letters: seq<nat>, active: set<nat>, first: nat, best: Pick) returns (better: Pick)
    requires AreLetters(m, letters) && PairCount(m.states) < NONE && IsSupport(m, active) && first in active
    requires Picked(m, active, letters, best, PairsTo(active, m.states, first, first + 1))
    ensures Picked(m, active, letters, better, PairsTo(active, m.states, first, m.states))
  {
    better := best;
    for second := first + 1 to m.states
      invariant Picked(m, active, letters, better, PairsTo(active, m.states, first, second))
    {
      RowGrows(active, m.states, first, second);
      if second in active {
        better := ConsiderPair(m, letters, active, first, second, better, PairsTo(active, m.states, first, second));
      }
    }
  }

  /** sg_best_merge_allowed */
  method BestMergeAllowed(m: Automaton, letters: seq<nat>, active: set<nat>) returns (best: Pick)
    requires AreLetters(m, letters) && PairCount(m.states) < NONE && IsSupport(m, active)
    ensures Picked(m, active, letters, best, AllPairs(active, m.states))
  {
    FirstWordsMerge(m, letters);
    best := None;
    PickedIs(m, active, letters, best, []);
    for first := 0 to m.states
      invariant Picked(m, active, letters, best, RowsUpto(active, m.states, first))
    {
      RowStarts(active, m.states, first);
      if first in active {
        best := ConsiderRow(m, letters, active, first, best);
      }
    }
    PairsToIs(active, m.states, m.states - 1, m.states);
  }

  /** The greedy phase over the permitted letters. */
  method MergeAllowed(m: Automaton, letters: seq<nat>, initial: set<nat>, budget: nat)
    returns (active: set<nat>, word: seq<nat>, spent: nat)
    requires AreLetters(m, letters) && PairCount(m.states) < NONE && IsSupport(m, initial)
             && Merging(m, FirstWords(m, letters))
    ensures MergedSoFar(m, initial, active, word, spent) && spent <= budget
    ensures Greed(active, word, spent) == Greedy(m, FirstWords(m, letters), initial, [], 0, budget)
  {
    active, word, spent := initial, [], 0;
    ghost var words := FirstWords(m, letters);
    while |active| > 1 && spent < budget
      invariant MergedSoFar(m, initial, active, word, spent) && spent <= budget
      invariant Greedy(m, words, active, word, spent, budget) == Greedy(m, words, initial, [], 0, budget)
      decreases |active|
    {
      var best := BestMergeAllowed(m, letters, active);
      PickedIs(m, active, letters, best, AllPairs(active, m.states));
      GreedyStep(m, words, active, word, spent, budget, best);
      if best == None {
        return;
      }
      MergeOn(m, initial, active, word, spent, best);
      active, word, spent := best.support, word + best.word, spent + 1;
    }
    GreedyStep(m, words, active, word, spent, budget, PickFrom(m, active, words, AllPairs(active, m.states)));
  }

  /** The planning of sg_plan_sync_allowed, on a set of states. */
  method SynchronizeAllowed(m: Automaton, letters: seq<nat>, initial: set<nat>, budget: nat)
    returns (result: PlanResult)
    requires AreLetters(m, letters) && PairCount(m.states) < NONE && IsSupport(m, initial) && budget > 0
    ensures SyncContract(m, initial, letters, budget, result)
    ensures Merging(m, FirstWords(m, letters)) && SyncFrom(m, FirstWords(m, letters), initial, letters, budget, result)
  {
    FirstWordsMerge(m, letters);
    if |initial| == 1 {
      return PlanResult(AlreadySatisfied, [], 0, initial);
    }
    SomeState(m, initial);
    var active, word, spent := MergeAllowed(m, letters, initial, budget);
    result := Finish(m, initial, letters, budget, active, word, spent);
  }

  /** sg_plan_sync_allowed */
  method PlanSyncAllowed(m: Automaton, initialIds: seq<nat>, letters: seq<nat>, budget: nat)
    returns (status: Status, result: PlanResult)
    requires m.Valid() && PairCount(m.states) < NONE
    ensures status == if LettersValid(m, letters) && IdsValid(m.states, initialIds) && budget > 0 then Ok
            else InvalidArgument
    ensures status.Ok? ==>
              && SyncContract(m, SupportSearch.IdSet(initialIds), letters, budget, result)
              && Merging(m, FirstWords(m, letters))
              && SyncFrom(m, FirstWords(m, letters), SupportSearch.IdSet(initialIds), letters, budget, result)
  {
    result := PlanResult(NoPlan, [], 0, {});
    var permitted := CheckLetters(m, letters);
    if !permitted || |initialIds| == 0 || budget == 0 {
      return InvalidArgument, result;
    }
    var initial;
    status, initial := FromIds(m.states, initialIds);
    if status != Ok {
      return;
    }
    assert initialIds[0] in initial;
    result := SynchronizeAllowed(m, letters, initial, budget);
  }

  /** Given every action in the order of ids, the restricted planner returns what the
      unrestricted one returns on exact records: outcome, word, expansions and all. */
  lemma RestrictedIsUnrestricted(m: Automaton, records: seq<PairRecord>, initial: set<nat>, budget: nat,
                                 r: PlanResult, s: PlanResult)
    requires m.Valid() && IsSupport(m, initial) && PairCount(m.states) <= SIZE_MAX / 8
    requires Consistent(PairGraphOf(m, Merge), Part(records, Merge))
             && AllFollowable(PairGraphOf(m, Merge), Part(records, Merge))
    requires SyncHonestly(m, records, initial, budget, r)
    requires AreLetters(m, AllLetters(m)) && Merging(m, FirstWords(m, AllLetters(m)))
    requires SyncFrom(m, FirstWords(m, AllLetters(m)), initial, AllLetters(m), budget, s)
    ensures r == s
  {
    ExactIsBounded(PairGraphOf(m, Merge), Part(records, Merge));
    SameWords(m, Part(records, Merge));
    SyncIsDetermined(m, FirstWords(m, AllLetters(m)), initial, AllLetters(m), budget, r, s);
  }
}
