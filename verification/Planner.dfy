/** The synchronization planner: merge pairs greedily, then search supports. */
module Planner {
  import opened Records
  import opened PairGraph
  import opened Pairs
  import opened Snapshot
  import opened Supports
  import opened WordSearch
  import opened Counting
  import opened SupportSearch
  import opened PairWords
  import opened Witnesses
  import opened Restore

  // ---------- Choosing a merge ----------

  /** The best candidate so far: its word, where it takes the support, and its pair. */
  datatype Pick = None | Some(word: seq<nat>, support: set<nat>, pair: nat)

  /** sg_sync_candidate_better: the smaller support, then the shorter word, then the
      pair of lower number. */
  predicate Better(count: nat, length: nat, pair: nat, bestCount: nat, bestLength: nat, bestPair: nat) {
    count < bestCount || (count == bestCount && (length < bestLength || (length == bestLength && pair < bestPair)))
  }

  predicate Beats(support: set<nat>, word: seq<nat>, pair: nat, best: Pick) {
    best.None? || Better(|support|, |word|, pair, |best.support|, |best.word|, best.pair)
  }

  /** The words at hand, by the number of the pair they merge. */
  type Words = map<nat, seq<nat>>

  /** Each word merges the two states of its pair.  The definition is some steps away,
      so that only MergingIs unfolds it. */
  ghost predicate Merging(m: Automaton, words: Words) { m.Valid() && MergingIn(m, words, DEPTH + 1) }

  ghost predicate MergingIn(m: Automaton, words: Words, steps: nat)
    requires m.Valid()
    decreases steps
  {
    if steps > 0 then MergingIn(m, words, steps - 1) else EachMerges(m, words)
  }

  lemma MergingIs(m: Automaton, words: Words)
    requires m.Valid()
    ensures Merging(m, words) <==> EachMerges(m, words)
  {
    var k: nat := DEPTH + 1;
    while k > 0
      invariant MergingIn(m, words, DEPTH + 1) == MergingIn(m, words, k)
    {
      k := k - 1;
    }
  }

  ghost predicate EachMerges(m: Automaton, words: Words)
    requires m.Valid()
  {
    forall p {:trigger words[p]} | p in words ::
      && p < PairCount(m.states) && IsWord(m, words[p])
      && Run(m, States(m.states, p).0, words[p]) == Run(m, States(m.states, p).1, words[p])
  }

  /** The pairs of a support before (i, j), row by row. */
  ghost function PairsUpto(active: set<nat>, n: nat, i: nat, j: nat): (s: seq<(nat, nat)>)
    requires i < j
    ensures forall k | 0 <= k < |s| :: s[k].0 in active && s[k].1 in active && s[k].0 < s[k].1 && (j <= n ==>
            s[k].1 < n)
    decreases i, j
  {
    if j > i + 1 then PairsUpto(active, n, i, j - 1) + (if i in active && j - 1 in active then [(i, j - 1)] else [])
    else if i > 0 && i < n then PairsUpto(active, n, i - 1, n)
    else []
  }

  ghost function AllPairs(active: set<nat>, n: nat): (s: seq<(nat, nat)>)
    requires n > 0
    ensures forall k | 0 <= k < |s| :: s[k].0 in active && s[k].1 in active && s[k].0 < s[k].1 < n
  {
    PairsUpto(active, n, n - 1, n)
  }

  /** The pick after offering the candidates in order. */
  ghost function PickFrom(m: Automaton, active: set<nat>, words: Words, pairs: seq<(nat, nat)>): (best: Pick)
    requires Merging(m, words) && forall k | 0 <= k < |pairs| :: pairs[k].0 < m.states && pairs[k].1 < m.states
  {
    if pairs == [] then None
    else
      var best := PickFrom(m, active, words, pairs[..|pairs| - 1]);
      Offer(m, active, words, best, pairs[|pairs| - 1])
  }

  ghost function Offer(m: Automaton, active: set<nat>, words: Words, best: Pick, pair: (nat, nat)): Pick
    requires Merging(m, words) && pair.0 < m.states && pair.1 < m.states
  {
    var p := PairIndex(m.states, pair.0, pair.1);
    if p in words then
      MergingIs(m, words);
      var support := ImageOf(m, active, words[p]);
      if Beats(support, words[p], p, best) then Some(words[p], support, p) else best
    else best
  }

  /** A pick moves the support by its word, and makes it strictly smaller. */
  ghost predicate Shrinks(m: Automaton, active: set<nat>, pick: Pick) {
    m.Valid() && (pick.Some? ==>
      && IsWord(m, pick.word) && pick.support == ImageOf(m, active, pick.word) && |pick.support| < |active|)
  }

  lemma PairShrinks(m: Automaton, active: set<nat>, words: Words, i: nat, j: nat)
    requires Merging(m, words) && IsSupport(m, active) && i in active && j in active && i < j
    requires PairIndex(m.states, i, j) in words
    ensures IsWord(m, words[PairIndex(m.states, i, j)])
    ensures |ImageOf(m, active, words[PairIndex(m.states, i, j)])| < |active|
  {
    MergingIs(m, words);
    StatesOfIndex(m.states, i, j);
    MergingShrinks(m, active, i, j, words[PairIndex(m.states, i, j)]);
  }

  lemma OfferShrinks(m: Automaton, active: set<nat>, words: Words, best: Pick, pair: (nat, nat))
    requires Merging(m, words) && IsSupport(m, active) && pair.0 in active && pair.1 in active && pair.0 < pair.1
    requires Shrinks(m, active, best)
    ensures Shrinks(m, active, Offer(m, active, words, best, pair))
  {
    var p := PairIndex(m.states, pair.0, pair.1);
    if p in words {
      PairShrinks(m, active, words, pair.0, pair.1);
      var offered := Some(words[p], ImageOf(m, active, words[p]), p);
      assert Shrinks(m, active, offered);
      assert Offer(m, active, words, best, pair) == offered || Offer(m, active, words, best, pair) == best;
    } else {
      assert Offer(m, active, words, best, pair) == best;
    }
  }

  lemma {:induction false} PickShrinks(m: Automaton, active: set<nat>, words: Words, pairs: seq<(nat, nat)>)
    requires Merging(m, words) && IsSupport(m, active)
    requires forall k | 0 <= k < |pairs| :: pairs[k].0 in active && pairs[k].1 in active && pairs[k].0 < pairs[k].1
    ensures Shrinks(m, active, PickFrom(m, active, words, pairs))
  {
    if pairs != [] {
      var n := |pairs| - 1;
      PickShrinks(m, active, words, pairs[..n]);
      OfferShrinks(m, active, words, PickFrom(m, active, words, pairs[..n]), pairs[n]);
    }
  }

  /** The pick is the offer of the pair: its word, and where that takes the support. */
  ghost predicate IsOffer(m: Automaton, active: set<nat>, words: Words, pair: (nat, nat), pick: Pick)
    requires Merging(m, words) && pair.0 < m.states && pair.1 < m.states
  {
    var p := PairIndex(m.states, pair.0, pair.1);
    MergingIs(m, words);
    p in words && pick == Some(words[p], ImageOf(m, active, words[p]), p)
  }

  /** The offer leaves no fewer states; if as many, its word is no shorter; and if as
      long, its pair has no lower number. */
  ghost predicate NoBetter(offer: Pick, best: Pick) {
    offer.Some? ==>
      && best.Some? && |best.support| <= |offer.support|
      && (|best.support| == |offer.support| ==>
           |best.word| <= |offer.word| && (|best.word| == |offer.word| ==> best.pair <= offer.pair))
  }

  /** What the fold keeps is one of the offers, and none of the offers is better. */
  lemma {:induction false} PickIsBest(m: Automaton, active: set<nat>, words: Words, pairs: seq<(nat, nat)>)
    requires Merging(m, words) && forall k | 0 <= k < |pairs| :: pairs[k].0 < m.states && pairs[k].1 < m.states
    ensures var best := PickFrom(m, active, words, pairs);
            && (best.Some? ==> exists k {:trigger pairs[k]} ::
                0 <= k < |pairs| && IsOffer(m, active, words, pairs[k], best))
            && forall k, offer {:trigger IsOffer(m, active, words, pairs[k], offer)} |
                 0 <= k < |pairs| && IsOffer(m, active, words, pairs[k], offer) :: NoBetter(offer, best)
  {
    if pairs != [] {
      var n := |pairs| - 1;
      var before, best := PickFrom(m, active, words, pairs[..n]), PickFrom(m, active, words, pairs);
      PickIsBest(m, active, words, pairs[..n]);
      if best == before && best.Some? {
        var k :| 0 <= k < n && IsOffer(m, active, words, pairs[..n][k], best);
        assert pairs[k] == pairs[..n][k];
      } else if best.Some? {
        assert IsOffer(m, active, words, pairs[n], best);
      }
      forall k, offer | 0 <= k < |pairs| && IsOffer(m, active, words, pairs[k], offer) ensures NoBetter(offer, best) {
        if k < n {
          assert pairs[..n][k] == pairs[k] && NoBetter(offer, before);
        }
      }
    }
  }

  /** Every pair of the support is on the list. */
  lemma {:induction false} EachPairIsListed(active: set<nat>, n: nat, row: nat, column: nat, i: nat, j: nat)
    requires i in active && j in active && i < j < n && row < n && row < column <= n
    requires i < row || (i == row && j < column)
    ensures (i, j) in PairsUpto(active, n, row, column)
    decreases row, column
  {
    if column > row + 1 {
      if i < row || j < column - 1 {
        EachPairIsListed(active, n, row, column - 1, i, j);
      }
    } else {
      EachPairIsListed(active, n, row - 1, n, i, j);
    }
  }

  lemma AllPairsAreListed(active: set<nat>, n: nat, i: nat, j: nat)
    requires i in active && j in active && i < j < n
    ensures (i, j) in AllPairs(active, n)
  {
    EachPairIsListed(active, n, n - 1, n, i, j);
  }

  // ---------- sg_best_merge ----------

  /** The loops that list the candidate pairs of a support. */
  method ListCandidates(n: nat, active: set<nat>) returns (firsts: seq<nat>, seconds: seq<nat>)
    requires n > 0
    ensures |firsts| == |seconds| == |AllPairs(active, n)|
    ensures forall k {:trigger firsts[k]} {:trigger seconds[k]} | 0 <= k < |firsts| ::
            (firsts[k], seconds[k]) == AllPairs(active, n)[k]
  {
    firsts, seconds := [], [];
    ghost var listed: seq<(nat, nat)> := [];
    for first := 0 to n
      invariant listed == if first == 0 then [] else PairsUpto(active, n, first - 1, n)
      invariant |firsts| == |seconds| == |listed|
      invariant forall k {:trigger firsts[k]} {:trigger seconds[k]} | 0 <= k < |firsts| ::
                (firsts[k], seconds[k]) == listed[k]
    {
      if first in active {
        for second := first + 1 to n
          invariant listed == PairsUpto(active, n, first, second)
          invariant |firsts| == |seconds| == |listed|
          invariant forall k {:trigger firsts[k]} {:trigger seconds[k]} | 0 <= k < |firsts| ::
                    (firsts[k], seconds[k]) == listed[k]
        {
          if second in active {
            firsts, seconds := firsts + [first], seconds + [second];
            listed := listed + [(first, second)];
          }
        }
      } else {
        RowIsSkipped(active, n, first, n);
      }
    }
  }

  lemma {:induction false} RowIsSkipped(active: set<nat>, n: nat, i: nat, j: nat)
    requires i < j <= n && i !in active
    ensures PairsUpto(active, n, i, j) == PairsUpto(active, n, i, i + 1)
    decreases j
  {
    if j > i + 1 {
      RowIsSkipped(active, n, i, j - 1);
    }
  }

  /** What a source of records has to offer on merging, if it is honest. */
  ghost function WitnessWords(m: Automaton, r: Entries): (words: Words)
    requires m.Valid() && AllFollowable(PairGraphOf(m, Merge), r)
    ensures forall p: nat {:trigger p in words} :: p in words <==> p < PairCount(m.states) && r[p].distance < NONE
    ensures forall p: nat {:trigger words[p]} | p in words :: words[p] == Witness(PairGraphOf(m, Merge), r, p)
  {
    map p | p in Upto(PairCount(m.states)) && r[p].distance < NONE :: Witness(PairGraphOf(m, Merge), r, p)
  }

  lemma WitnessWordsMerge(m: Automaton, r: Entries)
    requires m.Valid() && AllFollowable(PairGraphOf(m, Merge), r)
    ensures Merging(m, WitnessWords(m, r))
  {
    var g, words := PairGraphOf(m, Merge), WitnessWords(m, r);
    MergingIs(m, words);
    forall p | p in words
      ensures IsWord(m, words[p]) && Run(m, States(m.states, p).0, words[p]) == Run(m, States(m.states, p).1, words[p])
    {
      var (i, j) := States(m.states, p);
      WitnessSolves(g, r, p);
      WitnessIsWord(m, Merge, r, p);
      SolvesIsAchieves(m, Merge, i, j, words[p]);
    }
  }

  /** One candidate. */
  method Consider(b: Batch, active: set<nat>, k: nat, word: seq<nat>, best: Pick) returns (better: Pick)
    requires b.Valid() && b.objective == Merge && IsSupport(b.m, active) && k < |b.firsts|
    requires Loaded(b, k, word, true) && Shrinks(b.m, active, best)
    requires b.firsts[k] in active && b.seconds[k] in active && b.firsts[k] < b.seconds[k]
    ensures Shrinks(b.m, active, better) && better.Some?
    ensures var p, support := PairIndex(b.m.states, b.firsts[k], b.seconds[k]), ImageOf(b.m, active, word);
            better == if Beats(support, word, p, best) then Some(word, support, p) else best
  {
    var status, support := ApplyWord(b.m, active, word);
    var pair := PairIndex(b.m.states, b.firsts[k], b.seconds[k]);
    MergingShrinks(b.m, active, b.firsts[k], b.seconds[k], word);
    better := if Beats(support, word, pair, best) then Some(word, support, pair) else best;
  }

  /** With honest records, a candidate's word is the witness of its pair. */
  lemma LoadedIsWitness(b: Batch, k: nat, word: seq<nat>, available: bool)
    requires b.Valid() && b.objective == Merge && b.honest && k < |b.firsts| && Loaded(b, k, word, available)
    ensures var w, p := WitnessWords(b.m, Part(b.records, Merge)), PairIndex(b.m.states, b.firsts[k], b.seconds[k]);
            available == (p in w) && (available ==> w[p] == word)
  {
  }

  /** Of the first candidates the best one has been taken.  The definition is some steps
      away, so that only ChosenIs unfolds it. */
  ghost predicate ChosenUpto(b: Batch, active: set<nat>, words: seq<seq<nat>>, available: seq<bool>, k: nat,
                             best: Pick) {
    ChosenIn(b, active, words, available, k, best, DEPTH + 1)
  }

  ghost predicate ChosenIn(b: Batch, active: set<nat>, words: seq<seq<nat>>, available: seq<bool>, k: nat, best: Pick,
                           steps: nat)
    decreases steps
  {
    if steps > 0 then ChosenIn(b, active, words, available, k, best, steps - 1)
    else
      && b.Valid() && b.objective == Merge && k <= |words| == |available| == |b.firsts|
      && Shrinks(b.m, active, best)
      && (best.None? <==> forall l | 0 <= l < k :: !available[l])
      && (b.honest ==>
           var w := WitnessWords(b.m, Part(b.records, Merge));
           Merging(b.m, w) && best == PickFrom(b.m, active, w, Zip(b.firsts, b.seconds)[..k]))
  }

  lemma ChosenIs(b: Batch, active: set<nat>, words: seq<seq<nat>>, available: seq<bool>, k: nat, best: Pick)
    ensures ChosenUpto(b, active, words, available, k, best) <==>
              && b.Valid() && b.objective == Merge && k <= |words| == |available| == |b.firsts|
              && Shrinks(b.m, active, best)
              && (best.None? <==> forall l | 0 <= l < k :: !available[l])
              && (b.honest ==>
                   var w := WitnessWords(b.m, Part(b.records, Merge));
                   Merging(b.m, w) && best == PickFrom(b.m, active, w, Zip(b.firsts, b.seconds)[..k]))
  {
    var steps: nat := DEPTH + 1;
    while steps > 0
      invariant ChosenIn(b, active, words, available, k, best, DEPTH + 1)
                == ChosenIn(b, active, words, available, k, best, steps)
    {
      steps := steps - 1;
    }
  }

  lemma ChoosingStarts(b: Batch, active: set<nat>, words: seq<seq<nat>>, available: seq<bool>)
    requires b.Valid() && b.objective == Merge && |words| == |available| == |b.firsts|
    ensures ChosenUpto(b, active, words, available, 0, None)
  {
    ChosenIs(b, active, words, available, 0, None);
    assert Zip(b.firsts, b.seconds)[..0] == [];
    if b.honest {
      WitnessWordsMerge(b.m, Part(b.records, Merge));
    }
  }

  /** One more candidate: it is considered if it is available. */
  lemma ChosenNext(b: Batch, active: set<nat>, words: seq<seq<nat>>, available: seq<bool>, k: nat, best: Pick,
                   better: Pick)
    requires ChosenUpto(b, active, words, available, k, best) && k < |words| == |available|
    requires b.Valid() && k < |b.firsts| && Loaded(b, k, words[k], available[k])
    requires !available[k] ==> better == best
    requires available[k] ==> Shrinks(b.m, active, better) && better.Some? && IsWord(b.m, words[k])
    requires available[k] ==>
               var p, support := PairIndex(b.m.states, b.firsts[k], b.seconds[k]), ImageOf(b.m, active, words[k]);
               better == if Beats(support, words[k], p, best) then Some(words[k], support, p) else best
    ensures ChosenUpto(b, active, words, available, k + 1, better)
  {
    var pairs := Zip(b.firsts, b.seconds);
    ChosenIs(b, active, words, available, k, best);
    ChosenIs(b, active, words, available, k + 1, better);
    assert pairs[..k + 1][..k] == pairs[..k];
    if b.honest {
      LoadedIsWitness(b, k, words[k], available[k]);
    }
  }

  /** The candidate loop: take every loaded word that is better than the best so far. */
  method ChooseBest(b: Batch, active: set<nat>, words: seq<seq<nat>>, available: seq<bool>) returns (best: Pick)
    requires b.Valid() && b.objective == Merge && IsSupport(b.m, active)
    requires |words| == |available| == |b.firsts|
    requires forall k {:trigger words[k]} {:trigger available[k]} | 0 <= k < |words| ::
             Loaded(b, k, words[k], available[k])
    requires forall k | 0 <= k < |words| ::
             b.firsts[k] in active && b.seconds[k] in active && b.firsts[k] < b.seconds[k]
    ensures Shrinks(b.m, active, best)
    ensures best.None? <==> forall k | 0 <= k < |available| :: !available[k]
    ensures b.honest ==>
              var w := WitnessWords(b.m, Part(b.records, Merge));
              Merging(b.m, w) && best == PickFrom(b.m, active, w, Zip(b.firsts, b.seconds))
  {
    best := None;
    ChoosingStarts(b, active, words, available);
    for k := 0 to |words|
      invariant ChosenUpto(b, active, words, available, k, best)
    {
      assert Loaded(b, k, words[k], available[k]);
      ghost var before := best;
      ChosenIs(b, active, words, available, k, best);
      if available[k] {
        best := Consider(b, active, k, words[k], best);
      }
      ChosenNext(b, active, words, available, k, before, best);
    }
    ChosenIs(b, active, words, available, |words|, best);
    assert Zip(b.firsts, b.seconds)[..|words|] == Zip(b.firsts, b.seconds);
  }

  ghost function Zip(firsts: seq<nat>, seconds: seq<nat>): (s: seq<(nat, nat)>)
    requires |firsts| == |seconds|
    ensures |s| == |firsts| && forall k {:trigger s[k]} | 0 <= k < |s| :: s[k] == (firsts[k], seconds[k])
  {
    seq(|firsts|, k requires 0 <= k < |firsts| => (firsts[k], seconds[k]))
  }

  /** What is known of a source: it fills its buffer, and if it is honest it hands out
      the given records, which can be followed. */
  ghost predicate Known(m: Automaton, objective: Objective, source: Source, honest: bool, records: seq<PairRecord>) {
    && m.Valid() && Fills(source)
    && (honest ==>
         && Honest(source, records) && |records| == PairCount(m.states)
         && (forall p | 0 <= p < |records| :: records[p].pair == p)
         && Readable(PairGraphOf(m, objective), Part(records, objective)))
  }

  /** sg_best_merge */
  method BestMerge(m: Automaton, source: Source, call: nat, active: set<nat>, ghost honest: bool,
                   ghost records: seq<PairRecord>)
    returns (status: Status, best: Pick, calls: nat)
    requires Known(m, Merge, source, honest, records) && IsSupport(m, active)
    ensures status.Ok? ==> Shrinks(m, active, best)
    ensures honest ==>
              var w := WitnessWords(m, Part(records, Merge));
              status.Ok? && Merging(m, w) && best == PickFrom(m, active, w, AllPairs(active, m.states))
  {
    var firsts, seconds := ListCandidates(m.states, active);
    assert Zip(firsts, seconds) == AllPairs(active, m.states);
    forall k | 0 <= k < |firsts| ensures firsts[k] in active && seconds[k] in active && firsts[k] < seconds[k] {
      assert Zip(firsts, seconds)[k] == (firsts[k], seconds[k]);
    }
    var batch := Batch(m, Merge, firsts, seconds, honest, records);
    var words, available;
    status, words, available, calls := LoadWords(batch, source, call);
    best := None;
    if status == Ok {
      best := ChooseBest(batch, active, words, available);
    }
  }

  // ---------- The greedy phase ----------

  datatype Greed = Greed(active: set<nat>, word: seq<nat>, spent: nat)

  /** Merge the best pair as long as there is one, more than one state is left, and
      the budget lasts.  The definition is some steps away, so that only GreedyStep
      unfolds it. */
  ghost function GreedyIn(m: Automaton, words: Words, active: set<nat>, word: seq<nat>, spent: nat, budget: nat,
                          steps: nat): Greed
    requires Merging(m, words) && IsSupport(m, active)
    decreases |active|, steps
  {
    if steps > 0 then GreedyIn(m, words, active, word, spent, budget, steps - 1)
    else if |active| <= 1 || spent >= budget then Greed(active, word, spent)
    else
      PickShrinks(m, active, words, AllPairs(active, m.states));
      match PickFrom(m, active, words, AllPairs(active, m.states))
      case None => Greed(active, word, spent)
      case Some(w, support, _) => GreedyIn(m, words, support, word + w, spent + 1, budget, DEPTH + 1)
  }

  ghost function Greedy(m: Automaton, words: Words, active: set<nat>, word: seq<nat>, spent: nat, budget: nat): Greed
    requires Merging(m, words) && IsSupport(m, active)
  {
    GreedyIn(m, words, active, word, spent, budget, DEPTH + 1)
  }

  lemma GreedyStep(m: Automaton, words: Words, active: set<nat>, word: seq<nat>, spent: nat, budget: nat, best: Pick)
    requires Merging(m, words) && IsSupport(m, active)
    requires best == PickFrom(m, active, words, AllPairs(active, m.states))
    ensures best.Some? ==> IsSupport(m, best.support)
    ensures Greedy(m, words, active, word, spent, budget)
         == if |active| <= 1 || spent >= budget || best.None? then Greed(active, word, spent)
            else Greedy(m, words, best.support, word + best.word, spent + 1, budget)
  {
    PickShrinks(m, active, words, AllPairs(active, m.states));
    var k: nat := DEPTH + 1;
    while k > 0
      invariant GreedyIn(m, words, active, word, spent, budget, DEPTH + 1)
                == GreedyIn(m, words, active, word, spent, budget, k)
    {
      k := k - 1;
    }
  }

  /** The greedy phase has gone from the initial support to this one, one state less
      at least for each expansion. */
  ghost predicate MergedSoFar(m: Automaton, initial: set<nat>, active: set<nat>, word: seq<nat>, spent: nat) {
    && IsSupport(m, initial) && IsSupport(m, active) && IsWord(m, word)
    && active == ImageOf(m, initial, word) && |active| + spent <= |initial|
  }

  lemma MergeOn(m: Automaton, initial: set<nat>, active: set<nat>, word: seq<nat>, spent: nat, pick: Pick)
    requires MergedSoFar(m, initial, active, word, spent) && Shrinks(m, active, pick) && pick.Some?
    ensures MergedSoFar(m, initial, pick.support, word + pick.word, spent + 1)
  {
    ImageOfConcat(m, initial, word, pick.word);
  }

  method MergeGreedily(m: Automaton, source: Source, initial: set<nat>, budget: nat, ghost honest: bool,
                       ghost records: seq<PairRecord>)
    returns (status: Status, active: set<nat>, word: seq<nat>, spent: nat)
    requires Known(m, Merge, source, honest, records) && IsSupport(m, initial)
    ensures status.Ok? ==> MergedSoFar(m, initial, active, word, spent) && spent <= budget
    ensures honest ==>
              var w := WitnessWords(m, Part(records, Merge));
              status.Ok? && Merging(m, w) && Greed(active, word, spent) == Greedy(m, w, initial, [], 0, budget)
  {
    active, word, spent, status := initial, [], 0, Ok;
    var calls := 0;
    ghost var w: Words := map[];
    if honest {
      WitnessWordsMerge(m, Part(records, Merge));
      w := WitnessWords(m, Part(records, Merge));
    }
    while |active| > 1 && spent < budget
      invariant status == Ok && MergedSoFar(m, initial, active, word, spent) && spent <= budget
      invariant honest ==> Greedy(m, w, active, word, spent, budget) == Greedy(m, w, initial, [], 0, budget)
      decreases |active|
    {
      var best;
      status, best, calls := BestMerge(m, source, calls, active, honest, records);
      if status != Ok {
        return;
      }
      if honest {
        GreedyStep(m, w, active, word, spent, budget, best);
      }
      if best == None {
        return;
      }
      MergeOn(m, initial, active, word, spent, best);
      active, word, spent := best.support, word + best.word, spent + 1;
    }
    if honest {
      GreedyStep(m, w, active, word, spent, budget, PickFrom(m, active, w, AllPairs(active, m.states)));
    }
  }

  // ---------- sg_plan_sync_with_source ----------

  /** All actions, in the order of their ids. */
  function AllLetters(m: Automaton): (letters: seq<nat>)
    ensures |letters| == m.actions && forall a | 0 <= a < m.actions :: letters[a] == a
  {
    seq(m.actions, a => a)
  }

  /** The synchronization contract: whatever the records said, a plan takes the whole
      support to one state, "no plan" means that no word over the letters does, the
      budget is kept, and it is enough if it covers every merge and every support. */
  ghost predicate SyncContract(m: Automaton, initial: set<nat>, letters: seq<nat>, budget: nat, result: PlanResult) {
    && AreLetters(m, letters) && IsSupport(m, initial)
    && (result.outcome.AlreadySatisfied? <==> |initial| == 1)
    && (result.outcome.Plan? || result.outcome.AlreadySatisfied? ==>
         && IsWord(m, result.word) && result.finalSupport == ImageOf(m, initial, result.word)
             && |result.finalSupport| == 1)
    && (result.outcome.NoPlan? ==> forall v :: !Reaches(m, letters, initial, Single, v))
    && result.expansions <= budget
    && (result.outcome.OutOfBudget? ==> budget < (|initial| - 1) + (Pow2(m.states) - 1))
  }

  /** What follows the greedy phase: a plan, or the exact search. */
  ghost predicate FinishFrom(m: Automaton, g: Greed, initial: set<nat>, letters: seq<nat>, budget: nat,
                             result: PlanResult)
    requires AreLetters(m, letters)
  {
    if |g.active| == 1 then result == PlanResult(Plan, g.word, g.spent, g.active)
    else
      && result.expansions >= g.spent
      && Tallied(m, letters, Support(initial), Single, Left(budget, g.spent),
                 Report(result.outcome, result.word, result.expansions - g.spent))
      && result.finalSupport == (if result.outcome.Plan? && IsWord(m, result.word)
          then ImageOf(m, initial, result.word) else {})
  }

  /** The outcome as the merging words decide it: the greedy phase, then the search from
      the initial support with what is left of the budget. */
  ghost predicate SyncFrom(m: Automaton, words: Words, initial: set<nat>, letters: seq<nat>, budget: nat,
                           result: PlanResult)
    requires Merging(m, words) && IsSupport(m, initial) && AreLetters(m, letters)
  {
    if |initial| == 1 then result == PlanResult(AlreadySatisfied, [], 0, initial)
    else FinishFrom(m, Greedy(m, words, initial, [], 0, budget), initial, letters, budget, result)
  }

  /** Both together leave nothing open. */
  lemma SyncIsDetermined(m: Automaton, words: Words, initial: set<nat>, letters: seq<nat>, budget: nat, r: PlanResult,
                         s: PlanResult)
    requires Merging(m, words) && IsSupport(m, initial) && AreLetters(m, letters)
    requires SyncFrom(m, words, initial, letters, budget, r) && SyncFrom(m, words, initial, letters, budget, s)
    ensures r == s
  {
    var g := Greedy(m, words, initial, [], 0, budget);
    if |initial| != 1 && |g.active| != 1 {
      TalliesAgree(m, letters, Support(initial), Single, Left(budget, g.spent),
                   Report(r.outcome, r.word, r.expansions - g.spent),
                   Report(s.outcome, s.word, s.expansions - g.spent));
    }
  }

  /** A search after a greedy phase that left more than one state. */
  lemma SearchedContract(m: Automaton, initial: set<nat>, letters: seq<nat>, budget: nat, active: set<nat>,
                         word: seq<nat>, spent: nat,
                         result: PlanResult)
    requires MergedSoFar(m, initial, active, word, spent) && spent <= budget && AreLetters(m, letters)
    requires |active| != 1 && |initial| != 1
    requires result.outcome != AlreadySatisfied
             && Answers(m, letters, Support(initial), Single, result.outcome, result.word)
    requires result.expansions <= budget
    requires result.outcome.OutOfBudget? ==> spent < budget ==> budget < spent + Pow2(m.states)
    requires result.outcome.Plan? && IsWord(m, result.word) ==> result.finalSupport == ImageOf(m, initial, result.word)
    ensures result.outcome.Plan? ==> IsWord(m, result.word)
    ensures SyncContract(m, initial, letters, budget, result)
  {
    AnswerIsAboutWords(m, letters, initial, Single, result.outcome, result.word);
    SomeState(m, active);
    SomeState(m, initial);
  }

  lemma SomeState(m: Automaton, s: set<nat>)
    requires IsSupport(m, s)
    ensures |s| >= 1
  {
  }

  /** The exact search from the start, with what is left of the budget. */
  method SearchOn(m: Automaton, initial: set<nat>, letters: seq<nat>, budget: nat, ghost greed: Greed, spent: nat)
    returns (result: PlanResult)
    requires AreLetters(m, letters) && IsSupport(m, initial) && |initial| != 1
    requires spent == greed.spent <= budget && |greed.active| != 1
    ensures FinishFrom(m, greed, initial, letters, budget, result)
    ensures result.outcome != AlreadySatisfied
            && Answers(m, letters, Support(initial), Single, result.outcome, result.word)
    ensures result.expansions <= budget
    ensures result.outcome.OutOfBudget? ==> spent < budget ==> budget < spent + Pow2(m.states)
  {
    var outcome, found, expansions := SubsetBfs(m, initial, letters, budget, spent);
    TalliedIsAnswered(m, letters, Support(initial), Single, Left(budget, spent),
                      Report(outcome, found, expansions - spent));
    var final := FinalSupport(m, letters, initial, outcome, found);
    result := PlanResult(outcome, found, expansions, final);
  }

  /** The part of sg_sync_finalize that applies the word. */
  method FinalSupport(m: Automaton, letters: seq<nat>, initial: set<nat>, outcome: Outcome, word: seq<nat>)
    returns (final: set<nat>)
    requires AreLetters(m, letters) && Answers(m, letters, Support(initial), Single, outcome, word)
    ensures outcome.Plan? ==> IsWord(m, word)
    ensures final == (if outcome.Plan? && IsWord(m, word) then ImageOf(m, initial, word) else {})
  {
    final := {};
    if outcome == Plan {
      AnswerIsAboutWords(m, letters, initial, Single, outcome, word);
      var status;
      status, final := ApplyWord(m, initial, word);
    }
  }

  /** After the greedy phase: a plan, or the search. */
  method Finish(m: Automaton, initial: set<nat>, letters: seq<nat>, budget: nat, active: set<nat>, word: seq<nat>,
                spent: nat)
    returns (result: PlanResult)
    requires MergedSoFar(m, initial, active, word, spent) && spent <= budget && AreLetters(m, letters) && |initial| > 1
    ensures SyncContract(m, initial, letters, budget, result)
    ensures FinishFrom(m, Greed(active, word, spent), initial, letters, budget, result)
  {
    if |active| == 1 {
      result := PlanResult(Plan, word, spent, active);
    } else {
      result := SearchOn(m, initial, letters, budget, Greed(active, word, spent), spent);
      SearchedContract(m, initial, letters, budget, active, word, spent, result);
    }
  }

  // ---------- What the greedy phase is worth ----------

  /** The offer of a pair of the support is never better than the pick. */
  lemma PickAgainstPair(m: Automaton, active: set<nat>, words: Words, i: nat, j: nat)
    requires Merging(m, words) && IsSupport(m, active) && i in active && j in active && i < j
    requires PairIndex(m.states, i, j) in words && IsWord(m, words[PairIndex(m.states, i, j)])
    ensures var best, w := PickFrom(m, active, words, AllPairs(active, m.states)), words[PairIndex(m.states, i, j)];
            && best.Some? && |best.support| <= |ImageOf(m, active, w)|
            && (|best.support| == |ImageOf(m, active, w)| ==> |best.word| <= |w|)
  {
    var pairs, p := AllPairs(active, m.states), PairIndex(m.states, i, j);
    AllPairsAreListed(active, m.states, i, j);
    var k :| 0 <= k < |pairs| && pairs[k] == (i, j);
    PickIsBest(m, active, words, pairs);
    var offer := Some(words[p], ImageOf(m, active, words[p]), p);
    assert IsOffer(m, active, words, pairs[k], offer);
    assert NoBetter(offer, PickFrom(m, active, words, pairs));
  }

  /** If the word of some pair takes the support to one state, any budget gives a plan,
      after one expansion. */
  lemma OneMergeSuffices(m: Automaton, words: Words, initial: set<nat>, letters: seq<nat>, budget: nat,
                         result: PlanResult, i: nat, j: nat)
    requires Merging(m, words) && IsSupport(m, initial) && AreLetters(m, letters) && budget > 0
    requires SyncFrom(m, words, initial, letters, budget, result)
    requires i in initial && j in initial && i < j && PairIndex(m.states, i, j) in words
    requires IsWord(m, words[PairIndex(m.states, i, j)])
             && |ImageOf(m, initial, words[PairIndex(m.states, i, j)])| == 1
    ensures result.outcome.Plan? && result.expansions == 1 && |result.word| <= |words[PairIndex(m.states, i, j)]|
  {
    var best := PickFrom(m, initial, words, AllPairs(initial, m.states));
    PickAgainstPair(m, initial, words, i, j);
    GreedyStep(m, words, initial, [], 0, budget, best);
    SomeState(m, best.support);
    GreedyStep(m, words, best.support, [] + best.word, 1, budget,
               PickFrom(m, best.support, words, AllPairs(best.support, m.states)));
    TwoStates(initial, i, j);
  }

  lemma TwoOf(s: set<nat>) returns (i: nat, j: nat)
    requires |s| > 1
    ensures i in s && j in s && i < j
  {
    var x :| x in s;
    var rest := s - {x};
    assert |rest| > 0;
    var y :| y in rest;
    i, j := if x < y then x else y, if x < y then y else x;
  }

  lemma TwoStates(s: set<nat>, i: nat, j: nat)
    requires i in s && j in s && i < j
    ensures |s| >= 2
  {
    var rest := s - {i};
    assert j in rest && s == rest + {i};
  }

  /** Every two states of the support have a word, of at most so many letters. */
  ghost predicate AllMerge(m: Automaton, words: Words, limit: nat)
    requires m.Valid()
  {
    && (forall i, j {:trigger PairIndex(m.states, i, j)} | 0 <= i < j < m.states :: PairIndex(m.states, i, j) in words)
    && (forall p {:trigger words[p]} | p in words :: |words[p]| <= limit)
  }

  lemma PickExists(m: Automaton, active: set<nat>, words: Words, limit: nat)
    requires Merging(m, words) && IsSupport(m, active) && |active| > 1 && AllMerge(m, words, limit)
    ensures var best := PickFrom(m, active, words, AllPairs(active, m.states));
            best.Some? && |best.word| <= limit && IsSupport(m, best.support) && |best.support| < |active|
  {
    var best := PickFrom(m, active, words, AllPairs(active, m.states));
    var i, j := TwoOf(active);
    MergingIs(m, words);
    PickAgainstPair(m, active, words, i, j);
    PickShrinks(m, active, words, AllPairs(active, m.states));
    PickIsBest(m, active, words, AllPairs(active, m.states));
  }

  /** If every two states have a merging word, the greedy phase comes to one state, with
      at most one expansion for each state it gets rid of. */
  lemma {:induction false} GreedySucceeds(m: Automaton, words: Words, limit: nat, active: set<nat>, word: seq<nat>,
                                          spent: nat, budget: nat)
    requires Merging(m, words) && IsSupport(m, active) && AllMerge(m, words, limit)
    requires spent + |active| - 1 <= budget
    ensures var g := Greedy(m, words, active, word, spent, budget);
            |g.active| == 1 && spent <= g.spent <= spent + |active| - 1
    decreases |active|
  {
    SomeState(m, active);
    var best := PickFrom(m, active, words, AllPairs(active, m.states));
    GreedyStep(m, words, active, word, spent, budget, best);
    if |active| > 1 {
      PickExists(m, active, words, limit);
      GreedySucceeds(m, words, limit, best.support, word + best.word, spent + 1, budget);
    }
  }

  /** The letters of so many words. */
  ghost function Letters(count: nat, limit: nat): (total: nat)
    ensures total == count * limit
  {
    if count == 0 then 0
    else
      assert (count - 1) * limit + limit == count * limit;
      Letters(count - 1, limit) + limit
  }

  lemma LettersNext(count: nat, limit: nat)
    ensures Letters(count + 1, limit) == Letters(count, limit) + limit
  {
  }

  /** Each expansion adds the word of one pair. */
  lemma {:induction false} GreedyLength(m: Automaton, words: Words, limit: nat, active: set<nat>, word: seq<nat>,
                                        spent: nat, budget: nat)
    requires Merging(m, words) && IsSupport(m, active) && AllMerge(m, words, limit)
    ensures var g := Greedy(m, words, active, word, spent, budget);
            spent <= g.spent && |g.word| <= |word| + Letters(g.spent - spent, limit)
    decreases |active|
  {
    var best := PickFrom(m, active, words, AllPairs(active, m.states));
    GreedyStep(m, words, active, word, spent, budget, best);
    if |active| > 1 && spent < budget {
      PickExists(m, active, words, limit);
      GreedyLength(m, words, limit, best.support, word + best.word, spent + 1, budget);
      var g := Greedy(m, words, best.support, word + best.word, spent + 1, budget);
      LettersNext(g.spent - (spent + 1), limit);
    }
  }

  /** So the planner finds a plan by merging pairs alone: with one expansion less than
      there are states, and so many words of a pair one after the other. */
  lemma MergeablePlans(m: Automaton, words: Words, limit: nat, initial: set<nat>, letters: seq<nat>, budget: nat,
                       result: PlanResult)
    requires Merging(m, words) && IsSupport(m, initial) && AreLetters(m, letters) && AllMerge(m, words, limit)
    requires |initial| > 1 && |initial| - 1 <= budget && SyncFrom(m, words, initial, letters, budget, result)
    ensures result.outcome.Plan? && result.expansions <= |initial| - 1
    ensures |result.word| <= (|initial| - 1) * limit
  {
    GreedySucceeds(m, words, limit, initial, [], 0, budget);
    GreedyLength(m, words, limit, initial, [], 0, budget);
    ProductGrows(result.expansions, limit, |initial| - 1, limit);
  }

  /** With honest records the whole result is a function of the inputs. */
  ghost predicate SyncHonestly(m: Automaton, records: seq<PairRecord>, initial: set<nat>, budget: nat,
                               result: PlanResult)
    requires m.Valid() && AllFollowable(PairGraphOf(m, Merge), Part(records, Merge)) && IsSupport(m, initial)
  {
    var w := WitnessWords(m, Part(records, Merge));
    Merging(m, w) && SyncFrom(m, w, initial, AllLetters(m), budget, result)
  }

  /** In terms of the records: a witness that takes the support to one state is enough
      for a plan, whatever the budget. */
  lemma WitnessSuffices(m: Automaton, records: seq<PairRecord>, initial: set<nat>, budget: nat, result: PlanResult,
                        i: nat, j: nat)
    requires m.Valid() && AllFollowable(PairGraphOf(m, Merge), Part(records, Merge)) && IsSupport(m, initial)
    requires SyncHonestly(m, records, initial, budget, result) && budget > 0
    requires i in initial && j in initial && i < j && PairIndex(m.states, i, j) < |records|
    requires var r, p := Part(records, Merge), PairIndex(m.states, i, j);
             && r[p].distance < NONE && IsWord(m, Witness(PairGraphOf(m, Merge), r, p))
             && |ImageOf(m, initial, Witness(PairGraphOf(m, Merge), r, p))| == 1
    ensures result.outcome.Plan? && result.expansions == 1
    ensures |result.word| <= records[PairIndex(m.states, i, j)].merge.distance
  {
    var r, p := Part(records, Merge), PairIndex(m.states, i, j);
    IndexInRange(m.states, i, j);
    OneMergeSuffices(m, WitnessWords(m, r), initial, AllLetters(m), budget, result, i, j);
    WitnessSolves(PairGraphOf(m, Merge), r, p);
  }

  /** If every pair has a merging word on record, a budget of one less than the number
      of states is enough, and the plan has at most the number of pairs times that many
      letters. */
  lemma MergeableRecordsPlan(m: Automaton, records: seq<PairRecord>, initial: set<nat>, budget: nat,
                             result: PlanResult)
    requires m.Valid() && Readable(PairGraphOf(m, Merge), Part(records, Merge)) && IsSupport(m, initial)
    requires forall p | 0 <= p < |records| :: records[p].merge.distance < NONE
    requires SyncHonestly(m, records, initial, budget, result) && 1 < |initial| <= budget + 1
    ensures result.outcome.Plan? && result.expansions <= |initial| - 1
    ensures |result.word| <= (|initial| - 1) * PairCount(m.states)
  {
    var g, r := PairGraphOf(m, Merge), Part(records, Merge);
    var words := WitnessWords(m, r);
    forall i, j | 0 <= i < j < m.states ensures PairIndex(m.states, i, j) in words {
      IndexInRange(m.states, i, j);
      assert r[PairIndex(m.states, i, j)] == records[PairIndex(m.states, i, j)].merge;
    }
    forall p | p in words ensures |words[p]| <= PairCount(m.states) {
      WitnessSolves(g, r, p);
      assert r[p].distance <= |r|;
    }
    MergeablePlans(m, words, PairCount(m.states), initial, AllLetters(m), budget, result);
  }

  /** The planning of sg_plan_sync_with_source, on a set of states. */
  method Synchronize(m: Automaton, source: Source, initial: set<nat>, budget: nat, ghost honest: bool,
                     ghost records: seq<PairRecord>)
    returns (status: Status, result: PlanResult)
    requires Known(m, Merge, source, honest, records) && IsSupport(m, initial) && budget > 0
    ensures status.Ok? ==> SyncContract(m, initial, AllLetters(m), budget, result)
    ensures honest ==> status.Ok? && SyncHonestly(m, records, initial, budget, result)
  {
    result := PlanResult(AlreadySatisfied, [], 0, initial);
    if |initial| == 1 {
      if honest {
        WitnessWordsMerge(m, Part(records, Merge));
      }
      return Ok, result;
    }
    SomeState(m, initial);
    var active, word, spent;
    status, active, word, spent := MergeGreedily(m, source, initial, budget, honest, records);
    if status == Ok {
      result := Finish(m, initial, AllLetters(m), budget, active, word, spent);
    }
  }

  /** sg_plan_sync_from_records */
  method PlanSync(m: Automaton, source: Source, initialIds: seq<nat>, budget: nat, ghost honest: bool,
                  ghost records: seq<PairRecord>)
    returns (status: Status, result: PlanResult)
    requires Known(m, Merge, source, honest, records)
    ensures !(IdsValid(m.states, initialIds) && budget > 0) ==> status == InvalidArgument
    ensures status.Ok? ==> SyncContract(m, SupportSearch.IdSet(initialIds), AllLetters(m), budget, result)
    ensures honest && IdsValid(m.states, initialIds) && budget > 0 ==>
              && status.Ok? && IsSupport(m, SupportSearch.IdSet(initialIds))
              && SyncHonestly(m, records, SupportSearch.IdSet(initialIds), budget, result)
  {
    result := PlanResult(NoPlan, [], 0, {});
    if |initialIds| == 0 || budget == 0 {
      return InvalidArgument, result;
    }
    var initial;
    status, initial := FromIds(m.states, initialIds);
    if status != Ok {
      return;
    }
    assert initialIds[0] in initial;
    status, result := Synchronize(m, source, initial, budget, honest, records);
  }
}
