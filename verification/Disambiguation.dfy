/** The disambiguation planner: the best resolution word of a pair, or the search over
    support partitions. */
module Disambiguation {
  import opened Records
  import opened PairGraph
  import opened Pairs
  import opened Supports
  import opened WordSearch
  import opened SupportSearch
  import opened Snapshot
  import opened Witnesses
  import opened PairWords
  import opened Planner
  import opened Traces
  import opened Partitions
  import opened PartitionSearch
  import opened Counting

  // ---------- How good a word is ----------

  /** What candidates are compared by: the largest branch, the length of the word, the
      number of branches and the number of the pair. */
  datatype Score = Score(worst: nat, length: nat, branches: nat, pair: nat)

  /** sg_resolution_candidate_better: smaller branches, then a shorter word, then more
      branches, then the pair of lower number. */
  predicate Better(s: Score, t: Score) {
    s.worst < t.worst || (s.worst == t.worst && (s.length < t.length || (s.length == t.length
      && (s.branches > t.branches || (s.branches == t.branches && s.pair < t.pair)))))
  }

  /** The same, the other way round: t is not better than s. */
  ghost predicate AtLeastAsGood(s: Score, t: Score) {
    && s.worst <= t.worst
    && (s.worst == t.worst ==>
         && s.length <= t.length
         && (s.length == t.length ==>
              s.branches >= t.branches && (s.branches == t.branches ==> s.pair <= t.pair)))
  }

  /** The largest branch has this many states. */
  ghost predicate IsWorst(m: Automaton, s: set<nat>, w: seq<nat>, worst: nat)
    requires m.Valid() && IsWord(m, w)
  {
    Narrow(m, s, w, worst) && (worst == 0 || !Narrow(m, s, w, worst - 1))
  }

  /** The traces that the states of the support give. */
  ghost function TracesOf(m: Automaton, s: set<nat>, w: seq<nat>): (traces: set<seq<nat>>)
    requires m.Valid() && IsWord(m, w)
    ensures forall t {:trigger t in traces} :: t in traces <==> Branch(m, s, w, t) != {}
  {
    var traces := set x | x in s && x < m.states :: Trace(m, x, w);
    forall t ensures t in traces <==> Branch(m, s, w, t) != {} {
      if x :| x in s && x < m.states && Trace(m, x, w) == t {
        assert Gives(m, x, w, t, Run(m, x, w));
        assert Run(m, x, w) in Branch(m, s, w, t);
      }
    }
    traces
  }

  ghost predicate IsScore(m: Automaton, s: set<nat>, w: seq<nat>, pair: nat, score: Score)
    requires m.Valid() && IsWord(m, w)
  {
    IsWorst(m, s, w, score.worst) && score.length == |w| && score.branches == |TracesOf(m, s, w)| && score.pair == pair
  }

  lemma NarrowWidens(m: Automaton, s: set<nat>, w: seq<nat>, small: nat, large: nat)
    requires m.Valid() && IsWord(m, w) && Narrow(m, s, w, small) && small <= large
    ensures Narrow(m, s, w, large)
  {
  }

  lemma WorstIsLeast(m: Automaton, s: set<nat>, w: seq<nat>, worst: nat, bound: nat)
    requires m.Valid() && IsWord(m, w) && IsWorst(m, s, w, worst) && Narrow(m, s, w, bound)
    ensures worst <= bound
  {
  }

  lemma ScoreIsUnique(m: Automaton, s: set<nat>, w: seq<nat>, pair: nat, x: Score, y: Score)
    requires m.Valid() && IsWord(m, w) && IsScore(m, s, w, pair, x) && IsScore(m, s, w, pair, y)
    ensures x == y
  {
    WorstIsLeast(m, s, w, x.worst, y.worst);
    WorstIsLeast(m, s, w, y.worst, x.worst);
  }

  /** A trace partition shows both: its largest branch and one branch a trace. */
  lemma PartitionScores(m: Automaton, s: set<nat>, w: seq<nat>, branches: seq<TraceBranch>, worst: nat)
    requires IsTracePartition(m, s, w, branches)
    requires forall k | 0 <= k < |branches| :: |branches[k].support| <= worst
    requires worst == 0 || exists k :: 0 <= k < |branches| && |branches[k].support| == worst
    ensures IsWorst(m, s, w, worst) && |branches| == |TracesOf(m, s, w)|
  {
    forall t ensures |Branch(m, s, w, t)| <= worst {
      if Branch(m, s, w, t) != {} {
        assert HasTrace(branches, t);
        var k :| 0 <= k < |branches| && branches[k].trace == t;
        assert IsBranch(m, s, w, branches[k]);
      }
    }
    if worst != 0 {
      var k :| 0 <= k < |branches| && |branches[k].support| == worst;
      assert IsBranch(m, s, w, branches[k]);
      assert |Branch(m, s, w, branches[k].trace)| > worst - 1;
    }
    var traces := set k | 0 <= k < |branches| :: branches[k].trace;
    ManyTraces(branches, |branches|);
    forall t ensures t in traces <==> t in TracesOf(m, s, w) {
      if t in traces {
        var k :| 0 <= k < |branches| && branches[k].trace == t;
        assert IsBranch(m, s, w, branches[k]);
      }
      if t in TracesOf(m, s, w) {
        assert HasTrace(branches, t);
      }
    }
    assert traces == TracesOf(m, s, w);
  }

  lemma {:induction false} ManyTraces(branches: seq<TraceBranch>, n: nat)
    requires n <= |branches|
    requires forall i, j {:trigger EarlierTrace(branches, i, j)} | 0 <= i < j < |branches| ::
             EarlierTrace(branches, i, j)
    ensures |set k | 0 <= k < n :: branches[k].trace| == n
  {
    var traces := set k | 0 <= k < n :: branches[k].trace;
    if n > 0 {
      var before := set k | 0 <= k < n - 1 :: branches[k].trace;
      ManyTraces(branches, n - 1);
      assert traces == before + {branches[n - 1].trace};
      forall k | 0 <= k < n - 1 ensures branches[k].trace != branches[n - 1].trace {
        assert EarlierTrace(branches, k, n - 1);
        EarlierIsStrict(branches[k].trace);
      }
    } else {
      assert traces == {};
    }
  }

  // ---------- sg_best_resolution ----------

  datatype Choice = Unchosen | Chosen(word: seq<nat>, score: Score)

  /** sg_trace_partition_apply_word and sg_trace_metrics for one word. */
  method Measure(m: Automaton, s: set<nat>, word: seq<nat>, pair: nat) returns (score: Score)
    requires IsSupport(m, s) && IsWord(m, word)
    ensures IsScore(m, s, word, pair, score)
  {
    var branches := TracePartition(m, s, word);
    var worst := WorstBranch(branches);
    PartitionScores(m, s, word, branches, worst);
    score := Score(worst, |word|, |branches|, pair);
  }

  /** The choice is an available candidate with its own score. */
  ghost predicate Offered(b: Batch, s: set<nat>, k: nat, word: seq<nat>, score: Score)
    requires b.Valid() && k < |b.firsts|
  {
    IsWord(b.m, word) && IsScore(b.m, s, word, PairIndex(b.m.states, b.firsts[k], b.seconds[k]), score)
  }

  /** Of the first candidates, the choice is one of those available, and none of them
      is better. */
  ghost predicate BestUpto(b: Batch, s: set<nat>, words: seq<seq<nat>>, available: seq<bool>, count: nat, best: Choice)
    requires b.Valid() && count <= |words| == |available| == |b.firsts|
  {
    && (best.Chosen? ==> exists k {:trigger available[k]} ::
        0 <= k < count && available[k] && words[k] == best.word && Offered(b, s, k, best.word, best.score))
    && (forall k, score {:trigger Offered(b, s, k, words[k], score)} | 0 <= k < count && available[k]
        && Offered(b, s, k, words[k], score) ::
          best.Chosen? && AtLeastAsGood(best.score, score))
  }

  /** What the choice says of its word is true. */
  ghost predicate Scored(m: Automaton, s: set<nat>, best: Choice)
    requires m.Valid()
  {
    best.Chosen? ==> IsWord(m, best.word) && IsScore(m, s, best.word, best.score.pair, best.score)
  }

  /** The choice after one more candidate. */
  ghost function ChoiceNext(best: Choice, word: seq<nat>, score: Score): Choice {
    if best.Unchosen? || Better(score, best.score) then Chosen(word, score) else best
  }

  lemma NoneBeatsNext(best: Choice, word: seq<nat>, score: Score, other: Score)
    requires other == score || (best.Chosen? && AtLeastAsGood(best.score, other))
    ensures var next := ChoiceNext(best, word, score); next.Chosen? && AtLeastAsGood(next.score, other)
  {
  }

  lemma BestNext(b: Batch, s: set<nat>, words: seq<seq<nat>>, available: seq<bool>, k: nat, best: Choice, score: Score)
    requires b.Valid() && k < |words| == |available| == |b.firsts| && BestUpto(b, s, words, available, k, best)
    requires available[k] && Offered(b, s, k, words[k], score)
    ensures BestUpto(b, s, words, available, k + 1, ChoiceNext(best, words[k], score))
  {
    var next := ChoiceNext(best, words[k], score);
    forall i, other | 0 <= i < k + 1 && available[i] && Offered(b, s, i, words[i], other)
      ensures next.Chosen? && AtLeastAsGood(next.score, other)
    {
      if i == k {
        ScoreIsUnique(b.m, s, words[k], PairIndex(b.m.states, b.firsts[k], b.seconds[k]), score, other);
      }
      NoneBeatsNext(best, words[k], score, other);
    }
  }

  /** The candidate loop. */
  method ChooseResolution(b: Batch, s: set<nat>, words: seq<seq<nat>>, available: seq<bool>) returns (best: Choice)
    requires b.Valid() && IsSupport(b.m, s) && |words| == |available| == |b.firsts|
    requires forall k {:trigger words[k]} {:trigger available[k]} | 0 <= k < |words| ::
             Loaded(b, k, words[k], available[k])
    ensures BestUpto(b, s, words, available, |words|, best)
    ensures Scored(b.m, s, best)
  {
    best := Unchosen;
    for k := 0 to |words|
      invariant BestUpto(b, s, words, available, k, best)
    {
      assert Loaded(b, k, words[k], available[k]);
      if available[k] {
        var score := Measure(b.m, s, words[k], PairIndex(b.m.states, b.firsts[k], b.seconds[k]));
        BestNext(b, s, words, available, k, best, score);
        if best.Unchosen? || Better(score, best.score) {
          best := Chosen(words[k], score);
        }
      }
    }
  }

  /** Two hypotheses with a resolution word on record, and how good that word is. */
  ghost predicate IsCandidate(m: Automaton, r: Entries, s: set<nat>, i: nat, j: nat, word: seq<nat>, score: Score)
    requires m.Valid() && AllFollowable(PairGraphOf(m, Resolution), r)
  {
    && i in s && j in s && i < j < m.states && PairIndex(m.states, i, j) < |r|
    && var p := PairIndex(m.states, i, j);
       && r[p].distance < NONE && word == Witness(PairGraphOf(m, Resolution), r, p)
       && IsWord(m, word) && IsScore(m, s, word, p, score)
  }

  /** What the records have to offer: the best of the candidates, if it makes the worst
      branch smaller. */
  ghost predicate IsBestChoice(m: Automaton, r: Entries, s: set<nat>, currentWorst: nat, best: Choice)
    requires m.Valid() && AllFollowable(PairGraphOf(m, Resolution), r)
  {
    match best
    case Chosen(word, score) =>
      && score.worst < currentWorst
      && (exists i, j {:trigger IsCandidate(m, r, s, i, j, word, score)} :: IsCandidate(m, r, s, i, j, word, score))
      && (forall i, j, w, other {:trigger IsCandidate(m, r, s, i, j, w, other)} |
            IsCandidate(m, r, s, i, j, w, other) :: AtLeastAsGood(score, other))
    case Unchosen =>
      forall i, j, w, other {:trigger IsCandidate(m, r, s, i, j, w, other)} |
        IsCandidate(m, r, s, i, j, w, other) :: other.worst >= currentWorst
  }

  /** With honest records the choice among the loaded words is the best candidate. */
  lemma ChoiceIsBest(b: Batch, s: set<nat>, words: seq<seq<nat>>, available: seq<bool>, best: Choice,
                     currentWorst: nat)
    requires b.Valid() && b.honest && b.objective == Resolution && IsSupport(b.m, s)
    requires |words| == |available| == |b.firsts| && Zip(b.firsts, b.seconds) == AllPairs(s, b.m.states)
    requires forall k {:trigger words[k]} {:trigger available[k]} | 0 <= k < |words| ::
             Loaded(b, k, words[k], available[k])
    requires BestUpto(b, s, words, available, |words|, best)
    ensures IsBestChoice(b.m, Part(b.records, Resolution), s, currentWorst,
                         if best.Chosen? && best.score.worst < currentWorst then best else Unchosen)
  {
    var r := Part(b.records, Resolution);
    forall i: nat, j: nat, w, other | IsCandidate(b.m, r, s, i, j, w, other)
      ensures best.Chosen? && AtLeastAsGood(best.score, other)
    {
      AllPairsAreListed(s, b.m.states, i, j);
      var k :| 0 <= k < |words| && Zip(b.firsts, b.seconds)[k] == (i, j);
      assert Loaded(b, k, words[k], available[k]);
      assert available[k] && words[k] == w && Offered(b, s, k, words[k], other);
    }
    if best.Chosen? {
      var k :| 0 <= k < |words| && available[k] && words[k] == best.word && Offered(b, s, k, best.word, best.score);
      assert Loaded(b, k, words[k], available[k]);
      assert Zip(b.firsts, b.seconds)[k] == (b.firsts[k], b.seconds[k]);
      assert IsCandidate(b.m, r, s, b.firsts[k], b.seconds[k], best.word, best.score);
    }
  }

  /** sg_best_resolution: none unless it makes the worst branch smaller. */
  method BestResolution(m: Automaton, source: Source, s: set<nat>, currentWorst: nat, ghost honest: bool,
                        ghost records: seq<PairRecord>)
    returns (status: Status, best: Choice)
    requires Known(m, Resolution, source, honest, records) && IsSupport(m, s)
    ensures honest ==> status.Ok? && IsBestChoice(m, Part(records, Resolution), s, currentWorst, best)
    ensures status.Ok? ==> Scored(m, s, best) && (best.Chosen? ==> best.score.worst < currentWorst)
  {
    best := Unchosen;
    if |s| < 2 {
      NoTwo(s);
      return Ok, best;
    }
    var firsts, seconds := ListCandidates(m.states, s);
    assert Zip(firsts, seconds) == AllPairs(s, m.states);
    forall k | 0 <= k < |firsts| ensures firsts[k] < m.states && seconds[k] < m.states {
      assert (firsts[k], seconds[k]) == AllPairs(s, m.states)[k];
    }
    var batch := Batch(m, Resolution, firsts, seconds, honest, records);
    var words, available, calls;
    status, words, available, calls := LoadWords(batch, source, 0);
    if status == Ok {
      best := ChooseResolution(batch, s, words, available);
      if honest {
        ChoiceIsBest(batch, s, words, available, best, currentWorst);
      }
      if best.Chosen? && best.score.worst >= currentWorst {
        best := Unchosen;
      }
    }
  }

  lemma NoTwo(s: set<nat>)
    requires |s| < 2
    ensures forall i, j | i in s && j in s :: i == j
  {
    forall i, j | i in s && j in s ensures i == j {
      if i != j {
        HasTwo(s, i, j);
      }
    }
  }

  // ---------- In terms of words ----------

  /** The word uses permitted letters only, and leaves no branch above the bound. */
  ghost predicate Resolves(m: Automaton, letters: seq<nat>, s: set<nat>, bound: nat, v: seq<nat>)
    requires m.Valid()
  {
    OverLetters(letters, v) && IsWord(m, v) && Narrow(m, s, v, bound)
  }

  lemma ResolvesOnPath(m: Automaton, letters: seq<nat>, s: set<nat>, bound: nat, v: seq<nat>) returns (w: seq<nat>)
    requires AreLetters(m, letters) && IsSupport(m, s) && Resolves(m, letters, s, bound, v)
    ensures IsPath(letters, w) && Spell(letters, w) == v && Done(m, AtMost(bound), After(m, letters, Branches({s}), w))
  {
    w := WordHasPath(letters, v);
    DoneIsNarrow(m, letters, s, w, bound);
  }

  /** A plan of the search is a shortest permitted word that narrows the branches to
      the bound, and "no plan" means that no permitted word does. */
  lemma AnswerIsAboutBranches(m: Automaton, letters: seq<nat>, s: set<nat>, bound: nat, outcome: Outcome,
                              word: seq<nat>)
    requires AreLetters(m, letters) && IsSupport(m, s)
             && Answers(m, letters, Branches({s}), AtMost(bound), outcome, word)
    ensures outcome.Plan? ==>
              Resolves(m, letters, s, bound, word) && forall v | Resolves(m, letters, s, bound, v) :: |word| <= |v|
    ensures outcome.NoPlan? ==> forall v :: !Resolves(m, letters, s, bound, v)
  {
    if outcome.Plan? {
      var w :| Spells(letters, w, word) && IsFirst(m, letters, Branches({s}), AtMost(bound), w);
      DoneIsNarrow(m, letters, s, w, bound);
      forall v | Resolves(m, letters, s, bound, v) ensures |word| <= |v| {
        var u := ResolvesOnPath(m, letters, s, bound, v);
        assert |u| == |v| && !Earlier(u, w);
      }
    }
    if outcome.NoPlan? {
      forall v ensures !Resolves(m, letters, s, bound, v) {
        if Resolves(m, letters, s, bound, v) {
          var u := ResolvesOnPath(m, letters, s, bound, v);
        }
      }
    }
  }

  // ---------- sg_plan_disambiguate_with_source ----------

  datatype Method = NoMethod | PairResolution | PartitionSearched

  /** The part of sg_plan_result that a disambiguation fills in. */
  datatype BranchPlan = BranchPlan(outcome: Outcome, way: Method, word: seq<nat>, expansions: nat, worst: nat,
      branches: nat, homing: bool)

  /** What a result with this word says about its branches. */
  ghost predicate Finalized(m: Automaton, s: set<nat>, bound: nat, result: BranchPlan)
    requires m.Valid()
  {
    && IsWord(m, result.word) && IsWorst(m, s, result.word, result.worst) && result.worst <= bound
    && result.branches == |TracesOf(m, s, result.word)| && result.homing == (result.worst <= 1)
  }

  /** The contract, whatever the records said: a plan is a permitted word that leaves no
      branch above the bound, a shortest one if the search found it; "no plan" means
      that no permitted word does, the budget is kept, and one more than two to the number
      of supports is always enough. */
  ghost predicate BranchContract(m: Automaton, s: set<nat>, bound: nat, letters: seq<nat>, budget: nat,
                                 result: BranchPlan) {
    && AreLetters(m, letters) && IsSupport(m, s)
    && (result.outcome.AlreadySatisfied? <==> |s| <= bound)
    && (result.outcome.AlreadySatisfied? ==> result.word == [])
    && (result.outcome.Plan? || result.outcome.AlreadySatisfied? ==> Finalized(m, s, bound, result))
    && (result.outcome.Plan? ==> Resolves(m, letters, s, bound, result.word))
    && (result.outcome.Plan? && result.way == PartitionSearched ==> forall v | Resolves(m, letters, s, bound, v) ::
        |result.word| <= |v|)
    && (result.outcome.NoPlan? ==> forall v :: !Resolves(m, letters, s, bound, v))
    && result.expansions <= budget
    && (result.outcome.OutOfBudget? ==> result.expansions == budget <= Pow2(Pow2(m.states) - 1))
  }

  /** sg_disambiguation_finalize.  Its check of the bound cannot fire. */
  method Finalize(m: Automaton, s: set<nat>, bound: nat, outcome: Outcome, way: Method, word: seq<nat>, expansions: nat)
    returns (result: BranchPlan)
    requires IsSupport(m, s) && IsWord(m, word) && Narrow(m, s, word, bound)
    ensures Finalized(m, s, bound, result)
    ensures result.outcome == outcome && result.way == way && result.word == word && result.expansions == expansions
  {
    var score := Measure(m, s, word, 0);
    WorstIsLeast(m, s, word, score.worst, bound);
    result := BranchPlan(outcome, way, word, expansions, score.worst, score.branches, score.worst <= 1);
  }

  /** The loop over the letters of a heuristic word. */
  method Permitted(word: seq<nat>, letters: seq<nat>) returns (ok: bool)
    ensures ok == OverLetters(letters, word)
  {
    for step := 0 to |word|
      invariant forall k | 0 <= k < step :: word[k] in letters
    {
      var permitted := false;
      for letter := 0 to |letters|
        invariant !permitted && word[step] !in letters[..letter]
      {
        if word[step] == letters[letter] {
          permitted := true;
          break;
        }
      }
      if !permitted {
        assert letters[..|letters|] == letters;
        return false;
      }
    }
    ok := true;
  }

  lemma WordIsOverAll(m: Automaton, w: seq<nat>)
    requires IsWord(m, w)
    ensures OverLetters(AllLetters(m), w)
  {
    forall k | 0 <= k < |w| ensures w[k] in AllLetters(m) {
      assert AllLetters(m)[w[k]] == w[k];
    }
  }

  /** Before any letter, all hypotheses are in one branch. */
  lemma OneBranchAtFirst(m: Automaton, s: set<nat>)
    requires IsSupport(m, s)
    ensures Narrow(m, s, [], |s|)
  {
    BranchStarts(m, s);
    forall t ensures |Branch(m, s, [], t)| <= |s| {
      if Branch(m, s, [], t) != {} {
        BranchIsSupport(m, s, [], t);
      }
    }
  }

  /** What the search leaves, with what the heuristic left of the budget. */
  ghost predicate Searched(m: Automaton, s: set<nat>, bound: nat, letters: seq<nat>, budget: nat, spent: nat,
                           result: BranchPlan)
    requires AreLetters(m, letters)
  {
    && spent <= result.expansions
    && Tallied(m, letters, Branches({s}), AtMost(bound), Left(budget, spent),
               Report(result.outcome, result.word, result.expansions - spent))
    && (if result.outcome.Plan? then result.way == PartitionSearched && Finalized(m, s, bound, result)
        else result == BranchPlan(result.outcome, NoMethod, [], result.expansions, 0, 0, false))
  }

  /** What the search leaves keeps the contract. */
  lemma SearchedContract(m: Automaton, s: set<nat>, bound: nat, letters: seq<nat>, budget: nat, spent: nat,
                         result: BranchPlan)
    requires AreLetters(m, letters) && IsSupport(m, s) && |s| > bound && spent <= 1 <= budget
    requires Searched(m, s, bound, letters, budget, spent, result)
    requires result.outcome.OutOfBudget? ==> budget <= Pow2(Pow2(m.states) - 1)
    ensures BranchContract(m, s, bound, letters, budget, result)
  {
    var report := Report(result.outcome, result.word, result.expansions - spent);
    TalliedIsAnswered(m, letters, Branches({s}), AtMost(bound), Left(budget, spent), report);
    AnswerIsAboutBranches(m, letters, s, bound, result.outcome, result.word);
  }

  /** The word of a plan of the search leaves no branch above the bound. */
  lemma FoundIsNarrow(m: Automaton, s: set<nat>, bound: nat, letters: seq<nat>, left: nat, report: Report)
    requires AreLetters(m, letters) && IsSupport(m, s) && report.outcome.Plan?
    requires Tallied(m, letters, Branches({s}), AtMost(bound), left, report)
    ensures IsWord(m, report.word) && Narrow(m, s, report.word, bound)
  {
    TalliedIsAnswered(m, letters, Branches({s}), AtMost(bound), left, report);
    AnswerIsAboutBranches(m, letters, s, bound, report.outcome, report.word);
  }

  /** The exact search. */
  method SearchPartitions(m: Automaton, s: set<nat>, bound: nat, letters: seq<nat>, budget: nat, spent: nat)
    returns (result: BranchPlan)
    requires AreLetters(m, letters) && IsSupport(m, s) && |s| > bound && spent <= 1 <= budget
    ensures BranchContract(m, s, bound, letters, budget, result)
    ensures Searched(m, s, bound, letters, budget, spent, result)
  {
    var outcome, word, expansions := PartitionBfs(m, s, bound, letters, budget, spent);
    TalliedIsAnswered(m, letters, Branches({s}), AtMost(bound), Left(budget, spent),
                      Report(outcome, word, expansions - spent));
    if outcome == Plan {
      FoundIsNarrow(m, s, bound, letters, Left(budget, spent), Report(outcome, word, expansions - spent));
      result := Finalize(m, s, bound, Plan, PartitionSearched, word, expansions);
    } else {
      result := BranchPlan(outcome, NoMethod, [], expansions, 0, 0, false);
    }
    SearchedContract(m, s, bound, letters, budget, spent, result);
  }

  /** The candidate may be driven. */
  ghost predicate Usable(restricted: bool, letters: seq<nat>, best: Choice) {
    best.Chosen? && (restricted ==> OverLetters(letters, best.word))
  }

  /** The plan that follows from the choice: the word of a pair if it is good enough, at
      the price of one expansion, or else the search. */
  ghost predicate PlanFrom(m: Automaton, s: set<nat>, bound: nat, restricted: bool, letters: seq<nat>, budget: nat,
                           best: Choice, result: BranchPlan)
    requires AreLetters(m, letters)
  {
    if Usable(restricted, letters, best) && best.score.worst <= bound
    then
      result == BranchPlan(Plan, PairResolution, best.word, 1, best.score.worst, best.score.branches,
                           best.score.worst <= 1)
    else
      Searched(m, s, bound, letters, budget, if Usable(restricted, letters, best) then 1 else 0, result)
  }

  /** With honest records the whole plan is decided by the records. */
  ghost predicate PlanHonestly(m: Automaton, r: Entries, s: set<nat>, bound: nat, restricted: bool,
                               letters: seq<nat>, budget: nat, result: BranchPlan)
    requires AreLetters(m, letters) && AllFollowable(PairGraphOf(m, Resolution), r)
  {
    if |s| <= bound then result.outcome.AlreadySatisfied? && result.way.NoMethod? && result.word == []
                         && result.expansions == 0 && Finalized(m, s, bound, result)
    else exists best {:trigger IsBestChoice(m, r, s, |s|, best)} ::
           && IsBestChoice(m, r, s, |s|, best)
           && PlanFrom(m, s, bound, restricted, letters, budget, best, result)
  }

  /** The planning of sg_plan_disambiguate_with_source, on a set of states. */
  method Disambiguate(m: Automaton, source: Source, s: set<nat>, bound: nat, restricted: bool, letters: seq<nat>,
                      budget: nat,
                      ghost honest: bool, ghost records: seq<PairRecord>)
    returns (status: Status, result: BranchPlan)
    requires Known(m, Resolution, source, honest, records) && IsSupport(m, s) && 0 < bound <= |s| && budget > 0
    requires AreLetters(m, letters) && (!restricted ==> letters == AllLetters(m))
    ensures status.Ok? ==> BranchContract(m, s, bound, letters, budget, result)
    ensures honest ==> status.Ok? && PlanHonestly(m, Part(records, Resolution), s, bound, restricted, letters, budget,
                                                  result)
  {
    if |s| <= bound {
      OneBranchAtFirst(m, s);
      NarrowWidens(m, s, [], |s|, bound);
      result := Finalize(m, s, bound, AlreadySatisfied, NoMethod, [], 0);
      return Ok, result;
    }
    result := BranchPlan(NoPlan, NoMethod, [], 0, 0, 0, false);
    var best;
    status, best := BestResolution(m, source, s, |s|, honest, records);
    if status == Ok {
      result := PlanWith(m, s, bound, restricted, letters, budget, best);
    }
  }

  /** Go on with the choice: drop a word with a forbidden letter, take one that is good
      enough, and search otherwise. */
  method PlanWith(m: Automaton, s: set<nat>, bound: nat, restricted: bool, letters: seq<nat>, budget: nat, best: Choice)
    returns (result: BranchPlan)
    requires AreLetters(m, letters) && IsSupport(m, s) && 0 < bound < |s| && budget > 0
    requires !restricted ==> letters == AllLetters(m)
    requires Scored(m, s, best)
    ensures BranchContract(m, s, bound, letters, budget, result)
    ensures PlanFrom(m, s, bound, restricted, letters, budget, best, result)
  {
    var found := best.Chosen?;
    if found && restricted {
      found := Permitted(best.word, letters);
    }
    var spent := 0;
    if found {
      if !restricted {
        WordIsOverAll(m, best.word);
      }
      spent := 1;
      if best.score.worst <= bound {
        NarrowWidens(m, s, best.word, best.score.worst, bound);
        result := Finalize(m, s, bound, Plan, PairResolution, best.word, spent);
        return;
      }
    }
    result := SearchPartitions(m, s, bound, letters, budget, spent);
  }

  /** sg_plan_disambiguate_from_records and sg_plan_disambiguate_allowed_from_records */
  method PlanDisambiguate(m: Automaton, source: Source, initialIds: seq<nat>, bound: nat, restricted: bool,
                          allowed: seq<nat>, budget: nat,
                          ghost honest: bool, ghost records: seq<PairRecord>)
    returns (status: Status, result: BranchPlan)
    requires Known(m, Resolution, source, honest, records)
    ensures var letters := if restricted then allowed else AllLetters(m);
            var valid := (restricted ==> LettersValid(m, allowed)) && IdsValid(m.states, initialIds) && budget > 0
                         && 0 < bound <= |SupportSearch.IdSet(initialIds)|;
            && (!valid ==> status == InvalidArgument)
            && (valid && honest ==>
                 && status.Ok? && AreLetters(m, letters)
                 && PlanHonestly(m, Part(records, Resolution), SupportSearch.IdSet(initialIds), bound, restricted,
                                 letters, budget, result))
            && (status.Ok? ==> BranchContract(m, SupportSearch.IdSet(initialIds), bound, letters, budget, result))
  {
    result := BranchPlan(NoPlan, NoMethod, [], 0, 0, 0, false);
    var permitted := CheckLetters(m, allowed);
    if (restricted && !permitted) || |initialIds| == 0 || bound == 0 || budget == 0 {
      return InvalidArgument, result;
    }
    var initial;
    status, initial := FromIds(m.states, initialIds);
    if status != Ok || bound > |initial| {
      return InvalidArgument, result;
    }
    assert initialIds[0] in initial;
    status, result := Disambiguate(m, source, initial, bound, restricted, if restricted then allowed
        else AllLetters(m), budget,
                                   honest, records);
  }

  // ---------- What decides a plan ----------

  /** A word that leaves no branch above a bound has a score no worse. */
  lemma {:induction false} ScoreExists(m: Automaton, s: set<nat>, w: seq<nat>, pair: nat, bound: nat)
    returns (score: Score)
    requires m.Valid() && IsWord(m, w) && Narrow(m, s, w, bound)
    ensures IsScore(m, s, w, pair, score) && score.worst <= bound
    decreases bound
  {
    if bound > 0 && Narrow(m, s, w, bound - 1) {
      score := ScoreExists(m, s, w, pair, bound - 1);
    } else {
      score := Score(bound, |w|, |TracesOf(m, s, w)|, pair);
    }
  }

  /** If the witness of two hypotheses leaves no branch above the bound, that is enough
      for a plan, whatever the budget: one expansion, if the letters are not restricted
      or the best candidate uses permitted ones only. */
  lemma WitnessResolves(m: Automaton, r: Entries, s: set<nat>, bound: nat, restricted: bool, letters: seq<nat>,
                        budget: nat, result: BranchPlan, i: nat, j: nat)
    requires AreLetters(m, letters) && AllFollowable(PairGraphOf(m, Resolution), r)
    requires PlanHonestly(m, r, s, bound, restricted, letters, budget, result) && bound < |s|
    requires i in s && j in s && i < j < m.states && PairIndex(m.states, i, j) < |r|
    requires r[PairIndex(m.states, i, j)].distance < NONE
    requires var w := Witness(PairGraphOf(m, Resolution), r, PairIndex(m.states, i, j));
             IsWord(m, w) && Narrow(m, s, w, bound)
    requires restricted ==> forall best | IsBestChoice(m, r, s, |s|, best) && best.Chosen? ::
                              OverLetters(letters, best.word)
    ensures result.outcome.Plan? && result.way.PairResolution? && result.expansions == 1
  {
    var p := PairIndex(m.states, i, j);
    var w := Witness(PairGraphOf(m, Resolution), r, p);
    var score := ScoreExists(m, s, w, p, bound);
    assert IsCandidate(m, r, s, i, j, w, score);
    var best :| IsBestChoice(m, r, s, |s|, best) && PlanFrom(m, s, bound, restricted, letters, budget, best, result);
  }

  lemma SameCandidate(m: Automaton, r: Entries, s: set<nat>, i: nat, j: nat, k: nat, l: nat, w: seq<nat>,
                      v: seq<nat>, score: Score)
    requires m.Valid() && AllFollowable(PairGraphOf(m, Resolution), r)
    requires IsCandidate(m, r, s, i, j, w, score) && IsCandidate(m, r, s, k, l, v, score)
    ensures w == v
  {
  }

  lemma BestChoiceIsUnique(m: Automaton, r: Entries, s: set<nat>, currentWorst: nat, best: Choice, other: Choice)
    requires m.Valid() && AllFollowable(PairGraphOf(m, Resolution), r)
    requires IsBestChoice(m, r, s, currentWorst, best) && IsBestChoice(m, r, s, currentWorst, other)
    ensures best == other
  {
    if best.Chosen? && other.Chosen? {
      var i: nat, j: nat :| IsCandidate(m, r, s, i, j, best.word, best.score);
      var k: nat, l: nat :| IsCandidate(m, r, s, k, l, other.word, other.score);
      assert AtLeastAsGood(best.score, other.score) && AtLeastAsGood(other.score, best.score);
      SameCandidate(m, r, s, i, j, k, l, best.word, other.word, best.score);
    }
  }

  lemma FinalizedIsUnique(m: Automaton, s: set<nat>, bound: nat, x: BranchPlan, y: BranchPlan)
    requires m.Valid() && Finalized(m, s, bound, x) && Finalized(m, s, bound, y) && x.word == y.word
    ensures x.worst == y.worst && x.branches == y.branches && x.homing == y.homing
  {
    WorstIsLeast(m, s, x.word, x.worst, y.worst);
    WorstIsLeast(m, s, x.word, y.worst, x.worst);
  }

  /** The records, the hypotheses, the letters, the bound and the budget determine the
      whole plan: outcome, method, word, expansions and what is said of the branches. */
  lemma PlanIsDetermined(m: Automaton, r: Entries, s: set<nat>, bound: nat, restricted: bool, letters: seq<nat>,
                         budget: nat, x: BranchPlan, y: BranchPlan)
    requires AreLetters(m, letters) && AllFollowable(PairGraphOf(m, Resolution), r)
    requires PlanHonestly(m, r, s, bound, restricted, letters, budget, x)
    requires PlanHonestly(m, r, s, bound, restricted, letters, budget, y)
    ensures x == y
  {
    if |s| <= bound {
      FinalizedIsUnique(m, s, bound, x, y);
    } else {
      var best :| IsBestChoice(m, r, s, |s|, best) && PlanFrom(m, s, bound, restricted, letters, budget, best, x);
      var other :| IsBestChoice(m, r, s, |s|, other) && PlanFrom(m, s, bound, restricted, letters, budget, other, y);
      BestChoiceIsUnique(m, r, s, |s|, best, other);
      if !(Usable(restricted, letters, best) && best.score.worst <= bound) {
        var spent := if Usable(restricted, letters, best) then 1 else 0;
        SearchedIsUnique(m, s, bound, letters, budget, spent, x, y);
      }
    }
  }

  lemma SearchedIsUnique(m: Automaton, s: set<nat>, bound: nat, letters: seq<nat>, budget: nat, spent: nat,
                         x: BranchPlan, y: BranchPlan)
    requires AreLetters(m, letters) && Searched(m, s, bound, letters, budget, spent, x)
    requires Searched(m, s, bound, letters, budget, spent, y)
    ensures x == y
  {
    TalliesAgree(m, letters, Branches({s}), AtMost(bound), Left(budget, spent),
                 Report(x.outcome, x.word, x.expansions - spent), Report(y.outcome, y.word, y.expansions - spent));
    if x.outcome.Plan? {
      FinalizedIsUnique(m, s, bound, x, y);
    }
  }

  /** With bound one, a plan is a homing word: it tells apart any two hypotheses that it
      does not bring together. */
  lemma PlanIsHoming(m: Automaton, s: set<nat>, letters: seq<nat>, budget: nat, result: BranchPlan)
    requires BranchContract(m, s, 1, letters, budget, result) && result.outcome.Plan?
    ensures result.homing && forall i, j | i in s && j in s :: Achieves(m, Resolution, i, j, result.word)
  {
    forall t, y, z | y in Branch(m, s, result.word, t) && z in Branch(m, s, result.word, t) ensures y == z {
      var b := Branch(m, s, result.word, t);
      assert |b| <= 1;
      if y != z {
        assert {y, z} <= b;
        HasTwo(b, y, z);
      }
    }
    SingleBranchesAreHoming(m, s, result.word);
  }

  lemma HasTwo(b: set<nat>, y: nat, z: nat)
    requires y in b && z in b && y != z
    ensures |b| >= 2
  {
    var rest := b - {y};
    assert z in rest && b == rest + {y};
  }
}
