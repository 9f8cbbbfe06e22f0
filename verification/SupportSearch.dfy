/** The breadth-first searches over supports: synchronization and goals. */
module SupportSearch {
  import opened Records
  import opened PairGraph
  import opened Counting
  import opened RepairBounds
  import opened Pairs
  import opened Supports
  import opened WordSearch
  import opened FirstPaths

  datatype Outcome = Plan | NoPlan | AlreadySatisfied | OutOfBudget

  // ---------- Moving a support ----------

  /** sg_apply_action_set */
  method ApplyAction(m: Automaton, source: set<nat>, action: nat) returns (destination: set<nat>)
    requires m.Valid() && action < m.actions
    ensures destination == Image(m, source, action)
  {
    destination := {};
    for state := 0 to m.states
      invariant destination == set x | x in source && x < state :: m.delta[x][action]
    {
      ghost var before := destination;
      if state in source {
        destination := destination + {m.delta[state][action]};
      }
      forall y ensures y in destination <==> exists x :: x in source && x < state + 1 && m.delta[x][action] == y {
        if x :| x in source && x < state + 1 && m.delta[x][action] == y {
          if x < state {
            assert y in before;
          }
        }
      }
    }
  }

  /** sg_apply_word_set: refuse a letter out of range. */
  method ApplyWord(m: Automaton, source: set<nat>, word: seq<nat>) returns (status: Status, destination: set<nat>)
    requires m.Valid()
    ensures status == if IsWord(m, word) then Ok else InvalidArgument
    ensures status.Ok? ==> destination == ImageOf(m, source, word)
  {
    destination := source;
    assert word[..0] == [];
    for index := 0 to |word|
      invariant IsWord(m, word[..index]) && destination == ImageOf(m, source, word[..index])
    {
      if word[index] >= m.actions {
        return InvalidArgument, {};
      }
      assert word[..index + 1] == word[..index] + [word[index]];
      ImageOfConcat(m, source, word[..index], [word[index]]);
      assert [word[index]][1..] == [];
      destination := ApplyAction(m, destination, word[index]);
    }
    assert word[..|word|] == word;
    status := Ok;
  }

  // ---------- Looking a node up, and spelling a word ----------

  /** sg_subset_search_contains, sg_belief_search_find, sg_search_find */
  method Find(m: Automaton, visits: seq<Visit>, n: Node) returns (found: bool, index: nat)
    ensures found == Met(m, visits, n)
    ensures found ==> index < |visits| && visits[index].node == n
  {
    index := 0;
    while index < |visits|
      invariant index <= |visits| && forall j {:trigger visits[j]} | 0 <= j < index :: visits[j].node != n
    {
      if visits[index].node == n {
        return true, index;
      }
      index := index + 1;
    }
    found := false;
  }

  ghost function Backwards(s: seq<nat>): (r: seq<nat>)
    ensures |r| == |s| && forall k | 0 <= k < |s| :: r[k] == s[|s| - 1 - k]
  {
    seq(|s|, k requires 0 <= k < |s| => s[|s| - 1 - k])
  }

  /** The loop that turns a word around in place. */
  method Reverse(word: seq<nat>) returns (reversed: seq<nat>)
    ensures reversed == Backwards(word)
  {
    reversed := word;
    var first, second := 0, |word|;
    while first < second && second != 0
      invariant 0 <= first <= |word| && second == |word| - first && |reversed| == |word|
      invariant forall k {:trigger reversed[k]} | 0 <= k < |word| && (k < first || k >= second) ::
                reversed[k] == word[|word| - 1 - k]
      invariant forall k {:trigger reversed[k]} | first <= k < second :: reversed[k] == word[k]
      decreases |word| - first
    {
      second := second - 1;
      assert second == |word| - 1 - first;
      assert reversed[first] == word[first] && reversed[second] == word[second];
      reversed := reversed[first := reversed[second]][second := reversed[first]];
      first := first + 1;
    }
  }

  lemma SpellSplit(letters: seq<nat>, w: seq<nat>, q: nat)
    requires IsPath(letters, w) && q < |letters|
    ensures IsPath(letters, w + [q]) && Spell(letters, w + [q]) == Spell(letters, w) + [letters[q]]
  {
  }

  lemma BackwardsAppend(s: seq<nat>, x: nat)
    ensures Backwards(s + [x]) == [x] + Backwards(s)
  {
  }

  /** sg_subset_reconstruct, sg_belief_reconstruct and sg_search_reconstruct: follow
      the parents to the start, then turn the letters around. */
  method Reconstruct(m: Automaton, letters: seq<nat>, visits: seq<Visit>, entry: nat, last: seq<nat>,
                     ghost start: Node, ghost goal: Goal, ghost words: seq<seq<nat>>, ghost head: nat)
    returns (word: seq<nat>)
    requires AreLetters(m, letters) && |visits| == |words| && Tree(m, letters, start, goal, visits, words, head)
    requires entry < |visits| && |last| <= 1
    ensures IsPath(letters, words[entry]) && word == Spell(letters, words[entry]) + last
  {
    WordLeadsToNode(m, letters, start, goal, visits, words, head, entry);
    var acc, cursor: nat := last, entry;
    assert Backwards(last) == last;
    while visits[cursor].Reached?
      invariant cursor < |visits| && IsPath(letters, words[cursor])
      invariant Spell(letters, words[entry]) + last == Spell(letters, words[cursor]) + Backwards(acc)
      decreases cursor
    {
      assert Linked(m, letters, start, visits, words, head, cursor);
      ghost var w := words[cursor];
      ghost var parent, q := visits[cursor].parent, w[|w| - 1];
      WordLeadsToNode(m, letters, start, goal, visits, words, head, parent);
      SpellSplit(letters, words[parent], q);
      BackwardsAppend(acc, visits[cursor].action);
      acc := acc + [visits[cursor].action];
      cursor := visits[cursor].parent;
    }
    assert Linked(m, letters, start, visits, words, head, cursor);
    word := Reverse(acc);
  }

  // ---------- What a planner says ----------

  /** The path meets the goal, and no path before it does: it is a shortest one, and
      the first of those in the order of the letters. */
  ghost predicate IsFirst(m: Automaton, letters: seq<nat>, start: Node, goal: Goal, w: seq<nat>)
    requires AreLetters(m, letters)
  {
    && IsPath(letters, w) && Done(m, goal, After(m, letters, start, w))
    && forall u | IsPath(letters, u) && Earlier(u, w) :: !Done(m, goal, After(m, letters, start, u))
  }

  ghost predicate NoWord(m: Automaton, letters: seq<nat>, start: Node, goal: Goal)
    requires AreLetters(m, letters)
  {
    forall w | IsPath(letters, w) :: !Done(m, goal, After(m, letters, start, w))
  }

  ghost predicate Spells(letters: seq<nat>, w: seq<nat>, word: seq<nat>) { IsPath(letters, w)
                         && Spell(letters, w) == word }

  /** A plan is the first word; "no plan" is a proof that there is none. */
  ghost predicate Answers(m: Automaton, letters: seq<nat>, start: Node, goal: Goal, outcome: Outcome, word: seq<nat>)
    requires AreLetters(m, letters)
  {
    && (outcome.Plan? ==> exists w {:trigger Spells(letters, w, word)} ::
          Spells(letters, w, word) && IsFirst(m, letters, start, goal, w))
    && (outcome.NoPlan? ==> NoWord(m, letters, start, goal))
  }

  // ---------- How far a search went ----------

  /** What a search reports: the outcome, its word and the number of nodes expanded. */
  datatype Report = Report(outcome: Outcome, word: seq<nat>, used: nat)

  /** One more letter makes the path the first one to the goal. */
  ghost predicate WinsBy(m: Automaton, letters: seq<nat>, start: Node, goal: Goal, w: seq<nat>, q: nat, word: seq<nat>)
    requires AreLetters(m, letters)
  {
    q < |letters| && Spells(letters, w + [q], word) && IsFirst(m, letters, start, goal, w + [q])
  }

  ghost predicate Wins(m: Automaton, letters: seq<nat>, start: Node, goal: Goal, w: seq<nat>, word: seq<nat>)
    requires AreLetters(m, letters)
  {
    exists q {:trigger WinsBy(m, letters, start, goal, w, q, word)} :: WinsBy(m, letters, start, goal, w, q, word)
  }

  /** No path before this one meets the goal. */
  ghost predicate NoneBefore(m: Automaton, letters: seq<nat>, start: Node, goal: Goal, w: seq<nat>)
    requires AreLetters(m, letters)
  {
    forall u | IsPath(letters, u) && Earlier(u, w) :: !Done(m, goal, After(m, letters, start, u))
  }

  /** The listed paths are those of the nodes expanded, in order.  A plan is one letter
      behind the last of them; a search gives up with one node more at hand than it may
      expand; and without a plan, every node has been expanded. */
  ghost predicate Accounts(m: Automaton, letters: seq<nat>, start: Node, goal: Goal, left: nat, report: Report,
                           words: seq<seq<nat>>)
    requires AreLetters(m, letters)
  {
    && FirstOnes(m, letters, start, words)
    && match report.outcome
       case Plan =>
         && 0 < |words| == report.used <= left
         && Wins(m, letters, start, goal, words[|words| - 1], report.word)
       case OutOfBudget =>
         && |words| == left + 1 && report.used == left && report.word == []
         && NoneBefore(m, letters, start, goal, words[left] + [0])
       case NoPlan =>
         && |words| == report.used <= left && report.word == [] && NoWord(m, letters, start, goal)
         && AllListed(m, letters, start, words)
       case AlreadySatisfied => false
  }

  /** Every node there is has its first path on the list. */
  ghost predicate AllListed(m: Automaton, letters: seq<nat>, start: Node, words: seq<seq<nat>>)
    requires AreLetters(m, letters)
  {
    forall u | IsFirstTo(m, letters, start, u) :: ListedBefore(words, |words|, u)
  }

  /** The same, some steps away, so that only TallyIs unfolds it. */
  ghost predicate Tally(m: Automaton, letters: seq<nat>, start: Node, goal: Goal, left: nat, report: Report,
                        words: seq<seq<nat>>)
    requires AreLetters(m, letters)
  {
    TallyIn(m, letters, start, goal, left, report, words, DEPTH + 1)
  }

  ghost predicate TallyIn(m: Automaton, letters: seq<nat>, start: Node, goal: Goal, left: nat, report: Report,
                          words: seq<seq<nat>>, steps: nat)
    requires AreLetters(m, letters)
    decreases steps
  {
    if steps > 0 then TallyIn(m, letters, start, goal, left, report, words, steps - 1)
    else Accounts(m, letters, start, goal, left, report, words)
  }

  lemma TallyIs(m: Automaton, letters: seq<nat>, start: Node, goal: Goal, left: nat, report: Report,
                words: seq<seq<nat>>)
    requires AreLetters(m, letters)
    ensures Tally(m, letters, start, goal, left, report, words) <==>
              Accounts(m, letters, start, goal, left, report, words)
  {
    var k: nat := DEPTH + 1;
    while k > 0
      invariant TallyIn(m, letters, start, goal, left, report, words, DEPTH + 1)
                == TallyIn(m, letters, start, goal, left, report, words, k)
    {
      k := k - 1;
    }
  }

  /** With so many expansions left, this is the report of the search. */
  ghost predicate Tallied(m: Automaton, letters: seq<nat>, start: Node, goal: Goal, left: nat, report: Report)
    requires AreLetters(m, letters)
  {
    exists words {:trigger Tally(m, letters, start, goal, left, report, words)} ::
      Tally(m, letters, start, goal, left, report, words)
  }

  lemma TallyOfPlan(m: Automaton, letters: seq<nat>, start: Node, goal: Goal, left: nat, report: Report,
                    words: seq<seq<nat>>)
    requires AreLetters(m, letters) && Tally(m, letters, start, goal, left, report, words) && report.outcome.Plan?
    ensures FirstOnes(m, letters, start, words) && 0 < |words| == report.used <= left
    ensures Wins(m, letters, start, goal, words[|words| - 1], report.word)
  {
    TallyIs(m, letters, start, goal, left, report, words);
  }

  lemma TallyOfGivingUp(m: Automaton, letters: seq<nat>, start: Node, goal: Goal, left: nat, report: Report,
                        words: seq<seq<nat>>)
    requires AreLetters(m, letters) && Tally(m, letters, start, goal, left, report, words)
    requires report.outcome.OutOfBudget?
    ensures FirstOnes(m, letters, start, words) && |words| == left + 1 && report == Report(OutOfBudget, [], left)
    ensures NoneBefore(m, letters, start, goal, words[left] + [0])
  {
    TallyIs(m, letters, start, goal, left, report, words);
  }

  lemma TallyOfAbsence(m: Automaton, letters: seq<nat>, start: Node, goal: Goal, left: nat, report: Report,
                       words: seq<seq<nat>>)
    requires AreLetters(m, letters) && Tally(m, letters, start, goal, left, report, words) && report.outcome.NoPlan?
    ensures FirstOnes(m, letters, start, words) && |words| <= left && report == Report(NoPlan, [], |words|)
    ensures NoWord(m, letters, start, goal) && AllListed(m, letters, start, words)
  {
    TallyIs(m, letters, start, goal, left, report, words);
  }

  lemma NeverSatisfied(m: Automaton, letters: seq<nat>, start: Node, goal: Goal, left: nat, report: Report,
                       words: seq<seq<nat>>)
    requires AreLetters(m, letters) && Tally(m, letters, start, goal, left, report, words)
    ensures !report.outcome.AlreadySatisfied?
  {
    TallyIs(m, letters, start, goal, left, report, words);
  }

  lemma WinsIsWon(m: Automaton, letters: seq<nat>, start: Node, goal: Goal, w: seq<nat>, word: seq<nat>)
    requires AreLetters(m, letters) && Wins(m, letters, start, goal, w, word)
    ensures Won(m, letters, start, goal, word)
  {
    var q :| WinsBy(m, letters, start, goal, w, q, word);
  }

  lemma TallyIsAnswered(m: Automaton, letters: seq<nat>, start: Node, goal: Goal, left: nat, report: Report,
                        words: seq<seq<nat>>)
    requires AreLetters(m, letters) && Tally(m, letters, start, goal, left, report, words)
    ensures Answers(m, letters, start, goal, report.outcome, report.word)
    ensures report.outcome != AlreadySatisfied && report.used <= left
    ensures report.outcome.OutOfBudget? ==> report.used == left
    ensures !report.outcome.Plan? ==> report.word == []
  {
    TallyIs(m, letters, start, goal, left, report, words);
    if report.outcome.Plan? {
      WinsIsWon(m, letters, start, goal, words[|words| - 1], report.word);
    }
  }

  lemma TalliedIsAnswered(m: Automaton, letters: seq<nat>, start: Node, goal: Goal, left: nat, report: Report)
    requires AreLetters(m, letters) && Tallied(m, letters, start, goal, left, report)
    ensures Answers(m, letters, start, goal, report.outcome, report.word)
    ensures report.outcome != AlreadySatisfied && report.used <= left
    ensures report.outcome.OutOfBudget? ==> report.used == left
    ensures !report.outcome.Plan? ==> report.word == []
  {
    var words :| Tally(m, letters, start, goal, left, report, words);
    TallyIsAnswered(m, letters, start, goal, left, report, words);
  }

  lemma FirstIsUnique(m: Automaton, letters: seq<nat>, start: Node, goal: Goal, w: seq<nat>, v: seq<nat>)
    requires AreLetters(m, letters) && IsFirst(m, letters, start, goal, w) && IsFirst(m, letters, start, goal, v)
    ensures w == v
  {
    EarlierTotal(w, v);
  }

  /** The first path that a shorter list leaves out. */
  lemma NextIsUnlisted(m: Automaton, letters: seq<nat>, start: Node, words: seq<seq<nat>>, others: seq<seq<nat>>)
    requires AreLetters(m, letters) && |words| < |others|
    requires FirstOnes(m, letters, start, words) && FirstOnes(m, letters, start, others)
    ensures IsFirstTo(m, letters, start, others[|words|]) && !ListedBefore(words, |words|, others[|words|])
  {
    var n := |words|;
    FirstOnesAgree(m, letters, start, words, others, n);
    forall j | 0 <= j < n ensures words[j] != others[n] {
      assert words[..n][j] == others[..n][j] && EarlierAt(others, j, n);
      EarlierIsStrict(others[n]);
    }
  }

  /** A list of all nodes is the longest. */
  lemma AllIsMost(m: Automaton, letters: seq<nat>, start: Node, words: seq<seq<nat>>, others: seq<seq<nat>>)
    requires AreLetters(m, letters) && AllListed(m, letters, start, words)
    requires FirstOnes(m, letters, start, words) && FirstOnes(m, letters, start, others)
    ensures |others| <= |words|
  {
    if |words| < |others| {
      NextIsUnlisted(m, letters, start, words, others);
    }
  }

  /** A search that has expanded the last node before a goal has met the goal. */
  lemma PlanIsMet(m: Automaton, letters: seq<nat>, start: Node, goal: Goal, words: seq<seq<nat>>,
                  others: seq<seq<nat>>, word: seq<nat>)
    requires AreLetters(m, letters) && 0 < |words| < |others|
    requires FirstOnes(m, letters, start, words) && FirstOnes(m, letters, start, others)
    requires Wins(m, letters, start, goal, words[|words| - 1], word)
    ensures !NoneBefore(m, letters, start, goal, others[|others| - 1] + [0])
  {
    var q :| WinsBy(m, letters, start, goal, words[|words| - 1], q, word);
    ExpandedIsBefore(m, letters, start, words, others, q);
    MetIsNotMissed(m, letters, start, goal, words[|words| - 1] + [q], others[|others| - 1] + [0]);
  }

  lemma ExpandedIsBefore(m: Automaton, letters: seq<nat>, start: Node, words: seq<seq<nat>>, others: seq<seq<nat>>,
                         q: nat)
    requires AreLetters(m, letters) && 0 < |words| < |others|
    requires FirstOnes(m, letters, start, words) && FirstOnes(m, letters, start, others)
    ensures Earlier(words[|words| - 1] + [q], others[|others| - 1] + [0])
  {
    var k, last := |words| - 1, |others| - 1;
    FirstOnesAgree(m, letters, start, words, others, |words|);
    assert words[..|words|][k] == others[..|words|][k];
    assert EarlierAt(others, k, last);
    EarlierAppend(words[k], others[last], q, 0);
  }

  lemma MetIsNotMissed(m: Automaton, letters: seq<nat>, start: Node, goal: Goal, u: seq<nat>, w: seq<nat>)
    requires AreLetters(m, letters) && IsPath(letters, u) && Done(m, goal, After(m, letters, start, u)) && Earlier(u, w)
    ensures !NoneBefore(m, letters, start, goal, w)
  {
  }

  lemma SameExpanded(m: Automaton, letters: seq<nat>, start: Node, words: seq<seq<nat>>, others: seq<seq<nat>>)
    requires AreLetters(m, letters) && 0 < |words| <= |others| && words[|words| - 1] == others[|others| - 1]
    requires FirstOnes(m, letters, start, words) && FirstOnes(m, letters, start, others)
    ensures |words| == |others|
  {
    var i, k := |words| - 1, |others| - 1;
    FirstOnesAgree(m, letters, start, words, others, |words|);
    assert words[..|words|][i] == others[..|words|][i];
    EarlierIsStrict(others[k]);
    assert i < k ==> EarlierAt(others, i, k);
  }

  lemma SameWin(m: Automaton, letters: seq<nat>, start: Node, goal: Goal, w: seq<nat>, v: seq<nat>, word: seq<nat>,
                other: seq<nat>)
    requires AreLetters(m, letters) && Wins(m, letters, start, goal, w, word) && Wins(m, letters, start, goal, v, other)
    ensures w == v && word == other
  {
    var p :| WinsBy(m, letters, start, goal, w, p, word);
    var q :| WinsBy(m, letters, start, goal, v, q, other);
    FirstIsUnique(m, letters, start, goal, w + [p], v + [q]);
    assert w == (w + [p])[..|w + [p]| - 1] == v;
  }

  lemma SamePlans(m: Automaton, letters: seq<nat>, start: Node, goal: Goal, word: seq<nat>, other: seq<nat>,
                  words: seq<seq<nat>>, others: seq<seq<nat>>)
    requires AreLetters(m, letters) && words != [] && others != []
    requires FirstOnes(m, letters, start, words) && FirstOnes(m, letters, start, others)
    requires Wins(m, letters, start, goal, words[|words| - 1], word)
    requires Wins(m, letters, start, goal, others[|others| - 1], other)
    ensures word == other && |words| == |others|
  {
    SameWin(m, letters, start, goal, words[|words| - 1], others[|others| - 1], word, other);
    if |words| <= |others| {
      SameExpanded(m, letters, start, words, others);
    } else {
      SameExpanded(m, letters, start, others, words);
    }
  }

  lemma WinIsNotAbsent(m: Automaton, letters: seq<nat>, start: Node, goal: Goal, w: seq<nat>, word: seq<nat>)
    requires AreLetters(m, letters) && Wins(m, letters, start, goal, w, word)
    ensures !NoWord(m, letters, start, goal)
  {
    var q :| WinsBy(m, letters, start, goal, w, q, word);
  }

  lemma SamePlanFound(m: Automaton, letters: seq<nat>, start: Node, goal: Goal, left: nat, r: Report, s: Report,
                      words: seq<seq<nat>>, others: seq<seq<nat>>)
    requires AreLetters(m, letters) && r.outcome.Plan? && s.outcome.Plan?
    requires Tally(m, letters, start, goal, left, r, words) && Tally(m, letters, start, goal, left, s, others)
    ensures r == s
  {
    TallyOfPlan(m, letters, start, goal, left, r, words);
    TallyOfPlan(m, letters, start, goal, left, s, others);
    SamePlans(m, letters, start, goal, r.word, s.word, words, others);
  }

  /** No search gives up before a plan that another with the same budget finds. */
  lemma PlanIsNotMissed(m: Automaton, letters: seq<nat>, start: Node, goal: Goal, left: nat, r: Report, s: Report,
                        words: seq<seq<nat>>, others: seq<seq<nat>>)
    requires AreLetters(m, letters) && r.outcome.Plan?
    requires Tally(m, letters, start, goal, left, r, words) && Tally(m, letters, start, goal, left, s, others)
    ensures !s.outcome.OutOfBudget?
  {
    TallyOfPlan(m, letters, start, goal, left, r, words);
    if s.outcome.OutOfBudget? {
      TallyOfGivingUp(m, letters, start, goal, left, s, others);
      PlanIsMet(m, letters, start, goal, words, others, r.word);
    }
  }

  /** No search proves the absence of a plan that another finds. */
  lemma PlanIsNotAbsent(m: Automaton, letters: seq<nat>, start: Node, goal: Goal, left: nat, r: Report, s: Report,
                        words: seq<seq<nat>>, others: seq<seq<nat>>)
    requires AreLetters(m, letters) && r.outcome.Plan?
    requires Tally(m, letters, start, goal, left, r, words) && Tally(m, letters, start, goal, left, s, others)
    ensures !s.outcome.NoPlan?
  {
    TallyOfPlan(m, letters, start, goal, left, r, words);
    if s.outcome.NoPlan? {
      TallyOfAbsence(m, letters, start, goal, left, s, others);
      WinIsNotAbsent(m, letters, start, goal, words[|words| - 1], r.word);
    }
  }

  /** If one search finds a plan, another with the same budget finds the same. */
  lemma SamePlan(m: Automaton, letters: seq<nat>, start: Node, goal: Goal, left: nat, r: Report, s: Report,
                 words: seq<seq<nat>>, others: seq<seq<nat>>)
    requires AreLetters(m, letters) && r.outcome.Plan?
    requires Tally(m, letters, start, goal, left, r, words) && Tally(m, letters, start, goal, left, s, others)
    ensures r == s
  {
    PlanIsNotMissed(m, letters, start, goal, left, r, s, words, others);
    PlanIsNotAbsent(m, letters, start, goal, left, r, s, words, others);
    NeverSatisfied(m, letters, start, goal, left, s, others);
    SamePlanFound(m, letters, start, goal, left, r, s, words, others);
  }

  /** If one search proves that there is no plan, another does so too. */
  lemma SameAbsence(m: Automaton, letters: seq<nat>, start: Node, goal: Goal, left: nat, r: Report, s: Report,
                    words: seq<seq<nat>>, others: seq<seq<nat>>)
    requires AreLetters(m, letters) && r.outcome.NoPlan? && !s.outcome.Plan?
    requires Tally(m, letters, start, goal, left, r, words) && Tally(m, letters, start, goal, left, s, others)
    ensures r == s
  {
    TallyOfAbsence(m, letters, start, goal, left, r, words);
    match s.outcome
    case NoPlan =>
      TallyOfAbsence(m, letters, start, goal, left, s, others);
      AllIsMost(m, letters, start, words, others);
      AllIsMost(m, letters, start, others, words);
    case OutOfBudget =>
      TallyOfGivingUp(m, letters, start, goal, left, s, others);
      AllIsMost(m, letters, start, words, others);
    case AlreadySatisfied => NeverSatisfied(m, letters, start, goal, left, s, others);
  }

  lemma TalliesAgreeOn(m: Automaton, letters: seq<nat>, start: Node, goal: Goal, left: nat, r: Report, s: Report,
                       words: seq<seq<nat>>, others: seq<seq<nat>>)
    requires AreLetters(m, letters)
    requires Tally(m, letters, start, goal, left, r, words) && Tally(m, letters, start, goal, left, s, others)
    ensures r == s
  {
    if r.outcome.Plan? {
      SamePlan(m, letters, start, goal, left, r, s, words, others);
    } else if s.outcome.Plan? {
      SamePlan(m, letters, start, goal, left, s, r, others, words);
    } else if r.outcome.NoPlan? {
      SameAbsence(m, letters, start, goal, left, r, s, words, others);
    } else if s.outcome.NoPlan? {
      SameAbsence(m, letters, start, goal, left, s, r, others, words);
    } else {
      NeverSatisfied(m, letters, start, goal, left, r, words);
      NeverSatisfied(m, letters, start, goal, left, s, others);
      TallyOfGivingUp(m, letters, start, goal, left, r, words);
      TallyOfGivingUp(m, letters, start, goal, left, s, others);
    }
  }

  /** A search takes no choice of its own: outcome, word and number of expansions are
      determined by the automaton, the letters, the goal and the budget. */
  lemma TalliesAgree(m: Automaton, letters: seq<nat>, start: Node, goal: Goal, left: nat, r: Report, s: Report)
    requires AreLetters(m, letters)
    requires Tallied(m, letters, start, goal, left, r) && Tallied(m, letters, start, goal, left, s)
    ensures r == s
  {
    var words :| Tally(m, letters, start, goal, left, r, words);
    var others :| Tally(m, letters, start, goal, left, s, others);
    TalliesAgreeOn(m, letters, start, goal, left, r, s, words, others);
  }

  /** Giving up, in terms of what was looked at: as many different nodes as the budget
      allows, the start among them, none at the goal and none one letter before it. */
  lemma GivenUpMeans(m: Automaton, letters: seq<nat>, start: Node, goal: Goal, left: nat, report: Report)
    returns (words: seq<seq<nat>>)
    requires AreLetters(m, letters) && Tallied(m, letters, start, goal, left, report) && report.outcome.OutOfBudget?
    ensures |words| == left && (left > 0 ==> words[0] == [])
    ensures forall i | 0 <= i < left :: IsPath(letters, words[i])
    ensures forall i, j {:trigger words[i], words[j]} | 0 <= i < j < left ::
              After(m, letters, start, words[i]) != After(m, letters, start, words[j])
    ensures forall i | 0 <= i < left :: !Done(m, goal, After(m, letters, start, words[i]))
    ensures forall i, q {:trigger words[i], letters[q]} | 0 <= i < left && 0 <= q < |letters| ::
              !Done(m, goal, Step(m, After(m, letters, start, words[i]), letters[q]))
  {
    var all :| Tally(m, letters, start, goal, left, report, all);
    TallyOfGivingUp(m, letters, start, goal, left, report, all);
    words := all[..left];
    if left > 0 {
      FirstIsEmpty(m, letters, start, all);
    }
    forall i | 0 <= i < left ensures IsPath(letters, words[i]) && !Done(m, goal, After(m, letters, start, words[i])) {
      assert IsFirstTo(m, letters, start, all[i]) && EarlierAt(all, i, left);
      PrefixIsEarlier(all[i], 0, all[left], 0);
    }
    forall i, j | 0 <= i < j < left
      ensures After(m, letters, start, words[i]) != After(m, letters, start, words[j])
    {
      FirstOnesDiffer(m, letters, start, all, i, j);
    }
    forall i, q | 0 <= i < left && 0 <= q < |letters|
      ensures !Done(m, goal, Step(m, After(m, letters, start, words[i]), letters[q]))
    {
      var u := words[i] + [q];
      assert EarlierAt(all, i, left);
      EarlierAppend(words[i], all[left], q, 0);
      assert u[..|u| - 1] == words[i];
    }
  }

  lemma ShortPaths(u: seq<nat>, q: nat)
    requires Earlier(u, [q])
    ensures u == [] || (|u| == 1 && u == [u[0]] && u[..0] == [] && u[0] < q)
  {
  }

  /** The first letter that leads from the start to the goal is the first path to it. */
  lemma LetterIsFirst(m: Automaton, letters: seq<nat>, start: Node, goal: Goal, q: nat)
    requires AreLetters(m, letters) && q < |letters| && !Done(m, goal, start)
    requires Done(m, goal, Step(m, start, letters[q]))
    requires forall p | 0 <= p < q :: !Done(m, goal, Step(m, start, letters[p]))
    ensures WinsBy(m, letters, start, goal, [], q, [letters[q]])
  {
    assert [q][..0] == [] && [] + [q] == [q] && Spell(letters, [q]) == [letters[q]];
    forall u | IsPath(letters, u) && Earlier(u, [q]) ensures !Done(m, goal, After(m, letters, start, u)) {
      ShortPaths(u, q);
    }
  }

  lemma LetterIsTallied(m: Automaton, letters: seq<nat>, start: Node, goal: Goal, left: nat, q: nat)
    requires AreLetters(m, letters) && left > 0 && q < |letters|
    requires WinsBy(m, letters, start, goal, [], q, [letters[q]])
    ensures Tallied(m, letters, start, goal, left, Report(Plan, [letters[q]], 1))
  {
    var words: seq<seq<nat>> := [[]];
    EmptyIsFirst(m, letters, start, words);
    assert words[0] == [] && Wins(m, letters, start, goal, words[0], [letters[q]]);
    TallyIs(m, letters, start, goal, left, Report(Plan, [letters[q]], 1), words);
    assert Tally(m, letters, start, goal, left, Report(Plan, [letters[q]], 1), words);
  }

  /** A goal one letter away is found with the first expansion. */
  lemma {:induction false} OneLetterSuffices(m: Automaton, letters: seq<nat>, start: Node, goal: Goal, left: nat,
                                             report: Report, q: nat)
    requires AreLetters(m, letters) && Tallied(m, letters, start, goal, left, report) && left > 0
    requires !Done(m, goal, start) && q < |letters| && Done(m, goal, Step(m, start, letters[q]))
    ensures report.outcome.Plan? && report.used == 1 && |report.word| == 1
    decreases q
  {
    if p :| 0 <= p < q && Done(m, goal, Step(m, start, letters[p])) {
      OneLetterSuffices(m, letters, start, goal, left, report, p);
    } else {
      LetterIsFirst(m, letters, start, goal, q);
      LetterIsTallied(m, letters, start, goal, left, q);
      TalliesAgree(m, letters, start, goal, left, report, Report(Plan, [letters[q]], 1));
    }
  }

  // ---------- What the loops report ----------

  lemma PlanAccounts(m: Automaton, letters: seq<nat>, start: Node, goal: Goal, words: seq<seq<nat>>, head: nat,
                     left: nat, word: seq<nat>)
    requires AreLetters(m, letters) && head < |words| && head < left && FirstOnes(m, letters, start, words[..head + 1])
    requires Wins(m, letters, start, goal, words[head], word)
    ensures Tallied(m, letters, start, goal, left, Report(Plan, word, head + 1))
  {
    var few := words[..head + 1];
    assert few[head] == words[head];
    TallyIs(m, letters, start, goal, left, Report(Plan, word, head + 1), few);
    assert Tally(m, letters, start, goal, left, Report(Plan, word, head + 1), few);
  }

  lemma HeadWins(m: Automaton, letters: seq<nat>, start: Node, goal: Goal, v: View)
    requires Searching(m, letters, start, goal, v) && v.head < |v.visits| && v.letter < |letters|
    requires Done(m, goal, Step(m, v.visits[v.head].node, letters[v.letter]))
    ensures Wins(m, letters, start, goal, v.words[v.head], WordTo(v.visits, v.head) + [letters[v.letter]])
  {
    FirstIsSpelled(m, letters, start, goal, v);
    assert WinsBy(m, letters, start, goal, v.words[v.head], v.letter, WordTo(v.visits, v.head) + [letters[v.letter]]);
  }

  lemma PlanTallied(m: Automaton, letters: seq<nat>, start: Node, goal: Goal, v: View, left: nat, word: seq<nat>)
    requires Searching(m, letters, start, goal, v) && v.head < |v.visits| && v.letter < |letters| && v.head < left
    requires Done(m, goal, Step(m, v.visits[v.head].node, letters[v.letter]))
    requires word == WordTo(v.visits, v.head) + [letters[v.letter]]
    ensures Tallied(m, letters, start, goal, left, Report(Plan, word, v.head + 1))
  {
    HeadWins(m, letters, start, goal, v);
    ExpandedAreFirst(m, letters, start, goal, v);
    PlanAccounts(m, letters, start, goal, v.words, v.head, left, word);
  }

  /** The paths of the entries expanded, the one at hand among them. */
  lemma ExpandedAreFirst(m: Automaton, letters: seq<nat>, start: Node, goal: Goal, v: View)
    requires Searching(m, letters, start, goal, v) && v.head < |v.visits|
    ensures FirstOnes(m, letters, start, v.words[..v.head + 1])
  {
    QueueIsFirstOnes(m, letters, start, goal, v);
    FirstOnesPrefix(m, letters, start, v.words, v.head + 1);
  }

  lemma GivenUpTallied(m: Automaton, letters: seq<nat>, start: Node, goal: Goal, v: View)
    requires Searching(m, letters, start, goal, v) && v.head < |v.visits| && v.letter == 0
    ensures Tallied(m, letters, start, goal, v.head, Report(OutOfBudget, [], v.head))
  {
    var words := v.words[..v.head + 1];
    ExpandedAreFirst(m, letters, start, goal, v);
    forall u | IsPath(letters, u) && Earlier(u, words[v.head] + [0])
      ensures !Done(m, goal, After(m, letters, start, u))
    {
      NoneMetSoFar(m, letters, start, goal, v, u);
    }
    TallyIs(m, letters, start, goal, v.head, Report(OutOfBudget, [], v.head), words);
    assert Tally(m, letters, start, goal, v.head, Report(OutOfBudget, [], v.head), words);
  }

  lemma AbsenceTallied(m: Automaton, letters: seq<nat>, start: Node, goal: Goal, v: View, left: nat)
    requires Searching(m, letters, start, goal, v) && v.head == |v.visits| <= left
    ensures Tallied(m, letters, start, goal, left, Report(NoPlan, [], v.head))
  {
    QueueIsFirstOnes(m, letters, start, goal, v);
    forall w | IsPath(letters, w) ensures !Done(m, goal, After(m, letters, start, w)) {
      NoneMetSoFar(m, letters, start, goal, v, w);
    }
    forall u | IsFirstTo(m, letters, start, u) ensures ListedBefore(v.words, |v.words|, u) {
      var j := EarlierIsMet(m, letters, start, goal, v, u);
      FirstIsListed(m, letters, start, goal, v, u, j);
    }
    TallyIs(m, letters, start, goal, left, Report(NoPlan, [], v.head), v.words);
    assert Tally(m, letters, start, goal, left, Report(NoPlan, [], v.head), v.words);
  }

  // ---------- How many supports there are ----------

  ghost predicate AllSupports(m: Automaton, visits: seq<Visit>) {
    forall k {:trigger visits[k]} | 0 <= k < |visits| :: visits[k].node.Support? && IsSupport(m, visits[k].node.states)
  }

  /** Different supports: fewer than the sets of states, because none is empty. */
  lemma FewSupports(m: Automaton, visits: seq<Visit>)
    requires m.Valid() && AllSupports(m, visits) && AllDiffer(visits)
    ensures |visits| < Pow2(m.states)
  {
    var l := seq(|visits|, k requires 0 <= k < |visits| => visits[k].node.states);
    forall i, j | 0 <= i < j < |l| ensures Other(l, i, j) {
      assert visits[i].node != visits[j].node;
    }
    forall i | 0 <= i < |l| ensures l[i] != {} && l[i] <= Upto(m.states) {
      assert visits[i].node.states == l[i];
    }
    UptoSize(m.states);
    FewSets(l, Upto(m.states));
  }

  // ---------- Synchronization ----------

  ghost function WordTo(visits: seq<Visit>, k: nat): seq<nat>
    decreases k
  {
    if k < |visits| && visits[k].Reached? && visits[k].parent < k
    then WordTo(visits, visits[k].parent) + [visits[k].action]
    else []
  }

  lemma {:induction false} WordToIsSpelled(m: Automaton, letters: seq<nat>, start: Node, goal: Goal,
                                           visits: seq<Visit>, words: seq<seq<nat>>, head: nat, k: nat)
    requires AreLetters(m, letters) && |visits| == |words| && Tree(m, letters, start, goal, visits, words, head)
    requires k < |visits| && IsPath(letters, words[k])
    ensures WordTo(visits, k) == Spell(letters, words[k])
    decreases k
  {
    assert Linked(m, letters, start, visits, words, head, k);
    if visits[k].Reached? {
      var parent, w := visits[k].parent, words[k];
      WordLeadsToNode(m, letters, start, goal, visits, words, head, parent);
      WordToIsSpelled(m, letters, start, goal, visits, words, head, parent);
      SpellSplit(letters, words[parent], w[|w| - 1]);
    }
  }

  /** The word is the first path to the goal. */
  ghost predicate Won(m: Automaton, letters: seq<nat>, start: Node, goal: Goal, word: seq<nat>)
    requires AreLetters(m, letters)
  {
    exists w {:trigger Spells(letters, w, word)} :: Spells(letters, w, word) && IsFirst(m, letters, start, goal, w)
  }

  /** The path about to be tried, spelled out, is the first one to the goal. */
  lemma FirstIsSpelled(m: Automaton, letters: seq<nat>, start: Node, goal: Goal, v: View)
    requires Searching(m, letters, start, goal, v) && v.head < |v.visits| && v.letter < |letters|
    requires Done(m, goal, Step(m, v.visits[v.head].node, letters[v.letter]))
    ensures var w := v.words[v.head] + [v.letter];
            && Spells(letters, w, WordTo(v.visits, v.head) + [letters[v.letter]])
            && IsFirst(m, letters, start, goal, w)
  {
    FoundIsFirst(m, letters, start, goal, v);
    WordLeadsToNode(m, letters, start, goal, v.visits, v.words, v.head, v.head);
    SpellSplit(letters, v.words[v.head], v.letter);
    WordToIsSpelled(m, letters, start, goal, v.visits, v.words, v.head, v.head);
  }

  lemma WinningWord(m: Automaton, letters: seq<nat>, start: Node, goal: Goal, v: View)
    requires Searching(m, letters, start, goal, v) && v.head < |v.visits| && v.letter < |letters|
    requires Done(m, goal, Step(m, v.visits[v.head].node, letters[v.letter]))
    ensures Won(m, letters, start, goal, WordTo(v.visits, v.head) + [letters[v.letter]])
  {
    FirstIsSpelled(m, letters, start, goal, v);
  }

  /** The letter at hand wins: spell the path. */
  method Win(m: Automaton, letters: seq<nat>, visits: seq<Visit>, parent: nat, letter: nat,
             ghost start: Node, ghost goal: Goal, ghost v: View)
    returns (word: seq<nat>)
    requires Searching(m, letters, start, goal, v) && v.visits == visits && v.head == parent < |visits|
    requires v.letter == letter < |letters| && Done(m, goal, Step(m, visits[parent].node, letters[letter]))
    ensures Won(m, letters, start, goal, word)
    ensures word == WordTo(visits, parent) + [letters[letter]]
  {
    WinningWord(m, letters, start, goal, v);
    word := Reconstruct(m, letters, visits, parent, [letters[letter]], start, goal, v.words, parent);
    WordToIsSpelled(m, letters, start, goal, visits, v.words, parent, parent);
  }

  /** A letter that does not win: its image is queued if it is new. */
  method TryLetter(m: Automaton, letters: seq<nat>, visits: seq<Visit>, parent: nat, letter: nat, next: set<nat>,
                   ghost start: Node, ghost goal: Goal, ghost v: View)
    returns (more: seq<Visit>, ghost u: View)
    requires Searching(m, letters, start, goal, v) && v.visits == visits && v.head == parent < |visits|
    requires v.letter == letter < |letters| && AllSupports(m, visits)
    requires Support(next) == Step(m, visits[parent].node, letters[letter]) && IsSupport(m, next)
    requires !Done(m, goal, Support(next))
    ensures Searching(m, letters, start, goal, u) && u.visits == more && u.head == parent < |more|
    ensures u.letter == letter + 1 && AllSupports(m, more)
    ensures more == if Met(m, visits, Support(next)) then visits
            else visits + [Reached(Support(next), parent, letters[letter])]
  {
    var found, index := Find(m, visits, Support(next));
    if found {
      LetterKnown(m, letters, start, goal, v, index);
      return visits, v.(letter := letter + 1);
    }
    LetterNew(m, letters, start, goal, v, Support(next));
    more := visits + [Reached(Support(next), parent, letters[letter])];
    u := View(more, v.words + [v.words[parent] + [letter]], parent, letter + 1);
  }

  /** One letter: a singleton image wins before it is looked up. */
  method TrySubset(m: Automaton, letters: seq<nat>, visits: seq<Visit>, parent: nat, letter: nat,
                   ghost start: Node, ghost v: View, ghost left: nat)
    returns (won: bool, word: seq<nat>, more: seq<Visit>, ghost u: View)
    requires Searching(m, letters, start, Single, v) && v.visits == visits && v.head == parent < |visits|
    requires v.letter == letter < |letters| && AllSupports(m, visits) && parent < left
    ensures won ==> Tallied(m, letters, start, Single, left, Report(Plan, word, parent + 1))
    ensures !won ==> Searching(m, letters, start, Single, u) && u.visits == more && u.head == parent < |more|
    ensures !won ==> u.letter == letter + 1 && AllSupports(m, more)
  {
    won, more, u, word := false, visits, v, [];
    assert IsSupport(m, visits[parent].node.states);
    var next := ApplyAction(m, visits[parent].node.states, letters[letter]);
    if |next| == 1 {
      word := Win(m, letters, visits, parent, letter, start, Single, v);
      PlanTallied(m, letters, start, Single, v, left, word);
      won := true;
    } else {
      more, u := TryLetter(m, letters, visits, parent, letter, next, start, Single, v);
    }
  }

  /** Expand one entry. */
  method ExpandSubset(m: Automaton, letters: seq<nat>, visits: seq<Visit>, parent: nat,
                      ghost start: Node, ghost v: View, ghost left: nat)
    returns (won: bool, word: seq<nat>, more: seq<Visit>, ghost u: View)
    requires Searching(m, letters, start, Single, v) && v.visits == visits && v.head == parent < |visits|
             && v.letter == 0
    requires AllSupports(m, visits) && parent < left
    ensures won ==> Tallied(m, letters, start, Single, left, Report(Plan, word, parent + 1))
    ensures !won ==>
              && Searching(m, letters, start, Single, u) && u.visits == more && u.head == parent + 1 && u.letter == 0
              && AllSupports(m, more)
  {
    more, u := visits, v;
    for letter := 0 to |letters|
      invariant Searching(m, letters, start, Single, u) && u.visits == more && u.head == parent < |more|
                && u.letter == letter
      invariant AllSupports(m, more)
    {
      won, word, more, u := TrySubset(m, letters, more, parent, letter, start, u, left);
      if won {
        return;
      }
    }
    NextEntry(m, letters, start, Single, u);
    u := u.(head := parent + 1, letter := 0);
    won, word := false, [];
  }

  lemma Exhausted(m: Automaton, letters: seq<nat>, start: Node, goal: Goal, v: View)
    requires Searching(m, letters, start, goal, v) && v.head == |v.visits|
    ensures NoWord(m, letters, start, goal)
  {
    forall w | IsPath(letters, w) ensures !Done(m, goal, After(m, letters, start, w)) {
      ExhaustedProvesAbsence(m, letters, start, goal, v, w);
    }
  }

  /** What is left of a budget. */
  function Left(budget: nat, spent: nat): (left: nat)
    ensures spent <= budget ==> spent + left == budget
    ensures spent >= budget ==> left == 0
  {
    if spent < budget then budget - spent else 0
  }

  /** sg_subset_bfs: a singleton on the last expansion the budget allows still wins. */
  method SubsetBfs(m: Automaton, initial: set<nat>, letters: seq<nat>, budget: nat, spent: nat)
    returns (outcome: Outcome, word: seq<nat>, expansions: nat)
    requires AreLetters(m, letters) && IsSupport(m, initial) && |initial| != 1
    ensures spent <= expansions
    ensures Tallied(m, letters, Support(initial), Single, Left(budget, spent),
                    Report(outcome, word, expansions - spent))
    ensures outcome.OutOfBudget? ==> budget <= expansions && (spent < budget ==> budget < spent + Pow2(m.states))
  {
    expansions, word := spent, [];
    ghost var start := Support(initial);
    SearchStarts(m, letters, start, Single);
    if expansions >= budget {
      GivenUpTallied(m, letters, start, Single, View([Root(start)], [[]], 0, 0));
      return OutOfBudget, [], expansions;
    }
    var visits := [Root(Support(initial))];
    var head := 0;
    ghost var v := View(visits, [[]], 0, 0);
    while head < |visits|
      invariant v.visits == visits && v.head == head && v.letter == 0 && Searching(m, letters, start, Single, v)
      invariant AllSupports(m, visits)
      invariant expansions == spent + head <= budget
      decreases budget - expansions
    {
      if expansions >= budget {
        FewSupports(m, visits);
        GivenUpTallied(m, letters, start, Single, v);
        return OutOfBudget, [], expansions;
      }
      expansions := expansions + 1;
      var won;
      won, word, visits, v := ExpandSubset(m, letters, visits, head, start, v, budget - spent);
      if won {
        return Plan, word, expansions;
      }
      head := head + 1;
    }
    AbsenceTallied(m, letters, start, Single, v, budget - spent);
    outcome, word := NoPlan, [];
  }

  // ---------- Goals ----------

  /** One letter: a new image is looked up before it is compared with the goals. */
  method TryBelief(m: Automaton, letters: seq<nat>, goals: set<nat>, visits: seq<Visit>, parent: nat, letter: nat,
                   ghost start: Node, ghost v: View, ghost left: nat)
    returns (won: bool, word: seq<nat>, more: seq<Visit>, ghost u: View)
    requires Searching(m, letters, start, Within(goals), v) && v.visits == visits && v.head == parent < |visits|
    requires v.letter == letter < |letters| && AllSupports(m, visits) && parent < left
    ensures won ==> Tallied(m, letters, start, Within(goals), left, Report(Plan, word, parent + 1))
    ensures !won ==> Searching(m, letters, start, Within(goals), u) && u.visits == more && u.head == parent < |more|
    ensures !won ==> u.letter == letter + 1 && AllSupports(m, more)
  {
    won, more, u, word := false, visits, v.(letter := letter + 1), [];
    assert IsSupport(m, visits[parent].node.states);
    var next := ApplyAction(m, visits[parent].node.states, letters[letter]);
    var found, index := Find(m, visits, Support(next));
    if found {
      LetterKnown(m, letters, start, Within(goals), v, index);
    } else if next <= goals {
      word := Win(m, letters, visits, parent, letter, start, Within(goals), v);
      PlanTallied(m, letters, start, Within(goals), v, left, word);
      won := true;
    } else {
      LetterNew(m, letters, start, Within(goals), v, Support(next));
      more := visits + [Reached(Support(next), parent, letters[letter])];
      u := View(more, v.words + [v.words[parent] + [letter]], parent, letter + 1);
    }
  }

  /** Expand one entry. */
  method ExpandBelief(m: Automaton, letters: seq<nat>, goals: set<nat>, visits: seq<Visit>, parent: nat,
                      ghost start: Node, ghost v: View, ghost left: nat)
    returns (won: bool, word: seq<nat>, more: seq<Visit>, ghost u: View)
    requires Searching(m, letters, start, Within(goals), v) && v.visits == visits && v.head == parent < |visits|
             && v.letter == 0
    requires AllSupports(m, visits) && parent < left
    ensures won ==> Tallied(m, letters, start, Within(goals), left, Report(Plan, word, parent + 1))
    ensures !won ==>
              && Searching(m, letters, start, Within(goals), u) && u.visits == more && u.head == parent + 1
                  && u.letter == 0
              && AllSupports(m, more)
  {
    more, u := visits, v;
    for letter := 0 to |letters|
      invariant Searching(m, letters, start, Within(goals), u) && u.visits == more && u.head == parent < |more|
                && u.letter == letter
      invariant AllSupports(m, more)
    {
      won, word, more, u := TryBelief(m, letters, goals, more, parent, letter, start, u, left);
      if won {
        return;
      }
    }
    NextEntry(m, letters, start, Within(goals), u);
    u := u.(head := parent + 1, letter := 0);
    won, word := false, [];
  }

  /** The search of sg_plan_goal. */
  method GoalBfs(m: Automaton, initial: set<nat>, goals: set<nat>, letters: seq<nat>, budget: nat)
    returns (outcome: Outcome, word: seq<nat>, expansions: nat)
    requires AreLetters(m, letters) && IsSupport(m, initial) && !(initial <= goals) && budget > 0
    ensures Tallied(m, letters, Support(initial), Within(goals), budget, Report(outcome, word, expansions))
    ensures outcome.OutOfBudget? ==> expansions == budget < Pow2(m.states)
  {
    expansions, word := 0, [];
    var visits := [Root(Support(initial))];
    var head := 0;
    ghost var start, v := Support(initial), View(visits, [[]], 0, 0);
    SearchStarts(m, letters, start, Within(goals));
    while head < |visits|
      invariant v.visits == visits && v.head == head && v.letter == 0 && Searching(m, letters, start, Within(goals), v)
      invariant AllSupports(m, visits)
      invariant expansions == head <= budget
      decreases budget - expansions
    {
      if expansions >= budget {
        FewSupports(m, visits);
        GivenUpTallied(m, letters, start, Within(goals), v);
        return OutOfBudget, [], expansions;
      }
      expansions := expansions + 1;
      var won;
      won, word, visits, v := ExpandBelief(m, letters, goals, visits, head, start, v, budget);
      if won {
        return Plan, word, expansions;
      }
      head := head + 1;
    }
    AbsenceTallied(m, letters, start, Within(goals), v, budget);
    outcome, word := NoPlan, [];
  }

  // ---------- In terms of words ----------

  lemma {:induction false} AfterIsImage(m: Automaton, letters: seq<nat>, s: set<nat>, w: seq<nat>)
    requires AreLetters(m, letters) && IsPath(letters, w)
    ensures IsWord(m, Spell(letters, w))
    ensures After(m, letters, Support(s), w) == Support(ImageOf(m, s, Spell(letters, w)))
    decreases |w|
  {
    if w != [] {
      var u, q := w[..|w| - 1], w[|w| - 1];
      AfterIsImage(m, letters, s, u);
      SpellSplit(letters, u, q);
      assert u + [q] == w;
      ImageOfConcat(m, s, Spell(letters, u), [letters[q]]);
      assert [letters[q]][1..] == [];
    }
  }

  ghost predicate OverLetters(letters: seq<nat>, v: seq<nat>) { forall k | 0 <= k < |v| :: v[k] in letters }

  lemma {:induction false} WordHasPath(letters: seq<nat>, v: seq<nat>) returns (w: seq<nat>)
    requires OverLetters(letters, v)
    ensures IsPath(letters, w) && Spell(letters, w) == v
    decreases |v|
  {
    if v == [] {
      w := [];
    } else {
      var u := WordHasPath(letters, v[..|v| - 1]);
      var q :| 0 <= q < |letters| && letters[q] == v[|v| - 1];
      SpellSplit(letters, u, q);
      w := u + [q];
    }
  }

  /** The word takes the support to the goal, using permitted letters only. */
  ghost predicate Reaches(m: Automaton, letters: seq<nat>, s: set<nat>, goal: Goal, v: seq<nat>)
    requires AreLetters(m, letters)
  {
    OverLetters(letters, v) && IsWord(m, v) && Done(m, goal, Support(ImageOf(m, s, v)))
  }

  /** An answer is about words: a plan is a permitted word to the goal, none shorter
      exists; and "no plan" means there is no permitted word to the goal at all. */
  lemma AnswerIsAboutWords(m: Automaton, letters: seq<nat>, s: set<nat>, goal: Goal, outcome: Outcome, word: seq<nat>)
    requires AreLetters(m, letters) && Answers(m, letters, Support(s), goal, outcome, word)
    ensures outcome.Plan? ==>
              Reaches(m, letters, s, goal, word) && forall v | Reaches(m, letters, s, goal, v) :: |word| <= |v|
    ensures outcome.NoPlan? ==> forall v :: !Reaches(m, letters, s, goal, v)
  {
    if outcome.Plan? {
      var w :| Spells(letters, w, word) && IsFirst(m, letters, Support(s), goal, w);
      AfterIsImage(m, letters, s, w);
      assert forall k | 0 <= k < |word| :: word[k] in letters;
      forall v | Reaches(m, letters, s, goal, v) ensures |word| <= |v| {
        var u := WordHasPath(letters, v);
        AfterIsImage(m, letters, s, u);
        assert !Earlier(u, w);
      }
    }
    if outcome.NoPlan? {
      forall v ensures !Reaches(m, letters, s, goal, v) {
        if Reaches(m, letters, s, goal, v) {
          var u := WordHasPath(letters, v);
          AfterIsImage(m, letters, s, u);
        }
      }
    }
  }

  // ---------- sg_plan_goal ----------

  ghost function IdSet(ids: seq<nat>): (s: set<nat>)
    ensures forall x {:trigger x in s} :: x in s <==> x in ids
  {
    set x | x in ids
  }

  /** sg_bitset_from_ids */
  method FromIds(n: nat, ids: seq<nat>) returns (status: Status, states: set<nat>)
    ensures status == if ids == [] || exists k :: 0 <= k < |ids| && ids[k] >= n then InvalidArgument else Ok
    ensures status.Ok? ==> states == IdSet(ids)
  {
    states := {};
    if |ids| == 0 {
      return InvalidArgument, {};
    }
    for k := 0 to |ids|
      invariant forall l | 0 <= l < k :: ids[l] < n
      invariant states == IdSet(ids[..k])
    {
      if ids[k] >= n {
        return InvalidArgument, {};
      }
      assert ids[..k + 1] == ids[..k] + [ids[k]];
      states := states + {ids[k]};
    }
    assert ids[..|ids|] == ids;
    status := Ok;
  }

  ghost predicate LettersValid(m: Automaton, letters: seq<nat>) {
    letters != [] && forall q | 0 <= q < |letters| :: letters[q] < m.actions
  }

  /** sg_allowed_actions_valid */
  method CheckLetters(m: Automaton, letters: seq<nat>) returns (ok: bool)
    ensures ok == LettersValid(m, letters)
  {
    if |letters| == 0 {
      return false;
    }
    for letter := 0 to |letters|
      invariant forall q | 0 <= q < letter :: letters[q] < m.actions
    {
      if letters[letter] >= m.actions {
        return false;
      }
    }
    ok := true;
  }

  ghost predicate IdsValid(n: nat, ids: seq<nat>) { ids != [] && forall k | 0 <= k < |ids| :: ids[k] < n }

  datatype PlanResult = PlanResult(outcome: Outcome, word: seq<nat>, expansions: nat, finalSupport: set<nat>)

  /** The answer to a goal: nothing to do, or the report of the search, and for a plan
      where it takes the support. */
  ghost predicate GoalAnswer(m: Automaton, initial: set<nat>, goals: set<nat>, letters: seq<nat>, budget: nat,
                             result: PlanResult)
    requires AreLetters(m, letters)
  {
    if initial <= goals then result == PlanResult(AlreadySatisfied, [], 0, initial)
    else
      && Tallied(m, letters, Support(initial), Within(goals), budget,
                 ReportOf(result))
      && result.finalSupport == (if result.outcome.Plan? && IsWord(m, result.word) then ImageOf(m, initial, result.word)
                                 else {})
      && (result.outcome.OutOfBudget? ==> budget < Pow2(m.states))
  }

  /** The answer as a report of the search. */
  ghost function ReportOf(result: PlanResult): Report {
    Report(result.outcome, result.word, result.expansions)
  }

  /** What the answer is worth: a plan is a shortest permitted word into the goals, and
      "no plan" means that there is none. */
  lemma GoalAnswerMeans(m: Automaton, initial: set<nat>, goals: set<nat>, letters: seq<nat>, budget: nat,
                        result: PlanResult)
    requires AreLetters(m, letters) && IsSupport(m, initial) && GoalAnswer(m, initial, goals, letters, budget, result)
    ensures result.expansions <= budget
    ensures result.outcome.Plan? ==>
              && Reaches(m, letters, initial, Within(goals), result.word)
              && result.finalSupport == ImageOf(m, initial, result.word) <= goals
              && forall v | Reaches(m, letters, initial, Within(goals), v) :: |result.word| <= |v|
    ensures result.outcome.NoPlan? ==> forall v :: !Reaches(m, letters, initial, Within(goals), v)
  {
    if !(initial <= goals) {
      TalliedIsAnswered(m, letters, Support(initial), Within(goals), budget,
                        ReportOf(result));
      AnswerIsAboutWords(m, letters, initial, Within(goals), result.outcome, result.word);
    }
  }

  /** The support is reached by a permitted word, is not inside the goals, and no permitted
      letter takes it there. */
  ghost predicate Examined(m: Automaton, letters: seq<nat>, initial: set<nat>, goals: set<nat>, support: set<nat>)
    requires AreLetters(m, letters)
  {
    && (exists v :: OverLetters(letters, v) && IsWord(m, v) && ImageOf(m, initial, v) == support)
    && !(support <= goals)
    && forall a | a in letters :: !(Image(m, support, a) <= goals)
  }

  /** A search for a goal that gives up has looked at as many supports as the budget
      allows, all different, none of them inside the goals or one letter before. */
  lemma GoalGivenUp(m: Automaton, initial: set<nat>, goals: set<nat>, letters: seq<nat>, budget: nat,
                    result: PlanResult)
    returns (supports: seq<set<nat>>)
    requires AreLetters(m, letters) && IsSupport(m, initial) && GoalAnswer(m, initial, goals, letters, budget, result)
    requires result.outcome.OutOfBudget?
    ensures |supports| == budget == result.expansions && (budget > 0 ==> supports[0] == initial)
    ensures forall i, j {:trigger supports[i], supports[j]} | 0 <= i < j < budget :: supports[i] != supports[j]
    ensures forall i {:trigger supports[i]} | 0 <= i < budget :: Examined(m, letters, initial, goals, supports[i])
  {
    TalliedIsAnswered(m, letters, Support(initial), Within(goals), budget, ReportOf(result));
    var words := GivenUpMeans(m, letters, Support(initial), Within(goals), budget, ReportOf(result));
    supports := seq(budget, i requires 0 <= i < budget => ImageOf(m, initial, Spelled(m, letters, words[i])));
    forall i | 0 <= i < budget
      ensures After(m, letters, Support(initial), words[i]) == Support(supports[i])
      ensures Examined(m, letters, initial, goals, supports[i])
    {
      LookedAt(m, letters, initial, goals, words[i], supports[i]);
    }
  }

  lemma LookedAt(m: Automaton, letters: seq<nat>, initial: set<nat>, goals: set<nat>, w: seq<nat>, support: set<nat>)
    requires AreLetters(m, letters) && IsPath(letters, w) && support == ImageOf(m, initial, Spelled(m, letters, w))
    requires !Done(m, Within(goals), After(m, letters, Support(initial), w))
    requires forall q | 0 <= q < |letters| ::
               !Done(m, Within(goals), Step(m, After(m, letters, Support(initial), w), letters[q]))
    ensures After(m, letters, Support(initial), w) == Support(support)
    ensures Examined(m, letters, initial, goals, support)
  {
    AfterIsImage(m, letters, initial, w);
    assert OverLetters(letters, Spelled(m, letters, w));
    forall a | a in letters ensures !(Image(m, support, a) <= goals) {
      var q :| 0 <= q < |letters| && letters[q] == a;
      assert !Done(m, Within(goals), Step(m, After(m, letters, Support(initial), w), letters[q]));
    }
  }

  /** The word of a path; it uses permitted letters only. */
  ghost function Spelled(m: Automaton, letters: seq<nat>, w: seq<nat>): (v: seq<nat>)
    requires AreLetters(m, letters)
    ensures IsWord(m, v) && OverLetters(letters, v)
    ensures IsPath(letters, w) ==> v == Spell(letters, w)
  {
    if IsPath(letters, w) then Spell(letters, w) else []
  }

  /** A letter that leads inside the goals is found with any budget, at the first
      expansion. */
  lemma GoalOneLetterAway(m: Automaton, initial: set<nat>, goals: set<nat>, letters: seq<nat>, budget: nat,
                          result: PlanResult, a: nat)
    requires AreLetters(m, letters) && IsSupport(m, initial) && GoalAnswer(m, initial, goals, letters, budget, result)
    requires !(initial <= goals) && budget > 0 && a in letters && a < m.actions && Image(m, initial, a) <= goals
    ensures result.outcome.Plan? && result.expansions == 1
  {
    var q :| 0 <= q < |letters| && letters[q] == a;
    OneLetterSuffices(m, letters, Support(initial), Within(goals), budget,
                      ReportOf(result), q);
  }

  /** The whole answer is determined by the question. */
  lemma GoalIsDetermined(m: Automaton, initial: set<nat>, goals: set<nat>, letters: seq<nat>, budget: nat,
                         r: PlanResult, s: PlanResult)
    requires AreLetters(m, letters) && GoalAnswer(m, initial, goals, letters, budget, r)
    requires GoalAnswer(m, initial, goals, letters, budget, s)
    ensures r == s
  {
    if !(initial <= goals) {
      TalliesAgree(m, letters, Support(initial), Within(goals), budget, Report(r.outcome, r.word, r.expansions),
                   Report(s.outcome, s.word, s.expansions));
    }
  }

  /** The planning of sg_plan_goal, on sets. */
  method ReachGoals(m: Automaton, initial: set<nat>, goals: set<nat>, letters: seq<nat>, budget: nat)
    returns (result: PlanResult)
    requires AreLetters(m, letters) && IsSupport(m, initial) && budget > 0
    ensures GoalAnswer(m, initial, goals, letters, budget, result)
  {
    if initial <= goals {
      return PlanResult(AlreadySatisfied, [], 0, initial);
    }
    var outcome, word, expansions := GoalBfs(m, initial, goals, letters, budget);
    TalliedIsAnswered(m, letters, Support(initial), Within(goals), budget, Report(outcome, word, expansions));
    AnswerIsAboutWords(m, letters, initial, Within(goals), outcome, word);
    if outcome == Plan {
      var applied, final := ApplyWord(m, initial, word);
      return PlanResult(outcome, word, expansions, final);
    }
    result := PlanResult(outcome, word, expansions, {});
  }

  /** sg_plan_goal */
  method PlanGoal(m: Automaton, initialIds: seq<nat>, goalIds: seq<nat>, letters: seq<nat>, budget: nat)
    returns (status: Status, result: PlanResult)
    requires m.Valid()
    ensures status == if LettersValid(m, letters) && IdsValid(m.states, initialIds) && IdsValid(m.states, goalIds)
            && budget > 0
                      then Ok else InvalidArgument
    ensures status.Ok? ==> GoalAnswer(m, IdSet(initialIds), IdSet(goalIds), letters, budget, result)
  {
    result := PlanResult(NoPlan, [], 0, {});
    var permitted := CheckLetters(m, letters);
    if !permitted || |initialIds| == 0 || |goalIds| == 0 || budget == 0 {
      return InvalidArgument, result;
    }
    var initial, goals;
    status, initial := FromIds(m.states, initialIds);
    if status != Ok {
      return;
    }
    status, goals := FromIds(m.states, goalIds);
    if status != Ok {
      return;
    }
    assert initialIds[0] in initial;
    result := ReachGoals(m, initial, goals, letters, budget);
  }
}
