/** sg_partition_bfs: the search over support partitions. */
module PartitionSearch {
  import opened Records
  import opened PairGraph
  import opened Pairs
  import opened Supports
  import opened WordSearch
  import opened SupportSearch
  import opened Counting
  import opened RepairBounds
  import opened Partitions
  import PairSearch

  /** sg_search_node */
  datatype Entry = First(partition: Partition) | Next(partition: Partition, parent: nat, action: nat)

  /** An entry holds its node's branch supports, sorted. */
  ghost predicate Mirrored(m: Automaton, nodes: seq<Entry>, visits: seq<Visit>, k: nat)
    requires k < |nodes| && k < |visits|
  {
    && Sorted(m.states, nodes[k].partition) && visits[k].node == Branches(Members(nodes[k].partition))
    && (nodes[k].First? <==> visits[k].Root?)
    && (nodes[k].Next? ==> nodes[k].parent == visits[k].parent < k && nodes[k].action == visits[k].action)
  }

  ghost predicate Mirrors(m: Automaton, nodes: seq<Entry>, visits: seq<Visit>) {
    |nodes| == |visits| && forall k {:trigger Mirrored(m, nodes, visits, k)} | 0 <= k < |nodes| ::
        Mirrored(m, nodes, visits, k)
  }

  lemma MirrorsAppend(m: Automaton, nodes: seq<Entry>, visits: seq<Visit>, n: Entry, e: Visit)
    requires Mirrors(m, nodes, visits) && n.Next? && e.Reached? && n.parent == e.parent < |visits|
             && n.action == e.action
    requires Sorted(m.states, n.partition) && e.node == Branches(Members(n.partition))
    ensures Mirrors(m, nodes + [n], visits + [e])
  {
    forall k | 0 <= k < |nodes| + 1 ensures Mirrored(m, nodes + [n], visits + [e], k) {
      if k < |nodes| {
        assert Mirrored(m, nodes, visits, k);
      }
    }
  }

  /** sg_search_find.  Partitions are sorted, so comparing them position by position
      compares them as sets. */
  method FindPartition(m: Automaton, nodes: seq<Entry>, p: Partition, ghost visits: seq<Visit>)
    returns (found: bool, index: nat)
    requires Mirrors(m, nodes, visits) && Sorted(m.states, p)
    ensures found == Met(m, visits, Branches(Members(p)))
    ensures found ==> index < |visits| && visits[index].node == Branches(Members(p))
  {
    for k := 0 to |nodes|
      invariant forall j {:trigger visits[j]} | 0 <= j < k :: visits[j].node != Branches(Members(p))
    {
      assert Mirrored(m, nodes, visits, k);
      SortedIsCanonical(m.states, nodes[k].partition, p);
      var same := SamePartition(nodes[k].partition, p);
      if same {
        return true, k;
      }
    }
    found, index := false, 0;
  }

  /** sg_search_reconstruct */
  method SpellFrom(m: Automaton, nodes: seq<Entry>, goal: nat, ghost visits: seq<Visit>) returns (word: seq<nat>)
    requires Mirrors(m, nodes, visits) && goal < |nodes|
    ensures word == WordTo(visits, goal)
  {
    var acc: seq<nat>, cursor: nat := [], goal;
    while nodes[cursor].Next?
      invariant cursor < |nodes| && WordTo(visits, goal) == WordTo(visits, cursor) + Backwards(acc)
      decreases cursor
    {
      assert Mirrored(m, nodes, visits, cursor);
      BackwardsAppend(acc, nodes[cursor].action);
      acc := acc + [nodes[cursor].action];
      cursor := nodes[cursor].parent;
    }
    assert Mirrored(m, nodes, visits, cursor);
    word := Reverse(acc);
  }

  // ---------- What the loops keep ----------

  ghost predicate Runs(m: Automaton, letters: seq<nat>, start: Node, bound: nat, v: View, nodes: seq<Entry>) {
    Searching(m, letters, start, AtMost(bound), v) && Mirrors(m, nodes, v.visits)
  }

  /** The same, some steps away, so that only RunningIs unfolds it. */
  ghost predicate Running(m: Automaton, letters: seq<nat>, start: Node, bound: nat, v: View, nodes: seq<Entry>) {
    RunningIn(m, letters, start, bound, v, nodes, DEPTH + 1)
  }

  ghost predicate RunningIn(m: Automaton, letters: seq<nat>, start: Node, bound: nat, v: View, nodes: seq<Entry>,
                            steps: nat)
    decreases steps
  {
    if steps > 0 then RunningIn(m, letters, start, bound, v, nodes, steps - 1)
        else Runs(m, letters, start, bound, v, nodes)
  }

  lemma RunningIs(m: Automaton, letters: seq<nat>, start: Node, bound: nat, v: View, nodes: seq<Entry>)
    ensures Running(m, letters, start, bound, v, nodes) <==> Runs(m, letters, start, bound, v, nodes)
  {
    var k: nat := DEPTH + 1;
    while k > 0
      invariant RunningIn(m, letters, start, bound, v, nodes, DEPTH + 1)
                == RunningIn(m, letters, start, bound, v, nodes, k)
    {
      k := k - 1;
    }
  }

  lemma SearchBegins(m: Automaton, letters: seq<nat>, s: set<nat>, bound: nat)
    requires AreLetters(m, letters) && IsSupport(m, s) && |s| > bound
    ensures Running(m, letters, Branches({s}), bound, View([Root(Branches({s}))], [[]], 0, 0), [First([s])])
  {
    var visits, nodes := [Root(Branches({s}))], [First([s])];
    RunningIs(m, letters, Branches({s}), bound, View(visits, [[]], 0, 0), nodes);
    SearchStarts(m, letters, Branches({s}), AtMost(bound));
    assert Members([s]) == {s};
    assert Mirrored(m, nodes, visits, 0);
  }

  /** The partition an action leads to is the next node of the search. */
  lemma NextNode(m: Automaton, letters: seq<nat>, start: Node, bound: nat, v: View, nodes: seq<Entry>, p: Partition)
    requires Running(m, letters, start, bound, v, nodes) && v.head < |nodes| && v.letter < |letters|
    requires AreLetters(m, letters) && Members(p) == Refined(m, Members(nodes[v.head].partition), letters[v.letter])
    ensures |v.visits| == |nodes| && Step(m, v.visits[v.head].node, letters[v.letter]) == Branches(Members(p))
  {
    RunningIs(m, letters, start, bound, v, nodes);
    assert Mirrored(m, nodes, v.visits, v.head);
  }

  lemma KeepKnown(m: Automaton, letters: seq<nat>, start: Node, bound: nat, v: View, nodes: seq<Entry>, index: nat)
    requires Running(m, letters, start, bound, v, nodes) && v.head < |nodes| == |v.visits| && v.letter < |letters|
    requires AreLetters(m, letters)
    requires index < |nodes| && v.visits[index].node == Step(m, v.visits[v.head].node, letters[v.letter])
    ensures Running(m, letters, start, bound, v.(letter := v.letter + 1), nodes)
  {
    RunningIs(m, letters, start, bound, v, nodes);
    RunningIs(m, letters, start, bound, v.(letter := v.letter + 1), nodes);
    LetterKnown(m, letters, start, AtMost(bound), v, index);
  }

  ghost function Entered(v: View, p: Partition, action: nat): View {
    View(v.visits + [Reached(Branches(Members(p)), v.head, action)],
         v.words + [(if v.head < |v.words| then v.words[v.head] else []) + [v.letter]], v.head, v.letter + 1)
  }

  lemma KeepNew(m: Automaton, letters: seq<nat>, start: Node, bound: nat, v: View, nodes: seq<Entry>, p: Partition)
    requires Running(m, letters, start, bound, v, nodes) && v.head < |nodes| == |v.visits| && v.letter < |letters|
    requires AreLetters(m, letters) && Sorted(m.states, p) && !Met(m, v.visits, Branches(Members(p)))
    requires Branches(Members(p)) == Step(m, v.visits[v.head].node, letters[v.letter])
             && !Done(m, AtMost(bound), Branches(Members(p)))
    ensures Running(m, letters, start, bound, Entered(v, p, letters[v.letter]),
            nodes + [Next(p, v.head, letters[v.letter])])
  {
    var node := Branches(Members(p));
    RunningIs(m, letters, start, bound, v, nodes);
    LetterNew(m, letters, start, AtMost(bound), v, node);
    MirrorsAppend(m, nodes, v.visits, Next(p, v.head, letters[v.letter]), Reached(node, v.head, letters[v.letter]));
    RunningIs(m, letters, start, bound, Entered(v, p, letters[v.letter]), nodes + [Next(p, v.head, letters[v.letter])]);
  }

  /** A new entry that meets the goal: its word is the first. */
  lemma KeepWon(m: Automaton, letters: seq<nat>, start: Node, bound: nat, v: View, nodes: seq<Entry>, p: Partition,
                left: nat)
    requires Running(m, letters, start, bound, v, nodes) && v.head < |nodes| == |v.visits| && v.letter < |letters|
    requires v.head < left
    requires AreLetters(m, letters) && Sorted(m.states, p)
    requires Branches(Members(p)) == Step(m, v.visits[v.head].node, letters[v.letter])
             && Done(m, AtMost(bound), Branches(Members(p)))
    ensures var visits := v.visits + [Reached(Branches(Members(p)), v.head, letters[v.letter])];
            && Mirrors(m, nodes + [Next(p, v.head, letters[v.letter])], visits)
            && Tallied(m, letters, start, AtMost(bound), left, Report(Plan, WordTo(visits, |nodes|), v.head + 1))
  {
    var e := Reached(Branches(Members(p)), v.head, letters[v.letter]);
    RunningIs(m, letters, start, bound, v, nodes);
    MirrorsAppend(m, nodes, v.visits, Next(p, v.head, letters[v.letter]), e);
    PlanTallied(m, letters, start, AtMost(bound), v, left, WordTo(v.visits, v.head) + [letters[v.letter]]);
    forall k | 0 <= k < |v.visits| && v.visits[k].Reached? ensures v.visits[k].parent < k {
      assert Mirrored(m, nodes, v.visits, k);
    }
    PairSearch.WordToLast(v.visits, e);
  }

  /** All letters tried. */
  lemma KeepHead(m: Automaton, letters: seq<nat>, start: Node, bound: nat, v: View, nodes: seq<Entry>)
    requires Running(m, letters, start, bound, v, nodes) && v.head < |nodes| && v.letter == |letters|
    ensures Running(m, letters, start, bound, v.(head := v.head + 1, letter := 0), nodes)
  {
    RunningIs(m, letters, start, bound, v, nodes);
    RunningIs(m, letters, start, bound, v.(head := v.head + 1, letter := 0), nodes);
    NextEntry(m, letters, start, AtMost(bound), v);
  }

  lemma NothingLeft(m: Automaton, letters: seq<nat>, start: Node, bound: nat, v: View, nodes: seq<Entry>, left: nat)
    requires AreLetters(m, letters) && Running(m, letters, start, bound, v, nodes) && v.head == |nodes| <= left
    ensures Tallied(m, letters, start, AtMost(bound), left, Report(NoPlan, [], v.head))
  {
    RunningIs(m, letters, start, bound, v, nodes);
    AbsenceTallied(m, letters, start, AtMost(bound), v, left);
  }

  lemma GivesUp(m: Automaton, letters: seq<nat>, start: Node, bound: nat, v: View, nodes: seq<Entry>)
    requires AreLetters(m, letters) && Running(m, letters, start, bound, v, nodes)
    requires v.head < |nodes| && v.letter == 0
    ensures Tallied(m, letters, start, AtMost(bound), v.head, Report(OutOfBudget, [], v.head))
  {
    RunningIs(m, letters, start, bound, v, nodes);
    GivenUpTallied(m, letters, start, AtMost(bound), v);
  }

  /** Different partitions into supports: at most two to the number of supports. */
  lemma FewPartitions(m: Automaton, letters: seq<nat>, start: Node, bound: nat, v: View, nodes: seq<Entry>)
    requires Running(m, letters, start, bound, v, nodes)
    ensures |nodes| <= Pow2(Pow2(m.states) - 1)
  {
    RunningIs(m, letters, start, bound, v, nodes);
    var l := seq(|nodes|, k requires 0 <= k < |nodes| => Members(nodes[k].partition));
    forall i, j | 0 <= i < j < |l| ensures Other(l, i, j) {
      assert v.visits[i].node != v.visits[j].node;
      assert Mirrored(m, nodes, v.visits, i) && Mirrored(m, nodes, v.visits, j);
    }
    forall i, x {:trigger x in l[i]} | 0 <= i < |l| && x in l[i] ensures x != {} && x <= Upto(m.states) {
      assert Mirrored(m, nodes, v.visits, i);
      assert x in Members(nodes[i].partition);
      var k :| 0 <= k < |nodes[i].partition| && nodes[i].partition[k] == x;
    }
    UptoSize(m.states);
    CollectionsFit(l, Upto(m.states));
  }

  lemma EntryIsSorted(m: Automaton, letters: seq<nat>, start: Node, bound: nat, v: View, nodes: seq<Entry>, k: nat)
    requires Running(m, letters, start, bound, v, nodes) && k < |nodes|
    ensures m.Valid() && Sorted(m.states, nodes[k].partition) && Mirrors(m, nodes, v.visits)
  {
    RunningIs(m, letters, start, bound, v, nodes);
    assert Mirrored(m, nodes, v.visits, k);
  }

  lemma WorstDecides(m: Automaton, p: Partition, worst: nat, bound: nat)
    requires m.Valid() && (forall k | 0 <= k < |p| :: |p[k]| <= worst)
    requires worst == 0 || exists k :: 0 <= k < |p| && |p[k]| == worst
    ensures Done(m, AtMost(bound), Branches(Members(p))) <==> worst <= bound
  {
    if Done(m, AtMost(bound), Branches(Members(p))) && worst != 0 {
      var k :| 0 <= k < |p| && |p[k]| == worst;
      assert p[k] in Members(p);
    }
  }

  // ---------- The search ----------

  /** Try one letter: a partition met before is dropped, a new one is queued, and then
      it may be narrow enough. */
  method TryAction(m: Automaton, letters: seq<nat>, bound: nat, nodes: seq<Entry>, head: nat, letter: nat,
                   ghost start: Node, ghost v: View, ghost left: nat)
    returns (won: bool, word: seq<nat>, more: seq<Entry>, ghost u: View)
    requires AreLetters(m, letters) && v.head == head < |nodes| && v.letter == letter < |letters| && head < left
    requires Running(m, letters, start, bound, v, nodes)
    ensures |nodes| <= |more|
    ensures !won ==> Running(m, letters, start, bound, u, more) && u.head == head && u.letter == letter + 1
    ensures won ==> Tallied(m, letters, start, AtMost(bound), left, Report(Plan, word, head + 1))
  {
    EntryIsSorted(m, letters, start, bound, v, nodes, head);
    var next := RefinePartition(m, nodes[head].partition, letters[letter]);
    NextNode(m, letters, start, bound, v, nodes, next);
    var found, index := FindPartition(m, nodes, next, v.visits);
    won, word, more, u := false, [], nodes, v.(letter := letter + 1);
    if found {
      KeepKnown(m, letters, start, bound, v, nodes, index);
      return;
    }
    more, u := nodes + [Next(next, head, letters[letter])], Entered(v, next, letters[letter]);
    var worst := Worst(next);
    WorstDecides(m, next, worst, bound);
    if worst <= bound {
      KeepWon(m, letters, start, bound, v, nodes, next, left);
      word := SpellFrom(m, more, |nodes|, v.visits + [Reached(Branches(Members(next)), head, letters[letter])]);
      won := true;
    } else {
      KeepNew(m, letters, start, bound, v, nodes, next);
    }
  }

  /** Expand one entry. */
  method ExpandPartition(m: Automaton, letters: seq<nat>, bound: nat, nodes: seq<Entry>, head: nat, ghost start: Node,
                         ghost v: View, ghost left: nat)
    returns (won: bool, word: seq<nat>, more: seq<Entry>, ghost u: View)
    requires AreLetters(m, letters) && v.head == head < |nodes| && v.letter == 0 && head < left
    requires Running(m, letters, start, bound, v, nodes)
    ensures |nodes| <= |more|
    ensures !won ==> Running(m, letters, start, bound, u, more) && u.head == head + 1 && u.letter == 0
    ensures won ==> Tallied(m, letters, start, AtMost(bound), left, Report(Plan, word, head + 1))
  {
    won, more, u, word := false, nodes, v, [];
    for letter := 0 to |letters|
      invariant |nodes| <= |more| && Running(m, letters, start, bound, u, more) && u.head == head && u.letter == letter
    {
      won, word, more, u := TryAction(m, letters, bound, more, head, letter, start, u, left);
      if won {
        return;
      }
    }
    KeepHead(m, letters, start, bound, u, more);
    u := u.(head := head + 1, letter := 0);
  }

  /** sg_partition_bfs */
  method PartitionBfs(m: Automaton, initial: set<nat>, bound: nat, letters: seq<nat>, budget: nat, spent: nat)
    returns (outcome: Outcome, word: seq<nat>, expansions: nat)
    requires AreLetters(m, letters) && IsSupport(m, initial) && |initial| > bound
    ensures spent <= expansions
    ensures Tallied(m, letters, Branches({initial}), AtMost(bound), Left(budget, spent),
                    Report(outcome, word, expansions - spent))
    ensures outcome.OutOfBudget? ==> budget <= expansions && (spent < budget ==>
            budget < spent + Pow2(Pow2(m.states) - 1))
  {
    expansions, word := spent, [];
    var nodes, head := [First([initial])], 0;
    ghost var start, v := Branches({initial}), View([Root(Branches({initial}))], [[]], 0, 0);
    SearchBegins(m, letters, initial, bound);
    while head < |nodes|
      invariant head <= |nodes| && v.head == head && v.letter == 0 && Running(m, letters, start, bound, v, nodes)
      invariant head <= Left(budget, spent) && expansions == spent + head
      decreases budget - expansions
    {
      if expansions >= budget {
        FewPartitions(m, letters, start, bound, v, nodes);
        GivesUp(m, letters, start, bound, v, nodes);
        return OutOfBudget, [], expansions;
      }
      expansions := expansions + 1;
      var won;
      won, word, nodes, v := ExpandPartition(m, letters, bound, nodes, head, start, v, Left(budget, spent));
      if won {
        return Plan, word, expansions;
      }
      head := head + 1;
    }
    NothingLeft(m, letters, start, bound, v, nodes, Left(budget, spent));
    outcome, word := NoPlan, [];
  }
}
