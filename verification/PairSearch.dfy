/** The breadth-first search over pairs for a merging word of permitted letters. */
module PairSearch {
  import opened Records
  import opened RepairSteps
  import opened Arcs
  import opened Pairs
  import opened WordSearch
  import opened SupportSearch
  import opened Restricted

  /** The arrays of the search, indexed by pair: the pair each was reached from, the
      letter, and the two states in the order they were reached. */
  datatype Rows = Rows(parent: seq<nat>, action: seq<nat>, first: seq<nat>, second: seq<nat>) {

    ghost predicate Sized(pairs: nat) { |parent| == |action| == |first| == |second| == pairs }
  }

  /** Queue entry k of the arrays is entry k of the search. */
  ghost predicate Mirrored(m: Automaton, t: Rows, queue: seq<nat>, visits: seq<Visit>, k: nat)
    requires m.Valid() && t.Sized(PairCount(m.states)) && k < |queue| == |visits|
  {
    && queue[k] < PairCount(m.states) && visits[k].node == Pair(queue[k])
    && t.first[queue[k]] < m.states && t.second[queue[k]] < m.states
    && PairIndex(m.states, t.first[queue[k]], t.second[queue[k]]) == queue[k]
    && t.parent[queue[k]] != NONE
    && match visits[k]
       case Root(_) => k == 0
       case Reached(_, from, a) => from < k && t.parent[queue[k]] == queue[from] && t.action[queue[k]] == a
  }

  ghost predicate Mirrors(m: Automaton, t: Rows, queue: seq<nat>, visits: seq<Visit>) {
    && m.Valid() && t.Sized(PairCount(m.states)) && |queue| == |visits| && Distinct(queue)
    && (forall k {:trigger Mirrored(m, t, queue, visits, k)} {:trigger queue[k]} | 0 <= k < |queue| ::
        Mirrored(m, t, queue, visits, k))
    && (forall p {:trigger t.parent[p]} | 0 <= p < PairCount(m.states) :: t.parent[p] != NONE ==> p in queue)
  }

  lemma StartMirrors(m: Automaton, t: Rows, root: nat, first: nat, second: nat)
    requires m.Valid() && t.Sized(PairCount(m.states)) && first < m.states && second < m.states
    requires root == PairIndex(m.states, first, second) && root < PairCount(m.states) < NONE
    requires forall p | 0 <= p < PairCount(m.states) :: t.parent[p] == NONE
    ensures Mirrors(m, Rows(t.parent[root := root], t.action, t.first[root := first], t.second[root := second]),
                    [root], [Root(Pair(root))])
  {
  }

  /** A pair is new to the arrays exactly if it is new to the search. */
  lemma NewIsUnmet(m: Automaton, t: Rows, queue: seq<nat>, visits: seq<Visit>, p: nat)
    requires Mirrors(m, t, queue, visits) && p < PairCount(m.states)
    ensures t.parent[p] == NONE <==> !Met(m, visits, Pair(p))
    ensures t.parent[p] != NONE ==> exists k :: 0 <= k < |queue| && queue[k] == p && visits[k].node == Pair(p)
  {
    if t.parent[p] != NONE {
      var k :| 0 <= k < |queue| && queue[k] == p;
      assert Mirrored(m, t, queue, visits, k);
    }
    if Met(m, visits, Pair(p)) {
      var k :| 0 <= k < |visits| && visits[k].node == Pair(p);
      assert Mirrored(m, t, queue, visits, k);
    }
  }

  /** The queue never holds more entries than there are pairs. */
  lemma QueueFits(m: Automaton, t: Rows, queue: seq<nat>, visits: seq<Visit>, p: nat)
    requires Mirrors(m, t, queue, visits) && p < PairCount(m.states) && t.parent[p] == NONE
    ensures |queue| < PairCount(m.states) && p !in queue
  {
    assert forall k | 0 <= k < |queue| :: queue[k] < PairCount(m.states) && queue[k] != p by {
      forall k | 0 <= k < |queue| ensures queue[k] < PairCount(m.states) && queue[k] != p {
        assert Mirrored(m, t, queue, visits, k);
      }
    }
    DistinctAppend(queue, p);
    FewDistinct(queue + [p], PairCount(m.states));
  }

  lemma ReachMirrors(m: Automaton, t: Rows, queue: seq<nat>, visits: seq<Visit>, from: nat, a: nat, first: nat,
                     second: nat, p: nat)
    requires Mirrors(m, t, queue, visits) && from < |queue| && PairCount(m.states) < NONE
    requires first < m.states && second < m.states && p == PairIndex(m.states, first, second) < PairCount(m.states)
    requires t.parent[p] == NONE
    ensures Mirrors(m, Rows(t.parent[p := queue[from]], t.action[p := a], t.first[p := first], t.second[p := second]),
                    queue + [p], visits + [Reached(Pair(p), from, a)])
  {
    var u := Rows(t.parent[p := queue[from]], t.action[p := a], t.first[p := first], t.second[p := second]);
    QueueFits(m, t, queue, visits, p);
    DistinctAppend(queue, p);
    assert Mirrored(m, t, queue, visits, from);
    forall k | 0 <= k < |queue| + 1 ensures Mirrored(m, u, queue + [p], visits + [Reached(Pair(p), from, a)], k) {
      if k < |queue| {
        assert Mirrored(m, t, queue, visits, k);
        assert queue[k] in queue;
      }
    }
  }

  /** The same, some steps away, so that only MirrorIs unfolds it. */
  ghost predicate Mirror(m: Automaton, t: Rows, queue: seq<nat>, visits: seq<Visit>) {
    MirrorIn(m, t, queue, visits, DEPTH + 1)
  }

  ghost predicate MirrorIn(m: Automaton, t: Rows, queue: seq<nat>, visits: seq<Visit>, steps: nat)
    decreases steps
  {
    if steps > 0 then MirrorIn(m, t, queue, visits, steps - 1) else Mirrors(m, t, queue, visits)
  }

  lemma MirrorIs(m: Automaton, t: Rows, queue: seq<nat>, visits: seq<Visit>)
    ensures Mirror(m, t, queue, visits) <==> Mirrors(m, t, queue, visits)
  {
    var k: nat := DEPTH + 1;
    while k > 0
      invariant MirrorIn(m, t, queue, visits, DEPTH + 1) == MirrorIn(m, t, queue, visits, k)
    {
      k := k - 1;
    }
  }

  /** One step back along the parents. */
  lemma StepBack(m: Automaton, t: Rows, queue: seq<nat>, visits: seq<Visit>, k: nat)
    requires Mirrors(m, t, queue, visits) && k < |queue|
    ensures queue[k] < PairCount(m.states)
    ensures queue[k] == queue[0] ==> WordTo(visits, k) == []
    ensures queue[k] != queue[0] ==>
              && visits[k].Reached? && visits[k].parent < k
              && t.parent[queue[k]] == queue[visits[k].parent] && t.action[queue[k]] == visits[k].action
              && WordTo(visits, k) == WordTo(visits, visits[k].parent) + [t.action[queue[k]]]
  {
    assert Mirrored(m, t, queue, visits, k);
    if queue[k] == queue[0] && k != 0 {
      DistinctAt(queue, 0, k);
      assert false;
    }
  }

  /** The word so far, cut in two: what the parents still hold, and the letters gathered. */
  ghost predicate Gathered(whole: seq<nat>, front: seq<nat>, acc: seq<nat>) { whole == front + Backwards(acc) }

  lemma GatherOne(whole: seq<nat>, front: seq<nat>, letter: nat, acc: seq<nat>)
    requires Gathered(whole, front + [letter], acc)
    ensures Gathered(whole, front, acc + [letter])
  {
    BackwardsAppend(acc, letter);
    assert (front + [letter]) + Backwards(acc) == front + ([letter] + Backwards(acc));
  }

  /** The loop over the parents, and the one that turns the letters around. */
  method SpellBack(t: Rows, goal: nat, root: nat, ghost m: Automaton, ghost queue: seq<nat>, ghost visits: seq<Visit>,
                   ghost entry: nat)
    returns (word: seq<nat>)
    requires Mirror(m, t, queue, visits)
    requires entry < |queue| && queue[entry] == goal && queue[0] == root
    ensures word == WordTo(visits, entry)
  {
    var acc: seq<nat>, cursor: nat := [], goal;
    ghost var k: nat := entry;
    MirrorIs(m, t, queue, visits);
    StepBack(m, t, queue, visits, k);
    while cursor != root
      invariant k < |queue| && cursor == queue[k] < PairCount(m.states)
      invariant Gathered(WordTo(visits, entry), WordTo(visits, k), acc)
      decreases k
    {
      StepBack(m, t, queue, visits, k);
      GatherOne(WordTo(visits, entry), WordTo(visits, visits[k].parent), t.action[cursor], acc);
      acc := acc + [t.action[cursor]];
      cursor := t.parent[cursor];
      k := visits[k].parent;
      StepBack(m, t, queue, visits, k);
    }
    StepBack(m, t, queue, visits, k);
    word := Reverse(acc);
  }

  /** Enter a pair into the arrays. */
  function Entered(r: Rows, from: nat, a: nat, first: nat, second: nat, p: nat): Rows
    requires p < |r.parent| == |r.action| == |r.first| == |r.second|
  {
    Rows(r.parent[p := from], r.action[p := a], r.first[p := first], r.second[p := second])
  }

  ghost predicate Runs(m: Automaton, letters: seq<nat>, start: Node, v: View, t: Rows, queue: seq<nat>) {
    && m.Valid() && PairCount(m.states) < NONE && Searching(m, letters, start, Merged, v)
        && Mirrors(m, t, queue, v.visits)
  }

  /** What the loops keep: the arrays mirror the search.  The definition is some steps
      away, so that only RunningIs unfolds it. */
  ghost predicate Running(m: Automaton, letters: seq<nat>, start: Node, v: View, t: Rows, queue: seq<nat>) {
    RunningIn(m, letters, start, v, t, queue, DEPTH + 1)
  }

  ghost predicate RunningIn(m: Automaton, letters: seq<nat>, start: Node, v: View, t: Rows, queue: seq<nat>, steps: nat)
    decreases steps
  {
    if steps > 0 then RunningIn(m, letters, start, v, t, queue, steps - 1) else Runs(m, letters, start, v, t, queue)
  }

  lemma RunningIs(m: Automaton, letters: seq<nat>, start: Node, v: View, t: Rows, queue: seq<nat>)
    ensures Running(m, letters, start, v, t, queue) <==> Runs(m, letters, start, v, t, queue)
  {
    var k: nat := DEPTH + 1;
    while k > 0
      invariant RunningIn(m, letters, start, v, t, queue, DEPTH + 1) == RunningIn(m, letters, start, v, t, queue, k)
    {
      k := k - 1;
    }
  }

  lemma PairStep(m: Automaton, i: nat, j: nat, a: nat)
    requires m.Valid() && i < m.states && j < m.states && a < m.actions
    ensures var x, y := m.delta[i][a], m.delta[j][a];
            && PairIndex(m.states, x, y) < PairCount(m.states)
            && Step(m, Pair(PairIndex(m.states, i, j)), a) == Pair(PairIndex(m.states, x, y))
            && (Done(m, Merged, Pair(PairIndex(m.states, x, y))) <==> x == y)
  {
    StatesSwapped(m.states, i, j);
    IndexInRange(m.states, m.delta[i][a], m.delta[j][a]);
    DoneIsMerged(m, m.delta[i][a], m.delta[j][a]);
  }

  /** The pair at head and its image under a letter. */
  lemma ImagePair(m: Automaton, letters: seq<nat>, start: Node, v: View, t: Rows, queue: seq<nat>)
    requires Running(m, letters, start, v, t, queue) && v.head < |queue| && v.letter < |letters|
    ensures m.Valid() && AreLetters(m, letters) && t.Sized(PairCount(m.states)) && |queue| == |v.visits| == |v.words|
    ensures queue[v.head] < PairCount(m.states)
    ensures var p, a := queue[v.head], letters[v.letter];
            && t.first[p] < m.states && t.second[p] < m.states
            && var x, y := m.delta[t.first[p]][a], m.delta[t.second[p]][a];
            && PairIndex(m.states, x, y) < PairCount(m.states)
            && Step(m, v.visits[v.head].node, a) == Pair(PairIndex(m.states, x, y))
            && (Done(m, Merged, Pair(PairIndex(m.states, x, y))) <==> x == y)
  {
    RunningIs(m, letters, start, v, t, queue);
    assert Mirrored(m, t, queue, v.visits, v.head);
    PairStep(m, t.first[queue[v.head]], t.second[queue[v.head]], letters[v.letter]);
  }

  lemma AfterKnown(m: Automaton, letters: seq<nat>, start: Node, v: View, t: Rows, queue: seq<nat>, target: nat)
    requires Running(m, letters, start, v, t, queue) && v.head < |queue| == |v.visits| && v.letter < |letters|
    requires AreLetters(m, letters) && t.Sized(PairCount(m.states))
    requires target < PairCount(m.states) && Step(m, v.visits[v.head].node, letters[v.letter]) == Pair(target)
    requires t.parent[target] != NONE
    ensures Running(m, letters, start, v.(letter := v.letter + 1), t, queue)
  {
    RunningIs(m, letters, start, v, t, queue);
    RunningIs(m, letters, start, v.(letter := v.letter + 1), t, queue);
    NewIsUnmet(m, t, queue, v.visits, target);
    var j :| 0 <= j < |queue| && queue[j] == target && v.visits[j].node == Pair(target);
    LetterKnown(m, letters, start, Merged, v, j);
  }

  lemma AfterNew(m: Automaton, letters: seq<nat>, start: Node, v: View, t: Rows, queue: seq<nat>, x: nat, y: nat,
                 target: nat)
    requires Running(m, letters, start, v, t, queue) && v.head < |queue| == |v.visits| == |v.words|
             && v.letter < |letters|
    requires AreLetters(m, letters) && t.Sized(PairCount(m.states))
    requires x < m.states && y < m.states && target == PairIndex(m.states, x, y) < PairCount(m.states)
    requires Step(m, v.visits[v.head].node, letters[v.letter]) == Pair(target) && t.parent[target] == NONE
    requires Done(m, Merged, Pair(target)) <==> x == y
    ensures |queue| < PairCount(m.states)
    ensures var rows := Entered(t, queue[v.head], letters[v.letter], x, y, target);
            var u := View(v.visits + [Reached(Pair(target), v.head, letters[v.letter])],
                          v.words + [v.words[v.head] + [v.letter]], v.head, v.letter + 1);
            if x == y then
              && Mirror(m, rows, queue + [target], u.visits)
              && Won(m, letters, start, Merged, WordTo(v.visits, v.head) + [letters[v.letter]])
            else Running(m, letters, start, u, rows, queue + [target])
  {
    RunningIs(m, letters, start, v, t, queue);
    NewIsUnmet(m, t, queue, v.visits, target);
    QueueFits(m, t, queue, v.visits, target);
    ReachMirrors(m, t, queue, v.visits, v.head, letters[v.letter], x, y, target);
    if x == y {
      MirrorIs(m, Entered(t, queue[v.head], letters[v.letter], x, y, target), queue + [target],
                v.visits + [Reached(Pair(target), v.head, letters[v.letter])]);
      WinningWord(m, letters, start, Merged, v);
    } else {
      LetterNew(m, letters, start, Merged, v, Pair(target));
      RunningIs(m, letters, start,
                View(v.visits + [Reached(Pair(target), v.head, letters[v.letter])],
                    v.words + [v.words[v.head] + [v.letter]],
                     v.head, v.letter + 1),
                Entered(t, queue[v.head], letters[v.letter], x, y, target), queue + [target]);
    }
  }

  // ---------- The word of the goal ----------

  /** The word to a new last entry. */
  lemma WordToLast(visits: seq<Visit>, e: Visit)
    requires e.Reached? && e.parent < |visits|
    requires forall k {:trigger visits[k]} | 0 <= k < |visits| && visits[k].Reached? :: visits[k].parent < k
    ensures WordTo(visits + [e], |visits|) == WordTo(visits, e.parent) + [e.action]
  {
    WordToPrefix(visits, e, e.parent);
  }

  lemma {:induction false} WordToPrefix(visits: seq<Visit>, e: Visit, k: nat)
    requires k < |visits|
    ensures WordTo(visits + [e], k) == WordTo(visits, k)
    decreases k
  {
    assert (visits + [e])[k] == visits[k];
    if visits[k].Reached? && visits[k].parent < k {
      WordToPrefix(visits, e, visits[k].parent);
    }
  }

  lemma MirroredParents(m: Automaton, t: Rows, queue: seq<nat>, visits: seq<Visit>)
    requires Mirrors(m, t, queue, visits)
    ensures forall k {:trigger visits[k]} | 0 <= k < |visits| && visits[k].Reached? :: visits[k].parent < k
  {
    forall k | 0 <= k < |visits| && visits[k].Reached? ensures visits[k].parent < k {
      assert Mirrored(m, t, queue, visits, k);
    }
  }

  lemma WordOfGoal(m: Automaton, t: Rows, queue: seq<nat>, visits: seq<Visit>, e: Visit)
    requires Mirrors(m, t, queue, visits + [e]) && e.Reached? && e.parent < |visits|
    ensures WordTo(visits + [e], |visits|) == WordTo(visits, e.parent) + [e.action]
  {
    MirroredParents(m, t, queue, visits + [e]);
    forall k | 0 <= k < |visits| && visits[k].Reached? ensures visits[k].parent < k {
      assert (visits + [e])[k] == visits[k];
    }
    WordToLast(visits, e);
  }

  /** A letter merged the pair: spell the word back from the goal. */
  method Conclude(m: Automaton, letters: seq<nat>, t: Rows, queue: seq<nat>, target: nat, root: nat,
                  ghost visits: seq<Visit>,
                  ghost head: nat, ghost action: nat)
    returns (word: seq<nat>)
    requires Mirror(m, t, queue + [target], visits + [Reached(Pair(target), head, action)])
    requires |queue| == |visits| && head < |visits| && queue[0] == root
    ensures word == WordTo(visits, head) + [action]
  {
    ghost var e := Reached(Pair(target), head, action);
    word := SpellBack(t, target, root, m, queue + [target], visits + [e], |queue|);
    MirrorIs(m, t, queue + [target], visits + [e]);
    WordOfGoal(m, t, queue + [target], visits, e);
  }

  /** The image of the pair at head under a letter, as two states and as a pair. */
  method ReadImage(m: Automaton, letters: seq<nat>, t: Rows, queue: seq<nat>, ghost start: Node, ghost v: View,
                   head: nat, letter: nat)
    returns (left: nat, right: nat, target: nat)
    requires AreLetters(m, letters) && v.head == head < |queue| && v.letter == letter < |letters|
    requires Running(m, letters, start, v, t, queue)
    ensures |queue| == |v.visits| == |v.words| && t.Sized(PairCount(m.states)) && left < m.states && right < m.states
    ensures target == PairIndex(m.states, left, right) < PairCount(m.states)
    ensures Step(m, v.visits[head].node, letters[letter]) == Pair(target)
    ensures Done(m, Merged, Pair(target)) <==> left == right
  {
    ImagePair(m, letters, start, v, t, queue);
    var current, action := queue[head], letters[letter];
    left, right := m.delta[t.first[current]][action], m.delta[t.second[current]][action];
    target := PairIndex(m.states, left, right);
  }

  /** Enter a pair met for the first time: it merges, or it is queued. */
  method EnterPair(m: Automaton, letters: seq<nat>, t: Rows, queue: seq<nat>, left: nat, right: nat, target: nat,
                   ghost start: Node, ghost v: View, head: nat, letter: nat)
    returns (won: bool, word: seq<nat>, more: Rows, ghost u: View)
    requires AreLetters(m, letters) && v.head == head < |queue| == |v.visits| == |v.words|
             && v.letter == letter < |letters|
    requires Running(m, letters, start, v, t, queue) && t.Sized(PairCount(m.states)) && left < m.states
             && right < m.states
    requires target == PairIndex(m.states, left, right) < PairCount(m.states) && t.parent[target] == NONE
    requires Step(m, v.visits[head].node, letters[letter]) == Pair(target)
    requires Done(m, Merged, Pair(target)) <==> left == right
    ensures !won ==> Running(m, letters, start, u, more, queue + [target]) && u.head == head && u.letter == letter + 1
    ensures won ==> Won(m, letters, start, Merged, word)
  {
    AfterNew(m, letters, start, v, t, queue, left, right, target);
    more, won, word := Entered(t, queue[head], letters[letter], left, right, target), left == right, [];
    u := View(v.visits + [Reached(Pair(target), head, letters[letter])], v.words + [v.words[head] + [letter]], head,
        letter + 1);
    if won {
      word := Conclude(m, letters, more, queue, target, queue[0], v.visits, head, letters[letter]);
    }
  }

  /** Try one letter on the pair being expanded. */
  method TryPair(m: Automaton, letters: seq<nat>, t: Rows, queue: seq<nat>, head: nat, letter: nat, ghost start: Node,
                 ghost v: View)
    returns (won: bool, word: seq<nat>, more: Rows, longer: seq<nat>, ghost u: View)
    requires AreLetters(m, letters) && v.head == head < |queue| && v.letter == letter < |letters|
    requires Running(m, letters, start, v, t, queue)
    ensures queue <= longer
    ensures !won ==> Running(m, letters, start, u, more, longer) && u.head == head && u.letter == letter + 1
    ensures won ==> Won(m, letters, start, Merged, word)
  {
    var left, right, target := ReadImage(m, letters, t, queue, start, v, head, letter);
    if t.parent[target] != NONE {
      AfterKnown(m, letters, start, v, t, queue, target);
      won, word, more, longer, u := false, [], t, queue, v.(letter := letter + 1);
    } else {
      won, word, more, u := EnterPair(m, letters, t, queue, left, right, target, start, v, head, letter);
      longer := queue + [target];
    }
  }

  lemma RunOn(m: Automaton, letters: seq<nat>, start: Node, v: View, t: Rows, queue: seq<nat>)
    requires Running(m, letters, start, v, t, queue) && v.head < |queue| && v.letter == |letters|
    ensures Running(m, letters, start, v.(head := v.head + 1, letter := 0), t, queue)
  {
    RunningIs(m, letters, start, v, t, queue);
    RunningIs(m, letters, start, v.(head := v.head + 1, letter := 0), t, queue);
    NextEntry(m, letters, start, Merged, v);
  }

  /** Expand the pair at head: try the letters in order until one merges. */
  method ExpandPair(m: Automaton, letters: seq<nat>, t: Rows, queue: seq<nat>, head: nat, ghost start: Node,
                    ghost v: View)
    returns (won: bool, word: seq<nat>, more: Rows, longer: seq<nat>, ghost u: View)
    requires AreLetters(m, letters) && v.head == head < |queue| && v.letter == 0
    requires Running(m, letters, start, v, t, queue)
    ensures queue <= longer
    ensures !won ==> Running(m, letters, start, u, more, longer) && u.head == head + 1 && u.letter == 0
    ensures won ==> Won(m, letters, start, Merged, word)
  {
    more, longer, u, word := t, queue, v, [];
    for index := 0 to |letters|
      invariant queue <= longer && Running(m, letters, start, u, more, longer) && u.head == head && u.letter == index
    {
      won, word, more, longer, u := TryPair(m, letters, more, longer, head, index, start, u);
      if won {
        return;
      }
    }
    RunOn(m, letters, start, u, more, longer);
    u := u.(head := head + 1, letter := 0);
    won := false;
  }

  lemma NoFirstWord(m: Automaton, letters: seq<nat>, p: nat)
    requires AreLetters(m, letters) && NoWord(m, letters, Pair(p), Merged)
    ensures forall w :: !IsMergeWord(m, letters, p, w)
  {
  }

  lemma EmptyWordIsFirst(m: Automaton, letters: seq<nat>, i: nat)
    requires AreLetters(m, letters) && i < m.states
    ensures IsMergeWord(m, letters, PairIndex(m.states, i, i), [])
  {
    DoneIsMerged(m, i, i);
    assert Spells(letters, [], []);
  }

  // ---------- sg_allowed_merge_word ----------

  /** Nothing left to expand. */
  lemma RunsDry(m: Automaton, letters: seq<nat>, root: nat, v: View, t: Rows, queue: seq<nat>)
    requires AreLetters(m, letters) && Running(m, letters, Pair(root), v, t, queue) && v.head == |queue|
    ensures forall w :: !IsMergeWord(m, letters, root, w)
  {
    RunningIs(m, letters, Pair(root), v, t, queue);
    Exhausted(m, letters, Pair(root), Merged, v);
    NoFirstWord(m, letters, root);
  }

  /** The main loop. */
  method Search(m: Automaton, letters: seq<nat>, start: Rows, root: nat, ghost v0: View)
    returns (found: bool, word: seq<nat>)
    requires AreLetters(m, letters) && Running(m, letters, Pair(root), v0, start, [root]) && v0.head == 0
             && v0.letter == 0
    ensures found ==> IsMergeWord(m, letters, root, word)
    ensures !found ==> forall w :: !IsMergeWord(m, letters, root, w)
  {
    var head, t, queue := 0, start, [root];
    ghost var v := v0;
    while head < |queue|
      invariant head <= |queue| && Running(m, letters, Pair(root), v, t, queue) && v.head == head && v.letter == 0
      decreases PairCount(m.states) - head
    {
      QueueIsShort(m, letters, root, v, t, queue);
      found, word, t, queue, v := ExpandPair(m, letters, t, queue, head, Pair(root), v);
      if found {
        return;
      }
      head := head + 1;
    }
    RunsDry(m, letters, root, v, t, queue);
    return false, [];
  }

  lemma QueueIsShort(m: Automaton, letters: seq<nat>, root: nat, v: View, t: Rows, queue: seq<nat>)
    requires Running(m, letters, Pair(root), v, t, queue)
    ensures |queue| <= PairCount(m.states)
  {
    RunningIs(m, letters, Pair(root), v, t, queue);
    forall k | 0 <= k < |queue| ensures queue[k] < PairCount(m.states) {
      assert Mirrored(m, t, queue, v.visits, k);
    }
    FewDistinct(queue, PairCount(m.states));
  }

  /** sg_allowed_merge_word */
  method AllowedMergeWord(m: Automaton, letters: seq<nat>, first: nat, second: nat)
    returns (found: bool, word: seq<nat>)
    requires AreLetters(m, letters) && first < m.states && second < m.states && PairCount(m.states) < NONE
    ensures found ==> IsMergeWord(m, letters, PairIndex(m.states, first, second), word)
    ensures !found ==> forall w :: !IsMergeWord(m, letters, PairIndex(m.states, first, second), w)
  {
    if first == second {
      EmptyWordIsFirst(m, letters, first);
      return true, [];
    }
    var pairs := PairCount(m.states);
    IndexInRange(m.states, first, second);
    DoneIsMerged(m, first, second);
    var root := PairIndex(m.states, first, second);
    var none, zero := seq(pairs, _ => NONE), seq(pairs, _ => 0);
    StartMirrors(m, Rows(none, none, zero, zero), root, first, second);
    SearchStarts(m, letters, Pair(root), Merged);
    RunningIs(m, letters, Pair(root), View([Root(Pair(root))], [[]], 0, 0),
              Rows(none[root := root], none, zero[root := first], zero[root := second]), [root]);
    found, word := Search(m, letters, Rows(none[root := root], none, zero[root := first], zero[root := second]), root,
                          View([Root(Pair(root))], [[]], 0, 0));
  }
}
