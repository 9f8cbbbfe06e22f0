/** Forward breadth-first search over nodes, letters taken in a given order.  What
    the search keeps, and what it says when it stops: the first shortest word, or a
    proof that there is none. */
module WordSearch {
  import opened Pairs
  import opened Supports

  /** What a search moves between: a support, the set of branch supports, or a pair. */
  datatype Node = Support(states: set<nat>) | Branches(parts: set<set<nat>>) | Pair(pair: nat)

  /** When it may stop: one state, all states among the goals, no branch above the
      bound, or a merged pair. */
  datatype Goal = Single | Within(goals: set<nat>) | AtMost(bound: nat) | Merged

  ghost function Step(m: Automaton, n: Node, a: nat): Node
    requires m.Valid() && a < m.actions
  {
    match n
    case Support(s) => Support(Image(m, s, a))
    case Branches(parts) => Branches(Refined(m, parts, a))
    case Pair(p) => if p < PairCount(m.states) then Pair(Target(m, p, a)) else n
  }

  ghost predicate Done(m: Automaton, goal: Goal, n: Node)
    requires m.Valid()
  {
    match goal
    case Single => n.Support? && |n.states| == 1
    case Within(goals) => n.Support? && n.states <= goals
    case AtMost(bound) => n.Branches? && forall s | s in n.parts :: |s| <= bound
    case Merged => n.Pair? && n.pair < PairCount(m.states) && SameState(m, n.pair)
  }

  // ---------- Words over the letters on offer ----------

  /** A path names letters by their position in the list of letters. */
  ghost predicate IsPath(letters: seq<nat>, w: seq<nat>) { forall k | 0 <= k < |w| :: w[k] < |letters| }

  ghost predicate AreLetters(m: Automaton, letters: seq<nat>) { m.Valid() && forall q | 0 <= q < |letters| ::
                             letters[q] < m.actions }

  function Spell(letters: seq<nat>, w: seq<nat>): (v: seq<nat>)
    requires forall k | 0 <= k < |w| :: w[k] < |letters|
    ensures |v| == |w| && forall k | 0 <= k < |v| :: v[k] == letters[w[k]]
  {
    seq(|w|, k requires 0 <= k < |w| => letters[w[k]])
  }

  ghost function After(m: Automaton, letters: seq<nat>, n: Node, w: seq<nat>): Node
    requires AreLetters(m, letters) && IsPath(letters, w)
    decreases |w|
  {
    if w == [] then n
    else Step(m, After(m, letters, n, w[..|w| - 1]), letters[w[|w| - 1]])
  }

  /** Shorter, or as long and first at the first letter that differs. */
  ghost predicate Earlier(w: seq<nat>, v: seq<nat>) {
    |w| < |v| || (|w| == |v| && exists k :: DiffersAt(w, v, k))
  }

  ghost predicate DiffersAt(w: seq<nat>, v: seq<nat>, k: int) {
    0 <= k < |w| && k < |v| && w[..k] == v[..k] && w[k] < v[k]
  }

  lemma EarlierIsStrict(w: seq<nat>)
    ensures !Earlier(w, w)
  {
  }

  lemma EarlierTrans(w: seq<nat>, v: seq<nat>, u: seq<nat>)
    requires Earlier(w, v) && Earlier(v, u)
    ensures Earlier(w, u)
  {
    if |w| == |u| {
      var i :| DiffersAt(w, v, i);
      var j :| DiffersAt(v, u, j);
      var k := if i < j then i else j;
      assert w[..k] == w[..i][..k] && v[..k] == v[..i][..k] && v[..k] == v[..j][..k] && u[..k] == u[..j][..k];
      if i < j { assert v[i] == v[..j][i] == u[..j][i]; }
      if j < i { assert v[j] == v[..i][j] == w[..i][j]; }
      assert DiffersAt(w, u, k);
    }
  }

  lemma EarlierAppend(w: seq<nat>, v: seq<nat>, a: nat, b: nat)
    ensures Earlier(w, v) ==> Earlier(w + [a], v + [b])
    ensures w == v && a < b ==> Earlier(w + [a], v + [b])
    ensures Earlier(w + [a], v + [b]) ==> Earlier(w, v) || (w == v && a < b)
  {
    var x, y := w + [a], v + [b];
    if Earlier(w, v) && |w| == |v| {
      var k :| DiffersAt(w, v, k);
      assert x[..k] == w[..k] && y[..k] == v[..k];
      assert DiffersAt(x, y, k);
    }
    if w == v && a < b {
      assert x[..|w|] == y[..|w|];
      assert DiffersAt(x, y, |w|);
    }
    if Earlier(x, y) && |w| == |v| {
      var k :| DiffersAt(x, y, k);
      if k < |w| {
        assert w[..k] == x[..k] && v[..k] == y[..k];
        assert DiffersAt(w, v, k);
      } else {
        assert w == x[..k] && v == y[..k];
      }
    }
  }

  /** Any two paths are ordered. */
  lemma {:induction false} EarlierTotal(w: seq<nat>, v: seq<nat>)
    ensures w == v || Earlier(w, v) || Earlier(v, w)
    decreases |w|
  {
    if |w| == |v| && w != [] {
      var n := |w| - 1;
      assert w == w[..n] + [w[n]] && v == v[..n] + [v[n]];
      EarlierTotal(w[..n], v[..n]);
      EarlierAppend(w[..n], v[..n], w[n], v[n]);
      EarlierAppend(v[..n], w[..n], v[n], w[n]);
    }
  }

  // ---------- A search in progress ----------

  /** A queue entry: the start, or a node reached from an earlier entry. */
  datatype Visit = Root(node: Node) | Reached(node: Node, parent: nat, action: nat)

  /** The entry at head is being expanded, and its first letters have been tried.  The
      words are the paths that led to the entries. */
  datatype View = View(visits: seq<Visit>, words: seq<seq<nat>>, head: nat, letter: nat) {

    ghost predicate Shape(letters: seq<nat>) {
      0 < |visits| == |words| && head <= |visits| && letter <= |letters| && (head == |visits| ==> letter == 0)
    }
  }

  /** Entry k is the start, or was reached by a letter from an entry expanded by now. */
  ghost predicate Linked(m: Automaton, letters: seq<nat>, start: Node, visits: seq<Visit>, words: seq<seq<nat>>,
                         head: nat, k: nat)
    requires AreLetters(m, letters) && k < |visits| == |words|
  {
    match visits[k]
    case Root(n) => k == 0 && words[k] == [] && n == start
    case Reached(n, parent, action) =>
      var w := words[k];
      && parent < k && parent <= head && |w| > 0 && w[|w| - 1] < |letters|
      && w == words[parent] + [w[|w| - 1]] && action == letters[w[|w| - 1]]
      && n == Step(m, visits[parent].node, action)
  }

  ghost predicate Tree(m: Automaton, letters: seq<nat>, start: Node, goal: Goal, visits: seq<Visit>,
                       words: seq<seq<nat>>, head: nat)
    requires AreLetters(m, letters) && |visits| == |words|
  {
    forall k {:trigger Linked(m, letters, start, visits, words, head, k)} | 0 <= k < |visits| ::
      Linked(m, letters, start, visits, words, head, k) && !Done(m, goal, visits[k].node)
  }

  ghost predicate EarlierAt(words: seq<seq<nat>>, j: nat, k: nat)
    requires j < |words| && k < |words|
  {
    Earlier(words[j], words[k])
  }

  ghost predicate InOrder(words: seq<seq<nat>>) {
    forall j, k {:trigger EarlierAt(words, j, k)} | 0 <= j < k < |words| :: EarlierAt(words, j, k)
  }

  ghost predicate Met(m: Automaton, visits: seq<Visit>, n: Node) {
    exists j {:trigger visits[j]} :: 0 <= j < |visits| && visits[j].node == n
  }

  ghost predicate AllDiffer(visits: seq<Visit>) {
    forall j, k {:trigger visits[j], visits[k]} | 0 <= j < k < |visits| :: visits[j].node != visits[k].node
  }

  ghost predicate AtOrBefore(w: seq<nat>, v: seq<nat>) { w == v || Earlier(w, v) }

  /** The letter's image of entry i has been met, by a word no later. */
  ghost predicate Tried(m: Automaton, letters: seq<nat>, visits: seq<Visit>, words: seq<seq<nat>>, i: nat, q: nat)
    requires AreLetters(m, letters) && i < |visits| == |words| && q < |letters|
  {
    exists j {:trigger visits[j]} :: 0 <= j < |visits|
      && visits[j].node == Step(m, visits[i].node, letters[q])
      && AtOrBefore(words[j], words[i] + [q])
  }

  ghost predicate Covered(m: Automaton, letters: seq<nat>, visits: seq<Visit>, words: seq<seq<nat>>, head: nat,
                          letter: nat)
    requires AreLetters(m, letters) && |visits| == |words|
  {
    forall i, q {:trigger Tried(m, letters, visits, words, i, q)} | 0 <= i < |visits| && 0 <= q < |letters|
           && (i < head || (i == head && q < letter)) :: Tried(m, letters, visits, words, i, q)
  }

  /** Every word so far is earlier than the one about to be tried. */
  ghost predicate Before(words: seq<seq<nat>>, next: seq<nat>) {
    forall k {:trigger words[k]} | 0 <= k < |words| :: Earlier(words[k], next)
  }

  ghost predicate Searching(m: Automaton, letters: seq<nat>, start: Node, goal: Goal, v: View) {
    && AreLetters(m, letters) && v.Shape(letters)
    && Tree(m, letters, start, goal, v.visits, v.words, v.head)
    && InOrder(v.words) && AllDiffer(v.visits)
    && Covered(m, letters, v.visits, v.words, v.head, v.letter)
    && (v.head < |v.visits| ==> Before(v.words, v.words[v.head] + [v.letter]))
  }

  lemma SearchStarts(m: Automaton, letters: seq<nat>, start: Node, goal: Goal)
    requires AreLetters(m, letters) && !Done(m, goal, start)
    ensures Searching(m, letters, start, goal, View([Root(start)], [[]], 0, 0))
  {
    assert [Root(start)][0] == Root(start);
  }

  lemma BeforeNext(words: seq<seq<nat>>, w: seq<nat>, q: nat)
    requires Before(words, w + [q])
    ensures Before(words, w + [q + 1])
  {
    forall k | 0 <= k < |words| ensures Earlier(words[k], w + [q + 1]) {
      EarlierAppend(w, w, q, q + 1);
      EarlierTrans(words[k], w + [q], w + [q + 1]);
    }
  }

  lemma CoverKnown(m: Automaton, letters: seq<nat>, visits: seq<Visit>, words: seq<seq<nat>>, head: nat, letter: nat,
                   j: nat)
    requires AreLetters(m, letters) && |visits| == |words| && head < |visits| && letter < |letters|
    requires Covered(m, letters, visits, words, head, letter)
    requires j < |visits| && visits[j].node == Step(m, visits[head].node, letters[letter])
    requires Earlier(words[j], words[head] + [letter])
    ensures Covered(m, letters, visits, words, head, letter + 1)
  {
    assert Tried(m, letters, visits, words, head, letter);
  }

  /** The next letter leads to a node met before. */
  lemma LetterKnown(m: Automaton, letters: seq<nat>, start: Node, goal: Goal, v: View, j: nat)
    requires Searching(m, letters, start, goal, v) && v.head < |v.visits| && v.letter < |letters|
    requires j < |v.visits| && v.visits[j].node == Step(m, v.visits[v.head].node, letters[v.letter])
    ensures Searching(m, letters, start, goal, v.(letter := v.letter + 1))
  {
    BeforeNext(v.words, v.words[v.head], v.letter);
    CoverKnown(m, letters, v.visits, v.words, v.head, v.letter, j);
  }

  lemma TreeGrows(m: Automaton, letters: seq<nat>, start: Node, goal: Goal, v: View, n: Node)
    requires Searching(m, letters, start, goal, v) && v.head < |v.visits| && v.letter < |letters|
    requires n == Step(m, v.visits[v.head].node, letters[v.letter]) && !Done(m, goal, n)
    ensures Tree(m, letters, start, goal, v.visits + [Reached(n, v.head, letters[v.letter])],
                 v.words + [v.words[v.head] + [v.letter]], v.head)
  {
    var visits := v.visits + [Reached(n, v.head, letters[v.letter])];
    var words := v.words + [v.words[v.head] + [v.letter]];
    forall k | 0 <= k < |visits|
      ensures Linked(m, letters, start, visits, words, v.head, k) && !Done(m, goal, visits[k].node)
    {
      if k < |v.visits| {
        assert Linked(m, letters, start, v.visits, v.words, v.head, k);
      }
    }
  }

  lemma CoverGrows(m: Automaton, letters: seq<nat>, v: View, e: Visit, w: seq<nat>)
    requires AreLetters(m, letters) && |v.visits| == |v.words| && v.head < |v.visits| && v.letter < |letters|
    requires Covered(m, letters, v.visits, v.words, v.head, v.letter)
    requires e.node == Step(m, v.visits[v.head].node, letters[v.letter]) && w == v.words[v.head] + [v.letter]
    ensures Covered(m, letters, v.visits + [e], v.words + [w], v.head, v.letter + 1)
  {
    var visits, words := v.visits + [e], v.words + [w];
    forall i, q | 0 <= i < |visits| && 0 <= q < |letters| && (i < v.head || (i == v.head && q < v.letter + 1))
      ensures Tried(m, letters, visits, words, i, q)
    {
      if i < v.head || q < v.letter {
        assert Tried(m, letters, v.visits, v.words, i, q);
        var j :| 0 <= j < |v.visits| && v.visits[j].node == Step(m, v.visits[i].node, letters[q])
                 && AtOrBefore(v.words[j], v.words[i] + [q]);
        assert visits[j] == v.visits[j];
      } else {
        assert visits[|v.visits|] == e;
      }
    }
  }

  lemma OrderGrows(words: seq<seq<nat>>, w: seq<nat>)
    requires InOrder(words) && Before(words, w)
    ensures InOrder(words + [w])
  {
    var all := words + [w];
    forall j, k | 0 <= j < k < |all| ensures EarlierAt(all, j, k) {
      if k < |words| {
        assert EarlierAt(words, j, k);
      } else {
        assert words[j] == all[j];
      }
    }
  }

  /** The next letter leads to a new node, which is queued. */
  lemma LetterNew(m: Automaton, letters: seq<nat>, start: Node, goal: Goal, v: View, n: Node)
    requires Searching(m, letters, start, goal, v) && v.head < |v.visits| && v.letter < |letters|
    requires n == Step(m, v.visits[v.head].node, letters[v.letter]) && !Done(m, goal, n)
    requires !Met(m, v.visits, n)
    ensures Searching(m, letters, start, goal,
                      View(v.visits + [Reached(n, v.head, letters[v.letter])], v.words + [v.words[v.head] + [v.letter]],
                           v.head, v.letter + 1))
  {
    var e, w := Reached(n, v.head, letters[v.letter]), v.words[v.head] + [v.letter];
    TreeGrows(m, letters, start, goal, v, n);
    CoverGrows(m, letters, v, e, w);
    OrderGrows(v.words, w);
    assert Before(v.words + [w], v.words[v.head] + [v.letter + 1]) by {
      BeforeNext(v.words, v.words[v.head], v.letter);
      EarlierAppend(v.words[v.head], v.words[v.head], v.letter, v.letter + 1);
    }
    assert AllDiffer(v.visits + [e]);
  }

  /** All letters tried: on to the next entry. */
  lemma NextEntry(m: Automaton, letters: seq<nat>, start: Node, goal: Goal, v: View)
    requires Searching(m, letters, start, goal, v) && v.head < |v.visits| && v.letter == |letters|
    ensures Searching(m, letters, start, goal, v.(head := v.head + 1, letter := 0))
  {
    var t := v.(head := v.head + 1, letter := 0);
    forall k | 0 <= k < |v.visits|
      ensures Linked(m, letters, start, t.visits, t.words, t.head, k) && !Done(m, goal, t.visits[k].node)
    {
      assert Linked(m, letters, start, v.visits, v.words, v.head, k);
    }
    if t.head < |t.visits| {
      forall k | 0 <= k < |t.words| ensures Earlier(t.words[k], t.words[t.head] + [0]) {
        assert Linked(m, letters, start, v.visits, v.words, v.head, k);
        if k > 0 {
          var parent := v.visits[k].parent;
          assert EarlierAt(v.words, parent, t.head);
          EarlierAppend(v.words[parent], v.words[t.head], v.words[k][|v.words[k]| - 1], 0);
        }
      }
    }
  }

  // ---------- What a search says ----------

  /** The word of an entry leads from the start to its node. */
  lemma {:induction false} WordLeadsToNode(m: Automaton, letters: seq<nat>, start: Node, goal: Goal,
                                           visits: seq<Visit>, words: seq<seq<nat>>, head: nat, k: nat)
    requires AreLetters(m, letters) && |visits| == |words| && Tree(m, letters, start, goal, visits, words, head)
    requires k < |visits|
    ensures IsPath(letters, words[k]) && After(m, letters, start, words[k]) == visits[k].node
    decreases k
  {
    assert Linked(m, letters, start, visits, words, head, k);
    if visits[k].Reached? {
      WordLeadsToNode(m, letters, start, goal, visits, words, head, visits[k].parent);
      assert words[k][..|words[k]| - 1] == words[visits[k].parent];
    }
  }

  /** Entry k holds the node the path leads to, and was reached by a path no later. */
  ghost predicate Holds(m: Automaton, letters: seq<nat>, start: Node, v: View, w: seq<nat>, k: nat)
    requires AreLetters(m, letters) && IsPath(letters, w) && |v.visits| == |v.words|
  {
    k < |v.visits| && v.visits[k].node == After(m, letters, start, w) && AtOrBefore(v.words[k], w)
  }

  /** Every path before the one about to be tried leads to a node met already. */
  lemma {:induction false} EarlierIsMet(m: Automaton, letters: seq<nat>, start: Node, goal: Goal, v: View, w: seq<nat>)
    returns (k: nat)
    requires Searching(m, letters, start, goal, v) && IsPath(letters, w)
    requires v.head < |v.visits| ==> Earlier(w, v.words[v.head] + [v.letter])
    ensures Holds(m, letters, start, v, w, k)
    decreases |w|
  {
    if w == [] {
      k := 0;
      assert Linked(m, letters, start, v.visits, v.words, v.head, 0);
    } else {
      var u, q := w[..|w| - 1], w[|w| - 1];
      assert w == u + [q];
      if v.head < |v.visits| {
        EarlierAppend(u, v.words[v.head], q, v.letter);
        PrefixIsEarlier(u, q, v.words[v.head], v.letter);
      }
      var i := EarlierIsMet(m, letters, start, goal, v, u);
      AlreadyTried(m, letters, start, goal, v, u, q, i);
      var j :| 0 <= j < |v.visits| && v.visits[j].node == Step(m, v.visits[i].node, letters[q])
               && AtOrBefore(v.words[j], v.words[i] + [q]);
      EarlierAppend(v.words[i], u, q, q);
      if AtOrBefore(v.words[i], u) && v.words[j] != w && v.words[i] != u && v.words[j] != v.words[i] + [q] {
        EarlierTrans(v.words[j], v.words[i] + [q], w);
      }
      k := j;
    }
  }

  lemma PrefixIsEarlier(u: seq<nat>, q: nat, w: seq<nat>, l: nat)
    requires AtOrBefore(u, w)
    ensures Earlier(u, w + [l])
  {
    assert |u| < |w + [l]|;
  }

  /** The entry that holds the prefix of an earlier path has tried the last letter. */
  lemma AlreadyTried(m: Automaton, letters: seq<nat>, start: Node, goal: Goal, v: View, u: seq<nat>, q: nat, i: nat)
    requires Searching(m, letters, start, goal, v) && IsPath(letters, u) && q < |letters|
    requires Holds(m, letters, start, v, u, i)
    requires v.head < |v.visits| ==> Earlier(u, v.words[v.head]) || (u == v.words[v.head] && q < v.letter)
    ensures Tried(m, letters, v.visits, v.words, i, q)
  {
    if v.head < |v.visits| {
      if i > v.head {
        assert EarlierAt(v.words, v.head, i);
        if v.words[i] != u {
          EarlierTrans(v.words[v.head], v.words[i], u);
        }
        if u != v.words[v.head] {
          EarlierTrans(v.words[v.head], u, v.words[v.head]);
        }
        EarlierIsStrict(v.words[v.head]);
        assert false;
      }
      if i == v.head && v.letter <= q {
        if v.words[i] != u {
          EarlierTrans(v.words[i], u, v.words[i]);
        }
        EarlierIsStrict(v.words[i]);
        assert false;
      }
    }
    assert Tried(m, letters, v.visits, v.words, i, q);
  }

  /** Nothing is left to expand: no word over the letters meets the goal. */
  lemma ExhaustedProvesAbsence(m: Automaton, letters: seq<nat>, start: Node, goal: Goal, v: View, w: seq<nat>)
    requires Searching(m, letters, start, goal, v) && v.head == |v.visits| && IsPath(letters, w)
    ensures !Done(m, goal, After(m, letters, start, w))
  {
    var k := EarlierIsMet(m, letters, start, goal, v, w);
    assert Linked(m, letters, start, v.visits, v.words, v.head, k);
  }

  /** The next letter meets the goal: its path does, and no earlier path does. */
  lemma FoundIsFirst(m: Automaton, letters: seq<nat>, start: Node, goal: Goal, v: View)
    requires Searching(m, letters, start, goal, v) && v.head < |v.visits| && v.letter < |letters|
    requires Done(m, goal, Step(m, v.visits[v.head].node, letters[v.letter]))
    ensures var w := v.words[v.head] + [v.letter];
            && IsPath(letters, w) && Done(m, goal, After(m, letters, start, w))
            && forall u | IsPath(letters, u) && Earlier(u, w) :: !Done(m, goal, After(m, letters, start, u))
  {
    var w := v.words[v.head] + [v.letter];
    WordLeadsToNode(m, letters, start, goal, v.visits, v.words, v.head, v.head);
    assert w[..|w| - 1] == v.words[v.head];
    forall u | IsPath(letters, u) && Earlier(u, w) ensures !Done(m, goal, After(m, letters, start, u)) {
      var k := EarlierIsMet(m, letters, start, goal, v, u);
      assert Linked(m, letters, start, v.visits, v.words, v.head, k);
    }
  }
}
