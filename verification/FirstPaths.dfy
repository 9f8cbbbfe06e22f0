/** How far a search gets: it expands nodes in the order of the first paths to them. */
module FirstPaths {
  import opened Pairs
  import opened WordSearch

  /** The path leads where no earlier path leads. */
  ghost predicate IsFirstTo(m: Automaton, letters: seq<nat>, start: Node, w: seq<nat>)
    requires AreLetters(m, letters)
  {
    && IsPath(letters, w)
    && forall u | IsPath(letters, u) && Earlier(u, w) :: After(m, letters, start, u) != After(m, letters, start, w)
  }

  ghost predicate ListedBefore(words: seq<seq<nat>>, k: nat, u: seq<nat>)
    requires k <= |words|
  {
    exists j {:trigger words[j]} :: 0 <= j < k && words[j] == u
  }

  /** The first so many paths, in order, that lead somewhere new: one for each node. */
  ghost predicate FirstOnes(m: Automaton, letters: seq<nat>, start: Node, words: seq<seq<nat>>)
    requires AreLetters(m, letters)
  {
    && InOrder(words)
    && (forall k {:trigger words[k]} | 0 <= k < |words| :: IsFirstTo(m, letters, start, words[k]))
    && (forall k, u {:trigger ListedBefore(words, k, u)} |
          0 <= k < |words| && IsFirstTo(m, letters, start, u) && Earlier(u, words[k]) :: ListedBefore(words, k, u))
  }

  /** The first few of the first ones. */
  lemma FirstOnesPrefix(m: Automaton, letters: seq<nat>, start: Node, words: seq<seq<nat>>, n: nat)
    requires AreLetters(m, letters) && FirstOnes(m, letters, start, words) && n <= |words|
    ensures FirstOnes(m, letters, start, words[..n])
  {
    var few := words[..n];
    forall j, k | 0 <= j < k < n ensures EarlierAt(few, j, k) {
      assert EarlierAt(words, j, k);
    }
    forall k, u | 0 <= k < n && IsFirstTo(m, letters, start, u) && Earlier(u, few[k]) ensures ListedBefore(few, k, u) {
      assert ListedBefore(words, k, u);
      var j :| 0 <= j < k && words[j] == u;
      assert few[j] == u;
    }
  }

  /** The first so many are determined. */
  lemma {:induction false} FirstOnesAgree(m: Automaton, letters: seq<nat>, start: Node, words: seq<seq<nat>>,
                                          others: seq<seq<nat>>, n: nat)
    requires AreLetters(m, letters) && n <= |words| && n <= |others|
    requires FirstOnes(m, letters, start, words) && FirstOnes(m, letters, start, others)
    ensures words[..n] == others[..n]
    decreases n
  {
    if n > 0 {
      var k := n - 1;
      FirstOnesAgree(m, letters, start, words, others, k);
      NotEarlier(m, letters, start, words, others, k);
      NotEarlier(m, letters, start, others, words, k);
      EarlierTotal(words[k], others[k]);
      assert words[..n] == words[..k] + [words[k]] && others[..n] == others[..k] + [others[k]];
    }
  }

  lemma NotEarlier(m: Automaton, letters: seq<nat>, start: Node, words: seq<seq<nat>>, others: seq<seq<nat>>, k: nat)
    requires AreLetters(m, letters) && k < |words| && k < |others| && words[..k] == others[..k]
    requires FirstOnes(m, letters, start, words) && FirstOnes(m, letters, start, others)
    ensures !Earlier(words[k], others[k])
  {
    if Earlier(words[k], others[k]) {
      assert ListedBefore(others, k, words[k]);
      var j :| 0 <= j < k && others[j] == words[k];
      assert words[j] == words[..k][j] == others[..k][j];
      assert EarlierAt(words, j, k);
      EarlierIsStrict(words[k]);
    }
  }

  lemma EmptyIsEarlier(w: seq<nat>)
    ensures w != [] ==> Earlier([], w)
  {
  }

  /** The list starts with the empty path. */
  lemma FirstIsEmpty(m: Automaton, letters: seq<nat>, start: Node, words: seq<seq<nat>>)
    requires AreLetters(m, letters) && FirstOnes(m, letters, start, words) && words != []
    ensures words[0] == []
  {
    assert IsFirstTo(m, letters, start, []);
    assert !ListedBefore(words, 0, []);
    EmptyIsEarlier(words[0]);
  }

  /** The shortest such list has the empty path alone. */
  lemma EmptyIsFirst(m: Automaton, letters: seq<nat>, start: Node, words: seq<seq<nat>>)
    requires AreLetters(m, letters) && words == [[]]
    ensures FirstOnes(m, letters, start, words)
  {
    assert forall u: seq<nat> :: !Earlier(u, []);
    assert IsFirstTo(m, letters, start, []);
  }

  /** The paths listed lead to different nodes. */
  lemma FirstOnesDiffer(m: Automaton, letters: seq<nat>, start: Node, words: seq<seq<nat>>, i: nat, j: nat)
    requires AreLetters(m, letters) && FirstOnes(m, letters, start, words) && i < j < |words|
    ensures IsPath(letters, words[i]) && IsPath(letters, words[j])
    ensures After(m, letters, start, words[i]) != After(m, letters, start, words[j])
  {
    assert EarlierAt(words, i, j);
    assert IsFirstTo(m, letters, start, words[i]) && IsFirstTo(m, letters, start, words[j]);
  }

  // ---------- A search in progress ----------

  /** No entry was reached by a path that leads where an earlier path leads. */
  lemma EntryIsFirst(m: Automaton, letters: seq<nat>, start: Node, goal: Goal, v: View, k: nat)
    requires Searching(m, letters, start, goal, v) && k < |v.visits|
    ensures IsFirstTo(m, letters, start, v.words[k])
  {
    WordLeadsToNode(m, letters, start, goal, v.visits, v.words, v.head, k);
    forall u | IsPath(letters, u) && Earlier(u, v.words[k])
      ensures After(m, letters, start, u) != After(m, letters, start, v.words[k])
    {
      var j := MetBefore(m, letters, start, goal, v, u, k);
      if v.visits[j].node == v.visits[k].node {
        assert j == k;
        if v.words[k] != u {
          EarlierTrans(u, v.words[k], u);
        }
        EarlierIsStrict(u);
      }
    }
  }

  lemma MetBefore(m: Automaton, letters: seq<nat>, start: Node, goal: Goal, v: View, u: seq<nat>, k: nat)
    returns (j: nat)
    requires Searching(m, letters, start, goal, v) && k < |v.visits| && IsPath(letters, u)
    requires Earlier(u, v.words[k])
    ensures Holds(m, letters, start, v, u, j)
  {
    if v.head < |v.visits| {
      EarlierTrans(u, v.words[k], v.words[v.head] + [v.letter]);
    }
    j := EarlierIsMet(m, letters, start, goal, v, u);
  }

  /** The paths to the entries of a queue are the first ones that lead somewhere new. */
  lemma QueueIsFirstOnes(m: Automaton, letters: seq<nat>, start: Node, goal: Goal, v: View)
    requires Searching(m, letters, start, goal, v)
    ensures FirstOnes(m, letters, start, v.words)
  {
    forall k | 0 <= k < |v.words| ensures IsFirstTo(m, letters, start, v.words[k]) {
      EntryIsFirst(m, letters, start, goal, v, k);
    }
    forall k, u | 0 <= k < |v.words| && IsFirstTo(m, letters, start, u) && Earlier(u, v.words[k])
      ensures ListedBefore(v.words, k, u)
    {
      var j := MetBefore(m, letters, start, goal, v, u, k);
      FirstIsListed(m, letters, start, goal, v, u, j);
      if k < j {
        assert EarlierAt(v.words, k, j);
        EarlierTrans(u, v.words[k], u);
        EarlierIsStrict(u);
      } else if k == j {
        EarlierIsStrict(u);
      }
    }
  }

  /** The entry of the node a first path leads to was reached by that path. */
  lemma FirstIsListed(m: Automaton, letters: seq<nat>, start: Node, goal: Goal, v: View, u: seq<nat>, j: nat)
    requires Searching(m, letters, start, goal, v) && IsFirstTo(m, letters, start, u)
    requires Holds(m, letters, start, v, u, j)
    ensures v.words[j] == u
  {
    WordLeadsToNode(m, letters, start, goal, v.visits, v.words, v.head, j);
  }

  /** No path before the one about to be tried meets the goal. */
  lemma NoneMetSoFar(m: Automaton, letters: seq<nat>, start: Node, goal: Goal, v: View, u: seq<nat>)
    requires Searching(m, letters, start, goal, v) && IsPath(letters, u)
    requires v.head < |v.visits| ==> Earlier(u, v.words[v.head] + [v.letter])
    ensures !Done(m, goal, After(m, letters, start, u))
  {
    var k := EarlierIsMet(m, letters, start, goal, v, u);
    assert Linked(m, letters, start, v.visits, v.words, v.head, k);
  }
}
