/** Planning over a list of permitted letters: pair words are searched for, not read. */
module Restricted {
  import opened Records
  import opened PairGraph
  import opened Pairs
  import opened WordSearch
  import opened SupportSearch
  import opened Planner
  import opened Witnesses
  import opened Restore

  // ---------- The first merging word of a pair ----------

  ghost predicate IsMergeWord(m: Automaton, letters: seq<nat>, p: nat, word: seq<nat>)
    requires AreLetters(m, letters)
  {
    Won(m, letters, Pair(p), Merged, word)
  }

  lemma MergeWordIsUnique(m: Automaton, letters: seq<nat>, p: nat, w: seq<nat>, v: seq<nat>)
    requires AreLetters(m, letters) && IsMergeWord(m, letters, p, w) && IsMergeWord(m, letters, p, v)
    ensures w == v
  {
    var x :| Spells(letters, x, w) && IsFirst(m, letters, Pair(p), Merged, x);
    var y :| Spells(letters, y, v) && IsFirst(m, letters, Pair(p), Merged, y);
    FirstIsUnique(m, letters, Pair(p), Merged, x, y);
  }

  ghost function MergeWord(m: Automaton, letters: seq<nat>, p: nat): (w: seq<nat>)
    requires AreLetters(m, letters) && exists w :: IsMergeWord(m, letters, p, w)
    ensures IsMergeWord(m, letters, p, w)
  {
    var w :| IsMergeWord(m, letters, p, w);
    w
  }

  /** The first merging words over the letters, of all pairs that have one. */
  ghost function FirstWords(m: Automaton, letters: seq<nat>): (words: Words)
    requires AreLetters(m, letters)
    ensures forall p: nat {:trigger p in words} :: p in words <==> p < PairCount(m.states) && exists w ::
            IsMergeWord(m, letters, p, w)
    ensures forall p: nat {:trigger words[p]} | p in words :: IsMergeWord(m, letters, p, words[p])
  {
    map p | p in Upto(PairCount(m.states)) && exists w :: IsMergeWord(m, letters, p, w) :: MergeWord(m, letters, p)
  }

  /** Moving a pair by a path moves its two states. */
  lemma {:induction false} AfterIsRun(m: Automaton, letters: seq<nat>, i: nat, j: nat, w: seq<nat>)
    requires AreLetters(m, letters) && IsPath(letters, w) && i < m.states && j < m.states
    ensures IsWord(m, Spell(letters, w))
    ensures After(m, letters, Pair(PairIndex(m.states, i, j)), w)
         == Pair(PairIndex(m.states, Run(m, i, Spell(letters, w)), Run(m, j, Spell(letters, w))))
    decreases |w|
  {
    if w != [] {
      var u, q := w[..|w| - 1], w[|w| - 1];
      var word := Spell(letters, u);
      AfterIsRun(m, letters, i, j, u);
      SpellSplit(letters, u, q);
      assert u + [q] == w;
      PairWords.RunAppend(m, i, word, letters[q]);
      PairWords.RunAppend(m, j, word, letters[q]);
      StatesSwapped(m.states, Run(m, i, word), Run(m, j, word));
      IndexInRange(m.states, m.delta[Run(m, i, word)][letters[q]], m.delta[Run(m, j, word)][letters[q]]);
    } else {
      IndexInRange(m.states, i, j);
      assert Spell(letters, w) == [];
    }
  }

  lemma DoneIsMerged(m: Automaton, i: nat, j: nat)
    requires m.Valid() && i < m.states && j < m.states
    ensures Done(m, Merged, Pair(PairIndex(m.states, i, j))) <==> i == j
  {
    StatesSwapped(m.states, i, j);
  }

  lemma FirstWordsMerge(m: Automaton, letters: seq<nat>)
    requires AreLetters(m, letters)
    ensures Merging(m, FirstWords(m, letters))
  {
    var words := FirstWords(m, letters);
    MergingIs(m, words);
    forall p | p in words
      ensures IsWord(m, words[p]) && Run(m, States(m.states, p).0, words[p]) == Run(m, States(m.states, p).1, words[p])
    {
      var (i, j) := States(m.states, p);
      var w :| Spells(letters, w, words[p]) && IsFirst(m, letters, Pair(p), Merged, w);
      AfterIsRun(m, letters, i, j, w);
      DoneIsMerged(m, Run(m, i, words[p]), Run(m, j, words[p]));
    }
  }

  // ---------- The full alphabet spells the witness ----------

  lemma {:induction false} LexIsEarlier(w: seq<nat>, v: seq<nat>)
    requires LexAtMost(w, v) && w != v
    ensures Earlier(w, v)
    decreases |w|
  {
    if w[0] < v[0] {
      assert DiffersAt(w, v, 0);
    } else {
      LexIsEarlier(w[1..], v[1..]);
      var k :| DiffersAt(w[1..], v[1..], k);
      assert w[..k + 1] == [w[0]] + w[1..][..k] && v[..k + 1] == [v[0]] + v[1..][..k];
      assert DiffersAt(w, v, k + 1);
    }
  }

  /** The word that exact records spell for a pair is the first merging word over all
      letters in the order of their ids. */
  lemma WitnessIsMergeWord(m: Automaton, r: Entries, p: nat)
    requires m.Valid() && Consistent(PairGraphOf(m, Merge), r) && Addable(r)
    requires AllFollowable(PairGraphOf(m, Merge), r) && p < PairCount(m.states) && r[p].distance < NONE
    ensures IsMergeWord(m, AllLetters(m), p, Witness(PairGraphOf(m, Merge), r, p))
  {
    var g, letters, w := PairGraphOf(m, Merge), AllLetters(m), Witness(PairGraphOf(m, Merge), r, p);
    var (i, j) := States(m.states, p);
    WitnessIsWord(m, Merge, r, p);
    WitnessSolves(g, r, p);
    SolvesIsAchieves(m, Merge, i, j, w);
    AfterIsRun(m, letters, i, j, w);
    assert Spell(letters, w) == w;
    DoneIsMerged(m, Run(m, i, w), Run(m, j, w));
    forall u | IsPath(letters, u) && Earlier(u, w) ensures !Done(m, Merged, After(m, letters, Pair(p), u)) {
      assert Spell(letters, u) == u;
      AfterIsRun(m, letters, i, j, u);
      DoneIsMerged(m, Run(m, i, u), Run(m, j, u));
      if Run(m, i, u) == Run(m, j, u) {
        SolvesIsAchieves(m, Merge, i, j, u);
        ConsistentIsShortest(g, r, p);
        WitnessIsFirst(g, r, p, u);
        if w != u {
          LexIsEarlier(w, u);
          EarlierTrans(w, u, w);
        }
        EarlierIsStrict(w);
        assert false;
      }
    }
    assert Spells(letters, w, w);
  }

  /** A pair that the search finds a word for has one on record. */
  lemma SearchedIsOnRecord(m: Automaton, r: Entries, p: nat)
    requires m.Valid() && Consistent(PairGraphOf(m, Merge), r) && Addable(r) && p in FirstWords(m, AllLetters(m))
    ensures p < |r| && r[p].distance < NONE
  {
    var g, letters := PairGraphOf(m, Merge), AllLetters(m);
    var words := FirstWords(m, letters);
    var (i, j) := States(m.states, p);
    var w :| Spells(letters, w, words[p]) && IsFirst(m, letters, Pair(p), Merged, w);
    AfterIsRun(m, letters, i, j, w);
    DoneIsMerged(m, Run(m, i, words[p]), Run(m, j, words[p]));
    SolvesIsAchieves(m, Merge, i, j, words[p]);
    ConsistentIsShortest(g, r, p);
  }

  lemma SameWord(m: Automaton, r: Entries, p: nat)
    requires m.Valid() && Consistent(PairGraphOf(m, Merge), r) && Addable(r) && AllFollowable(PairGraphOf(m, Merge), r)
    ensures p in FirstWords(m, AllLetters(m)) <==> p in WitnessWords(m, r)
    ensures p in WitnessWords(m, r) ==> FirstWords(m, AllLetters(m))[p] == WitnessWords(m, r)[p]
  {
    if p in WitnessWords(m, r) {
      WitnessIsMergeWord(m, r, p);
      MergeWordIsUnique(m, AllLetters(m), p, FirstWords(m, AllLetters(m))[p], WitnessWords(m, r)[p]);
    }
    if p in FirstWords(m, AllLetters(m)) {
      SearchedIsOnRecord(m, r, p);
    }
  }

  /** Reading exact records and searching with all letters give the same words. */
  lemma SameWords(m: Automaton, r: Entries)
    requires m.Valid() && Consistent(PairGraphOf(m, Merge), r) && Addable(r) && AllFollowable(PairGraphOf(m, Merge), r)
    ensures FirstWords(m, AllLetters(m)) == WitnessWords(m, r)
  {
    var words, witnesses := FirstWords(m, AllLetters(m)), WitnessWords(m, r);
    forall p: nat ensures p in words <==> p in witnesses {
      SameWord(m, r, p);
    }
    forall p | p in words ensures words[p] == witnesses[p] {
      SameWord(m, r, p);
    }
  }
}
