/** Supports: sets of states an automaton may be in, and partitions of them by output. */
module Supports {
  import opened PairGraph
  import opened Pairs

  ghost predicate IsSupport(m: Automaton, s: set<nat>) { m.Valid() && s != {} && forall x | x in s :: x < m.states }

  /** sg_apply_action_set */
  ghost function Image(m: Automaton, s: set<nat>, a: nat): (t: set<nat>)
    requires m.Valid() && a < m.actions
    ensures IsSupport(m, s) ==> IsSupport(m, t)
    ensures forall x | x in s && x < m.states :: m.delta[x][a] in t
  {
    var t := set x | x in s && x < m.states :: m.delta[x][a];
    assert forall x | x in s && x < m.states :: m.delta[x][a] in t;
    t
  }

  /** The support after a word. */
  ghost function ImageOf(m: Automaton, s: set<nat>, w: seq<nat>): (t: set<nat>)
    requires m.Valid() && IsWord(m, w)
    ensures IsSupport(m, s) ==> IsSupport(m, t)
    decreases |w|
  {
    if w == [] then s else ImageOf(m, Image(m, s, w[0]), w[1..])
  }

  /** The support after a word is where the word takes the states of the support. */
  lemma {:induction false} ImageIsRun(m: Automaton, s: set<nat>, w: seq<nat>, y: nat)
    requires IsSupport(m, s) && IsWord(m, w)
    ensures y in ImageOf(m, s, w) <==> exists x :: x in s && Run(m, x, w) == y
    decreases |w|
  {
    if w != [] {
      var t := Image(m, s, w[0]);
      ImageIsRun(m, t, w[1..], y);
      if y in ImageOf(m, s, w) {
        var z :| z in t && Run(m, z, w[1..]) == y;
        var x :| x in s && m.delta[x][w[0]] == z;
        assert Run(m, x, w) == y;
      }
      if x :| x in s && Run(m, x, w) == y {
        assert m.delta[x][w[0]] in t;
      }
    } else {
      if y in s {
        assert Run(m, y, w) == y;
      }
    }
  }

  lemma {:induction false} ImageOfConcat(m: Automaton, s: set<nat>, w: seq<nat>, v: seq<nat>)
    requires m.Valid() && IsWord(m, w) && IsWord(m, v)
    ensures IsWord(m, w + v)
    ensures ImageOf(m, s, w + v) == ImageOf(m, ImageOf(m, s, w), v)
    decreases |w|
  {
    if w != [] {
      ImageOfConcat(m, Image(m, s, w[0]), w[1..], v);
      assert (w + v)[1..] == w[1..] + v;
    } else {
      assert w + v == v;
    }
  }

  /** A support never grows. */
  lemma {:induction false} ImageShrinks(m: Automaton, s: set<nat>, a: nat)
    requires IsSupport(m, s) && a < m.actions
    ensures |Image(m, s, a)| <= |s|
    decreases |s|
  {
    var x :| x in s;
    var rest := s - {x};
    if rest == {} {
      assert s == {x};
      assert Image(m, s, a) == {m.delta[x][a]};
    } else {
      ImageShrinks(m, rest, a);
      assert Image(m, s, a) == Image(m, rest, a) + {m.delta[x][a]};
    }
  }

  lemma {:induction false} ImageOfShrinks(m: Automaton, s: set<nat>, w: seq<nat>)
    requires IsSupport(m, s) && IsWord(m, w)
    ensures |ImageOf(m, s, w)| <= |s|
    decreases |w|
  {
    if w != [] {
      ImageShrinks(m, s, w[0]);
      ImageOfShrinks(m, Image(m, s, w[0]), w[1..]);
    }
  }

  /** A word that brings two states of a support together makes it strictly smaller. */
  lemma {:induction false} MergingShrinks(m: Automaton, s: set<nat>, i: nat, j: nat, w: seq<nat>)
    requires IsSupport(m, s) && IsWord(m, w) && i in s && j in s && i != j && Run(m, i, w) == Run(m, j, w)
    ensures |ImageOf(m, s, w)| < |s|
  {
    var rest := s - {j};
    assert i in rest;
    ImageOfShrinks(m, rest, w);
    forall y ensures y in ImageOf(m, s, w) <==> y in ImageOf(m, rest, w) {
      ImageIsRun(m, s, w, y);
      ImageIsRun(m, rest, w, y);
      if x :| x in s && Run(m, x, w) == y {
        assert (if x == j then i else x) in rest;
      }
    }
    assert ImageOf(m, s, w) == ImageOf(m, rest, w);
  }

  // ---------- Partitions by output ----------

  /** sg_apply_observed_action_set: the states of a support that answer the action
      with the output, moved by the action. */
  ghost function Group(m: Automaton, s: set<nat>, a: nat, o: nat): (t: set<nat>)
    requires m.Valid() && a < m.actions
  {
    set x | x in s && x < m.states && m.eta[x][a] == o :: m.delta[x][a]
  }

  /** The branch supports after an action: every non-empty group of every branch. */
  ghost function Refined(m: Automaton, parts: set<set<nat>>, a: nat): (r: set<set<nat>>)
    requires m.Valid() && a < m.actions
  {
    set s, o | s in parts && o in Upto(m.outputs) && Group(m, s, a, o) != {} :: Group(m, s, a, o)
  }
}
