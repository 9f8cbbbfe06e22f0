/** Trace partitions: what a support splits into when the outputs of a word are seen. */
module Traces {
  import opened Records
  import opened Pairs
  import opened Supports
  import opened WordSearch
  import PairWords

  // ---------- Branches ----------

  /** From state x the word gives the trace and leads to y. */
  ghost predicate Gives(m: Automaton, x: nat, w: seq<nat>, t: seq<nat>, y: nat)
    requires m.Valid() && IsWord(m, w)
  {
    x < m.states && Trace(m, x, w) == t && Run(m, x, w) == y
  }

  /** Where the word takes those states of the support that answer it with the trace. */
  ghost function Branch(m: Automaton, s: set<nat>, w: seq<nat>, t: seq<nat>): (b: set<nat>)
    requires m.Valid() && IsWord(m, w)
    ensures forall y: nat {:trigger y in b} :: y in b <==> exists x {:trigger Gives(m, x, w, t, y)} ::
            x in s && Gives(m, x, w, t, y)
  {
    var b := set x | x in s && x < m.states && Trace(m, x, w) == t :: Run(m, x, w);
    forall y: nat ensures y in b <==> exists x {:trigger Gives(m, x, w, t, y)} :: x in s && Gives(m, x, w, t, y) {
      if x :| x in s && Gives(m, x, w, t, y) {
        assert Run(m, x, w) in b;
      }
      if y in b {
        var x :| x in s && x < m.states && Trace(m, x, w) == t && Run(m, x, w) == y;
        assert Gives(m, x, w, t, y);
      }
    }
    b
  }

  lemma BranchStarts(m: Automaton, s: set<nat>)
    requires IsSupport(m, s)
    ensures Branch(m, s, [], []) == s
  {
    forall y: nat ensures y in Branch(m, s, [], []) <==> y in s {
      if y in s {
        assert Gives(m, y, [], [], y);
      }
    }
  }

  /** One more action and output: the group of the branch. */
  lemma BranchNext(m: Automaton, s: set<nat>, w: seq<nat>, t: seq<nat>, a: nat, o: nat)
    requires m.Valid() && IsWord(m, w) && a < m.actions
    ensures IsWord(m, w + [a])
    ensures Branch(m, s, w + [a], t + [o]) == Group(m, Branch(m, s, w, t), a, o)
  {
    var b, g := Branch(m, s, w, t), Group(m, Branch(m, s, w, t), a, o);
    forall y: nat ensures y in Branch(m, s, w + [a], t + [o]) <==> y in g {
      if y in g {
        var z :| z in b && z < m.states && m.eta[z][a] == o && m.delta[z][a] == y;
        var x :| x in s && Gives(m, x, w, t, z);
        PairWords.RunAppend(m, x, w, a);
        assert Gives(m, x, w + [a], t + [o], y);
      }
      if x :| x in s && Gives(m, x, w + [a], t + [o], y) {
        PairWords.RunAppend(m, x, w, a);
        assert (t + [o])[..|t|] == t && (t + [o])[|t|] == o;
        assert (Trace(m, x, w) + [m.eta[Run(m, x, w)][a]])[..|w|] == Trace(m, x, w);
        assert |t| == |w|;
        assert Gives(m, x, w, t, Run(m, x, w));
      }
    }
  }

  /** All branches together are the support after the word. */
  lemma BranchesCoverImage(m: Automaton, s: set<nat>, w: seq<nat>, y: nat)
    requires IsSupport(m, s) && IsWord(m, w)
    ensures y in ImageOf(m, s, w) <==> exists t :: y in Branch(m, s, w, t)
  {
    ImageIsRun(m, s, w, y);
    if x :| x in s && Run(m, x, w) == y {
      assert Gives(m, x, w, Trace(m, x, w), y);
      assert y in Branch(m, s, w, Trace(m, x, w));
    }
    if t :| y in Branch(m, s, w, t) {
      var x :| x in s && Gives(m, x, w, t, y);
    }
  }

  /** No branch has two states if and only if the word is homing for the support: states
      that it leaves apart are told apart on the way. */
  lemma SingleBranchesAreHoming(m: Automaton, s: set<nat>, w: seq<nat>)
    requires IsSupport(m, s) && IsWord(m, w)
    ensures (forall t, y, z | y in Branch(m, s, w, t) && z in Branch(m, s, w, t) :: y == z)
       <==> forall i, j | i in s && j in s :: Achieves(m, Resolution, i, j, w)
  {
    if forall t, y, z | y in Branch(m, s, w, t) && z in Branch(m, s, w, t) :: y == z {
      forall i, j | i in s && j in s ensures Achieves(m, Resolution, i, j, w) {
        assert Gives(m, i, w, Trace(m, i, w), Run(m, i, w));
        assert Gives(m, j, w, Trace(m, j, w), Run(m, j, w));
        assert Run(m, i, w) in Branch(m, s, w, Trace(m, i, w));
        assert Run(m, j, w) in Branch(m, s, w, Trace(m, j, w));
      }
    }
    if forall i, j | i in s && j in s :: Achieves(m, Resolution, i, j, w) {
      forall t, y, z | y in Branch(m, s, w, t) && z in Branch(m, s, w, t) ensures y == z {
        var i :| i in s && Gives(m, i, w, t, y);
        var j :| j in s && Gives(m, j, w, t, z);
        assert Achieves(m, Resolution, i, j, w);
      }
    }
  }

  // ---------- Groups of one support ----------

  ghost function Below(support: set<nat>, k: nat): set<nat> { set x | x in support && x < k }

  /** The first loop of sg_trace_partition_apply_action and of
      sg_support_partition_apply_action: one group for each output. */
  method SplitByOutput(m: Automaton, support: set<nat>, action: nat) returns (groups: seq<set<nat>>, used: seq<bool>)
    requires m.Valid() && action < m.actions && forall x | x in support :: x < m.states
    ensures |groups| == |used| == m.outputs
    ensures forall o {:trigger groups[o]} {:trigger used[o]} | 0 <= o < m.outputs ::
              groups[o] == Group(m, support, action, o) && (used[o] <==> groups[o] != {})
  {
    groups, used := seq(m.outputs, _ => {}), seq(m.outputs, _ => false);
    for state := 0 to m.states
      invariant |groups| == |used| == m.outputs
      invariant forall o {:trigger groups[o]} {:trigger used[o]} | 0 <= o < m.outputs ::
                  groups[o] == Group(m, Below(support, state), action, o) && (used[o] <==> groups[o] != {})
    {
      GroupNext(m, support, state, action);
      if state in support {
        var output := m.eta[state][action];
        groups := groups[output := groups[output] + {m.delta[state][action]}];
        used := used[output := true];
      }
    }
    assert Below(support, m.states) == support;
  }

  lemma GroupNext(m: Automaton, support: set<nat>, state: nat, action: nat)
    requires m.Valid() && action < m.actions && state < m.states
    ensures forall o {:trigger Group(m, Below(support, state + 1), action, o)} ::
              Group(m, Below(support, state + 1), action, o)
              == Group(m, Below(support, state), action, o)
                 + (if state in support && o == m.eta[state][action] then {m.delta[state][action]} else {})
  {
    assert Below(support, state + 1) == Below(support, state) + (if state in support then {state} else {});
  }

  // ---------- Trace partitions ----------

  datatype TraceBranch = TraceBranch(support: set<nat>, trace: seq<nat>)

  ghost predicate IsBranch(m: Automaton, s: set<nat>, w: seq<nat>, b: TraceBranch)
    requires m.Valid() && IsWord(m, w)
  {
    |b.trace| == |w| && b.support == Branch(m, s, w, b.trace) && b.support != {}
  }

  ghost predicate EarlierTrace(branches: seq<TraceBranch>, i: nat, j: nat)
    requires i < |branches| && j < |branches|
  {
    Earlier(branches[i].trace, branches[j].trace)
  }

  ghost predicate HasTrace(branches: seq<TraceBranch>, t: seq<nat>) {
    exists k :: 0 <= k < |branches| && branches[k].trace == t
  }

  /** One branch for each trace that some state of the support gives, the traces in
      order, each branch with exactly the states those hypotheses have come to. */
  ghost predicate IsTracePartition(m: Automaton, s: set<nat>, w: seq<nat>, branches: seq<TraceBranch>) {
    && IsSupport(m, s) && IsWord(m, w)
    && (forall k {:trigger branches[k]} | 0 <= k < |branches| :: IsBranch(m, s, w, branches[k]))
    && (forall i, j {:trigger EarlierTrace(branches, i, j)} | 0 <= i < j < |branches| :: EarlierTrace(branches, i, j))
    && (forall t {:trigger HasTrace(branches, t)} | Branch(m, s, w, t) != {} :: HasTrace(branches, t))
  }

  lemma BranchIsSupport(m: Automaton, s: set<nat>, w: seq<nat>, t: seq<nat>)
    requires IsSupport(m, s) && IsWord(m, w)
    ensures forall y | y in Branch(m, s, w, t) :: y < m.states
    ensures Branch(m, s, w, t) != {} ==> |t| == |w|
  {
  }

  lemma PartitionStarts(m: Automaton, s: set<nat>)
    requires IsSupport(m, s)
    ensures IsTracePartition(m, s, [], [TraceBranch(s, [])])
  {
    BranchStarts(m, s);
    forall t | Branch(m, s, [], t) != {} ensures HasTrace([TraceBranch(s, [])], t) {
      BranchIsSupport(m, s, [], t);
      assert t == [];
      assert [TraceBranch(s, [])][0].trace == t;
    }
  }

  /** The branches after the action, for the source branches before k and for branch k
      the outputs before o. */
  ghost predicate RefinedUpto(m: Automaton, s: set<nat>, w: seq<nat>, a: nat, source: seq<TraceBranch>, k: nat, o: nat,
                              refined: seq<TraceBranch>)
    requires m.Valid() && IsWord(m, w) && a < m.actions && k <= |source|
  {
    && IsWord(m, w + [a])
    && (forall i {:trigger refined[i]} | 0 <= i < |refined| :: IsBranch(m, s, w + [a], refined[i]))
    && (forall i, j {:trigger EarlierTrace(refined, i, j)} | 0 <= i < j < |refined| :: EarlierTrace(refined, i, j))
    && (k < |source| ==> forall i {:trigger refined[i]} | 0 <= i < |refined| ::
        Earlier(refined[i].trace, source[k].trace + [o]))
    && (forall i, p {:trigger source[i].trace + [p]} | 0 <= i <= k && i < |source| && 0 <= p < m.outputs
        && (i == k ==> p < o)
                       && Branch(m, s, w + [a], source[i].trace + [p]) != {} ::
          HasTrace(refined, source[i].trace + [p]))
  }

  /** An output no hypothesis of the branch gives. */
  lemma OutputUnused(m: Automaton, s: set<nat>, w: seq<nat>, a: nat, source: seq<TraceBranch>, k: nat, o: nat,
                     refined: seq<TraceBranch>)
    requires IsTracePartition(m, s, w, source) && a < m.actions && k < |source| && o < m.outputs
    requires RefinedUpto(m, s, w, a, source, k, o, refined) && Group(m, source[k].support, a, o) == {}
    ensures RefinedUpto(m, s, w, a, source, k, o + 1, refined)
  {
    var t := source[k].trace;
    BranchNext(m, s, w, t, a, o);
    forall i | 0 <= i < |refined| ensures Earlier(refined[i].trace, t + [o + 1]) {
      EarlierAppend(t, t, o, o + 1);
      EarlierTrans(refined[i].trace, t + [o], t + [o + 1]);
    }
  }

  lemma HasTraceAppend(branches: seq<TraceBranch>, b: TraceBranch, t: seq<nat>)
    ensures HasTrace(branches, t) || b.trace == t ==> HasTrace(branches + [b], t)
  {
    if k :| 0 <= k < |branches| && branches[k].trace == t {
      assert (branches + [b])[k].trace == t;
    }
    if b.trace == t {
      assert (branches + [b])[|branches|].trace == t;
    }
  }

  /** A new branch, its trace after all others. */
  lemma OutputUsed(m: Automaton, s: set<nat>, w: seq<nat>, a: nat, source: seq<TraceBranch>, k: nat, o: nat,
                   refined: seq<TraceBranch>)
    requires IsTracePartition(m, s, w, source) && a < m.actions && k < |source| && o < m.outputs
    requires RefinedUpto(m, s, w, a, source, k, o, refined) && Group(m, source[k].support, a, o) != {}
    ensures RefinedUpto(m, s, w, a, source, k, o + 1,
            refined + [TraceBranch(Group(m, source[k].support, a, o), source[k].trace + [o])])
  {
    var t, b := source[k].trace, TraceBranch(Group(m, source[k].support, a, o), source[k].trace + [o]);
    var more := refined + [b];
    BranchNext(m, s, w, t, a, o);
    assert IsBranch(m, s, w, source[k]);
    assert IsBranch(m, s, w + [a], b);
    EarlierAppend(t, t, o, o + 1);
    forall i | 0 <= i < |more| ensures Earlier(more[i].trace, t + [o + 1]) {
      if i < |refined| {
        EarlierTrans(refined[i].trace, t + [o], t + [o + 1]);
      }
    }
    forall i, j | 0 <= i < j < |more| ensures EarlierTrace(more, i, j) {
      if j < |refined| {
        assert EarlierTrace(refined, i, j);
      }
    }
    forall i, p | 0 <= i <= k && i < |source| && 0 <= p < m.outputs && (i == k ==> p < o + 1)
                  && Branch(m, s, w + [a], source[i].trace + [p]) != {}
      ensures HasTrace(more, source[i].trace + [p])
    {
      HasTraceAppend(refined, b, source[i].trace + [p]);
    }
  }

  /** All outputs of a branch done: on to the next branch. */
  lemma NextBranch(m: Automaton, s: set<nat>, w: seq<nat>, a: nat, source: seq<TraceBranch>, k: nat,
                   refined: seq<TraceBranch>)
    requires IsTracePartition(m, s, w, source) && a < m.actions && k < |source|
    requires RefinedUpto(m, s, w, a, source, k, m.outputs, refined)
    ensures RefinedUpto(m, s, w, a, source, k + 1, 0, refined)
  {
    if k + 1 < |source| {
      var t, u := source[k].trace, source[k + 1].trace;
      assert EarlierTrace(source, k, k + 1);
      EarlierAppend(t, u, m.outputs, 0);
      forall i | 0 <= i < |refined| ensures Earlier(refined[i].trace, u + [0]) {
        EarlierTrans(refined[i].trace, t + [m.outputs], u + [0]);
      }
    }
  }

  /** All branches done: every trace with a hypothesis has its branch. */
  lemma RefinedAll(m: Automaton, s: set<nat>, w: seq<nat>, a: nat, source: seq<TraceBranch>, refined: seq<TraceBranch>)
    requires IsTracePartition(m, s, w, source) && a < m.actions && RefinedUpto(m, s, w, a, source, |source|, 0, refined)
    ensures IsTracePartition(m, s, w + [a], refined)
  {
    forall t | Branch(m, s, w + [a], t) != {} ensures HasTrace(refined, t) {
      BranchIsSupport(m, s, w + [a], t);
      var u, o := t[..|w|], t[|w|];
      assert t == u + [o];
      BranchNext(m, s, w, u, a, o);
      var z :| z in Branch(m, s, w, u) && z < m.states && m.eta[z][a] == o;
      assert HasTrace(source, u);
      var i :| 0 <= i < |source| && source[i].trace == u;
      assert HasTrace(refined, source[i].trace + [o]);
    }
  }

  /** sg_trace_partition_apply_action */
  method RefineTraces(m: Automaton, source: seq<TraceBranch>, action: nat, ghost s: set<nat>, ghost w: seq<nat>)
    returns (refined: seq<TraceBranch>)
    requires IsTracePartition(m, s, w, source) && action < m.actions
    ensures IsWord(m, w + [action]) && IsTracePartition(m, s, w + [action], refined)
  {
    refined := [];
    for k := 0 to |source|
      invariant RefinedUpto(m, s, w, action, source, k, 0, refined)
    {
      assert IsBranch(m, s, w, source[k]);
      BranchIsSupport(m, s, w, source[k].trace);
      var groups, used := SplitByOutput(m, source[k].support, action);
      for output := 0 to m.outputs
        invariant RefinedUpto(m, s, w, action, source, k, output, refined)
      {
        if used[output] {
          OutputUsed(m, s, w, action, source, k, output, refined);
          refined := refined + [TraceBranch(groups[output], source[k].trace + [output])];
        } else {
          OutputUnused(m, s, w, action, source, k, output, refined);
        }
      }
      NextBranch(m, s, w, action, source, k, refined);
    }
    RefinedAll(m, s, w, action, source, refined);
  }

  /** sg_trace_partition_init and sg_trace_partition_apply_word */
  method TracePartition(m: Automaton, s: set<nat>, word: seq<nat>) returns (branches: seq<TraceBranch>)
    requires IsSupport(m, s) && IsWord(m, word)
    ensures IsTracePartition(m, s, word, branches)
  {
    branches := [TraceBranch(s, [])];
    PartitionStarts(m, s);
    for k := 0 to |word|
      invariant IsTracePartition(m, s, word[..k], branches)
    {
      branches := RefineTraces(m, branches, word[k], s, word[..k]);
      assert word[..k + 1] == word[..k] + [word[k]];
    }
    assert word[..|word|] == word;
  }

  /** The largest branch, as sg_trace_metrics finds it. */
  method WorstBranch(branches: seq<TraceBranch>) returns (worst: nat)
    ensures forall k | 0 <= k < |branches| :: |branches[k].support| <= worst
    ensures worst == 0 || exists k :: 0 <= k < |branches| && |branches[k].support| == worst
  {
    worst := 0;
    for k := 0 to |branches|
      invariant forall i | 0 <= i < k :: |branches[i].support| <= worst
      invariant worst == 0 || exists i :: 0 <= i < k && |branches[i].support| == worst
    {
      if |branches[k].support| > worst {
        worst := |branches[k].support|;
      }
    }
  }
}
