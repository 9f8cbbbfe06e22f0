/** Automata, the numbering of unordered state pairs, and the pair graph of an automaton. */
module Pairs {
  import opened Records
  import opened PairGraph

  /** A complete deterministic automaton with an output on every transition. */
  datatype Automaton = Automaton(states: nat, actions: nat, outputs: nat,
                                 delta: seq<seq<nat>>, eta: seq<seq<nat>>) {

    ghost predicate Valid() {
      && 0 < states && 0 < actions < NONE
      && |delta| == |eta| == states
      && (forall s | 0 <= s < states :: |delta[s]| == |eta[s]| == actions)
      && (forall s, a | 0 <= s < states && 0 <= a < actions :: delta[s][a] < states && eta[s][a] < outputs)
    }
  }

  // ---------- Pair numbers ----------

  /** The product that guards the number of pairs is computed without overflow. */
  predicate Countable(n: nat) { n < SIZE_MAX && n * (n + 1) <= SIZE_MAX }

  /** The number of pairs.  The product is some steps away, so that only PairCountIs
      brings it into a proof. */
  function PairCount(n: nat): nat { Half(n, DEPTH + 1) }

  function Half(n: nat, steps: nat): nat { if steps > 0 then Half(n, steps - 1) else n * (n + 1) / 2 }

  lemma PairCountIs(n: nat)
    ensures PairCount(n) == n * (n + 1) / 2
  {
    var k: nat := DEPTH + 1;
    while k > 0
      invariant Half(n, DEPTH + 1) == Half(n, k)
    {
      k := k - 1;
    }
  }

  /** sg_pair_index: rows of the upper triangle, one after the other.  The formula is
      some steps away, so that only PairIndexIs brings it into a proof. */
  function PairIndex(n: nat, i: nat, j: nat): (k: nat)
    requires i < n && j < n
  {
    IndexIn(n, if i > j then j else i, if i > j then i else j, DEPTH + 1)
  }

  function IndexIn(n: nat, first: nat, second: nat, steps: nat): (k: nat)
    requires first < n && second < n
    decreases steps
  {
    if steps > 0 then IndexIn(n, first, second, steps - 1)
    else
      RowIsIndex(n, first);
      first * n - first * (first + 1) / 2 + second
  }

  lemma PairIndexIs(n: nat, i: nat, j: nat)
    requires i <= j < n
    ensures i * n - i * (i + 1) / 2 >= 0
    ensures PairIndex(n, i, j) == PairIndex(n, j, i) == i * n - i * (i + 1) / 2 + j
  {
    RowIsIndex(n, i);
    var k: nat := DEPTH + 1;
    while k > 0
      invariant IndexIn(n, i, j, DEPTH + 1) == IndexIn(n, i, j, k)
    {
      k := k - 1;
    }
  }

  /** Where row i of the triangle starts. */
  ghost function Row(n: nat, i: nat): nat
    requires i <= n
  {
    if i == 0 then 0 else Row(n, i - 1) + (n - (i - 1))
  }

  lemma {:induction false} Triangle(i: nat)
    ensures (i + 1) * (i + 2) / 2 == i * (i + 1) / 2 + i + 1
  {
    assert (i + 1) * (i + 2) == i * (i + 1) + 2 * (i + 1);
  }

  lemma {:induction false} RowIsIndex(n: nat, i: nat)
    requires i <= n
    ensures i * n - i * (i + 1) / 2 + i == Row(n, i)
    ensures i * n - i * (i + 1) / 2 >= 0
    decreases i
  {
    if i > 0 {
      RowIsIndex(n, i - 1);
      Triangle(i - 1);
      assert i * n == (i - 1) * n + n;
      RowCovers(n, i);
    }
  }

  lemma {:induction false} RowCovers(n: nat, i: nat)
    requires i <= n
    ensures Row(n, i) >= i
  {
    if i > 0 {
      RowCovers(n, i - 1);
    }
  }

  lemma {:induction false} RowsAscend(n: nat, i: nat, k: nat)
    requires i < k <= n
    ensures Row(n, i) + (n - i) <= Row(n, k)
  {
    if i < k - 1 {
      RowsAscend(n, i, k - 1);
    }
  }

  lemma LastRow(n: nat)
    ensures Row(n, n) == PairCount(n)
  {
    RowIsIndex(n, n);
    PairCountIs(n);
    assert n * (n + 1) == 2 * (n * n) - n * (n + 1) + 2 * n;
    Even(n);
  }

  lemma {:induction false} Even(n: nat)
    ensures n * (n + 1) % 2 == 0
  {
    if n > 0 {
      Even(n - 1);
      assert n * (n + 1) == (n - 1) * n + 2 * n;
    }
  }

  lemma IndexInRow(n: nat, i: nat, j: nat)
    requires i <= j < n
    ensures PairIndex(n, i, j) == PairIndex(n, j, i) == Row(n, i) + (j - i) < PairCount(n)
  {
    PairIndexIs(n, i, j);
    RowIsIndex(n, i);
    RowsAscend(n, i, n);
    LastRow(n);
  }

  lemma IndexInRange(n: nat, i: nat, j: nat)
    requires i < n && j < n
    ensures PairIndex(n, i, j) < PairCount(n)
    ensures PairIndex(n, i, j) == PairIndex(n, j, i)
  {
    if i <= j { IndexInRow(n, i, j); } else { IndexInRow(n, j, i); }
  }

  /** The numbering keeps the lexicographic order of i <= j, so it is injective. */
  lemma IndexKeepsOrder(n: nat, i: nat, j: nat, k: nat, l: nat)
    requires i <= j < n && k <= l < n
    ensures PairIndex(n, i, j) < PairIndex(n, k, l) <==> i < k || (i == k && j < l)
  {
    IndexInRow(n, i, j);
    IndexInRow(n, k, l);
    if i < k { RowsAscend(n, i, k); }
    if k < i { RowsAscend(n, k, i); }
  }

  lemma ProductGrows(a: nat, b: nat, c: nat, d: nat)
    requires a <= c && b <= d
    ensures a * b <= c * d
  {
    assert a * b <= c * b by { assert (c - a) * b >= 0; }
    assert c * b <= c * d by { assert c * (d - b) >= 0; }
  }

  /** No product or difference in the formula leaves the range of a size_t. */
  lemma IndexDoesNotOverflow(n: nat, i: nat, j: nat)
    requires Countable(n) && i <= j < n
    ensures i * n <= SIZE_MAX && i * (i + 1) <= SIZE_MAX
    ensures i * (i + 1) / 2 <= i * n
    ensures PairIndex(n, i, j) <= SIZE_MAX
  {
    assert i * n <= SIZE_MAX by {
      ProductGrows(i, n, n, n + 1);
    }
    assert i * (i + 1) <= SIZE_MAX by {
      ProductGrows(i, i + 1, n, n + 1);
    }
    assert i * (i + 1) / 2 <= i * n by {
      ProductGrows(i, i + 1, i, n);
      HalfIsLess(i * (i + 1));
    }
    assert PairIndex(n, i, j) <= SIZE_MAX by {
      IndexInRow(n, i, j);
      PairCountIs(n);
      HalfIsLess(n * (n + 1));
    }
  }

  lemma HalfIsLess(x: nat)
    ensures x / 2 <= x
  {
  }

  ghost predicate Names(n: nat, p: nat, i: nat, j: nat) {
    i <= j < n && PairIndex(n, i, j) == p
  }

  /** Every number below the pair count names a pair. */
  lemma {:induction false} IndexIsOnto(n: nat, p: nat, k: nat)
    requires k <= n && p < Row(n, k)
    ensures exists i, j :: Names(n, p, i, j)
    decreases k
  {
    if p >= Row(n, k - 1) {
      IndexInRow(n, k - 1, k - 1 + (p - Row(n, k - 1)));
      assert Names(n, p, k - 1, k - 1 + (p - Row(n, k - 1)));
    } else {
      IndexIsOnto(n, p, k - 1);
    }
  }

  lemma NamesIsUnique(n: nat, p: nat, i: nat, j: nat, k: nat, l: nat)
    requires Names(n, p, i, j) && Names(n, p, k, l)
    ensures i == k && j == l
  {
    IndexKeepsOrder(n, i, j, k, l);
    IndexKeepsOrder(n, k, l, i, j);
  }

  /** The two states of pair p, lower first. */
  ghost function States(n: nat, p: nat): (s: (nat, nat))
    requires p < PairCount(n)
    ensures Names(n, p, s.0, s.1)
  {
    LastRow(n);
    IndexIsOnto(n, p, n);
    var i, j :| Names(n, p, i, j);
    (i, j)
  }

  lemma StatesOfIndex(n: nat, i: nat, j: nat)
    requires i <= j < n
    ensures PairIndex(n, i, j) < PairCount(n)
    ensures States(n, PairIndex(n, i, j)) == (i, j)
  {
    IndexInRow(n, i, j);
    var s := States(n, PairIndex(n, i, j));
    NamesIsUnique(n, PairIndex(n, i, j), i, j, s.0, s.1);
  }

  // ---------- The pair graph of an automaton ----------

  ghost function Target(m: Automaton, p: nat, a: nat): nat
    requires m.Valid() && p < PairCount(m.states) && a < m.actions
  {
    var (i, j) := States(m.states, p);
    PairIndex(m.states, m.delta[i][a], m.delta[j][a])
  }

  ghost predicate OutputsDiffer(m: Automaton, p: nat, a: nat)
    requires m.Valid() && p < PairCount(m.states) && a < m.actions
  {
    var (i, j) := States(m.states, p);
    m.eta[i][a] != m.eta[j][a]
  }

  ghost predicate SameState(m: Automaton, p: nat)
    requires m.Valid() && p < PairCount(m.states)
  {
    States(m.states, p).0 == States(m.states, p).1
  }

  /** Graph g is the pair graph of m for the objective.  Only an outputs-differ arc of
      the resolution objective ends. */
  ghost predicate IsPairGraph(m: Automaton, objective: Objective, g: Graph)
    requires m.Valid()
  {
    && g.Valid() && g.pairs == PairCount(m.states) && g.actions == m.actions
    && (forall p {:trigger SameState(m, p)} | 0 <= p < g.pairs :: g.diagonal[p] == SameState(m, p))
    && (forall p, a {:trigger Target(m, p, a)} | 0 <= p < g.pairs && 0 <= a < g.actions ::
          g.next[p][a] == Target(m, p, a))
    && (forall p, a {:trigger OutputsDiffer(m, p, a)} | 0 <= p < g.pairs && 0 <= a < g.actions ::
          g.ends[p][a] == (objective.Resolution? && OutputsDiffer(m, p, a)))
  }

  lemma PairGraphExists(m: Automaton, objective: Objective)
    requires m.Valid()
    ensures exists g :: IsPairGraph(m, objective, g)
  {
    var n := PairCount(m.states);
    forall p, a | 0 <= p < n && 0 <= a < m.actions ensures Target(m, p, a) < n {
      IndexInRange(m.states, m.delta[States(m.states, p).0][a], m.delta[States(m.states, p).1][a]);
    }
    var g := Graph(n, m.actions,
                   seq(n, p requires 0 <= p < n => SameState(m, p)),
                   seq(n, p requires 0 <= p < n => seq(m.actions, a requires 0 <= a < m.actions => Target(m, p, a))),
                   seq(n, p requires 0 <= p < n => seq(m.actions, a requires 0 <= a < m.actions =>
                     objective.Resolution? && OutputsDiffer(m, p, a))));
    assert IsPairGraph(m, objective, g);
  }

  ghost function PairGraphOf(m: Automaton, objective: Objective): (g: Graph)
    requires m.Valid()
    ensures IsPairGraph(m, objective, g)
  {
    PairGraphExists(m, objective);
    var g :| IsPairGraph(m, objective, g);
    g
  }

  // ---------- Words on the automaton ----------

  ghost predicate IsWord(m: Automaton, w: seq<nat>) { forall k | 0 <= k < |w| :: w[k] < m.actions }

  ghost function Run(m: Automaton, s: nat, w: seq<nat>): (t: nat)
    requires m.Valid() && s < m.states && IsWord(m, w)
    ensures t < m.states
    decreases |w|
  {
    if w == [] then s else Run(m, m.delta[s][w[0]], w[1..])
  }

  ghost function Trace(m: Automaton, s: nat, w: seq<nat>): (t: seq<nat>)
    requires m.Valid() && s < m.states && IsWord(m, w)
    ensures |t| == |w|
    decreases |w|
  {
    if w == [] then [] else [m.eta[s][w[0]]] + Trace(m, m.delta[s][w[0]], w[1..])
  }

  /** What the objective asks of a word: the two states end up as one or, for the
      resolution objective, the word tells them apart by their outputs. */
  ghost predicate Achieves(m: Automaton, objective: Objective, i: nat, j: nat, w: seq<nat>)
    requires m.Valid() && i < m.states && j < m.states && IsWord(m, w)
  {
    Run(m, i, w) == Run(m, j, w) || (objective.Resolution? && Trace(m, i, w) != Trace(m, j, w))
  }

  lemma {:induction false} SameRun(m: Automaton, i: nat, w: seq<nat>, objective: Objective)
    requires m.Valid() && i < m.states && IsWord(m, w)
    ensures Achieves(m, objective, i, i, w)
  {
  }

  lemma StatesSwapped(n: nat, i: nat, j: nat)
    requires i < n && j < n
    ensures PairIndex(n, i, j) < PairCount(n)
    ensures States(n, PairIndex(n, i, j)) == if i <= j then (i, j) else (j, i)
  {
    IndexInRange(n, i, j);
    if i <= j { StatesOfIndex(n, i, j); } else { StatesOfIndex(n, j, i); }
  }

  /** Walking the pair graph decides the objective on the automaton's own words. */
  lemma {:induction false} SolvesIsAchieves(m: Automaton, objective: Objective, i: nat, j: nat, w: seq<nat>)
    requires m.Valid() && i < m.states && j < m.states && IsWord(m, w)
    ensures Solves(PairGraphOf(m, objective), PairIndex(m.states, i, j), w) <==> Achieves(m, objective, i, j, w)
    decreases |w|
  {
    var g := PairGraphOf(m, objective);
    var p := PairIndex(m.states, i, j);
    StatesSwapped(m.states, i, j);
    assert g.diagonal[p] == SameState(m, p);
    if i == j {
      SameRun(m, i, w, objective);
    } else if w != [] {
      var a := w[0];
      IndexInRange(m.states, m.delta[i][a], m.delta[j][a]);
      var target, differ := Target(m, p, a), OutputsDiffer(m, p, a);
      assert target == PairIndex(m.states, m.delta[i][a], m.delta[j][a]);
      assert g.next[p][a] == target && g.ends[p][a] == (objective.Resolution? && differ);
      SolvesIsAchieves(m, objective, m.delta[i][a], m.delta[j][a], w[1..]);
      var s, t := Trace(m, i, w), Trace(m, j, w);
      assert s[0] == m.eta[i][a] && s[1..] == Trace(m, m.delta[i][a], w[1..]);
      assert t[0] == m.eta[j][a] && t[1..] == Trace(m, m.delta[j][a], w[1..]);
    }
  }
}
