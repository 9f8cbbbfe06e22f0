/** Reverse columns: for every action and target, the set of source states, as
    64-bit words.  A word is modelled by the set of its bits that are one. */
module Columns {
  import opened Pairs

  const WORD_BITS: nat := 64

  type Words = seq<set<nat>>

  function WordsPerColumn(n: nat): nat { n / WORD_BITS + (if n % WORD_BITS != 0 then 1 else 0) }

  /** sg_reverse_offset */
  function Offset(n: nat, action: nat, target: nat, state: nat): nat {
    (action * n + target) * WordsPerColumn(n) + state / WORD_BITS
  }

  function Has(n: nat, columns: Words, action: nat, target: nat, state: nat): bool {
    var offset := Offset(n, action, target, state);
    offset < |columns| && state % WORD_BITS in columns[offset]
  }

  /** sg_reverse_set */
  function With(n: nat, columns: Words, action: nat, target: nat, state: nat, present: bool): (w: Words)
    requires Offset(n, action, target, state) < |columns|
    ensures |w| == |columns|
  {
    var offset := Offset(n, action, target, state);
    var bit := {state % WORD_BITS};
    columns[offset := if present then columns[offset] + bit else columns[offset] - bit]
  }

  ghost function ColumnsSize(n: nat, actions: nat): nat { actions * n * WordsPerColumn(n) }

  // ---------- Where a bit lives ----------

  lemma OneMoreRow(width: nat, x: nat)
    ensures (x + 1) * width == x * width + width
  {
  }

  lemma SameWordSameBit(s: nat, v: nat)
    requires s / WORD_BITS == v / WORD_BITS && s % WORD_BITS == v % WORD_BITS
    ensures s == v
  {
    assert s == s / WORD_BITS * WORD_BITS + s % WORD_BITS;
    assert v == v / WORD_BITS * WORD_BITS + v % WORD_BITS;
  }

  lemma WordInColumn(n: nat, s: nat)
    requires s < n
    ensures s / WORD_BITS < WordsPerColumn(n)
  {
  }

  lemma FlatInjective(width: nat, x: nat, y: nat, u: nat, v: nat)
    requires y < width && v < width && x * width + y == u * width + v
    ensures x == u && y == v
  {
    if x < u {
      OneMoreRow(width, x);
      ProductGrows(x + 1, width, u, width);
    } else if u < x {
      OneMoreRow(width, u);
      ProductGrows(u + 1, width, x, width);
    }
  }

  lemma FlatInRange(width: nat, height: nat, x: nat, y: nat)
    requires x < height && y < width
    ensures x * width + y < height * width
  {
    OneMoreRow(width, x);
    ProductGrows(x + 1, width, height, width);
  }

  lemma OffsetInRange(n: nat, actions: nat, action: nat, target: nat, state: nat)
    requires action < actions && target < n && state < n
    ensures Offset(n, action, target, state) < ColumnsSize(n, actions)
  {
    FlatInRange(n, actions, action, target);
    WordInColumn(n, state);
    FlatInRange(WordsPerColumn(n), actions * n, action * n + target, state / WORD_BITS);
  }

  lemma BitInjective(n: nat, a: nat, t: nat, s: nat, b: nat, u: nat, v: nat)
    requires t < n && s < n && u < n && v < n
    requires Offset(n, a, t, s) == Offset(n, b, u, v) && s % WORD_BITS == v % WORD_BITS
    ensures a == b && t == u && s == v
  {
    var x, y := a * n + t, b * n + u;
    assert x == y && s / WORD_BITS == v / WORD_BITS by {
      WordInColumn(n, s);
      WordInColumn(n, v);
      FlatInjective(WordsPerColumn(n), x, s / WORD_BITS, y, v / WORD_BITS);
    }
    assert a == b && t == u by {
      FlatInjective(n, a, t, b, u);
    }
    assert s == v by {
      SameWordSameBit(s, v);
    }
  }

  /** Setting one bit sets that bit and no other. */
  lemma WithSetsOneBit(n: nat, actions: nat, columns: Words, a: nat, t: nat, s: nat, present: bool,
                       b: nat, u: nat, v: nat)
    requires |columns| == ColumnsSize(n, actions)
    requires a < actions && t < n && s < n && b < actions && u < n && v < n
    requires Offset(n, a, t, s) < |columns|
    ensures Has(n, With(n, columns, a, t, s, present), b, u, v)
         == if a == b && t == u && s == v then present else Has(n, columns, b, u, v)
  {
    OffsetInRange(n, actions, b, u, v);
    if Offset(n, a, t, s) == Offset(n, b, u, v) && s % WORD_BITS == v % WORD_BITS {
      BitInjective(n, a, t, s, b, u, v);
    }
  }

  // ---------- Agreement with a transition table ----------

  /** A column bit is one exactly for the states the action sends to the target.
      Only states below the limit, and for the state at the limit only actions below
      the other limit, have been entered. */
  ghost predicate AgreeUpto(m: Automaton, columns: Words, states: nat, actions: nat) {
    && m.Valid()
    && |columns| == ColumnsSize(m.states, m.actions)
    && forall a, t, s | 0 <= a < m.actions && 0 <= t < m.states && 0 <= s < m.states ::
         Has(m.states, columns, a, t, s) <==>
           m.delta[s][a] == t && (s < states || (s == states && a < actions))
  }

  ghost predicate Agree(m: Automaton, columns: Words) { AgreeUpto(m, columns, m.states, 0) }

  lemma EnterState(m: Automaton, columns: Words, s: nat, a: nat)
    requires AgreeUpto(m, columns, s, a) && s < m.states && a < m.actions
    requires Offset(m.states, a, m.delta[s][a], s) < |columns|
    ensures AgreeUpto(m, With(m.states, columns, a, m.delta[s][a], s, true), s, a + 1)
  {
    var w := With(m.states, columns, a, m.delta[s][a], s, true);
    forall b, u, v | 0 <= b < m.actions && 0 <= u < m.states && 0 <= v < m.states
      ensures Has(m.states, w, b, u, v) <==>
                m.delta[v][b] == u && (v < s || (v == s && b < a + 1))
    {
      WithSetsOneBit(m.states, m.actions, columns, a, m.delta[s][a], s, true, b, u, v);
    }
  }

  /** sg_reverse_columns_build */
  method BuildColumns(m: Automaton) returns (columns: Words)
    requires m.Valid()
    ensures Agree(m, columns)
  {
    var size := m.actions * m.states * WordsPerColumn(m.states);
    columns := seq(size, _ => {});
    assert AgreeUpto(m, columns, 0, 0);
    for state := 0 to m.states
      invariant AgreeUpto(m, columns, state, 0)
    {
      for action := 0 to m.actions
        invariant AgreeUpto(m, columns, state, action)
      {
        var target := m.delta[state][action];
        OffsetInRange(m.states, m.actions, action, target, state);
        EnterState(m, columns, state, action);
        columns := With(m.states, columns, action, target, state, true);
      }
      assert AgreeUpto(m, columns, state + 1, 0);
    }
  }

  function WithCell(m: Automaton, state: nat, action: nat, target: nat, output: nat): (t: Automaton)
    requires m.Valid() && state < m.states && action < m.actions && target < m.states && output < m.outputs
    ensures t.Valid()
  {
    var moved: seq<nat> := m.delta[state][action := target];
    var shown: seq<nat> := m.eta[state][action := output];
    m.(delta := m.delta[state := moved], eta := m.eta[state := shown])
  }

  /** Clearing the old target's bit and setting the new one's follows the table. */
  lemma MoveCell(m: Automaton, columns: Words, state: nat, action: nat, target: nat, output: nat)
    requires Agree(m, columns)
    requires state < m.states && action < m.actions && target < m.states && output < m.outputs
    requires m.delta[state][action] != target
    ensures var n, old_ := m.states, m.delta[state][action];
            && Offset(n, action, old_, state) < |columns| && Offset(n, action, target, state) < |columns|
            && Agree(WithCell(m, state, action, target, output),
                     With(n, With(n, columns, action, old_, state, false), action, target, state, true))
  {
    var n, k, old_ := m.states, m.actions, m.delta[state][action];
    OffsetInRange(n, k, action, old_, state);
    OffsetInRange(n, k, action, target, state);
    var mid := With(n, columns, action, old_, state, false);
    var w := With(n, mid, action, target, state, true);
    var t := WithCell(m, state, action, target, output);
    forall b, u, v | 0 <= b < k && 0 <= u < n && 0 <= v < n
      ensures Has(n, w, b, u, v) <==> t.delta[v][b] == u
    {
      WithSetsOneBit(n, k, columns, action, old_, state, false, b, u, v);
      WithSetsOneBit(n, k, mid, action, target, state, true, b, u, v);
    }
  }
}
