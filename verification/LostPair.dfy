/** One automaton, one changed cell, and a repair that reports success with a pair
    lost: a concrete run of the condition in RepairTheorems. */
module LostPair {
  import opened Records
  import opened PairGraph
  import opened RepairSpec
  import opened RepairTheory
  import opened RepairTheorems
  import opened Pairs
  import opened Columns

  const BEFORE: Automaton :=
    Automaton(4, 3, 1, [[0, 2, 0], [1, 2, 3], [3, 0, 1], [3, 0, 2]], [[0, 0, 0], [0, 0, 0], [0, 0, 0], [0, 0, 0]])

  /** Action 1 now keeps state 1 where it is. */
  const AFTER: Automaton :=
    Automaton(4, 3, 1, [[0, 2, 0], [1, 1, 3], [3, 0, 1], [3, 0, 2]], [[0, 0, 0], [0, 0, 0], [0, 0, 0], [0, 0, 0]])

  /** The pairs of state 1. */
  const SEEDS: set<nat> := {1, 4, 5, 6}

  /** The merge graph, spelled out: pairs 0, 4, 7 and 9 are diagonal. */
  ghost predicate Spelled(g: Graph, rows: seq<seq<nat>>) {
    && g.Valid() && g.pairs == 10 && g.actions == 3 && |rows| == 10
    && (forall p | 0 <= p < 10 :: |rows[p]| == 3 && g.diagonal[p] == (p in {0, 4, 7, 9}))
    && (forall p, a | 0 <= p < 10 && 0 <= a < 3 :: g.next[p][a] == rows[p][a] && !g.ends[p][a])
  }

  const ROWS_BEFORE: seq<seq<nat>> :=
    [[0, 7, 0], [1, 7, 3], [3, 2, 1], [3, 2, 2], [4, 7, 9], [6, 2, 6], [6, 2, 8], [9, 0, 4], [9, 0, 5], [9, 0, 7]]

  const ROWS_AFTER: seq<seq<nat>> :=
    [[0, 7, 0], [1, 5, 3], [3, 2, 1], [3, 2, 2], [4, 4, 9], [6, 1, 6], [6, 1, 8], [9, 0, 4], [9, 0, 5], [9, 0, 7]]

  lemma PairOfFour(i: nat, j: nat, p: nat)
    requires i <= j < 4 && p == i * 4 - i * (i + 1) / 2 + j
    ensures p < PairCount(4) == 10 && States(4, p) == (i, j)
  {
    PairCountIs(4);
    PairIndexIs(4, i, j);
    StatesOfIndex(4, i, j);
  }

  lemma PairsOfFour(p: nat)
    requires p < 10
    ensures PairCount(4) == 10
    ensures States(4, p) == [(0, 0), (0, 1), (0, 2), (0, 3), (1, 1), (1, 2), (1, 3), (2, 2), (2, 3), (3, 3)][p]
  {
    PairOfFour(0, 0, 0); PairOfFour(0, 1, 1); PairOfFour(0, 2, 2); PairOfFour(0, 3, 3);
    PairOfFour(1, 1, 4); PairOfFour(1, 2, 5); PairOfFour(1, 3, 6);
    PairOfFour(2, 2, 7); PairOfFour(2, 3, 8); PairOfFour(3, 3, 9);
  }

  /** The numbers of the ordered pairs of four states. */
  const NUMBERS: seq<seq<nat>> := [[0, 1, 2, 3], [1, 4, 5, 6], [2, 5, 7, 8], [3, 6, 8, 9]]

  lemma NumberOf(i: nat, j: nat)
    requires i < 4 && j < 4
    ensures PairIndex(4, i, j) == NUMBERS[i][j]
  {
    if i <= j {
      PairIndexIs(4, i, j);
    } else {
      PairIndexIs(4, j, i);
    }
  }

  lemma RowIsSpelled(m: Automaton, rows: seq<seq<nat>>, p: nat, a: nat)
    requires m.Valid() && m.states == 4 && m.actions == 3 && p < 10 && a < 3 && |rows| == 10 && |rows[p]| == 3
    requires PairCount(4) == 10 && rows[p][a] == NUMBERS[m.delta[States(4, p).0][a]][m.delta[States(4, p).1][a]]
    ensures p < PairCount(4) && PairGraphOf(m, Merge).next[p][a] == rows[p][a] && !PairGraphOf(m, Merge).ends[p][a]
    ensures PairGraphOf(m, Merge).diagonal[p] == (States(4, p).0 == States(4, p).1)
  {
    var g := PairGraphOf(m, Merge);
    NumberOf(m.delta[States(4, p).0][a], m.delta[States(4, p).1][a]);
    assert g.diagonal[p] == SameState(m, p);
    assert g.next[p][a] == Target(m, p, a);
    var differ := OutputsDiffer(m, p, a);
  }

  lemma BeforeIsSpelled()
    ensures Spelled(PairGraphOf(BEFORE, Merge), ROWS_BEFORE)
  {
    var g := PairGraphOf(BEFORE, Merge);
    PairsOfFour(0);
    forall p, a | 0 <= p < 10 && 0 <= a < 3
      ensures g.diagonal[p] == (p in {0, 4, 7, 9}) && g.next[p][a] == ROWS_BEFORE[p][a] && !g.ends[p][a]
    {
      PairsOfFour(p);
      RowIsSpelled(BEFORE, ROWS_BEFORE, p, a);
    }
    forall p | 0 <= p < 10 ensures g.diagonal[p] == (p in {0, 4, 7, 9}) {
      assert g.next[p][0] == ROWS_BEFORE[p][0];
    }
  }

  lemma AfterIsSpelled()
    ensures Spelled(PairGraphOf(AFTER, Merge), ROWS_AFTER)
  {
    var g := PairGraphOf(AFTER, Merge);
    PairsOfFour(0);
    forall p, a | 0 <= p < 10 && 0 <= a < 3
      ensures g.diagonal[p] == (p in {0, 4, 7, 9}) && g.next[p][a] == ROWS_AFTER[p][a] && !g.ends[p][a]
    {
      PairsOfFour(p);
      RowIsSpelled(AFTER, ROWS_AFTER, p, a);
    }
    forall p | 0 <= p < 10 ensures g.diagonal[p] == (p in {0, 4, 7, 9}) {
      assert g.next[p][0] == ROWS_AFTER[p][0];
    }
  }

  function OneMoreThan(x: nat, y: nat, z: nat): nat {
    var least := if x <= y && x <= z then x else if y <= z then y else z;
    if least >= NONE then NONE else least + 1
  }

  lemma BestOfThree(g: Graph, rows: seq<seq<nat>>, r: Entries, p: nat)
    requires Spelled(g, rows) && Fits(g, r) && p < 10
    ensures rows[p][0] < 10 && rows[p][1] < 10 && rows[p][2] < 10
    ensures Best(g, r, p).distance
         == OneMoreThan(r[rows[p][0]].distance, r[rows[p][1]].distance, r[rows[p][2]].distance)
  {
    assert g.next[p][0] == rows[p][0] && g.next[p][1] == rows[p][1] && g.next[p][2] == rows[p][2];
    var c0, c1, c2 := Cost(g, r, p, 0), Cost(g, r, p, 1), Cost(g, r, p, 2);
  }

  ghost predicate Distances(r: Entries, d: seq<nat>) {
    |r| == |d| == 10 && forall p | 0 <= p < 10 :: r[p].distance == d[p]
  }

  /** Off the diagonal, an exact distance is one more than the least below it. */
  lemma ExactStep(g: Graph, rows: seq<seq<nat>>, r: Entries, p: nat)
    requires Spelled(g, rows) && Consistent(g, r) && p < 10 && p !in {0, 4, 7, 9}
    ensures rows[p][0] < 10 && rows[p][1] < 10 && rows[p][2] < 10
    ensures 1 <= r[p].distance
         == OneMoreThan(r[rows[p][0]].distance, r[rows[p][1]].distance, r[rows[p][2]].distance)
  {
    assert r[p] == Best(g, r, p);
    BestOfThree(g, rows, r, p);
  }

  lemma ExactBefore(g: Graph, r: Entries)
    requires Spelled(g, ROWS_BEFORE) && Consistent(g, r)
    ensures Distances(r, [0, 1, 2, 3, 0, 3, 2, 0, 1, 0])
  {
    ExactStep(g, ROWS_BEFORE, r, 1); ExactStep(g, ROWS_BEFORE, r, 2); ExactStep(g, ROWS_BEFORE, r, 3);
    ExactStep(g, ROWS_BEFORE, r, 5); ExactStep(g, ROWS_BEFORE, r, 6); ExactStep(g, ROWS_BEFORE, r, 8);
    assert r[0] == r[4] == r[7] == r[9] == ROOT;
  }

  lemma ExactAfter(g: Graph, full: Entries)
    requires Spelled(g, ROWS_AFTER) && Consistent(g, full)
    ensures Distances(full, [0, 4, 5, 6, 0, 3, 2, 0, 1, 0])
  {
    ExactStep(g, ROWS_AFTER, full, 1); ExactStep(g, ROWS_AFTER, full, 2); ExactStep(g, ROWS_AFTER, full, 3);
    ExactStep(g, ROWS_AFTER, full, 5); ExactStep(g, ROWS_AFTER, full, 6); ExactStep(g, ROWS_AFTER, full, 8);
    assert full[0] == full[4] == full[7] == full[9] == ROOT;
  }

  // ---------- The batches of phases one and two ----------

  /** A phase up to witnesses and supports. */
  ghost predicate Stands(g: Graph, s: Phase, d: seq<nat>, invalid: set<nat>, lowered: set<nat>) {
    PhaseFits(g, s) && Distances(s.records, d) && s.invalid == invalid && s.lowered == lowered
  }

  function NewDistance(d: seq<nat>, p: nat): nat
    requires |d| == 10 && p < 10
  {
    var row := ROWS_AFTER[p];
    if |row| == 3 && row[0] < 10 && row[1] < 10 && row[2] < 10
    then OneMoreThan(d[row[0]], d[row[1]], d[row[2]])
    else NONE
  }

  /** What settling a batch does to pair p. */
  predicate Turn(d: seq<nat>, p: nat, batch: set<nat>, e: nat, raised: set<nat>, lowered: set<nat>)
    requires |d| == 10 && p < 10
  {
    var best := NewDistance(d, p);
    && e == (if p !in batch then d[p] else if d[p] < best then NONE else best)
    && (p in raised <==> p in batch && d[p] < best)
    && (p in lowered <==> p in batch && best < d[p])
  }

  lemma Round(g: Graph, s: Phase, d: seq<nat>, batch: set<nat>, e: seq<nat>, raised: set<nat>, lowered: set<nat>)
    requires Spelled(g, ROWS_AFTER) && Stands(g, s, d, s.invalid, s.lowered) && batch <= Upto(10) && |e| == 10
    requires raised <= batch && lowered <= batch
    requires forall p | 0 <= p < 10 :: Turn(d, p, batch, e[p], raised, lowered)
    ensures Stands(g, SettleBatch(g, s, batch), e, s.invalid + raised, s.lowered + lowered)
    ensures Raised(g, s.records, batch) == raised
  {
    forall p | 0 <= p < 10
      ensures Best(g, s.records, p).distance == NewDistance(d, p) && Turn(d, p, batch, e[p], raised, lowered)
    {
      BestOfThree(g, ROWS_AFTER, s.records, p);
    }
    assert Raised(g, s.records, batch) == raised;
    assert Lowered(g, s.records, batch) == lowered;
  }

  lemma SeedBatch(g: Graph)
    requires Spelled(g, ROWS_AFTER)
    ensures OffDiagonal(g, SEEDS) == {1, 5, 6}
  {
  }

  lemma SeedsSettle(g: Graph, r: Entries)
    requires Spelled(g, ROWS_AFTER) && Fits(g, r) && Distances(r, [0, 1, 2, 3, 0, 3, 2, 0, 1, 0])
    ensures Stands(g, Seed(g, r, SEEDS, {}), [0, NONE, 2, 3, 0, 2, 2, 0, 1, 0], {1}, {5})
  {
    SeedBatch(g);
    Round(g, Phase(r, {}, {}, {}), [0, 1, 2, 3, 0, 3, 2, 0, 1, 0], {1, 5, 6},
          [0, NONE, 2, 3, 0, 2, 2, 0, 1, 0], {1}, {5});
  }

  lemma FirstBatch(g: Graph, invalid: set<nat>)
    requires Spelled(g, ROWS_AFTER) && invalid == {1}
    ensures Sources(g, {1}) - invalid == {2, 5, 6}
  {
    SourcesOf(g, {1});
  }

  lemma FirstRound(g: Graph, s: Phase)
    requires Spelled(g, ROWS_AFTER) && Stands(g, s, [0, NONE, 2, 3, 0, 2, 2, 0, 1, 0], {1}, {5})
    ensures var batch := Sources(g, {1}) - s.invalid;
            && Stands(g, SettleBatch(g, s, batch), [0, NONE, NONE, 3, 0, NONE, 2, 0, 1, 0], {1, 2, 5}, {5})
            && Raised(g, s.records, batch) == {2, 5}
  {
    FirstBatch(g, s.invalid);
    Round(g, s, [0, NONE, 2, 3, 0, 2, 2, 0, 1, 0], {2, 5, 6}, [0, NONE, NONE, 3, 0, NONE, 2, 0, 1, 0], {2, 5}, {});
  }

  lemma SecondRound(g: Graph, s: Phase)
    requires Spelled(g, ROWS_AFTER) && Stands(g, s, [0, NONE, NONE, 3, 0, NONE, 2, 0, 1, 0], {1, 2, 5}, {5})
    ensures var batch := Sources(g, {2, 5}) - s.invalid;
            && Stands(g, SettleBatch(g, s, batch), [0, NONE, NONE, NONE, 0, NONE, 2, 0, 1, 0], {1, 2, 3, 5}, {5})
            && Raised(g, s.records, batch) == {3}
  {
    SourcesOf(g, {2, 5});
    assert Sources(g, {2, 5}) - s.invalid == {3, 8};
    Round(g, s, [0, NONE, NONE, 3, 0, NONE, 2, 0, 1, 0], {3, 8}, [0, NONE, NONE, NONE, 0, NONE, 2, 0, 1, 0], {3}, {});
  }

  lemma ThirdRound(g: Graph, s: Phase)
    requires Spelled(g, ROWS_AFTER) && Stands(g, s, [0, NONE, NONE, NONE, 0, NONE, 2, 0, 1, 0], {1, 2, 3, 5}, {5})
    ensures var batch := Sources(g, {3}) - s.invalid;
            && SettleBatch(g, s, batch) == s
            && Raised(g, s.records, batch) == {}
  {
    var r, batch := s.records, Sources(g, {3}) - s.invalid;
    SourcesOf(g, {3});
    assert batch == {};
    assert Settled(g, r, batch) == r;
  }

  /** Which pairs have an arc into the targets, pair by pair. */
  lemma SourcesOf(g: Graph, targets: set<nat>)
    requires Spelled(g, ROWS_AFTER)
    ensures forall p: nat {:trigger p in Sources(g, targets)} :: p in Sources(g, targets) <==>
              && p < 10 && p !in {0, 4, 7, 9}
              && (ROWS_AFTER[p][0] in targets || ROWS_AFTER[p][1] in targets || ROWS_AFTER[p][2] in targets)
  {
    forall p: nat | p < 10
      ensures HasArcInto(g, p, targets) <==>
              ROWS_AFTER[p][0] in targets || ROWS_AFTER[p][1] in targets || ROWS_AFTER[p][2] in targets
    {
      assert g.next[p][0] == ROWS_AFTER[p][0] && g.next[p][1] == ROWS_AFTER[p][1] && g.next[p][2] == ROWS_AFTER[p][2];
    }
  }

  lemma Settles(g: Graph, r: Entries)
    requires Spelled(g, ROWS_AFTER) && Fits(g, r) && Distances(r, [0, 1, 2, 3, 0, 3, 2, 0, 1, 0])
    ensures Stands(g, Invalidated(g, r, SEEDS, {}), [0, NONE, NONE, NONE, 0, NONE, 2, 0, 1, 0], {1, 2, 3, 5}, {5})
  {
    var s0 := Seed(g, r, SEEDS, {});
    SeedsSettle(g, r);
    FirstRound(g, s0);
    var s1 := SettleBatch(g, s0, Sources(g, {1}) - s0.invalid);
    SecondRound(g, s1);
    var s2 := SettleBatch(g, s1, Sources(g, {2, 5}) - s1.invalid);
    ThirdRound(g, s2);
    assert Invalidate(g, s2, {3}) == Invalidate(g, s2, {}) == s2;
    assert Invalidate(g, s1, {2, 5}) == Invalidate(g, s2, {3});
    assert Invalidate(g, s0, {1}) == Invalidate(g, s1, {2, 5});
  }

  // ---------- Pair 5 is sealed off ----------

  /** Without pair 5, pairs 1, 2 and 3 only lead to each other. */
  lemma {:induction false} Trapped(g: Graph, p: nat, w: seq<nat>)
    requires Spelled(g, ROWS_AFTER) && p in {1, 2, 3}
    ensures !SolvesAvoiding(g, {5}, p, w)
    decreases |w|
  {
    if |w| > 0 && w[0] < 3 {
      var q := g.next[p][w[0]];
      assert q == ROWS_AFTER[p][w[0]];
      if q != 5 {
        Trapped(g, q, w[1..]);
      }
    }
  }

  lemma SixTakesTwo(g: Graph, w: seq<nat>)
    requires Spelled(g, ROWS_AFTER) && SolvesAvoiding(g, {5}, 6, w)
    ensures |w| >= 2
  {
    assert g.next[6][w[0]] == ROWS_AFTER[6][w[0]];
  }

  lemma FiveIsSealed(g: Graph, s: Phase)
    requires Spelled(g, ROWS_AFTER)
    requires Stands(g, s, [0, NONE, NONE, NONE, 0, NONE, 2, 0, 1, 0], {1, 2, 3, 5}, {5}) && s.records[5] == UNREACHABLE
    ensures Sealed(g, s, {5})
  {
    BestOfThree(g, ROWS_AFTER, s.records, 5);
    forall a | 0 <= a < 3 ensures g.next[5][a] in {1, 6} {
      assert g.next[5][a] == ROWS_AFTER[5][a];
    }
    forall a, w | 0 <= a < 3 && SolvesAvoiding(g, {5}, g.next[5][a], w)
      ensures s.records[g.next[5][a]].distance <= |w|
    {
      if g.next[5][a] == 1 {
        Trapped(g, 1, w);
      } else {
        SixTakesTwo(g, w);
      }
    }
  }

  lemma ChangeIsLocal(o: Graph, g: Graph)
    requires Spelled(o, ROWS_BEFORE) && Spelled(g, ROWS_AFTER)
    ensures ChangedOnlyAt(o, g, SEEDS)
  {
    assert o.diagonal == g.diagonal;
    forall p | 0 <= p < 10 && p !in SEEDS ensures o.next[p] == g.next[p] && o.ends[p] == g.ends[p] {
      assert ROWS_BEFORE[p] == ROWS_AFTER[p];
      forall a | 0 <= a < 3 ensures o.next[p][a] == g.next[p][a] && o.ends[p][a] == g.ends[p][a] {
        assert o.next[p][a] == ROWS_BEFORE[p][a];
        assert g.next[p][a] == ROWS_AFTER[p][a];
      }
    }
  }

  lemma SealedIsLost(o: Graph, g: Graph, r: Entries)
    requires Spelled(g, ROWS_AFTER) && ChangedOnlyAt(o, g, SEEDS) && Truthful(o, r)
    requires Sealed(g, Invalidated(g, r, SEEDS, {}), {5})
    ensures Repaired(o, g, r, SEEDS, {})[5].distance == NONE
  {
    var s := Invalidated(g, r, SEEDS, {});
    var todo := Rebuildable(s);
    InvalidatedIsReady(o, g, r, SEEDS, {});
    RebuildOutcome(g, s.records, todo);
    SealedStays(g, s, {5}, Rebuild(g, s.records, todo), s.lowered + Rebuilt(g, s.records, todo));
  }

  lemma OneCell()
    ensures BEFORE.Valid() && AFTER == WithCell(BEFORE, 1, 1, 1, 0)
  {
    var m := WithCell(BEFORE, 1, 1, 1, 0);
    assert m.delta[1] == AFTER.delta[1] && m.eta[1] == AFTER.eta[1];
  }

  /** The repair of this one-cell change leaves pair 5 unreachable, though its true
      distance is 3. */
  lemma RepairLosesAPair(r: Entries, full: Entries)
    requires Consistent(PairGraphOf(BEFORE, Merge), r)
    requires Consistent(PairGraphOf(AFTER, Merge), full)
    ensures AFTER == WithCell(BEFORE, 1, 1, 1, 0) && Truthful(PairGraphOf(BEFORE, Merge), r)
    ensures ChangedOnlyAt(PairGraphOf(BEFORE, Merge), PairGraphOf(AFTER, Merge), SEEDS)
    ensures Sealed(PairGraphOf(AFTER, Merge), Invalidated(PairGraphOf(AFTER, Merge), r, SEEDS, {}), {5})
    ensures Repaired(PairGraphOf(BEFORE, Merge), PairGraphOf(AFTER, Merge), r, SEEDS, {})[5].distance == NONE
    ensures full[5].distance == 3
  {
    var o, g := PairGraphOf(BEFORE, Merge), PairGraphOf(AFTER, Merge);
    OneCell();
    BeforeIsSpelled();
    AfterIsSpelled();
    ChangeIsLocal(o, g);
    ExactBefore(o, r);
    ExactAfter(g, full);
    Settles(g, r);
    ConsistentIsTruthful(o, r);
    InvalidatedIsReady(o, g, r, SEEDS, {});
    FiveIsSealed(g, Invalidated(g, r, SEEDS, {}));
    SealedIsLost(o, g, r);
  }

  /** There is such a repair: both automata have exact records. */
  lemma RepairCanLoseAPair()
    ensures exists r, full ::
              && Consistent(PairGraphOf(BEFORE, Merge), r) && Consistent(PairGraphOf(AFTER, Merge), full)
              && Truthful(PairGraphOf(BEFORE, Merge), r)
              && ChangedOnlyAt(PairGraphOf(BEFORE, Merge), PairGraphOf(AFTER, Merge), SEEDS)
              && Repaired(PairGraphOf(BEFORE, Merge), PairGraphOf(AFTER, Merge), r, SEEDS, {}) != full
  {
    ExactExists(PairGraphOf(BEFORE, Merge));
    ExactExists(PairGraphOf(AFTER, Merge));
    var r :| Consistent(PairGraphOf(BEFORE, Merge), r);
    var full :| Consistent(PairGraphOf(AFTER, Merge), full);
    RepairLosesAPair(r, full);
  }
}
