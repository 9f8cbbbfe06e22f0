/** What the fields of a record say about words, and the words that records spell. */
module Witnesses {
  import opened Records
  import opened PairGraph
  import opened OracleSearch

  // ---------- Shortest words and their first letters ----------

  ghost predicate IsShortest(g: Graph, p: nat, w: seq<nat>)
    requires g.Valid()
  {
    Solves(g, p, w) && forall v {:trigger Solves(g, p, v)} | Solves(g, p, v) :: |w| <= |v|
  }

  /** Letter a starts some shortest word of p. */
  ghost predicate StartsShortest(g: Graph, p: nat, a: nat)
    requires g.Valid()
  {
    exists w :: IsShortest(g, p, w) && |w| > 0 && w[0] == a
  }

  lemma ShortestHasDistance(g: Graph, r: Entries, p: nat, w: seq<nat>)
    requires Consistent(g, r) && Addable(r) && p < g.pairs
    ensures IsShortest(g, p, w) <==> Solves(g, p, w) && |w| == r[p].distance
  {
    ConsistentIsShortest(g, r, p);
  }

  /** The actions of least cost are the first letters of shortest words. */
  lemma OptimalIsFirstLetter(g: Graph, r: Entries, p: nat, a: nat)
    requires Consistent(g, r) && Addable(r) && p < g.pairs && !g.diagonal[p] && r[p].distance < NONE
    ensures a in Optimal(g, r, p, Upto(g.actions), r[p].distance) <==> StartsShortest(g, p, a)
  {
    var d := r[p].distance;
    ConsistentIsBoth(g, r);
    assert r[p] == Best(g, r, p);
    if a in Optimal(g, r, p, Upto(g.actions), d) {
      var w := [a];
      if !g.ends[p][a] {
        var v := OverEstimateHasWord(g, r, {}, g.next[p][a]);
        UnderEstimateBoundsWords(g, r, {}, g.next[p][a], v);
        w := [a] + v;
        assert w[1..] == v;
      }
      ShortestHasDistance(g, r, p, w);
      assert IsShortest(g, p, w) && w[0] == a;
    }
    if StartsShortest(g, p, a) {
      var w :| IsShortest(g, p, w) && |w| > 0 && w[0] == a;
      ShortestHasDistance(g, r, p, w);
      if !g.ends[p][a] {
        UnderEstimateBoundsWords(g, r, {}, g.next[p][a], w[1..]);
      }
      assert Cost(g, r, p, a) == d;
    }
  }

  ghost function FirstLetters(g: Graph, p: nat): (s: set<nat>)
    requires g.Valid()
    ensures forall a: nat {:trigger a in s} :: a in s <==> a < g.actions && StartsShortest(g, p, a)
  {
    set a | a in Upto(g.actions) && StartsShortest(g, p, a)
  }

  /** All five fields of an exact off-diagonal record, in terms of words: whether one
      exists, the length of a shortest, its least first letter, the pair that letter
      leads to, and how many letters start a shortest word. */
  lemma FieldsMeanWords(g: Graph, r: Entries, p: nat)
    requires Consistent(g, r) && Addable(r) && p < g.pairs && !g.diagonal[p]
    ensures r[p].reachable <==> exists w :: Solves(g, p, w)
    ensures r[p].reachable ==>
              && (forall w :: IsShortest(g, p, w) <==> Solves(g, p, w) && |w| == r[p].distance)
              && r[p].action in FirstLetters(g, p) && (forall a | a in FirstLetters(g, p) :: r[p].action <= a)
              && r[p].next == (if g.ends[p][r[p].action] then NONE else g.next[p][r[p].action])
              && r[p].support == |FirstLetters(g, p)|
    ensures !r[p].reachable ==> r[p] == UNREACHABLE
  {
    ConsistentIsShortest(g, r, p);
    assert r[p] == Best(g, r, p);
    BestIsBest(g, r, p);
    if r[p].distance < NONE {
      forall w ensures IsShortest(g, p, w) <==> Solves(g, p, w) && |w| == r[p].distance {
        ShortestHasDistance(g, r, p, w);
      }
      forall a: nat ensures a in Optimal(g, r, p, Upto(g.actions), r[p].distance) <==> a in FirstLetters(g, p) {
        OptimalIsFirstLetter(g, r, p, a);
      }
      assert Optimal(g, r, p, Upto(g.actions), r[p].distance) == FirstLetters(g, p);
    }
  }

  // ---------- Records that can be followed ----------

  /** The actions, among the first k, that lead one step nearer. */
  ghost function Tight(g: Graph, d: seq<nat>, p: nat, k: nat): (s: set<nat>)
    requires g.Valid() && |d| == g.pairs && p < g.pairs && k <= g.actions
    ensures forall a: nat {:trigger a in s} :: a in s <==> a < k && CostFrom(g, d, p, a) == d[p]
  {
    set a | a in Upto(k) && CostFrom(g, d, p, a) == d[p]
  }

  lemma TightNext(g: Graph, d: seq<nat>, p: nat, a: nat)
    requires g.Valid() && |d| == g.pairs && p < g.pairs && a < g.actions
    ensures Tight(g, d, p, a + 1) == Tight(g, d, p, a) + (if CostFrom(g, d, p, a) == d[p] then {a} else {})
    ensures |Tight(g, d, p, a + 1)| == |Tight(g, d, p, a)| + (if CostFrom(g, d, p, a) == d[p] then 1 else 0)
  {
    assert Tight(g, d, p, a + 1) == Tight(g, d, p, a) + (if CostFrom(g, d, p, a) == d[p] then {a} else {});
  }

  ghost function DistancesOf(r: Entries): (d: seq<nat>)
    ensures |d| == |r| && forall p {:trigger d[p]} {:trigger r[p]} | 0 <= p < |r| :: d[p] == r[p].distance
  {
    seq(|r|, p requires 0 <= p < |r| => r[p].distance)
  }

  /** The check that a restored record has to pass. */
  ghost predicate Followable(g: Graph, r: Entries, p: nat)
    requires g.Valid() && |r| == g.pairs && p < g.pairs
  {
    var d, e := DistancesOf(r), r[p];
    if e.distance >= NONE then e.action == NONE && e.next == NONE && e.support == 0
    else if e.distance == 0 then g.diagonal[p] && e.action == NONE && e.next == NONE && e.support == 0
    else
      && e.action < g.actions && e.support == |Tight(g, d, p, g.actions)| != 0
      && (if e.next == NONE then e.distance == 1 && g.ends[p][e.action]
          else
            && e.next < g.pairs && !g.ends[p][e.action] && g.next[p][e.action] == e.next
            && r[e.next].distance < NONE && r[e.next].distance + 1 == e.distance)
  }

  ghost predicate AllFollowable(g: Graph, r: Entries) {
    g.Valid() && |r| == g.pairs < NONE && forall p {:trigger Followable(g, r, p)} | 0 <= p < g.pairs ::
        Followable(g, r, p)
  }

  /** The word a record spells. */
  ghost function Witness(g: Graph, r: Entries, p: nat): (w: seq<nat>)
    requires AllFollowable(g, r) && p < g.pairs && r[p].distance < NONE
    ensures |w| == r[p].distance
    decreases r[p].distance
  {
    assert Followable(g, r, p);
    if r[p].distance == 0 then []
    else if r[p].next == NONE then [r[p].action]
    else [r[p].action] + Witness(g, r, r[p].next)
  }

  /** Records that pass the check are sound, exact or not: following them takes
      exactly the recorded number of letters and meets the objective. */
  lemma {:induction false} WitnessSolves(g: Graph, r: Entries, p: nat)
    requires AllFollowable(g, r) && p < g.pairs && r[p].distance < NONE
    ensures Solves(g, p, Witness(g, r, p))
    decreases r[p].distance
  {
    assert Followable(g, r, p);
    if r[p].distance > 0 && r[p].next != NONE {
      WitnessSolves(g, r, r[p].next);
      assert Witness(g, r, p)[1..] == Witness(g, r, r[p].next);
    }
  }

  /** Truthful records pass the check. */
  lemma TruthfulIsFollowable(g: Graph, r: Entries)
    requires Truthful(g, r) && Addable(r) && g.pairs < NONE
    ensures AllFollowable(g, r)
  {
    var d := DistancesOf(r);
    forall p | 0 <= p < g.pairs ensures Followable(g, r, p) {
      assert !g.diagonal[p] ==> r[p] == Best(g, r, p) || r[p] == UNREACHABLE;
      if !g.diagonal[p] && r[p].distance < NONE {
        BestIsBest(g, r, p);
        forall a | 0 <= a < g.actions ensures Cost(g, r, p, a) == CostFrom(g, d, p, a) {}
        assert Tight(g, d, p, g.actions) == Optimal(g, r, p, Upto(g.actions), r[p].distance);
        assert r[p].action in Tight(g, d, p, g.actions);
      }
    }
  }

  lemma ExactIsFollowable(g: Graph, r: Entries)
    requires Consistent(g, r) && Addable(r) && g.pairs < NONE
    ensures AllFollowable(g, r)
  {
    ConsistentIsTruthful(g, r);
    TruthfulIsFollowable(g, r);
  }

  /** Letter by letter, w comes no later than v. */
  ghost predicate LexAtMost(w: seq<nat>, v: seq<nat>) {
    |w| == |v| && (w == [] || w[0] < v[0] || (w[0] == v[0] && LexAtMost(w[1..], v[1..])))
  }

  /** The word that exact records spell is the first of all shortest words. */
  lemma {:induction false} WitnessIsFirst(g: Graph, r: Entries, p: nat, v: seq<nat>)
    requires Consistent(g, r) && Addable(r) && AllFollowable(g, r) && p < g.pairs
    requires Solves(g, p, v) && |v| == r[p].distance < NONE
    ensures LexAtMost(Witness(g, r, p), v)
    decreases |v|
  {
    if v != [] {
      var a, w := r[p].action, Witness(g, r, p);
      assert Followable(g, r, p);
      assert !g.diagonal[p] ==> r[p] == Best(g, r, p);
      BestIsBest(g, r, p);
      ConsistentIsBoth(g, r);
      if !g.ends[p][v[0]] {
        UnderEstimateBoundsWords(g, r, {}, g.next[p][v[0]], v[1..]);
      }
      assert Cost(g, r, p, v[0]) == r[p].distance;
      if v[0] == a && r[p].next != NONE {
        WitnessIsFirst(g, r, r[p].next, v[1..]);
        assert w[1..] == Witness(g, r, r[p].next);
      } else if v[0] == a {
        assert w[1..] == [] == v[1..];
      }
    }
  }
}
