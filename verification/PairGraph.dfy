/** The pair graph of one objective, one-step evaluation of a pair, and words.

    A graph has one vertex for each unordered pair of states and one arc for each
    pair and action.  An arc that "ends" finishes the objective by itself: for the
    resolution objective, the two states answer the action differently. */
module PairGraph {
  import opened Records

  datatype Graph = Graph(pairs: nat, actions: nat, diagonal: seq<bool>,
                         next: seq<seq<nat>>, ends: seq<seq<bool>>) {

    ghost predicate Valid() {
      && |diagonal| == |next| == |ends| == pairs
      && actions < NONE
      && (forall p | 0 <= p < pairs :: |next[p]| == actions && |ends[p]| == actions)
      && (forall p, a | 0 <= p < pairs && 0 <= a < actions :: next[p][a] < pairs)
    }
  }

  type Entries = seq<Entry>

  /** Records that fit the graph: one per pair, no distance above the sentinel. */
  ghost predicate Fits(g: Graph, r: Entries) {
    && g.Valid()
    && |r| == g.pairs
    && forall p | 0 <= p < g.pairs :: r[p].distance <= NONE
  }

  // ---------- One-step evaluation ----------

  /** What action a promises from pair p, given the distances now on record. */
  ghost function Cost(g: Graph, r: Entries, p: nat, a: nat): (c: nat)
    requires Fits(g, r) && p < g.pairs && a < g.actions
    ensures 1 <= c <= NONE
  {
    if g.ends[p][a] then 1
    else if r[g.next[p][a]].distance == NONE then NONE
    else r[g.next[p][a]].distance + 1
  }

  ghost function Optimal(g: Graph, r: Entries, p: nat, actions: set<nat>, d: nat): set<nat>
    requires Fits(g, r) && p < g.pairs && forall a | a in actions :: a < g.actions
  {
    set a | a in actions && Cost(g, r, p, a) == d
  }

  /** Entry e is the best that the given actions offer from p: least cost, least
      action of that cost, its target, and the number of actions of that cost. */
  ghost predicate IsBest(g: Graph, r: Entries, p: nat, actions: set<nat>, e: Entry)
    requires Fits(g, r) && p < g.pairs && forall a | a in actions :: a < g.actions
  {
    && (forall a | a in actions :: e.distance <= Cost(g, r, p, a))
    && (e.distance >= NONE ==> e == UNREACHABLE)
    && (e.distance < NONE ==>
          && e.reachable
          && e.action in actions
          && Cost(g, r, p, e.action) == e.distance
          && (forall a | a in actions && Cost(g, r, p, a) == e.distance :: e.action <= a)
          && e.next == (if g.ends[p][e.action] then NONE else g.next[p][e.action])
          && e.support == |Optimal(g, r, p, actions, e.distance)|)
  }

  /** One call of sg_candidate_add, as the evaluation loop uses it. */
  function CandidateAdd(best: Entry, action: nat, target: nat, distance: nat, terminal: bool): Entry {
    var next := if terminal then NONE else target;
    if distance == NONE then best
    else if distance < best.distance then Entry(true, distance, action, next, 1)
    else if distance == best.distance then
      if action < best.action
      then best.(action := action, next := next, support := best.support + 1)
      else best.(support := best.support + 1)
    else best
  }

  /** An action that offers less than the best so far. */
  lemma NearerIsBest(g: Graph, r: Entries, p: nat, seen: set<nat>, best: Entry, a: nat)
    requires Fits(g, r) && p < g.pairs && a < g.actions && a !in seen
    requires forall b | b in seen :: b < g.actions
    requires IsBest(g, r, p, seen, best) && Cost(g, r, p, a) < best.distance
    ensures IsBest(g, r, p, seen + {a}, CandidateAdd(best, a, g.next[p][a], Cost(g, r, p, a), g.ends[p][a]))
  {
    assert Optimal(g, r, p, seen + {a}, Cost(g, r, p, a)) == {a};
  }

  /** An action that offers as much. */
  lemma EqualIsBest(g: Graph, r: Entries, p: nat, seen: set<nat>, best: Entry, a: nat)
    requires Fits(g, r) && p < g.pairs && a < g.actions && a !in seen
    requires forall b | b in seen :: b < g.actions
    requires IsBest(g, r, p, seen, best) && Cost(g, r, p, a) == best.distance < NONE
    ensures IsBest(g, r, p, seen + {a}, CandidateAdd(best, a, g.next[p][a], Cost(g, r, p, a), g.ends[p][a]))
  {
    assert Optimal(g, r, p, seen + {a}, best.distance) == Optimal(g, r, p, seen, best.distance) + {a};
  }

  /** An action that offers nothing, or too much. */
  lemma FartherIsNotBest(g: Graph, r: Entries, p: nat, seen: set<nat>, best: Entry, a: nat)
    requires Fits(g, r) && p < g.pairs && a < g.actions && a !in seen
    requires forall b | b in seen :: b < g.actions
    requires IsBest(g, r, p, seen, best) && (Cost(g, r, p, a) > best.distance || Cost(g, r, p, a) == NONE)
    ensures IsBest(g, r, p, seen + {a}, best)
  {
    if best.distance < NONE {
      assert Optimal(g, r, p, seen + {a}, best.distance) == Optimal(g, r, p, seen, best.distance);
    }
  }

  /** Adding one more action keeps the entry best, whatever order actions come in. */
  lemma CandidateAddIsBest(g: Graph, r: Entries, p: nat, seen: set<nat>, best: Entry, a: nat)
    requires Fits(g, r) && p < g.pairs && a < g.actions && a !in seen
    requires forall b | b in seen :: b < g.actions
    requires IsBest(g, r, p, seen, best)
    ensures IsBest(g, r, p, seen + {a},
                   CandidateAdd(best, a, g.next[p][a], Cost(g, r, p, a), g.ends[p][a]))
  {
    var c := Cost(g, r, p, a);
    if c < best.distance {
      NearerIsBest(g, r, p, seen, best, a);
    } else if c == best.distance && c < NONE {
      EqualIsBest(g, r, p, seen, best, a);
    } else {
      FartherIsNotBest(g, r, p, seen, best, a);
    }
  }

  ghost function Upto(k: nat): (s: set<nat>)
    ensures forall a: nat :: a in s <==> a < k
  {
    if k == 0 then {} else Upto(k - 1) + {k - 1}
  }

  ghost function Scan(g: Graph, r: Entries, p: nat, k: nat): (e: Entry)
    requires Fits(g, r) && p < g.pairs && k <= g.actions
    ensures IsBest(g, r, p, Upto(k), e)
  {
    if k == 0 then UNREACHABLE
    else
      var before := Scan(g, r, p, k - 1);
      CandidateAddIsBest(g, r, p, Upto(k - 1), before, k - 1);
      CandidateAdd(before, k - 1, g.next[p][k - 1], Cost(g, r, p, k - 1), g.ends[p][k - 1])
  }

  /** Entry e is best among all actions.  The definition is some steps away, so that a
      proof that does not ask for it (BestIsBest) does not unfold it. */
  ghost predicate IsChosen(g: Graph, r: Entries, p: nat, e: Entry)
    requires Fits(g, r) && p < g.pairs
  {
    ChosenIn(g, r, p, e, DEPTH + 1)
  }

  ghost predicate ChosenIn(g: Graph, r: Entries, p: nat, e: Entry, steps: nat)
    requires Fits(g, r) && p < g.pairs
    decreases steps
  {
    if steps == 0 then IsBest(g, r, p, Upto(g.actions), e) else ChosenIn(g, r, p, e, steps - 1)
  }

  lemma ChosenIsBest(g: Graph, r: Entries, p: nat, e: Entry)
    requires Fits(g, r) && p < g.pairs
    ensures IsChosen(g, r, p, e) <==> IsBest(g, r, p, Upto(g.actions), e)
  {
    var k: nat := DEPTH + 1;
    while k > 0
      invariant ChosenIn(g, r, p, e, DEPTH + 1) == ChosenIn(g, r, p, e, k)
    {
      k := k - 1;
    }
  }

  lemma BestExists(g: Graph, r: Entries, p: nat)
    requires Fits(g, r) && p < g.pairs
    ensures exists e :: IsChosen(g, r, p, e)
  {
    ChosenIsBest(g, r, p, Scan(g, r, p, g.actions));
  }

  lemma ChosenFacts(g: Graph, r: Entries, p: nat, e: Entry)
    requires Fits(g, r) && p < g.pairs && IsChosen(g, r, p, e)
    ensures 1 <= e.distance <= NONE
    ensures e.distance == NONE ==> e == UNREACHABLE
    ensures forall a | 0 <= a < g.actions :: e.distance <= Cost(g, r, p, a)
    ensures e.distance < NONE ==> e.action < g.actions && Cost(g, r, p, e.action) == e.distance
  {
    ChosenIsBest(g, r, p, e);
    assert forall a | 0 <= a < g.actions :: a in Upto(g.actions);
  }

  /** The re-evaluation of pair p from the distances of its successors. */
  ghost function Best(g: Graph, r: Entries, p: nat): (e: Entry)
    requires Fits(g, r) && p < g.pairs
    ensures 1 <= e.distance <= NONE
    ensures e.distance == NONE ==> e == UNREACHABLE
    ensures forall a {:trigger Cost(g, r, p, a)} | 0 <= a < g.actions :: e.distance <= Cost(g, r, p, a)
    ensures e.distance < NONE ==> e.action < g.actions && Cost(g, r, p, e.action) == e.distance
  {
    BestExists(g, r, p);
    var e :| IsChosen(g, r, p, e);
    ChosenFacts(g, r, p, e);
    e
  }

  lemma BestIsBest(g: Graph, r: Entries, p: nat)
    requires Fits(g, r) && p < g.pairs
    ensures IsBest(g, r, p, Upto(g.actions), Best(g, r, p))
  {
    BestExists(g, r, p);
    ChosenIsBest(g, r, p, Best(g, r, p));
  }

  lemma BestIsUnique(g: Graph, r: Entries, p: nat, actions: set<nat>, e: Entry, f: Entry)
    requires Fits(g, r) && p < g.pairs && forall a | a in actions :: a < g.actions
    requires IsBest(g, r, p, actions, e) && IsBest(g, r, p, actions, f)
    ensures e == f
  {
  }

  /** A re-evaluation reads nothing but the distances of the successors. */
  lemma BestReadsDistances(g: Graph, r: Entries, s: Entries, p: nat)
    requires Fits(g, r) && Fits(g, s) && p < g.pairs
    requires forall a | 0 <= a < g.actions :: r[g.next[p][a]].distance == s[g.next[p][a]].distance
    ensures Best(g, r, p) == Best(g, s, p)
  {
    var e := Best(g, r, p);
    BestIsBest(g, r, p);
    BestIsBest(g, s, p);
    forall a | 0 <= a < g.actions ensures Cost(g, r, p, a) == Cost(g, s, p, a) {}
    assert Optimal(g, s, p, Upto(g.actions), e.distance) == Optimal(g, r, p, Upto(g.actions), e.distance);
    BestIsUnique(g, s, p, Upto(g.actions), e, Best(g, s, p));
  }

  /** Distances only fell from r to s. */
  ghost predicate AtMost(g: Graph, s: Entries, r: Entries)
    requires Fits(g, r) && Fits(g, s)
  {
    forall p | 0 <= p < g.pairs :: s[p].distance <= r[p].distance
  }

  lemma BestIsMonotone(g: Graph, s: Entries, r: Entries, p: nat)
    requires Fits(g, r) && Fits(g, s) && p < g.pairs && AtMost(g, s, r)
    ensures Best(g, s, p).distance <= Best(g, r, p).distance
  {
    var e := Best(g, r, p);
    if e.distance < NONE {
      assert Cost(g, s, p, e.action) <= Cost(g, r, p, e.action);
    }
  }

  // ---------- Consistency, over- and under-estimates ----------

  ghost predicate Rooted(g: Graph, r: Entries)
    requires Fits(g, r)
  {
    forall p | 0 <= p < g.pairs && g.diagonal[p] :: r[p] == ROOT
  }

  /** Every record is its own evaluation: the records of a full rebuild. */
  ghost predicate Consistent(g: Graph, r: Entries) {
    && Fits(g, r) && Rooted(g, r)
    && forall p {:trigger Best(g, r, p)} | 0 <= p < g.pairs && !g.diagonal[p] :: r[p] == Best(g, r, p)
  }

  /** Every record is its own evaluation or says nothing: what a repair may leave. */
  ghost predicate Truthful(g: Graph, r: Entries) {
    && Fits(g, r) && Rooted(g, r)
    && forall p {:trigger Best(g, r, p)} | 0 <= p < g.pairs && !g.diagonal[p] ::
        r[p] == Best(g, r, p) || r[p] == UNREACHABLE
  }

  /** The pairs whose records are not their own evaluation. */
  ghost function Inconsistent(g: Graph, r: Entries): (T: set<nat>)
    requires Fits(g, r)
    ensures forall p: nat {:trigger p in T} :: p in T <==> p < g.pairs && !g.diagonal[p] && r[p] != Best(g, r, p)
  {
    set p | p in Upto(g.pairs) && !g.diagonal[p] && r[p] != Best(g, r, p)
  }

  /** Exact records are the truthful ones that say all there is to say. */
  lemma ConsistentIsTruthful(g: Graph, r: Entries)
    ensures Consistent(g, r) <==> Truthful(g, r) && Inconsistent(g, r) == {}
  {
    if Truthful(g, r) && Inconsistent(g, r) == {} {
      forall p | 0 <= p < g.pairs && !g.diagonal[p] ensures r[p] == Best(g, r, p) {
        assert p !in Inconsistent(g, r);
      }
    }
  }

  /** No record promises less than its re-evaluation. */
  ghost predicate OverEstimate(g: Graph, r: Entries)
    requires Fits(g, r)
  {
    Rooted(g, r) &&
    forall p {:trigger Best(g, r, p)} | 0 <= p < g.pairs && !g.diagonal[p] :: Best(g, r, p).distance <= r[p].distance
  }

  /** Outside T, no record promises more than its re-evaluation. */
  ghost predicate UnderEstimate(g: Graph, r: Entries, T: set<nat>)
    requires Fits(g, r)
  {
    Rooted(g, r) &&
    forall p {:trigger Best(g, r, p)} | 0 <= p < g.pairs && !g.diagonal[p] && p !in T ::
        r[p].distance <= Best(g, r, p).distance
  }

  /** One below the sentinel is the distance the program refuses to add one to. */
  ghost predicate Addable(r: Entries) {
    forall p | 0 <= p < |r| :: r[p].distance < NONE - 1 || r[p].distance == NONE
  }

  // ---------- Words ----------

  /** Word w, read from pair p, meets the objective without visiting T on the way. */
  ghost predicate SolvesAvoiding(g: Graph, T: set<nat>, p: nat, w: seq<nat>)
    requires g.Valid()
    decreases |w|
  {
    && p < g.pairs
    && p !in T
    && (g.diagonal[p] ||
        (|w| > 0 && w[0] < g.actions && (g.ends[p][w[0]] || SolvesAvoiding(g, T, g.next[p][w[0]], w[1..]))))
  }

  ghost predicate Solves(g: Graph, p: nat, w: seq<nat>)
    requires g.Valid()
  {
    SolvesAvoiding(g, {}, p, w)
  }

  /** A finite over-estimate is backed by a word that avoids every unreachable record. */
  lemma {:induction false} OverEstimateHasWord(g: Graph, r: Entries, T: set<nat>, p: nat) returns (w: seq<nat>)
    requires Fits(g, r) && OverEstimate(g, r) && p < g.pairs && r[p].distance < NONE
    requires forall x | x in T && x < g.pairs :: r[x].distance == NONE
    ensures SolvesAvoiding(g, T, p, w) && |w| <= r[p].distance
    decreases r[p].distance
  {
    if g.diagonal[p] {
      w := [];
    } else {
      var a := Best(g, r, p).action;
      if g.ends[p][a] {
        w := [a];
      } else {
        var v := OverEstimateHasWord(g, r, T, g.next[p][a]);
        w := [a] + v;
        assert w[1..] == v;
      }
    }
  }

  /** An under-estimate outside T is a lower bound for every word that avoids T. */
  lemma {:induction false} UnderEstimateBoundsWords(g: Graph, r: Entries, T: set<nat>, p: nat, w: seq<nat>)
    requires Fits(g, r) && Addable(r) && UnderEstimate(g, r, T)
    requires SolvesAvoiding(g, T, p, w)
    ensures r[p].distance < NONE && r[p].distance <= |w|
    decreases |w|
  {
    if !g.diagonal[p] {
      var a := w[0];
      assert Best(g, r, p).distance <= Cost(g, r, p, a);
      if !g.ends[p][a] {
        UnderEstimateBoundsWords(g, r, T, g.next[p][a], w[1..]);
      }
    }
  }

  lemma ConsistentIsBoth(g: Graph, r: Entries)
    requires Consistent(g, r)
    ensures OverEstimate(g, r) && UnderEstimate(g, r, {})
  {
  }

  /** The record of a full rebuild is the length of a shortest word, and the
      sentinel exactly when there is no word. */
  lemma ConsistentIsShortest(g: Graph, r: Entries, p: nat)
    requires Consistent(g, r) && Addable(r) && p < g.pairs
    ensures r[p].distance < NONE <==> exists w :: Solves(g, p, w)
    ensures r[p].distance < NONE ==> exists w :: Solves(g, p, w) && |w| == r[p].distance
    ensures forall w | Solves(g, p, w) :: r[p].distance <= |w|
  {
    ConsistentIsBoth(g, r);
    if r[p].distance < NONE {
      var w := OverEstimateHasWord(g, r, {}, p);
      UnderEstimateBoundsWords(g, r, {}, p, w);
      assert Solves(g, p, w);
    }
    forall w | Solves(g, p, w) ensures r[p].distance < NONE && r[p].distance <= |w| {
      UnderEstimateBoundsWords(g, r, {}, p, w);
    }
  }

  /** The unit-weight fixpoint is unique: all five fields of all records. */
  lemma ConsistentIsUnique(g: Graph, r: Entries, s: Entries)
    requires Consistent(g, r) && Addable(r)
    requires Consistent(g, s) && Addable(s)
    ensures r == s
  {
    forall p | 0 <= p < g.pairs ensures r[p].distance == s[p].distance {
      ConsistentIsShortest(g, r, p);
      ConsistentIsShortest(g, s, p);
    }
    forall p | 0 <= p < g.pairs ensures r[p] == s[p] {
      BestReadsDistances(g, r, s, p);
    }
  }
}
