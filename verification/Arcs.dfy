/** Arcs of the pair graph as the store hands them out. */
module Arcs {
  import opened Pairs

  datatype Arc = Arc(source: nat, action: nat, target: nat, outputsDiffer: bool)

  ghost predicate IsArc(m: Automaton, arc: Arc) {
    && m.Valid() && arc.source < PairCount(m.states) && arc.action < m.actions
    && arc.target == Target(m, arc.source, arc.action)
    && arc.outputsDiffer == OutputsDiffer(m, arc.source, arc.action)
  }

  ghost function ArcOf(m: Automaton, p: nat, a: nat): (arc: Arc)
    requires m.Valid() && p < PairCount(m.states) && a < m.actions
    ensures IsArc(m, arc)
  {
    Arc(p, a, Target(m, p, a), OutputsDiffer(m, p, a))
  }

  ghost predicate Differ<T>(s: seq<T>, i: nat, j: nat)
    requires i < |s| && j < |s|
  {
    s[i] != s[j]
  }

  ghost predicate Distinct<T>(s: seq<T>) {
    forall i, j {:trigger Differ(s, i, j)} | 0 <= i < j < |s| :: Differ(s, i, j)
  }

  lemma DistinctAppend<T>(s: seq<T>, x: T)
    requires Distinct(s) && x !in s
    ensures Distinct(s + [x])
  {
    forall i, j | 0 <= i < j < |s| + 1 ensures Differ(s + [x], i, j) {
      if j < |s| {
        assert Differ(s, i, j);
      }
    }
  }

  lemma DistinctAt<T>(s: seq<T>, i: nat, j: nat)
    requires Distinct(s) && i < |s| && j < |s| && i != j
    ensures s[i] != s[j]
  {
    assert Differ(s, if i < j then i else j, if i < j then j else i);
  }

  /** An element of a distinct list does not occur before or after itself. */
  lemma DistinctIndex<T>(s: seq<T>, k: nat)
    requires Distinct(s) && k < |s|
    ensures s[k] !in s[..k] && forall l | k < l < |s| :: s[l] != s[k]
  {
    forall l | 0 <= l < |s| && l != k ensures s[l] != s[k] {
      DistinctAt(s, l, k);
    }
  }

  // ---------- Arcs into one pair under one action ----------

  /** An ordered pair of states that the action sends to targets t0 and t1; each
      unordered pair of states once. */
  ghost predicate Feeds(m: Automaton, a: nat, t0: nat, t1: nat, i: nat, j: nat) {
    && m.Valid() && a < m.actions && i < m.states && j < m.states
    && m.delta[i][a] == t0 && m.delta[j][a] == t1 && (t0 == t1 ==> i <= j)
  }

  ghost function FedArc(m: Automaton, a: nat, t: nat, i: nat, j: nat): Arc
    requires m.Valid() && a < m.actions && i < m.states && j < m.states
  {
    Arc(PairIndex(m.states, i, j), a, t, m.eta[i][a] != m.eta[j][a])
  }

  lemma FedArcIsArc(m: Automaton, a: nat, t: nat, i: nat, j: nat)
    requires m.Valid() && t < PairCount(m.states)
    requires Feeds(m, a, States(m.states, t).0, States(m.states, t).1, i, j)
    ensures IsArc(m, FedArc(m, a, t, i, j))
  {
    StatesSwapped(m.states, i, j);
    var (u, v) := States(m.states, t);
    IndexInRange(m.states, u, v);
  }

  /** Every arc into t is fed by some ordered pair. */
  lemma ArcIsFed(m: Automaton, arc: Arc) returns (i: nat, j: nat)
    requires IsArc(m, arc)
    ensures arc.target < PairCount(m.states)
    ensures var (u, v) := States(m.states, arc.target); Feeds(m, arc.action, u, v, i, j)
    ensures arc == FedArc(m, arc.action, arc.target, i, j)
  {
    var (k, l) := States(m.states, arc.source);
    var x, y := m.delta[k][arc.action], m.delta[l][arc.action];
    StatesSwapped(m.states, x, y);
    if x <= y { i, j := k, l; } else { i, j := l, k; }
    IndexInRange(m.states, k, l);
  }

  /** Different ordered pairs feed different unordered pairs. */
  lemma FeedsIsInjective(m: Automaton, a: nat, t0: nat, t1: nat, i: nat, j: nat, k: nat, l: nat)
    requires Feeds(m, a, t0, t1, i, j) && Feeds(m, a, t0, t1, k, l)
    requires PairIndex(m.states, i, j) == PairIndex(m.states, k, l)
    ensures i == k && j == l
  {
    StatesSwapped(m.states, i, j);
    StatesSwapped(m.states, k, l);
  }

  /** The ordered pairs before (first, second) that feed pair t, and their arcs. */
  ghost predicate Scanned(m: Automaton, a: nat, t: nat, first: nat, second: nat,
                          fed: seq<(nat, nat)>, arcs: seq<Arc>) {
    && m.Valid() && a < m.actions && t < PairCount(m.states)
    && |fed| == |arcs| && Distinct(fed)
    && (forall i: nat, j: nat :: (i, j) in fed <==>
          && Feeds(m, a, States(m.states, t).0, States(m.states, t).1, i, j)
          && (i < first || (i == first && j < second)))
    && (forall k | 0 <= k < |fed| :: arcs[k] == FedArc(m, a, t, fed[k].0, fed[k].1))
  }

  lemma ScannedNext(m: Automaton, a: nat, t: nat, first: nat, second: nat, fed: seq<(nat, nat)>, arcs: seq<Arc>)
    requires Scanned(m, a, t, first, second, fed, arcs) && first < m.states && second < m.states
    ensures var (t0, t1) := States(m.states, t);
            if Feeds(m, a, t0, t1, first, second)
            then Scanned(m, a, t, first, second + 1, fed + [(first, second)], arcs + [FedArc(m, a, t, first, second)])
            else Scanned(m, a, t, first, second + 1, fed, arcs)
  {
    var (t0, t1) := States(m.states, t);
    if Feeds(m, a, t0, t1, first, second) {
      var all := fed + [(first, second)];
      DistinctAppend(fed, (first, second));
      forall i, j ensures (i, j) in all <==> (i, j) in fed || (i == first && j == second) {}
    }
  }

  ghost predicate IncomingByAction(m: Automaton, t: nat, a: nat, arcs: seq<Arc>) {
    Distinct(arcs) && forall arc :: arc in arcs <==> IsArc(m, arc) && arc.target == t && arc.action == a
  }

  lemma ScannedAll(m: Automaton, a: nat, t: nat, fed: seq<(nat, nat)>, arcs: seq<Arc>)
    requires Scanned(m, a, t, m.states, 0, fed, arcs)
    ensures IncomingByAction(m, t, a, arcs)
  {
    var (t0, t1) := States(m.states, t);
    forall arc ensures arc in arcs <==> IsArc(m, arc) && arc.target == t && arc.action == a {
      if arc in arcs {
        var k :| 0 <= k < |arcs| && arcs[k] == arc;
        assert (fed[k].0, fed[k].1) in fed;
        FedArcIsArc(m, a, t, fed[k].0, fed[k].1);
      }
      if IsArc(m, arc) && arc.target == t && arc.action == a {
        var i, j := ArcIsFed(m, arc);
        assert (i, j) in fed;
      }
    }
    forall k, l | 0 <= k < l < |arcs| ensures Differ(arcs, k, l) {
      DistinctAt(fed, k, l);
      assert (fed[k].0, fed[k].1) in fed && (fed[l].0, fed[l].1) in fed;
      if PairIndex(m.states, fed[k].0, fed[k].1) == PairIndex(m.states, fed[l].0, fed[l].1) {
        FeedsIsInjective(m, a, t0, t1, fed[k].0, fed[k].1, fed[l].0, fed[l].1);
      }
    }
  }

  // ---------- What the store's two arc readers return ----------

  /** The transpose: each arc into the given targets, and only once. */
  ghost predicate Incoming(m: Automaton, targets: set<nat>, arcs: seq<Arc>) {
    Distinct(arcs) && forall arc :: arc in arcs <==> IsArc(m, arc) && arc.target in targets
  }

  ghost predicate IncomingUpto(m: Automaton, t: nat, actions: nat, arcs: seq<Arc>) {
    Distinct(arcs) && forall arc :: arc in arcs <==> IsArc(m, arc) && arc.target == t && arc.action < actions
  }

  lemma DistinctConcat<T>(s: seq<T>, t: seq<T>)
    requires Distinct(s) && Distinct(t) && forall x | x in s :: x !in t
    ensures Distinct(s + t)
  {
    var u := s + t;
    forall i, j | 0 <= i < j < |u| ensures Differ(u, i, j) {
      if j < |s| {
        assert Differ(s, i, j);
      } else if i >= |s| {
        assert Differ(t, i - |s|, j - |s|);
      } else {
        assert s[i] in s && t[j - |s|] in t;
      }
    }
  }

  lemma NextAction(m: Automaton, t: nat, a: nat, before: seq<Arc>, arcs: seq<Arc>)
    requires IncomingUpto(m, t, a, before) && IncomingByAction(m, t, a, arcs)
    ensures IncomingUpto(m, t, a + 1, before + arcs)
  {
    DistinctConcat(before, arcs);
  }

  lemma NextTarget(m: Automaton, targets: set<nat>, t: nat, before: seq<Arc>, arcs: seq<Arc>)
    requires m.Valid() && Incoming(m, targets, before) && IncomingUpto(m, t, m.actions, arcs) && t !in targets
    ensures Incoming(m, targets + {t}, before + arcs)
  {
    DistinctConcat(before, arcs);
  }

  /** The arcs out of the listed pairs, in whatever order: all of them, once each
      if the list repeats no pair. */
  ghost predicate Outgoing(m: Automaton, sources: seq<nat>, arcs: seq<Arc>) {
    && m.Valid()
    && |arcs| == |sources| * m.actions
    && (forall arc :: arc in arcs <==> IsArc(m, arc) && arc.source in sources)
    && (Distinct(sources) ==> Distinct(arcs))
  }

  ghost function RowArcs(m: Automaton, p: nat): (arcs: seq<Arc>)
    requires m.Valid() && p < PairCount(m.states)
    ensures |arcs| == m.actions && forall a | 0 <= a < m.actions :: arcs[a] == ArcOf(m, p, a)
  {
    seq(m.actions, a requires 0 <= a < m.actions => ArcOf(m, p, a))
  }

  lemma RowArcsAreAll(m: Automaton, p: nat)
    requires m.Valid() && p < PairCount(m.states)
    ensures Distinct(RowArcs(m, p))
    ensures forall arc :: arc in RowArcs(m, p) <==> IsArc(m, arc) && arc.source == p
  {
    var row := RowArcs(m, p);
    forall arc | IsArc(m, arc) && arc.source == p ensures arc in row {
      assert row[arc.action] == arc;
    }
    forall i, j | 0 <= i < j < |row| ensures Differ(row, i, j) {
      assert row[i].action == i && row[j].action == j;
    }
  }

  lemma DistinctPrefix<T>(s: seq<T>, x: T)
    requires Distinct(s + [x])
    ensures Distinct(s) && x !in s
  {
    var u := s + [x];
    forall i, j | 0 <= i < j < |s| ensures Differ(s, i, j) {
      assert Differ(u, i, j);
    }
    forall i | 0 <= i < |s| ensures s[i] != x {
      assert Differ(u, i, |s|);
    }
  }

  lemma NextSource(m: Automaton, sources: seq<nat>, p: nat, arcs: seq<Arc>)
    requires Outgoing(m, sources, arcs) && p < PairCount(m.states)
    ensures Outgoing(m, sources + [p], arcs + RowArcs(m, p))
  {
    var row := RowArcs(m, p);
    RowArcsAreAll(m, p);
    if Distinct(sources + [p]) {
      DistinctPrefix(sources, p);
      DistinctConcat(arcs, row);
    }
    assert (|sources| + 1) * m.actions == |sources| * m.actions + m.actions;
  }
}
