/** No finite distance ever comes near the sentinel, so the program's check before
    adding one to a distance never fails on records that started truthful. */
module RepairBounds {
  import opened Records
  import opened PairGraph
  import opened RepairSpec
  import opened RepairTheory

  /** An array of one size_t per pair was allocated, so this many pairs fit. */
  ghost predicate Allocatable(g: Graph) { g.pairs <= SIZE_MAX / 8 }

  ghost predicate BoundedBy(r: Entries, limit: nat) {
    forall p | 0 <= p < |r| :: r[p].distance <= limit || r[p].distance == NONE
  }

  lemma BestIsBounded(g: Graph, r: Entries, limit: nat, p: nat)
    requires Fits(g, r) && BoundedBy(r, limit) && p < g.pairs
    ensures Best(g, r, p).distance <= limit + 1 || Best(g, r, p).distance == NONE
  {
  }

  lemma SettledIsBounded(g: Graph, r: Entries, limit: nat, batch: set<nat>)
    requires Fits(g, r) && BoundedBy(r, limit) && batch <= Upto(g.pairs)
    ensures BoundedBy(Settled(g, r, batch), limit + 1)
  {
    forall p | p in batch ensures Best(g, r, p).distance <= limit + 1 || Best(g, r, p).distance == NONE {
      BestIsBounded(g, r, limit, p);
    }
  }

  // ---------- Truthful records are dense ----------

  ghost function Within(r: Entries, v: nat): (s: set<nat>)
    ensures forall p: nat :: p in s <==> p < |r| && r[p].distance <= v
  {
    set p | p in Upto(|r|) && r[p].distance <= v
  }

  lemma {:induction false} UptoSize(k: nat)
    ensures |Upto(k)| == k
  {
    if k > 0 {
      UptoSize(k - 1);
      assert Upto(k) == Upto(k - 1) + {k - 1};
    }
  }

  lemma SubsetSize(small: set<nat>, large: set<nat>)
    requires small <= large
    ensures |small| <= |large|
  {
    assert large == small + (large - small);
  }

  lemma OneMore(small: set<nat>, x: nat, large: set<nat>)
    requires small <= large && x in large && x !in small
    ensures |small| + 1 <= |large|
  {
    SubsetSize(small + {x}, large);
  }

  lemma SizeInPairs(g: Graph, s: set<nat>)
    requires s <= Upto(g.pairs)
    ensures |s| <= g.pairs
  {
    UptoSize(g.pairs);
    SubsetSize(s, Upto(g.pairs));
  }

  /** There are at least v - slack pairs at distance v or less, for each v in use. */
  ghost predicate Dense(r: Entries, slack: nat) {
    forall p {:trigger Within(r, r[p].distance)} | 0 <= p < |r| && r[p].distance < NONE ::
      r[p].distance <= slack + |Within(r, r[p].distance)|
  }

  lemma DenseIsBounded(g: Graph, r: Entries, slack: nat)
    requires Fits(g, r) && Dense(r, slack)
    ensures BoundedBy(r, slack + g.pairs)
  {
    forall p | 0 <= p < |r| && r[p].distance < NONE ensures r[p].distance <= slack + g.pairs {
      SizeInPairs(g, Within(r, r[p].distance));
    }
  }

  lemma BoundedIsDense(r: Entries, slack: nat)
    requires BoundedBy(r, slack)
    ensures Dense(r, slack)
  {
  }

  /** A pair relaxed to distance v adds itself to the pairs within v - 1. */
  lemma RelaxedCounts(g: Graph, r: Entries, s: Entries, slack: nat, p: nat)
    requires Fits(g, r) && Fits(g, s) && AtMost(g, s, r) && Dense(r, slack) && p < g.pairs
    requires s[p].distance == Best(g, r, p).distance <= r[p].distance && s[p].distance < NONE
    ensures s[p].distance <= slack + |Within(s, s[p].distance)|
  {
    var v := s[p].distance;
    var a := Best(g, r, p).action;
    assert Cost(g, r, p, a) == v;
    if g.ends[p][a] {
      assert {p} <= Within(s, v);
      SubsetSize({p}, Within(s, v));
    } else {
      var q := g.next[p][a];
      assert v - 1 <= slack + |Within(r, v - 1)| by {
        assert r[q].distance == v - 1;
      }
      OneMore(Within(r, v - 1), p, Within(s, v));
    }
  }

  /** The step that rebuild and propagation share keeps records dense. */
  lemma RelaxedKeepsDense(g: Graph, r: Entries, slack: nat, batch: set<nat>)
    requires Fits(g, r) && OverEstimate(g, r) && Dense(r, slack)
    requires batch <= Upto(g.pairs) && forall p | p in batch :: !g.diagonal[p]
    ensures Dense(Relaxed(g, r, batch), slack)
  {
    var s := Relaxed(g, r, batch);
    RelaxedKeepsOverEstimate(g, r, batch);
    forall p | 0 <= p < |s| && s[p].distance < NONE ensures s[p].distance <= slack + |Within(s, s[p].distance)| {
      if p in batch {
        assert Best(g, r, p).distance <= r[p].distance;
        RelaxedCounts(g, r, s, slack, p);
      } else {
        SubsetSize(Within(r, s[p].distance), Within(s, s[p].distance));
      }
    }
  }

  lemma {:induction false} TruthfulLevels(g: Graph, r: Entries, p: nat)
    requires Truthful(g, r) && p < g.pairs && r[p].distance < NONE
    ensures r[p].distance <= |Within(r, r[p].distance)|
    decreases r[p].distance
  {
    var v := r[p].distance;
    if v > 0 {
      assert r[p] == Best(g, r, p);
      assert Cost(g, r, p, r[p].action) == v;
      if g.ends[p][r[p].action] {
        SubsetSize({p}, Within(r, v));
      } else {
        TruthfulLevels(g, r, g.next[p][r[p].action]);
        OneMore(Within(r, v - 1), p, Within(r, v));
      }
    }
  }

  lemma TruthfulIsBounded(g: Graph, r: Entries)
    requires Truthful(g, r)
    ensures BoundedBy(r, g.pairs)
  {
    forall p | 0 <= p < |r| && r[p].distance < NONE ensures r[p].distance <= 0 + |Within(r, r[p].distance)| {
      TruthfulLevels(g, r, p);
    }
    DenseIsBounded(g, r, 0);
  }

  lemma ExactIsBounded(g: Graph, r: Entries)
    requires Consistent(g, r)
    ensures BoundedBy(r, g.pairs)
  {
    ConsistentIsTruthful(g, r);
    TruthfulIsBounded(g, r);
  }

  // ---------- Every phase ----------

  /** Records entering a batch of phase two stay below this limit. */
  ghost predicate BoundedWhileSettling(g: Graph, s: Phase, wave: set<nat>) {
    wave <= s.invalid && BoundedBy(s.records, g.pairs + 1 + |s.invalid - wave|)
  }

  lemma SeedIsBounded(g: Graph, r: Entries, seeds: set<nat>, touched: set<nat>)
    requires Fits(g, r) && BoundedBy(r, g.pairs) && touched <= Upto(g.pairs)
    ensures var s := Seed(g, r, seeds, touched); BoundedWhileSettling(g, s, s.invalid)
  {
    SettledIsBounded(g, r, g.pairs, OffDiagonal(g, seeds));
  }

  lemma InvalidateStepIsBounded(g: Graph, s: Phase, wave: set<nat>)
    requires PhaseFits(g, s) && BoundedWhileSettling(g, s, wave) && wave != {}
    ensures var batch := Sources(g, wave) - s.invalid;
            BoundedWhileSettling(g, SettleBatch(g, s, batch), Raised(g, s.records, batch))
  {
    var batch := Sources(g, wave) - s.invalid;
    var raised := Raised(g, s.records, batch);
    var t := SettleBatch(g, s, batch);
    SettledIsBounded(g, s.records, g.pairs + 1 + |s.invalid - wave|, batch);
    assert t.invalid - raised == s.invalid == (s.invalid - wave) + wave;
    assert |wave| >= 1;
  }

  lemma {:induction false} InvalidateIsBounded(g: Graph, s: Phase, wave: set<nat>)
    requires PhaseFits(g, s) && BoundedWhileSettling(g, s, wave)
    ensures BoundedWhileSettling(g, Invalidate(g, s, wave), {})
    decreases Upto(g.pairs) - s.invalid, wave
  {
    if wave != {} {
      var batch := Sources(g, wave) - s.invalid;
      var raised := Raised(g, s.records, batch);
      InvalidateStepIsBounded(g, s, wave);
      assert raised != {} ==> exists p :: p in raised && p in Upto(g.pairs) - s.invalid;
      InvalidateIsBounded(g, SettleBatch(g, s, batch), raised);
    }
  }

  lemma InvalidatedIsDense(g: Graph, s: Phase)
    requires PhaseFits(g, s) && BoundedWhileSettling(g, s, {})
    ensures Dense(s.records, 2 * g.pairs + 1)
  {
    SizeInPairs(g, s.invalid - {});
    BoundedIsDense(s.records, 2 * g.pairs + 1);
  }

  lemma LevelKeepsDense(g: Graph, r: Entries, todo: set<nat>, slack: nat)
    requires Fits(g, r) && OverEstimate(g, r) && Vacant(g, r, todo) && Dense(r, slack)
    ensures var level := Nearest(g, r, todo); var s := Relaxed(g, r, level);
            OverEstimate(g, s) && Vacant(g, s, todo - level) && Dense(s, slack)
  {
    var level := Nearest(g, r, todo);
    RelaxedKeepsOverEstimate(g, r, level);
    RelaxedKeepsDense(g, r, slack, level);
  }

  lemma {:induction false} RebuildKeepsDense(g: Graph, r: Entries, todo: set<nat>, slack: nat)
    requires Fits(g, r) && OverEstimate(g, r) && Vacant(g, r, todo) && Dense(r, slack)
    ensures Dense(Rebuild(g, r, todo), slack)
    decreases todo
  {
    var level := Nearest(g, r, todo);
    if level != {} {
      assert exists p :: p in level && p in todo;
      LevelKeepsDense(g, r, todo, slack);
      RebuildKeepsDense(g, Relaxed(g, r, level), todo - level, slack);
    }
  }

  lemma {:induction false} PropagateKeepsDense(g: Graph, r: Entries, wave: set<nat>, slack: nat)
    requires Fits(g, r) && OverEstimate(g, r) && Dense(r, slack)
    ensures Dense(Propagate(g, r, wave), slack)
    decreases Total(r, g.pairs), wave
  {
    if wave != {} {
      var batch := Sources(g, wave);
      RelaxedKeepsOverEstimate(g, r, batch);
      LoweringLowersTotal(g, r, batch);
      RelaxedKeepsDense(g, r, slack, batch);
      PropagateKeepsDense(g, Relaxed(g, r, batch), Lowered(g, r, batch), slack);
    }
  }

  lemma DenseIsAddable(g: Graph, r: Entries)
    requires Fits(g, r) && Dense(r, 2 * g.pairs + 1) && Allocatable(g)
    ensures Addable(r)
  {
    DenseIsBounded(g, r, 2 * g.pairs + 1);
  }

  lemma BoundedIsAddable(g: Graph, s: Phase, wave: set<nat>)
    requires PhaseFits(g, s) && BoundedWhileSettling(g, s, wave) && Allocatable(g)
    ensures Addable(s.records)
  {
    SizeInPairs(g, s.invalid - wave);
  }
}
