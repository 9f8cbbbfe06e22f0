/** The predecessor index: a counting sort of all pair edges by their target. */
module Predecessors {
  import opened Pairs
  import opened Columns

  /** How many of the first k edges lead to the target. */
  ghost function Count(next: seq<nat>, target: nat, k: nat): (c: nat)
    requires k <= |next|
    ensures c <= k
  {
    if k == 0 then 0 else Count(next, target, k - 1) + (if next[k - 1] == target then 1 else 0)
  }

  /** Where the slice of a target starts. */
  ghost function Start(next: seq<nat>, target: nat): nat {
    if target == 0 then 0 else Start(next, target - 1) + Count(next, target - 1, |next|)
  }

  /** Where an edge goes: edges with the same target keep their order. */
  ghost function Slot(next: seq<nat>, e: nat): nat
    requires e < |next|
  {
    Start(next, next[e]) + Count(next, next[e], e)
  }

  lemma {:induction false} CountGrows(next: seq<nat>, target: nat, j: nat, k: nat)
    requires j <= k <= |next|
    ensures Count(next, target, j) <= Count(next, target, k)
    ensures j < k && next[j] == target ==> Count(next, target, j) < Count(next, target, k)
    decreases k - j
  {
    if j < k {
      CountGrows(next, target, j + 1, k);
    }
  }

  lemma {:induction false} StartsAscend(next: seq<nat>, s: nat, t: nat)
    requires s <= t
    ensures Start(next, s) <= Start(next, t)
    ensures s < t ==> Start(next, s) + Count(next, s, |next|) <= Start(next, t)
  {
    if s < t - 1 {
      StartsAscend(next, s, t - 1);
    }
  }

  lemma SlotInSlice(next: seq<nat>, e: nat)
    requires e < |next|
    ensures Start(next, next[e]) <= Slot(next, e) < Start(next, next[e] + 1)
  {
    CountGrows(next, next[e], e, |next|);
  }

  /** No two edges share a slot. */
  lemma SlotsDiffer(next: seq<nat>, e: nat, f: nat)
    requires e < f < |next|
    ensures Slot(next, e) != Slot(next, f)
  {
    if next[e] == next[f] {
      CountGrows(next, next[e], e, f);
    } else {
      SlotInSlice(next, e);
      SlotInSlice(next, f);
      if next[e] < next[f] {
        StartsAscend(next, next[e] + 1, next[f]);
      } else {
        StartsAscend(next, next[f] + 1, next[e]);
      }
    }
  }

  /** Every slot of a slice is taken. */
  lemma {:induction false} SlotIsTaken(next: seq<nat>, target: nat, c: nat, k: nat) returns (e: nat)
    requires k <= |next| && c < Count(next, target, k)
    ensures e < k && next[e] == target && Count(next, target, e) == c
    decreases k
  {
    if c < Count(next, target, k - 1) {
      e := SlotIsTaken(next, target, c, k - 1);
    } else {
      e := k - 1;
    }
  }

  /** All slices together have one slot for each edge. */
  lemma {:induction false} StartsTotal(next: seq<nat>, pairs: nat, k: nat)
    requires k <= |next| && forall e | 0 <= e < |next| :: next[e] < pairs
    ensures CountBelow(next, pairs, k) == k
  {
    if k > 0 {
      StartsTotal(next, pairs, k - 1);
      CountBelowStep(next, pairs, k);
    } else {
      NoneBelow(next, pairs);
    }
  }

  lemma {:induction false} NoneBelow(next: seq<nat>, limit: nat)
    ensures CountBelow(next, limit, 0) == 0
  {
    if limit > 0 {
      NoneBelow(next, limit - 1);
    }
  }

  ghost function CountBelow(next: seq<nat>, limit: nat, k: nat): nat
    requires k <= |next|
  {
    if limit == 0 then 0 else CountBelow(next, limit - 1, k) + Count(next, limit - 1, k)
  }

  lemma {:induction false} CountBelowStep(next: seq<nat>, limit: nat, k: nat)
    requires 0 < k <= |next|
    ensures CountBelow(next, limit, k) == CountBelow(next, limit, k - 1) + (if next[k - 1] < limit then 1 else 0)
  {
    if limit > 0 {
      CountBelowStep(next, limit - 1, k);
    }
  }

  lemma {:induction false} StartIsCountBelow(next: seq<nat>, limit: nat)
    ensures Start(next, limit) == CountBelow(next, limit, |next|)
  {
    if limit > 0 {
      StartIsCountBelow(next, limit - 1);
    }
  }

  lemma SlotInRange(next: seq<nat>, pairs: nat, e: nat)
    requires forall f | 0 <= f < |next| :: next[f] < pairs
    requires e < |next|
    ensures Slot(next, e) < |next|
    ensures Start(next, pairs) == |next|
  {
    SlotInSlice(next, e);
    StartsAscend(next, next[e] + 1, pairs);
    StartIsCountBelow(next, pairs);
    StartsTotal(next, pairs, |next|);
  }

  // ---------- Edges ----------

  /** The flat index of a pair edge. */
  function Edge(actions: nat, pair: nat, action: nat): nat { pair * actions + action }

  lemma EdgeInRange(pairs: nat, actions: nat, pair: nat, action: nat)
    requires pair < pairs && action < actions
    ensures Edge(actions, pair, action) < pairs * actions
  {
    FlatInRange(actions, pairs, pair, action);
  }

  /** Every flat index is one edge. */
  lemma EdgeOf(pairs: nat, actions: nat, e: nat) returns (pair: nat, action: nat)
    requires e < pairs * actions
    ensures pair < pairs && action < actions && Edge(actions, pair, action) == e
  {
    pair, action := e / actions, e % actions;
    if pair >= pairs {
      ProductGrows(pairs, actions, pair, actions);
    }
  }

  // ---------- The index ----------

  datatype Index = Index(offsets: seq<nat>, pairs: seq<nat>, actions: seq<nat>)

  ghost predicate Holds(index: Index, slot: nat, pair: nat, action: nat) {
    slot < |index.pairs| == |index.actions| && index.pairs[slot] == pair && index.actions[slot] == action
  }

  /** Offsets are the starts of the slices, and every edge is in its own slot. */
  ghost predicate Sorts(index: Index, next: seq<nat>, pairs: nat, actions: nat) {
    && |next| == pairs * actions == |index.pairs| == |index.actions| && |index.offsets| == pairs + 1
    && (forall e | 0 <= e < |next| :: next[e] < pairs)
    && (forall t {:trigger index.offsets[t]} | 0 <= t <= pairs :: index.offsets[t] == Start(next, t))
    && (forall pair, action {:trigger Edge(actions, pair, action)} | 0 <= pair < pairs && 0 <= action < actions ::
          && Edge(actions, pair, action) < |next|
          && Holds(index, Slot(next, Edge(actions, pair, action)), pair, action))
  }

  /** A slice holds nothing but edges into its target. */
  lemma SliceIsInto(index: Index, next: seq<nat>, pairs: nat, actions: nat, target: nat, slot: nat)
    requires Sorts(index, next, pairs, actions) && target < pairs
    requires index.offsets[target] <= slot < index.offsets[target + 1]
    ensures slot < |index.pairs| && index.pairs[slot] < pairs && index.actions[slot] < actions
    ensures Edge(actions, index.pairs[slot], index.actions[slot]) < |next|
    ensures next[Edge(actions, index.pairs[slot], index.actions[slot])] == target
    ensures Slot(next, Edge(actions, index.pairs[slot], index.actions[slot])) == slot
  {
    var e := SlotIsTaken(next, target, slot - Start(next, target), |next|);
    var pair, action := EdgeOf(pairs, actions, e);
    assert Holds(index, Slot(next, e), pair, action);
  }

  /** Every edge is in the slice of its target, and in one place only. */
  lemma EdgeIsInSlice(index: Index, next: seq<nat>, pairs: nat, actions: nat, pair: nat, action: nat)
    returns (slot: nat)
    requires Sorts(index, next, pairs, actions) && pair < pairs && action < actions
    ensures Edge(actions, pair, action) < |next|
    ensures var target := next[Edge(actions, pair, action)];
            && target < pairs && index.offsets[target] <= slot < index.offsets[target + 1] <= |next|
            && Holds(index, slot, pair, action)
    ensures forall i | 0 <= i < |next| && Holds(index, i, pair, action) :: i == slot
  {
    var e := Edge(actions, pair, action);
    slot := Slot(next, e);
    SlotInSlice(next, e);
    SlotInRange(next, pairs, e);
    StartsAscend(next, next[e] + 1, pairs);
    forall i | 0 <= i < |next| && Holds(index, i, pair, action) ensures i == slot {
      var t := SliceOf(next, pairs, i);
      SliceIsInto(index, next, pairs, actions, t, i);
    }
  }

  /** Every slot is in some slice. */
  lemma {:induction false} SliceOf(next: seq<nat>, pairs: nat, slot: nat) returns (t: nat)
    requires slot < Start(next, pairs)
    ensures t < pairs && Start(next, t) <= slot < Start(next, t + 1)
    decreases pairs
  {
    if slot < Start(next, pairs - 1) {
      t := SliceOf(next, pairs - 1, slot);
    } else {
      t := pairs - 1;
    }
  }

  method CountTargets(next: seq<nat>, pairs: nat) returns (counts: array<nat>)
    requires forall e | 0 <= e < |next| :: next[e] < pairs
    ensures fresh(counts) && counts.Length == pairs
    ensures forall t {:trigger counts[t]} | 0 <= t < pairs :: counts[t] == Count(next, t, |next|)
  {
    counts := new nat[pairs](_ => 0);
    for edge := 0 to |next|
      invariant forall t {:trigger counts[t]} | 0 <= t < pairs :: counts[t] == Count(next, t, edge)
    {
      counts[next[edge]] := counts[next[edge]] + 1;
    }
  }

  /** The first k edges are in their slots. */
  ghost predicate Filled(next: seq<nat>, pairs: nat, actions: nat, sources: seq<nat>, labels: seq<nat>, k: nat) {
    && |sources| == |labels| == |next|
    && forall pair, action {:trigger Edge(actions, pair, action)} | 0 <= pair < pairs && 0 <= action < actions
                            && Edge(actions, pair, action) < k <= |next| ::
         Holds(Index([], sources, labels), Slot(next, Edge(actions, pair, action)), pair, action)
  }

  lemma FillNext(next: seq<nat>, pairs: nat, actions: nat, sources: seq<nat>, labels: seq<nat>, pair: nat, action: nat)
    requires |next| == pairs * actions && forall f | 0 <= f < |next| :: next[f] < pairs
    requires pair < pairs && action < actions && Edge(actions, pair, action) < |next|
    requires Filled(next, pairs, actions, sources, labels, Edge(actions, pair, action))
    ensures Slot(next, Edge(actions, pair, action)) < |sources|
    ensures var slot := Slot(next, Edge(actions, pair, action));
            Filled(next, pairs, actions, sources[slot := pair], labels[slot := action], Edge(actions, pair, action) + 1)
  {
    var e := Edge(actions, pair, action);
    var slot := Slot(next, e);
    SlotInRange(next, pairs, e);
    forall p, a | 0 <= p < pairs && 0 <= a < actions && Edge(actions, p, a) < e + 1
      ensures Holds(Index([], sources[slot := pair], labels[slot := action]), Slot(next, Edge(actions, p, a)), p, a)
    {
      if Edge(actions, p, a) == e {
        FlatInjective(actions, p, a, pair, action);
      } else {
        SlotsDiffer(next, Edge(actions, p, a), e);
      }
    }
  }

  /** Turn counts into offsets, and each count into the next free slot. */
  method SumCounts(next: seq<nat>, pairs: nat, counts: array<nat>) returns (offsets: array<nat>)
    requires counts.Length == pairs && forall t {:trigger counts[t]} | 0 <= t < pairs ::
             counts[t] == Count(next, t, |next|)
    modifies counts
    ensures offsets.Length == pairs + 1 && forall t {:trigger offsets[t]} | 0 <= t <= pairs ::
            offsets[t] == Start(next, t)
    ensures forall t {:trigger counts[t]} | 0 <= t < pairs :: counts[t] == Start(next, t)
  {
    offsets := new nat[pairs + 1](_ => 0);
    for pair := 0 to pairs
      invariant fresh(offsets) && offsets.Length == pairs + 1
      invariant forall t {:trigger offsets[t]} | 0 <= t <= pair :: offsets[t] == Start(next, t)
      invariant forall t {:trigger counts[t]} | 0 <= t < pair :: counts[t] == Start(next, t)
      invariant forall t {:trigger counts[t]} | pair <= t < pairs :: counts[t] == Count(next, t, |next|)
    {
      offsets[pair + 1] := offsets[pair] + counts[pair];
      counts[pair] := offsets[pair];
    }
  }

  /** Every count is the next free slot of its target, with the edges before this one filled in. */
  ghost predicate NextFree(next: seq<nat>, counts: seq<nat>, pairs: nat, edge: nat) {
    |counts| == pairs && edge <= |next|
    && forall t {:trigger counts[t]} | 0 <= t < pairs :: counts[t] == Start(next, t) + Count(next, t, edge)
  }

  /** The body of the loop: put one edge into its slot. */
  method FillSlot(next: seq<nat>, pairs: nat, actions: nat, counts: array<nat>, sources: array<nat>, labels: array<nat>,
                  pair: nat, action: nat)
    requires |next| == pairs * actions && forall e | 0 <= e < |next| :: next[e] < pairs
    requires pair < pairs && action < actions && Edge(actions, pair, action) < |next|
    requires sources.Length == labels.Length == |next| && counts.Length == pairs
    requires counts != sources && counts != labels && sources != labels
    requires NextFree(next, counts[..], pairs, Edge(actions, pair, action))
    requires Filled(next, pairs, actions, sources[..], labels[..], Edge(actions, pair, action))
    modifies counts, sources, labels
    ensures NextFree(next, counts[..], pairs, Edge(actions, pair, action + 1))
    ensures Filled(next, pairs, actions, sources[..], labels[..], Edge(actions, pair, action + 1))
  {
    var edge := pair * actions + action;
    var target := next[edge];
    var position := counts[target];
    ghost var free, s, l := counts[..], sources[..], labels[..];
    assert free[target] == position;
    FillNext(next, pairs, actions, s, l, pair, action);
    sources[position] := pair;
    labels[position] := action;
    counts[target] := counts[target] + 1;
    assert sources[..] == s[position := pair] && labels[..] == l[position := action];
    assert counts[..] == free[target := position + 1];
  }

  method FillSlots(next: seq<nat>, pairs: nat, actions: nat, counts: array<nat>)
    returns (sources: array<nat>, labels: array<nat>)
    requires |next| == pairs * actions && forall e | 0 <= e < |next| :: next[e] < pairs
    requires counts.Length == pairs && forall t {:trigger counts[t]} | 0 <= t < pairs :: counts[t] == Start(next, t)
    modifies counts
    ensures Filled(next, pairs, actions, sources[..], labels[..], |next|)
  {
    sources := new nat[|next|](_ => 0);
    labels := new nat[|next|](_ => 0);
    for pair := 0 to pairs
      invariant sources.Length == labels.Length == |next|
      invariant fresh(sources) && fresh(labels) && sources != labels
      invariant NextFree(next, counts[..], pairs, Edge(actions, pair, 0))
      invariant Filled(next, pairs, actions, sources[..], labels[..], Edge(actions, pair, 0))
    {
      EdgesOfPair(pairs, actions, pair);
      for action := 0 to actions
        invariant NextFree(next, counts[..], pairs, Edge(actions, pair, action))
        invariant Filled(next, pairs, actions, sources[..], labels[..], Edge(actions, pair, action))
      {
        EdgeInRange(pairs, actions, pair, action);
        FillSlot(next, pairs, actions, counts, sources, labels, pair, action);
      }
    }
  }

  lemma EdgesOfPair(pairs: nat, actions: nat, pair: nat)
    requires pair < pairs
    ensures Edge(actions, pair, actions) == Edge(actions, pair + 1, 0) <= pairs * actions
  {
    OneMoreRow(actions, pair);
    ProductGrows(pair + 1, actions, pairs, actions);
  }

  lemma FilledIsSorted(next: seq<nat>, pairs: nat, actions: nat, offsets: seq<nat>, sources: seq<nat>, labels: seq<nat>)
    requires |next| == pairs * actions && forall e | 0 <= e < |next| :: next[e] < pairs
    requires |offsets| == pairs + 1 && forall t {:trigger offsets[t]} | 0 <= t <= pairs :: offsets[t] == Start(next, t)
    requires Filled(next, pairs, actions, sources, labels, |next|)
    ensures Sorts(Index(offsets, sources, labels), next, pairs, actions)
  {
    var index := Index(offsets, sources, labels);
    forall pair, action | 0 <= pair < pairs && 0 <= action < actions
      ensures Edge(actions, pair, action) < |next|
              && Holds(index, Slot(next, Edge(actions, pair, action)), pair, action)
    {
      EdgeInRange(pairs, actions, pair, action);
      assert Holds(Index([], sources, labels), Slot(next, Edge(actions, pair, action)), pair, action);
    }
  }

  /** sg_predecessors_build */
  method BuildIndex(next: seq<nat>, pairs: nat, actions: nat) returns (index: Index)
    requires |next| == pairs * actions && forall e | 0 <= e < |next| :: next[e] < pairs
    ensures Sorts(index, next, pairs, actions)
  {
    var counts := CountTargets(next, pairs);
    var offsets := SumCounts(next, pairs, counts);
    var first := offsets[..];
    var sources, labels := FillSlots(next, pairs, actions, counts);
    index := Index(first, sources[..], labels[..]);
    FilledIsSorted(next, pairs, actions, first, sources[..], labels[..]);
  }
}
