/** Cell changes of an automaton, and the seed pairs they give a repair. */
module Changes {
  import Sorting
  import opened Records
  import opened RepairTheory
  import opened RepairSteps
  import opened Pairs
  import opened Columns
  import opened Arcs

  datatype Change = Change(state: nat, action: nat, target: nat, output: nat)

  /** The change names a cell of the automaton and values for it. */
  ghost predicate Fits(m: Automaton, c: Change) {
    m.Valid() && c.state < m.states && c.action < m.actions && c.target < m.states && c.output < m.outputs
  }

  ghost predicate AllFit(m: Automaton, changes: seq<Change>) {
    m.Valid() && forall k | 0 <= k < |changes| :: Fits(m, changes[k])
  }

  /** The automaton after the changes, in order. */
  ghost function Applied(m: Automaton, changes: seq<Change>): (t: Automaton)
    requires AllFit(m, changes)
    ensures t.Valid() && t.states == m.states && t.actions == m.actions && t.outputs == m.outputs
  {
    if changes == [] then m
    else
      var c := changes[|changes| - 1];
      WithCell(Applied(m, changes[..|changes| - 1]), c.state, c.action, c.target, c.output)
  }

  ghost predicate ChangesRow(changes: seq<Change>, state: nat) { exists k ::
                             0 <= k < |changes| && changes[k].state == state }

  /** Rows of states that no change names are as they were. */
  lemma {:induction false} OtherRowsStay(m: Automaton, changes: seq<Change>, state: nat)
    requires AllFit(m, changes) && state < m.states && !ChangesRow(changes, state)
    ensures Applied(m, changes).delta[state] == m.delta[state] && Applied(m, changes).eta[state] == m.eta[state]
  {
    if changes != [] {
      var n := |changes| - 1;
      assert !ChangesRow(changes[..n], state) by {
        if k :| 0 <= k < n && changes[..n][k].state == state {
          assert changes[k].state == state;
        }
      }
      assert changes[n].state != state;
      OtherRowsStay(m, changes[..n], state);
    }
  }

  // ---------- Seeds ----------

  /** Pair p has the state of some change as a member. */
  ghost predicate HasChanged(n: nat, changes: seq<Change>, p: nat)
    requires p < PairCount(n)
  {
    var (i, j) := States(n, p);
    ChangesRow(changes, i) || ChangesRow(changes, j)
  }

  ghost predicate Ascending(ids: seq<nat>) {
    forall i, j {:trigger ids[i], ids[j]} | 0 <= i < j < |ids| :: ids[i] < ids[j]
  }

  lemma AscendingIsDistinct(ids: seq<nat>)
    requires Ascending(ids)
    ensures Distinct(ids)
  {
    forall i, j | 0 <= i < j < |ids| ensures Differ(ids, i, j) {}
  }

  /** In ascending order and without duplicates, exactly the pairs with a changed state. */
  ghost predicate AreSeeds(n: nat, changes: seq<Change>, seeds: seq<nat>) {
    && Ascending(seeds)
    && forall p: nat {:trigger p in seeds} :: p in seeds <==> p < PairCount(n) && HasChanged(n, changes, p)
  }

  /** Every arc that differs after the changes starts at a seed, for both objectives. */
  lemma SeedsAreComplete(m: Automaton, changes: seq<Change>, seeds: seq<nat>, objective: Objective)
    requires AllFit(m, changes) && AreSeeds(m.states, changes, seeds)
    ensures ChangedOnlyAt(PairGraphOf(m, objective), PairGraphOf(Applied(m, changes), objective), Listed(seeds))
  {
    var t := Applied(m, changes);
    var o, g := PairGraphOf(m, objective), PairGraphOf(t, objective);
    forall p | 0 <= p < g.pairs ensures o.diagonal[p] == g.diagonal[p] {
      assert o.diagonal[p] == SameState(m, p);
      assert g.diagonal[p] == SameState(t, p);
    }
    assert o.diagonal == g.diagonal;
    forall p | 0 <= p < g.pairs && p !in Listed(seeds) ensures o.next[p] == g.next[p] && o.ends[p] == g.ends[p] {
      var (i, j) := States(m.states, p);
      assert p !in seeds;
      OtherRowsStay(m, changes, i);
      OtherRowsStay(m, changes, j);
      forall a | 0 <= a < g.actions ensures o.next[p][a] == g.next[p][a] && o.ends[p][a] == g.ends[p][a] {
        assert o.next[p][a] == Target(m, p, a) == Target(t, p, a) == g.next[p][a];
        assert OutputsDiffer(m, p, a) == OutputsDiffer(t, p, a);
      }
    }
  }

  /** The first loop of build_edge_updates: every pair of a changed state with every state. */
  method ListPairs(n: nat, changes: seq<Change>) returns (pairs: array<nat>)
    requires forall k | 0 <= k < |changes| :: changes[k].state < n
    ensures fresh(pairs)
    ensures forall p: nat :: p in pairs[..] <==>
              exists k, s :: 0 <= k < |changes| && 0 <= s < n && PairIndex(n, changes[k].state, s) == p
  {
    pairs := new nat[|changes| * n](_ => 0);
    var count := 0;
    ghost var listed: seq<nat> := [];
    for change := 0 to |changes|
      invariant count == change * n == |listed| && pairs[..count] == listed
      invariant forall p: nat :: p in listed <==>
                  exists k, s :: 0 <= k < change && 0 <= s < n && PairIndex(n, changes[k].state, s) == p
    {
      OneMoreRow(n, change);
      ProductGrows(change + 1, n, |changes|, n);
      for other := 0 to n
        invariant count == change * n + other == |listed| && pairs[..count] == listed
        invariant forall p: nat :: p in listed <==>
                    || (exists k, s :: 0 <= k < change && 0 <= s < n && PairIndex(n, changes[k].state, s) == p)
                    || (exists s :: 0 <= s < other && PairIndex(n, changes[change].state, s) == p)
      {
        pairs[count] := PairIndex(n, changes[change].state, other);
        listed := listed + [pairs[count]];
        count := count + 1;
      }
    }
    assert pairs[..] == listed;
  }

  /** Pairing a changed state with every state gives the pairs that have one. */
  lemma PairedIsChanged(n: nat, changes: seq<Change>, p: nat)
    requires forall k | 0 <= k < |changes| :: changes[k].state < n
    ensures (exists k, s :: 0 <= k < |changes| && 0 <= s < n && PairIndex(n, changes[k].state, s) == p) <==>
            p < PairCount(n) && HasChanged(n, changes, p)
  {
    if k, s :| 0 <= k < |changes| && 0 <= s < n && PairIndex(n, changes[k].state, s) == p {
      StatesSwapped(n, changes[k].state, s);
      assert ChangesRow(changes, changes[k].state);
    }
    if p < PairCount(n) && HasChanged(n, changes, p) {
      var (i, j) := States(n, p);
      IndexInRange(n, i, j);
      if ChangesRow(changes, i) {
        var k :| 0 <= k < |changes| && changes[k].state == i;
        assert PairIndex(n, changes[k].state, j) == p;
      } else {
        var k :| 0 <= k < |changes| && changes[k].state == j;
        assert PairIndex(n, changes[k].state, i) == p;
      }
    }
  }

  function Itself(x: nat): nat { x }

  /** The seeds that build_edge_updates makes: list, sort and drop repetitions. */
  method BuildSeeds(n: nat, changes: seq<Change>) returns (seeds: seq<nat>)
    requires forall k | 0 <= k < |changes| :: changes[k].state < n
    ensures AreSeeds(n, changes, seeds)
  {
    var pairs := ListPairs(n, changes);
    ghost var listed := pairs[..];
    Sorting.Sort(pairs, Itself);
    ghost var sorted := pairs[..];
    var count := Sorting.Compact(pairs, Itself);
    seeds := pairs[..count];
    forall p: nat ensures p in seeds <==> p < PairCount(n) && HasChanged(n, changes, p) {
      assert p in sorted <==> p in multiset(sorted);
      assert p in listed <==> p in multiset(listed);
      if p in sorted {
        var i :| 0 <= i < |sorted| && sorted[i] == p;
        assert Sorting.HasKey(seeds, Itself, Itself(sorted[i]));
      }
      PairedIsChanged(n, changes, p);
    }
    assert Ascending(seeds) by {
      forall i, j | 0 <= i < j < |seeds| ensures seeds[i] < seeds[j] {
        assert Itself(seeds[i]) < Itself(seeds[j]);
      }
    }
  }

  // ---------- Requests ----------

  /** One entry of the caller's list: a cell, and a new target or output or both. */
  datatype Request = Request(state: nat, action: nat, hasTarget: bool, target: nat, hasOutput: bool, output: nat)

  /** What the cell is to hold: an omitted value stays. */
  ghost function Wanted(m: Automaton, q: Request): Change
    requires m.Valid() && q.state < m.states && q.action < m.actions
  {
    Change(q.state, q.action,
           if q.hasTarget then q.target else m.delta[q.state][q.action],
           if q.hasOutput then q.output else m.eta[q.state][q.action])
  }

  /** The entry names a cell, and a target or an output or both, all of them known. */
  ghost predicate IsCell(m: Automaton, q: Request)
    requires m.Valid()
  {
    && q.state < m.states && q.action < m.actions && (q.hasTarget || q.hasOutput)
    && (q.hasTarget ==> q.target < m.states) && (q.hasOutput ==> q.output < m.outputs)
  }

  ghost predicate SameCell(requests: seq<Request>, i: nat, j: nat)
    requires i < |requests| && j < |requests|
  {
    requests[i].state == requests[j].state && requests[i].action == requests[j].action
  }

  /** A list is taken if it is not empty, every entry is a cell with values, and no
      cell is named twice. */
  ghost predicate WellFormed(m: Automaton, requests: seq<Request>)
    requires m.Valid()
  {
    && requests != []
    && (forall k | 0 <= k < |requests| :: IsCell(m, requests[k]))
    && (forall i, j {:trigger SameCell(requests, i, j)} | 0 <= i < j < |requests| :: !SameCell(requests, i, j))
  }

  ghost predicate Moves(m: Automaton, q: Request)
    requires m.Valid() && IsCell(m, q)
  {
    Wanted(m, q).target != m.delta[q.state][q.action] || Wanted(m, q).output != m.eta[q.state][q.action]
  }

  /** What one entry adds to the changes. */
  ghost function Step(m: Automaton, q: Request): seq<Change>
    requires m.Valid() && IsCell(m, q)
  {
    if Moves(m, q) then [Wanted(m, q)] else []
  }

  /** The entries that change something, in order. */
  ghost function Kept(m: Automaton, requests: seq<Request>): (changes: seq<Change>)
    requires m.Valid() && forall k | 0 <= k < |requests| :: IsCell(m, requests[k])
  {
    if requests == [] then []
    else
      var last := requests[|requests| - 1];
      Kept(m, requests[..|requests| - 1]) + Step(m, last)
  }

  lemma KeptNext(m: Automaton, requests: seq<Request>, k: nat)
    requires m.Valid() && k < |requests| && forall i | 0 <= i <= k :: IsCell(m, requests[i])
    ensures Kept(m, requests[..k + 1]) == Kept(m, requests[..k]) + Step(m, requests[k])
  {
    assert requests[..k + 1][..k] == requests[..k];
  }

  ghost predicate NamesCell(changes: seq<Change>, state: nat, action: nat) {
    exists k :: 0 <= k < |changes| && changes[k].state == state && changes[k].action == action
  }

  /** A cell that no change names is as it was. */
  lemma {:induction false} OtherCellsStay(m: Automaton, changes: seq<Change>, state: nat, action: nat)
    requires AllFit(m, changes) && state < m.states && action < m.actions && !NamesCell(changes, state, action)
    ensures Applied(m, changes).delta[state][action] == m.delta[state][action]
    ensures Applied(m, changes).eta[state][action] == m.eta[state][action]
  {
    if changes != [] {
      var n := |changes| - 1;
      assert forall k | 0 <= k < n :: changes[..n][k] == changes[k];
      assert changes[n].state != state || changes[n].action != action;
      OtherCellsStay(m, changes[..n], state, action);
    }
  }

  lemma {:induction false} KeptFits(m: Automaton, requests: seq<Request>)
    requires m.Valid() && forall k | 0 <= k < |requests| :: IsCell(m, requests[k])
    ensures AllFit(m, Kept(m, requests))
    ensures forall s, a | NamesCell(Kept(m, requests), s, a) ::
              exists k :: 0 <= k < |requests| && requests[k].state == s && requests[k].action == a
  {
    if requests != [] {
      var n := |requests| - 1;
      var before := Kept(m, requests[..n]);
      KeptFits(m, requests[..n]);
      forall s, a | NamesCell(Kept(m, requests), s, a)
        ensures exists k :: 0 <= k < |requests| && requests[k].state == s && requests[k].action == a
      {
        if NamesCell(before, s, a) {
          var k :| 0 <= k < n && requests[..n][k].state == s && requests[..n][k].action == a;
          assert requests[k].state == s;
        } else {
          assert requests[n].state == s && requests[n].action == a;
        }
      }
    }
  }

  /** No cell is named twice among the changes kept, and each changes its cell. */
  ghost predicate Effective(m: Automaton, changes: seq<Change>) {
    && AllFit(m, changes)
    && forall k {:trigger changes[k]} | 0 <= k < |changes| ::
         && !NamesCell(changes[..k], changes[k].state, changes[k].action)
         && (changes[k].target != m.delta[changes[k].state][changes[k].action]
             || changes[k].output != m.eta[changes[k].state][changes[k].action])
  }

  lemma NamedOnce(m: Automaton, requests: seq<Request>, n: nat)
    requires m.Valid() && WellFormed(m, requests) && n < |requests|
    ensures forall k {:trigger requests[..n][k]} | 0 <= k < n ::
              requests[..n][k].state != requests[n].state || requests[..n][k].action != requests[n].action
  {
    forall k | 0 <= k < n ensures requests[k].state != requests[n].state || requests[k].action != requests[n].action {
      assert !SameCell(requests, k, n);
    }
  }

  /** One more change of a cell not named before, that changes it. */
  lemma EffectiveAppend(m: Automaton, changes: seq<Change>, c: Change)
    requires Effective(m, changes) && Fits(m, c) && !NamesCell(changes, c.state, c.action)
    requires c.target != m.delta[c.state][c.action] || c.output != m.eta[c.state][c.action]
    ensures Effective(m, changes + [c])
  {
    var all := changes + [c];
    forall k | 0 <= k < |all|
      ensures Fits(m, all[k]) && !NamesCell(all[..k], all[k].state, all[k].action)
      ensures all[k].target != m.delta[all[k].state][all[k].action]
              || all[k].output != m.eta[all[k].state][all[k].action]
    {
      if k < |changes| {
        assert all[..k] == changes[..k] && all[k] == changes[k];
      } else {
        assert all[..k] == changes;
      }
    }
  }

  lemma WellFormedPrefix(m: Automaton, requests: seq<Request>, n: nat)
    requires m.Valid() && WellFormed(m, requests) && 0 < n <= |requests|
    ensures WellFormed(m, requests[..n])
  {
    forall i, j | 0 <= i < j < n ensures !SameCell(requests[..n], i, j) {
      assert !SameCell(requests, i, j);
    }
  }

  lemma {:induction false} KeptIsEffective(m: Automaton, requests: seq<Request>)
    requires m.Valid() && (requests == [] || WellFormed(m, requests))
    ensures Effective(m, Kept(m, requests))
  {
    if requests != [] {
      var n := |requests| - 1;
      var last, before := requests[n], Kept(m, requests[..n]);
      if n > 0 {
        WellFormedPrefix(m, requests, n);
      }
      KeptIsEffective(m, requests[..n]);
      if Moves(m, last) {
        assert !NamesCell(before, last.state, last.action) by {
          KeptFits(m, requests[..n]);
          NamedOnce(m, requests, n);
        }
        EffectiveAppend(m, before, Wanted(m, last));
      }
    }
  }

  lemma AppliedAppend(m: Automaton, changes: seq<Change>, c: Change)
    requires AllFit(m, changes) && Fits(m, c)
    ensures AllFit(m, changes + [c])
    ensures Applied(m, changes + [c]) == WithCell(Applied(m, changes), c.state, c.action, c.target, c.output)
  {
    assert (changes + [c])[..|changes|] == changes;
  }

  ghost predicate Holds(t: Automaton, w: Change)
    requires t.Valid() && w.state < t.states && w.action < t.actions
  {
    t.delta[w.state][w.action] == w.target && t.eta[w.state][w.action] == w.output
  }

  /** The last entry is met, because the cell is its own or it wants nothing new. */
  lemma LastIsMet(m: Automaton, before: seq<Change>, q: Request)
    requires AllFit(m, before) && IsCell(m, q) && !NamesCell(before, q.state, q.action)
    ensures AllFit(m, before + Step(m, q)) && Holds(Applied(m, before + Step(m, q)), Wanted(m, q))
  {
    OtherCellsStay(m, before, q.state, q.action);
    if Moves(m, q) {
      AppliedAppend(m, before, Wanted(m, q));
    } else {
      assert before + Step(m, q) == before;
    }
  }

  /** An entry met earlier stays met, because the cell is another. */
  lemma EarlierStaysMet(m: Automaton, before: seq<Change>, w: Change, q: Request)
    requires AllFit(m, before) && Fits(m, w) && IsCell(m, q) && Holds(Applied(m, before), w)
    requires w.state != q.state || w.action != q.action
    ensures AllFit(m, before + Step(m, q)) && Holds(Applied(m, before + Step(m, q)), w)
  {
    if Moves(m, q) {
      AppliedAppend(m, before, Wanted(m, q));
    } else {
      assert before + Step(m, q) == before;
    }
  }

  /** After the changes, every requested cell holds what was wanted. */
  lemma {:induction false} WantedHolds(m: Automaton, requests: seq<Request>, k: nat)
    requires m.Valid() && WellFormed(m, requests) && k < |requests|
    ensures AllFit(m, Kept(m, requests)) && Holds(Applied(m, Kept(m, requests)), Wanted(m, requests[k]))
    decreases |requests|
  {
    var n := |requests| - 1;
    var first, last := requests[..n], requests[n];
    var before, w := Kept(m, first), Wanted(m, requests[k]);
    KeptFits(m, first);
    assert Kept(m, requests) == before + Step(m, last);
    if k < n {
      forall i, j | 0 <= i < j < n ensures !SameCell(first, i, j) {
        assert !SameCell(requests, i, j);
      }
      assert first[k] == requests[k] && !SameCell(requests, k, n);
      WantedHolds(m, first, k);
      EarlierStaysMet(m, before, w, last);
    } else {
      if NamesCell(before, w.state, w.action) {
        var i :| 0 <= i < n && first[i].state == w.state && first[i].action == w.action;
        assert SameCell(requests, i, n);
      }
      LastIsMet(m, before, last);
    }
  }

  /** After the changes kept, every requested cell has the target and the output asked
      for, an omitted one as it was; and every other cell is as it was. */
  lemma RequestsAreMet(m: Automaton, requests: seq<Request>, t: Automaton)
    requires m.Valid() && WellFormed(m, requests) && AllFit(m, Kept(m, requests)) && t == Applied(m, Kept(m, requests))
    ensures forall k {:trigger requests[k]} | 0 <= k < |requests| ::
              var q := requests[k];
              && q.state < m.states && q.action < m.actions
              && t.delta[q.state][q.action] == (if q.hasTarget then q.target else m.delta[q.state][q.action])
              && t.eta[q.state][q.action] == (if q.hasOutput then q.output else m.eta[q.state][q.action])
    ensures forall s, a {:trigger t.delta[s][a]} {:trigger t.eta[s][a]} | 0 <= s < m.states && 0 <= a < m.actions
              && (forall k | 0 <= k < |requests| :: requests[k].state != s || requests[k].action != a) ::
              t.delta[s][a] == m.delta[s][a] && t.eta[s][a] == m.eta[s][a]
  {
    forall k | 0 <= k < |requests| ensures Holds(t, Wanted(m, requests[k])) {
      WantedHolds(m, requests, k);
    }
    KeptFits(m, requests);
    forall s, a | 0 <= s < m.states && 0 <= a < m.actions
                  && (forall k | 0 <= k < |requests| :: requests[k].state != s || requests[k].action != a)
      ensures t.delta[s][a] == m.delta[s][a] && t.eta[s][a] == m.eta[s][a]
    {
      OtherCellsStay(m, Kept(m, requests), s, a);
    }
  }

  // ---------- Parsing ----------

  /** The first k entries are cells, none named twice, and seen marks exactly those. */
  ghost predicate ParsedUpto(m: Automaton, requests: seq<Request>, seen: seq<bool>, k: nat)
    requires m.Valid() && k <= |requests|
  {
    && |seen| == m.states * m.actions
    && (forall i | 0 <= i < k :: IsCell(m, requests[i]))
    && (forall i, j {:trigger SameCell(requests, i, j)} | 0 <= i < j < k :: !SameCell(requests, i, j))
    && Marks(m, requests, seen, k)
  }

  /** The number of an entry's cell. */
  function CellOf(m: Automaton, q: Request): nat { q.state * m.actions + q.action }

  /** Two entries have the same number if and only if they name the same cell. */
  lemma CellsDiffer(m: Automaton, requests: seq<Request>, i: nat, k: nat)
    requires m.Valid() && i < |requests| && k < |requests| && IsCell(m, requests[i]) && IsCell(m, requests[k])
    ensures CellOf(m, requests[i]) == CellOf(m, requests[k]) <==> SameCell(requests, i, k)
    ensures CellOf(m, requests[k]) < m.states * m.actions
  {
    FlatInRange(m.actions, m.states, requests[k].state, requests[k].action);
    if CellOf(m, requests[i]) == CellOf(m, requests[k]) {
      FlatInjective(m.actions, requests[i].state, requests[i].action, requests[k].state, requests[k].action);
    }
  }

  /** The flag of a cell is set if and only if an entry before k names it. */
  ghost predicate Marks(m: Automaton, requests: seq<Request>, seen: seq<bool>, k: nat)
    requires k <= |requests|
  {
    forall c {:trigger seen[c]} | 0 <= c < |seen| :: seen[c] <==> NamedBefore(m, requests, k, c)
  }

  ghost predicate NamedBefore(m: Automaton, requests: seq<Request>, k: nat, c: nat)
    requires k <= |requests|
  {
    exists i {:trigger requests[i]} :: 0 <= i < k && CellOf(m, requests[i]) == c
  }

  lemma MarkNext(m: Automaton, requests: seq<Request>, seen: seq<bool>, k: nat)
    requires k < |requests| && Marks(m, requests, seen, k) && CellOf(m, requests[k]) < |seen|
    ensures Marks(m, requests, seen[CellOf(m, requests[k]) := true], k + 1)
  {
    var cell := CellOf(m, requests[k]);
    forall c: nat ensures NamedBefore(m, requests, k + 1, c) <==> NamedBefore(m, requests, k, c) || c == cell {
      if NamedBefore(m, requests, k, c) {
        var i :| 0 <= i < k && CellOf(m, requests[i]) == c;
        assert CellOf(m, requests[i]) == c;
      }
      if c == cell {
        assert CellOf(m, requests[k]) == c;
      }
    }
  }

  lemma ParseNext(m: Automaton, requests: seq<Request>, seen: seq<bool>, k: nat)
    requires m.Valid() && k < |requests| && ParsedUpto(m, requests, seen, k) && IsCell(m, requests[k])
    ensures var cell := CellOf(m, requests[k]);
            && cell < |seen|
            && (seen[cell] <==> exists i :: 0 <= i < k && SameCell(requests, i, k))
            && (!seen[cell] ==> ParsedUpto(m, requests, seen[cell := true], k + 1))
  {
    var cell := CellOf(m, requests[k]);
    CellsDiffer(m, requests, k, k);
    forall i | 0 <= i < k ensures CellOf(m, requests[i]) == cell <==> SameCell(requests, i, k) {
      CellsDiffer(m, requests, i, k);
    }
    if seen[cell] {
      var i :| 0 <= i < k && CellOf(m, requests[i]) == cell;
      assert SameCell(requests, i, k);
    } else {
      assert forall i | 0 <= i < k :: CellOf(m, requests[i]) != cell;
      MarkNext(m, requests, seen, k);
    }
  }

  /** The first k entries have been parsed.  The definition is some steps away, so that
      only ParsedIs unfolds it. */
  ghost predicate Parsed(m: Automaton, requests: seq<Request>, seen: seq<bool>, changes: seq<Change>, k: nat)
    requires m.Valid() && k <= |requests|
  {
    ParsedIn(m, requests, seen, changes, k, DEPTH + 1)
  }

  ghost predicate ParsedIn(m: Automaton, requests: seq<Request>, seen: seq<bool>, changes: seq<Change>, k: nat,
                           steps: nat)
    requires m.Valid() && k <= |requests|
    decreases steps
  {
    if steps > 0 then ParsedIn(m, requests, seen, changes, k, steps - 1)
    else ParsedUpto(m, requests, seen, k) && changes == Kept(m, requests[..k])
  }

  lemma ParsedIs(m: Automaton, requests: seq<Request>, seen: seq<bool>, changes: seq<Change>, k: nat)
    requires m.Valid() && k <= |requests|
    ensures Parsed(m, requests, seen, changes, k) <==>
            ParsedUpto(m, requests, seen, k) && changes == Kept(m, requests[..k])
  {
    var steps: nat := DEPTH + 1;
    while steps > 0
      invariant ParsedIn(m, requests, seen, changes, k, DEPTH + 1) == ParsedIn(m, requests, seen, changes, k, steps)
    {
      steps := steps - 1;
    }
  }

  /** One more entry: a cell named before is refused, and so is the whole list. */
  lemma ParsedNext(m: Automaton, requests: seq<Request>, seen: seq<bool>, changes: seq<Change>, k: nat)
    requires m.Valid() && k < |requests| && Parsed(m, requests, seen, changes, k)
    ensures !IsCell(m, requests[k]) ==> !WellFormed(m, requests)
    ensures IsCell(m, requests[k]) ==>
              var cell := CellOf(m, requests[k]);
              && cell < |seen|
              && (seen[cell] ==> !WellFormed(m, requests))
              && (!seen[cell] ==> Parsed(m, requests, seen[cell := true], changes + Step(m, requests[k]), k + 1))
  {
    ParsedIs(m, requests, seen, changes, k);
    if IsCell(m, requests[k]) {
      ParseNext(m, requests, seen, k);
      KeptNext(m, requests, k);
      var cell := CellOf(m, requests[k]);
      if !seen[cell] {
        ParsedIs(m, requests, seen[cell := true], changes + Step(m, requests[k]), k + 1);
      }
    }
  }

  lemma ParsedAll(m: Automaton, requests: seq<Request>, seen: seq<bool>, changes: seq<Change>)
    requires m.Valid() && requests != [] && Parsed(m, requests, seen, changes, |requests|)
    ensures WellFormed(m, requests) && changes == Kept(m, requests)
  {
    ParsedIs(m, requests, seen, changes, |requests|);
    assert requests[..|requests|] == requests;
  }

  lemma ParseStarts(m: Automaton, requests: seq<Request>, seen: seq<bool>)
    requires m.Valid() && |seen| == m.states * m.actions && forall c | 0 <= c < |seen| :: !seen[c]
    ensures Parsed(m, requests, seen, [], 0)
  {
    ParsedIs(m, requests, seen, [], 0);
    assert requests[..0] == [];
  }

  /** One turn of the loop: an entry that is no cell, or names one again, ends it. */
  method ParseOne(m: Automaton, requests: seq<Request>, seen: seq<bool>, changes: seq<Change>, k: nat)
    returns (ok: bool, marked: seq<bool>, more: seq<Change>)
    requires m.Valid() && k < |requests| && Parsed(m, requests, seen, changes, k)
    ensures if ok then Parsed(m, requests, marked, more, k + 1) else !WellFormed(m, requests)
  {
    var q := requests[k];
    marked, more := seen, changes;
    ParsedNext(m, requests, seen, changes, k);
    if (!q.hasTarget && !q.hasOutput) || q.state >= m.states || q.action >= m.actions {
      return false, marked, more;
    }
    var target, output := m.delta[q.state][q.action], m.eta[q.state][q.action];
    if (q.hasTarget && q.target >= m.states) || (q.hasOutput && q.output >= m.outputs) {
      return false, marked, more;
    }
    var change := Change(q.state, q.action, if q.hasTarget then q.target else target,
                         if q.hasOutput then q.output else output);
    var cell := q.state * m.actions + q.action;
    if seen[cell] {
      return false, marked, more;
    }
    if change.target == target && change.output == output {
      assert changes + [] == changes;
      return true, seen[cell := true], changes;
    }
    return true, seen[cell := true], changes + [change];
  }

  /** parse_cell_changes, on ids instead of keys */
  method ParseChanges(m: Automaton, requests: seq<Request>) returns (ok: bool, changes: seq<Change>)
    requires m.Valid()
    ensures ok == WellFormed(m, requests)
    ensures ok ==> changes == Kept(m, requests) && Effective(m, changes)
  {
    changes := [];
    if |requests| == 0 {
      return false, [];
    }
    var seen := seq(m.states * m.actions, _ => false);
    ParseStarts(m, requests, seen);
    for k := 0 to |requests|
      invariant Parsed(m, requests, seen, changes, k)
    {
      ok, seen, changes := ParseOne(m, requests, seen, changes, k);
      if !ok {
        return false, [];
      }
    }
    ParsedAll(m, requests, seen, changes);
    KeptIsEffective(m, requests);
    ok := true;
  }
}
