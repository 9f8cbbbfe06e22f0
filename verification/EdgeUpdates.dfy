/** The pair edges that a list of cell changes rewrites in the database. */
module EdgeUpdates {
  import opened Pairs
  import opened Columns
  import opened Arcs
  import opened Changes
  import Sorting

  /** The arc reads a cell that some change names. */
  ghost predicate ReadsChanged(n: nat, changes: seq<Change>, p: nat, a: nat)
    requires p < PairCount(n)
  {
    NamesCell(changes, States(n, p).0, a) || NamesCell(changes, States(n, p).1, a)
  }

  /** compare_edge_updates: by pair, then by action. */
  ghost predicate Before(x: Arc, y: Arc) { x.source < y.source || (x.source == y.source && x.action < y.action) }

  /** The arcs of the automaton that read a changed cell, each once, by pair and action. */
  ghost predicate AreUpdates(m: Automaton, changes: seq<Change>, rows: seq<Arc>) {
    && (forall i, j {:trigger rows[i], rows[j]} | 0 <= i < j < |rows| :: Before(rows[i], rows[j]))
    && (forall row {:trigger row in rows} {:trigger IsArc(m, row)} :: row in rows <==>
          IsArc(m, row) && ReadsChanged(m.states, changes, row.source, row.action))
  }

  /** Arcs that read no changed cell are as they were: what is not rewritten need not be. */
  lemma OtherArcsStay(m: Automaton, changes: seq<Change>, p: nat, a: nat)
    requires AllFit(m, changes) && p < PairCount(m.states) && a < m.actions && !ReadsChanged(m.states, changes, p, a)
    ensures ArcOf(Applied(m, changes), p, a) == ArcOf(m, p, a)
  {
    OtherCellsStay(m, changes, States(m.states, p).0, a);
    OtherCellsStay(m, changes, States(m.states, p).1, a);
  }

  /** The stored arc of each pair and action. */
  type Edges = (nat, nat) -> Arc

  ghost predicate AreEdges(m: Automaton, edges: Edges) {
    m.Valid() && forall p, a {:trigger edges(p, a)} | 0 <= p < PairCount(m.states) && 0 <= a < m.actions ::
        edges(p, a) == ArcOf(m, p, a)
  }

  ghost predicate IsRewritten(before: Edges, rows: seq<Arc>, after: Edges) {
    forall p: nat, a: nat {:trigger after(p, a)} ::
      if exists row :: row in rows && row.source == p && row.action == a
      then after(p, a) in rows && after(p, a).source == p && after(p, a).action == a
      else after(p, a) == before(p, a)
  }

  /** Rewriting those rows alone brings the stored edges up to date. */
  lemma RowsSuffice(m: Automaton, changes: seq<Change>, rows: seq<Arc>, before: Edges, after: Edges)
    requires AllFit(m, changes) && AreUpdates(Applied(m, changes), changes, rows)
    requires AreEdges(m, before) && IsRewritten(before, rows, after)
    ensures AreEdges(Applied(m, changes), after)
  {
    var t := Applied(m, changes);
    forall p, a | 0 <= p < PairCount(t.states) && 0 <= a < t.actions ensures after(p, a) == ArcOf(t, p, a) {
      var row := ArcOf(t, p, a);
      if ReadsChanged(t.states, changes, p, a) {
        assert row in rows;
      } else {
        OtherArcsStay(m, changes, p, a);
        assert forall x | x in rows :: !(x.source == p && x.action == a);
      }
    }
  }

  // ---------- build_edge_updates ----------

  /** One number for a pair and an action, in the order of compare_edge_updates. */
  function Rank(actions: nat, row: Arc): nat { row.source * actions + row.action }

  lemma RankIsOrder(actions: nat, x: Arc, y: Arc)
    requires x.action < actions && y.action < actions
    ensures Rank(actions, x) < Rank(actions, y) <==> Before(x, y)
    ensures Rank(actions, x) == Rank(actions, y) <==> x.source == y.source && x.action == y.action
  {
    if x.source < y.source {
      ProductGrows(x.source + 1, actions, y.source, actions);
      OneMoreRow(actions, x.source);
    } else if y.source < x.source {
      ProductGrows(y.source + 1, actions, x.source, actions);
      OneMoreRow(actions, y.source);
    }
  }

  /** The row of a change and another state. */
  method MakeRow(m: Automaton, c: Change, other: nat) returns (row: Arc)
    requires m.Valid() && c.state < m.states && c.action < m.actions && other < m.states
    ensures PairIndex(m.states, c.state, other) < PairCount(m.states)
    ensures row == ArcOf(m, PairIndex(m.states, c.state, other), c.action)
  {
    var first, second := if c.state < other then c.state else other, if c.state < other then other else c.state;
    StatesSwapped(m.states, c.state, other);
    row := Arc(PairIndex(m.states, c.state, other), c.action,
               PairIndex(m.states, m.delta[first][c.action], m.delta[second][c.action]),
               m.eta[first][c.action] != m.eta[second][c.action]);
  }

  /** The rows of the changes before k, and of change k for the states before other. */
  ghost predicate RowsUpto(m: Automaton, changes: seq<Change>, k: nat, other: nat, rows: seq<Arc>) {
    && m.Valid()
    && (forall row {:trigger row in rows} | row in rows ::
        IsArc(m, row) && ReadsChanged(m.states, changes, row.source, row.action))
    && (forall i, s {:trigger PairIndex(m.states, changes[i].state, s)} |
          0 <= i < |changes| && 0 <= s < m.states && changes[i].state < m.states && changes[i].action < m.actions
          && (i < k || (i == k && s < other)) ::
          && PairIndex(m.states, changes[i].state, s) < PairCount(m.states)
          && ArcOf(m, PairIndex(m.states, changes[i].state, s), changes[i].action) in rows)
  }

  lemma RowAdded(m: Automaton, changes: seq<Change>, k: nat, other: nat, rows: seq<Arc>, row: Arc)
    requires RowsUpto(m, changes, k, other, rows) && k < |changes| && other < m.states
    requires changes[k].state < m.states && changes[k].action < m.actions
    requires PairIndex(m.states, changes[k].state, other) < PairCount(m.states)
    requires row == ArcOf(m, PairIndex(m.states, changes[k].state, other), changes[k].action)
    ensures RowsUpto(m, changes, k, other + 1, rows + [row])
  {
    StatesSwapped(m.states, changes[k].state, other);
    assert NamesCell(changes, changes[k].state, changes[k].action);
  }

  /** The first loop: a row for every change and every other state. */
  method ListRows(m: Automaton, changes: seq<Change>) returns (rows: array<Arc>)
    requires m.Valid() && forall k | 0 <= k < |changes| :: changes[k].state < m.states && changes[k].action < m.actions
    ensures fresh(rows) && RowsUpto(m, changes, |changes|, 0, rows[..])
  {
    var list: seq<Arc> := [];
    for change := 0 to |changes|
      invariant RowsUpto(m, changes, change, 0, list)
    {
      for other := 0 to m.states
        invariant RowsUpto(m, changes, change, other, list)
      {
        var row := MakeRow(m, changes[change], other);
        RowAdded(m, changes, change, other, list, row);
        list := list + [row];
      }
    }
    rows := new Arc[|list|](i requires 0 <= i < |list| => list[i]);
    assert rows[..] == list;
  }

  /** Every arc that reads a changed cell has been listed. */
  lemma RowIsListed(m: Automaton, changes: seq<Change>, rows: seq<Arc>, row: Arc)
    requires RowsUpto(m, changes, |changes|, 0, rows) && IsArc(m, row)
             && ReadsChanged(m.states, changes, row.source, row.action)
    ensures row in rows
  {
    var (i, j) := States(m.states, row.source);
    IndexInRange(m.states, i, j);
    if NamesCell(changes, i, row.action) {
      var k :| 0 <= k < |changes| && changes[k].state == i && changes[k].action == row.action;
      assert PairIndex(m.states, changes[k].state, j) == row.source;
    } else {
      var k :| 0 <= k < |changes| && changes[k].state == j && changes[k].action == row.action;
      assert PairIndex(m.states, changes[k].state, i) == row.source;
    }
  }

  /** build_edge_updates: rows and seeds, each sorted and without repetitions. */
  method BuildEdgeUpdates(m: Automaton, changes: seq<Change>) returns (updates: seq<Arc>, seeds: seq<nat>)
    requires m.Valid() && forall k | 0 <= k < |changes| :: changes[k].state < m.states && changes[k].action < m.actions
    ensures AreUpdates(m, changes, updates) && AreSeeds(m.states, changes, seeds)
  {
    seeds := BuildSeeds(m.states, changes);
    var rows := ListRows(m, changes);
    var key := (row: Arc) => Rank(m.actions, row);
    ghost var listed := rows[..];
    Sorting.Sort(rows, key);
    ghost var sorted := rows[..];
    var count := Sorting.Compact(rows, key);
    updates := rows[..count];
    SortedRows(m, changes, listed, sorted, updates, key);
  }

  lemma SortedRows(m: Automaton, changes: seq<Change>, listed: seq<Arc>, sorted: seq<Arc>, updates: seq<Arc>,
                   key: Arc -> nat)
    requires RowsUpto(m, changes, |changes|, 0, listed) && multiset(sorted) == multiset(listed)
    requires forall row {:trigger key(row)} :: key(row) == Rank(m.actions, row)
    requires Sorting.Ascending(updates, key)
    requires forall x {:trigger x in updates} | x in updates :: x in sorted
    requires forall i {:trigger sorted[i]} | 0 <= i < |sorted| :: Sorting.HasKey(updates, key, key(sorted[i]))
    ensures AreUpdates(m, changes, updates)
  {
    forall x ensures x in sorted <==> x in listed {
      assert x in sorted <==> x in multiset(sorted);
      assert x in listed <==> x in multiset(listed);
    }
    forall i, j | 0 <= i < j < |updates| ensures Before(updates[i], updates[j]) {
      assert updates[i] in updates && updates[j] in updates;
      assert key(updates[i]) < key(updates[j]);
      RankIsOrder(m.actions, updates[i], updates[j]);
    }
    forall row | IsArc(m, row) && ReadsChanged(m.states, changes, row.source, row.action) ensures row in updates {
      RowIsListed(m, changes, listed, row);
      var i :| 0 <= i < |sorted| && sorted[i] == row;
      var x :| x in updates && key(x) == key(sorted[i]);
      RankIsOrder(m.actions, x, row);
    }
  }
}
