/** The full oracle: one exact record for each pair, built from an automaton. */
module Oracle {
  import opened Records
  import opened PairGraph
  import opened Pairs
  import opened Columns
  import opened Predecessors
  import opened OracleSearch
  import opened Witnesses

  // ---------- The pair edges as flat arrays ----------

  datatype Topology = Topology(first: seq<nat>, second: seq<nat>, next: seq<nat>, outputsDiffer: seq<bool>)

  ghost predicate EdgeIs(t: Topology, m: Automaton, pair: nat, action: nat)
    requires m.Valid() && pair < PairCount(m.states) && action < m.actions
  {
    var e := Edge(m.actions, pair, action);
    && e < |t.next| && t.next[e] == Target(m, pair, action)
    && e < |t.outputsDiffer| && t.outputsDiffer[e] == OutputsDiffer(m, pair, action)
  }

  /** The pairs before count are listed, with all their edges. */
  ghost predicate Lists(t: Topology, m: Automaton, count: nat) {
    && m.Valid() && count <= PairCount(m.states)
    && |t.first| == |t.second| == count && |t.next| == |t.outputsDiffer| == count * m.actions
    && (forall p {:trigger States(m.states, p)} | 0 <= p < count :: (t.first[p], t.second[p]) == States(m.states, p))
    && (forall p, a {:trigger EdgeIs(t, m, p, a)} | 0 <= p < count && 0 <= a < m.actions :: EdgeIs(t, m, p, a))
  }

  /** Append one pair whose edges are already in place. */
  lemma ListsNext(t: Topology, u: Topology, m: Automaton, count: nat)
    requires Lists(t, m, count) && count < PairCount(m.states)
    requires u.first == t.first + [States(m.states, count).0] && u.second == t.second + [States(m.states, count).1]
    requires t.next <= u.next && t.outputsDiffer <= u.outputsDiffer
    requires |u.next| == |u.outputsDiffer| == Edge(m.actions, count, m.actions)
    requires forall a {:trigger EdgeIs(u, m, count, a)} | 0 <= a < m.actions :: EdgeIs(u, m, count, a)
    ensures Lists(u, m, count + 1)
  {
    OneMoreRow(m.actions, count);
    forall p, a | 0 <= p < count + 1 && 0 <= a < m.actions ensures EdgeIs(u, m, p, a) {
      if p < count {
        assert EdgeIs(t, m, p, a);
      }
    }
  }

  /** The edges of one pair. */
  method FillEdges(m: Automaton, t: Topology, first: nat, second: nat) returns (u: Topology)
    requires m.Valid() && first <= second < m.states
    requires |t.next| == |t.outputsDiffer| == Edge(m.actions, PairIndex(m.states, first, second), 0)
    ensures PairIndex(m.states, first, second) < PairCount(m.states)
    ensures u.first == t.first + [first] && u.second == t.second + [second]
    ensures t.next <= u.next && t.outputsDiffer <= u.outputsDiffer
    ensures |u.next| == |u.outputsDiffer| == Edge(m.actions, PairIndex(m.states, first, second), m.actions)
    ensures forall a {:trigger EdgeIs(u, m, PairIndex(m.states, first, second), a)} | 0 <= a < m.actions ::
              EdgeIs(u, m, PairIndex(m.states, first, second), a)
  {
    ghost var pair := PairIndex(m.states, first, second);
    StatesOfIndex(m.states, first, second);
    var next, differ := t.next, t.outputsDiffer;
    for action := 0 to m.actions
      invariant t.next <= next && t.outputsDiffer <= differ
      invariant |next| == |differ| == Edge(m.actions, pair, action)
      invariant forall a {:trigger Edge(m.actions, pair, a)} | 0 <= a < action ::
                  && next[Edge(m.actions, pair, a)] == Target(m, pair, a)
                  && differ[Edge(m.actions, pair, a)] == OutputsDiffer(m, pair, a)
    {
      var firstNext, secondNext := m.delta[first][action], m.delta[second][action];
      next := next + [PairIndex(m.states, firstNext, secondNext)];
      differ := differ + [m.eta[first][action] != m.eta[second][action]];
    }
    u := Topology(t.first + [first], t.second + [second], next, differ);
  }

  /** sg_oracle_fill_pairs */
  method FillPairs(m: Automaton) returns (t: Topology)
    requires m.Valid()
    ensures Lists(t, m, PairCount(m.states))
  {
    t := Topology([], [], [], []);
    ghost var pair := 0;
    for first := 0 to m.states
      invariant pair == Row(m.states, first) && Lists(t, m, pair)
    {
      RowsAscend(m.states, first, m.states);
      LastRow(m.states);
      for second := first to m.states
        invariant pair == Row(m.states, first) + (second - first) && Lists(t, m, pair)
      {
        IndexInRow(m.states, first, second);
        StatesOfIndex(m.states, first, second);
        var u := FillEdges(m, t, first, second);
        ListsNext(t, u, m, pair);
        t := u;
        pair := pair + 1;
      }
    }
    LastRow(m.states);
  }

  /** The flat arrays describe graph g. */
  ghost predicate Wired(g: Graph, t: Topology, objective: Objective) {
    && g.Valid() && |t.first| == |t.second| == g.pairs
    && |t.next| == |t.outputsDiffer| == g.pairs * g.actions
    && (forall e | 0 <= e < |t.next| :: t.next[e] < g.pairs)
    && (forall p {:trigger t.first[p]} | 0 <= p < g.pairs :: t.first[p] == t.second[p] <==> g.diagonal[p])
    && (forall p, a {:trigger Edge(g.actions, p, a)} | 0 <= p < g.pairs && 0 <= a < g.actions ::
          && Edge(g.actions, p, a) < |t.next|
          && t.next[Edge(g.actions, p, a)] == g.next[p][a]
          && g.ends[p][a] == (objective.Resolution? && t.outputsDiffer[Edge(g.actions, p, a)]))
  }

  lemma ListedIsWired(m: Automaton, t: Topology, objective: Objective)
    requires m.Valid() && Lists(t, m, PairCount(m.states))
    ensures Wired(PairGraphOf(m, objective), t, objective)
  {
    var g := PairGraphOf(m, objective);
    forall p | 0 <= p < g.pairs ensures t.first[p] == t.second[p] <==> g.diagonal[p] {
      assert g.diagonal[p] == SameState(m, p);
    }
    forall p, a | 0 <= p < g.pairs && 0 <= a < g.actions
      ensures Edge(g.actions, p, a) < |t.next|
      ensures t.next[Edge(g.actions, p, a)] == g.next[p][a]
      ensures g.ends[p][a] == (objective.Resolution? && t.outputsDiffer[Edge(g.actions, p, a)])
    {
      assert EdgeIs(t, m, p, a);
      var target, differ := Target(m, p, a), OutputsDiffer(m, p, a);
      assert g.next[p][a] == target;
    }
    forall e | 0 <= e < |t.next| ensures t.next[e] < g.pairs {
      var p, a := EdgeOf(g.pairs, g.actions, e);
      assert EdgeIs(t, m, p, a);
      assert g.next[p][a] == Target(m, p, a);
    }
  }

  // ---------- Distances ----------

  /** Give a pair its distance and queue it. */
  method Enqueue(distance: array<nat>, queue: array<nat>, tail: nat, pair: nat, x: nat)
    requires distance.Length == queue.Length && distance != queue && tail < queue.Length && pair < distance.Length
    modifies distance, queue
    ensures distance[..] == old(distance[..])[pair := x]
    ensures queue[..tail + 1] == old(queue[..tail]) + [pair]
  {
    distance[pair] := x;
    queue[tail] := pair;
  }

  method SeedRoots(t: Topology, pairs: nat, objective: Objective, distance: array<nat>, queue: array<nat>,
                   ghost g: Graph)
    returns (tail: nat)
    requires Wired(g, t, objective) && g.pairs == pairs
    requires distance.Length == queue.Length == pairs && distance != queue
    requires forall p | 0 <= p < pairs :: distance[p] == NONE
    modifies distance, queue
    ensures tail <= pairs && Seeded(g, distance[..], queue[..tail], pairs, 0)
  {
    tail := 0;
    for pair := 0 to pairs
      invariant tail <= pairs && Seeded(g, distance[..], queue[..tail], pair, 0)
    {
      SeedRoot(g, distance[..], queue[..tail], pair);
      if t.first[pair] == t.second[pair] {
        Enqueue(distance, queue, tail, pair, 0);
        tail := tail + 1;
      }
    }
  }

  method SeedClosers(t: Topology, pairs: nat, actions: nat, distance: array<nat>, queue: array<nat>, roots: nat,
                     ghost g: Graph)
    returns (tail: nat)
    requires Wired(g, t, Resolution) && g.pairs == pairs && g.actions == actions
    requires distance.Length == queue.Length == pairs && distance != queue
    requires roots <= pairs && Seeded(g, distance[..], queue[..roots], pairs, 0)
    modifies distance, queue
    ensures tail <= pairs && Seeded(g, distance[..], queue[..tail], pairs, pairs)
  {
    tail := roots;
    for pair := 0 to pairs
      invariant tail <= pairs && Seeded(g, distance[..], queue[..tail], pairs, pair)
    {
      SeedCloser(g, distance[..], queue[..tail], pair);
      if distance[pair] == NONE {
        var closes := AnyDiffers(t, pair, actions, g);
        if closes {
          Enqueue(distance, queue, tail, pair, 1);
          tail := tail + 1;
        }
      }
    }
  }

  /** The first loops of sg_merge_distances and sg_resolution_distances: queue the
      diagonal pairs, then the pairs that an action resolves by itself. */
  method SeedQueue(t: Topology, pairs: nat, actions: nat, objective: Objective, distance: array<nat>, queue: array<nat>,
                   ghost g: Graph)
    returns (tail: nat)
    requires Wired(g, t, objective) && g.pairs == pairs && g.actions == actions
    requires distance.Length == queue.Length == pairs && distance != queue
    requires forall p | 0 <= p < pairs :: distance[p] == NONE
    modifies distance, queue
    ensures tail <= pairs && Seeded(g, distance[..], queue[..tail], pairs, pairs)
  {
    tail := SeedRoots(t, pairs, objective, distance, queue, g);
    if objective.Resolution? {
      tail := SeedClosers(t, pairs, actions, distance, queue, tail, g);
    } else {
      assert forall p, a | 0 <= p < g.pairs && 0 <= a < g.actions :: Edge(g.actions, p, a) >= 0 && !g.ends[p][a];
      NoClosers(g, distance[..], queue[..tail]);
    }
  }

  method AnyDiffers(t: Topology, pair: nat, actions: nat, ghost g: Graph) returns (found: bool)
    requires Wired(g, t, Resolution) && g.actions == actions && pair < g.pairs
    ensures found == Closes(g, pair)
  {
    found := false;
    for action := 0 to actions
      invariant forall a | 0 <= a < action :: !g.ends[pair][a]
    {
      assert Edge(g.actions, pair, action) == pair * actions + action;
      if t.outputsDiffer[pair * actions + action] {
        return true;
      }
    }
  }

  ghost predicate NoneGrew(d: seq<nat>, e: seq<nat>) {
    |d| == |e| && forall p {:trigger e[p]} | 0 <= p < |d| :: e[p] <= d[p]
  }

  /** Give a pair first met the next distance, and queue it. */
  method Meet(source: nat, distance: array<nat>, queue: array<nat>, head: nat, tail: nat,
              ghost g: Graph, ghost floor: nat, ghost action: nat)
    requires distance.Length == queue.Length == g.pairs && distance != queue
    requires 0 < head <= tail <= g.pairs && Expanding(g, Search(distance[..], queue[..tail], head, floor))
    requires LeadsTo(g, source, action, queue[head - 1]) && distance[source] == NONE
    modifies distance, queue
    ensures tail < g.pairs && floor + 1 < NONE && Expanding(g, Search(distance[..], queue[..tail + 1], head, floor))
    ensures queue[..tail] == old(queue[..tail]) && distance[..] == old(distance[..])[source := floor + 1]
  {
    ghost var s := Search(distance[..], queue[..tail], head, floor);
    assert s.queue[head - 1] == queue[head - 1] && s.queue[head - 1] in s.queue;
    Discover(g, s, source, action);
    distance[source] := distance[queue[head - 1]] + 1;
    queue[tail] := source;
    assert distance[..] == s.d[source := floor + 1] && queue[..tail + 1] == s.queue + [source];
    assert queue[..tail] == s.queue;
  }

  /** Follow one edge backwards: a source without a distance gets the next one. */
  method FollowEdge(source: nat, skip: bool, distance: array<nat>, queue: array<nat>, head: nat, tail: nat,
                    ghost g: Graph, ghost floor: nat, ghost action: nat)
    returns (more: nat)
    requires distance.Length == queue.Length == g.pairs && distance != queue
    requires 0 < head <= tail <= g.pairs && Expanding(g, Search(distance[..], queue[..tail], head, floor))
    requires source < g.pairs && (!skip <==> LeadsTo(g, source, action, queue[head - 1]))
    modifies distance, queue
    ensures tail <= more <= g.pairs && Expanding(g, Search(distance[..], queue[..more], head, floor))
    ensures queue[..tail] == old(queue[..tail])
    ensures !skip ==> distance[..][source] <= floor + 1
    ensures NoneGrew(old(distance[..]), distance[..])
  {
    more := tail;
    ghost var s := Search(distance[..], queue[..tail], head, floor);
    if !skip {
      if distance[source] == NONE {
        Meet(source, distance, queue, head, tail, g, floor, action);
        more := tail + 1;
      } else {
        FoundEarlier(g, s, source);
      }
    }
  }

  /** What has a distance already is at most one step above the floor. */
  lemma FoundEarlier(g: Graph, s: Search, p: nat)
    requires Expanding(g, s) && p < g.pairs && s.d[p] != NONE
    ensures s.d[p] <= s.floor + 1
  {
    assert p in s.queue;
    var i :| 0 <= i < |s.queue| && s.queue[i] == p;
    assert s.Levels()[i] == s.d[p];
  }

  ghost predicate SliceFollowed(g: Graph, index: Index, d: seq<nat>, target: nat, start: nat, slot: nat, floor: nat)
    requires g.Valid()
  {
    forall i {:trigger index.pairs[i]} | start <= i < slot ::
      && i < |index.pairs| == |index.actions| && index.pairs[i] < |d|
      && (LeadsTo(g, index.pairs[i], index.actions[i], target) ==> d[index.pairs[i]] <= floor + 1)
  }

  lemma SliceFollowedNext(g: Graph, index: Index, d: seq<nat>, e: seq<nat>, target: nat, start: nat, slot: nat,
                          floor: nat)
    requires g.Valid() && SliceFollowed(g, index, d, target, start, slot, floor) && NoneGrew(d, e)
    requires slot < |index.pairs| == |index.actions| && index.pairs[slot] < |d|
    requires LeadsTo(g, index.pairs[slot], index.actions[slot], target) ==> e[index.pairs[slot]] <= floor + 1
    ensures SliceFollowed(g, index, e, target, start, slot + 1, floor)
  {
  }

  /** Follow the edge of one slot backwards. */
  method FollowSlot(t: Topology, actions: nat, objective: Objective, index: Index, distance: array<nat>,
                    queue: array<nat>, head: nat, tail: nat, target: nat, slot: nat, ghost g: Graph, ghost floor: nat)
    returns (more: nat)
    requires Wired(g, t, objective) && g.actions == actions && Sorts(index, t.next, g.pairs, actions)
    requires distance.Length == queue.Length == g.pairs && distance != queue && target < g.pairs
    requires 0 < head <= tail <= g.pairs && Expanding(g, Search(distance[..], queue[..tail], head, floor))
    requires queue[head - 1] == target && index.offsets[target] <= slot < index.offsets[target + 1]
    requires SliceFollowed(g, index, distance[..], target, index.offsets[target], slot, floor)
    modifies distance, queue
    ensures tail <= more <= g.pairs && queue[head - 1] == target
    ensures Expanding(g, Search(distance[..], queue[..more], head, floor))
    ensures SliceFollowed(g, index, distance[..], target, index.offsets[target], slot + 1, floor)
  {
    SliceIsInto(index, t.next, g.pairs, actions, target, slot);
    var source, action := index.pairs[slot], index.actions[slot];
    assert Edge(actions, source, action) == source * actions + action;
    var skip := objective.Resolution? && t.outputsDiffer[source * actions + action];
    ghost var d := distance[..];
    more := FollowEdge(source, skip, distance, queue, head, tail, g, floor, action);
    SliceFollowedNext(g, index, d, distance[..], target, index.offsets[target], slot, floor);
  }

  /** The inner loop: follow every edge into the pair taken from the queue. */
  method FollowSlice(t: Topology, actions: nat, objective: Objective, index: Index, distance: array<nat>,
                     queue: array<nat>, head: nat, tail: nat, target: nat, ghost g: Graph, ghost floor: nat)
    returns (more: nat)
    requires Wired(g, t, objective) && g.actions == actions && Sorts(index, t.next, g.pairs, actions)
    requires distance.Length == queue.Length == g.pairs && distance != queue
    requires 0 < head <= tail <= g.pairs && Expanding(g, Search(distance[..], queue[..tail], head, floor))
    requires queue[head - 1] == target < g.pairs
    modifies distance, queue
    ensures tail <= more <= g.pairs && queue[head - 1] == target
    ensures Expanding(g, Search(distance[..], queue[..more], head, floor))
    ensures SliceFollowed(g, index, distance[..], target, index.offsets[target], index.offsets[target + 1], floor)
  {
    more := tail;
    assert index.offsets[target] <= index.offsets[target + 1] by {
      StartsAscend(t.next, target, target + 1);
    }
    for slot := index.offsets[target] to index.offsets[target + 1]
      invariant tail <= more <= g.pairs && queue[head - 1] == target
      invariant Expanding(g, Search(distance[..], queue[..more], head, floor))
      invariant SliceFollowed(g, index, distance[..], target, index.offsets[target], slot, floor)
    {
      more := FollowSlot(t, actions, objective, index, distance, queue, head, more, target, slot, g, floor);
    }
  }

  /** Expand the pair before head. */
  method ExpandPair(t: Topology, actions: nat, objective: Objective, index: Index, distance: array<nat>,
                    queue: array<nat>, head: nat, tail: nat, ghost g: Graph, ghost floor: nat)
    returns (more: nat)
    requires Wired(g, t, objective) && g.actions == actions && Sorts(index, t.next, g.pairs, actions)
    requires distance.Length == queue.Length == g.pairs && distance != queue
    requires 0 < head <= tail <= g.pairs && Expanding(g, Search(distance[..], queue[..tail], head, floor))
    modifies distance, queue
    ensures tail <= more <= g.pairs && Searching(g, Search(distance[..], queue[..more], head, floor))
  {
    var target := queue[head - 1];
    assert target == queue[..tail][head - 1];
    more := FollowSlice(t, actions, objective, index, distance, queue, head, tail, target, g, floor);
    SliceIsCovered(g, t, objective, index, distance[..], target, floor);
    ExpandEnds(g, Search(distance[..], queue[..more], head, floor));
  }

  lemma SliceIsCovered(g: Graph, t: Topology, objective: Objective, index: Index, d: seq<nat>, target: nat, floor: nat)
    requires Wired(g, t, objective) && Sorts(index, t.next, g.pairs, g.actions) && |d| == g.pairs && target < g.pairs
    requires SliceFollowed(g, index, d, target, index.offsets[target], index.offsets[target + 1], floor)
    ensures forall p: nat, a: nat {:trigger LeadsTo(g, p, a, target)} | LeadsTo(g, p, a, target) :: d[p] <= floor + 1
  {
    forall p: nat, a: nat {:trigger LeadsTo(g, p, a, target)} | LeadsTo(g, p, a, target) ensures d[p] <= floor + 1 {
      var slot := EdgeIsInSlice(index, t.next, g.pairs, g.actions, p, a);
      assert index.pairs[slot] == p;
    }
  }

  /** sg_merge_distances and sg_resolution_distances; the merge objective has no
      action that ends. */
  method FindDistances(t: Topology, pairs: nat, actions: nat, objective: Objective, index: Index, ghost g: Graph)
    returns (distance: array<nat>)
    requires Wired(g, t, objective) && g.pairs == pairs < NONE - 1 && g.actions == actions
    requires Sorts(index, t.next, pairs, actions)
    ensures fresh(distance) && ExactDistances(g, distance[..])
  {
    distance := new nat[pairs](_ => NONE);
    var queue := new nat[pairs](_ => 0);
    var head := 0;
    var tail := SeedQueue(t, pairs, actions, objective, distance, queue, g);
    ghost var floor := 0;
    SearchStarts(g, distance[..], queue[..tail]);
    while head < tail
      invariant head <= tail <= pairs && distance.Length == queue.Length == pairs
      invariant Searching(g, Search(distance[..], queue[..tail], head, floor))
      decreases pairs - head
    {
      Expand(g, Search(distance[..], queue[..tail], head, floor));
      floor := distance[queue[head]];
      head := head + 1;
      tail := ExpandPair(t, actions, objective, index, distance, queue, head, tail, g, floor);
    }
    SearchEnds(g, Search(distance[..], queue[..tail], head, floor));
  }

  // ---------- Witnesses ----------

  /** The action, next pair and support of pair p after the first k actions. */
  ghost predicate Chosen(g: Graph, d: seq<nat>, p: nat, k: nat, action: nat, next: nat, support: nat)
    requires g.Valid() && |d| == g.pairs && p < g.pairs && k <= g.actions
  {
    && support == |Tight(g, d, p, k)|
    && (support == 0 ==> action == NONE && next == NONE)
    && (support > 0 ==>
          && action in Tight(g, d, p, k) && (forall a | a in Tight(g, d, p, k) :: action <= a)
          && next == (if g.ends[p][action] then NONE else g.next[p][action]))
  }

  lemma ChosenStarts(g: Graph, d: seq<nat>, p: nat)
    requires g.Valid() && |d| == g.pairs && p < g.pairs
    ensures Chosen(g, d, p, 0, NONE, NONE, 0)
  {
    assert Tight(g, d, p, 0) == {};
  }

  lemma ChosenNext(g: Graph, d: seq<nat>, p: nat, a: nat, action: nat, next: nat, support: nat)
    requires g.Valid() && |d| == g.pairs && p < g.pairs && a < g.actions
    requires Chosen(g, d, p, a, action, next, support)
    ensures if CostFrom(g, d, p, a) != d[p] then Chosen(g, d, p, a + 1, action, next, support)
            else if support == 0
            then Chosen(g, d, p, a + 1, a, if g.ends[p][a] then NONE else g.next[p][a], 1)
            else Chosen(g, d, p, a + 1, action, next, support + 1)
  {
    TightNext(g, d, p, a);
  }

  /** What was chosen for the distances of all pairs. */
  ghost predicate ChosenAt(g: Graph, d: seq<nat>, p: nat, e: Entry)
    requires g.Valid() && |d| == g.pairs && p < g.pairs
  {
    && e.distance == d[p] && e.reachable == (d[p] != NONE)
    && (if d[p] == 0 || d[p] == NONE then e.action == NONE && e.next == NONE && e.support == 0
        else Chosen(g, d, p, g.actions, e.action, e.next, e.support))
  }

  /** Choosing for one pair; nothing is chosen at distance 0 or without a distance. */
  method ChooseWitness(t: Topology, actions: nat, objective: Objective, distance: array<nat>, pair: nat, ghost g: Graph)
    returns (entry: Entry)
    requires Wired(g, t, objective) && g.actions == actions && pair < g.pairs == distance.Length
    requires forall p | 0 <= p < g.pairs :: distance[p] <= NONE
    ensures ChosenAt(g, distance[..], pair, entry)
  {
    var action: nat, next: nat, support: nat := NONE, NONE, 0;
    if distance[pair] != NONE && distance[pair] != 0 {
      ChosenStarts(g, distance[..], pair);
      for candidate := 0 to actions
        invariant Chosen(g, distance[..], pair, candidate, action, next, support)
      {
        assert Edge(actions, pair, candidate) == pair * actions + candidate;
        var edge := pair * actions + candidate;
        var candidateNext := t.next[edge];
        ChosenNext(g, distance[..], pair, candidate, action, next, support);
        var differs := objective.Resolution? && t.outputsDiffer[edge];
        var immediate := distance[pair] == 1 && differs;
        var viaNext := !differs && distance[candidateNext] != NONE && distance[candidateNext] + 1 == distance[pair];
        if immediate || viaNext {
          if support == 0 {
            action := candidate;
            next := if immediate then NONE else candidateNext;
          }
          support := support + 1;
        }
      }
    }
    entry := Entry(distance[pair] != NONE, distance[pair], action, next, support);
  }

  lemma ChosenIsBest(g: Graph, r: Entries, p: nat)
    requires Fits(g, r) && p < g.pairs && ExactAt(g, DistancesOf(r), p) && ChosenAt(g, DistancesOf(r), p, r[p])
    ensures r[p] == Best(g, r, p)
  {
    var d := DistancesOf(r);
    forall a | 0 <= a < g.actions ensures Cost(g, r, p, a) == CostFrom(g, d, p, a) {}
    if r[p].distance < NONE {
      var a :| 0 <= a < g.actions && CostFrom(g, d, p, a) == d[p];
      assert a in Tight(g, d, p, g.actions);
      assert Tight(g, d, p, g.actions) == Optimal(g, r, p, Upto(g.actions), r[p].distance);
      forall b | b in Upto(g.actions) && Cost(g, r, p, b) == r[p].distance ensures r[p].action <= b {
        assert b in Tight(g, d, p, g.actions);
      }
    }
    BestIsBest(g, r, p);
    BestIsUnique(g, r, p, Upto(g.actions), r[p], Best(g, r, p));
  }

  /** Exact distances and what was chosen for them are exact records. */
  lemma ChosenIsExact(g: Graph, r: Entries)
    requires g.Valid() && |r| == g.pairs && ExactDistances(g, DistancesOf(r))
    requires forall p {:trigger r[p]} | 0 <= p < g.pairs :: ChosenAt(g, DistancesOf(r), p, r[p])
    ensures Consistent(g, r)
  {
    var d := DistancesOf(r);
    forall p | 0 <= p < g.pairs ensures r[p].distance <= NONE {
      assert d[p] == r[p].distance;
    }
    forall p | 0 <= p < g.pairs && !g.diagonal[p] ensures r[p] == Best(g, r, p) {
      assert d[p] == r[p].distance;
      ChosenIsBest(g, r, p);
    }
  }

  /** sg_choose_witnesses, and the entry that sg_pair_oracle_record reads. */
  method ChooseWitnesses(t: Topology, pairs: nat, actions: nat, objective: Objective, distance: array<nat>,
                         ghost g: Graph)
    returns (entries: seq<Entry>)
    requires Wired(g, t, objective) && g.pairs == pairs == distance.Length && g.actions == actions
    requires ExactDistances(g, distance[..])
    ensures Consistent(g, entries)
  {
    entries := [];
    assert forall p | 0 <= p < pairs :: distance[..][p] <= NONE;
    for pair := 0 to pairs
      invariant |entries| == pair
      invariant forall p {:trigger entries[p]} | 0 <= p < pair :: ChosenAt(g, distance[..], p, entries[p])
    {
      var entry := ChooseWitness(t, actions, objective, distance, pair, g);
      entries := entries + [entry];
    }
    assert DistancesOf(entries) == distance[..];
    ChosenIsExact(g, entries);
  }

  // ---------- The oracle ----------

  class PairOracle {
    const model: Automaton
    const topology: Topology
    const merge: seq<Entry>
    const resolution: seq<Entry>

    ghost predicate Valid() {
      && Lists(topology, model, PairCount(model.states)) && PairCount(model.states) < NONE - 1
      && |merge| == |resolution| == PairCount(model.states)
    }

    function Entries(objective: Objective): seq<Entry> {
      if objective.Merge? then merge else resolution
    }

    constructor (model: Automaton, topology: Topology, merge: seq<Entry>, resolution: seq<Entry>)
      ensures this.model == model && this.topology == topology
      ensures this.merge == merge && this.resolution == resolution
    {
      this.model, this.topology, this.merge, this.resolution := model, topology, merge, resolution;
    }

    /** sg_pair_oracle_record */
    method Record(pair: nat) returns (status: Status, record: PairRecord)
      requires Valid()
      ensures status == if pair < |merge| then Ok else InvalidArgument
      ensures status.Ok? ==> record == PairRecord(pair, merge[pair], resolution[pair])
    {
      if pair >= |merge| {
        return InvalidArgument, PairRecord(pair, UNREACHABLE, UNREACHABLE);
      }
      return Ok, PairRecord(pair, merge[pair], resolution[pair]);
    }
  }

  /** sg_pair_oracle_build */
  method Build(model: Automaton) returns (oracle: PairOracle)
    requires model.Valid() && PairCount(model.states) < NONE - 1
    ensures fresh(oracle) && oracle.Valid() && oracle.model == model
    ensures Consistent(PairGraphOf(model, Merge), oracle.merge)
    ensures Consistent(PairGraphOf(model, Resolution), oracle.resolution)
  {
    var pairs, actions := PairCount(model.states), model.actions;
    var t := FillPairs(model);
    ghost var g, h := PairGraphOf(model, Merge), PairGraphOf(model, Resolution);
    ListedIsWired(model, t, Merge);
    ListedIsWired(model, t, Resolution);
    var index := BuildIndex(t.next, pairs, actions);
    var near := FindDistances(t, pairs, actions, Merge, index, g);
    var merge := ChooseWitnesses(t, pairs, actions, Merge, near, g);
    var apart := FindDistances(t, pairs, actions, Resolution, index, h);
    var resolution := ChooseWitnesses(t, pairs, actions, Resolution, apart, h);
    oracle := new PairOracle(model, t, merge, resolution);
  }
}
