/** The backward breadth-first search that gives every pair its distance. */
module OracleSearch {
  import opened Records
  import opened PairGraph
  import opened RepairSteps
  import opened Arcs

  // ---------- Distances without witnesses ----------

  ghost function CostFrom(g: Graph, d: seq<nat>, p: nat, a: nat): nat
    requires g.Valid() && |d| == g.pairs && p < g.pairs && a < g.actions
  {
    if g.ends[p][a] then 1 else if d[g.next[p][a]] >= NONE then NONE else d[g.next[p][a]] + 1
  }

  /** A distance is the least cost of a first action. */
  ghost predicate ExactAt(g: Graph, d: seq<nat>, p: nat)
    requires g.Valid() && |d| == g.pairs && p < g.pairs
  {
    && 1 <= d[p] <= NONE
    && (forall a {:trigger CostFrom(g, d, p, a)} | 0 <= a < g.actions :: d[p] <= CostFrom(g, d, p, a))
    && (d[p] < NONE ==> exists a {:trigger CostFrom(g, d, p, a)} :: 0 <= a < g.actions && CostFrom(g, d, p, a) == d[p])
  }

  ghost predicate ExactDistances(g: Graph, d: seq<nat>) {
    && g.Valid() && |d| == g.pairs
    && forall p {:trigger d[p]} | 0 <= p < g.pairs :: if g.diagonal[p] then d[p] == 0 else ExactAt(g, d, p)
  }

  // ---------- The search as a value ----------

  /** Pairs before head have been expanded; all of them are within floor, and what is
      still queued is at floor or one above. */
  datatype Search = Search(d: seq<nat>, queue: seq<nat>, head: nat, floor: nat) {

    ghost predicate Shape(g: Graph) {
      && g.Valid() && |d| == g.pairs < NONE - 1 && head <= |queue| && Distinct(queue)
      && (forall p {:trigger p in queue} | 0 <= p < g.pairs :: p in queue <==> d[p] < NONE)
      && (forall i {:trigger queue[i]} | 0 <= i < |queue| :: queue[i] < g.pairs)
      && (forall p {:trigger d[p]} | 0 <= p < g.pairs :: d[p] <= NONE && (d[p] == 0 <==> g.diagonal[p]))
    }

    /** The distances along the queue. */
    ghost function Levels(): (l: seq<nat>)
      requires forall i {:trigger queue[i]} | 0 <= i < |queue| :: queue[i] < |d|
      ensures |l| == |queue| && forall i {:trigger l[i]} | 0 <= i < |l| :: l[i] == d[queue[i]]
    {
      seq(|queue|, i requires 0 <= i < |queue| => d[queue[i]])
    }
  }

  ghost predicate Ordered(levels: seq<nat>, head: nat, floor: nat) {
    && (forall i {:trigger levels[i]} | 0 <= i < |levels| :: levels[i] <= floor + 1 && levels[i] <= i + 1)
    && (forall i {:trigger levels[i]} | 0 <= i < |levels| :: if i < head then levels[i] <= floor
        else floor <= levels[i])
    && (forall i, j {:trigger levels[i], levels[j]} | 0 <= i < j < |levels| :: levels[i] <= levels[j])
  }

  lemma OrderedAppend(levels: seq<nat>, head: nat, floor: nat)
    requires Ordered(levels, head, floor) && 0 < head <= |levels| && levels[head - 1] == floor
    ensures Ordered(levels + [floor + 1], head, floor)
  {
  }

  /** Every finite distance is the cost of some action. */
  ghost predicate Backed(g: Graph, d: seq<nat>)
    requires g.Valid() && |d| == g.pairs
  {
    forall p {:trigger d[p]} | 0 <= p < g.pairs && !g.diagonal[p] && d[p] < NONE ::
      exists a {:trigger CostFrom(g, d, p, a)} :: 0 <= a < g.actions && CostFrom(g, d, p, a) == d[p]
  }

  /** Action a leads from p on to the target, and does not end the objective. */
  ghost predicate LeadsTo(g: Graph, p: nat, a: nat, target: nat)
    requires g.Valid()
  {
    p < g.pairs && a < g.actions && g.next[p][a] == target && !g.ends[p][a]
  }

  /** The action has been followed backwards from its target. */
  ghost predicate Followed(g: Graph, d: seq<nat>, p: nat, a: nat)
    requires g.Valid() && |d| == g.pairs && p < g.pairs && a < g.actions
  {
    d[p] <= CostFrom(g, d, p, a)
  }

  /** Every action that ends, or leads to a pair in the first part of the queue, has been followed. */
  ghost predicate Covered(g: Graph, d: seq<nat>, queue: seq<nat>, count: nat)
    requires g.Valid() && |d| == g.pairs && count <= |queue|
  {
    forall p, a {:trigger Followed(g, d, p, a)} | 0 <= p < g.pairs && 0 <= a < g.actions
           && (g.ends[p][a] || g.next[p][a] in queue[..count]) :: Followed(g, d, p, a)
  }

  ghost predicate Searching(g: Graph, s: Search) {
    s.Shape(g) && Ordered(s.Levels(), s.head, s.floor) && Backed(g, s.d) && Covered(g, s.d, s.queue, s.head)
  }

  /** In the middle of expanding the pair at head - 1. */
  ghost predicate Expanding(g: Graph, s: Search) {
    && s.Shape(g) && Ordered(s.Levels(), s.head, s.floor) && Backed(g, s.d) && 0 < s.head
    && Covered(g, s.d, s.queue, s.head - 1) && s.d[s.queue[s.head - 1]] == s.floor
  }

  lemma Expand(g: Graph, s: Search)
    requires Searching(g, s) && s.head < |s.queue|
    ensures Expanding(g, s.(head := s.head + 1, floor := s.d[s.queue[s.head]]))
  {
    var t := s.(head := s.head + 1, floor := s.d[s.queue[s.head]]);
    assert t.Levels() == s.Levels();
    assert s.Levels()[s.head] == t.floor;
    assert s.queue[s.head] in s.queue;
  }

  lemma QueueHasRoom(g: Graph, s: Search, p: nat)
    requires s.Shape(g) && p < g.pairs && s.d[p] == NONE
    ensures |s.queue| < g.pairs && p !in s.queue
  {
    DistinctAppend(s.queue, p);
    FewDistinct(s.queue + [p], g.pairs);
  }

  lemma DiscoverKeepsShape(g: Graph, s: Search, p: nat)
    requires Expanding(g, s) && p < g.pairs && s.d[p] == NONE
    ensures var t := s.(d := s.d[p := s.floor + 1], queue := s.queue + [p]);
            t.Shape(g) && Ordered(t.Levels(), t.head, t.floor)
    ensures s.floor + 1 < NONE && |s.queue| < g.pairs
  {
    var t := s.(d := s.d[p := s.floor + 1], queue := s.queue + [p]);
    QueueHasRoom(g, s, p);
    DistinctAppend(s.queue, p);
    assert s.Levels()[s.head - 1] <= s.head;
    assert t.Shape(g);
    OrderedAppend(s.Levels(), s.head, s.floor);
    assert t.Levels() == s.Levels() + [s.floor + 1] by {
      assert forall i | 0 <= i < |s.queue| :: t.queue[i] == s.queue[i] && s.queue[i] in s.queue;
    }
  }

  lemma DiscoverKeepsBacked(g: Graph, d: seq<nat>, p: nat, a: nat, target: nat)
    requires g.Valid() && |d| == g.pairs && Backed(g, d) && LeadsTo(g, p, a, target)
    requires d[p] == NONE && d[target] + 1 < NONE
    ensures Backed(g, d[p := d[target] + 1])
  {
    var t := d[p := d[target] + 1];
    assert CostFrom(g, t, p, a) == t[p];
    forall q | 0 <= q < g.pairs && !g.diagonal[q] && t[q] < NONE && q != p
      ensures exists b {:trigger CostFrom(g, t, q, b)} :: 0 <= b < g.actions && CostFrom(g, t, q, b) == t[q]
    {
      var b :| 0 <= b < g.actions && CostFrom(g, d, q, b) == d[q];
      assert CostFrom(g, t, q, b) == t[q];
    }
  }

  lemma DiscoverKeepsCovered(g: Graph, d: seq<nat>, queue: seq<nat>, count: nat, p: nat, x: nat)
    requires g.Valid() && |d| == g.pairs && count <= |queue| && Covered(g, d, queue, count)
    requires p < g.pairs && p !in queue && x < d[p] == NONE
    requires forall q | q in queue :: q < g.pairs
    ensures Covered(g, d[p := x], queue + [p], count)
  {
    var t := d[p := x];
    assert (queue + [p])[..count] == queue[..count];
    forall q, b | 0 <= q < g.pairs && 0 <= b < g.actions && (g.ends[q][b] || g.next[q][b] in queue[..count])
      ensures Followed(g, t, q, b)
    {
      assert Followed(g, d, q, b);
      assert !g.ends[q][b] ==> g.next[q][b] in queue;
    }
  }

  /** A pair first met now is one step farther than the pair being expanded. */
  lemma Discover(g: Graph, s: Search, p: nat, a: nat)
    requires Expanding(g, s) && LeadsTo(g, p, a, s.queue[s.head - 1]) && s.d[p] == NONE
    ensures Expanding(g, s.(d := s.d[p := s.floor + 1], queue := s.queue + [p]))
    ensures s.floor + 1 < NONE && |s.queue| < g.pairs
  {
    QueueHasRoom(g, s, p);
    DiscoverKeepsShape(g, s, p);
    DiscoverKeepsBacked(g, s.d, p, a, s.queue[s.head - 1]);
    DiscoverKeepsCovered(g, s.d, s.queue, s.head - 1, p, s.floor + 1);
    assert s.queue[s.head - 1] in s.queue;
  }

  /** Once every action into the expanded pair has been followed, the pair is done. */
  lemma ExpandEnds(g: Graph, s: Search)
    requires Expanding(g, s)
    requires forall p: nat, a: nat {:trigger LeadsTo(g, p, a, s.queue[s.head - 1])} |
               LeadsTo(g, p, a, s.queue[s.head - 1]) :: s.d[p] <= s.floor + 1
    ensures Searching(g, s)
  {
    var target := s.queue[s.head - 1];
    forall p, a | 0 <= p < g.pairs && 0 <= a < g.actions && (g.ends[p][a] || g.next[p][a] in s.queue[..s.head])
      ensures Followed(g, s.d, p, a)
    {
      if !g.ends[p][a] && g.next[p][a] !in s.queue[..s.head - 1] {
        assert s.queue[..s.head] == s.queue[..s.head - 1] + [target];
        assert LeadsTo(g, p, a, target);
        assert s.d[target] < NONE by { assert target in s.queue; }
      }
    }
  }

  lemma SearchEnds(g: Graph, s: Search)
    requires Searching(g, s) && s.head == |s.queue|
    ensures ExactDistances(g, s.d)
  {
    assert s.queue[..s.head] == s.queue;
    forall p | 0 <= p < g.pairs && !g.diagonal[p] ensures ExactAt(g, s.d, p) {
      forall a | 0 <= a < g.actions ensures s.d[p] <= CostFrom(g, s.d, p, a) {
        if CostFrom(g, s.d, p, a) < NONE {
          assert Followed(g, s.d, p, a) by {
            if !g.ends[p][a] {
              assert g.next[p][a] in s.queue;
            }
          }
        }
      }
    }
  }

  // ---------- How a search starts ----------

  ghost predicate Closes(g: Graph, p: nat)
    requires g.Valid() && p < g.pairs
  {
    exists a :: 0 <= a < g.actions && g.ends[p][a]
  }

  /** The queue holds the pairs with a distance, once each, nearer ones first. */
  ghost predicate Queued(d: seq<nat>, queue: seq<nat>) {
    && Distinct(queue)
    && (forall p: nat {:trigger p in queue} :: p in queue <==> p < |d| && d[p] < NONE)
    && (forall i {:trigger queue[i]} | 0 <= i < |queue| :: queue[i] < |d|)
    && (forall i, j {:trigger queue[i], queue[j]} | 0 <= i < j < |queue| :: d[queue[i]] <= d[queue[j]])
  }

  lemma QueueOne(d: seq<nat>, queue: seq<nat>, p: nat, x: nat)
    requires Queued(d, queue) && p < |d| && d[p] == NONE && x < NONE
    requires forall q {:trigger d[q]} | 0 <= q < |d| && d[q] < NONE :: d[q] <= x
    ensures |queue| < |d| && Queued(d[p := x], queue + [p])
  {
    var e, longer := d[p := x], queue + [p];
    assert p !in queue;
    DistinctAppend(queue, p);
    forall i | 0 <= i < |queue| ensures queue[i] != p && d[queue[i]] < NONE {
      assert queue[i] in queue;
    }
    assert forall i {:trigger longer[i]} | 0 <= i < |longer| :: longer[i] < |d|;
    FewDistinct(longer, |d|);
    forall i, j | 0 <= i < j < |longer| ensures e[longer[i]] <= e[longer[j]] {
      if j == |queue| {
        assert d[queue[i]] <= x;
      } else {
        assert d[queue[i]] <= d[queue[j]];
      }
    }
  }

  /** Diagonal pairs before the first limit are at 0; then, before the second limit,
      pairs that an action settles by itself are at 1. */
  ghost predicate Seeded(g: Graph, d: seq<nat>, queue: seq<nat>, roots: nat, closers: nat) {
    && g.Valid() && |d| == g.pairs && Queued(d, queue)
    && (forall p {:trigger d[p]} | 0 <= p < g.pairs ::
          d[p] == if g.diagonal[p] && p < roots then 0
                  else if !g.diagonal[p] && p < closers && Closes(g, p) then 1
                  else NONE)
  }

  lemma SeedRoot(g: Graph, d: seq<nat>, queue: seq<nat>, p: nat)
    requires Seeded(g, d, queue, p, 0) && p < g.pairs
    ensures g.diagonal[p] ==> |queue| < g.pairs && Seeded(g, d[p := 0], queue + [p], p + 1, 0)
    ensures !g.diagonal[p] ==> Seeded(g, d, queue, p + 1, 0)
  {
    if g.diagonal[p] {
      QueueOne(d, queue, p, 0);
    }
  }

  lemma SeedCloser(g: Graph, d: seq<nat>, queue: seq<nat>, p: nat)
    requires Seeded(g, d, queue, g.pairs, p) && p < g.pairs
    ensures d[p] == NONE <==> !g.diagonal[p]
    ensures d[p] == NONE && Closes(g, p) ==> |queue| < g.pairs && Seeded(g, d[p := 1], queue + [p], g.pairs, p + 1)
    ensures d[p] != NONE || !Closes(g, p) ==> Seeded(g, d, queue, g.pairs, p + 1)
  {
    if d[p] == NONE && Closes(g, p) {
      QueueOne(d, queue, p, 1);
    }
  }

  /** Without an action that ends, there is nothing to seed at 1. */
  lemma NoClosers(g: Graph, d: seq<nat>, queue: seq<nat>)
    requires Seeded(g, d, queue, g.pairs, 0) && forall p, a | 0 <= p < g.pairs && 0 <= a < g.actions :: !g.ends[p][a]
    ensures Seeded(g, d, queue, g.pairs, g.pairs)
  {
  }

  lemma SearchStarts(g: Graph, d: seq<nat>, queue: seq<nat>)
    requires Seeded(g, d, queue, g.pairs, g.pairs) && g.pairs < NONE - 1
    ensures Searching(g, Search(d, queue, 0, 0))
  {
    var s := Search(d, queue, 0, 0);
    assert forall i | 0 <= i < |queue| :: queue[i] in queue;
    assert s.Shape(g);
    assert Ordered(s.Levels(), 0, 0);
    forall p | 0 <= p < g.pairs && !g.diagonal[p] && d[p] < NONE
      ensures exists a {:trigger CostFrom(g, d, p, a)} :: 0 <= a < g.actions && CostFrom(g, d, p, a) == d[p]
    {
      var a :| 0 <= a < g.actions && g.ends[p][a];
      assert CostFrom(g, d, p, a) == 1;
    }
  }
}
