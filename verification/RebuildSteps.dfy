/** The rebuild as a transition system on values: what holds between two levels, and
    what each step of a level keeps. */
module RebuildSteps {
  import opened Records
  import opened PairGraph
  import opened RepairSpec
  import opened RepairTheory
  import opened RepairBounds
  import opened RepairSteps
  import opened MinHeap
  import opened Arcs
  import opened Pairs

  /** A rebuild in progress.  The pairs in first were queued before it began. */
  datatype View = View(g: Graph, r: Entries, tentative: seq<nat>, items: seq<HeapEntry>,
                       invalid: set<nat>, finished: set<nat>, first: set<nat>) {

    ghost function Open(): set<nat> { invalid - finished }

    ghost function Waiting(): set<nat> { invalid - finished - first }

    ghost predicate Shape() {
      && Fits(g, r) && OverEstimate(g, r) && Dense(r, 2 * g.pairs + 1) && Allocatable(g)
      && |tentative| == g.pairs && invalid <= Upto(g.pairs) && finished <= invalid && finished !! first
    }
  }

  /** Between two levels: open pairs are unreachable and their tentative distance is
      their re-evaluation.  The entries of the popped pairs are out of the heap. */
  ghost predicate Sound(v: View, popped: set<nat>) {
    match v
    case View(g, r, tentative, items, invalid, finished, first) =>
      && v.Shape()
      && (forall p | p in v.Open() :: !g.diagonal[p] && r[p] == UNREACHABLE)
      && (forall p {:trigger tentative[p]} | p in v.Open() :: tentative[p] == Best(g, r, p).distance)
      && HeapCovers(items, tentative, invalid, finished, v.Waiting() - popped)
  }

  /** A level at distance d has been written over the records before it, and tentative
      distances lie between the re-evaluations after and before. */
  ghost predicate Relaxing(v: View, before: Entries, level: set<nat>, d: nat) {
    match v
    case View(g, r, tentative, items, invalid, finished, first) =>
      && v.Shape() && Fits(g, before) && d < NONE - 1
      && level <= Upto(g.pairs) && r == Relaxed(g, before, level)
      && (forall q | q in level :: before[q].distance == NONE && Best(g, before, q).distance == d)
      && (forall p | p in v.Open() :: !g.diagonal[p] && r[p] == UNREACHABLE)
      && (forall p {:trigger tentative[p]} | p in v.Open() ::
            Best(g, r, p).distance <= tentative[p] <= Best(g, before, p).distance)
      && HeapCovers(items, tentative, invalid, finished, v.Waiting())
  }

  /** The level is everything that waits at the least distance. */
  ghost predicate IsLevel(v: View, d: nat, level: set<nat>) {
    && (forall p | p in v.Waiting() :: p < |v.tentative| && d <= v.tentative[p])
    && (forall p: nat {:trigger p in level} :: p in level <==>
        p in v.Waiting() && p < |v.tentative| && v.tentative[p] == d)
  }

  lemma TakeKeepsSound(v: View, w: View, popped: set<nat>)
    requires Sound(v, {}) && w == v.(items := w.items)
    requires HeapCovers(w.items, w.tentative, w.invalid, w.finished, w.Waiting() - popped)
    ensures Sound(w, popped)
  {
  }

  /** A turn that keeps no popped pair changes nothing but the heap. */
  lemma StaleTurn(v: View, w: View)
    requires Sound(w, {}) && w == v.(items := w.items)
    ensures SameOutcome(v, w) && |w.Waiting()| == |v.Waiting()|
  {
    assert w.Waiting() - {} == w.Waiting() == v.Waiting();
  }

  /** What a popped frontier is, and what writing it keeps. */
  lemma FrontierFacts(v: View, d: nat, level: set<nat>)
    requires Sound(v, level) && d < NONE && level != {}
    requires IsLevel(v, d, level)
    ensures level == Nearest(v.g, v.r, v.Waiting()) && Vacant(v.g, v.r, v.Waiting())
    ensures forall q | q in level :: !v.g.diagonal[q] && v.r[q].distance == NONE && Best(v.g, v.r, q).distance == d
    ensures var s := Relaxed(v.g, v.r, level);
            OverEstimate(v.g, s) && AtMost(v.g, s, v.r) && Dense(s, 2 * v.g.pairs + 1) && Addable(s)
    ensures d < NONE - 1
  {
    FrontierIsNearest(v.g, v.r, v.Waiting(), v.tentative, d, level);
    LevelEffects(v.g, v.r, v.Waiting());
    forall q | q in level ensures Best(v.g, v.r, q).distance == d {
      assert v.tentative[q] == Best(v.g, v.r, q).distance;
    }
    var q :| q in level;
    assert Relaxed(v.g, v.r, level)[q].distance == d;
  }

  lemma LevelIsWritten(v: View, d: nat, level: set<nat>)
    requires Sound(v, level) && d < NONE && level != {}
    requires IsLevel(v, d, level)
    ensures level <= Upto(v.g.pairs) &&
            Relaxing(v.(r := Relaxed(v.g, v.r, level), finished := v.finished + level), v.r, level, d)
  {
    FrontierFacts(v, d, level);
    var w := v.(r := Relaxed(v.g, v.r, level), finished := v.finished + level);
    assert w.Waiting() == v.Waiting() - level;
    forall p | p in w.Open()
      ensures Best(v.g, w.r, p).distance <= w.tentative[p] <= Best(v.g, v.r, p).distance
    {
      assert v.tentative[p] == Best(v.g, v.r, p).distance;
      BestIsMonotone(v.g, w.r, v.r, p);
    }
  }

  /** Offering a step into the level lowers a tentative distance no further than the
      re-evaluation. */
  lemma OfferKeepsRelaxing(v: View, before: Entries, level: set<nat>, d: nat, p: nat, a: nat, c: nat,
                           items: seq<HeapEntry>)
    requires Relaxing(v, before, level, d)
    requires p in v.Open() && a < v.g.actions && v.g.next[p][a] in level
    requires c == (if v.g.ends[p][a] then 1 else d + 1) && c < v.tentative[p]
    requires multiset(items) == multiset(v.items) + multiset{HeapEntry(p, c)}
    ensures Relaxing(v.(tentative := v.tentative[p := c], items := items), before, level, d)
  {
    var w := v.(tentative := v.tentative[p := c], items := items);
    CoversPush(v.items, items, v.tentative, v.invalid, v.finished, v.Waiting(), p, c);
    assert v.Waiting() + {p} >= w.Waiting();
    assert Cost(v.g, v.r, p, a) == c;
    forall q | q in w.Open()
      ensures Best(v.g, v.r, q).distance <= w.tentative[q] <= Best(v.g, before, q).distance
    {
      assert Best(v.g, v.r, q).distance <= v.tentative[q] <= Best(v.g, before, q).distance;
    }
  }

  ghost predicate Offered(v: View, level: set<nat>, d: nat)
    requires v.g.Valid() && |v.tentative| == v.g.pairs
  {
    forall p, a | p in v.Open() && p < v.g.pairs && 0 <= a < v.g.actions
                  && v.g.next[p][a] in level && !v.g.ends[p][a] :: v.tentative[p] <= d + 1
  }

  /** The first arcs of a list have been offered to open pairs. */
  ghost predicate ArcsOffered(tentative: seq<nat>, open: set<nat>, arcs: seq<Arc>, count: nat, objective: Objective,
                              d: nat)
    requires count <= |arcs|
  {
    forall i | 0 <= i < count && arcs[i].source in open && !(objective.Resolution? && arcs[i].outputsDiffer) ::
      arcs[i].source < |tentative| && tentative[arcs[i].source] <= d + 1
  }

  lemma ArcsOfferedNext(old_: seq<nat>, tentative: seq<nat>, open: set<nat>, arcs: seq<Arc>, count: nat,
                        objective: Objective, d: nat)
    requires count < |arcs| && ArcsOffered(old_, open, arcs, count, objective, d) && |old_| == |tentative|
    requires forall p | p in open :: p < |old_| && tentative[p] <= old_[p]
    requires arcs[count].source in open && !(objective.Resolution? && arcs[count].outputsDiffer) ==>
               arcs[count].source < |tentative| && tentative[arcs[count].source] <= d + 1
    ensures ArcsOffered(tentative, open, arcs, count + 1, objective, d)
  {
  }

  /** All arcs into the level offered is every step into it offered. */
  lemma AllOffered(m: Automaton, objective: Objective, v: View, arcs: seq<Arc>, level: set<nat>, d: nat)
    requires m.Valid() && v.g == PairGraphOf(m, objective) && |v.tentative| == v.g.pairs
    requires Incoming(m, level, arcs) && ArcsOffered(v.tentative, v.Open(), arcs, |arcs|, objective, d)
    ensures Offered(v, level, d)
  {
    forall p, a | p in v.Open() && p < v.g.pairs && 0 <= a < v.g.actions
                  && v.g.next[p][a] in level && !v.g.ends[p][a]
      ensures v.tentative[p] <= d + 1
    {
      ArcsCover(m, objective, level, arcs, p, a);
      ArcInGraph(m, objective, ArcOf(m, p, a));
    }
  }

  /** How a rebuild starts. */
  lemma StartIsSound(v: View)
    requires v.finished == {} && v.Shape()
    requires forall p | p in v.invalid :: !v.g.diagonal[p] && v.r[p] == UNREACHABLE
    requires forall p {:trigger v.tentative[p]} | p in v.invalid :: v.tentative[p] == Best(v.g, v.r, p).distance
    requires HeapCovers(v.items, v.tentative, v.invalid, {}, v.invalid)
    ensures Sound(v, {}) && v.Waiting() == v.invalid - v.first
  {
    assert v.Waiting() == v.invalid - v.first;
  }

  /** Once every step into the level is offered, tentative distances are exact again. */
  lemma RelaxingEnds(v: View, before: Entries, level: set<nat>, d: nat)
    requires Relaxing(v, before, level, d) && Offered(v, level, d)
    ensures Sound(v, {})
  {
    assert v.Waiting() - {} == v.Waiting();
    forall p | p in v.Open() ensures v.tentative[p] == Best(v.g, v.r, p).distance {
      assert Best(v.g, v.r, p).distance <= v.tentative[p] <= Best(v.g, before, p).distance;
      LevelStep(v.g, before, level, d, p, v.tentative[p]);
    }
  }

  /** An empty heap means that no waiting pair has a finite re-evaluation. */
  lemma EmptyHeapEnds(v: View)
    requires Sound(v, {}) && v.items == []
    ensures Rebuild(v.g, v.r, v.Waiting()) == v.r && Rebuilt(v.g, v.r, v.Waiting()) == {}
  {
    assert v.Waiting() - {} == v.Waiting();
    NothingWaits(v.g, v.r, v.Waiting(), v.tentative, v.invalid, v.finished);
    RebuildUnfolds(v.g, v.r, v.Waiting());
  }

  /** The rebuild of the specification is the same from either view. */
  ghost predicate SameOutcome(v: View, w: View) {
    && Fits(v.g, v.r) && Fits(w.g, w.r) && v.Waiting() <= Upto(v.g.pairs) && w.Waiting() <= Upto(w.g.pairs)
    && Rebuild(v.g, v.r, v.Waiting()) == Rebuild(w.g, w.r, w.Waiting())
    && v.finished + Rebuilt(v.g, v.r, v.Waiting()) == w.finished + Rebuilt(w.g, w.r, w.Waiting())
  }

  lemma LevelSameOutcome(v: View, w: View, level: set<nat>)
    requires Fits(v.g, v.r) && v.invalid <= Upto(v.g.pairs)
    requires level == Nearest(v.g, v.r, v.Waiting()) && level != {}
    requires w.g == v.g && w.r == Relaxed(v.g, v.r, level) && w.invalid == v.invalid && w.first == v.first
    requires w.finished == v.finished + level
    ensures SameOutcome(v, w) && |w.Waiting()| < |v.Waiting()|
  {
    assert w.Waiting() == v.Waiting() - level;
    RebuildUnfolds(v.g, v.r, v.Waiting());
  }

  /** All that a level needs before it is written. */
  lemma PrepareLevel(v: View, d: nat, frontier: seq<nat>, w: View)
    requires Sound(v, Listed(frontier)) && d < NONE && frontier != [] && IsLevel(v, d, Listed(frontier))
    requires forall k | 0 <= k < |frontier| :: frontier[k] < |v.tentative|
    requires Listed(frontier) <= Upto(v.g.pairs) ==>
               w == v.(r := Relaxed(v.g, v.r, Listed(frontier)), finished := v.finished + Listed(frontier))
    ensures Listed(frontier) <= Upto(v.g.pairs)
    ensures Relaxing(w, v.r, Listed(frontier), d) && Addable(w.r)
    ensures Listed(frontier) == Nearest(v.g, v.r, v.Waiting()) && Listed(frontier) != {}
    ensures forall k | 0 <= k < |frontier| ::
              frontier[k] < v.g.pairs && !v.g.diagonal[frontier[k]] && Best(v.g, v.r, frontier[k]).distance == d
  {
    ListedIsEmpty(frontier);
    FrontierFacts(v, d, Listed(frontier));
    LevelIsWritten(v, d, Listed(frontier));
    assert forall k | 0 <= k < |frontier| :: frontier[k] in Listed(frontier);
  }
}
