/** Reading witness words out of pair records that may be wrong. */
module PairWords {
  import opened Records
  import opened PairGraph
  import opened Pairs
  import opened RepairBounds
  import opened Arcs
  import opened Snapshot
  import opened Witnesses

  /** What a record source returns for one request. */
  datatype Answer = Answer(status: Status, records: seq<PairRecord>)

  /** A record source: any function of the number of the call and the pairs asked for. */
  type Source = (nat, seq<nat>) -> Answer

  /** On success it fills the caller's buffer. */
  ghost predicate Fills(source: Source) {
    forall call, ids {:trigger source(call, ids)} :: source(call, ids).status.Ok? ==>
        |source(call, ids).records| == |ids|
  }

  /** The source hands out these records, every time. */
  ghost predicate Honest(source: Source, records: seq<PairRecord>) {
    forall call, ids {:trigger source(call, ids)} | (forall k | 0 <= k < |ids| :: ids[k] < |records|) ::
      source(call, ids) == Answer(Ok, seq(|ids|, k requires 0 <= k < |ids| && ids[k] < |records| => records[ids[k]]))
  }

  // ---------- One word in the making ----------

  /** A candidate pair of states: where its word has taken them, the word, and the
      distance that the next record has to show. */
  datatype Walk = Walk(first: nat, second: nat, word: seq<nat>, expected: nat, available: bool, active: bool)

  lemma {:induction false} RunAppend(m: Automaton, s: nat, w: seq<nat>, a: nat)
    requires m.Valid() && s < m.states && IsWord(m, w) && a < m.actions
    ensures IsWord(m, w + [a])
    ensures Run(m, s, w + [a]) == m.delta[Run(m, s, w)][a]
    ensures Trace(m, s, w + [a]) == Trace(m, s, w) + [m.eta[Run(m, s, w)][a]]
    decreases |w|
  {
    if w == [] {
      assert [a][1..] == [];
    } else {
      RunAppend(m, m.delta[s][w[0]], w[1..], a);
      assert (w + [a])[1..] == w[1..] + [a];
    }
  }

  /** While active, the word takes the two states where the walk says, and has not told
      them apart; once finished, it does what the objective asks. */
  ghost predicate Sound(m: Automaton, objective: Objective, i: nat, j: nat, c: Walk) {
    && m.Valid() && i < m.states && j < m.states && IsWord(m, c.word)
    && (c.active ==> c.available && c.first == Run(m, i, c.word) && c.second == Run(m, j, c.word))
    && (c.active && objective.Resolution? ==> Trace(m, i, c.word) == Trace(m, j, c.word))
    && (!c.active && c.available ==> Achieves(m, objective, i, j, c.word))
    && (!c.available ==> c.word == [])
  }

  /** Records that can be followed, and say so. */
  ghost predicate Readable(g: Graph, r: Entries) {
    && AllFollowable(g, r)
    && forall p {:trigger r[p]} | 0 <= p < |r| ::
        (r[p].distance <= |r| || r[p].distance == NONE) && r[p].reachable == (r[p].distance != NONE)
  }

  /** Truthful records, exact or not, are of this kind. */
  lemma TruthfulIsReadable(g: Graph, r: Entries)
    requires Truthful(g, r) && Allocatable(g)
    ensures Readable(g, r)
  {
    TruthfulIsBounded(g, r);
    TruthfulIsFollowable(g, r);
    forall p | 0 <= p < |r| ensures r[p].reachable == (r[p].distance != NONE) {
      if !g.diagonal[p] {
        assert r[p] == Best(g, r, p) || r[p] == UNREACHABLE;
        BestIsBest(g, r, p);
      }
    }
  }

  /** With such records, the walk spells their witness. */
  ghost predicate Follows(g: Graph, r: Entries, start: nat, p: nat, c: Walk)
    requires AllFollowable(g, r) && start < g.pairs && p < g.pairs
  {
    && (c.active ==>
         && (c.expected == NONE || (r[p].distance < NONE && c.expected == r[p].distance))
         && (r[start].distance >= NONE ==> c.word == [] && p == start)
         && (r[start].distance < NONE ==> r[p].distance < NONE && Witness(g, r, start) == c.word + Witness(g, r, p)))
    && (!c.active && c.available ==> r[start].distance < NONE && c.word == Witness(g, r, start))
    && (!c.available ==> r[start].distance >= NONE)
  }

  /** The pair the walk stands at. */
  ghost function At(m: Automaton, c: Walk): (p: nat)
    requires m.Valid()
    ensures p < PairCount(m.states)
  {
    if c.first < m.states && c.second < m.states then
      IndexInRange(m.states, c.first, c.second);
      PairIndex(m.states, c.first, c.second)
    else
      IndexInRange(m.states, 0, 0);
      PairIndex(m.states, 0, 0)
  }

  /** One step of the pair graph, seen from the two states in either order. */
  lemma StepFacts(m: Automaton, objective: Objective, c: Walk, a: nat)
    requires m.Valid() && c.first < m.states && c.second < m.states && a < m.actions
    ensures var g, p := PairGraphOf(m, objective), At(m, c);
            && p == PairIndex(m.states, c.first, c.second) && p < g.pairs
            && (g.diagonal[p] <==> c.first == c.second)
            && g.next[p][a] == PairIndex(m.states, m.delta[c.first][a], m.delta[c.second][a])
            && g.ends[p][a] == (objective.Resolution? && m.eta[c.first][a] != m.eta[c.second][a])
  {
    var g, p := PairGraphOf(m, objective), At(m, c);
    StatesSwapped(m.states, c.first, c.second);
    assert g.diagonal[p] == SameState(m, p);
    IndexInRange(m.states, m.delta[c.first][a], m.delta[c.second][a]);
    var target, differ := Target(m, p, a), OutputsDiffer(m, p, a);
    assert g.next[p][a] == target;
  }

  /** What the source knows of the walk: its record is the one at the walk's pair. */
  ghost predicate Trusted(m: Automaton, objective: Objective, r: Entries, start: nat, c: Walk)
  {
    && m.Valid() && start < PairCount(m.states) && Readable(PairGraphOf(m, objective), r)
    && (c.active ==> c.first < m.states && c.second < m.states)
    && Follows(PairGraphOf(m, objective), r, start, At(m, c), c)
  }

  /** None of the checks of a step fails on such a record, and the walk goes on along
      the witness. */
  lemma TrustedStep(m: Automaton, objective: Objective, r: Entries, start: nat, c: Walk)
    requires Trusted(m, objective, r, start, c) && c.active
    ensures var e, g := r[At(m, c)], PairGraphOf(m, objective);
            && (!e.reachable ==>
                 && c.word == [] && e.distance == e.action == e.next == NONE && e.support == 0
                 && r[start].distance >= NONE)
            && (e.reachable ==> (c.expected == NONE || e.distance == c.expected) && r[start].distance < NONE)
            && (e.reachable && e.distance == 0 ==>
                 && c.first == c.second && e.action == e.next == NONE && e.support == 0
                 && c.word == Witness(g, r, start))
            && (e.reachable && e.distance != 0 ==>
                 && e.action < m.actions && e.support != 0
                 && var differ := objective.Resolution? && m.eta[c.first][e.action] != m.eta[c.second][e.action];
                 var next := PairIndex(m.states, m.delta[c.first][e.action], m.delta[c.second][e.action]);
                 if e.next == NONE then e.distance == 1 && differ && c.word + [e.action] == Witness(g, r, start)
                 else
                   && e.next == next && !differ && next < g.pairs && r[next].distance == e.distance - 1
                   && Witness(g, r, start) == (c.word + [e.action]) + Witness(g, r, next))
  {
    var g, p := PairGraphOf(m, objective), At(m, c);
    var e := r[p];
    assert Followable(g, r, p);
    StepFacts(m, objective, c, 0);
    if e.reachable && e.distance != 0 {
      StepFacts(m, objective, c, e.action);
    }
  }

  /** The states after the action answer it differently, and the objective asks for that. */
  ghost predicate TellsApart(m: Automaton, objective: Objective, c: Walk, a: nat)
    requires m.Valid() && c.first < m.states && c.second < m.states && a < m.actions
  {
    objective.Resolution? && m.eta[c.first][a] != m.eta[c.second][a]
  }

  /** The record may stand where the walk is: it is of the walk's pair, says that there is
      no word only before the first letter, shows the distance that the record before it
      promised, and names an action that does what it says. */
  ghost predicate Plausible(m: Automaton, objective: Objective, c: Walk, record: PairRecord)
    requires m.Valid() && c.first < m.states && c.second < m.states
  {
    var e := record.Part(objective);
    && record.pair == PairIndex(m.states, c.first, c.second)
    && (!e.reachable ==> c.word == [] && e == UNREACHABLE)
    && (e.reachable ==> c.expected == NONE || e.distance == c.expected)
    && (e.reachable && e.distance == 0 ==> c.first == c.second && e == ROOT)
    && (e.reachable && e.distance > 0 ==> Leads(m, objective, c, e))
  }

  /** The action of the entry tells the states apart, as the last letter, or takes them to
      the pair that the entry names. */
  ghost predicate Leads(m: Automaton, objective: Objective, c: Walk, e: Entry)
    requires m.Valid() && c.first < m.states && c.second < m.states
  {
    && e.action < m.actions && e.support > 0
    && if objective.Resolution? && e.next == NONE then e.distance == 1 && TellsApart(m, objective, c, e.action)
       else
         && !TellsApart(m, objective, c, e.action)
         && e.next == PairIndex(m.states, m.delta[c.first][e.action], m.delta[c.second][e.action])
  }

  /** The walk after such a record: it ends without a word, or at a state, or with a
      letter that tells the states apart; or it takes one letter and goes on. */
  ghost function Stepped(m: Automaton, objective: Objective, c: Walk, e: Entry): Walk
    requires m.Valid() && c.first < m.states && c.second < m.states
    requires e.reachable && e.distance > 0 ==> e.action < m.actions
  {
    if !e.reachable then c.(available := false, active := false)
    else if e.distance == 0 then c.(active := false)
    else if objective.Resolution? && e.next == NONE then c.(word := c.word + [e.action], active := false)
    else
      Walk(m.delta[c.first][e.action], m.delta[c.second][e.action], c.word + [e.action], e.distance - 1, c.available,
           true)
  }

  /** The record that an honest source hands out is plausible, and the walk after it goes
      on along the witness. */
  lemma TrustedNext(m: Automaton, objective: Objective, r: Entries, start: nat, c: Walk, record: PairRecord)
    requires Trusted(m, objective, r, start, c) && c.active
    requires record.pair == At(m, c) && record.Part(objective) == r[At(m, c)]
    ensures Plausible(m, objective, c, record)
    ensures Trusted(m, objective, r, start, Stepped(m, objective, c, record.Part(objective)))
  {
    var e := record.Part(objective);
    TrustedStep(m, objective, r, start, c);
    if e.reachable && e.distance > 0 {
      IndexInRange(m.states, m.delta[c.first][e.action], m.delta[c.second][e.action]);
    }
  }

  /** The letter of a record, and where it leads. */
  method TakeLetter(m: Automaton, objective: Objective, c: Walk, e: Entry, ghost i: nat, ghost j: nat)
    returns (status: Status, next: Walk)
    requires Sound(m, objective, i, j, c) && c.active && e.reachable && e.distance > 0
    ensures c.first < m.states && c.second < m.states
    ensures status == if Leads(m, objective, c, e) then Ok else InvalidModel
    ensures status.Ok? ==>
              && next == Stepped(m, objective, c, e) && Sound(m, objective, i, j, next)
              && |next.word| == |c.word| + 1 && (objective.Merge? ==> next.active)
  {
    next := c;
    if e.action >= m.actions || e.support == 0 {
      return InvalidModel, c;
    }
    var a := e.action;
    var word := c.word + [a];
    RunAppend(m, i, c.word, a);
    RunAppend(m, j, c.word, a);
    var firstNext, secondNext := m.delta[c.first][a], m.delta[c.second][a];
    var expectedNext := PairIndex(m.states, firstNext, secondNext);
    var outputsDiffer := m.eta[c.first][a] != m.eta[c.second][a];
    if objective.Resolution? && e.next == NONE {
      if e.distance != 1 || !outputsDiffer {
        return InvalidModel, c;
      }
      assert Trace(m, i, word)[|c.word|] != Trace(m, j, word)[|c.word|];
      return Ok, c.(word := word, active := false);
    }
    if e.next != expectedNext || (objective.Resolution? && outputsDiffer) {
      return InvalidModel, c;
    }
    next := Walk(firstNext, secondNext, word, e.distance - 1, c.available, true);
    status := Ok;
  }

  /** The body of the request loop: check the record against the walk, and take one
      step.  Whatever the record says, the walk stays sound. */
  method Advance(m: Automaton, objective: Objective, c: Walk, record: PairRecord, ghost i: nat, ghost j: nat)
    returns (status: Status, next: Walk)
    requires Sound(m, objective, i, j, c) && c.active
    ensures c.first < m.states && c.second < m.states
    ensures status == if Plausible(m, objective, c, record) then Ok else InvalidModel
    ensures status.Ok? ==> next == Stepped(m, objective, c, record.Part(objective))
    ensures status.Ok? ==>
              && Sound(m, objective, i, j, next) && |next.word| <= |c.word| + 1
              && (next.active ==> |next.word| == |c.word| + 1)
              && (objective.Merge? && !next.active ==> |next.word| <= |c.word|)
  {
    next := c;
    var pair := PairIndex(m.states, c.first, c.second);
    var e := record.Part(objective);
    if record.pair != pair {
      return InvalidModel, c;
    }
    if !e.reachable {
      if |c.word| != 0 || e.distance != NONE || e.action != NONE || e.next != NONE || e.support != 0 {
        return InvalidModel, c;
      }
      return Ok, c.(available := false, active := false);
    }
    if (c.expected != NONE && e.distance != c.expected) || (e.distance == 0 && c.first != c.second) {
      return InvalidModel, c;
    }
    if e.distance == 0 {
      if e.action != NONE || e.next != NONE || e.support != 0 {
        return InvalidModel, c;
      }
      return Ok, c.(active := false);
    }
    status, next := TakeLetter(m, objective, c, e, i, j);
  }

  // ---------- All words ----------

  ghost function Active(walks: seq<Walk>): (s: set<nat>)
    ensures forall k: nat {:trigger k in s} :: k in s <==> k < |walks| && walks[k].active
  {
    set k | k in Upto(|walks|) && walks[k].active
  }

  /** The longest word: one letter for each pair, and one more that tells states apart. */
  function Longest(m: Automaton, objective: Objective): nat {
    PairCount(m.states) + (if objective.Resolution? then 1 else 0)
  }

  /** What holds of every walk; the active ones have as many letters as given. */
  ghost predicate Walking(m: Automaton, objective: Objective, i: nat, j: nat, c: Walk, depth: nat) {
    Sound(m, objective, i, j, c) && if c.active then |c.word| == depth else |c.word| <= Longest(m, objective)
  }

  datatype Batch = Batch(m: Automaton, objective: Objective, firsts: seq<nat>, seconds: seq<nat>,
                         ghost honest: bool, ghost records: seq<PairRecord>) {

    ghost predicate Valid() {
      && m.Valid() && |firsts| == |seconds|
      && (forall k | 0 <= k < |firsts| :: firsts[k] < m.states && seconds[k] < m.states)
      && (honest ==>
           && |records| == PairCount(m.states) && (forall p | 0 <= p < |records| :: records[p].pair == p)
           && Readable(PairGraphOf(m, objective), Part(records, objective)))
    }

    ghost function Start(k: nat): (p: nat)
      requires Valid() && k < |firsts|
      ensures p < PairCount(m.states)
    {
      IndexInRange(m.states, firsts[k], seconds[k]);
      PairIndex(m.states, firsts[k], seconds[k])
    }

    ghost predicate Good(k: nat, c: Walk, depth: nat)
      requires Valid() && k < |firsts|
    {
      && Walking(m, objective, firsts[k], seconds[k], c, depth)
      && (honest ==> Trusted(m, objective, Part(records, objective), Start(k), c))
    }

    /** The walks in the given set have taken one more step than the others. */
    ghost predicate AllGood(walks: seq<Walk>, depth: nat, moved: set<nat>)
      requires Valid()
    {
      |walks| == |firsts| && forall k {:trigger walks[k]} | 0 <= k < |walks| ::
        Good(k, walks[k], if k in moved then depth + 1 else depth)
    }
  }

  ghost predicate InRange(m: Automaton, walks: seq<Walk>) {
    m.Valid() && forall k {:trigger walks[k]} | 0 <= k < |walks| && walks[k].active ::
        walks[k].first < m.states && walks[k].second < m.states
  }

  /** A request: an active walk and the pair it stands at. */
  ghost predicate IsRequest(m: Automaton, walks: seq<Walk>, position: nat, id: nat)
    requires m.Valid()
  {
    position < |walks| && walks[position].active && id == At(m, walks[position])
  }

  /** The requests of the first k walks. */
  ghost predicate Requested(m: Automaton, walks: seq<Walk>, positions: seq<nat>, ids: seq<nat>, k: nat)
    requires m.Valid() && k <= |walks|
  {
    && |positions| == |ids| && Distinct(positions)
    && (forall l {:trigger positions[l]} | 0 <= l < |ids| ::
        positions[l] < k && IsRequest(m, walks, positions[l], ids[l]))
    && (forall l: nat {:trigger l in positions} | l < k && walks[l].active :: l in positions)
  }

  lemma RequestNext(m: Automaton, walks: seq<Walk>, positions: seq<nat>, ids: seq<nat>, k: nat, id: nat)
    requires m.Valid() && k < |walks| && Requested(m, walks, positions, ids, k)
    ensures walks[k].active && id == At(m, walks[k]) ==> Requested(m, walks, positions + [k], ids + [id], k + 1)
    ensures !walks[k].active ==> Requested(m, walks, positions, ids, k + 1)
  {
    if walks[k].active && id == At(m, walks[k]) {
      assert k !in positions;
      DistinctAppend(positions, k);
      assert IsRequest(m, walks, k, id);
    }
  }

  /** The requests of one round: the active walks, in order. */
  method Requests(m: Automaton, walks: seq<Walk>) returns (positions: seq<nat>, ids: seq<nat>)
    requires InRange(m, walks)
    ensures Requested(m, walks, positions, ids, |walks|)
  {
    positions, ids := [], [];
    for k := 0 to |walks|
      invariant Requested(m, walks, positions, ids, k)
    {
      if walks[k].active {
        var id := PairIndex(m.states, walks[k].first, walks[k].second);
        RequestNext(m, walks, positions, ids, k, id);
        positions, ids := positions + [k], ids + [id];
      } else {
        RequestNext(m, walks, positions, ids, k, 0);
      }
    }
  }

  ghost function IdSet(ids: seq<nat>): (s: set<nat>)
    ensures forall x {:trigger x in s} :: x in s <==> x in ids
  {
    set x | x in ids
  }

  lemma GoodNext(b: Batch, walks: seq<Walk>, depth: nat, moved: set<nat>, k: nat, c: Walk)
    requires b.Valid() && b.AllGood(walks, depth, moved) && k < |walks| && b.Good(k, c, depth + 1)
    ensures b.AllGood(walks[k := c], depth, moved + {k})
  {
  }

  lemma ActiveNext(walks: seq<Walk>, k: nat, c: Walk)
    requires k < |walks| && walks[k].active
    ensures Active(walks[k := c]) <= Active(walks)
    ensures |Active(walks[k := c])| == |Active(walks)| - (if c.active then 0 else 1)
  {
    if c.active {
      assert Active(walks[k := c]) == Active(walks);
    } else {
      assert Active(walks) == Active(walks[k := c]) + {k};
    }
  }

  /** One walk of a round. */
  method AdvanceOne(b: Batch, c: Walk, record: PairRecord, k: nat, ghost depth: nat)
    returns (status: Status, next: Walk)
    requires b.Valid() && k < |b.firsts| && b.Good(k, c, depth) && c.active && depth <= PairCount(b.m.states)
    requires b.honest ==> record == b.records[At(b.m, c)]
    ensures c.first < b.m.states && c.second < b.m.states
    ensures status == if Plausible(b.m, b.objective, c, record) then Ok else InvalidModel
    ensures status.Ok? ==> next == Stepped(b.m, b.objective, c, record.Part(b.objective))
    ensures b.honest ==> status.Ok?
    ensures status.Ok? ==> b.Good(k, next, depth + 1)
  {
    if b.honest {
      TrustedNext(b.m, b.objective, Part(b.records, b.objective), b.Start(k), c, record);
    }
    status, next := Advance(b.m, b.objective, c, record, b.firsts[k], b.seconds[k]);
  }

  /** The record is plausible for the walk that asked for it. */
  ghost predicate Answered(b: Batch, walks: seq<Walk>, positions: seq<nat>, records: seq<PairRecord>, l: nat)
    requires b.m.Valid() && l < |positions| == |records|
  {
    && positions[l] < |walks| && walks[positions[l]].first < b.m.states && walks[positions[l]].second < b.m.states
    && Plausible(b.m, b.objective, walks[positions[l]], records[l])
  }

  /** The walk that asked has taken its step. */
  ghost predicate Moved(b: Batch, walks: seq<Walk>, next: seq<Walk>, positions: seq<nat>, records: seq<PairRecord>,
                        l: nat)
    requires b.m.Valid() && l < |positions| == |records| && Answered(b, walks, positions, records, l)
  {
    && |next| == |walks|
    && next[positions[l]] == Stepped(b.m, b.objective, walks[positions[l]], records[l].Part(b.objective))
  }

  /** The first so many records are plausible and their walks have taken their steps; the
      other walks are as they were. */
  ghost predicate MovedUpto(b: Batch, walks: seq<Walk>, next: seq<Walk>, positions: seq<nat>,
                            records: seq<PairRecord>, count: nat)
    requires b.m.Valid() && count <= |positions| == |records|
  {
    && |next| == |walks|
    && (forall l {:trigger Answered(b, walks, positions, records, l)} | 0 <= l < count ::
          Answered(b, walks, positions, records, l) && Moved(b, walks, next, positions, records, l))
    && (forall k {:trigger next[k]} | 0 <= k < |walks| && k !in positions[..count] :: next[k] == walks[k])
  }

  lemma MovedNext(b: Batch, walks: seq<Walk>, next: seq<Walk>, positions: seq<nat>, records: seq<PairRecord>,
                  count: nat, walk: Walk)
    requires b.m.Valid() && Distinct(positions) && count < |positions| == |records|
    requires MovedUpto(b, walks, next, positions, records, count) && Answered(b, walks, positions, records, count)
    requires walk == Stepped(b.m, b.objective, walks[positions[count]], records[count].Part(b.objective))
    ensures MovedUpto(b, walks, next[positions[count] := walk], positions, records, count + 1)
  {
    var more := next[positions[count] := walk];
    forall l | 0 <= l < count + 1
      ensures Answered(b, walks, positions, records, l) && Moved(b, walks, more, positions, records, l)
    {
      if l < count {
        DistinctAt(positions, l, count);
        assert Answered(b, walks, positions, records, l);
      }
    }
    assert positions[..count + 1] == positions[..count] + [positions[count]];
  }

  /** What the loop over the requests keeps.  The definition is some steps away, so that
      only AdvancingIs unfolds it. */
  ghost predicate Advancing(b: Batch, walks: seq<Walk>, next: seq<Walk>, positions: seq<nat>,
                            records: seq<PairRecord>, left: nat, depth: nat, count: nat)
  {
    AdvancingIn(b, walks, next, positions, records, left, depth, count, DEPTH + 1)
  }

  ghost predicate AdvancingIn(b: Batch, walks: seq<Walk>, next: seq<Walk>, positions: seq<nat>,
                              records: seq<PairRecord>, left: nat, depth: nat, count: nat, steps: nat)
    decreases steps
  {
    if steps > 0 then AdvancingIn(b, walks, next, positions, records, left, depth, count, steps - 1)
    else
      && b.Valid() && Distinct(positions) && count <= |positions| == |records|
      && MovedUpto(b, walks, next, positions, records, count)
      && b.AllGood(next, depth, IdSet(positions[..count])) && left == |Active(next)| && Active(next) <= Active(walks)
  }

  lemma AdvancingIs(b: Batch, walks: seq<Walk>, next: seq<Walk>, positions: seq<nat>, records: seq<PairRecord>,
                    left: nat, depth: nat, count: nat)
    ensures Advancing(b, walks, next, positions, records, left, depth, count) <==>
              && b.Valid() && Distinct(positions) && count <= |positions| == |records|
              && MovedUpto(b, walks, next, positions, records, count)
              && b.AllGood(next, depth, IdSet(positions[..count])) && left == |Active(next)|
              && Active(next) <= Active(walks)
  {
    var k: nat := DEPTH + 1;
    while k > 0
      invariant AdvancingIn(b, walks, next, positions, records, left, depth, count, DEPTH + 1)
                == AdvancingIn(b, walks, next, positions, records, left, depth, count, k)
    {
      k := k - 1;
    }
  }

  lemma AdvancingStarts(b: Batch, walks: seq<Walk>, positions: seq<nat>, records: seq<PairRecord>, depth: nat)
    requires b.Valid() && b.AllGood(walks, depth, {}) && Distinct(positions) && |records| == |positions|
    ensures Advancing(b, walks, walks, positions, records, |Active(walks)|, depth, 0)
  {
    AdvancingIs(b, walks, walks, positions, records, |Active(walks)|, depth, 0);
    assert IdSet(positions[..0]) == {};
  }

  /** The walk whose turn it is stands as it did. */
  lemma AdvancingAt(b: Batch, walks: seq<Walk>, next: seq<Walk>, positions: seq<nat>, records: seq<PairRecord>,
                    left: nat, depth: nat, l: nat)
    requires Advancing(b, walks, next, positions, records, left, depth, l) && l < |positions| && |walks| > positions[l]
    ensures b.Valid() && |next| == |walks| == |b.firsts| && |records| == |positions|
    ensures next[positions[l]] == walks[positions[l]] && b.Good(positions[l], next[positions[l]], depth)
  {
    AdvancingIs(b, walks, next, positions, records, left, depth, l);
    DistinctIndex(positions, l);
    var k := positions[l];
    assert k !in IdSet(positions[..l]) && next[k] == walks[k];
  }

  lemma AdvancingNext(b: Batch, walks: seq<Walk>, next: seq<Walk>, positions: seq<nat>, records: seq<PairRecord>,
                      left: nat, depth: nat, l: nat, walk: Walk)
    requires Advancing(b, walks, next, positions, records, left, depth, l) && l < |positions| && |walks| > positions[l]
    requires b.Valid() && |next| == |walks| == |b.firsts| && |records| == |positions| && next[positions[l]].active
    requires Answered(b, walks, positions, records, l) && b.Good(positions[l], walk, depth + 1)
    requires walk == Stepped(b.m, b.objective, walks[positions[l]], records[l].Part(b.objective))
    ensures left >= (if walk.active then 0 else 1)
    ensures Advancing(b, walks, next[positions[l] := walk], positions, records, left - (if walk.active then 0 else 1),
                      depth, l + 1)
  {
    AdvancingIs(b, walks, next, positions, records, left, depth, l);
    MovedNext(b, walks, next, positions, records, l, walk);
    ActiveNext(next, positions[l], walk);
    GoodUpto(b, next, depth, positions, l, walk);
    AdvancingIs(b, walks, next[positions[l] := walk], positions, records, left - (if walk.active then 0 else 1), depth,
                l + 1);
  }

  lemma GoodUpto(b: Batch, walks: seq<Walk>, depth: nat, positions: seq<nat>, l: nat, c: Walk)
    requires b.Valid() && l < |positions| && b.AllGood(walks, depth, IdSet(positions[..l]))
    requires positions[l] < |walks| && b.Good(positions[l], c, depth + 1)
    ensures b.AllGood(walks[positions[l] := c], depth, IdSet(positions[..l + 1]))
  {
    GoodNext(b, walks, depth, IdSet(positions[..l]), positions[l], c);
    assert positions[..l + 1] == positions[..l] + [positions[l]];
    assert IdSet(positions[..l + 1]) == IdSet(positions[..l]) + {positions[l]};
  }

  lemma AllAdvanced(b: Batch, walks: seq<Walk>, next: seq<Walk>, positions: seq<nat>, records: seq<PairRecord>,
                    left: nat, depth: nat)
    requires Advancing(b, walks, next, positions, records, left, depth, |positions|)
    ensures b.Valid() && |records| == |positions| && MovedUpto(b, walks, next, positions, records, |positions|)
    ensures b.AllGood(next, depth, IdSet(positions)) && left == |Active(next)| && Active(next) <= Active(walks)
  {
    AdvancingIs(b, walks, next, positions, records, left, depth, |positions|);
    assert positions[..|positions|] == positions;
  }

  /** The request loop of one round: every record is plausible and every walk that asked
      has taken its step, or the records are refused. */
  method AdvanceAll(b: Batch, walks: seq<Walk>, positions: seq<nat>, records: seq<PairRecord>, active: nat,
                    ghost depth: nat)
    returns (status: Status, next: seq<Walk>, left: nat)
    requires b.Valid() && b.AllGood(walks, depth, {}) && depth <= PairCount(b.m.states)
    requires Distinct(positions) && |records| == |positions| && active == |Active(walks)|
    requires forall l {:trigger positions[l]} | 0 <= l < |positions| ::
             positions[l] < |walks| && walks[positions[l]].active
    requires b.honest ==> forall l {:trigger records[l]} | 0 <= l < |positions| ::
             records[l] == b.records[At(b.m, walks[positions[l]])]
    ensures status == Ok || status == InvalidModel
    ensures !status.Ok? ==> exists l {:trigger Answered(b, walks, positions, records, l)} ::
              0 <= l < |positions| && !Answered(b, walks, positions, records, l)
    ensures status.Ok? ==> MovedUpto(b, walks, next, positions, records, |positions|)
    ensures b.honest ==> status.Ok?
    ensures status.Ok? ==> b.AllGood(next, depth,
            IdSet(positions)) && left == |Active(next)| && Active(next) <= Active(walks)
  {
    next, left := walks, active;
    AdvancingStarts(b, walks, positions, records, depth);
    for l := 0 to |positions|
      invariant Advancing(b, walks, next, positions, records, left, depth, l)
    {
      var k := positions[l];
      AdvancingAt(b, walks, next, positions, records, left, depth, l);
      var walk;
      status, walk := AdvanceOne(b, next[k], records[l], k, depth);
      if status != Ok {
        assert !Answered(b, walks, positions, records, l);
        return;
      }
      AdvancingNext(b, walks, next, positions, records, left, depth, l, walk);
      next := next[k := walk];
      if !walk.active {
        left := left - 1;
      }
    }
    AllAdvanced(b, walks, next, positions, records, left, depth);
    status := Ok;
  }

  /** One round: ask for the records of all active walks, and take a step with each. */
  method Round(b: Batch, walks: seq<Walk>, source: Source, call: nat, active: nat, ghost depth: nat)
    returns (status: Status, next: seq<Walk>, left: nat, ghost positions: seq<nat>, ghost ids: seq<nat>)
    requires b.Valid() && b.AllGood(walks, depth, {}) && depth <= PairCount(b.m.states)
    requires active == |Active(walks)| > 0 && Fills(source) && (b.honest ==> Honest(source, b.records))
    ensures Requested(b.m, walks, positions, ids, |walks|)
    ensures var answer := source(call, ids);
            if !answer.status.Ok? then status == answer.status
            else
              && |answer.records| == |positions|
              && (status == Ok || status == InvalidModel)
              && (status.Ok? ==> MovedUpto(b, walks, next, positions, answer.records, |positions|))
              && (!status.Ok? ==> exists l {:trigger Answered(b, walks, positions, answer.records, l)} ::
                    0 <= l < |positions| && !Answered(b, walks, positions, answer.records, l))
    ensures b.honest ==> status.Ok?
    ensures status.Ok? ==> b.AllGood(next, depth + 1, {}) && left == |Active(next)|
  {
    forall k | 0 <= k < |walks| && walks[k].active ensures walks[k].first < b.m.states && walks[k].second < b.m.states {
      assert b.Good(k, walks[k], depth);
    }
    var asked, pairs := Requests(b.m, walks);
    positions, ids := asked, pairs;
    var answer := source(call, pairs);
    if b.honest {
      HonestAnswers(b, source, call, walks, positions, ids);
    }
    if answer.status != Ok {
      return answer.status, walks, active, asked, pairs;
    }
    status, next, left := AdvanceAll(b, walks, asked, answer.records, active, depth);
  }

  lemma HonestAnswers(b: Batch, source: Source, call: nat, walks: seq<Walk>, positions: seq<nat>, ids: seq<nat>)
    requires b.Valid() && b.honest && Honest(source, b.records) && Requested(b.m, walks, positions, ids, |walks|)
    ensures source(call, ids).status.Ok?
    ensures |source(call, ids).records| == |ids|
    ensures forall l {:trigger source(call, ids).records[l]} | 0 <= l < |positions| ::
              source(call, ids).records[l] == b.records[At(b.m, walks[positions[l]])]
  {
    forall l | 0 <= l < |ids| ensures ids[l] == At(b.m, walks[positions[l]]) {
      assert IsRequest(b.m, walks, positions[l], ids[l]);
    }
  }

  /** What loading promises of one candidate. */
  ghost predicate Loaded(b: Batch, k: nat, word: seq<nat>, available: bool)
    requires b.Valid() && k < |b.firsts|
  {
    && IsWord(b.m, word)
    && (available ==> Achieves(b.m, b.objective, b.firsts[k], b.seconds[k], word) && |word| <= Longest(b.m,
        b.objective))
    && (!available ==> word == [])
    && (b.honest ==>
         var g, r := PairGraphOf(b.m, b.objective), Part(b.records, b.objective);
         available == (r[b.Start(k)].distance < NONE) && (available ==> word == Witness(g, r, b.Start(k))))
  }

  lemma FinishedIsLoaded(b: Batch, k: nat, c: Walk, depth: nat)
    requires b.Valid() && k < |b.firsts| && b.Good(k, c, depth) && !c.active
    ensures Loaded(b, k, c.word, c.available)
  {
  }

  /** An honest source leaves no walk active after as many rounds as there are pairs. */
  lemma HonestFinishes(b: Batch, walks: seq<Walk>, depth: nat)
    requires b.Valid() && b.honest && b.AllGood(walks, depth, {}) && depth > PairCount(b.m.states)
    ensures Active(walks) == {}
  {
    forall k | 0 <= k < |walks| ensures !walks[k].active {
      assert b.Good(k, walks[k], depth);
    }
  }

  lemma BatchStarts(b: Batch, walks: seq<Walk>)
    requires b.Valid() && |walks| == |b.firsts|
    requires forall k {:trigger walks[k]} | 0 <= k < |walks| ::
             walks[k] == Walk(b.firsts[k], b.seconds[k], [], NONE, true, true)
    ensures b.AllGood(walks, 0, {}) && |Active(walks)| == |walks|
  {
    forall k | 0 <= k < |walks| ensures b.Good(k, walks[k], 0) {
      var c := walks[k];
      assert Sound(b.m, b.objective, b.firsts[k], b.seconds[k], c);
      assert At(b.m, c) == b.Start(k);
    }
    assert Active(walks) == Upto(|walks|);
    UptoSize(|walks|);
  }

  /** sg_pair_words_load */
  method LoadWords(b: Batch, source: Source, call: nat)
    returns (status: Status, words: seq<seq<nat>>, available: seq<bool>, calls: nat)
    requires b.Valid() && Fills(source) && (b.honest ==> Honest(source, b.records))
    ensures b.honest ==> status.Ok?
    ensures !status.Ok? ==> status == InvalidModel || exists c, ids :: source(c, ids).status == status
    ensures status.Ok? ==>
              && |words| == |available| == |b.firsts|
              && forall k {:trigger words[k]} {:trigger available[k]} | 0 <= k < |words| ::
                  Loaded(b, k, words[k], available[k])
  {
    var pairs := PairCount(b.m.states);
    var walks := seq(|b.firsts|, k requires 0 <= k < |b.firsts| && |b.firsts| == |b.seconds| =>
                       Walk(b.firsts[k], b.seconds[k], [], NONE, true, true));
    BatchStarts(b, walks);
    words, available, calls := [], [], call;
    var active, depth := |walks|, 0;
    while active != 0 && depth <= pairs
      invariant b.AllGood(walks, depth, {}) && active == |Active(walks)|
      invariant depth <= pairs + 1 && (depth == pairs + 1 ==> active == 0)
      decreases pairs + 1 - depth
    {
      ghost var positions, ids;
      status, walks, active, positions, ids := Round(b, walks, source, calls, active, depth);
      if status != Ok {
        assert source(calls, ids).status == status || status == InvalidModel;
        return status, [], [], calls + 1;
      }
      calls := calls + 1;
      if b.honest && depth == pairs {
        HonestFinishes(b, walks, pairs + 1);
      }
      if depth == pairs && active != 0 {
        return InvalidModel, [], [], calls;
      }
      depth := depth + 1;
    }
    status, words, available := Unpack(b, walks, depth);
  }

  method Unpack(ghost b: Batch, walks: seq<Walk>, ghost depth: nat)
    returns (status: Status, words: seq<seq<nat>>, available: seq<bool>)
    requires b.Valid() && b.AllGood(walks, depth, {}) && Active(walks) == {}
    ensures status.Ok? && |words| == |available| == |b.firsts|
    ensures forall k {:trigger words[k]} {:trigger available[k]} | 0 <= k < |words| ::
            Loaded(b, k, words[k], available[k])
  {
    words, available := [], [];
    for k := 0 to |walks|
      invariant |words| == |available| == k
      invariant forall l {:trigger words[l]} {:trigger available[l]} | 0 <= l < k ::
                Loaded(b, l, words[l], available[l])
    {
      assert b.Good(k, walks[k], depth) && k !in Active(walks);
      FinishedIsLoaded(b, k, walks[k], depth);
      words, available := words + [walks[k].word], available + [walks[k].available];
    }
    status := Ok;
  }
}
