/** Restoring an oracle from stored records, and the words it spells. */
module Restore {
  import opened Records
  import opened PairGraph
  import opened RepairBounds
  import opened RepairSteps
  import opened Arcs
  import opened Pairs
  import opened Predecessors
  import opened OracleSearch
  import opened Snapshot
  import opened Witnesses
  import opened Oracle

  /** What restoring keeps of a stored entry. */
  function Normal(e: Entry): Entry {
    if e.reachable then e.(reachable := e.distance != NONE) else Entry(false, NONE, NONE, NONE, e.support)
  }

  /** The entries after storing the records in order. */
  ghost function Slotted(records: seq<PairRecord>, objective: Objective, pairs: nat): (r: seq<Entry>)
    ensures |r| == pairs
  {
    if records == [] then seq(pairs, _ => UNREACHABLE)
    else
      var r := Slotted(records[..|records| - 1], objective, pairs);
      var last := records[|records| - 1];
      if last.pair < pairs then r[last.pair := Normal(last.Part(objective))] else r
  }

  lemma {:induction false} SlottedAt(records: seq<PairRecord>, objective: Objective, pairs: nat, k: nat)
    requires Distinct(PairsOf(records)) && k < |records| && records[k].pair < pairs
    ensures Slotted(records, objective, pairs)[records[k].pair] == Normal(records[k].Part(objective))
  {
    var n := |records| - 1;
    if k < n {
      var ids := PairsOf(records);
      assert ids == PairsOf(records[..n]) + [records[n].pair];
      DistinctPrefix(PairsOf(records[..n]), records[n].pair);
      DistinctAt(ids, k, n);
      SlottedAt(records[..n], objective, pairs, k);
    }
  }

  /** One record for each pair, each of which can be followed. */
  ghost predicate Acceptable(m: Automaton, records: seq<PairRecord>) {
    && m.Valid() && |records| == PairCount(m.states)
    && (forall k | 0 <= k < |records| :: records[k].pair < |records|)
    && Distinct(PairsOf(records))
    && AllFollowable(PairGraphOf(m, Merge), Slotted(records, Merge, |records|))
    && AllFollowable(PairGraphOf(m, Resolution), Slotted(records, Resolution, |records|))
  }

  /** As many distinct numbers below a limit as the limit are all of them. */
  lemma AllSeen(ids: seq<nat>, limit: nat, p: nat)
    requires Distinct(ids) && |ids| == limit && p < limit && forall k | 0 <= k < |ids| :: ids[k] < limit
    ensures p in ids
  {
    if p !in ids {
      DistinctAppend(ids, p);
      FewDistinct(ids + [p], limit);
    }
  }

  /** Does this action lead one step nearer? */
  method IsTight(t: Topology, actions: nat, objective: Objective, entries: seq<Entry>, pair: nat, candidate: nat,
                 ghost g: Graph)
    returns (tight: bool)
    requires Wired(g, t, objective) && g.actions == actions && |entries| == g.pairs && pair < g.pairs
             && candidate < actions
    requires forall p | 0 <= p < g.pairs :: entries[p].distance <= NONE
    requires 0 < entries[pair].distance < NONE
    ensures tight == (CostFrom(g, DistancesOf(entries), pair, candidate) == DistancesOf(entries)[pair])
  {
    assert Edge(actions, pair, candidate) == pair * actions + candidate;
    var distance, edge := entries[pair].distance, pair * actions + candidate;
    var near := entries[t.next[edge]].distance;
    var differs := objective.Resolution? && t.outputsDiffer[edge];
    assert DistancesOf(entries)[t.next[edge]] == near && DistancesOf(entries)[pair] == distance;
    tight := (distance == 1 && differs) || (!differs && near != NONE && near + 1 == distance);
  }

  /** Count the actions that lead one step nearer. */
  method CountSupport(t: Topology, actions: nat, objective: Objective, entries: seq<Entry>, pair: nat, ghost g: Graph)
    returns (support: nat)
    requires Wired(g, t, objective) && g.actions == actions && |entries| == g.pairs && pair < g.pairs
    requires forall p | 0 <= p < g.pairs :: entries[p].distance <= NONE
    requires 0 < entries[pair].distance < NONE
    ensures support == |Tight(g, DistancesOf(entries), pair, actions)|
  {
    support := 0;
    assert Tight(g, DistancesOf(entries), pair, 0) == {};
    for candidate := 0 to actions
      invariant support == |Tight(g, DistancesOf(entries), pair, candidate)|
    {
      TightNext(g, DistancesOf(entries), pair, candidate);
      var tight := IsTight(t, actions, objective, entries, pair, candidate, g);
      if tight {
        support := support + 1;
      }
    }
  }

  /** The action of a record leads where the record says, one step nearer. */
  ghost predicate StepsNearer(g: Graph, r: Entries, p: nat)
    requires g.Valid() && |r| == g.pairs && p < g.pairs && r[p].action < g.actions
  {
    var e := r[p];
    if e.next == NONE then e.distance == 1 && g.ends[p][e.action]
    else
      && e.next < g.pairs && !g.ends[p][e.action] && g.next[p][e.action] == e.next
      && r[e.next].distance < NONE && r[e.next].distance + 1 == e.distance
  }

  method CheckStep(t: Topology, actions: nat, objective: Objective, entries: seq<Entry>, pair: nat, ghost g: Graph)
    returns (ok: bool)
    requires Wired(g, t, objective) && g.actions == actions && |entries| == g.pairs < NONE && pair < g.pairs
    requires forall p | 0 <= p < g.pairs :: entries[p].distance <= NONE
    requires entries[pair].action < actions
    ensures ok == StepsNearer(g, entries, pair)
  {
    var e := entries[pair];
    assert Edge(actions, pair, e.action) == pair * actions + e.action;
    var edge := pair * actions + e.action;
    var differs := objective.Resolution? && t.outputsDiffer[edge];
    if e.next == NONE {
      return e.distance == 1 && differs;
    }
    return e.next < |entries| && !differs && t.next[edge] == e.next
        && entries[e.next].distance != NONE && entries[e.next].distance + 1 == e.distance;
  }

  /** sg_merge_record_valid and sg_resolution_record_valid */
  method CheckEntry(t: Topology, actions: nat, objective: Objective, entries: seq<Entry>, pair: nat, ghost g: Graph)
    returns (ok: bool)
    requires Wired(g, t, objective) && g.actions == actions && |entries| == g.pairs < NONE && pair < g.pairs
    requires forall p | 0 <= p < g.pairs :: entries[p].distance <= NONE
    ensures ok == Followable(g, entries, pair)
  {
    var e := entries[pair];
    if e.distance == NONE {
      return e.action == NONE && e.next == NONE && e.support == 0;
    }
    if e.distance == 0 {
      return t.first[pair] == t.second[pair] && e.action == NONE && e.next == NONE && e.support == 0;
    }
    if e.action >= actions {
      return false;
    }
    var support := CountSupport(t, actions, objective, entries, pair, g);
    if support == 0 || e.support != support {
      return false;
    }
    ok := CheckStep(t, actions, objective, entries, pair, g);
  }

  /** The check of all pairs for one objective. */
  method CheckAll(t: Topology, actions: nat, objective: Objective, entries: seq<Entry>, ghost g: Graph)
    returns (ok: bool)
    requires Wired(g, t, objective) && g.actions == actions && |entries| == g.pairs < NONE
    requires forall p | 0 <= p < g.pairs :: entries[p].distance <= NONE
    ensures ok == AllFollowable(g, entries)
  {
    for pair := 0 to |entries|
      invariant forall p {:trigger Followable(g, entries, p)} | 0 <= p < pair :: Followable(g, entries, p)
    {
      ok := CheckEntry(t, actions, objective, entries, pair, g);
      if !ok {
        return;
      }
    }
    ok := true;
  }

  /** The loop that stores the records: refuse a pair out of range or seen before. */
  method StoreAll(records: seq<PairRecord>, pairs: nat)
    returns (ok: bool, seen: array<bool>, merge: seq<Entry>, resolution: seq<Entry>)
    ensures ok == (Distinct(PairsOf(records)) && forall k | 0 <= k < |records| :: records[k].pair < pairs)
    ensures seen.Length == pairs && (ok ==> forall p {:trigger seen[p]} | 0 <= p < pairs :: seen[p] <==>
            p in PairsOf(records))
    ensures ok ==> merge == Slotted(records, Merge, pairs) && resolution == Slotted(records, Resolution, pairs)
  {
    merge, resolution := seq(pairs, _ => UNREACHABLE), seq(pairs, _ => UNREACHABLE);
    seen := new bool[pairs](_ => false);
    assert records[..0] == [];
    for k := 0 to |records|
      invariant Distinct(PairsOf(records[..k])) && forall l | 0 <= l < k :: records[l].pair < pairs
      invariant forall p {:trigger seen[p]} | 0 <= p < pairs :: seen[p] <==> p in PairsOf(records[..k])
      invariant merge == Slotted(records[..k], Merge, pairs) && resolution == Slotted(records[..k], Resolution, pairs)
    {
      var record := records[k];
      ghost var ids := PairsOf(records[..k]);
      assert records[..k + 1][..k] == records[..k];
      assert PairsOf(records[..k + 1]) == ids + [record.pair];
      assert PairsOf(records)[..k] == ids && PairsOf(records)[k] == record.pair;
      if record.pair >= pairs {
        return false, seen, merge, resolution;
      }
      if seen[record.pair] {
        if Distinct(PairsOf(records)) {
          DistinctIndex(PairsOf(records), k);
        }
        return false, seen, merge, resolution;
      }
      DistinctAppend(ids, record.pair);
      seen[record.pair] := true;
      merge := merge[record.pair := Normal(record.merge)];
      resolution := resolution[record.pair := Normal(record.resolution)];
    }
    assert records[..|records|] == records;
    ok := true;
  }

  /** The test of the seen flags.  It never fails: as many records as pairs, each of a
      different pair, are records of all pairs. */
  method CheckSeen(seen: array<bool>, records: seq<PairRecord>)
    requires |records| == seen.Length && Distinct(PairsOf(records))
    requires forall k | 0 <= k < |records| :: records[k].pair < seen.Length
    requires forall p {:trigger seen[p]} | 0 <= p < seen.Length :: seen[p] <==> p in PairsOf(records)
    ensures forall p | 0 <= p < seen.Length :: seen[p]
  {
    for pair := 0 to seen.Length
      invariant forall p | 0 <= p < pair :: seen[p]
    {
      AllSeen(PairsOf(records), seen.Length, pair);
      if !seen[pair] {
        assert false;
      }
    }
  }

  /** The fields are size_t values. */
  predicate Sized(records: seq<PairRecord>) {
    forall k | 0 <= k < |records| :: records[k].merge.distance <= NONE && records[k].resolution.distance <= NONE
  }

  lemma {:induction false} SlottedIsSized(records: seq<PairRecord>, objective: Objective, pairs: nat)
    requires Sized(records)
    ensures forall p {:trigger Slotted(records, objective, pairs)[p]} | 0 <= p < pairs ::
              Slotted(records, objective, pairs)[p].distance <= NONE
  {
    if records != [] {
      SlottedIsSized(records[..|records| - 1], objective, pairs);
    }
  }

  /** sg_pair_oracle_restore: accepts exactly the acceptable records. */
  method RestoreOracle(model: Automaton, records: seq<PairRecord>) returns (status: Status, oracle: PairOracle?)
    requires model.Valid() && PairCount(model.states) < NONE - 1 && Sized(records)
    ensures status == if Acceptable(model, records) then Ok else InvalidModel
    ensures status.Ok? ==>
              && oracle != null && fresh(oracle) && oracle.Valid() && oracle.model == model
              && oracle.merge == Slotted(records, Merge, |records|)
              && oracle.resolution == Slotted(records, Resolution, |records|)
  {
    oracle := null;
    var pairs := PairCount(model.states);
    if |records| != pairs {
      return InvalidModel, null;
    }
    var t := FillPairs(model);
    var ok, seen, merge, resolution := StoreAll(records, pairs);
    if !ok {
      return InvalidModel, null;
    }
    CheckSeen(seen, records);
    ListedIsWired(model, t, Merge);
    ListedIsWired(model, t, Resolution);
    SlottedIsSized(records, Merge, pairs);
    SlottedIsSized(records, Resolution, pairs);
    ok := CheckAll(t, model.actions, Merge, merge, PairGraphOf(model, Merge));
    if !ok {
      return InvalidModel, null;
    }
    ok := CheckAll(t, model.actions, Resolution, resolution, PairGraphOf(model, Resolution));
    if !ok {
      return InvalidModel, null;
    }
    oracle := new PairOracle(model, t, merge, resolution);
    status := Ok;
  }

  /** Of an entry marked unreachable only the support count is looked at: if it is not
      zero, the records are refused. */
  lemma UnreachableHasNoSupport(m: Automaton, records: seq<PairRecord>, k: nat, objective: Objective)
    requires k < |records| && !records[k].Part(objective).reachable && records[k].Part(objective).support != 0
    ensures !Acceptable(m, records)
  {
    if Acceptable(m, records) {
      SlottedAt(records, objective, |records|, k);
      AcceptedIsStored(m, records, k, objective);
    }
  }

  /** What an accepted entry says is what was stored: an unreachable one says nothing,
      and any other keeps all its fields, if only its distance says that it is one. */
  lemma AcceptedIsStored(m: Automaton, records: seq<PairRecord>, k: nat, objective: Objective)
    requires Acceptable(m, records) && k < |records|
    ensures var e, r := records[k].Part(objective), Slotted(records, objective, |records|);
            && (!e.reachable ==> r[records[k].pair] == UNREACHABLE)
            && (e.reachable ==>
                 && r[records[k].pair].distance == e.distance && r[records[k].pair].action == e.action
                 && r[records[k].pair].next == e.next && r[records[k].pair].support == e.support
                 && r[records[k].pair].reachable == (e.distance != NONE))
  {
    SlottedAt(records, objective, |records|, k);
    assert Followable(PairGraphOf(m, objective), Slotted(records, objective, |records|), records[k].pair);
  }

  // ---------- Round trip ----------

  /** The records of an oracle, pair by pair. */
  ghost function RecordsOf(merge: seq<Entry>, resolution: seq<Entry>): (s: seq<PairRecord>)
    requires |merge| == |resolution|
    ensures |s| == |merge|
    ensures forall p {:trigger s[p]} | 0 <= p < |s| :: s[p] == PairRecord(p, merge[p], resolution[p])
  {
    seq(|merge|, p requires 0 <= p < |merge| => PairRecord(p, merge[p], resolution[p]))
  }

  lemma TruthfulIsNormal(g: Graph, r: Entries, p: nat)
    requires Truthful(g, r) && p < g.pairs
    ensures Normal(r[p]) == r[p]
  {
    if !g.diagonal[p] {
      assert r[p] == Best(g, r, p) || r[p] == UNREACHABLE;
      BestIsBest(g, r, p);
    }
  }

  lemma SlottedRestores(g: Graph, r: Entries, records: seq<PairRecord>, objective: Objective)
    requires Truthful(g, r) && |records| == g.pairs
    requires forall p | 0 <= p < g.pairs :: records[p].pair == p && records[p].Part(objective) == r[p]
    ensures Slotted(records, objective, g.pairs) == r
  {
    var ids := PairsOf(records);
    forall i, j | 0 <= i < j < |ids| ensures Differ(ids, i, j) {}
    forall p | 0 <= p < g.pairs ensures Slotted(records, objective, g.pairs)[p] == r[p] {
      SlottedAt(records, objective, g.pairs, p);
      TruthfulIsNormal(g, r, p);
    }
  }

  /** The records of the oracle that restoring makes. */
  ghost function Restored(records: seq<PairRecord>): seq<PairRecord> {
    RecordsOf(Slotted(records, Merge, |records|), Slotted(records, Resolution, |records|))
  }

  /** Restoring accepts the records and gives them back. */
  ghost predicate Restorable(m: Automaton, records: seq<PairRecord>) {
    Acceptable(m, records) && Restored(records) == records
  }

  /** Whatever a build or a repair leaves can be restored: truthful records, exact or
      not, are accepted and come back as they were. */
  lemma TruthfulRestores(m: Automaton, records: seq<PairRecord>)
    requires m.Valid() && PairCount(m.states) <= SIZE_MAX / 8 && |records| == PairCount(m.states)
    requires forall p | 0 <= p < |records| :: records[p].pair == p
    requires Truthful(PairGraphOf(m, Merge), Part(records, Merge))
    requires Truthful(PairGraphOf(m, Resolution), Part(records, Resolution))
    ensures Restorable(m, records)
  {
    var g, h := PairGraphOf(m, Merge), PairGraphOf(m, Resolution);
    SlottedRestores(g, Part(records, Merge), records, Merge);
    SlottedRestores(h, Part(records, Resolution), records, Resolution);
    TruthfulIsBounded(g, Part(records, Merge));
    TruthfulIsBounded(h, Part(records, Resolution));
    TruthfulIsFollowable(g, Part(records, Merge));
    TruthfulIsFollowable(h, Part(records, Resolution));
    var ids := PairsOf(records);
    forall i, j | 0 <= i < j < |ids| ensures Differ(ids, i, j) {}
    forall p | 0 <= p < |records| ensures Restored(records)[p] == records[p] {
      assert Part(records, Merge)[p] == records[p].merge && Part(records, Resolution)[p] == records[p].resolution;
    }
  }

  /** A built oracle's records are accepted, and restore the same oracle. */
  lemma BuiltRestores(m: Automaton, merge: Entries, resolution: Entries)
    requires m.Valid() && PairCount(m.states) <= SIZE_MAX / 8
    requires Consistent(PairGraphOf(m, Merge), merge) && Consistent(PairGraphOf(m, Resolution), resolution)
    ensures Restorable(m, RecordsOf(merge, resolution))
  {
    var records := RecordsOf(merge, resolution);
    assert Part(records, Merge) == merge && Part(records, Resolution) == resolution;
    ConsistentIsTruthful(PairGraphOf(m, Merge), merge);
    ConsistentIsTruthful(PairGraphOf(m, Resolution), resolution);
    TruthfulRestores(m, records);
  }

  /** The loop of sg_witness_word.  Neither of its checks can fire. */
  method Walk(entries: seq<Entry>, start: nat, ghost g: Graph) returns (word: seq<nat>)
    requires AllFollowable(g, entries) && start < |entries| && entries[start].distance < NONE && g.actions < NONE
    ensures word == Witness(g, entries, start)
  {
    var pair: nat := start;
    word := [];
    while entries[pair].distance != 0
      invariant pair < |entries| && entries[pair].distance < NONE
      invariant Witness(g, entries, start) == word + Witness(g, entries, pair)
      decreases entries[pair].distance
    {
      assert Followable(g, entries, pair);
      if entries[pair].action == NONE {
        assert false;
      }
      word := word + [entries[pair].action];
      if entries[pair].next == NONE {
        return;
      }
      pair := entries[pair].next;
      if pair >= |entries| {
        assert false;
      }
    }
  }

  lemma {:induction false} WitnessIsWord(m: Automaton, objective: Objective, r: Entries, p: nat)
    requires m.Valid() && AllFollowable(PairGraphOf(m, objective), r) && p < |r| && r[p].distance < NONE
    ensures IsWord(m, Witness(PairGraphOf(m, objective), r, p))
    decreases r[p].distance
  {
    assert Followable(PairGraphOf(m, objective), r, p);
    if r[p].distance > 0 && r[p].next != NONE {
      WitnessIsWord(m, objective, r, r[p].next);
    }
  }

  /** sg_witness_word */
  method WitnessWord(oracle: PairOracle, first: nat, second: nat, objective: Objective)
    returns (status: Status, word: seq<nat>)
    requires oracle.Valid() && AllFollowable(PairGraphOf(oracle.model, objective), oracle.Entries(objective))
    ensures !(first < oracle.model.states && second < oracle.model.states) <==> status == InvalidArgument
    ensures first < oracle.model.states && second < oracle.model.states ==>
              var p, r := PairIndex(oracle.model.states, first, second), oracle.Entries(objective);
              && p < |r| && status == (if r[p].distance < NONE then Ok else NotFound)
              && (status.Ok? ==>
                   && word == Witness(PairGraphOf(oracle.model, objective), r, p)
                   && |word| == r[p].distance && IsWord(oracle.model, word)
                   && Achieves(oracle.model, objective, first, second, word))
  {
    var n := oracle.model.states;
    if first >= n || second >= n {
      return InvalidArgument, [];
    }
    IndexInRange(n, first, second);
    ghost var g := PairGraphOf(oracle.model, objective);
    var entries, pair := oracle.Entries(objective), PairIndex(n, first, second);
    assert Followable(g, entries, pair);
    if entries[pair].distance >= NONE {
      return NotFound, [];
    }
    word := Walk(entries, pair, g);
    WitnessSolves(g, entries, pair);
    WitnessIsWord(oracle.model, objective, entries, pair);
    SolvesIsAchieves(oracle.model, objective, first, second, word);
    status := Ok;
  }

  /** The word of an exact oracle is, of all words that meet the objective, a
      shortest one, and the first of those letter by letter. */
  lemma ExactWordIsFirst(m: Automaton, objective: Objective, r: Entries, i: nat, j: nat, v: seq<nat>)
    requires m.Valid() && i < m.states && j < m.states && PairCount(m.states) <= SIZE_MAX / 8
    requires Consistent(PairGraphOf(m, objective), r)
    requires IsWord(m, v) && Achieves(m, objective, i, j, v)
    ensures AllFollowable(PairGraphOf(m, objective), r)
    ensures var g, p := PairGraphOf(m, objective), PairIndex(m.states, i, j);
            && p < |r| && r[p].distance < NONE
            && |Witness(g, r, p)| <= |v|
            && (|Witness(g, r, p)| == |v| ==> LexAtMost(Witness(g, r, p), v))
  {
    var g, p := PairGraphOf(m, objective), PairIndex(m.states, i, j);
    IndexInRange(m.states, i, j);
    ExactIsBounded(g, r);
    ExactIsFollowable(g, r);
    SolvesIsAchieves(m, objective, i, j, v);
    ConsistentIsShortest(g, r, p);
    if r[p].distance == |v| {
      WitnessIsFirst(g, r, p, v);
    }
  }

  // ---------- What restoring does not check ----------

  /** The check is local: records that leave every off-diagonal pair out pass it on
      any automaton, and are exact only if no pair can meet the objective. */
  lemma AllUnreachablePasses(m: Automaton, objective: Objective, r: Entries)
    requires m.Valid() && PairCount(m.states) <= SIZE_MAX / 8 && |r| == PairCount(m.states)
    requires forall p | 0 <= p < |r| :: r[p] == if SameState(m, p) then ROOT else UNREACHABLE
    ensures AllFollowable(PairGraphOf(m, objective), r)
    ensures Consistent(PairGraphOf(m, objective), r) <==>
              forall p, w | 0 <= p < |r| && Solves(PairGraphOf(m, objective), p, w) :: SameState(m, p)
  {
    var g := PairGraphOf(m, objective);
    forall p | 0 <= p < g.pairs ensures Followable(g, r, p) && g.diagonal[p] == SameState(m, p) {}
    if Consistent(g, r) {
      forall p, w | 0 <= p < |r| && Solves(g, p, w) ensures SameState(m, p) {
        ConsistentIsShortest(g, r, p);
      }
    } else {
      var p :| 0 <= p < g.pairs && !g.diagonal[p] && r[p] != Best(g, r, p);
      var a := Best(g, r, p).action;
      assert Cost(g, r, p, a) < NONE;
      assert Solves(g, p, [a]);
    }
  }

  /** Accepted records are exact if and only if every diagonal pair is at the root and
      no action offers less than a record says, nor as much at a lower number: a check
      that reads each arc once. */
  lemma AcceptedIsExactIff(g: Graph, r: Entries)
    requires AllFollowable(g, r) && Fits(g, r) && forall p | 0 <= p < g.pairs ::
             r[p].reachable == (r[p].distance != NONE)
    ensures Consistent(g, r) <==>
              && Rooted(g, r)
              && forall p, a {:trigger Cost(g, r, p, a)} | 0 <= p < g.pairs && !g.diagonal[p] && 0 <= a < g.actions ::
                   && r[p].distance <= Cost(g, r, p, a)
                   && (Cost(g, r, p, a) == r[p].distance < NONE ==> r[p].action <= a)
  {
    forall p | 0 <= p < g.pairs && !g.diagonal[p]
      ensures r[p] == Best(g, r, p) <==> NoneBetter(g, r, p)
    {
      AcceptedEntryIsBestIff(g, r, p);
    }
    if Consistent(g, r) {
      forall p, a | 0 <= p < g.pairs && !g.diagonal[p] && 0 <= a < g.actions
        ensures r[p].distance <= Cost(g, r, p, a) && (Cost(g, r, p, a) == r[p].distance < NONE ==> r[p].action <= a)
      {
        assert r[p] == Best(g, r, p);
      }
    }
  }

  /** No action offers less than the entry says, nor as much at a lower number. */
  ghost predicate NoneBetter(g: Graph, r: Entries, p: nat)
    requires Fits(g, r) && p < g.pairs
  {
    forall a {:trigger Cost(g, r, p, a)} | 0 <= a < g.actions ::
      r[p].distance <= Cost(g, r, p, a) && (Cost(g, r, p, a) == r[p].distance < NONE ==> r[p].action <= a)
  }

  lemma AcceptedEntryIsBestIff(g: Graph, r: Entries, p: nat)
    requires Fits(g, r) && p < g.pairs && !g.diagonal[p] && g.pairs < NONE && Followable(g, r, p)
    requires r[p].reachable == (r[p].distance != NONE)
    ensures r[p] == Best(g, r, p) <==> NoneBetter(g, r, p)
  {
    BestIsBest(g, r, p);
    if NoneBetter(g, r, p) {
      if r[p].distance < NONE {
        var d := DistancesOf(r);
        forall a | 0 <= a < g.actions ensures Cost(g, r, p, a) == CostFrom(g, d, p, a) {}
        assert Tight(g, d, p, g.actions) == Optimal(g, r, p, Upto(g.actions), r[p].distance);
        assert IsBest(g, r, p, Upto(g.actions), r[p]);
        BestIsUnique(g, r, p, Upto(g.actions), r[p], Best(g, r, p));
      }
    }
  }

  /** Two states that one letter merges. */
  const TWO: Automaton := Automaton(2, 1, 1, [[0], [0]], [[0], [0]])

  /** On it, leaving the pair of its two states out is accepted, though its true
      distance is 1. */
  lemma AcceptedNeedNotBeExact()
    ensures TWO.Valid() && exists r ::
              && AllFollowable(PairGraphOf(TWO, Merge), r) && !Consistent(PairGraphOf(TWO, Merge), r)
  {
    StatesOfIndex(2, 0, 1);
    StatesOfIndex(2, 0, 0);
    PairCountIs(2);
    var g, p := PairGraphOf(TWO, Merge), PairIndex(2, 0, 1);
    var r := seq(PairCount(2), p requires 0 <= p < PairCount(2) => if SameState(TWO, p) then ROOT else UNREACHABLE);
    AllUnreachablePasses(TWO, Merge, r);
    SolvesIsAchieves(TWO, Merge, 0, 1, [0]);
    assert [0][1..] == [];
    assert Run(TWO, 0, [0]) == Run(TWO, 1, [0]);
    assert Solves(g, p, [0]) && !SameState(TWO, p);
  }
}
