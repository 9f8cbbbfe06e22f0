/** A prepared snapshot: the automaton, its reverse columns, and one record a pair. */
module Snapshot {
  import opened Records
  import opened PairGraph
  import opened Pairs
  import opened Columns
  import opened Arcs

  /** The records of one objective. */
  ghost function Part(records: seq<PairRecord>, objective: Objective): (r: Entries)
    ensures |r| == |records|
    ensures forall p | 0 <= p < |r| :: r[p] == records[p].Part(objective)
  {
    seq(|records|, p requires 0 <= p < |records| => records[p].Part(objective))
  }

  /** The writes of a batch, in order. */
  ghost function Written(records: seq<PairRecord>, writes: seq<PairRecord>): (s: seq<PairRecord>)
    ensures |s| == |records|
  {
    if writes == [] then records
    else
      var s := Written(records, writes[..|writes| - 1]);
      var last := writes[|writes| - 1];
      if last.pair < |records| then s[last.pair := last] else s
  }

  ghost function PairsOf(writes: seq<PairRecord>): (s: seq<nat>)
    ensures |s| == |writes| && forall k | 0 <= k < |s| :: s[k] == writes[k].pair
  {
    seq(|writes|, k requires 0 <= k < |writes| => writes[k].pair)
  }

  /** Only changed pairs may hold another record than at the start. */
  ghost predicate Tracked(base: seq<PairRecord>, records: seq<PairRecord>, changed: seq<bool>) {
    && |base| == |records| == |changed|
    && forall p {:trigger base[p]} | 0 <= p < |base| && !changed[p] :: records[p] == base[p]
  }

  /** The stored records, overwritten at the changed pairs. */
  ghost function Persisted(base: seq<PairRecord>, records: seq<PairRecord>, pairs: seq<nat>): (s: seq<PairRecord>)
    requires |base| == |records|
    ensures |s| == |base|
  {
    seq(|base|, p requires 0 <= p < |base| => if p in pairs then records[p] else base[p])
  }

  class Store {
    ghost const base: seq<PairRecord>
    var model: Automaton
    const first: seq<nat>
    const second: seq<nat>
    var columns: Words
    var records: seq<PairRecord>
    var changed: seq<bool>
    var changedPairs: seq<nat>

    ghost predicate Topology(states: nat)
    {
      && |first| == |second| == PairCount(states)
      && forall p | 0 <= p < PairCount(states) :: (first[p], second[p]) == States(states, p)
    }

    ghost predicate Valid()
      reads this
    {
      && Agree(model, columns)
      && Topology(model.states)
      && |records| == |changed| == PairCount(model.states)
      && (forall p | 0 <= p < |records| :: records[p].pair == p)
      && Distinct(changedPairs)
      && (forall p :: p in changedPairs <==> 0 <= p < |changed| && changed[p])
      && Tracked(base, records, changed)
    }

    /** Writing the changed pairs alone brings the records held at the start up to date. */
    lemma ChangedPairsSuffice()
      requires Valid()
      ensures Persisted(base, records, changedPairs) == records
    {
      forall p | 0 <= p < |base| ensures Persisted(base, records, changedPairs)[p] == records[p] {
        assert !changed[p] ==> records[p] == base[p];
      }
    }

    /** Fill the topology and take over the records of a fresh oracle. */
    constructor (model: Automaton, records: seq<PairRecord>)
      requires model.Valid() && |records| == PairCount(model.states)
      requires forall p | 0 <= p < |records| :: records[p].pair == p
      ensures Valid() && this.model == model && this.records == records && changedPairs == [] && base == records
    {
      base := records;
      var f, s := FillTopology(model.states);
      first, second := f, s;
      this.model, this.records := model, records;
      var c := BuildColumns(model);
      columns := c;
      changed := seq(|records|, _ => false);
      changedPairs := [];
    }

    /** sg_pair_snapshot_clone: the same automaton and records, with nothing changed. */
    constructor Clone(source: Store)
      requires source.Valid()
      ensures Valid() && model == source.model && records == source.records && columns == source.columns
      ensures changedPairs == [] && base == source.records
    {
      base := source.records;
      model, first, second, columns := source.model, source.first, source.second, source.columns;
      records := source.records;
      changed := seq(|source.records|, _ => false);
      changedPairs := [];
    }

    /** sg_pair_topology_create: list the pairs row by row. */
    static method FillTopology(n: nat) returns (first: seq<nat>, second: seq<nat>)
      ensures |first| == |second| == PairCount(n)
      ensures forall p | 0 <= p < PairCount(n) :: (first[p], second[p]) == States(n, p)
    {
      first, second := [], [];
      for i := 0 to n
        invariant |first| == |second| == Row(n, i) <= PairCount(n)
        invariant forall p | 0 <= p < |first| :: (first[p], second[p]) == States(n, p)
      {
        RowsAscend(n, i, n);
        LastRow(n);
        for j := i to n
          invariant |first| == |second| == Row(n, i) + (j - i) <= PairCount(n)
          invariant forall p | 0 <= p < |first| :: (first[p], second[p]) == States(n, p)
        {
          IndexInRow(n, i, j);
          StatesOfIndex(n, i, j);
          first, second := first + [i], second + [j];
        }
      }
      LastRow(n);
    }

    /** sg_pair_snapshot_read */
    method ReadRecords(ids: seq<nat>) returns (status: Status, result: seq<PairRecord>)
      requires Valid()
      ensures status == (if forall k | 0 <= k < |ids| :: ids[k] < |records| then Ok else InvalidArgument)
      ensures status.Ok? ==> |result| == |ids| && forall k | 0 <= k < |ids| :: result[k] == records[ids[k]]
    {
      result := [];
      for k := 0 to |ids|
        invariant |result| == k
        invariant forall l | 0 <= l < k :: ids[l] < |records| && result[l] == records[ids[l]]
      {
        if ids[k] >= |records| {
          return InvalidArgument, [];
        }
        result := result + [records[ids[k]]];
      }
      status := Ok;
    }

    /** sg_snapshot_store_read_outgoing */
    method ReadOutgoing(ids: seq<nat>) returns (status: Status, arcs: seq<Arc>)
      requires Valid()
      ensures status == (if forall k | 0 <= k < |ids| :: ids[k] < |records| then Ok else InvalidArgument)
      ensures status.Ok? ==> Outgoing(model, ids, arcs)
    {
      arcs := [];
      assert ids[..0] == [];
      for k := 0 to |ids|
        invariant forall l | 0 <= l < k :: ids[l] < |records|
        invariant Outgoing(model, ids[..k], arcs)
      {
        var pair := ids[k];
        if pair >= |records| {
          return InvalidArgument, [];
        }
        var row := ReadRow(pair);
        NextSource(model, ids[..k], pair, arcs);
        assert ids[..k + 1] == ids[..k] + [pair];
        arcs := arcs + row;
      }
      assert ids[..|ids|] == ids;
      status := Ok;
    }

    method ReadRow(pair: nat) returns (row: seq<Arc>)
      requires Valid() && pair < |records|
      ensures row == RowArcs(model, pair)
    {
      row := [];
      var i, j := first[pair], second[pair];
      assert (i, j) == States(model.states, pair);
      for action := 0 to model.actions
        invariant |row| == action
        invariant forall a | 0 <= a < action :: row[a] == ArcOf(model, pair, a)
      {
        var target := PairIndex(model.states, model.delta[i][action], model.delta[j][action]);
        row := row + [Arc(pair, action, target, model.eta[i][action] != model.eta[j][action])];
      }
    }

    /** sg_snapshot_store_read_incoming: walk the reverse columns of each new target. */
    method ReadIncoming(targets: seq<nat>) returns (status: Status, arcs: seq<Arc>)
      requires Valid()
      ensures status == (if forall k | 0 <= k < |targets| :: targets[k] < |records| then Ok else InvalidArgument)
      ensures status.Ok? ==> Incoming(model, (set t | t in targets), arcs)
    {
      arcs := [];
      ghost var done: set<nat> := {};
      for k := 0 to |targets|
        invariant forall l | 0 <= l < k :: targets[l] < |records|
        invariant forall t :: t in done <==> t in targets[..k]
        invariant Incoming(model, done, arcs)
      {
        var target := targets[k];
        if target >= |records| {
          return InvalidArgument, [];
        }
        if target !in targets[..k] {
          var more := ReadIncomingOf(target);
          NextTarget(model, done, target, arcs, more);
          arcs := arcs + more;
        }
        done := done + {target};
      }
      assert done == set t | t in targets;
      status := Ok;
    }

    method ReadIncomingOf(target: nat) returns (arcs: seq<Arc>)
      requires Valid() && target < |records|
      ensures IncomingUpto(model, target, model.actions, arcs)
    {
      arcs := [];
      for action := 0 to model.actions
        invariant IncomingUpto(model, target, action, arcs)
      {
        var more := ScanColumns(target, action);
        NextAction(model, target, action, arcs, more);
        arcs := arcs + more;
      }
    }

    /** The two inner loops.  A diagonal target takes each unordered pair of sources
        once; an off-diagonal one pairs sources of its two states. */
    method ScanColumns(target: nat, action: nat) returns (arcs: seq<Arc>)
      requires Valid() && target < |records| && action < model.actions
      ensures IncomingByAction(model, target, action, arcs)
    {
      var n, t0, t1 := model.states, first[target], second[target];
      assert (t0, t1) == States(n, target);
      arcs := [];
      ghost var fed: seq<(nat, nat)> := [];
      for i := 0 to n
        invariant Scanned(model, action, target, i, 0, fed, arcs)
      {
        var start := if t0 == t1 then i else 0;
        if Has(n, columns, action, t0, i) {
          SkipBelow(action, target, i, start, fed, arcs);
          for j := start to n
            invariant Scanned(model, action, target, i, j, fed, arcs)
          {
            ScannedNext(model, action, target, i, j, fed, arcs);
            if Has(n, columns, action, t1, j) {
              fed := fed + [(i, j)];
              arcs := arcs + [Arc(PairIndex(n, i, j), action, target, model.eta[i][action] != model.eta[j][action])];
            }
          }
          assert Scanned(model, action, target, i + 1, 0, fed, arcs);
        } else {
          assert Scanned(model, action, target, i + 1, 0, fed, arcs);
        }
      }
      ScannedAll(model, action, target, fed, arcs);
    }

    lemma SkipBelow(action: nat, target: nat, i: nat, start: nat, fed: seq<(nat, nat)>, arcs: seq<Arc>)
      requires Valid() && target < |records|
      requires start == if first[target] == second[target] then i else 0
      requires Scanned(model, action, target, i, 0, fed, arcs)
      ensures Scanned(model, action, target, i, start, fed, arcs)
    {
      assert (first[target], second[target]) == States(model.states, target);
    }

    /** sg_snapshot_store_write_records */
    method WriteRecords(writes: seq<PairRecord>) returns (status: Status)
      requires Valid()
      modifies this
      ensures Valid() && model == old(model) && columns == old(columns)
      ensures status == (if forall k | 0 <= k < |writes| :: writes[k].pair < |records| then Ok else InvalidArgument)
      ensures status.Ok? ==> records == Written(old(records), writes)
      ensures forall p :: p in old(changedPairs) ==> p in changedPairs
      ensures status.Ok? ==> forall k | 0 <= k < |writes| :: writes[k].pair in changedPairs
      ensures forall p | 0 <= p < |records| && records[p] != old(records)[p] :: p in changedPairs
    {
      assert writes[..0] == [];
      for k := 0 to |writes|
        invariant Valid() && model == old(model) && columns == old(columns)
        invariant forall l | 0 <= l < k :: writes[l].pair < |records| && writes[l].pair in changedPairs
        invariant records == Written(old(records), writes[..k])
        invariant forall p :: p in old(changedPairs) ==> p in changedPairs
        invariant forall p | 0 <= p < |records| && records[p] != old(records)[p] :: p in changedPairs
      {
        var pair := writes[k].pair;
        if pair >= |records| {
          return InvalidArgument;
        }
        MarkChanged(pair);
        assert writes[..k + 1][..k] == writes[..k];
        records := records[pair := writes[k]];
      }
      assert writes[..|writes|] == writes;
      status := Ok;
    }

    /** sg_snapshot_mark_changed */
    method MarkChanged(pair: nat)
      requires Valid() && pair < |records|
      modifies this`changed, this`changedPairs
      ensures Valid()
      ensures forall p :: p in changedPairs <==> p in old(changedPairs) || p == pair
    {
      if changed[pair] {
        return;
      }
      DistinctAppend(changedPairs, pair);
      changed := changed[pair := true];
      changedPairs := changedPairs + [pair];
    }

    /** sg_pair_snapshot_set_cell */
    method SetCell(state: nat, action: nat, target: nat, output: nat) returns (status: Status, moved: bool)
      requires Valid()
      modifies this`model, this`columns
      ensures Valid()
      ensures !(state < old(model).states && action < old(model).actions) ==> status == InvalidArgument
      ensures status != Ok ==> status == InvalidArgument && model == old(model) && columns == old(columns)
      ensures state < old(model).states && action < old(model).actions ==>
                status == (if target < old(model).states && output < old(model).outputs then Ok else InvalidArgument)
      ensures status.Ok? ==>
                && model == WithCell(old(model), state, action, target, output)
                && moved == (model != old(model))
    {
      if state >= model.states || action >= model.actions {
        return InvalidArgument, false;
      }
      var oldTarget, oldOutput := model.delta[state][action], model.eta[state][action];
      moved := oldTarget != target || oldOutput != output;
      if !moved {
        assert model.delta[state][action := target] == model.delta[state];
        assert model.eta[state][action := output] == model.eta[state];
        assert WithCell(model, state, action, target, output) == model;
        return Ok, false;
      }
      if target >= model.states || output >= model.outputs {
        return InvalidArgument, moved;
      }
      var next := WithCell(model, state, action, target, output);
      assert next.delta[state][action] == target && next.eta[state][action] == output;
      if oldTarget != target {
        MoveCell(model, columns, state, action, target, output);
        columns := With(model.states, columns, action, oldTarget, state, false);
        columns := With(model.states, columns, action, target, state, true);
      }
      model := next;
      status := Ok;
    }

    ghost function Graph(objective: Objective): (g: Graph)
      requires Valid()
      reads this
    {
      PairGraphOf(model, objective)
    }
  }
}
