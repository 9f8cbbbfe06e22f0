/** Lemmas that tie single steps of the repair program to the set-level phases. */
module RepairSteps {
  import opened Records
  import opened PairGraph
  import opened RepairSpec
  import opened RepairTheory
  import opened RepairBounds
  import opened Arcs
  import opened Pairs
  import opened Snapshot
  import opened MinHeap

  // ---------- Flags and lists as sets ----------

  ghost function Flagged(flags: seq<bool>): (s: set<nat>)
    ensures forall p: nat :: p in s <==> p < |flags| && flags[p]
  {
    set p | p in Upto(|flags|) && flags[p]
  }

  ghost function Listed(ids: seq<nat>): (s: set<nat>)
    ensures forall p :: p in s <==> p in ids
  {
    set p | p in ids
  }

  lemma AppendLater(s: seq<nat>, t: seq<nat>, x: nat)
    ensures (s + t) + [x] == s + (t + [x])
  {
  }

  lemma ListedAppend(ids: seq<nat>, more: seq<nat>)
    ensures Listed(ids + more) == Listed(ids) + Listed(more)
  {
  }

  /** A list of distinct ids below a limit is no longer than the limit. */
  lemma FewDistinct(ids: seq<nat>, limit: nat)
    requires Distinct(ids) && forall k | 0 <= k < |ids| :: ids[k] < limit
    ensures |ids| <= limit
    ensures |Listed(ids)| == |ids|
  {
    ListedSize(ids);
    UptoSize(limit);
    SubsetSize(Listed(ids), Upto(limit));
  }

  lemma {:induction false} ListedSize(ids: seq<nat>)
    requires Distinct(ids)
    ensures |Listed(ids)| == |ids|
  {
    if ids != [] {
      var n := |ids| - 1;
      assert ids == ids[..n] + [ids[n]];
      DistinctPrefix(ids[..n], ids[n]);
      ListedSize(ids[..n]);
      assert Listed(ids) == Listed(ids[..n]) + {ids[n]};
    }
  }

  /** The list holds exactly the pairs flagged. */
  ghost predicate SameIds(ids: seq<nat>, flags: seq<bool>) {
    forall p: nat {:trigger p in ids} :: p in ids <==> p < |flags| && flags[p]
  }

  lemma SameIdsAreListed(ids: seq<nat>, flags: seq<bool>)
    ensures SameIds(ids, flags) <==> Listed(ids) == Flagged(flags)
  {
    if Listed(ids) == Flagged(flags) {
      forall p: nat ensures p in ids <==> p < |flags| && flags[p] {
        assert p in ids <==> p in Listed(ids);
      }
    }
  }

  lemma SameIdsAppend(ids: seq<nat>, flags: seq<bool>, p: nat)
    requires SameIds(ids, flags) && p < |flags|
    ensures SameIds(ids + [p], flags[p := true])
  {
    forall q: nat ensures q in ids + [p] <==> q in ids || q == p {}
  }

  lemma PrefixInside(ids: seq<nat>, k: nat)
    requires k <= |ids|
    ensures Listed(ids[..k]) <= Listed(ids)
    ensures k < |ids| ==> ids[k] in Listed(ids)
    ensures k == |ids| ==> Listed(ids[..k]) == Listed(ids)
  {
    if k == |ids| {
      assert ids[..k] == ids;
    }
  }

  lemma PrefixGrows(ids: seq<nat>, k: nat)
    requires k < |ids|
    ensures Listed(ids[..k + 1]) == Listed(ids[..k]) + {ids[k]}
    ensures Distinct(ids) ==> ids[k] !in Listed(ids[..k])
  {
    if Distinct(ids) {
      DistinctIndex(ids, k);
    }
    assert ids[..k + 1] == ids[..k] + [ids[k]];
  }

  lemma UnionGrows(first: set<nat>, done: set<nat>, x: nat, more: set<nat>)
    requires more == done + {x}
    ensures (first + done) + {x} == first + more
  {
  }

  lemma FlagOne(flags: seq<bool>, p: nat)
    requires p < |flags|
    ensures Flagged(flags[p := true]) == Flagged(flags) + {p}
    ensures Flagged(flags[p := false]) == Flagged(flags) - {p}
    ensures !flags[p] ==> |Flagged(flags[p := true])| == |Flagged(flags)| + 1
  {
    assert Flagged(flags[p := true]) == Flagged(flags) + {p};
  }

  /** What is refused of a list of pairs: one out of range, or one listed twice. */
  ghost function Verdict(ids: seq<nat>, pairs: nat): Status {
    if exists k :: 0 <= k < |ids| && ids[k] >= pairs then InvalidArgument
    else if !Distinct(ids) then InvalidModel
    else Ok
  }

  // ---------- Folding arcs into candidates ----------

  /** Offer one arc to the candidate entry of its source. */
  function Offer(entry: Entry, arc: Arc, targetDistance: nat, objective: Objective): Entry {
    var terminal := objective.Resolution? && arc.outputsDiffer;
    var distance := if terminal then 1 else if targetDistance == NONE then NONE else targetDistance + 1;
    CandidateAdd(entry, arc.action, arc.target, distance, terminal)
  }

  ghost function SeenIn(m: Automaton, p: nat, arcs: seq<Arc>): (s: set<nat>)
    requires m.Valid() && p < PairCount(m.states)
    ensures forall a: nat :: a in s <==> a < m.actions && ArcOf(m, p, a) in arcs
  {
    set a | a in Upto(m.actions) && ArcOf(m, p, a) in arcs
  }

  ghost predicate Evaluable(m: Automaton, records: seq<PairRecord>, objective: Objective) {
    m.Valid() && Fits(PairGraphOf(m, objective), Part(records, objective))
  }

  /** Candidate c of pair p after the given arcs have been offered. */
  ghost predicate Folded(m: Automaton, records: seq<PairRecord>, objective: Objective, p: nat,
                         arcs: seq<Arc>, c: PairRecord)
    requires Evaluable(m, records, objective) && p < |records|
  {
    var g := PairGraphOf(m, objective);
    && c == records[p].With(objective, c.Part(objective))
    && (if SameState(m, p) then c.Part(objective) == ROOT
        else IsBest(g, Part(records, objective), p, SeenIn(m, p, arcs), c.Part(objective)))
  }

  lemma FoldOther(m: Automaton, records: seq<PairRecord>, objective: Objective, p: nat,
                  arcs: seq<Arc>, arc: Arc, c: PairRecord)
    requires Evaluable(m, records, objective) && p < |records| && Folded(m, records, objective, p, arcs, c)
    requires arc.source != p || SameState(m, p)
    ensures Folded(m, records, objective, p, arcs + [arc], c)
  {
    if !SameState(m, p) {
      assert SeenIn(m, p, arcs + [arc]) == SeenIn(m, p, arcs);
    }
  }

  lemma FoldOffer(m: Automaton, records: seq<PairRecord>, objective: Objective, arcs: seq<Arc>, arc: Arc, c: PairRecord)
    requires Evaluable(m, records, objective) && IsArc(m, arc) && arc !in arcs
    requires !SameState(m, arc.source) && Folded(m, records, objective, arc.source, arcs, c)
    ensures arc.target < |records|
    ensures Folded(m, records, objective, arc.source, arcs + [arc],
                   c.With(objective, Offer(c.Part(objective), arc, records[arc.target].Part(objective).distance,
                       objective)))
  {
    var g, r, p, a := PairGraphOf(m, objective), Part(records, objective), arc.source, arc.action;
    assert g.next[p][a] == arc.target;
    assert ArcOf(m, p, a) == arc;
    assert SeenIn(m, p, arcs + [arc]) == SeenIn(m, p, arcs) + {a};
    CandidateAddIsBest(g, r, p, SeenIn(m, p, arcs), c.Part(objective), a);
  }

  /** The candidate of a pair: its record with the objective evaluated afresh. */
  ghost function Candidate(m: Automaton, records: seq<PairRecord>, objective: Objective, p: nat): PairRecord
    requires Evaluable(m, records, objective) && p < |records|
  {
    var g := PairGraphOf(m, objective);
    records[p].With(objective, if SameState(m, p) then ROOT else Best(g, Part(records, objective), p))
  }

  lemma FoldStarts(m: Automaton, records: seq<PairRecord>, objective: Objective, p: nat)
    requires Evaluable(m, records, objective) && p < |records|
    ensures Folded(m, records, objective, p, [], records[p].With(objective, if SameState(m, p) then ROOT
            else UNREACHABLE))
  {
    assert SeenIn(m, p, []) == {};
  }

  lemma FoldEnds(m: Automaton, records: seq<PairRecord>, objective: Objective, p: nat, arcs: seq<Arc>, c: PairRecord)
    requires Evaluable(m, records, objective) && p < |records| && Folded(m, records, objective, p, arcs, c)
    requires forall a | 0 <= a < m.actions :: ArcOf(m, p, a) in arcs
    ensures c == Candidate(m, records, objective, p)
  {
    if !SameState(m, p) {
      assert SeenIn(m, p, arcs) == Upto(m.actions);
      BestIsBest(PairGraphOf(m, objective), Part(records, objective), p);
      BestIsUnique(PairGraphOf(m, objective), Part(records, objective), p, Upto(m.actions),
                   c.Part(objective), Best(PairGraphOf(m, objective), Part(records, objective), p));
    }
  }

  /** The support of a best entry is a set of actions, so it can be counted up. */
  lemma SupportIsSmall(g: Graph, r: Entries, p: nat, actions: set<nat>, e: Entry)
    requires Fits(g, r) && p < g.pairs && forall a | a in actions :: a < g.actions
    requires IsBest(g, r, p, actions, e)
    ensures e.support <= g.actions
  {
    if e.distance < NONE {
      UptoSize(g.actions);
      SubsetSize(Optimal(g, r, p, actions, e.distance), Upto(g.actions));
    }
  }

  // ---------- Writing a batch ----------

  /** Nothing but the given objective's entries differs. */
  ghost predicate OnlyPart(old_: seq<PairRecord>, records: seq<PairRecord>, objective: Objective) {
    && |old_| == |records|
    && forall p {:trigger records[p]} | 0 <= p < |records| ::
        records[p] == old_[p].With(objective, records[p].Part(objective))
  }

  lemma OnlyPartTwice(a: seq<PairRecord>, b: seq<PairRecord>, c: seq<PairRecord>, objective: Objective)
    requires OnlyPart(a, b, objective) && OnlyPart(b, c, objective)
    ensures OnlyPart(a, c, objective)
  {
    forall p | 0 <= p < |c| ensures c[p] == a[p].With(objective, c[p].Part(objective)) {
      assert b[p] == a[p].With(objective, b[p].Part(objective));
    }
  }

  /** Writes that turn the records of the objective into the wanted entries: at most
      one for each pair, and one wherever the entry changes. */
  ghost predicate Achieving(records: seq<PairRecord>, objective: Objective, writes: seq<PairRecord>, wanted: Entries) {
    && |wanted| == |records|
    && (forall k | 0 <= k < |writes| ::
          && writes[k].pair < |records|
          && writes[k] == records[writes[k].pair].With(objective, wanted[writes[k].pair]))
    && (forall p | 0 <= p < |records| && wanted[p] != records[p].Part(objective) :: p in PairsOf(writes))
  }

  lemma {:induction false} WrittenAt(records: seq<PairRecord>, writes: seq<PairRecord>, p: nat)
    requires p < |records|
    ensures p !in PairsOf(writes) ==> Written(records, writes)[p] == records[p]
    ensures p in PairsOf(writes) ==> exists k ::
            0 <= k < |writes| && writes[k].pair == p && Written(records, writes)[p] == writes[k]
  {
    if writes != [] {
      var n := |writes| - 1;
      WrittenAt(records, writes[..n], p);
      if writes[n].pair != p {
        assert p in PairsOf(writes) <==> p in PairsOf(writes[..n]) by {
          if p in PairsOf(writes) {
            var k :| 0 <= k < |writes| && PairsOf(writes)[k] == p;
            assert PairsOf(writes[..n])[k] == p;
          }
          if p in PairsOf(writes[..n]) {
            var k :| 0 <= k < n && PairsOf(writes[..n])[k] == p;
            assert PairsOf(writes)[k] == p;
          }
        }
      } else {
        assert PairsOf(writes)[n] == p;
      }
    }
  }

  lemma WrittenAchieves(records: seq<PairRecord>, objective: Objective, writes: seq<PairRecord>, wanted: Entries)
    requires Achieving(records, objective, writes, wanted)
    ensures Part(Written(records, writes), objective) == wanted
    ensures OnlyPart(records, Written(records, writes), objective)
  {
    var after := Written(records, writes);
    forall p | 0 <= p < |records|
      ensures after[p].Part(objective) == wanted[p] && after[p] == records[p].With(objective, after[p].Part(objective))
    {
      WrittenAt(records, writes, p);
    }
  }

  /** One more pair of a batch. */
  lemma RaisedGrows(g: Graph, r: Entries, done: set<nat>, p: nat)
    requires Fits(g, r) && done <= Upto(g.pairs) && p < g.pairs
    ensures Raised(g, r, done + {p}) == Raised(g, r, done) + (if r[p].distance < Best(g, r, p).distance then {p}
            else {})
  {
  }

  lemma LoweredGrows(g: Graph, r: Entries, done: set<nat>, p: nat)
    requires Fits(g, r) && done <= Upto(g.pairs) && p < g.pairs
    ensures Lowered(g, r, done + {p}) == Lowered(g, r, done) + (if Best(g, r, p).distance < r[p].distance then {p}
            else {})
  {
  }

  lemma SettledGrows(g: Graph, r: Entries, done: set<nat>, p: nat)
    requires Fits(g, r) && done <= Upto(g.pairs) && p < g.pairs
    ensures Settled(g, r, done + {p}) == Settled(g, r, done)[p := Settle(r[p], Best(g, r, p))]
  {
    var s, t := Settled(g, r, done), Settled(g, r, done + {p});
    forall q | 0 <= q < g.pairs && q != p ensures t[q] == s[q] {
      assert q in done + {p} <==> q in done;
    }
    OneDiffers(s, t, p, Settle(r[p], Best(g, r, p)));
  }

  lemma OneDiffers(s: Entries, t: Entries, p: nat, e: Entry)
    requires |s| == |t| && p < |s| && t[p] == e && forall q | 0 <= q < |s| && q != p :: t[q] == s[q]
    ensures t == s[p := e]
  {
  }

  lemma RelaxedGrows(g: Graph, r: Entries, done: set<nat>, p: nat)
    requires Fits(g, r) && done <= Upto(g.pairs) && p < g.pairs
    ensures Relaxed(g, r, done + {p}) == Relaxed(g, r, done)[p := Best(g, r, p)]
  {
    var s, t := Relaxed(g, r, done), Relaxed(g, r, done + {p});
    forall q | 0 <= q < g.pairs && q != p ensures t[q] == s[q] {
      assert q in done + {p} <==> q in done;
    }
    OneDiffers(s, t, p, Best(g, r, p));
  }

  lemma AchievingNext(records: seq<PairRecord>, objective: Objective, writes: seq<PairRecord>, wanted: Entries,
                      p: nat, entry: Entry)
    requires Achieving(records, objective, writes, wanted) && p < |records| && p !in PairsOf(writes)
    requires wanted[p] == records[p].Part(objective)
    requires records[p].pair == p
    ensures Achieving(records, objective,
                      if entry != wanted[p] then writes + [records[p].With(objective, entry)] else writes,
                      wanted[p := entry])
  {
    if entry != wanted[p] {
      var after := writes + [records[p].With(objective, entry)];
      forall k | 0 <= k < |writes| ensures writes[k].pair != p {
        assert PairsOf(writes)[k] == writes[k].pair;
      }
      forall q | 0 <= q < |records| && wanted[p := entry][q] != records[q].Part(objective) ensures q in PairsOf(after) {
        if q != p {
          var k :| 0 <= k < |writes| && PairsOf(writes)[k] == q;
          assert PairsOf(after)[k] == q;
        } else {
          assert PairsOf(after)[|writes|] == p;
        }
      }
    } else {
      assert wanted[p := entry] == wanted;
    }
  }

  /** The pairs done are settled in the lists, and the writes achieve exactly that.  The
      definition is some steps away, so that only SettledIs unfolds it. */
  ghost predicate SettledSoFar(g: Graph, records: seq<PairRecord>, objective: Objective, before: Phase, done: set<nat>,
                               news: seq<nat>, queued: set<nat>, touched: set<nat>, writes: seq<PairRecord>)
  {
    SettledIn(g, records, objective, before, done, news, queued, touched, writes, DEPTH + 1)
  }

  ghost predicate SettledIn(g: Graph, records: seq<PairRecord>, objective: Objective, before: Phase, done: set<nat>,
                            news: seq<nat>, queued: set<nat>, touched: set<nat>, writes: seq<PairRecord>, steps: nat)
    decreases steps
  {
    if steps > 0 then SettledIn(g, records, objective, before, done, news, queued, touched, writes, steps - 1)
    else
      && PhaseFits(g, before) && before.records == Part(records, objective) && done <= Upto(g.pairs)
      && touched == before.touched + done
      && Listed(news) == Raised(g, before.records, done)
      && queued == before.lowered + Lowered(g, before.records, done)
      && Achieving(records, objective, writes, Settled(g, before.records, done))
      && forall k | 0 <= k < |writes| :: writes[k].pair in done
  }

  lemma SettledIs(g: Graph, records: seq<PairRecord>, objective: Objective, before: Phase, done: set<nat>,
                  news: seq<nat>, queued: set<nat>, touched: set<nat>, writes: seq<PairRecord>)
    ensures SettledSoFar(g, records, objective, before, done, news, queued, touched, writes) <==>
              && PhaseFits(g, before) && before.records == Part(records, objective) && done <= Upto(g.pairs)
              && touched == before.touched + done
              && Listed(news) == Raised(g, before.records, done)
              && queued == before.lowered + Lowered(g, before.records, done)
              && Achieving(records, objective, writes, Settled(g, before.records, done))
              && forall k | 0 <= k < |writes| :: writes[k].pair in done
  {
    var k: nat := DEPTH + 1;
    while k > 0
      invariant SettledIn(g, records, objective, before, done, news, queued, touched, writes, DEPTH + 1)
                == SettledIn(g, records, objective, before, done, news, queued, touched, writes, k)
    {
      k := k - 1;
    }
  }

  lemma SettledStart(g: Graph, records: seq<PairRecord>, objective: Objective, before: Phase)
    requires PhaseFits(g, before) && before.records == Part(records, objective)
    ensures SettledSoFar(g, records, objective, before, {}, [], before.lowered, before.touched, [])
  {
    assert Settled(g, before.records, {}) == before.records;
    SettledIs(g, records, objective, before, {}, [], before.lowered, before.touched, []);
  }

  /** The write of one more settled pair. */
  lemma AchievingSettled(g: Graph, records: seq<PairRecord>, objective: Objective, r: Entries, done: set<nat>,
                         writes: seq<PairRecord>, p: nat, writes': seq<PairRecord>)
    requires Fits(g, r) && r == Part(records, objective) && done <= Upto(g.pairs)
    requires p < g.pairs && p !in done && records[p].pair == p
    requires Achieving(records, objective, writes, Settled(g, r, done))
    requires forall k | 0 <= k < |writes| :: writes[k].pair in done
    requires writes' == if Settle(r[p], Best(g, r, p)) != r[p]
                        then writes + [records[p].With(objective, Settle(r[p], Best(g, r, p)))] else writes
    ensures Achieving(records, objective, writes', Settled(g, r, done + {p}))
  {
    SettledGrows(g, r, done, p);
    assert p !in PairsOf(writes);
    AchievingNext(records, objective, writes, Settled(g, r, done), p, Settle(r[p], Best(g, r, p)));
  }

  lemma SettledNext(g: Graph, records: seq<PairRecord>, objective: Objective, before: Phase, done: set<nat>,
                    news: seq<nat>, queued: set<nat>, touched: set<nat>, writes: seq<PairRecord>, p: nat,
                    current: Entry, best: Entry,
                    news': seq<nat>, queued': set<nat>, writes': seq<PairRecord>)
    requires PhaseFits(g, before) && |before.records| == |records|
    requires SettledSoFar(g, records, objective, before, done, news, queued, touched, writes)
    requires p < g.pairs && p !in done && records[p].pair == p
    requires current == records[p].Part(objective) && best == Best(g, before.records, p)
    requires news' == news + (if current.distance < best.distance then [p] else [])
    requires queued' == queued + (if best.distance < current.distance then {p} else {})
    requires writes' == if Settle(current, best) != current
                        then writes + [records[p].With(objective, Settle(current, best))] else writes
    ensures SettledSoFar(g, records, objective, before, done + {p}, news', queued', touched + {p}, writes')
  {
    SettledIs(g, records, objective, before, done, news, queued, touched, writes);
    assert Listed(news') == Raised(g, before.records, done + {p}) by {
      RaisedGrows(g, before.records, done, p);
      ListedAppend(news, if current.distance < best.distance then [p] else []);
    }
    assert queued' == before.lowered + Lowered(g, before.records, done + {p}) by {
      LoweredGrows(g, before.records, done, p);
    }
    assert Achieving(records, objective, writes', Settled(g, before.records, done + {p})) by {
      AchievingSettled(g, records, objective, before.records, done, writes, p, writes');
    }
    SettledIs(g, records, objective, before, done + {p}, news', queued', touched + {p}, writes');
  }

  lemma {:induction false} InvalidateTouchesMore(g: Graph, s: Phase, wave: set<nat>)
    requires PhaseFits(g, s)
    ensures s.touched <= Invalidate(g, s, wave).touched
    decreases Upto(g.pairs) - s.invalid, wave
  {
    if wave != {} {
      var batch := Sources(g, wave) - s.invalid;
      var raised := Raised(g, s.records, batch);
      assert raised != {} ==> exists p :: p in raised && p in Upto(g.pairs) - s.invalid;
      InvalidateTouchesMore(g, SettleBatch(g, s, batch), raised);
    }
  }

  /** One round touches the sources of the wave. */
  lemma RoundTouches(g: Graph, s: Phase, wave: set<nat>)
    requires PhaseFits(g, s) && wave != {}
    ensures s.touched + (Sources(g, wave) - s.invalid) <= Invalidate(g, s, wave).touched
  {
    var batch := Sources(g, wave) - s.invalid;
    var raised := Raised(g, s.records, batch);
    assert raised != {} ==> exists p :: p in raised && p in Upto(g.pairs) - s.invalid;
    assert SettleBatch(g, s, batch).touched == s.touched + batch;
    InvalidateTouchesMore(g, SettleBatch(g, s, batch), raised);
  }

  /** The next round of phase two. */
  lemma InvalidateNext(g: Graph, s: Phase, wave: set<nat>, t: Phase, raised: set<nat>)
    requires PhaseFits(g, s) && BoundedWhileSettling(g, s, wave) && wave != {}
    requires t == SettleBatch(g, s, Sources(g, wave) - s.invalid)
    requires raised == Raised(g, s.records, Sources(g, wave) - s.invalid)
    ensures PhaseFits(g, t) && BoundedWhileSettling(g, t, raised)
    ensures Invalidate(g, s, wave) == Invalidate(g, t, raised)
    ensures t.touched <= Invalidate(g, s, wave).touched
    ensures |s.invalid| + |raised| == |t.invalid| <= g.pairs
  {
    InvalidateStepIsBounded(g, s, wave);
    InvalidateTouchesMore(g, t, raised);
    SizeInPairs(g, t.invalid);
    if raised != {} {
      var p :| p in raised;
      assert p in Upto(g.pairs) - s.invalid && p !in Upto(g.pairs) - t.invalid;
    }
  }

  lemma ListedIsEmpty(ids: seq<nat>)
    ensures |Listed(ids)| == 0 <==> |ids| == 0
  {
    if |ids| > 0 {
      assert ids[0] in Listed(ids);
    }
  }

  lemma ListedDrop(ids: seq<nat>, news: seq<nat>)
    ensures (ids + news)[|ids|..] == news
  {
  }

  // ---------- The rebuild ----------

  /** The heap holds entries of invalid pairs only, none below the pair's tentative
      distance while that is open, and the current entry of every waiting pair. */
  ghost predicate HeapCovers(items: seq<HeapEntry>, tentative: seq<nat>, invalid: set<nat>, finished: set<nat>,
                             waiting: set<nat>) {
    && (forall e | e in items ::
          && e.pair in invalid && e.pair < |tentative| && e.distance < NONE
          && (e.pair !in finished ==> tentative[e.pair] <= e.distance))
    && (forall p | p in waiting ::
          p < |tentative| && (tentative[p] < NONE ==> HeapEntry(p, tentative[p]) in items))
  }

  lemma CoversPush(items: seq<HeapEntry>, more: seq<HeapEntry>, tentative: seq<nat>, invalid: set<nat>,
                   finished: set<nat>, waiting: set<nat>, p: nat, d: nat)
    requires HeapCovers(items, tentative, invalid, finished, waiting)
    requires p in invalid && p < |tentative| && d < NONE && d <= tentative[p]
    requires multiset(more) == multiset(items) + multiset{HeapEntry(p, d)}
    ensures HeapCovers(more, tentative[p := d], invalid, finished, waiting + {p})
  {
    ItemsOf(more, items, HeapEntry(p, d));
  }

  lemma CoversPop(items: seq<HeapEntry>, rest: seq<HeapEntry>, tentative: seq<nat>, invalid: set<nat>,
                  finished: set<nat>, waiting: set<nat>, top: HeapEntry)
    requires HeapCovers(items, tentative, invalid, finished, waiting)
    requires multiset(items) == multiset(rest) + multiset{top}
    ensures top in items
    ensures HeapCovers(rest, tentative, invalid, finished, waiting - {top.pair})
    ensures top.pair !in waiting || tentative[top.pair] != top.distance ==>
              HeapCovers(rest, tentative, invalid, finished, waiting)
  {
    ItemsOf(items, rest, top);
  }

  /** After a level at distance d is written, a re-evaluation is the nearer of the
      old one and a step into the level. */
  lemma LevelStep(g: Graph, r: Entries, level: set<nat>, d: nat, p: nat, t: nat)
    requires Fits(g, r) && level <= Upto(g.pairs) && p < g.pairs && d + 1 < NONE
    requires forall q | q in level :: r[q].distance == NONE && Best(g, r, q).distance == d
    requires var s := Relaxed(g, r, level);
             Best(g, s, p).distance <= t <= Best(g, r, p).distance
    requires forall a | 0 <= a < g.actions && g.next[p][a] in level && !g.ends[p][a] :: t <= d + 1
    ensures t == Best(g, Relaxed(g, r, level), p).distance
  {
    var s := Relaxed(g, r, level);
    var e := Best(g, s, p);
    if e.distance < NONE {
      var a := e.action;
      assert Cost(g, s, p, a) == e.distance;
      if g.ends[p][a] || g.next[p][a] !in level {
        assert Cost(g, r, p, a) == Cost(g, s, p, a);
      }
    }
  }

  /** What writing the nearest pairs keeps. */
  lemma LevelEffects(g: Graph, r: Entries, todo: set<nat>)
    requires Fits(g, r) && OverEstimate(g, r) && Vacant(g, r, todo)
    requires Dense(r, 2 * g.pairs + 1) && Allocatable(g)
    ensures var s := Relaxed(g, r, Nearest(g, r, todo));
            OverEstimate(g, s) && AtMost(g, s, r) && Dense(s, 2 * g.pairs + 1) && Addable(s)
  {
    RelaxedKeepsOverEstimate(g, r, Nearest(g, r, todo));
    LevelKeepsDense(g, r, todo, 2 * g.pairs + 1);
    DenseIsAddable(g, Relaxed(g, r, Nearest(g, r, todo)));
  }

  /** One level of the rebuild, as its specification takes it. */
  lemma RebuildUnfolds(g: Graph, r: Entries, todo: set<nat>)
    requires Fits(g, r) && todo <= Upto(g.pairs)
    ensures var level := Nearest(g, r, todo);
            if level == {} then Rebuild(g, r, todo) == r && Rebuilt(g, r, todo) == {}
            else
              && Rebuild(g, r, todo) == Rebuild(g, Relaxed(g, r, level), todo - level)
              && Rebuilt(g, r, todo) == level + Rebuilt(g, Relaxed(g, r, level), todo - level)
              && |todo - level| < |todo|
  {
    var level := Nearest(g, r, todo);
    if level != {} {
      var p :| p in level;
      OneMore(todo - level, p, todo);
    }
  }

  lemma NothingWaits(g: Graph, r: Entries, waiting: set<nat>, tentative: seq<nat>, invalid: set<nat>,
                     finished: set<nat>)
    requires Fits(g, r) && waiting <= Upto(g.pairs) && |tentative| == g.pairs
    requires forall p | p in waiting :: tentative[p] == Best(g, r, p).distance
    requires HeapCovers([], tentative, invalid, finished, waiting)
    ensures Nearest(g, r, waiting) == {}
  {
    forall p | p in waiting ensures p !in Nearest(g, r, waiting) {
      assert HeapEntry(p, tentative[p]) !in [];
    }
  }

  lemma ArcInGraph(m: Automaton, objective: Objective, arc: Arc)
    requires IsArc(m, arc)
    ensures var g := PairGraphOf(m, objective);
            && arc.source < g.pairs && arc.target < g.pairs && arc.action < g.actions
            && g.next[arc.source][arc.action] == arc.target
            && g.ends[arc.source][arc.action] == (objective.Resolution? && arc.outputsDiffer)
  {
    var target, differ := Target(m, arc.source, arc.action), OutputsDiffer(m, arc.source, arc.action);
    var g := PairGraphOf(m, objective);
    assert g.next[arc.source][arc.action] == target;
  }

  /** A list of arcs into the level covers every step into it. */
  lemma ArcsCover(m: Automaton, objective: Objective, level: set<nat>, arcs: seq<Arc>, p: nat, a: nat)
    requires m.Valid() && Incoming(m, level, arcs)
    requires p < PairCount(m.states) && a < m.actions && PairGraphOf(m, objective).next[p][a] in level
    ensures exists l :: 0 <= l < |arcs| && arcs[l] == ArcOf(m, p, a)
  {
    ArcInGraph(m, objective, ArcOf(m, p, a));
    assert ArcOf(m, p, a) in arcs;
  }

  /** The pairs popped at the least distance are the nearest waiting ones. */
  lemma FrontierIsNearest(g: Graph, r: Entries, waiting: set<nat>, tentative: seq<nat>, d: nat, level: set<nat>)
    requires Fits(g, r) && waiting <= Upto(g.pairs) && |tentative| == g.pairs && d < NONE
    requires forall p | p in waiting :: tentative[p] == Best(g, r, p).distance && d <= tentative[p]
    requires forall p: nat :: p in level <==> p in waiting && tentative[p] == d
    ensures level != {} ==> level == Nearest(g, r, waiting)
  {
    if p :| p in level {
      forall q: nat ensures q in level <==> q in Nearest(g, r, waiting) {
        if q in Nearest(g, r, waiting) {
          assert NoFarther(g, r, q, p);
        }
      }
    }
  }

  /** The writes so far achieve exactly the re-evaluation of the pairs done. */
  ghost predicate RelaxedSoFar(g: Graph, records: seq<PairRecord>, objective: Objective, done: set<nat>,
                               writes: seq<PairRecord>) {
    && Fits(g, Part(records, objective)) && done <= Upto(g.pairs)
    && Achieving(records, objective, writes, Relaxed(g, Part(records, objective), done))
    && forall k | 0 <= k < |writes| :: writes[k].pair in done
  }

  lemma RelaxedStart(g: Graph, records: seq<PairRecord>, objective: Objective)
    requires Fits(g, Part(records, objective))
    ensures RelaxedSoFar(g, records, objective, {}, [])
  {
    assert Relaxed(g, Part(records, objective), {}) == Part(records, objective);
  }

  lemma RelaxedNext(g: Graph, records: seq<PairRecord>, objective: Objective, done: set<nat>,
                    writes: seq<PairRecord>, p: nat, best: Entry, writes': seq<PairRecord>)
    requires RelaxedSoFar(g, records, objective, done, writes)
    requires p < g.pairs && p !in done && records[p].pair == p
    requires best == Best(g, Part(records, objective), p)
    requires writes' == if best != records[p].Part(objective)
                        then writes + [records[p].With(objective, best)] else writes
    ensures RelaxedSoFar(g, records, objective, done + {p}, writes')
  {
    RelaxedGrows(g, Part(records, objective), done, p);
    assert p !in PairsOf(writes);
    AchievingNext(records, objective, writes, Relaxed(g, Part(records, objective), done), p, best);
  }

  lemma ItemsOf(s: seq<HeapEntry>, t: seq<HeapEntry>, x: HeapEntry)
    requires multiset(s) == multiset(t) + multiset{x}
    ensures forall e :: e in s <==> e in t || e == x
  {
    forall e ensures e in s <==> e in t || e == x {
      assert e in s <==> e in multiset(s);
      assert e in t <==> e in multiset(t);
    }
  }

  // ---------- Propagation ----------

  /** The writes achieve the re-evaluation of the pairs done, and news lists those of
      them that came nearer. */
  ghost predicate PropagatedSoFar(g: Graph, records: seq<PairRecord>, objective: Objective, before: set<nat>,
                                  done: set<nat>, news: seq<nat>, touched: set<nat>, writes: seq<PairRecord>) {
    && RelaxedSoFar(g, records, objective, done, writes)
    && touched == before + done
    && Listed(news) == Lowered(g, Part(records, objective), done)
  }

  lemma PropagatedStart(g: Graph, records: seq<PairRecord>, objective: Objective, before: set<nat>)
    requires Fits(g, Part(records, objective))
    ensures PropagatedSoFar(g, records, objective, before, {}, [], before, [])
  {
    RelaxedStart(g, records, objective);
  }

  lemma PropagatedNext(g: Graph, records: seq<PairRecord>, objective: Objective, before: set<nat>, done: set<nat>,
                       news: seq<nat>, touched: set<nat>, writes: seq<PairRecord>, p: nat, current: Entry, best: Entry,
                       news': seq<nat>, writes': seq<PairRecord>)
    requires PropagatedSoFar(g, records, objective, before, done, news, touched, writes)
    requires p < g.pairs && p !in done && records[p].pair == p
    requires current == records[p].Part(objective) && best == Best(g, Part(records, objective), p)
    requires news' == if best.distance < current.distance then news + [p] else news
    requires writes' == if best != current then writes + [records[p].With(objective, best)] else writes
    ensures PropagatedSoFar(g, records, objective, before, done + {p}, news', touched + {p}, writes')
  {
    RelaxedNext(g, records, objective, done, writes, p, best, writes');
    LoweredGrows(g, Part(records, objective), done, p);
    ListedAppend(news, [p]);
    assert Listed([p]) == {p};
  }

  /** What every turn of phase four needs and keeps. */
  ghost predicate Propagable(g: Graph, r: Entries) {
    Fits(g, r) && OverEstimate(g, r) && Dense(r, 2 * g.pairs + 1) && Allocatable(g)
  }

  /** A propagation in progress. */
  datatype Wave = Wave(r: Entries, queued: set<nat>, touched: set<nat>)

  /** Going on from either leads to the same records and the same touched pairs. */
  ghost predicate SameEnd(g: Graph, v: Wave, w: Wave) {
    && Propagable(g, v.r) && Propagable(g, w.r)
    && Propagate(g, v.r, v.queued) == Propagate(g, w.r, w.queued)
    && v.touched + PropagateTouches(g, v.r, v.queued) == w.touched + PropagateTouches(g, w.r, w.queued)
  }

  ghost function NextWave(g: Graph, v: Wave): Wave
    requires Fits(g, v.r)
  {
    var batch := Sources(g, v.queued);
    Wave(Relaxed(g, v.r, batch), Lowered(g, v.r, batch), v.touched + batch)
  }

  /** The next round of phase four. */
  lemma PropagateUnfolds(g: Graph, start: Wave, v: Wave, w: Wave)
    requires SameEnd(g, start, v) && v.queued != {} && w == NextWave(g, v)
    ensures SameEnd(g, start, w) && Addable(w.r)
    ensures v.touched + Sources(g, v.queued) <= start.touched + PropagateTouches(g, start.r, start.queued)
    ensures Total(w.r, g.pairs) <= Total(v.r, g.pairs)
    ensures w.queued != {} ==> Total(w.r, g.pairs) < Total(v.r, g.pairs)
  {
    var r, wave := v.r, v.queued;
    var batch := Sources(g, wave);
    RelaxedKeepsOverEstimate(g, r, batch);
    LoweringLowersTotal(g, r, batch);
    RelaxedKeepsDense(g, r, 2 * g.pairs + 1, batch);
    DenseIsAddable(g, Relaxed(g, r, batch));
  }
}
