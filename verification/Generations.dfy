/** What the generation of a model is worth: over all runs it tells apart any two
    committed sets of base cells, so that a monitor which compares generations detects
    every plan made for other cells. */
module Generations {
  import opened Pairs
  import opened Protocol

  /** The second row may come after the first: the generation does not fall, and it is
      larger if the base cells differ. */
  ghost predicate Follows(r: Row, s: Row) {
    r.generation <= s.generation && (r.content.base != s.content.base ==> r.generation < s.generation)
  }

  ghost predicate RowsFollow(rows: Rows, later: Rows) {
    forall x {:trigger later[x]} {:trigger rows[x]} | x in rows :: x in later && Follows(rows[x], later[x])
  }

  lemma RowsFollowOn(a: Rows, b: Rows, c: Rows)
    requires RowsFollow(a, b) && RowsFollow(b, c)
    ensures RowsFollow(a, c)
  {
    forall x | x in a ensures x in c && Follows(a[x], c[x]) {
      assert x in b && Follows(a[x], b[x]) && Follows(b[x], c[x]);
    }
  }

  /** A transaction's rows come after those it started from, the rows it has not written
      are those, and what has been committed since comes after them too. */
  ghost predicate Advances(w: World, t: Txn) {
    && RowsFollow(t.start, t.rows) && RowsFollow(t.start, w.committed)
    && forall x {:trigger t.rows[x]} | x in t.rows :: x in t.start && (x !in t.written ==> t.rows[x] == t.start[x])
  }

  ghost predicate AllAdvance(w: World) {
    forall t {:trigger w.open[t]} | t in w.open :: t < w.begun && Advances(w, w.open[t])
  }

  /** Nothing has happened between the two worlds but steps forward: what is committed
      comes after what was, and so do the rows of each transaction, or what was committed
      if it began later. */
  ghost predicate Since(w: World, v: World) {
    && w.begun <= v.begun && RowsFollow(w.committed, v.committed)
    && forall t {:trigger v.open[t]} | t in v.open ::
         if t < w.begun then t in w.open && RowsFollow(w.open[t].rows, v.open[t].rows)
         else RowsFollow(w.committed, v.open[t].rows)
  }

  // ---------- One step ----------

  /** A step that only writes one row of one transaction. */
  lemma WriteAdvances(w: World, v: World, txn: nat, model: nat, r: Row)
    requires AllAdvance(w) && Sees(w, txn, model) && Follows(View(w, txn, model), r)
    requires v.committed == w.committed && v.begun == w.begun && v.open == Written(w, txn, model, r).open
    ensures AllAdvance(v) && Since(w, v)
  {
    var t, u := w.open[txn], v.open[txn];
    assert Advances(w, t);
    assert RowsFollow(t.rows, u.rows);
    RowsFollowOn(t.start, t.rows, u.rows);
    forall o | o in v.open ensures o < v.begun && Advances(v, v.open[o]) {
      assert o in w.open && Advances(w, w.open[o]);
    }
    forall o | o in v.open ensures o in w.open && RowsFollow(w.open[o].rows, v.open[o].rows) {
    }
  }

  /** A step that leaves rows alone and opens nothing. */
  lemma QuietAdvances(w: World, v: World)
    requires AllAdvance(w) && v.committed == w.committed && v.begun == w.begun
    requires forall o {:trigger v.open[o]} | o in v.open :: o in w.open && v.open[o] == w.open[o]
    ensures AllAdvance(v) && Since(w, v)
  {
    forall o | o in v.open ensures o < v.begun && Advances(v, v.open[o]) {
      assert Advances(w, w.open[o]);
    }
  }

  lemma BeginAdvances(w: World, v: World)
    requires AllAdvance(w) && v.committed == w.committed && v.begun == w.begun + 1
    requires v.open == w.open[w.begun := Txn(w.committed, w.committed, {})]
    ensures AllAdvance(v) && Since(w, v)
  {
    forall o | o in v.open ensures o < v.begun && Advances(v, v.open[o]) {
      if o != w.begun {
        assert Advances(w, w.open[o]);
      }
    }
  }

  /** What a commit publishes comes after everything that its transaction saw. */
  lemma CommitFollows(w: World, txn: nat)
    requires AllAdvance(w) && Can(w, Commit(txn))
    ensures RowsFollow(w.committed, Merged(w.committed, w.open[txn]))
    ensures RowsFollow(w.open[txn].rows, Merged(w.committed, w.open[txn]))
  {
    var t, later := w.open[txn], Merged(w.committed, w.open[txn]);
    assert Advances(w, t);
    forall x | x in w.committed ensures x in later && Follows(w.committed[x], later[x]) {
      if x in t.written && x in t.rows {
        assert KeepsRow(w, txn, x);
        assert Follows(t.start[x], t.rows[x]);
      }
    }
    forall x | x in t.rows ensures x in later && Follows(t.rows[x], later[x]) {
      if x !in t.written {
        assert t.rows[x] == t.start[x] && Follows(t.start[x], w.committed[x]);
      }
    }
  }

  lemma CommitAdvances(w: World, v: World, txn: nat)
    requires AllAdvance(w) && Can(w, Commit(txn)) && v.begun == w.begun
    requires v.committed == Merged(w.committed, w.open[txn])
    requires forall o {:trigger v.open[o]} | o in v.open :: o in w.open && v.open[o] == w.open[o]
    ensures AllAdvance(v) && Since(w, v)
  {
    CommitFollows(w, txn);
    forall o | o in v.open ensures o < v.begun && Advances(v, v.open[o]) {
      assert Advances(w, w.open[o]);
      RowsFollowOn(w.open[o].start, w.committed, v.committed);
    }
  }

  lemma EditAdvances(w: World, e: Event, maximum: nat)
    requires AllAdvance(w) && e.Edit? && Can(w, e)
    ensures AllAdvance(Do(w, e, maximum)) && Since(w, Do(w, e, maximum))
  {
    var r := View(w, e.txn, e.model);
    WriteAdvances(w, Do(w, e, maximum), e.txn, e.model,
                  r.(generation := r.generation + 1, dirty := true, content := r.content.(base := e.base)));
  }

  lemma PrepareAdvances(w: World, e: Event, maximum: nat)
    requires AllAdvance(w) && e.Prepare? && Can(w, e)
    ensures AllAdvance(Do(w, e, maximum)) && Since(w, Do(w, e, maximum))
  {
    WriteAdvances(w, Do(w, e, maximum), e.txn, e.model, PreparedRow(w, View(w, e.txn, e.model), e.records));
  }

  lemma UpdateAdvances(w: World, e: Event, maximum: nat)
    requires AllAdvance(w) && e.Update? && Can(w, e)
    ensures AllAdvance(Do(w, e, maximum)) && Since(w, Do(w, e, maximum))
  {
    StagedMint(w, e, maximum);
    StagedRows(w, e, maximum);
    WriteAdvances(w, Do(w, e, maximum), e.txn, e.model,
                  UpdatedRow(w, View(w, e.txn, e.model), e.changes, e.records, e.pairs));
  }

  lemma FailedUpdateAdvances(w: World, e: Event, maximum: nat)
    requires AllAdvance(w) && e.UpdateFails? && Can(w, e)
    ensures AllAdvance(Do(w, e, maximum)) && Since(w, Do(w, e, maximum))
  {
    StagedMint(w, e, maximum);
    StagedRows(w, e, maximum);
    QuietAdvances(w, Do(w, e, maximum));
  }

  lemma OtherAdvances(w: World, e: Event, maximum: nat)
    requires AllAdvance(w) && (e.Load? || e.PrepareFails? || e.Abort? || e.Restart?) && Can(w, e)
    ensures AllAdvance(Do(w, e, maximum)) && Since(w, Do(w, e, maximum))
  {
    QuietAdvances(w, Do(w, e, maximum));
  }

  lemma StepAdvances(w: World, e: Event, maximum: nat)
    requires AllAdvance(w) && Can(w, e)
    ensures AllAdvance(Do(w, e, maximum)) && Since(w, Do(w, e, maximum))
  {
    match e
    case Begin => BeginAdvances(w, Do(w, e, maximum));
    case Edit(_, _, _) => EditAdvances(w, e, maximum);
    case Prepare(_, _, _, _) => PrepareAdvances(w, e, maximum);
    case Update(_, _, _, _, _, _, _) => UpdateAdvances(w, e, maximum);
    case UpdateFails(_, _, _, _, _, _, _) => FailedUpdateAdvances(w, e, maximum);
    case Commit(txn) => CommitAdvances(w, Do(w, e, maximum), txn);
    case _ => OtherAdvances(w, e, maximum);
  }

  lemma StagedRows(w: World, e: Event, maximum: nat)
    requires (e.Update? || e.UpdateFails?) && Can(w, e)
    ensures Staged(w, e, maximum).committed == w.committed && Staged(w, e, maximum).begun == w.begun
  {
  }

  // ---------- Runs ----------

  lemma SinceNext(w: World, u: World, v: World)
    requires Since(w, u) && Since(u, v)
    ensures Since(w, v)
  {
    RowsFollowOn(w.committed, u.committed, v.committed);
    forall t | t in v.open
      ensures if t < w.begun then t in w.open && RowsFollow(w.open[t].rows, v.open[t].rows)
              else RowsFollow(w.committed, v.open[t].rows)
    {
      if t < w.begun {
        assert t in u.open && RowsFollow(u.open[t].rows, v.open[t].rows);
        RowsFollowOn(w.open[t].rows, u.open[t].rows, v.open[t].rows);
      } else if t < u.begun {
        assert t in u.open && RowsFollow(u.open[t].rows, v.open[t].rows);
        RowsFollowOn(w.committed, u.open[t].rows, v.open[t].rows);
      } else {
        RowsFollowOn(w.committed, u.committed, v.open[t].rows);
      }
    }
  }

  lemma SinceItself(w: World)
    requires AllAdvance(w)
    ensures Since(w, w)
  {
  }

  lemma {:induction false} RunAdvances(w: World, events: seq<Event>, v: World, maximum: nat)
    requires AllAdvance(w) && Reaches(w, events, v, maximum)
    ensures AllAdvance(v) && Since(w, v)
    decreases |events|
  {
    if events == [] {
      SinceItself(w);
    } else {
      var e := events[|events| - 1];
      var u :| Reaches(w, events[..|events| - 1], u, maximum) && Can(u, e) && v == Do(u, e, maximum);
      RunAdvances(w, events[..|events| - 1], u, maximum);
      StepAdvances(u, e, maximum);
      SinceNext(w, u, v);
    }
  }

  /** Over all runs, from one committed row of a model to any later one: the generation
      never falls, and it is strictly larger if the base cells differ.  So two committed
      rows of the same generation have the same cells. */
  lemma GenerationsAdvance(start: World, events: seq<Event>, w: World, more: seq<Event>, v: World, maximum: nat,
                           model: nat)
    requires Initial(start) && Reaches(start, events, w, maximum) && Reaches(w, more, v, maximum)
    requires model in w.committed
    ensures model in v.committed
    ensures w.committed[model].generation <= v.committed[model].generation
    ensures w.committed[model].content.base != v.committed[model].content.base ==>
              w.committed[model].generation < v.committed[model].generation
  {
    RunAdvances(start, events, w, maximum);
    RunAdvances(w, more, v, maximum);
    assert Follows(w.committed[model], v.committed[model]);
  }

  /** Within a transaction the same holds from one call to any later one. */
  lemma GenerationsAdvanceWithin(start: World, events: seq<Event>, w: World, more: seq<Event>, v: World,
                                 maximum: nat, txn: nat, model: nat)
    requires Initial(start) && Reaches(start, events, w, maximum) && Reaches(w, more, v, maximum)
    requires Sees(w, txn, model) && txn in v.open
    ensures Sees(v, txn, model) && View(w, txn, model).generation <= View(v, txn, model).generation
    ensures View(w, txn, model).content.base != View(v, txn, model).content.base ==>
              View(w, txn, model).generation < View(v, txn, model).generation
  {
    RunAdvances(start, events, w, maximum);
    RunAdvances(w, more, v, maximum);
    assert txn < w.begun && Follows(w.open[txn].rows[model], v.open[txn].rows[model]);
  }

  // ---------- Plans ----------

  /** A plan made in a transaction that goes on to commit is for cells of its own: in any
      later committed row of its generation the cells are those it was made for, and in
      any other the monitors find another generation. */
  lemma CommittedPlanIsDetected(start: World, events: seq<Event>, w: World, more: seq<Event>, u: World,
                                rest: seq<Event>, v: World, maximum: nat, txn: nat, model: nat)
    requires Initial(start) && Reaches(start, events, w, maximum) && Sees(w, txn, model)
    requires Reaches(w, more, u, maximum) && Can(u, Commit(txn))
    requires Reaches(Do(u, Commit(txn), maximum), rest, v, maximum)
    ensures model in v.committed && View(w, txn, model).generation <= v.committed[model].generation
    ensures View(w, txn, model).content.base != v.committed[model].content.base ==>
              View(w, txn, model).generation < v.committed[model].generation
  {
    var c := Do(u, Commit(txn), maximum);
    RunAdvances(start, events, w, maximum);
    RunAdvances(w, more, u, maximum);
    CommitFollows(u, txn);
    StepAdvances(u, Commit(txn), maximum);
    RunAdvances(c, rest, v, maximum);
    RowsFollowOn(u.open[txn].rows, c.committed, v.committed);
    RowsFollowOn(w.open[txn].rows, u.open[txn].rows, v.committed);
    assert Follows(w.open[txn].rows[model], v.committed[model]);
  }

  /** So is a plan for a model that its transaction has not written, whatever becomes of
      the transaction. */
  lemma ReadersPlanIsDetected(start: World, events: seq<Event>, w: World, more: seq<Event>, v: World, maximum: nat,
                              txn: nat, model: nat)
    requires Initial(start) && Reaches(start, events, w, maximum) && Reaches(w, more, v, maximum)
    requires Sees(w, txn, model) && model !in w.open[txn].written
    ensures model in v.committed && View(w, txn, model).generation <= v.committed[model].generation
    ensures View(w, txn, model).content.base != v.committed[model].content.base ==>
              View(w, txn, model).generation < v.committed[model].generation
  {
    RunAdvances(start, events, w, maximum);
    RunAdvances(w, more, v, maximum);
    assert Advances(w, w.open[txn]);
    assert w.open[txn].rows[model] == w.open[txn].start[model];
    RowsFollowOn(w.open[txn].start, w.committed, v.committed);
    assert Follows(w.open[txn].start[model], v.committed[model]);
  }

  /** A monitor runs in a transaction.  If that began after the plan's cells were
      committed, it sees them or a larger generation. */
  lemma MonitorDetects(start: World, events: seq<Event>, w: World, more: seq<Event>, v: World, maximum: nat,
                       txn: nat, model: nat)
    requires Initial(start) && Reaches(start, events, w, maximum) && Reaches(w, more, v, maximum)
    requires model in w.committed && txn in v.open && txn >= w.begun
    ensures Sees(v, txn, model) && w.committed[model].generation <= View(v, txn, model).generation
    ensures w.committed[model].content.base != View(v, txn, model).content.base ==>
              w.committed[model].generation < View(v, txn, model).generation
  {
    RunAdvances(start, events, w, maximum);
    RunAdvances(w, more, v, maximum);
    assert Follows(w.committed[model], v.open[txn].rows[model]);
  }

  // ---------- Plans of transactions that abort ----------

  /** The three calls of a transaction that edits one model and ends in the given way. */
  ghost function EditAnd(w: World, model: nat, base: Automaton, end: Event): seq<Event> {
    [Begin] + [Edit(w.begun, model, base)] + [end]
  }

  lemma ReachesNext(w: World, events: seq<Event>, u: World, e: Event, maximum: nat)
    requires Reaches(w, events, u, maximum) && Can(u, e)
    ensures Reaches(w, events + [e], Do(u, e, maximum), maximum)
  {
    var all := events + [e];
    assert all[..|all| - 1] == events && all[|all| - 1] == e;
    assert Reaches(w, all[..|all| - 1], u, maximum) && Can(u, all[|all| - 1]);
  }

  lemma OneStep(w: World, e: Event, maximum: nat)
    requires Can(w, e)
    ensures Reaches(w, [e], Do(w, e, maximum), maximum)
  {
    ReachesNext(w, [], w, e, maximum);
    assert [] + [e] == [e];
  }

  lemma LastStep(w: World, events: seq<Event>, v: World, maximum: nat) returns (u: World)
    requires Reaches(w, events, v, maximum) && events != []
    ensures Reaches(w, events[..|events| - 1], u, maximum) && Can(u, events[|events| - 1])
    ensures v == Do(u, events[|events| - 1], maximum)
  {
    var e := events[|events| - 1];
    u :| Reaches(w, events[..|events| - 1], u, maximum) && Can(u, e) && v == Do(u, e, maximum);
  }

  lemma {:induction false} ReachesOn(w: World, events: seq<Event>, u: World, more: seq<Event>, v: World, maximum: nat)
    requires Reaches(w, events, u, maximum) && Reaches(u, more, v, maximum)
    ensures Reaches(w, events + more, v, maximum)
    decreases |more|
  {
    if more == [] {
      assert events + more == events;
    } else {
      var n := |more| - 1;
      var x := LastStep(u, more, v, maximum);
      ReachesOn(w, events, u, more[..n], x, maximum);
      ReachesNext(w, events + more[..n], x, more[n], maximum);
      assert events + more == events + more[..n] + [more[n]];
    }
  }

  lemma ReachesThree(w: World, a: World, b: World, c: World, first: Event, second: Event, third: Event, maximum: nat)
    requires Reaches(w, [first], a, maximum) && Reaches(a, [second], b, maximum) && Reaches(b, [third], c, maximum)
    ensures Reaches(w, [first] + [second], b, maximum) && Reaches(w, [first] + [second] + [third], c, maximum)
  {
    ReachesOn(w, [first], a, [second], b, maximum);
    ReachesOn(w, [first] + [second], b, [third], c, maximum);
  }

  /** A transaction that edits a model sees the new cells under the next generation. */
  lemma EditIsSeen(w: World, maximum: nat, model: nat, base: Automaton) returns (a: World, u: World)
    requires model in w.committed
    ensures Reaches(w, [Begin], a, maximum) && Reaches(a, [Edit(w.begun, model, base)], u, maximum)
    ensures u == w.(begun := w.begun + 1, open := u.open) && Sees(u, w.begun, model)
    ensures u.open[w.begun].start == w.committed && u.open[w.begun].written == {model}
    ensures View(u, w.begun, model).content.base == base
    ensures View(u, w.begun, model).generation == w.committed[model].generation + 1
    ensures forall t | t in u.open && t != w.begun :: t in w.open && u.open[t] == w.open[t]
  {
    a := Do(w, Begin, maximum);
    u := Do(a, Edit(w.begun, model, base), maximum);
    OneStep(w, Begin, maximum);
    OneStep(a, Edit(w.begun, model, base), maximum);
  }

  lemma CommitPublishes(w: World, maximum: nat, txn: nat, model: nat)
    requires txn in w.open && model in w.open[txn].rows && w.open[txn].written == {model} && KeepsRow(w, txn, model)
    ensures Can(w, Commit(txn)) && model in Do(w, Commit(txn), maximum).committed
    ensures Do(w, Commit(txn), maximum).committed[model] == w.open[txn].rows[model]
  {
  }

  lemma AbortLeavesRows(w: World, maximum: nat, txn: nat)
    requires txn in w.open
    ensures Can(w, Abort(txn))
    ensures Do(w, Abort(txn), maximum).committed == w.committed && Do(w, Abort(txn), maximum).begun == w.begun
  {
  }

  lemma EditAndAbort(w: World, maximum: nat, model: nat, base: Automaton) returns (u: World, b: World)
    requires model in w.committed
    ensures Reaches(w, [Begin] + [Edit(w.begun, model, base)], u, maximum) && Sees(u, w.begun, model)
    ensures Reaches(w, EditAnd(w, model, base, Abort(w.begun)), b, maximum)
    ensures b.committed == w.committed && b.begun == w.begun + 1
    ensures View(u, w.begun, model).content.base == base
    ensures View(u, w.begun, model).generation == w.committed[model].generation + 1
  {
    var a;
    a, u := EditIsSeen(w, maximum, model, base);
    AbortLeavesRows(u, maximum, w.begun);
    b := Do(u, Abort(w.begun), maximum);
    OneStep(u, Abort(w.begun), maximum);
    ReachesThree(w, a, u, b, Begin, Edit(w.begun, model, base), Abort(w.begun), maximum);
  }

  lemma EditAndCommit(w: World, maximum: nat, model: nat, base: Automaton) returns (v: World)
    requires model in w.committed
    ensures Reaches(w, EditAnd(w, model, base, Commit(w.begun)), v, maximum) && model in v.committed
    ensures v.committed[model].content.base == base
    ensures v.committed[model].generation == w.committed[model].generation + 1
  {
    var a, u := EditIsSeen(w, maximum, model, base);
    assert KeepsRow(u, w.begun, model);
    CommitPublishes(u, maximum, w.begun, model);
    v := Do(u, Commit(w.begun), maximum);
    OneStep(u, Commit(w.begun), maximum);
    ReachesThree(w, a, u, v, Begin, Edit(w.begun, model, base), Commit(w.begun), maximum);
  }

  /** What an aborted transaction saw is not covered: the generation it gave its cells is
      given to other cells next.  From any world, for any committed model and any two sets
      of cells, a plan made for the first ones in a transaction that aborts has the
      generation of the second ones, once these are committed. */
  lemma AbortedGenerationIsReused(w: World, maximum: nat, model: nat, base: Automaton, other: Automaton)
    returns (u: World, b: World, v: World)
    requires model in w.committed
    ensures b.begun == w.begun + 1
    ensures Reaches(w, [Begin] + [Edit(w.begun, model, base)], u, maximum) && Sees(u, w.begun, model)
    ensures Reaches(w, EditAnd(w, model, base, Abort(w.begun)) + EditAnd(b, model, other, Commit(b.begun)), v, maximum)
    ensures View(u, w.begun, model).content.base == base
    ensures model in v.committed && v.committed[model].content.base == other
    ensures View(u, w.begun, model).generation == v.committed[model].generation == w.committed[model].generation + 1
  {
    u, b := EditAndAbort(w, maximum, model, base);
    v := EditAndCommit(b, maximum, model, other);
    ReachesOn(w, EditAnd(w, model, base, Abort(w.begun)), b, EditAnd(b, model, other, Commit(b.begun)), v, maximum);
  }
}
