/** What one call leaves for the calls after it. */
module Calls {
  import opened Changes
  import opened Cache
  import opened Protocol

  /** The last entry put into the cache is found if it fits at all. */
  lemma CachedIsHit(w: World, key: Key, content: Content, bytes: nat, maximum: nat)
    requires 0 < maximum && bytes <= maximum
    ensures Hit(Cached(w, key, content, bytes, maximum), key)
  {
    StoredIsFound(w.cache, Item(key, bytes, |w.snapshots|), maximum);
  }

  /** A transaction that sees the given row, prepared, will load what it holds; from the
      cache, if its snapshot fits. */
  ghost predicate Ready(w: World, txn: nat, model: nat, r: Row, fits: bool) {
    && Sees(w, txn, model) && View(w, txn, model) == r && IsPrepared(r)
    && Loaded(w, txn, model) == Just(r.content)
    && (fits ==> Hit(w, KeyOf(model, r)))
  }

  /** Preparing a model keeps its generation and its cells, and gives it an epoch and a
      token of its own; what it prepared is loaded next, from the cache if it fits. */
  lemma PrepareThenLoad(w: World, e: Event, maximum: nat)
    requires Inv(w) && e.Prepare? && Can(w, e)
    ensures var v, r := Do(w, e, maximum), View(w, e.txn, e.model);
            && Sees(v, e.txn, e.model)
            && var s := View(v, e.txn, e.model);
            && Ready(v, e.txn, e.model, s, 0 < maximum && e.bytes <= maximum)
            && s.generation == r.generation && s.epoch == r.epoch + 1 && s.token == Just(Fresh(w))
            && s.content == Content(r.content.base, e.records)
  {
    var v, r := Do(w, e, maximum), PreparedRow(w, View(w, e.txn, e.model), e.records);
    StepKeeps(w, e, maximum);
    LoadedIsRow(v, e.txn, e.model);
    if 0 < maximum && e.bytes <= maximum {
      CachedIsHit(Minted(Written(w, e.txn, e.model, r), Mint(e.model, r.epoch, r.generation, r.content, e.txn)),
                  KeyOf(e.model, r), r.content, e.bytes, maximum);
    }
  }

  /** An update advances the generation, in the same epoch and with a token of its own;
      its cells are those seen before with the changes made, and it is ready to be loaded
      without another preparation. */
  lemma UpdateThenLoad(w: World, e: Event, maximum: nat)
    requires Inv(w) && e.Update? && Can(w, e)
    ensures var v, r := Do(w, e, maximum), View(w, e.txn, e.model);
            && Sees(v, e.txn, e.model)
            && var s := View(v, e.txn, e.model);
            && Ready(v, e.txn, e.model, s, 0 < maximum && e.bytes <= maximum)
            && s.generation == r.generation + 1 && s.epoch == r.epoch && s.token == Just(Fresh(w))
            && AllFit(r.content.base, e.changes)
            && s.content == Content(Applied(r.content.base, e.changes), e.records)
  {
    var v, r := Do(w, e, maximum), UpdatedRow(w, View(w, e.txn, e.model), e.changes, e.records, e.pairs);
    UpdateIsSeen(w, e, maximum);
    StepKeeps(w, e, maximum);
    LoadedIsRow(v, e.txn, e.model);
    LoadedIsRow(w, e.txn, e.model);
    WrittenIsCandidate(w, e);
  }

  /** What the transaction sees after the update, and that the cache has its snapshot. */
  lemma UpdateIsSeen(w: World, e: Event, maximum: nat)
    requires e.Update? && Can(w, e)
    ensures var v, r := Do(w, e, maximum), UpdatedRow(w, View(w, e.txn, e.model), e.changes, e.records, e.pairs);
            && Sees(v, e.txn, e.model) && View(v, e.txn, e.model) == r
            && (0 < maximum && e.bytes <= maximum ==> Hit(v, KeyOf(e.model, r)))
  {
    StagedMint(w, e, maximum);
    if 0 < maximum && e.bytes <= maximum {
      var u := AfterLoad(w, e.txn, e.model, e.loadBytes, maximum);
      var key := Key(e.model, Candidate(w, e).epoch, Candidate(w, e).generation, Fresh(u));
      CachedIsHit(Minted(u, Candidate(w, e)), key, Candidate(w, e).content, e.bytes, maximum);
    }
  }

  /** An edit gives its cells a generation of their own and leaves the model unprepared,
      so that nothing is loaded for it until it is prepared again. */
  lemma EditUnprepares(w: World, e: Event, maximum: nat)
    requires e.Edit? && Can(w, e)
    ensures var v, r := Do(w, e, maximum), View(w, e.txn, e.model);
            && Sees(v, e.txn, e.model) && !IsPrepared(View(v, e.txn, e.model))
            && View(v, e.txn, e.model).generation == r.generation + 1
            && View(v, e.txn, e.model).content.base == e.base
  {
  }

  /** A snapshot that had to be hydrated is in the cache afterwards, if it fits; loading
      changes no row. */
  lemma LoadThenHit(w: World, e: Event, maximum: nat)
    requires Inv(w) && e.Load? && Can(w, e)
    ensures var v := Do(w, e, maximum);
            && v.open == w.open && v.committed == w.committed
            && Ready(v, e.txn, e.model, View(w, e.txn, e.model),
                     Hit(w, KeyOf(e.model, View(w, e.txn, e.model))) || (0 < maximum && e.bytes <= maximum))
  {
    var v, r := Do(w, e, maximum), View(w, e.txn, e.model);
    LoadedIsRow(w, e.txn, e.model);
    LoadKeeps(w, e.txn, e.model, e.bytes, maximum);
    assert v.open == w.open;
    LoadedIsRow(v, e.txn, e.model);
    var key := KeyOf(e.model, r);
    if Hit(w, key) {
      TouchedIsHit(w.cache, key);
    } else if 0 < maximum && e.bytes <= maximum {
      RowIsGood(w, e.txn, e.model);
      CachedIsHit(w, key, r.content, e.bytes, maximum);
    }
  }

  lemma TouchedIsHit(items: seq<Item>, key: Key)
    requires Position(items, key) < |items|
    ensures Position(Touched(items, key), key) < |Touched(items, key)|
  {
    assert Touched(items, key)[0].key == key;
  }

  /** The transaction in which the event happens, if it is a call in one. */
  ghost predicate IsIn(e: Event, txn: nat) {
    match e
    case Begin => false
    case Restart(_) => false
    case _ => e.txn == txn
  }

  /** Calls are isolated: only a commit changes what is committed, and it publishes the
      rows that its transaction has written and no others; and no call changes what
      another open transaction sees.  A restart ends them all. */
  lemma CallsAreIsolated(w: World, e: Event, maximum: nat)
    requires Can(w, e)
    ensures !e.Commit? ==> Do(w, e, maximum).committed == w.committed
    ensures e.Commit? ==>
              && Do(w, e, maximum).committed.Keys
                 == w.committed.Keys + (w.open[e.txn].written * w.open[e.txn].rows.Keys)
              && forall x {:trigger Do(w, e, maximum).committed[x]} | x in Do(w, e, maximum).committed ::
                   if x in w.open[e.txn].written && x in w.open[e.txn].rows
                   then Do(w, e, maximum).committed[x] == w.open[e.txn].rows[x]
                   else x in w.committed && Do(w, e, maximum).committed[x] == w.committed[x]
    ensures !e.Restart? ==> forall t | t in w.open && !IsIn(e, t) && t < w.begun ::
              t in Do(w, e, maximum).open && Do(w, e, maximum).open[t] == w.open[t]
    ensures e.Restart? ==> Do(w, e, maximum).open == map[] && Do(w, e, maximum).cache == []
    ensures e.Begin? ==>
              w.begun in Do(w, e, maximum).open && Do(w, e, maximum).open[w.begun].rows == w.committed
    ensures e.Commit? || e.Abort? || e.PrepareFails? || e.UpdateFails? ==> e.txn !in Do(w, e, maximum).open
  {
    if e.Update? || e.UpdateFails? {
      StagedMint(w, e, maximum);
      StagedCommits(w, e, maximum);
    }
  }

  lemma StagedCommits(w: World, e: Event, maximum: nat)
    requires (e.Update? || e.UpdateFails?) && Can(w, e)
    ensures Staged(w, e, maximum).committed == w.committed
  {
  }
}
