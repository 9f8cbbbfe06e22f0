/** Generations, tokens and the cache, over all runs: transactions that see their own
    copy of the database and commit or vanish, entries staged before the commit,
    evictions, and restarts of the process. */
module Protocol {
  import opened Records
  import opened Pairs
  import opened Snapshot
  import opened Changes
  import opened Cache
  import opened Restore

  // ---------- The database and the process ----------

  /** The number of the process start, and a counter within it. */
  type Token = (nat, nat)

  datatype Maybe<T> = Nothing | Just(value: T)

  /** What a snapshot holds. */
  datatype Content = Content(base: Automaton, records: seq<PairRecord>)

  /** What the database holds for one model: the metadata, the base cells and the
      stored pair records. */
  datatype Row = Row(generation: nat, epoch: nat, dirty: bool, prepared: Maybe<nat>, token: Maybe<Token>,
      content: Content)

  /** The test of load_metadata. */
  ghost predicate IsPrepared(r: Row) { !r.dirty && r.epoch > 0 && r.prepared == Just(r.generation) && r.token.Just? }

  type Rows = map<nat, Row>

  /** A transaction: the database as it was when it began, its own copy, and the models
      it has written. */
  datatype Txn = Txn(start: Rows, rows: Rows, written: set<nat>)

  /** What a token was minted for, and by which transaction. */
  datatype Mint = Mint(model: nat, epoch: nat, generation: nat, content: Content, txn: nat)

  /** The last three fields are the history that the theorems speak of: what tokens were
      minted for, which of them were ever committed, and all starts of the process. */
  datatype World = World(committed: Rows, open: map<nat, Txn>, begun: nat,
                         cache: seq<Item>, snapshots: seq<Content>, incarnation: nat, counter: nat,
                         minted: map<Token, Mint>, published: set<Token>, incarnations: set<nat>)

  // ---------- Steps ----------

  /** What one call of a procedure may do, or the database or the process. */
  datatype Event =
    | Begin
    | Edit(txn: nat, model: nat, base: Automaton)
    | Load(txn: nat, model: nat, bytes: nat)
    | Prepare(txn: nat, model: nat, records: seq<PairRecord>, bytes: nat)
    | PrepareFails(txn: nat)
    | Update(txn: nat, model: nat, changes: seq<Change>, records: seq<PairRecord>, pairs: seq<nat>, loadBytes: nat,
        bytes: nat)
    | UpdateFails(txn: nat, model: nat, changes: seq<Change>, records: seq<PairRecord>, pairs: seq<nat>,
        loadBytes: nat, bytes: nat)
    | Commit(txn: nat)
    | Abort(txn: nat)
    | Restart(incarnation: nat)

  ghost predicate Sees(w: World, txn: nat, model: nat) { txn in w.open && model in w.open[txn].rows }

  ghost function View(w: World, txn: nat, model: nat): Row
    requires Sees(w, txn, model)
  {
    w.open[txn].rows[model]
  }

  ghost function KeyOf(model: nat, r: Row): Key
    requires r.token.Just?
  {
    Key(model, r.epoch, r.generation, r.token.value)
  }

  ghost predicate Hit(w: World, key: Key) { Position(w.cache, key) < |w.cache| }

  /** hydrate_snapshot: restore the stored cells and records, which may refuse them. */
  ghost function Hydrated(c: Content): Maybe<Content> { HydratedIn(c, DEPTH + 1) }

  /** The definition is some steps away, so that only HydratedIs unfolds it. */
  ghost function HydratedIn(c: Content, steps: nat): Maybe<Content>
    decreases steps
  {
    if steps > 0 then HydratedIn(c, steps - 1)
    else if Acceptable(c.base, c.records) then Just(Content(c.base, Restored(c.records))) else Nothing
  }

  lemma HydratedIs(c: Content)
    ensures Hydrated(c) == if Acceptable(c.base, c.records) then Just(Content(c.base, Restored(c.records))) else Nothing
  {
    var k: nat := DEPTH + 1;
    while k > 0
      invariant HydratedIn(c, DEPTH + 1) == HydratedIn(c, k)
    {
      k := k - 1;
    }
  }

  /** Hydration accepts the content and gives it back. */
  ghost predicate CanRestore(c: Content) { Hydrated(c) == Just(c) }

  /** It does if restoring does: so for what a build or a repair leaves. */
  lemma RestorableIsHydrated(base: Automaton, records: seq<PairRecord>)
    ensures CanRestore(Content(base, records)) <==> Restorable(base, records)
  {
    HydratedIs(Content(base, records));
  }

  /** The content that load_prepared_snapshot returns: the cached snapshot of the key, or
      one hydrated from the stored cells and records; nothing if those are refused. */
  ghost function Loaded(w: World, txn: nat, model: nat): Maybe<Content>
    requires Sees(w, txn, model) && IsPrepared(View(w, txn, model))
  {
    var r := View(w, txn, model);
    var key := KeyOf(model, r);
    if Hit(w, key) && w.cache[Position(w.cache, key)].snapshot < |w.snapshots|
    then Just(w.snapshots[w.cache[Position(w.cache, key)].snapshot])
    else Hydrated(r.content)
  }

  /** Put a new snapshot into the cache. */
  ghost function Cached(w: World, key: Key, content: Content, bytes: nat, maximum: nat): World {
    w.(cache := Inserted(w.cache, Item(key, bytes, |w.snapshots|), maximum), snapshots := w.snapshots + [content])
  }

  /** load_prepared_snapshot */
  ghost function AfterLoad(w: World, txn: nat, model: nat, bytes: nat, maximum: nat): World
    requires Sees(w, txn, model) && IsPrepared(View(w, txn, model))
  {
    var r := View(w, txn, model);
    if Hit(w, KeyOf(model, r)) then w.(cache := Touched(w.cache, KeyOf(model, r)))
    else if Hydrated(r.content).Just? then Cached(w, KeyOf(model, r), Hydrated(r.content).value, bytes, maximum)
    else w
  }

  /** Change one row of a transaction's copy. */
  ghost function Written(w: World, txn: nat, model: nat, r: Row): World
    requires txn in w.open
  {
    var t := w.open[txn];
    w.(open := w.open[txn := t.(rows := t.rows[model := r], written := t.written + {model})])
  }

  ghost function Closed(w: World, txn: nat): World { w.(open := map t | t in w.open && t != txn :: w.open[t]) }

  /** make_snapshot_token */
  ghost function Fresh(w: World): Token { (w.incarnation, w.counter) }

  ghost function Minted(w: World, mint: Mint): World {
    w.(counter := w.counter + 1, minted := w.minted[Fresh(w) := mint])
  }

  /** The row after prepare_model: a new epoch, and records of a full build. */
  ghost function PreparedRow(w: World, r: Row, records: seq<PairRecord>): Row {
    Row(r.generation, r.epoch + 1, false, Just(r.generation), Just(Fresh(w)), Content(r.content.base, records))
  }

  /** Writing the changed cells; a change that names no cell matches nothing. */
  ghost function Cells(base: Automaton, changes: seq<Change>): Automaton {
    if AllFit(base, changes) then Applied(base, changes) else base
  }

  /** Writing the records of the listed pairs. */
  ghost function Overwritten(records: seq<PairRecord>, news: seq<PairRecord>, pairs: seq<nat>): seq<PairRecord> {
    if |records| == |news| then Persisted(records, news, pairs) else records
  }

  /** The row after update_cells: the next generation, cells and records overwritten. */
  ghost function UpdatedRow(w: World, r: Row, changes: seq<Change>, records: seq<PairRecord>, pairs: seq<nat>): Row {
    Row(r.generation + 1, r.epoch, false, Just(r.generation + 1), Just(Fresh(w)),
        Content(Cells(r.content.base, changes), Overwritten(r.content.records, records, pairs)))
  }

  /** What update_cells starts from: changes that change something, a snapshot it can
      load, and a complete list of changed pairs.  The records of its candidate, like
      those of a full build, can be restored: this is what Restore.TruthfulRestores and
      CellUpdate.UpdateCells say of them. */
  ghost predicate Updatable(w: World, txn: nat, model: nat, changes: seq<Change>, records: seq<PairRecord>,
                            pairs: seq<nat>) {
    && Sees(w, txn, model) && IsPrepared(View(w, txn, model)) && Loaded(w, txn, model).Just?
    && var loaded := Loaded(w, txn, model).value;
    && Effective(loaded.base, changes) && changes != []
    && CanRestore(Content(Applied(loaded.base, changes), records)) && |records| == |loaded.records|
    && forall p | 0 <= p < |records| && p !in pairs :: records[p] == loaded.records[p]
  }

  /** Mint a token and put what it is for into the cache. */
  ghost function StagedFor(w: World, mint: Mint, bytes: nat, maximum: nat): World {
    Cached(Minted(w, mint), Key(mint.model, mint.epoch, mint.generation, Fresh(w)), mint.content, bytes, maximum)
  }

  /** What update_cells stages: the loaded snapshot with the changes made and the
      records repaired, for the next generation. */
  ghost function Candidate(w: World, e: Event): Mint
    requires (e.Update? || e.UpdateFails?) && Updatable(w, e.txn, e.model, e.changes, e.records, e.pairs)
  {
    var r := View(w, e.txn, e.model);
    Mint(e.model, r.epoch, r.generation + 1, Content(Applied(Loaded(w, e.txn, e.model).value.base, e.changes),
        e.records), e.txn)
  }

  /** update_cells up to the writes. */
  ghost function Staged(w: World, e: Event, maximum: nat): World
    requires (e.Update? || e.UpdateFails?) && Updatable(w, e.txn, e.model, e.changes, e.records, e.pairs)
  {
    StagedFor(AfterLoad(w, e.txn, e.model, e.loadBytes, maximum), Candidate(w, e), e.bytes, maximum)
  }

  ghost predicate Can(w: World, e: Event) {
    match e
    case Begin => true
    case Edit(txn, model, base) => Sees(w, txn, model)
    case Load(txn, model, bytes) => Sees(w, txn, model) && IsPrepared(View(w, txn, model))
    case Prepare(txn, model, records, bytes) => Sees(w, txn, model)
        && CanRestore(Content(View(w, txn, model).content.base, records))
    case PrepareFails(txn) => txn in w.open
    case Update(txn, model, changes, records, pairs, loadBytes, bytes) => Updatable(w, txn, model, changes, records,
        pairs)
    case UpdateFails(txn, model, changes, records, pairs, loadBytes, bytes) => Updatable(w, txn, model, changes,
        records, pairs)
    case Commit(txn) => txn in w.open && forall x | x in w.open[txn].written :: KeepsRow(w, txn, x)
    case Abort(txn) => txn in w.open
    case Restart(incarnation) => incarnation !in w.incarnations
  }

  /** No other transaction has committed this model since. */
  ghost predicate KeepsRow(w: World, txn: nat, model: nat)
    requires txn in w.open
  {
    && model in w.open[txn].rows && (model in w.committed <==> model in w.open[txn].start)
    && (model in w.committed ==> w.committed[model] == w.open[txn].start[model])
  }

  ghost function Merged(committed: Rows, t: Txn): Rows {
    map x | x in committed.Keys + (t.written * t.rows.Keys) :: if x in t.written && x in t.rows then t.rows[x]
        else committed[x]
  }

  ghost function TokensOf(rows: Rows): (tokens: set<Token>)
    ensures forall x {:trigger rows[x]} | x in rows && rows[x].token.Just? :: rows[x].token.value in tokens
  {
    set x | x in rows && rows[x].token.Just? :: rows[x].token.value
  }

  ghost function Do(w: World, e: Event, maximum: nat): World
    requires Can(w, e)
  {
    match e
    case Begin => w.(open := w.open[w.begun := Txn(w.committed, w.committed, {})], begun := w.begun + 1)
    case Edit(txn, model, base) =>
      var r := View(w, txn, model);
      Written(w, txn, model, r.(generation := r.generation + 1, dirty := true, content := r.content.(base := base)))
    case Load(txn, model, bytes) => AfterLoad(w, txn, model, bytes, maximum)
    case Prepare(txn, model, records, bytes) =>
      var r := PreparedRow(w, View(w, txn, model), records);
      var v := Minted(Written(w, txn, model, r), Mint(model, r.epoch, r.generation, r.content, txn));
      Cached(v, KeyOf(model, r), r.content, bytes, maximum)
    case PrepareFails(txn) => Closed(w.(counter := w.counter + 1), txn)
    case Update(txn, model, changes, records, pairs, loadBytes, bytes) =>
      Written(Staged(w, e, maximum), txn, model, UpdatedRow(w, View(w, txn, model), changes, records, pairs))
    case UpdateFails(txn, model, changes, records, pairs, loadBytes, bytes) => Closed(Staged(w, e, maximum), txn)
    case Commit(txn) =>
      Closed(w.(committed := Merged(w.committed, w.open[txn]), published := w.published + TokensOf(w.open[txn].rows)),
          txn)
    case Abort(txn) => Closed(w, txn)
    case Restart(incarnation) =>
      w.(open := map[], cache := [], incarnation := incarnation, counter := 0,
          incarnations := w.incarnations + {incarnation})
  }

  // ---------- What every run keeps ----------

  /** A token that is in use was minted in this or an earlier life of the process. */
  ghost predicate TokensAreOld(w: World) {
    && w.incarnation in w.incarnations
    && forall t {:trigger t in w.minted} | t in w.minted :: t.0 in w.incarnations && (t.0 == w.incarnation ==>
        t.1 < w.counter)
  }

  ghost predicate Matches(w: World, item: Item) {
    && item.key.token in w.minted && item.snapshot < |w.snapshots|
    && var mint := w.minted[item.key.token];
    && item.key == Key(mint.model, mint.epoch, mint.generation, item.key.token)
        && w.snapshots[item.snapshot] == mint.content
  }

  /** A cached snapshot is what its token was minted for. */
  ghost predicate CacheMatches(w: World) {
    forall i {:trigger w.cache[i]} | 0 <= i < |w.cache| :: Matches(w, w.cache[i])
  }

  /** A prepared row is what its token was minted for. */
  ghost predicate RowMatches(w: World, model: nat, r: Row) {
    && (r.token.Just? ==> r.token.value in w.minted)
    && (IsPrepared(r) ==> w.minted[r.token.value].(txn := 0) == Mint(model, r.epoch, r.generation, r.content, 0))
  }

  /** The token of a row was committed, or was minted by the given transaction. */
  ghost predicate TokenIsKnown(w: World, r: Row, txn: Maybe<nat>) {
    r.token.Just? ==>
      r.token.value in w.published || (r.token.value in w.minted && txn == Just(w.minted[r.token.value].txn))
  }

  ghost predicate RowsMatch(w: World, rows: Rows, txn: Maybe<nat>) {
    forall x {:trigger rows[x]} | x in rows :: RowMatches(w, x, rows[x]) && TokenIsKnown(w, rows[x], txn)
  }

  ghost predicate TxnsMatch(w: World) {
    forall t {:trigger w.open[t]} | t in w.open :: t < w.begun && RowsMatch(w, w.open[t].rows, Just(t))
  }

  ghost predicate Keeps(w: World) {
    && TokensAreOld(w) && CacheMatches(w) && RowsMatch(w, w.committed, Nothing) && TxnsMatch(w)
    && (forall t {:trigger t in w.published} | t in w.published :: t in w.minted)
    && (forall t {:trigger w.minted[t]} | t in w.minted :: w.minted[t].txn < w.begun && CanRestore(w.minted[t].content))
  }

  /** What every step keeps.  The definition is some steps away, so that only InvIs
      unfolds it. */
  ghost predicate Inv(w: World) { InvIn(w, DEPTH + 1) }

  ghost predicate InvIn(w: World, steps: nat)
    decreases steps
  {
    if steps > 0 then InvIn(w, steps - 1) else Keeps(w)
  }

  lemma InvIs(w: World)
    ensures Inv(w) <==> Keeps(w)
  {
    var k: nat := DEPTH + 1;
    while k > 0
      invariant InvIn(w, DEPTH + 1) == InvIn(w, k)
    {
      k := k - 1;
    }
  }

  /** The process has just started on a database without prepared models. */
  ghost predicate Initial(w: World) {
    && w.open == map[] && w.cache == [] && w.snapshots == [] && w.minted == map[] && w.published == {} && w.counter == 0
    && w.incarnations == {w.incarnation} && forall x {:trigger w.committed[x]} | x in w.committed ::
        w.committed[x].token.Nothing?
  }

  lemma InitialIsSafe(w: World)
    requires Initial(w)
    ensures Inv(w)
  {
    InvIs(w);
  }

  // ---------- Cache steps ----------

  lemma TouchedMatches(w: World, key: Key)
    requires CacheMatches(w)
    ensures CacheMatches(w.(cache := Touched(w.cache, key)))
  {
    var v := w.(cache := Touched(w.cache, key));
    forall i | 0 <= i < |v.cache| ensures Matches(v, v.cache[i]) {
      var k := Position(w.cache, key);
      var j := if k == |w.cache| then i else if i == 0 then k else if i <= k then i - 1 else i;
      assert v.cache[i] == w.cache[j];
    }
  }

  lemma {:induction false} InsertedIsOldOrNew(items: seq<Item>, item: Item, maximum: nat, i: nat)
    requires i < |Inserted(items, item, maximum)|
    ensures Inserted(items, item, maximum)[i] == item || exists j ::
            0 <= j < |items| && Inserted(items, item, maximum)[i] == items[j]
  {
    if Cache.Stored(item, maximum) && i > 0 {
      var rest := Without(items, item.key);
      var kept := Fit(rest, maximum - item.bytes);
      assert Inserted(items, item, maximum) == [item] + kept;
      assert kept[i - 1] == rest[i - 1];
      var k := Position(items, item.key);
      assert rest[i - 1] == items[if i - 1 < k then i - 1 else i];
    }
  }

  lemma CachedMatches(w: World, key: Key, content: Content, bytes: nat, maximum: nat)
    requires CacheMatches(w) && key.token in w.minted && w.minted[key.token].content == content
    requires var mint := w.minted[key.token]; key == Key(mint.model, mint.epoch, mint.generation, key.token)
    ensures CacheMatches(Cached(w, key, content, bytes, maximum))
  {
    var v, item := Cached(w, key, content, bytes, maximum), Item(key, bytes, |w.snapshots|);
    forall i | 0 <= i < |v.cache| ensures Matches(v, v.cache[i]) {
      InsertedIsOldOrNew(w.cache, item, maximum, i);
      if v.cache[i] != item {
        var j :| 0 <= j < |w.cache| && v.cache[i] == w.cache[j];
        assert Matches(w, w.cache[j]);
      }
    }
  }

  /** The cache has no part in what rows and tokens say. */
  lemma CacheStepKeeps(w: World, v: World)
    requires Inv(w) && CacheMatches(v) && v == w.(cache := v.cache, snapshots := v.snapshots)
    ensures Inv(v)
  {
    InvIs(w);
    InvIs(v);
    forall t | t in v.open ensures t < v.begun && RowsMatch(v, v.open[t].rows, Just(t)) {
      assert RowsMatch(w, w.open[t].rows, Just(t));
      forall x | x in v.open[t].rows ensures RowMatches(v, x, v.open[t].rows[x])
          && TokenIsKnown(v, v.open[t].rows[x], Just(t)) {
        assert RowMatches(w, x, w.open[t].rows[x]);
      }
    }
    forall x | x in v.committed ensures RowMatches(v, x, v.committed[x]) && TokenIsKnown(v, v.committed[x], Nothing) {
      assert RowMatches(w, x, w.committed[x]);
    }
  }

  /** Whether it is found in the cache or hydrated, a snapshot is loaded, and it holds the
      cells and records of the row the transaction sees. */
  lemma LoadedIsRow(w: World, txn: nat, model: nat)
    requires Inv(w) && Sees(w, txn, model) && IsPrepared(View(w, txn, model))
    ensures Loaded(w, txn, model) == Just(View(w, txn, model).content)
  {
    var r := View(w, txn, model);
    RowIsGood(w, txn, model);
    InvIs(w);
    var i := Position(w.cache, KeyOf(model, r));
    if i < |w.cache| {
      assert Matches(w, w.cache[i]);
    }
  }

  /** What the invariant says of one row of an open transaction. */
  lemma RowIsGood(w: World, txn: nat, model: nat)
    requires Inv(w) && Sees(w, txn, model)
    ensures txn < w.begun && RowMatches(w, model, View(w, txn, model))
            && TokenIsKnown(w, View(w, txn, model), Just(txn))
    ensures IsPrepared(View(w, txn, model)) ==> CanRestore(View(w, txn, model).content)
  {
    InvIs(w);
    assert RowsMatch(w, w.open[txn].rows, Just(txn));
    var r := w.open[txn].rows[model];
    assert RowMatches(w, model, r) && TokenIsKnown(w, r, Just(txn));
    if IsPrepared(r) {
      assert CanRestore(w.minted[r.token.value].content);
    }
  }

  lemma LoadKeeps(w: World, txn: nat, model: nat, bytes: nat, maximum: nat)
    requires Inv(w) && Sees(w, txn, model) && IsPrepared(View(w, txn, model))
    ensures Inv(AfterLoad(w, txn, model, bytes, maximum))
  {
    var r := View(w, txn, model);
    RowIsGood(w, txn, model);
    if Hit(w, KeyOf(model, r)) {
      assert CacheMatches(w.(cache := Touched(w.cache, KeyOf(model, r)))) by {
        InvIs(w);
        TouchedMatches(w, KeyOf(model, r));
      }
    } else {
      assert CacheMatches(Cached(w, KeyOf(model, r), r.content, bytes, maximum)) by {
        InvIs(w);
        CachedMatches(w, KeyOf(model, r), r.content, bytes, maximum);
      }
    }
    CacheStepKeeps(w, AfterLoad(w, txn, model, bytes, maximum));
  }

  // ---------- Tokens and rows ----------

  /** A fresh token was never minted, in this life of the process or an earlier one. */
  lemma FreshIsNew(w: World)
    requires TokensAreOld(w)
    ensures Fresh(w) !in w.minted
  {
  }

  lemma MintKeeps(w: World, mint: Mint)
    requires Inv(w) && mint.txn < w.begun && CanRestore(mint.content)
    ensures Inv(Minted(w, mint))
  {
    InvIs(w);
    InvIs(Minted(w, mint));
    var v := Minted(w, mint);
    FreshIsNew(w);
    forall i | 0 <= i < |v.cache| ensures Matches(v, v.cache[i]) {
      assert Matches(w, w.cache[i]);
    }
    forall t | t in v.open ensures t < v.begun && RowsMatch(v, v.open[t].rows, Just(t)) {
      assert RowsMatch(w, w.open[t].rows, Just(t));
      MintKeepsRows(w, mint, w.open[t].rows, Just(t));
    }
    MintKeepsRows(w, mint, w.committed, Nothing);
  }

  lemma MintKeepsRows(w: World, mint: Mint, rows: Rows, txn: Maybe<nat>)
    requires Fresh(w) !in w.minted && RowsMatch(w, rows, txn)
    ensures RowsMatch(Minted(w, mint), rows, txn)
  {
    forall x | x in rows ensures RowMatches(Minted(w, mint), x, rows[x])
        && TokenIsKnown(Minted(w, mint), rows[x], txn) {
      assert RowMatches(w, x, rows[x]);
    }
  }

  /** Burning the counter for a token that is never used. */
  lemma BurnKeeps(w: World)
    requires Inv(w)
    ensures Inv(w.(counter := w.counter + 1))
  {
    InvIs(w);
    InvIs(w.(counter := w.counter + 1));
    var v := w.(counter := w.counter + 1);
    forall t | t in v.open ensures t < v.begun && RowsMatch(v, v.open[t].rows, Just(t)) {
      assert RowsMatch(w, w.open[t].rows, Just(t));
      SameRows(w, v, w.open[t].rows, Just(t));
    }
    SameRows(w, v, w.committed, Nothing);
    forall i | 0 <= i < |v.cache| ensures Matches(v, v.cache[i]) {
      assert Matches(w, w.cache[i]);
    }
  }

  lemma SameRows(w: World, v: World, rows: Rows, txn: Maybe<nat>)
    requires RowsMatch(w, rows, txn) && v.minted == w.minted && w.published <= v.published
    ensures RowsMatch(v, rows, txn)
  {
    forall x | x in rows ensures RowMatches(v, x, rows[x]) && TokenIsKnown(v, rows[x], txn) {
      assert RowMatches(w, x, rows[x]);
    }
  }

  lemma WriteKeeps(w: World, txn: nat, model: nat, r: Row)
    requires Inv(w) && txn in w.open && RowMatches(w, model, r) && TokenIsKnown(w, r, Just(txn))
    ensures Inv(Written(w, txn, model, r))
  {
    InvIs(w);
    InvIs(Written(w, txn, model, r));
    var v := Written(w, txn, model, r);
    forall t | t in v.open ensures t < v.begun && RowsMatch(v, v.open[t].rows, Just(t)) {
      assert RowsMatch(w, w.open[t].rows, Just(t));
      SameRows(w, v, w.open[t].rows, Just(t));
      forall x | x in v.open[t].rows ensures RowMatches(v, x, v.open[t].rows[x])
          && TokenIsKnown(v, v.open[t].rows[x], Just(t)) {
        if t == txn && x == model {
          assert v.open[t].rows[x] == r;
        } else {
          assert v.open[t].rows[x] == w.open[t].rows[x];
        }
      }
    }
    SameRows(w, v, w.committed, Nothing);
    forall i | 0 <= i < |v.cache| ensures Matches(v, v.cache[i]) {
      assert Matches(w, w.cache[i]);
    }
  }

  lemma CloseKeeps(w: World, txn: nat)
    requires Inv(w)
    ensures Inv(Closed(w, txn))
  {
    InvIs(w);
    InvIs(Closed(w, txn));
    var v := Closed(w, txn);
    forall t | t in v.open ensures t < v.begun && RowsMatch(v, v.open[t].rows, Just(t)) {
      assert RowsMatch(w, w.open[t].rows, Just(t));
      SameRows(w, v, w.open[t].rows, Just(t));
    }
    SameRows(w, v, w.committed, Nothing);
    forall i | 0 <= i < |v.cache| ensures Matches(v, v.cache[i]) {
      assert Matches(w, w.cache[i]);
    }
  }

  // ---------- The steps ----------

  lemma BeginKeeps(w: World, maximum: nat)
    requires Inv(w)
    ensures Inv(Do(w, Begin, maximum))
  {
    InvIs(w);
    InvIs(Do(w, Begin, maximum));
    var v := Do(w, Begin, maximum);
    forall t | t in v.open ensures t < v.begun && RowsMatch(v, v.open[t].rows, Just(t)) {
      if t != w.begun {
        assert RowsMatch(w, w.open[t].rows, Just(t));
        SameRows(w, v, w.open[t].rows, Just(t));
      } else {
        SameRows(w, v, w.committed, Nothing);
        forall x | x in w.committed ensures TokenIsKnown(v, w.committed[x], Just(t)) {
          assert TokenIsKnown(w, w.committed[x], Nothing);
        }
      }
    }
    SameRows(w, v, w.committed, Nothing);
    forall i | 0 <= i < |v.cache| ensures Matches(v, v.cache[i]) {
      assert Matches(w, w.cache[i]);
    }
  }

  lemma EditKeeps(w: World, e: Event, maximum: nat)
    requires Inv(w) && e.Edit? && Can(w, e)
    ensures Inv(Do(w, e, maximum))
  {
    RowIsGood(w, e.txn, e.model);
    var r := View(w, e.txn, e.model);
    WriteKeeps(w, e.txn, e.model, r.(generation := r.generation + 1, dirty := true,
        content := r.content.(base := e.base)));
  }

  lemma PrepareKeeps(w: World, e: Event, maximum: nat)
    requires Inv(w) && e.Prepare? && Can(w, e)
    ensures Inv(Do(w, e, maximum))
  {
    var r := PreparedRow(w, View(w, e.txn, e.model), e.records);
    var mint := Mint(e.model, r.epoch, r.generation, r.content, e.txn);
    RowIsGood(w, e.txn, e.model);
    MintKeeps(w, mint);
    WriteKeeps(Minted(w, mint), e.txn, e.model, r);
    var v := Written(Minted(w, mint), e.txn, e.model, r);
    assert v == Minted(Written(w, e.txn, e.model, r), mint);
    assert CacheMatches(Cached(v, KeyOf(e.model, r), r.content, e.bytes, maximum)) by {
      InvIs(v);
      CachedMatches(v, KeyOf(e.model, r), r.content, e.bytes, maximum);
    }
    CacheStepKeeps(v, Cached(v, KeyOf(e.model, r), r.content, e.bytes, maximum));
  }

  /** A staged entry is what its token was minted for. */
  lemma StageCandidate(w: World, mint: Mint, bytes: nat, maximum: nat)
    requires Inv(w) && mint.txn < w.begun && CanRestore(mint.content)
    ensures Inv(StagedFor(w, mint, bytes, maximum))
  {
    MintKeeps(w, mint);
    var v, key := Minted(w, mint), Key(mint.model, mint.epoch, mint.generation, Fresh(w));
    assert CacheMatches(Cached(v, key, mint.content, bytes, maximum)) by {
      InvIs(v);
      CachedMatches(v, key, mint.content, bytes, maximum);
    }
    CacheStepKeeps(v, Cached(v, key, mint.content, bytes, maximum));
  }

  lemma StageKeeps(w: World, e: Event, maximum: nat)
    requires Inv(w) && (e.Update? || e.UpdateFails?) && Can(w, e)
    ensures Inv(Staged(w, e, maximum))
  {
    LoadKeeps(w, e.txn, e.model, e.loadBytes, maximum);
    RowIsGood(w, e.txn, e.model);
    StageCandidate(AfterLoad(w, e.txn, e.model, e.loadBytes, maximum), Candidate(w, e), e.bytes, maximum);
  }

  /** The rows written are the candidate: cells applied to the stored cells, and records
      overwritten at the changed pairs. */
  lemma WrittenIsCandidate(w: World, e: Event)
    requires Inv(w) && e.Update? && Can(w, e)
    ensures UpdatedRow(w, View(w, e.txn, e.model), e.changes, e.records, e.pairs).content == Candidate(w, e).content
  {
    LoadedIsRow(w, e.txn, e.model);
    var old_ := View(w, e.txn, e.model).content.records;
    assert Persisted(old_, e.records, e.pairs) == e.records;
  }

  lemma StagedMint(w: World, e: Event, maximum: nat)
    requires (e.Update? || e.UpdateFails?) && Can(w, e)
    ensures var v := Staged(w, e, maximum);
            v.open == w.open && Fresh(w) in v.minted && v.minted[Fresh(w)] == Candidate(w, e)
  {
  }

  lemma UpdateKeeps(w: World, e: Event, maximum: nat)
    requires Inv(w) && e.Update? && Can(w, e)
    ensures Inv(Do(w, e, maximum))
  {
    var v, r := Staged(w, e, maximum), UpdatedRow(w, View(w, e.txn, e.model), e.changes, e.records, e.pairs);
    StageKeeps(w, e, maximum);
    WrittenIsCandidate(w, e);
    StagedMint(w, e, maximum);
    WriteKeeps(v, e.txn, e.model, r);
  }

  lemma CommitKeeps(w: World, e: Event, maximum: nat)
    requires Inv(w) && e.Commit? && Can(w, e)
    ensures Inv(Do(w, e, maximum))
  {
    InvIs(w);
    InvIs(Do(w, e, maximum));
    var t := w.open[e.txn];
    var u := w.(committed := Merged(w.committed, t), published := w.published + TokensOf(t.rows));
    assert RowsMatch(w, t.rows, Just(e.txn));
    SameRows(w, u, t.rows, Just(e.txn));
    SameRows(w, u, w.committed, Nothing);
    forall x | x in u.committed ensures RowMatches(u, x, u.committed[x]) && TokenIsKnown(u, u.committed[x], Nothing) {
      if x in t.written && x in t.rows {
        assert RowMatches(w, x, t.rows[x]);
      } else {
        assert RowMatches(u, x, w.committed[x]) && TokenIsKnown(u, w.committed[x], Nothing);
      }
    }
    forall token | token in u.published ensures token in u.minted {
      if token !in w.published {
        var x :| x in t.rows && t.rows[x].token.Just? && t.rows[x].token.value == token;
        assert RowMatches(w, x, t.rows[x]);
      }
    }
    forall o | o in u.open ensures o < u.begun && RowsMatch(u, u.open[o].rows, Just(o)) {
      assert RowsMatch(w, w.open[o].rows, Just(o));
      SameRows(w, u, w.open[o].rows, Just(o));
    }
    forall i | 0 <= i < |u.cache| ensures Matches(u, u.cache[i]) {
      assert Matches(w, w.cache[i]);
    }
    InvIs(u);
    CloseKeeps(u, e.txn);
  }

  lemma RestartKeeps(w: World, e: Event, maximum: nat)
    requires Inv(w) && e.Restart? && Can(w, e)
    ensures Inv(Do(w, e, maximum))
  {
    InvIs(w);
    InvIs(Do(w, e, maximum));
    var v := Do(w, e, maximum);
    SameRows(w, v, w.committed, Nothing);
    forall t | t in v.minted ensures t.0 in v.incarnations && (t.0 == v.incarnation ==> t.1 < v.counter) {
      assert t in w.minted;
    }
  }

  lemma StepKeeps(w: World, e: Event, maximum: nat)
    requires Inv(w) && Can(w, e)
    ensures Inv(Do(w, e, maximum))
  {
    match e
    case Begin => BeginKeeps(w, maximum);
    case Edit(_, _, _) => EditKeeps(w, e, maximum);
    case Load(txn, model, bytes) => LoadKeeps(w, txn, model, bytes, maximum);
    case Prepare(_, _, _, _) => PrepareKeeps(w, e, maximum);
    case PrepareFails(txn) =>
      BurnKeeps(w);
      CloseKeeps(w.(counter := w.counter + 1), txn);
    case Update(_, _, _, _, _, _, _) => UpdateKeeps(w, e, maximum);
    case UpdateFails(txn, _, _, _, _, _, _) =>
      StageKeeps(w, e, maximum);
      CloseKeeps(Staged(w, e, maximum), txn);
    case Commit(_) => CommitKeeps(w, e, maximum);
    case Abort(txn) => CloseKeeps(w, txn);
    case Restart(_) => RestartKeeps(w, e, maximum);
  }

  // ---------- Runs ----------

  /** Some sequence of steps leads from one world to the other. */
  ghost predicate Reaches(w: World, events: seq<Event>, v: World, maximum: nat) {
    if events == [] then v == w
    else exists u {:trigger Can(u, events[|events| - 1])} ::
      Reaches(w, events[..|events| - 1], u, maximum) && Can(u, events[|events| - 1])
          && v == Do(u, events[|events| - 1], maximum)
  }

  lemma {:induction false} RunKeeps(w: World, events: seq<Event>, v: World, maximum: nat)
    requires Inv(w) && Reaches(w, events, v, maximum)
    ensures Inv(v)
    decreases |events|
  {
    if events != [] {
      var e := events[|events| - 1];
      var u :| Reaches(w, events[..|events| - 1], u, maximum) && Can(u, e) && v == Do(u, e, maximum);
      RunKeeps(w, events[..|events| - 1], u, maximum);
      StepKeeps(u, e, maximum);
    }
  }

  /** Over all runs with aborts, evictions and restarts: a transaction that sees a
      prepared model can load it, and gets the cells and records that it sees, from the
      cache or not. */
  lemma LoadsAreSafe(w: World, events: seq<Event>, v: World, maximum: nat, txn: nat, model: nat)
    requires Initial(w) && Reaches(w, events, v, maximum) && Sees(v, txn, model) && IsPrepared(View(v, txn, model))
    ensures Loaded(v, txn, model) == Just(View(v, txn, model).content)
  {
    InitialIsSafe(w);
    RunKeeps(w, events, v, maximum);
    LoadedIsRow(v, txn, model);
  }

  // ---------- Tokens of aborted updates ----------

  /** The token was minted by a transaction that is over and did not commit it. */
  ghost predicate Dead(w: World, token: Token) {
    token in w.minted && token !in w.published && w.minted[token].txn !in w.open
  }

  /** A commit publishes no token that another transaction minted and left. */
  lemma CommitKeepsDead(w: World, e: Event, maximum: nat, token: Token)
    requires Inv(w) && e.Commit? && Can(w, e) && Dead(w, token)
    ensures Dead(Do(w, e, maximum), token)
  {
    InvIs(w);
    var t := w.open[e.txn];
    assert RowsMatch(w, t.rows, Just(e.txn));
    assert forall x {:trigger t.rows[x]} | x in t.rows :: TokenIsKnown(w, t.rows[x], Just(e.txn));
  }

  /** The other events publish nothing, and open no transaction that was open before. */
  lemma OtherKeepsDead(w: World, e: Event, maximum: nat, token: Token)
    requires !e.Commit? && Can(w, e) && Dead(w, token) && Fresh(w) !in w.minted && w.minted[token].txn < w.begun
    ensures Dead(Do(w, e, maximum), token)
  {
  }

  lemma StepKeepsDead(w: World, e: Event, maximum: nat, token: Token)
    requires Inv(w) && Can(w, e) && Dead(w, token)
    ensures Dead(Do(w, e, maximum), token)
  {
    if e.Commit? {
      CommitKeepsDead(w, e, maximum, token);
    } else {
      InvIs(w);
      FreshIsNew(w);
      OtherKeepsDead(w, e, maximum, token);
    }
  }

  lemma DeadIsUnseen(w: World, token: Token, txn: nat, model: nat)
    requires Inv(w) && Dead(w, token) && Sees(w, txn, model)
    ensures View(w, txn, model).token != Just(token)
  {
    InvIs(w);
    assert RowsMatch(w, w.open[txn].rows, Just(txn));
    assert TokenIsKnown(w, w.open[txn].rows[model], Just(txn));
  }

  /** An update that fails after it staged its candidate leaves a dead token. */
  lemma FailedUpdateIsDead(w: World, e: Event, maximum: nat)
    requires Inv(w) && e.UpdateFails? && Can(w, e)
    ensures Dead(Do(w, e, maximum), Fresh(w))
  {
    InvIs(w);
    FreshIsNew(w);
  }

  /** A transaction that aborts, after an update that returned or at any other time,
      leaves every token it minted dead, unless an earlier commit published it. */
  lemma AbortLeavesDead(w: World, txn: nat, maximum: nat, token: Token)
    requires Inv(w) && Can(w, Abort(txn)) && token in w.minted && w.minted[token].txn == txn && token !in w.published
    ensures Dead(Do(w, Abort(txn), maximum), token)
  {
    InvIs(w);
  }

  /** A restart of the process aborts every open transaction. */
  lemma RestartLeavesDead(w: World, incarnation: nat, maximum: nat, token: Token)
    requires Inv(w) && Can(w, Restart(incarnation)) && token in w.minted && token !in w.published
    ensures Dead(Do(w, Restart(incarnation), maximum), token)
  {
    InvIs(w);
  }

  /** The event ends the transaction that minted the token without committing it. */
  ghost predicate EndsUnpublished(w: World, e: Event, token: Token)
    requires Can(w, e)
  {
    || (e.UpdateFails? && token == Fresh(w))
    || ((e.Abort? || e.Restart?) && token in w.minted && token !in w.published
        && (e.Abort? ==> w.minted[token].txn == e.txn))
  }

  /** From then on, whatever happens, no transaction sees the token, so no lookup asks
      for the entry that the update staged. */
  lemma {:induction false} StagedByAbortedIsNeverLoaded(w: World, e: Event, token: Token, events: seq<Event>,
                                                        v: World, maximum: nat,
                                                        txn: nat, model: nat)
    requires Inv(w) && Can(w, e) && EndsUnpublished(w, e, token) && Reaches(Do(w, e, maximum), events, v, maximum)
    requires Sees(v, txn, model) && IsPrepared(View(v, txn, model))
    ensures KeyOf(model, View(v, txn, model)).token != token
  {
    var u := Do(w, e, maximum);
    StepKeeps(w, e, maximum);
    if e.UpdateFails? {
      FailedUpdateIsDead(w, e, maximum);
    } else if e.Abort? {
      AbortLeavesDead(w, e.txn, maximum, token);
    } else {
      RestartLeavesDead(w, e.incarnation, maximum, token);
    }
    RunKeepsDead(u, events, v, maximum, token);
    RunKeeps(u, events, v, maximum);
    DeadIsUnseen(v, token, txn, model);
  }

  lemma {:induction false} RunKeepsDead(w: World, events: seq<Event>, v: World, maximum: nat, token: Token)
    requires Inv(w) && Dead(w, token) && Reaches(w, events, v, maximum)
    ensures Dead(v, token)
    decreases |events|
  {
    if events != [] {
      var e := events[|events| - 1];
      var u :| Reaches(w, events[..|events| - 1], u, maximum) && Can(u, e) && v == Do(u, e, maximum);
      RunKeepsDead(w, events[..|events| - 1], u, maximum, token);
      RunKeeps(w, events[..|events| - 1], u, maximum);
      StepKeepsDead(u, e, maximum, token);
    }
  }
}
