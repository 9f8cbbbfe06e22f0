/** The snapshot cache: entries in a doubly linked list, the newest first, and a bound
    on their bytes. */
module Cache {
  /** What an entry is found by. */
  datatype Key = Key(model: nat, epoch: nat, generation: nat, token: (nat, nat))

  /** An entry: its key, its size, and the snapshot it holds, by number. */
  datatype Item = Item(key: Key, bytes: nat, snapshot: nat)

  // ---------- The cache as a list ----------

  function Sum(items: seq<Item>): (total: nat) {
    if items == [] then 0 else Sum(items[..|items| - 1]) + items[|items| - 1].bytes
  }

  lemma {:induction false} SumOfConcat(s: seq<Item>, t: seq<Item>)
    ensures Sum(s + t) == Sum(s) + Sum(t)
  {
    if t == [] {
      assert s + t == s;
    } else {
      var n := |t| - 1;
      assert (s + t)[..|s + t| - 1] == s + t[..n];
      SumOfConcat(s, t[..n]);
    }
  }

  lemma {:induction false} SumOfFront(item: Item, items: seq<Item>)
    ensures Sum([item] + items) == item.bytes + Sum(items)
  {
    SumOfConcat([item], items);
    assert [item][..0] == [];
  }

  /** No two entries have the same key. */
  ghost predicate KeysDiffer(items: seq<Item>) {
    forall i, j {:trigger items[i], items[j]} | 0 <= i < j < |items| :: items[i].key != items[j].key
  }

  /** The first entry with the key, or the length of the list. */
  ghost function Position(items: seq<Item>, key: Key): (i: nat)
    ensures i <= |items|
    ensures i < |items| ==> items[i].key == key
    ensures forall k | 0 <= k < i :: items[k].key != key
  {
    if items == [] then 0 else if items[0].key == key then 0 else 1 + Position(items[1..], key)
  }

  lemma {:induction false} PositionIs(items: seq<Item>, key: Key, i: nat)
    requires i <= |items| && (i < |items| ==> items[i].key == key) && forall k | 0 <= k < i :: items[k].key != key
    ensures Position(items, key) == i
  {
  }

  ghost function Without(items: seq<Item>, key: Key): seq<Item> {
    var i := Position(items, key);
    if i < |items| then items[..i] + items[i + 1..] else items
  }

  /** A lookup moves the entry it finds to the front. */
  ghost function Touched(items: seq<Item>, key: Key): seq<Item> {
    var i := Position(items, key);
    if i < |items| then [items[i]] + Without(items, key) else items
  }

  /** Drop the oldest entries until the rest fits. */
  ghost function Fit(items: seq<Item>, room: nat): (kept: seq<Item>)
    ensures kept <= items && Sum(kept) <= room
  {
    if items == [] || Sum(items) <= room then items else Fit(items[..|items| - 1], room)
  }

  ghost predicate Stored(item: Item, maximum: nat) { maximum != 0 && item.bytes <= maximum }

  /** An insertion replaces the entry of the same key, makes room, and comes first. */
  ghost function Inserted(items: seq<Item>, item: Item, maximum: nat): seq<Item> {
    if Stored(item, maximum) then [item] + Fit(Without(items, item.key), maximum - item.bytes) else items
  }

  /** An entry that fits the maximum at all comes first, and the next lookup of its key
      finds it; any other leaves the cache as it was. */
  lemma StoredIsFound(items: seq<Item>, item: Item, maximum: nat)
    ensures maximum > 0 && item.bytes <= maximum ==>
              var stored := Inserted(items, item, maximum);
              && |stored| > 0 && stored[0] == item && Position(stored, item.key) == 0
              && Touched(stored, item.key) == stored
    ensures maximum == 0 || item.bytes > maximum ==> Inserted(items, item, maximum) == items
  {
    if Stored(item, maximum) {
      var stored := Inserted(items, item, maximum);
      assert Position(stored, item.key) == 0;
      assert [stored[0]] + (stored[..0] + stored[1..]) == stored;
    }
  }

  ghost predicate Bounded(items: seq<Item>, maximum: nat) { KeysDiffer(items) && Sum(items) <= maximum }

  lemma {:induction false} WithoutKeepsKeys(items: seq<Item>, key: Key)
    requires KeysDiffer(items)
    ensures KeysDiffer(Without(items, key)) && forall k | 0 <= k < |Without(items, key)| ::
            Without(items, key)[k].key != key
  {
  }

  lemma {:induction false} WithoutSum(items: seq<Item>, key: Key)
    ensures Sum(Without(items, key)) == Sum(items) - (if Position(items, key) < |items|
            then items[Position(items, key)].bytes else 0)
  {
    var i := Position(items, key);
    if i < |items| {
      assert items == items[..i] + ([items[i]] + items[i + 1..]);
      SumOfConcat(items[..i], [items[i]] + items[i + 1..]);
      SumOfFront(items[i], items[i + 1..]);
      SumOfConcat(items[..i], items[i + 1..]);
    }
  }

  /** Both operations keep keys unique and the bound. */
  lemma {:induction false} TouchedIsBounded(items: seq<Item>, key: Key, maximum: nat)
    requires Bounded(items, maximum)
    ensures Bounded(Touched(items, key), maximum) && Sum(Touched(items, key)) == Sum(items)
  {
    WithoutKeepsKeys(items, key);
    WithoutSum(items, key);
    var i := Position(items, key);
    if i < |items| {
      SumOfFront(items[i], Without(items, key));
    }
  }

  lemma {:induction false} InsertedIsBounded(items: seq<Item>, item: Item, maximum: nat)
    requires Bounded(items, maximum)
    ensures Bounded(Inserted(items, item, maximum), maximum)
  {
    WithoutKeepsKeys(items, item.key);
    WithoutSum(items, item.key);
    if Stored(item, maximum) {
      var kept := Fit(Without(items, item.key), maximum - item.bytes);
      SumOfFront(item, kept);
    }
  }

  /** Only a suffix of oldest entries is evicted, and no more than has to be: with the
      youngest of those evicted the rest would not fit. */
  lemma {:induction false} FitIsLongest(items: seq<Item>, room: nat, k: nat)
    requires |Fit(items, room)| < k <= |items|
    ensures Sum(items[..k]) > room
    decreases |items|
  {
    if k == |items| {
      assert items[..k] == items;
    } else {
      assert items[..|items| - 1][..k] == items[..k];
      FitIsLongest(items[..|items| - 1], room, k);
    }
  }

  // ---------- Any run ----------

  datatype Op = Lookup(key: Key) | Insert(item: Item)

  ghost function After(ops: seq<Op>, maximum: nat): (items: seq<Item>) {
    if ops == [] then []
    else
      var before := After(ops[..|ops| - 1], maximum);
      match ops[|ops| - 1]
      case Lookup(key) => Touched(before, key)
      case Insert(item) => Inserted(before, item, maximum)
  }

  /** The operation uses the key: it looks it up, or stores an entry under it. */
  ghost predicate Uses(op: Op, key: Key, maximum: nat) {
    match op
    case Lookup(k) => k == key
    case Insert(item) => item.key == key && Stored(item, maximum)
  }

  /** One more than the position of the last use of the key. */
  ghost function LastUse(ops: seq<Op>, key: Key, maximum: nat): (n: nat)
    ensures n <= |ops|
  {
    if ops == [] then 0
    else if Uses(ops[|ops| - 1], key, maximum) then |ops|
    else LastUse(ops[..|ops| - 1], key, maximum)
  }

  /** What was last stored under the key. */
  ghost predicate LastStored(ops: seq<Op>, item: Item, maximum: nat) {
    if ops == [] then false
    else
      match ops[|ops| - 1]
      case Lookup(_) => LastStored(ops[..|ops| - 1], item, maximum)
      case Insert(x) =>
        if x.key == item.key && Stored(x, maximum) then x == item else LastStored(ops[..|ops| - 1], item, maximum)
  }

  /** Newer entries were used later. */
  ghost predicate ByRecency(ops: seq<Op>, items: seq<Item>, maximum: nat) {
    && (forall i, j {:trigger items[i], items[j]} | 0 <= i < j < |items| ::
          LastUse(ops, items[i].key, maximum) > LastUse(ops, items[j].key, maximum))
    && (forall i {:trigger items[i]} | 0 <= i < |items| :: LastStored(ops, items[i], maximum))
  }

  lemma {:induction false} WithoutIsByRecency(ops: seq<Op>, items: seq<Item>, key: Key, maximum: nat)
    requires ByRecency(ops, items, maximum)
    ensures ByRecency(ops, Without(items, key), maximum)
  {
  }

  lemma {:induction false} PrefixIsByRecency(ops: seq<Op>, items: seq<Item>, kept: seq<Item>, key: Key, maximum: nat)
    requires ByRecency(ops, items, maximum) && kept <= items && forall k | 0 <= k < |items| :: items[k].key != key
    ensures ByRecency(ops, kept, maximum) && forall k | 0 <= k < |kept| :: kept[k].key != key
  {
  }

  /** Entries that the next operation does not use keep their order. */
  lemma {:induction false} OthersKeepOrder(ops: seq<Op>, op: Op, items: seq<Item>, maximum: nat)
    requires ByRecency(ops, items, maximum) && forall k | 0 <= k < |items| :: !Uses(op, items[k].key, maximum)
    ensures ByRecency(ops + [op], items, maximum)
    ensures forall k | 0 <= k < |items| :: LastUse(ops + [op], items[k].key, maximum) <= |ops|
  {
    assert (ops + [op])[..|ops|] == ops;
  }

  lemma {:induction false} FrontIsLatest(ops: seq<Op>, op: Op, item: Item, items: seq<Item>, maximum: nat)
    requires ByRecency(ops, items, maximum) && forall k | 0 <= k < |items| :: !Uses(op, items[k].key, maximum)
    requires Uses(op, item.key, maximum) && LastStored(ops + [op], item, maximum)
    ensures ByRecency(ops + [op], [item] + items, maximum)
  {
    OthersKeepOrder(ops, op, items, maximum);
    assert LastUse(ops + [op], item.key, maximum) == |ops| + 1;
  }

  lemma {:induction false} LookupKeepsOrder(ops: seq<Op>, key: Key, items: seq<Item>, maximum: nat)
    requires Bounded(items, maximum) && ByRecency(ops, items, maximum)
    ensures ByRecency(ops + [Lookup(key)], Touched(items, key), maximum)
  {
    WithoutKeepsKeys(items, key);
    WithoutIsByRecency(ops, items, key, maximum);
    assert (ops + [Lookup(key)])[..|ops|] == ops;
    if Position(items, key) < |items| {
      FrontIsLatest(ops, Lookup(key), items[Position(items, key)], Without(items, key), maximum);
    } else {
      OthersKeepOrder(ops, Lookup(key), items, maximum);
    }
  }

  lemma {:induction false} InsertKeepsOrder(ops: seq<Op>, item: Item, items: seq<Item>, maximum: nat)
    requires Bounded(items, maximum) && ByRecency(ops, items, maximum)
    ensures ByRecency(ops + [Insert(item)], Inserted(items, item, maximum), maximum)
  {
    if Stored(item, maximum) {
      WithoutKeepsKeys(items, item.key);
      WithoutIsByRecency(ops, items, item.key, maximum);
      var kept := Fit(Without(items, item.key), maximum - item.bytes);
      PrefixIsByRecency(ops, Without(items, item.key), kept, item.key, maximum);
      StoredIsLatest(ops, item, kept, maximum);
      assert Inserted(items, item, maximum) == [item] + kept;
    } else {
      OthersKeepOrder(ops, Insert(item), items, maximum);
    }
  }

  lemma {:induction false} StoredIsLatest(ops: seq<Op>, item: Item, items: seq<Item>, maximum: nat)
    requires ByRecency(ops, items, maximum) && Stored(item, maximum) && forall k | 0 <= k < |items| ::
             items[k].key != item.key
    ensures ByRecency(ops + [Insert(item)], [item] + items, maximum)
  {
    FrontIsLatest(ops, Insert(item), item, items, maximum);
  }

  /** After any run of operations from the empty cache: keys are unique, the bound is
      kept, entries are in the order of their last use, and each holds what was last
      stored under its key. */
  lemma {:induction false} RunKeepsOrder(ops: seq<Op>, maximum: nat)
    ensures Bounded(After(ops, maximum), maximum) && ByRecency(ops, After(ops, maximum), maximum)
    decreases |ops|
  {
    if ops != [] {
      var before, op := ops[..|ops| - 1], ops[|ops| - 1];
      var items := After(before, maximum);
      assert ops == before + [op];
      RunKeepsOrder(before, maximum);
      match op
      case Lookup(key) =>
        TouchedIsBounded(items, key, maximum);
        LookupKeepsOrder(before, key, items, maximum);
      case Insert(item) =>
        InsertedIsBounded(items, item, maximum);
        InsertKeepsOrder(before, item, items, maximum);
    }
  }
}
