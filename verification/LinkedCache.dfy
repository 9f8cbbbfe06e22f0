/** The snapshot cache as the program keeps it: nodes linked in both directions. */
module LinkedCache {
  import opened Cache

  /** sg_snapshot_cache_entry */
  class Node {
    const item: Item
    var newer: Node?
    var older: Node?

    constructor (item: Item)
      ensures this.item == item && newer == null && older == null
    {
      this.item := item;
      newer, older := null, null;
    }
  }

  ghost function ItemsOf(nodes: seq<Node>): (items: seq<Item>)
    ensures |items| == |nodes| && forall i {:trigger items[i]} | 0 <= i < |items| :: items[i] == nodes[i].item
  {
    seq(|nodes|, i requires 0 <= i < |nodes| => nodes[i].item)
  }

  lemma RemovedItems(nodes: seq<Node>, k: nat, key: Key)
    requires k == Position(ItemsOf(nodes), key) < |nodes|
    ensures ItemsOf(nodes[..k] + nodes[k + 1..]) == Without(ItemsOf(nodes), key)
  {
  }

  lemma TouchedItems(nodes: seq<Node>, k: nat, key: Key)
    requires k == Position(ItemsOf(nodes), key) < |nodes|
    ensures ItemsOf([nodes[k]] + (nodes[..k] + nodes[k + 1..])) == Touched(ItemsOf(nodes), key)
    ensures k == 0 ==> Touched(ItemsOf(nodes), key) == ItemsOf(nodes)
  {
    RemovedItems(nodes, k, key);
    assert ItemsOf([nodes[k]] + (nodes[..k] + nodes[k + 1..]))
        == [nodes[k].item] + ItemsOf(nodes[..k] + nodes[k + 1..]);
    if k == 0 {
      assert nodes == [nodes[0]] + (nodes[..0] + nodes[1..]);
    }
  }

  ghost function Fronted(nodes: seq<Node>, k: nat): seq<Node>
    requires k < |nodes|
  {
    if k == 0 then nodes else [nodes[k]] + (nodes[..k] + nodes[k + 1..])
  }

  /** What a lookup that finds its entry leaves. */
  lemma LookupFacts(nodes: seq<Node>, k: nat, key: Key, maximum: nat)
    requires k == Position(ItemsOf(nodes), key) && Bounded(ItemsOf(nodes), maximum)
    ensures k == |nodes| ==> Touched(ItemsOf(nodes), key) == ItemsOf(nodes)
    ensures k < |nodes| ==>
              var items := ItemsOf(Fronted(nodes, k));
              && items == Touched(ItemsOf(nodes), key) && Bounded(items, maximum) && Sum(items) == Sum(ItemsOf(nodes))
              && |items| > 0 && items[0] == nodes[k].item && nodes[k].item.key == key
  {
    TouchedIsBounded(ItemsOf(nodes), key, maximum);
    if k < |nodes| {
      TouchedItems(nodes, k, key);
    }
  }

  /** What an insertion leaves. */
  lemma InsertFacts(items: seq<Item>, item: Item, maximum: nat)
    requires Bounded(items, maximum)
    ensures Bounded(Inserted(items, item, maximum), maximum)
    ensures maximum == 0 || item.bytes > maximum ==> Inserted(items, item, maximum) == items
    ensures maximum > 0 && item.bytes <= maximum ==>
              Inserted(items, item, maximum) == [item] + Fit(Without(items, item.key), maximum - item.bytes)
  {
    InsertedIsBounded(items, item, maximum);
  }

  lemma FrontItems(node: Node, nodes: seq<Node>)
    ensures ItemsOf([node] + nodes) == [node.item] + ItemsOf(nodes)
  {
  }

  /** sg_snapshot_cache */
  class SnapshotCache {
    const maximum: nat
    var bytes: nat
    var newest: Node?
    var oldest: Node?

    /** The nodes, the newest first. */
    ghost var nodes: seq<Node>

    ghost function Items(): (items: seq<Item>)
      reads this`nodes
    {
      ItemsOf(nodes)
    }

    ghost predicate LinkedAt(i: nat)
      requires i < |nodes|
      reads this`nodes, set x | x in nodes
    {
      && nodes[i].newer == (if i == 0 then null else nodes[i - 1])
      && nodes[i].older == (if i == |nodes| - 1 then null else nodes[i + 1])
    }

    /** The two directions agree, and no node is linked twice. */
    ghost predicate Linked()
      reads this`newest, this`oldest, this`nodes, set x | x in nodes
    {
      && newest == (if nodes == [] then null else nodes[0])
      && oldest == (if nodes == [] then null else nodes[|nodes| - 1])
      && (forall i {:trigger LinkedAt(i)} | 0 <= i < |nodes| :: LinkedAt(i))
      && (forall i, j {:trigger nodes[i], nodes[j]} | 0 <= i < j < |nodes| :: nodes[i] != nodes[j])
    }

    ghost predicate Valid()
      reads this, set x | x in nodes
    {
      Linked() && Bounded(Items(), maximum) && bytes == Sum(Items())
    }

    /** sg_snapshot_cache_create */
    constructor (maximum: nat)
      ensures Valid() && Items() == [] && this.maximum == maximum
    {
      this.maximum := maximum;
      bytes, newest, oldest, nodes := 0, null, null, [];
    }

    /** sg_cache_unlink */
    method Unlink(node: Node, ghost k: nat)
      requires Linked() && k < |nodes| && nodes[k] == node
      modifies this`newest, this`oldest, this`nodes, set x | x in nodes
      ensures Linked() && nodes == old(nodes)[..k] + old(nodes)[k + 1..] && node !in nodes
      ensures node.newer == null && node.older == null
    {
      assert LinkedAt(k);
      assert k > 0 ==> LinkedAt(k - 1);
      assert k + 1 < |nodes| ==> LinkedAt(k + 1);
      ghost var before := nodes;
      if node.newer != null {
        node.newer.older := node.older;
      } else {
        newest := node.older;
      }
      if node.older != null {
        node.older.newer := node.newer;
      } else {
        oldest := node.newer;
      }
      node.newer := null;
      node.older := null;
      nodes := nodes[..k] + nodes[k + 1..];
      forall i | 0 <= i < |nodes| ensures LinkedAt(i) {
        assert nodes[i] == before[if i < k then i else i + 1];
        assert old(LinkedAt(if i < k then i else i + 1));
      }
    }

    /** sg_cache_link_newest */
    method LinkNewest(node: Node)
      requires Linked() && node !in nodes
      modifies this`newest, this`oldest, this`nodes, node, set x | x in nodes
      ensures Linked() && nodes == [node] + old(nodes)
    {
      ghost var before := nodes;
      assert nodes != [] ==> LinkedAt(0);
      node.newer := null;
      node.older := newest;
      if newest != null {
        newest.newer := node;
      } else {
        oldest := node;
      }
      newest := node;
      nodes := [node] + nodes;
      forall i | 0 <= i < |nodes| ensures LinkedAt(i) {
        if i > 0 {
          assert nodes[i] == before[i - 1];
          assert old(LinkedAt(i - 1));
        }
      }
    }

    /** sg_cache_pop_oldest */
    method PopOldest() returns (node: Node)
      requires Linked() && nodes != []
      modifies this`newest, this`oldest, this`nodes, set x | x in nodes
      ensures Linked() && node == old(nodes)[|old(nodes)| - 1] && nodes == old(nodes)[..|old(nodes)| - 1]
      ensures node.newer == null && node.older == null
    {
      ghost var before := nodes;
      assert LinkedAt(|nodes| - 1);
      assert |nodes| > 1 ==> LinkedAt(|nodes| - 2);
      node := oldest;
      oldest := node.newer;
      if oldest != null {
        oldest.older := null;
      } else {
        newest := null;
      }
      node.newer := null;
      node.older := null;
      nodes := nodes[..|nodes| - 1];
      forall i | 0 <= i < |nodes| ensures LinkedAt(i) {
        assert nodes[i] == before[i];
        assert old(LinkedAt(i));
      }
    }

    /** The loop that looks for a key, from the newest entry on. */
    method Find(key: Key) returns (node: Node?, ghost k: nat)
      requires Linked()
      ensures k == Position(Items(), key)
      ensures node == if k < |nodes| then nodes[k] else null
    {
      node, k := newest, 0;
      while node != null && node.item.key != key
        invariant k <= |nodes| && node == if k < |nodes| then nodes[k] else null
        invariant forall i | 0 <= i < k :: Items()[i].key != key
        decreases |nodes| - k
      {
        assert LinkedAt(k);
        node, k := node.older, k + 1;
      }
      PositionIs(Items(), key, k);
    }

    /** sg_snapshot_cache_lookup */
    method Lookup(key: Key) returns (found: bool, snapshot: nat)
      requires Valid()
      modifies this`newest, this`oldest, this`nodes, set x | x in nodes
      ensures Valid() && Items() == Touched(old(Items()), key)
      ensures found <==> Position(old(Items()), key) < |old(Items())|
      ensures found ==> |Items()| > 0 && Items()[0].key == key && Items()[0].snapshot == snapshot
    {
      var node, k := Find(key);
      LookupFacts(nodes, k, key, maximum);
      if node == null {
        return false, 0;
      }
      MoveToFront(node, k);
      return true, node.item.snapshot;
    }

    method MoveToFront(node: Node, ghost k: nat)
      requires Linked() && k < |nodes| && nodes[k] == node
      modifies this`newest, this`oldest, this`nodes, set x | x in nodes
      ensures Linked() && nodes == Fronted(old(nodes), k)
    {
      if node != newest {
        Unlink(node, k);
        LinkNewest(node);
      }
    }

    /** Link a new entry, for which there is room. */
    method AddNewest(item: Item)
      requires Linked() && bytes == Sum(Items())
      modifies this`bytes, this`newest, this`oldest, this`nodes, set x | x in nodes
      ensures Linked() && Items() == [item] + old(Items()) && bytes == Sum(Items())
    {
      var created := new Node(item);
      assert created !in nodes;
      FrontItems(created, nodes);
      SumOfFront(item, Items());
      LinkNewest(created);
      bytes := bytes + item.bytes;
    }

    /** Unlink the entry of the key, and make room. */
    method Reduce(key: Key, room: nat)
      requires Valid()
      modifies this`bytes, this`newest, this`oldest, this`nodes, set x | x in nodes
      ensures Linked() && Items() == Fit(Without(old(Items()), key), room) && bytes == Sum(Items())
      ensures forall x | x in nodes :: x in old(nodes)
    {
      Remove(key);
      MakeRoom(room);
    }

    /** Make room for an entry that fits the maximum, and put it first. */
    method Replace(item: Item)
      requires Valid() && item.bytes <= maximum
      modifies this`bytes, this`newest, this`oldest, this`nodes, set x | x in nodes
      ensures Linked() && Items() == [item] + Fit(Without(old(Items()), item.key), maximum - item.bytes)
      ensures bytes == Sum(Items())
    {
      Reduce(item.key, maximum - item.bytes);
      AddNewest(item);
    }

    /** sg_snapshot_cache_insert */
    method Insert(item: Item) returns (stored: bool)
      requires Valid()
      modifies this, set x | x in nodes
      ensures Valid() && Items() == Inserted(old(Items()), item, maximum)
      ensures stored <==> maximum > 0 && item.bytes <= maximum
    {
      InsertFacts(Items(), item, maximum);
      if maximum == 0 || item.bytes > maximum {
        return false;
      }
      Replace(item);
      return true;
    }

    /** Unlink the entry of the key, if there is one. */
    method Remove(key: Key)
      requires Valid()
      modifies this`bytes, this`newest, this`oldest, this`nodes, set x | x in nodes
      ensures Linked() && Items() == Without(old(Items()), key) && bytes == Sum(Items())
      ensures forall x | x in nodes :: x in old(nodes)
    {
      var existing, k := Find(key);
      WithoutSum(Items(), key);
      if existing != null {
        RemovedItems(nodes, k, key);
        Unlink(existing, k);
        bytes := bytes - existing.item.bytes;
      }
    }

    /** The loop that evicts the oldest entries. */
    method MakeRoom(room: nat)
      requires Linked() && bytes == Sum(Items())
      modifies this`bytes, this`newest, this`oldest, this`nodes, set x | x in nodes
      ensures Linked() && Items() == Fit(old(Items()), room) && bytes == Sum(Items())
      ensures forall x | x in nodes :: x in old(nodes)
    {
      while bytes > room && oldest != null
        invariant Linked() && bytes == Sum(Items()) && Fit(Items(), room) == Fit(old(Items()), room)
        invariant forall x | x in nodes :: x in old(nodes)
        decreases |nodes|
      {
        ghost var items := Items();
        var evicted := PopOldest();
        assert Items() == items[..|items| - 1];
        bytes := bytes - evicted.item.bytes;
      }
    }
  }
}
