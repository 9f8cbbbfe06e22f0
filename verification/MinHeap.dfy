/** The binary min-heap of the rebuild: entries may be stale, and are never removed
    except from the top. */
module MinHeap {

  datatype HeapEntry = HeapEntry(pair: nat, distance: nat)

  predicate IsChild(parent: nat, child: nat) { child == 2 * parent + 1 || child == 2 * parent + 2 }

  ghost predicate Ordered(s: seq<HeapEntry>) {
    forall i, k {:trigger s[i], s[k]} | 0 <= i < k < |s| && IsChild(i, k) :: s[i].distance <= s[k].distance
  }

  /** The first entry of an ordered heap is a nearest one. */
  lemma {:induction false} TopIsLeast(s: seq<HeapEntry>, k: nat)
    requires Ordered(s) && k < |s|
    ensures s[0].distance <= s[k].distance
    decreases k
  {
    if k > 0 {
      assert IsChild((k - 1) / 2, k);
      TopIsLeast(s, (k - 1) / 2);
    }
  }

  /** Filling position j with entry x after moving s[j] to i exchanges nothing. */
  lemma MoveHole(s: seq<HeapEntry>, i: nat, j: nat, x: HeapEntry)
    requires i < |s| && j < |s| && i != j
    ensures multiset(s[i := s[j]][j := x]) == multiset(s[i := x])
  {
    var t := s[i := s[j]];
    assert multiset(t) == multiset(s) - multiset{s[i]} + multiset{s[j]};
    assert multiset(t[j := x]) == multiset(t) - multiset{t[j]} + multiset{x};
    assert multiset(s[i := x]) == multiset(s) - multiset{s[i]} + multiset{x};
  }

  /** Ordered away from the hole, and its neighbours are ordered across it. */
  ghost predicate OrderedAround(s: seq<HeapEntry>, hole: nat) {
    && hole < |s|
    && (forall i, k {:trigger s[i], s[k]} | 0 <= i < k < |s| && IsChild(i, k) && i != hole && k != hole ::
          s[i].distance <= s[k].distance)
    && (forall i, k {:trigger s[i], s[k]} | 0 <= i < k < |s| && IsChild(i, hole) && IsChild(hole, k) ::
          s[i].distance <= s[k].distance)
  }

  ghost predicate AboveHole(s: seq<HeapEntry>, hole: nat, d: nat) {
    forall i {:trigger s[i]} | 0 <= i < |s| && IsChild(i, hole) :: s[i].distance <= d
  }

  ghost predicate BelowHole(s: seq<HeapEntry>, hole: nat, d: nat) {
    forall k {:trigger s[k]} | 0 <= k < |s| && IsChild(hole, k) :: d <= s[k].distance
  }

  lemma FillHole(s: seq<HeapEntry>, hole: nat, x: HeapEntry)
    requires OrderedAround(s, hole) && AboveHole(s, hole, x.distance) && BelowHole(s, hole, x.distance)
    ensures Ordered(s[hole := x])
  {
  }

  lemma HoleUp(s: seq<HeapEntry>, hole: nat, parent: nat, d: nat)
    requires OrderedAround(s, hole) && BelowHole(s, hole, d)
    requires IsChild(parent, hole) && d < s[parent].distance
    ensures OrderedAround(s[hole := s[parent]], parent) && BelowHole(s[hole := s[parent]], parent, d)
  {
  }

  /** The left child, unless there is a right one that is strictly nearer. */
  function NearerChild(s: seq<HeapEntry>, position: nat): (child: nat)
    requires 2 * position + 1 < |s|
    ensures child < |s| && IsChild(position, child)
    ensures BelowHole(s, position, s[child].distance)
  {
    var left := position * 2 + 1;
    var right := left + 1;
    if right < |s| && s[right].distance < s[left].distance then right else left
  }

  lemma HoleDown(s: seq<HeapEntry>, hole: nat, child: nat, d: nat)
    requires OrderedAround(s, hole) && AboveHole(s, hole, d)
    requires IsChild(hole, child) && child < |s| && s[child].distance < d
    requires BelowHole(s, hole, s[child].distance)
    ensures OrderedAround(s[hole := s[child]], child) && AboveHole(s[hole := s[child]], child, d)
  {
  }

  lemma DropLast(s: seq<HeapEntry>)
    requires Ordered(s) && |s| > 0
    ensures Ordered(s[..|s| - 1])
    ensures |s| == 1 ==> multiset(s) == multiset{s[0]}
    ensures |s| > 1 ==> multiset(s) == multiset(s[..|s| - 1][0 := s[|s| - 1]]) + multiset{s[0]}
  {
    var t := s[..|s| - 1];
    assert s == t + [s[|s| - 1]];
    if |s| > 1 {
      assert multiset(t[0 := s[|s| - 1]]) == multiset(t) - multiset{t[0]} + multiset{s[|s| - 1]};
    }
  }

  class Heap {
    var items: seq<HeapEntry>

    ghost predicate Valid() reads this { Ordered(items) }

    constructor ()
      ensures Valid() && items == []
    {
      items := [];
    }

    method Push(pair: nat, distance: nat)
      requires Valid()
      modifies this
      ensures Valid()
      ensures multiset(items) == multiset(old(items)) + multiset{HeapEntry(pair, distance)}
    {
      var entry := HeapEntry(pair, distance);
      var position := |items|;
      items := items + [entry];
      assert items[position := entry] == items;
      while position != 0
        invariant |items| == |old(items)| + 1
        invariant OrderedAround(items, position)
        invariant multiset(items[position := entry]) == multiset(old(items)) + multiset{entry}
        invariant BelowHole(items, position, distance)
      {
        var parent := (position - 1) / 2;
        assert IsChild(parent, position);
        if items[parent].distance <= distance {
          break;
        }
        MoveHole(items, position, parent, entry);
        HoleUp(items, position, parent, distance);
        items := items[position := items[parent]];
        position := parent;
      }
      FillHole(items, position, entry);
      items := items[position := entry];
    }

    method Pop() returns (result: HeapEntry)
      requires Valid() && items != []
      modifies this
      ensures Valid()
      ensures result == old(items)[0]
      ensures multiset(old(items)) == multiset(items) + multiset{result}
      ensures |items| == |old(items)| - 1
    {
      result := items[0];
      var last := |items| - 1;
      var replacement := items[last];
      DropLast(items);
      items := items[..last];
      if last != 0 {
        SiftDown(replacement);
      }
    }

    /** The second half of sg_heap_pop: put the replacement back from the top. */
    method SiftDown(replacement: HeapEntry)
      requires Valid() && items != []
      modifies this
      ensures Valid()
      ensures multiset(items) == multiset(old(items)[0 := replacement])
      ensures |items| == |old(items)|
    {
      var position := 0;
      while true
        invariant |items| == |old(items)|
        invariant OrderedAround(items, position)
        invariant multiset(items[position := replacement]) == multiset(old(items)[0 := replacement])
        invariant AboveHole(items, position, replacement.distance)
        decreases |items| - position
      {
        if position * 2 + 1 >= |items| {
          break;
        }
        var child := NearerChild(items, position);
        if items[child].distance >= replacement.distance {
          break;
        }
        MoveHole(items, position, child, replacement);
        HoleDown(items, position, child, replacement.distance);
        items := items[position := items[child]];
        position := child;
      }
      FillHole(items, position, replacement);
      items := items[position := replacement];
    }
  }
}
