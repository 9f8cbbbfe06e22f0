/** Sorting by a key and dropping repetitions, in place. */
module Sorting {
  ghost predicate Sorted<T(!new)>(s: seq<T>, key: T -> nat) {
    forall i, j {:trigger s[i], s[j]} | 0 <= i < j < |s| :: key(s[i]) <= key(s[j])
  }

  ghost predicate Ascending<T(!new)>(s: seq<T>, key: T -> nat) {
    forall i, j {:trigger s[i], s[j]} | 0 <= i < j < |s| :: key(s[i]) < key(s[j])
  }

  /** Sorted up to position i, but for the element at position j on its way down. */
  ghost predicate Sinking<T(!new)>(s: seq<T>, key: T -> nat, i: nat, j: nat) {
    && j <= i < |s|
    && forall k, l {:trigger s[k], s[l]} | 0 <= k < l <= i && l != j :: key(s[k]) <= key(s[l])
  }

  lemma Sink<T(!new)>(s: seq<T>, key: T -> nat, i: nat, j: nat)
    requires Sinking(s, key, i, j) && 0 < j && key(s[j - 1]) > key(s[j])
    ensures Sinking(s[j - 1 := s[j]][j := s[j - 1]], key, i, j - 1)
    ensures multiset(s[j - 1 := s[j]][j := s[j - 1]]) == multiset(s)
  {
    var t := s[j - 1 := s[j]];
    assert multiset(t) == multiset(s) - multiset{s[j - 1]} + multiset{s[j]};
    assert multiset(t[j := s[j - 1]]) == multiset(t) - multiset{t[j]} + multiset{s[j - 1]};
  }

  lemma SinkStarts<T(!new)>(s: seq<T>, key: T -> nat, i: nat)
    requires i < |s| && Sorted(s[..i], key)
    ensures Sinking(s, key, i, i)
  {
    forall k, l | 0 <= k < l < i ensures key(s[k]) <= key(s[l]) {
      assert key(s[..i][k]) <= key(s[..i][l]);
    }
  }

  lemma SinkEnds<T(!new)>(s: seq<T>, key: T -> nat, i: nat, j: nat)
    requires Sinking(s, key, i, j) && (j == 0 || key(s[j - 1]) <= key(s[j]))
    ensures Sorted(s[..i + 1], key)
  {
  }

  /** Move a[i] down to its place among the sorted elements before it. */
  method Insert<T(!new)>(a: array<T>, key: T -> nat, i: nat)
    requires i < a.Length && Sorted(a[..i], key)
    modifies a
    ensures Sorted(a[..i + 1], key) && multiset(a[..]) == multiset(old(a[..]))
  {
    var j: nat := i;
    SinkStarts(a[..], key, i);
    while j > 0 && key(a[j - 1]) > key(a[j])
      invariant Sinking(a[..], key, i, j) && multiset(a[..]) == multiset(old(a[..]))
    {
      Sink(a[..], key, i, j);
      ghost var s := a[..];
      a[j - 1], a[j] := a[j], a[j - 1];
      assert a[..] == s[j - 1 := s[j]][j := s[j - 1]];
      j := j - 1;
    }
    SinkEnds(a[..], key, i, j);
  }

  /** A sort, where the program calls qsort. */
  method Sort<T(!new)>(a: array<T>, key: T -> nat)
    modifies a
    ensures Sorted(a[..], key) && multiset(a[..]) == multiset(old(a[..]))
  {
    for i := 0 to a.Length
      invariant Sorted(a[..i], key) && multiset(a[..]) == multiset(old(a[..]))
    {
      Insert(a, key, i);
    }
    assert a[..a.Length] == a[..];
  }

  ghost predicate HasKey<T(!new)>(s: seq<T>, key: T -> nat, k: nat) {
    exists x {:trigger x in s} :: x in s && key(x) == k
  }

  /** Of the elements before index, one with each key has been kept, in ascending order. */
  ghost predicate Kept<T(!new)>(s: seq<T>, key: T -> nat, index: nat, kept: seq<T>) {
    && index <= |s| && Ascending(kept, key) && (kept == [] <==> index == 0)
    && (kept != [] ==> key(kept[|kept| - 1]) == key(s[index - 1]))
    && (forall x {:trigger x in kept} | x in kept :: x in s)
    && (forall i {:trigger s[i]} | 0 <= i < index :: HasKey(kept, key, key(s[i])))
  }

  /** What is kept once the next element has been looked at. */
  ghost function Longer<T(!new)>(kept: seq<T>, key: T -> nat, next: T): seq<T> {
    if kept == [] || key(kept[|kept| - 1]) != key(next) then kept + [next] else kept
  }

  lemma KeepOne<T(!new)>(s: seq<T>, key: T -> nat, index: nat, kept: seq<T>)
    requires Sorted(s, key) && index < |s| && Kept(s, key, index, kept)
    ensures Kept(s, key, index + 1, Longer(kept, key, s[index]))
  {
    var last, more := s[index], Longer(kept, key, s[index]);
    assert kept != [] ==> key(kept[|kept| - 1]) <= key(last) by {
      assert index > 0 ==> key(s[index - 1]) <= key(s[index]);
    }
    assert more[|more| - 1] in more && key(more[|more| - 1]) == key(last);
    forall i | 0 <= i < index + 1 ensures HasKey(more, key, key(s[i])) {
      if i < index {
        var x :| x in kept && key(x) == key(s[i]);
        assert x in more;
      }
    }
  }

  /** What is kept of the first elements. */
  ghost function KeptOf<T(!new)>(s: seq<T>, key: T -> nat, index: nat): seq<T>
    requires index <= |s|
  {
    if index == 0 then [] else Longer(KeptOf(s, key, index - 1), key, s[index - 1])
  }

  lemma {:induction false} KeptOfIsKept<T(!new)>(s: seq<T>, key: T -> nat, index: nat)
    requires Sorted(s, key) && index <= |s|
    ensures Kept(s, key, index, KeptOf(s, key, index))
  {
    if index > 0 {
      KeptOfIsKept(s, key, index - 1);
      KeepOne(s, key, index - 1, KeptOf(s, key, index - 1));
    }
  }

  /** Keep the first of neighbours with equal keys, in place. */
  method Compact<T(!new)>(a: array<T>, key: T -> nat) returns (count: nat)
    requires Sorted(a[..], key)
    modifies a
    ensures count <= a.Length && a[..count] == KeptOf(old(a[..]), key, a.Length)
    ensures Ascending(a[..count], key)
    ensures forall x {:trigger x in a[..count]} | x in a[..count] :: x in old(a[..])
    ensures forall i {:trigger old(a[..])[i]} | 0 <= i < a.Length :: HasKey(a[..count], key, key(old(a[..])[i]))
  {
    count := 0;
    ghost var s := a[..];
    for index := 0 to a.Length
      invariant count <= index && a[index..] == s[index..] && a[..count] == KeptOf(s, key, index)
    {
      assert a[index] == s[index];
      if count == 0 || key(a[count - 1]) != key(a[index]) {
        ghost var kept := a[..count];
        a[count] := a[index];
        count := count + 1;
        assert a[..count] == kept + [s[index]];
      }
    }
    KeptOfIsKept(s, key, a.Length);
  }
}
