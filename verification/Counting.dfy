/** How many sets there are: of states, and of sets of states. */
module Counting {
  function Pow2(n: nat): (k: nat)
    ensures k > 0
  {
    if n == 0 then 1 else 2 * Pow2(n - 1)
  }

  /** Each set of the collection with x added. */
  ghost function Extended<T(!new)>(s: set<set<T>>, x: T): (t: set<set<T>>)
    ensures forall y {:trigger y in t} :: y in t <==> x in y && (y in s || y - {x} in s)
  {
    var t := set y | y in s :: y + {x};
    forall y ensures y in t <==> x in y && (y in s || y - {x} in s) {
      if y in t {
        var z :| z in s && y == z + {x};
        assert y == z || y - {x} == z;
      }
      if x in y && y in s {
        assert y == y + {x};
      }
      if x in y && y - {x} in s {
        assert y == (y - {x}) + {x};
      }
    }
    t
  }

  lemma ExtendedOne<T(!new)>(s: set<set<T>>, z: set<T>, x: T)
    requires z in s && forall y | y in s :: x !in y
    ensures Extended(s, x) == Extended(s - {z}, x) + {z + {x}}
    ensures z + {x} !in Extended(s - {z}, x)
  {
    assert (z + {x}) - {x} == z;
    forall y ensures y in Extended(s, x) <==> y in Extended(s - {z}, x) || y == z + {x} {
      if y in Extended(s, x) && y - {x} == z {
        assert y == z + {x};
      }
    }
  }

  lemma {:induction false} ExtendedSize<T(!new)>(s: set<set<T>>, x: T)
    requires forall y | y in s :: x !in y
    ensures |Extended(s, x)| == |s|
  {
    if s != {} {
      var z :| z in s;
      ExtendedSize(s - {z}, x);
      ExtendedOne(s, z, x);
    } else {
      assert Extended(s, x) == {};
    }
  }

  lemma UnionSize<T(!new)>(a: set<set<T>>, x: T)
    requires forall y | y in a :: x !in y
    ensures |a + Extended(a, x)| == 2 * |a|
  {
    ExtendedSize(a, x);
    assert a !! Extended(a, x);
  }

  /** The collection holds the subsets of the base. */
  ghost predicate AreSubsets<T(!new)>(s: set<set<T>>, base: set<T>) {
    forall y {:trigger y in s} :: y in s <==> y <= base
  }

  lemma OneMoreElement<T(!new)>(before: set<set<T>>, rest: set<T>, x: T)
    requires AreSubsets(before, rest) && x !in rest
    ensures AreSubsets(before + Extended(before, x), rest + {x})
  {
    var s := before + Extended(before, x);
    forall y: set<T> ensures y in s <==> y <= rest + {x} {
      if x in y {
        assert y !in before && (y in s <==> y - {x} in before);
        assert y == (y - {x}) + {x};
      } else {
        assert y <= rest + {x} ==> y <= rest;
      }
    }
  }

  lemma NoElements<T(!new)>()
    ensures AreSubsets<T>({{}}, {})
  {
    forall y: set<T> ensures y in {{}} <==> y <= {} {
      assert y <= {} ==> y == {};
    }
  }

  lemma OneMoreDoubles<T(!new)>(before: set<set<T>>, rest: set<T>, x: T)
    requires AreSubsets(before, rest) && x !in rest
    ensures |before + Extended(before, x)| == 2 * |before|
  {
    UnionSize(before, x);
  }

  /** The subsets of a set: two to its size of them. */
  lemma {:induction false} Subsets<T(!new)>(base: set<T>) returns (s: set<set<T>>)
    ensures |s| == Pow2(|base|) && AreSubsets(s, base)
    decreases |base|
  {
    s := {{}};
    if base == {} {
      NoElements<T>();
    } else {
      var x :| x in base;
      ghost var rest := base - {x};
      assert base == rest + {x} && |base| == |rest| + 1;
      var before := Subsets(rest);
      s := before + Extended(before, x);
      assert AreSubsets(s, base) by {
        OneMoreElement(before, rest, x);
      }
      assert |s| == 2 * Pow2(|rest|) by {
        OneMoreDoubles(before, rest, x);
      }
    }
  }

  lemma CollectionSize<T>(small: set<T>, large: set<T>)
    requires small <= large
    ensures |small| <= |large|
  {
    assert large == small + (large - small);
  }

  ghost predicate Other<T>(l: seq<T>, i: nat, j: nat)
    requires i < |l| && j < |l|
  {
    l[i] != l[j]
  }

  ghost predicate AllOther<T>(l: seq<T>) {
    forall i, j {:trigger Other(l, i, j)} | 0 <= i < j < |l| :: Other(l, i, j)
  }

  ghost function Members<T(!new)>(l: seq<T>): (s: set<T>)
    ensures forall x {:trigger x in s} :: x in s <==> x in l
  {
    set x | x in l
  }

  lemma {:induction false} MembersSize<T(!new)>(l: seq<T>)
    requires AllOther(l)
    ensures |Members(l)| == |l|
  {
    if l != [] {
      var n := |l| - 1;
      var before, last := l[..n], l[n];
      forall i, j | 0 <= i < j < n ensures Other(before, i, j) {
        assert Other(l, i, j);
      }
      MembersSize(before);
      assert l == before + [last];
      assert Members(l) == Members(before) + {last};
      forall i | 0 <= i < n ensures before[i] != last {
        assert Other(l, i, n);
      }
    }
  }

  /** Different subsets of a set: at most two to its size. */
  lemma SetsFit<T(!new)>(l: seq<set<T>>, base: set<T>)
    requires AllOther(l) && forall i | 0 <= i < |l| :: l[i] <= base
    ensures |l| <= Pow2(|base|)
  {
    MembersSize(l);
    var all := Subsets(base);
    CollectionSize(Members(l), all);
  }

  /** Different non-empty subsets: fewer. */
  lemma FewSets<T(!new)>(l: seq<set<T>>, base: set<T>)
    requires AllOther(l) && forall i | 0 <= i < |l| :: l[i] != {} && l[i] <= base
    ensures |l| < Pow2(|base|)
  {
    MembersSize(l);
    var all := Subsets(base);
    assert {} !in Members(l);
    CollectionSize(Members(l) + {{}}, all);
  }

  /** Different collections of non-empty subsets. */
  lemma CollectionsFit<T(!new)>(l: seq<set<set<T>>>, base: set<T>)
    requires AllOther(l) && forall i, x {:trigger x in l[i]} | 0 <= i < |l| && x in l[i] :: x != {} && x <= base
    ensures |l| <= Pow2(Pow2(|base|) - 1)
  {
    var all := Subsets(base);
    assert {} in all;
    assert all == (all - {{}}) + {{}};
    forall i | 0 <= i < |l| ensures l[i] <= all - {{}} {
    }
    SetsFit(l, all - {{}});
  }
}
