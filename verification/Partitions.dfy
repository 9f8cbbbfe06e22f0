/** Support partitions: the branch supports alone, sorted, each listed once. */
module Partitions {
  import opened PairGraph
  import opened Pairs
  import opened Supports
  import opened WordSearch
  import opened SupportSearch
  import opened Counting
  import opened Columns
  import opened Traces

  // ---------- sg_bitset_compare ----------

  /** The number that the bits of a set spell, from a base on. */
  function WordValue(s: set<nat>, base: nat, bits: nat): (v: nat)
    ensures v < Pow2(bits)
  {
    if bits == 0 then 0 else WordValue(s, base, bits - 1) + (if base + bits - 1 in s then Pow2(bits - 1) else 0)
  }

  lemma {:induction false} SameValueSameBits(s: set<nat>, t: set<nat>, base: nat, bits: nat, k: nat)
    requires WordValue(s, base, bits) == WordValue(t, base, bits) && k < bits
    ensures base + k in s <==> base + k in t
  {
    if k < bits - 1 {
      SameValueSameBits(s, t, base, bits - 1, k);
    }
  }

  /** Below zero, zero or above: the words compared from the last one down. */
  function Compared(s: set<nat>, t: set<nat>, words: nat): int {
    if words == 0 then 0
    else
      var base := (words - 1) * WORD_BITS;
      var u, v := WordValue(s, base, WORD_BITS), WordValue(t, base, WORD_BITS);
      if u < v then -1 else if u > v then 1 else Compared(s, t, words - 1)
  }

  /** sg_bitset_compare */
  method Compare(s: set<nat>, t: set<nat>, words: nat) returns (order: int)
    ensures order == Compared(s, t, words)
  {
    for index := words downto 0
      invariant Compared(s, t, words) == Compared(s, t, index)
    {
      var base := index * WORD_BITS;
      var u, v := WordValue(s, base, WORD_BITS), WordValue(t, base, WORD_BITS);
      if u < v {
        return -1;
      }
      if u > v {
        return 1;
      }
    }
    order := 0;
  }

  ghost predicate Less(s: set<nat>, t: set<nat>, words: nat) { Compared(s, t, words) < 0 }

  lemma {:induction false} ComparedSwapped(s: set<nat>, t: set<nat>, words: nat)
    ensures Compared(t, s, words) == -Compared(s, t, words)
  {
    if words > 0 {
      ComparedSwapped(s, t, words - 1);
    }
  }

  lemma {:induction false} LessTrans(s: set<nat>, t: set<nat>, u: set<nat>, words: nat)
    requires Less(s, t, words) && Less(t, u, words)
    ensures Less(s, u, words)
  {
    var base := (words - 1) * WORD_BITS;
    var x, y, z := WordValue(s, base, WORD_BITS), WordValue(t, base, WORD_BITS), WordValue(u, base, WORD_BITS);
    if x == y == z {
      LessTrans(s, t, u, words - 1);
    }
  }

  lemma {:induction false} ComparedEqual(s: set<nat>, t: set<nat>, words: nat, x: nat)
    requires Compared(s, t, words) == 0 && x < words * WORD_BITS
    ensures x in s <==> x in t
  {
    var base := (words - 1) * WORD_BITS;
    if x >= base {
      SameValueSameBits(s, t, base, WORD_BITS, x - base);
    } else {
      ComparedEqual(s, t, words - 1, x);
    }
  }

  /** The smaller value lacks the highest bit that differs. */
  lemma {:induction false} SmallerLacksHighest(s: set<nat>, t: set<nat>, base: nat, bits: nat) returns (x: nat)
    requires WordValue(s, base, bits) < WordValue(t, base, bits)
    ensures base <= x < base + bits && x in t && x !in s
    ensures forall y | x < y < base + bits :: y in s <==> y in t
  {
    x := base + bits - 1;
    if x in s <==> x in t {
      x := SmallerLacksHighest(s, t, base, bits - 1);
    }
  }

  /** Of two sets, the one that holds the highest state in which they differ is greater. */
  lemma {:induction false} LessLacksHighest(s: set<nat>, t: set<nat>, words: nat) returns (x: nat)
    requires Less(s, t, words)
    ensures x < words * WORD_BITS && x in t && x !in s
    ensures forall y | x < y < words * WORD_BITS :: y in s <==> y in t
  {
    var base := (words - 1) * WORD_BITS;
    if WordValue(s, base, WORD_BITS) < WordValue(t, base, WORD_BITS) {
      x := SmallerLacksHighest(s, t, base, WORD_BITS);
    } else {
      x := LessLacksHighest(s, t, words - 1);
      forall y | base <= y < words * WORD_BITS ensures y in s <==> y in t {
        SameValueSameBits(s, t, base, WORD_BITS, y - base);
      }
    }
  }

  /** The comparison is a strict total order of sets of states. */
  lemma LessIsTotal(n: nat, s: set<nat>, t: set<nat>)
    requires s <= Upto(n) && t <= Upto(n)
    ensures s == t || Less(s, t, WordsPerColumn(n)) || Less(t, s, WordsPerColumn(n))
    ensures !Less(s, s, WordsPerColumn(n))
    ensures !(Less(s, t, WordsPerColumn(n)) && Less(t, s, WordsPerColumn(n)))
  {
    ComparedSwapped(s, t, WordsPerColumn(n));
    ComparedSwapped(s, s, WordsPerColumn(n));
    if Compared(s, t, WordsPerColumn(n)) == 0 {
      forall x: nat ensures x in s <==> x in t {
        if x < n {
          WordInColumn(n, x);
          assert x < WordsPerColumn(n) * WORD_BITS;
          ComparedEqual(s, t, WordsPerColumn(n), x);
        }
      }
    }
  }

  // ---------- Sorted partitions ----------

  type Partition = seq<set<nat>>

  ghost predicate InOrder(n: nat, p: Partition, i: nat, j: nat)
    requires i < |p| && j < |p|
  {
    Less(p[i], p[j], WordsPerColumn(n))
  }

  /** Non-empty sets of states, in strictly ascending order. */
  ghost predicate Sorted(n: nat, p: Partition) {
    && (forall k {:trigger p[k]} | 0 <= k < |p| :: p[k] != {} && p[k] <= Upto(n))
    && (forall i, j {:trigger InOrder(n, p, i, j)} | 0 <= i < j < |p| :: InOrder(n, p, i, j))
  }

  lemma LastIsLast(n: nat, p: Partition, q: Partition)
    requires Sorted(n, p) && Sorted(n, q) && p != [] && q != [] && Members(p) == Members(q)
    ensures p[|p| - 1] == q[|q| - 1]
  {
    var x, y := p[|p| - 1], q[|q| - 1];
    assert x in Members(q) && y in Members(p);
    var i :| 0 <= i < |p| && p[i] == y;
    var j :| 0 <= j < |q| && q[j] == x;
    assert i < |p| - 1 ==> InOrder(n, p, i, |p| - 1);
    assert j < |q| - 1 ==> InOrder(n, q, j, |q| - 1);
    LessIsTotal(n, x, y);
  }

  lemma DropLast(n: nat, p: Partition)
    requires Sorted(n, p) && p != []
    ensures Sorted(n, p[..|p| - 1])
    ensures Members(p[..|p| - 1]) == Members(p) - {p[|p| - 1]}
  {
    var before, last := p[..|p| - 1], p[|p| - 1];
    forall i, j | 0 <= i < j < |before| ensures InOrder(n, before, i, j) {
      assert InOrder(n, p, i, j);
    }
    forall x ensures x in Members(before) <==> x in Members(p) && x != last {
      if x in Members(before) {
        var i :| 0 <= i < |before| && before[i] == x;
        assert InOrder(n, p, i, |p| - 1);
        LessIsTotal(n, x, last);
        assert p[i] == x;
      }
      if x in Members(p) && x != last {
        var i :| 0 <= i < |p| && p[i] == x;
        assert before[i] == x;
      }
    }
  }

  lemma BothEmpty(p: Partition, q: Partition)
    requires Members(p) == Members(q)
    ensures p == [] <==> q == []
  {
    if p != [] {
      assert p[0] in Members(q);
    }
    if q != [] {
      assert q[0] in Members(p);
    }
  }

  /** Sorting makes equality position by position the equality of sets. */
  lemma {:induction false} SortedIsCanonical(n: nat, p: Partition, q: Partition)
    requires Sorted(n, p) && Sorted(n, q)
    ensures p == q <==> Members(p) == Members(q)
    decreases |p|
  {
    if Members(p) == Members(q) {
      BothEmpty(p, q);
      if p != [] {
        LastIsLast(n, p, q);
        DropLast(n, p);
        DropLast(n, q);
        SortedIsCanonical(n, p[..|p| - 1], q[..|q| - 1]);
        assert p == p[..|p| - 1] + [p[|p| - 1]] && q == q[..|q| - 1] + [q[|q| - 1]];
      }
    }
  }

  /** sg_support_partition_equal */
  method SamePartition(p: Partition, q: Partition) returns (same: bool)
    ensures same == (p == q)
  {
    if |p| != |q| {
      return false;
    }
    for index := 0 to |p|
      invariant p[..index] == q[..index]
    {
      if p[index] != q[index] {
        return false;
      }
    }
    same := true;
    assert p[..|p|] == p && q[..|q|] == q;
  }

  /** While sg_support_partition_add looks for the place, what is before the gap is as
      it was, and what comes after it has moved up and is larger than the newcomer. */
  ghost predicate Shifted(n: nat, p: Partition, s: set<nat>, q: Partition, position: nat) {
    && |q| == |p| + 1 && position <= |p|
    && (forall k {:trigger q[k]} | 0 <= k < position :: q[k] == p[k])
    && (forall k {:trigger q[k]} | position < k < |q| :: q[k] == p[k - 1] && Less(s, q[k], WordsPerColumn(n)))
  }

  lemma GapIsPlace(n: nat, p: Partition, s: set<nat>, q: Partition, position: nat)
    requires Sorted(n, p) && Shifted(n, p, s, q, position) && s !in p && s != {} && s <= Upto(n)
    requires position == 0 || !Less(s, q[position - 1], WordsPerColumn(n))
    ensures Sorted(n, q[position := s]) && Members(q[position := s]) == Members(p) + {s}
  {
    var r := q[position := s];
    forall i, j | 0 <= i < j < |r| ensures InOrder(n, r, i, j) {
      if i < position && j < position {
        assert InOrder(n, p, i, j);
      } else if i > position {
        assert r[i] == p[i - 1] && r[j] == p[j - 1];
        assert InOrder(n, p, i - 1, j - 1);
      } else if i < position {
        assert q[position - 1] == p[position - 1];
        LessIsTotal(n, s, p[position - 1]);
        if i < position - 1 {
          assert InOrder(n, p, i, position - 1);
          LessTrans(p[i], p[position - 1], s, WordsPerColumn(n));
        }
        if j > position {
          LessTrans(p[i], s, r[j], WordsPerColumn(n));
        }
      }
    }
    forall k | 0 <= k < |r| ensures r[k] != {} && r[k] <= Upto(n) {
      assert r[k] == if k < position then p[k] else if k == position then s else p[k - 1];
    }
    SameMembers(n, p, s, q, position);
  }

  lemma SameMembers(n: nat, p: Partition, s: set<nat>, q: Partition, position: nat)
    requires Shifted(n, p, s, q, position)
    ensures Members(q[position := s]) == Members(p) + {s}
  {
    var r := q[position := s];
    forall x ensures x in Members(r) <==> x in Members(p) || x == s {
      if x in Members(r) {
        var k :| 0 <= k < |r| && r[k] == x;
        assert r[k] == if k < position then p[k] else if k == position then s else p[k - 1];
      }
      if x in Members(p) {
        var k :| 0 <= k < |p| && p[k] == x;
        assert r[if k < position then k else k + 1] == x;
      }
      assert r[position] == s;
    }
  }

  /** sg_support_partition_add */
  method AddSupport(n: nat, p: Partition, s: set<nat>) returns (q: Partition)
    requires Sorted(n, p) && s != {} && s <= Upto(n)
    ensures Sorted(n, q) && Members(q) == Members(p) + {s}
  {
    for index := 0 to |p|
      invariant s !in p[..index]
    {
      if p[index] == s {
        return p;
      }
    }
    q := p + [s];
    var position: nat := |p|;
    while position > 0
      invariant Shifted(n, p, s, q, position)
    {
      var order := Compare(s, q[position - 1], WordsPerColumn(n));
      if order >= 0 {
        break;
      }
      q := q[position := q[position - 1]];
      position := position - 1;
    }
    assert p[..|p|] == p;
    GapIsPlace(n, p, s, q, position);
    q := q[position := s];
  }

  /** sg_support_partition_worst */
  method Worst(p: Partition) returns (worst: nat)
    ensures forall k | 0 <= k < |p| :: |p[k]| <= worst
    ensures worst == 0 || exists k :: 0 <= k < |p| && |p[k]| == worst
  {
    worst := 0;
    for index := 0 to |p|
      invariant forall k | 0 <= k < index :: |p[k]| <= worst
      invariant worst == 0 || exists k :: 0 <= k < index && |p[k]| == worst
    {
      if |p[index]| > worst {
        worst := |p[index]|;
      }
    }
  }

  // ---------- One action ----------

  /** The groups of the branches before k, and of branch k for the outputs before o. */
  ghost predicate GroupedUpto(m: Automaton, p: Partition, a: nat, k: nat, o: nat, q: Partition)
    requires m.Valid() && a < m.actions && k <= |p|
  {
    && Sorted(m.states, q)
    && (forall x {:trigger x in q} | x in q :: x in Refined(m, Members(p), a))
    && (forall i, u {:trigger Group(m, p[i], a, u)} | 0 <= i <= k && i < |p| && 0 <= u < m.outputs && (i == k ==> u < o)
                       && Group(m, p[i], a, u) != {} :: Group(m, p[i], a, u) in q)
  }

  lemma GroupIsSupport(m: Automaton, s: set<nat>, a: nat, o: nat)
    requires m.Valid() && a < m.actions && s <= Upto(m.states)
    ensures Group(m, s, a, o) <= Upto(m.states)
    ensures Group(m, s, a, o) != {} ==> o < m.outputs
  {
  }

  /** One more group, if it is not empty. */
  lemma GroupAdded(m: Automaton, p: Partition, a: nat, k: nat, o: nat, q: Partition, r: Partition)
    requires m.Valid() && a < m.actions && k < |p| && o < m.outputs && GroupedUpto(m, p, a, k, o, q)
    requires Sorted(m.states, r)
    requires Members(r) == Members(q) + (if Group(m, p[k], a, o) != {} then {Group(m, p[k], a, o)} else {})
    ensures GroupedUpto(m, p, a, k, o + 1, r)
  {
    assert p[k] in Members(p);
    forall x | x in r ensures x in Refined(m, Members(p), a) {
      assert x in Members(r);
      assert x in Members(q) ==> x in q;
    }
    forall i, u | 0 <= i <= k && i < |p| && 0 <= u < m.outputs && (i == k ==> u < o + 1) && Group(m, p[i], a, u) != {}
      ensures Group(m, p[i], a, u) in r
    {
      var x := Group(m, p[i], a, u);
      assert i < k || u < o ==> x in q && x in Members(q);
      assert x in Members(r);
    }
  }

  lemma GroupedAll(m: Automaton, p: Partition, a: nat, q: Partition)
    requires m.Valid() && a < m.actions && GroupedUpto(m, p, a, |p|, 0, q)
    ensures Members(q) == Refined(m, Members(p), a)
  {
    forall x | x in Refined(m, Members(p), a) ensures x in Members(q) {
      var s, o :| s in Members(p) && o in Upto(m.outputs) && Group(m, s, a, o) != {} && x == Group(m, s, a, o);
      var i :| 0 <= i < |p| && p[i] == s;
    }
  }

  /** sg_support_partition_apply_action */
  method RefinePartition(m: Automaton, p: Partition, action: nat) returns (q: Partition)
    requires m.Valid() && action < m.actions && Sorted(m.states, p)
    ensures Sorted(m.states, q) && Members(q) == Refined(m, Members(p), action)
  {
    q := [];
    for k := 0 to |p|
      invariant GroupedUpto(m, p, action, k, 0, q)
    {
      var groups, used := SplitByOutput(m, p[k], action);
      for output := 0 to m.outputs
        invariant GroupedUpto(m, p, action, k, output, q)
      {
        ghost var before := q;
        if used[output] {
          GroupIsSupport(m, p[k], action, output);
          q := AddSupport(m.states, q, groups[output]);
        }
        GroupAdded(m, p, action, k, output, before, q);
      }
    }
    GroupedAll(m, p, action, q);
  }

  // ---------- What a support partition is ----------

  ghost predicate HasBranch(m: Automaton, s: set<nat>, w: seq<nat>, b: set<nat>)
    requires m.Valid() && IsWord(m, w)
  {
    exists t {:trigger Branch(m, s, w, t)} :: Branch(m, s, w, t) == b
  }

  ghost predicate AreBranches(m: Automaton, s: set<nat>, w: seq<nat>, parts: set<set<nat>>)
    requires m.Valid() && IsWord(m, w)
  {
    forall b {:trigger b in parts} {:trigger HasBranch(m, s, w, b)} :: b in parts <==> b != {} && HasBranch(m, s, w, b)
  }

  lemma BranchesStart(m: Automaton, s: set<nat>)
    requires IsSupport(m, s)
    ensures AreBranches(m, s, [], {s})
  {
    BranchStarts(m, s);
    forall b ensures b in {s} <==> b != {} && HasBranch(m, s, [], b) {
      if t :| b != {} && Branch(m, s, [], t) == b {
        BranchIsSupport(m, s, [], t);
      }
    }
  }

  lemma GroupIsBranch(m: Automaton, s: set<nat>, w: seq<nat>, a: nat, c: set<nat>, o: nat)
    requires m.Valid() && IsWord(m, w) && a < m.actions && HasBranch(m, s, w, c)
    ensures IsWord(m, w + [a]) && HasBranch(m, s, w + [a], Group(m, c, a, o))
  {
    var t :| Branch(m, s, w, t) == c;
    BranchNext(m, s, w, t, a, o);
    assert Branch(m, s, w + [a], t + [o]) == Group(m, c, a, o);
  }

  lemma BranchIsGroup(m: Automaton, s: set<nat>, w: seq<nat>, a: nat, b: set<nat>) returns (c: set<nat>, o: nat)
    requires IsSupport(m, s) && IsWord(m, w) && a < m.actions && IsWord(m, w + [a]) && b != {}
             && HasBranch(m, s, w + [a], b)
    ensures HasBranch(m, s, w, c) && c != {} && o < m.outputs && b == Group(m, c, a, o)
  {
    var t :| Branch(m, s, w + [a], t) == b;
    BranchIsSupport(m, s, w + [a], t);
    var u := t[..|w|];
    o := t[|w|];
    assert t == u + [o];
    BranchNext(m, s, w, u, a, o);
    BranchIsSupport(m, s, w, u);
    c := Branch(m, s, w, u);
    GroupIsSupport(m, c, a, o);
  }

  lemma RefinedAreBranches(m: Automaton, s: set<nat>, w: seq<nat>, a: nat, parts: set<set<nat>>)
    requires IsSupport(m, s) && IsWord(m, w) && a < m.actions && AreBranches(m, s, w, parts)
    ensures IsWord(m, w + [a]) && AreBranches(m, s, w + [a], Refined(m, parts, a))
  {
    PairWords.RunAppend(m, 0, w, a);
    forall b ensures b in Refined(m, parts, a) <==> b != {} && HasBranch(m, s, w + [a], b) {
      if b in Refined(m, parts, a) {
        var c, o := GroupOf(m, parts, a, b);
        GroupIsBranch(m, s, w, a, c, o);
      }
      if b != {} && HasBranch(m, s, w + [a], b) {
        var c, o := BranchIsGroup(m, s, w, a, b);
        GroupIsRefined(m, parts, a, c, o);
      }
    }
  }

  lemma GroupOf(m: Automaton, parts: set<set<nat>>, a: nat, b: set<nat>) returns (c: set<nat>, o: nat)
    requires m.Valid() && a < m.actions && b in Refined(m, parts, a)
    ensures c in parts && o < m.outputs && b == Group(m, c, a, o) != {}
  {
    c, o :| c in parts && o in Upto(m.outputs) && Group(m, c, a, o) != {} && b == Group(m, c, a, o);
  }

  lemma GroupIsRefined(m: Automaton, parts: set<set<nat>>, a: nat, c: set<nat>, o: nat)
    requires m.Valid() && a < m.actions && c in parts && o < m.outputs && Group(m, c, a, o) != {}
    ensures Group(m, c, a, o) in Refined(m, parts, a)
  {
    assert o in Upto(m.outputs);
  }

  /** After a word, the branch supports are the non-empty branches of the trace
      partition: dropping traces and repetitions loses nothing else. */
  lemma {:induction false} AfterIsBranches(m: Automaton, letters: seq<nat>, s: set<nat>, w: seq<nat>)
    requires AreLetters(m, letters) && IsSupport(m, s) && IsPath(letters, w)
    ensures IsWord(m, Spell(letters, w)) && After(m, letters, Branches({s}), w).Branches?
    ensures AreBranches(m, s, Spell(letters, w), After(m, letters, Branches({s}), w).parts)
    decreases |w|
  {
    if w == [] {
      assert Spell(letters, w) == [];
      BranchesStart(m, s);
    } else {
      var u, q := w[..|w| - 1], w[|w| - 1];
      SpellSplit(letters, u, q);
      assert u + [q] == w;
      AfterIsBranches(m, letters, s, u);
      RefinedAreBranches(m, s, Spell(letters, u), letters[q], After(m, letters, Branches({s}), u).parts);
    }
  }

  ghost predicate Narrow(m: Automaton, s: set<nat>, w: seq<nat>, bound: nat)
    requires m.Valid() && IsWord(m, w)
  {
    forall t {:trigger Branch(m, s, w, t)} :: |Branch(m, s, w, t)| <= bound
  }

  /** The goal of the search is a statement about branches. */
  lemma DoneIsNarrow(m: Automaton, letters: seq<nat>, s: set<nat>, w: seq<nat>, bound: nat)
    requires AreLetters(m, letters) && IsSupport(m, s) && IsPath(letters, w)
    ensures IsWord(m, Spell(letters, w))
    ensures Done(m, AtMost(bound), After(m, letters, Branches({s}), w)) <==> Narrow(m, s, Spell(letters, w), bound)
  {
    AfterIsBranches(m, letters, s, w);
    var v, parts := Spell(letters, w), After(m, letters, Branches({s}), w).parts;
    if forall b | b in parts :: |b| <= bound {
      forall t ensures |Branch(m, s, v, t)| <= bound {
        assert HasBranch(m, s, v, Branch(m, s, v, t));
      }
    }
    if Narrow(m, s, v, bound) {
      forall b | b in parts ensures |b| <= bound {
        var t :| Branch(m, s, v, t) == b;
      }
    }
  }
}
