/** Copy-on-write: versions of a snapshot share chunks of records until one writes. */
module Chunks {
  import opened Records
  import opened Snapshot

  const CHUNK: nat := 1024

  /** sg_record_chunk */
  class Chunk {
    var references: nat
    var records: seq<PairRecord>

    constructor (records: seq<PairRecord>)
      ensures references == 1 && this.records == records
    {
      references, this.records := 1, records;
    }
  }

  /** The part of sg_pair_snapshot that holds the records. */
  class Version {
    const pairs: nat
    var chunks: seq<Chunk>

    constructor (pairs: nat)
      ensures this.pairs == pairs && chunks == []
    {
      this.pairs, chunks := pairs, [];
    }

    /** A table of chunks for all pairs, no chunk in it twice. */
    ghost predicate Shaped()
      reads this, chunks
    {
      && pairs <= |chunks| * CHUNK
      && (forall k {:trigger chunks[k]} | 0 <= k < |chunks| :: |chunks[k].records| == Size(pairs, k))
      && (forall k, l {:trigger chunks[k], chunks[l]} | 0 <= k < l < |chunks| :: chunks[k] != chunks[l])
    }

    /** sg_snapshot_record_const */
    function At(pair: nat): (record: PairRecord)
      requires Shaped() && pair < pairs
      reads this, chunks
    {
      chunks[pair / CHUNK].records[pair % CHUNK]
    }

    /** The records the version shows. */
    ghost function Shown(): (records: seq<PairRecord>)
      requires Shaped()
      reads this, chunks
      ensures |records| == pairs && forall p {:trigger records[p]} | 0 <= p < pairs :: records[p] == At(p)
    {
      seq(pairs, p requires 0 <= p < pairs && Shaped() reads this, chunks => At(p))
    }
  }

  /** The number of records in chunk k of so many pairs. */
  function Size(pairs: nat, k: nat): nat {
    if pairs <= k * CHUNK then 0 else if pairs - k * CHUNK < CHUNK then pairs - k * CHUNK else CHUNK
  }

  /** The versions that hold the chunk. */
  ghost function Holders(family: set<Version>, c: Chunk): (holders: set<Version>)
    reads family
  {
    set v | v in family && c in v.chunks
  }

  ghost function Held(family: set<Version>): set<Chunk>
    reads family
  {
    set v, k | v in family && 0 <= k < |v.chunks| :: v.chunks[k]
  }

  ghost predicate CountedAt(family: set<Version>, v: Version, k: nat)
    requires v in family && k < |v.chunks|
    reads family, Held(family)
  {
    v.chunks[k] in Held(family) && v.chunks[k].references == |Holders(family, v.chunks[k])|
  }

  /** Every chunk counts the versions that hold it. */
  ghost predicate Counted(family: set<Version>)
    reads family, Held(family)
  {
    && (forall v {:trigger v.chunks} | v in family ::
        (forall c {:trigger c in v.chunks} | c in v.chunks :: c in Held(family)) && v.Shaped())
    && (forall v, k {:trigger CountedAt(family, v, k)} | v in family && 0 <= k < |v.chunks| :: CountedAt(family, v, k))
  }

  // ---------- Writing ----------

  lemma OnlyHolder(family: set<Version>, v: Version, c: Chunk, u: Version)
    requires v in family && u in family && c in v.chunks && c in u.chunks && |Holders(family, c)| == 1
    ensures u == v
  {
    var holders := Holders(family, c);
    assert u in holders && v in holders;
    assert holders == {v} + (holders - {v});
  }

  lemma Replaced(s: seq<Chunk>, k: nat, c: Chunk)
    requires k < |s| && c !in s && forall i, j {:trigger s[i], s[j]} | 0 <= i < j < |s| :: s[i] != s[j]
    ensures forall x {:trigger x in s[k := c]} :: x in s[k := c] <==> x == c || (x in s && x != s[k])
    ensures forall i, j {:trigger s[k := c][i], s[k := c][j]} | 0 <= i < j < |s| :: s[k := c][i] != s[k := c][j]
  {
    forall x ensures x in s[k := c] <==> x == c || (x in s && x != s[k]) {
      if x in s && x != s[k] {
        var i :| 0 <= i < |s| && s[i] == x;
        assert s[k := c][i] == x;
      }
      assert s[k := c][k] == c;
    }
  }

  /** Give a version its own copy of a shared chunk. */
  method Unshare(v: Version, k: nat, ghost family: set<Version>) returns (copy: Chunk)
    requires v in family && Counted(family) && k < |v.chunks| && v.chunks[k].references > 1
    modifies v`chunks, {v.chunks[k]}`references
    ensures Counted(family) && v.chunks == old(v.chunks)[k := copy] && copy.records == old(v.chunks)[k].records
            && fresh(copy)
    ensures forall u {:trigger u.chunks} | u in family && u != v :: copy !in u.chunks
  {
    var shared := v.chunks[k];
    copy := new Chunk(shared.records);
    Replaced(v.chunks, k, copy);
    v.chunks := v.chunks[k := copy];
    shared.references := shared.references - 1;
    assert forall u {:trigger u.chunks} | u in family && u != v :: copy !in u.chunks;
    assert Holders(family, shared) == old(Holders(family, shared)) - {v};
    assert Holders(family, copy) == {v};
    forall u, l | u in family && 0 <= l < |u.chunks| ensures CountedAt(family, u, l) {
      var c := u.chunks[l];
      assert c in Held(family);
      if c != copy {
        assert old(CountedAt(family, u, l));
        assert c != shared ==> Holders(family, c) == old(Holders(family, c));
      }
    }
  }

  /** sg_snapshot_record_mutable: a chunk that others hold is copied first. */
  method Mutable(v: Version, k: nat, ghost family: set<Version>) returns (chunk: Chunk)
    requires v in family && Counted(family) && k < |v.chunks|
    modifies v`chunks, {v.chunks[k]}`references
    ensures Counted(family) && v.chunks == old(v.chunks)[k := chunk] && chunk.records == old(v.chunks)[k].records
    ensures chunk == old(v.chunks)[k] || fresh(chunk)
    ensures forall u {:trigger u.chunks} | u in family && u != v :: chunk !in u.chunks
  {
    chunk := v.chunks[k];
    assert CountedAt(family, v, k);
    HolderIsCounted(family, v, chunk);
    if chunk.references != 1 {
      chunk := Unshare(v, k, family);
    } else {
      forall u | u in family && u != v ensures chunk !in u.chunks {
        if chunk in u.chunks {
          OnlyHolder(family, v, chunk, u);
        }
      }
    }
  }

  lemma HolderIsCounted(family: set<Version>, v: Version, c: Chunk)
    requires v in family && c in v.chunks
    ensures |Holders(family, c)| > 0
  {
    assert v in Holders(family, c);
  }

  /** Store a record in a chunk that no other version holds. */
  method Assign(v: Version, k: nat, record: PairRecord, ghost family: set<Version>)
    requires v in family && Counted(family) && k == record.pair / CHUNK < |v.chunks| && record.pair < v.pairs
    requires forall u {:trigger u.chunks} | u in family && u != v :: v.chunks[k] !in u.chunks
    modifies {v.chunks[k]}`records
    ensures Counted(family) && v.Shown() == old(v.Shown())[record.pair := record]
    ensures forall u {:trigger u.Shown()} | u in family && u != v :: u.Shown() == old(u.Shown())
  {
    var chunk := v.chunks[k];
    chunk.records := chunk.records[record.pair % CHUNK := record];
    forall u, l | u in family && 0 <= l < |u.chunks| ensures CountedAt(family, u, l) {
      assert old(CountedAt(family, u, l));
    }
  }

  /** Overwrite one record: the version shows it, and no other version changes. */
  method Write(v: Version, record: PairRecord, ghost family: set<Version>)
    requires v in family && Counted(family) && record.pair < v.pairs
    modifies v`chunks, set c | c in v.chunks
    ensures Counted(family) && v.Shown() == old(v.Shown())[record.pair := record]
    ensures forall u {:trigger u.Shown()} | u in family && u != v :: u.Shown() == old(u.Shown())
    ensures forall c | c in v.chunks :: c in old(v.chunks) || fresh(c)
  {
    var chunk := Mutable(v, record.pair / CHUNK, family);
    assert v.Shown() == old(v.Shown());
    Assign(v, record.pair / CHUNK, record, family);
  }

  /** Any sequence of writes to one version leaves what every other version shows. */
  method WriteAll(v: Version, writes: seq<PairRecord>, ghost family: set<Version>)
    requires v in family && Counted(family) && forall k | 0 <= k < |writes| :: writes[k].pair < v.pairs
    modifies v`chunks, set c | c in v.chunks
    ensures Counted(family) && v.Shown() == Written(old(v.Shown()), writes)
    ensures forall u {:trigger u.Shown()} | u in family && u != v :: u.Shown() == old(u.Shown())
  {
    for k := 0 to |writes|
      invariant Counted(family) && v.Shown() == Written(old(v.Shown()), writes[..k])
      invariant forall u {:trigger u.Shown()} | u in family && u != v :: u.Shown() == old(u.Shown())
      invariant forall c | c in v.chunks :: c in old(v.chunks) || fresh(c)
    {
      Write(v, writes[k], family);
      assert writes[..k + 1][..k] == writes[..k];
    }
    assert writes[..|writes|] == writes;
  }

  // ---------- Cloning and releasing ----------

  /** The loop of sg_pair_snapshot_clone: take over every chunk and retain it. */
  method Retain(source: Version, v: Version)
    requires source.Shaped() && v.chunks == [] && v != source
    modifies v`chunks, (set c | c in source.chunks)`references
    ensures v.chunks == source.chunks
    ensures forall c {:trigger c.references} | c in source.chunks :: c.references == old(c.references) + 1
  {
    for k := 0 to |source.chunks|
      invariant v.chunks == source.chunks[..k]
      invariant forall l {:trigger source.chunks[l]} | 0 <= l < |source.chunks| ::
                  source.chunks[l].references == old(source.chunks[l].references) + (if l < k then 1 else 0)
    {
      v.chunks := v.chunks + [source.chunks[k]];
      source.chunks[k].references := source.chunks[k].references + 1;
    }
  }

  /** sg_pair_snapshot_clone: the clone shows the same records and shares every chunk. */
  method Clone(source: Version, ghost family: set<Version>) returns (v: Version)
    requires source in family && Counted(family)
    modifies (set c | c in source.chunks)`references
    ensures fresh(v) && v.chunks == source.chunks && Counted(family + {v}) && v.Shown() == source.Shown()
  {
    v := new Version(source.pairs);
    Retain(source, v);
    forall u, l {:trigger u.chunks[l]} | u in family && 0 <= l < |u.chunks| ensures Retained(family, v, u.chunks[l]) {
      assert old(CountedAt(family, u, l));
    }
    Joined(family, source, v);
  }

  /** The chunk counts its holders, and the newcomer if that holds it. */
  ghost predicate Retained(family: set<Version>, v: Version, c: Chunk)
    reads family, v, c
  {
    c.references == |Holders(family, c)| + (if c in v.chunks then 1 else 0)
  }

  /** With the newcomer in the family, every chunk counts right. */
  lemma Joined(family: set<Version>, source: Version, v: Version)
    requires source in family && v !in family && v.chunks == source.chunks && v.pairs == source.pairs
    requires forall u {:trigger u.chunks} | u in family :: u.Shaped()
    requires forall u, l {:trigger u.chunks[l]} | u in family && 0 <= l < |u.chunks| :: Retained(family, v, u.chunks[l])
    ensures Counted(family + {v})
  {
    var more := family + {v};
    assert source.Shaped() && v.Shaped();
    forall u | u in more ensures (forall c {:trigger c in u.chunks} | c in u.chunks :: c in Held(more)) && u.Shaped() {
      forall c | c in u.chunks ensures c in Held(more) {
        var l :| 0 <= l < |u.chunks| && u.chunks[l] == c;
      }
    }
    forall u, l | u in more && 0 <= l < |u.chunks| ensures CountedAt(more, u, l) {
      var c, holder := u.chunks[l], if u == v then source else u;
      assert c == holder.chunks[l] && Retained(family, v, c);
      assert Holders(more, c) == Holders(family, c) + (if c in v.chunks then {v} else {});
    }
  }

  /** sg_record_chunk_release for every chunk of a version. */
  method Drop(v: Version)
    requires v.Shaped() && forall c {:trigger c.references} | c in v.chunks :: c.references > 0
    modifies (set c | c in v.chunks)`references
    ensures forall c {:trigger c.references} | c in v.chunks :: c.references == old(c.references) - 1
  {
    for k := 0 to |v.chunks|
      invariant forall l {:trigger v.chunks[l]} | 0 <= l < |v.chunks| ::
                  v.chunks[l].references == old(v.chunks[l].references) - (if l < k then 1 else 0)
    {
      v.chunks[k].references := v.chunks[k].references - 1;
    }
  }

  /** The last release of a version: its chunks are dropped, and one is freed, at count
      zero, exactly if no other version holds it. */
  method Release(v: Version, ghost family: set<Version>)
    requires v in family && Counted(family)
    modifies (set c | c in v.chunks)`references
    ensures Counted(family - {v})
    ensures forall c {:trigger c.references} | c in v.chunks :: c.references == 0 <==> forall u | u in family - {v} ::
            c !in u.chunks
  {
    forall c | c in v.chunks ensures c.references == |Holders(family, c)| > 0 {
      var k :| 0 <= k < |v.chunks| && v.chunks[k] == c;
      assert CountedAt(family, v, k);
      HolderIsCounted(family, v, c);
    }
    Drop(v);
    forall u, l {:trigger u.chunks[l]} | u in family && 0 <= l < |u.chunks| ensures Dropped(family, v, u.chunks[l]) {
      assert old(CountedAt(family, u, l));
    }
    Left(family, v);
    forall c | c in v.chunks ensures c.references == 0 <==> forall u | u in family - {v} :: c !in u.chunks {
      var l :| 0 <= l < |v.chunks| && v.chunks[l] == c;
      assert Dropped(family, v, v.chunks[l]);
      Unheld(family, v, c);
    }
  }

  /** The chunk counts its holders other than v. */
  ghost predicate Dropped(family: set<Version>, v: Version, c: Chunk)
    reads family, v, c
  {
    c.references == |Holders(family, c)| - (if c in v.chunks then 1 else 0)
  }

  lemma Left(family: set<Version>, v: Version)
    requires v in family && forall u {:trigger u.chunks} | u in family :: u.Shaped()
    requires forall u, l {:trigger u.chunks[l]} | u in family && 0 <= l < |u.chunks| :: Dropped(family, v, u.chunks[l])
    ensures Counted(family - {v})
  {
    var rest := family - {v};
    forall u | u in rest ensures (forall c {:trigger c in u.chunks} | c in u.chunks :: c in Held(rest)) && u.Shaped() {
      forall c | c in u.chunks ensures c in Held(rest) {
        var l :| 0 <= l < |u.chunks| && u.chunks[l] == c;
      }
    }
    forall u, l | u in rest && 0 <= l < |u.chunks| ensures CountedAt(rest, u, l) {
      var c := u.chunks[l];
      assert Dropped(family, v, c);
      assert Holders(rest, c) == Holders(family, c) - (if c in v.chunks then {v} else {});
    }
  }

  /** A chunk whose count has come to zero has no holder left. */
  lemma Unheld(family: set<Version>, v: Version, c: Chunk)
    requires v in family && c in v.chunks && Dropped(family, v, c)
    ensures c.references == 0 <==> forall u | u in family - {v} :: c !in u.chunks
  {
    var rest := family - {v};
    assert Holders(family, c) == Holders(rest, c) + {v};
    if c.references != 0 {
      var u :| u in Holders(rest, c);
    }
    if u :| u in rest && c in u.chunks {
      HolderIsCounted(rest, u, c);
    }
  }
}
