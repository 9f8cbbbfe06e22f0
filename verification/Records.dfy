/** The record stored for one unordered pair of states, and the status codes. */
module Records {

  const SIZE_MAX: nat := 0xFFFF_FFFF_FFFF_FFFF

  /** SG_INDEX_NONE: the sentinel for "no distance", "no action" and "no pair". */
  const NONE: nat := SIZE_MAX

  /** A number that no proof knows.  A definition that many steps away is not unfolded,
      except by the one lemma that counts the steps down and says what it means. */
  const DEPTH: nat

  /** What a pair is asked to do: reach one state, or be told apart (or reach one state). */
  datatype Objective = Merge | Resolution

  datatype Status = Ok | InvalidArgument | InvalidModel | ResourceBound | NotFound

  /** The five fields a record keeps for one objective. */
  datatype Entry = Entry(reachable: bool, distance: nat, action: nat, next: nat, support: nat)

  const UNREACHABLE := Entry(false, NONE, NONE, NONE, 0)
  const ROOT := Entry(true, 0, NONE, NONE, 0)

  datatype PairRecord = PairRecord(pair: nat, merge: Entry, resolution: Entry) {

    function Part(objective: Objective): Entry {
      if objective.Merge? then merge else resolution
    }

    function With(objective: Objective, entry: Entry): PairRecord {
      if objective.Merge? then this.(merge := entry) else this.(resolution := entry)
    }
  }
}
