# Synchronization oracle: model and proofs

The program keeps, for every unordered pair of states of a deterministic Mealy
automaton, a record for each of two objectives: how many letters merge the pair,
or tell it apart, and by which least letter to start. It repairs these records
after single cells of the automaton change, and plans synchronizing words with
them. This project models that core and proves what it is for.

## How it is laid out

* `Records`, `PairGraph`, `Pairs`, `Witnesses`: records, the graph of pairs, how
  pairs are numbered, and what an exact record says about words. A record is exact
  if it is its own re-evaluation from its successors; that fixpoint is unique and is
  the shortest-word semantics.
* `RepairSpec`, `RepairTheory`, `RepairBounds`, `RepairTheorems`, `LostPair`: the
  four phases of a repair as functions on sets and records, and what they lead to.
* `MinHeap`, `Columns`, `Arcs`, `Snapshot`, `RepairSteps`, `RebuildSteps`, `Repair`,
  `RepairRun`: the program's own form of a repair. Classes hold the flags, lists and
  heap, loops mutate them, and each method is proved against the phase it implements.
* `Predecessors`, `OracleSearch`, `Oracle`, `Restore`: the full build by counting
  sort and backward search, restoring from stored records, and reading words back.
* `Changes`, `Sorting`, `EdgeUpdates`, `CellUpdate`, `LostUpdate`: from a list of cell
  changes to seeds and edge rows, to an incremental repair or a full build.
* `Supports`, `WordSearch`, `FirstPaths`, `Counting`, `SupportSearch`, `PairWords`,
  `Planner`, `Restricted`, `PairSearch`, `RestrictedPlanner`, `CachedPlans`: one theory of
  queue search over words, which fixes outcome, word and number of expansions, and the
  planners built on it.
* `Traces`, `Monitor`, `Partitions`, `PartitionSearch`, `Disambiguation`: what outputs
  tell, the monitors, and planning to tell hypotheses apart.
* `Chunks`, `Cache`, `LinkedCache`, `Protocol`, `Calls`, `Generations`: copy-on-write
  versions, the cache of snapshots as a list and as linked nodes, and tokens and
  generations over all runs.

## What was found

**Repair is not always exact.** One flag, `queued`, marks both the pairs to be
propagated and the pairs popped for the current level of the rebuild. A pair that is
queued as lowered and invalidated afterwards keeps the flag, and `src/dynamic.c:694-695`
then drops it from the rebuild. `RepairTheorems.RepairEqualsRebuildIff` says exactly
when that loses a record: if and only if, in the state in which the rebuild starts,
there is a sealed set. A sealed set consists of unreachable pairs that the rebuild does
not work on though they have a finite re-evaluation; none of their successors is queued,
and no word outside the set improves one. Propagation picks up every other dropped pair.
If the records were exact before, the pairs of a sealed set are both lowered and
invalidated (`SealedWasSkipped`). `LostPair` gives a four-state automaton and a change
of one cell for which a pair of true distance 3 is left unreachable, and `LostUpdate`
shows that `update_cells` accepts this change and reports success when its caller names
a budget of ten; the automatic budget, three there, is too small and falls back to a full
build. `OneSidedSeedsAreExact` is a check on the seeds alone that rules the loss out, and
`SeparateFrontierFlagIsExact` proves that a frontier flag of its own would remove it.

**What holds all the same.** Call records truthful if each is its own re-evaluation or
unreachable. Exact records are truthful, and so is what a lossy repair leaves. From
truthful records every repair ends truthful, its finite records spell words of exactly
their length, no check for a broken model fires, the budget is exceeded exactly when the
touched pairs outnumber it, and the other objective's fields stay; hence the same over any
sequence of updates (`CellUpdate.UpdatesStayTruthful`). Truthful records are accepted when
restored and can be planned with: they never mislead a plan, though they may lack a word
that exact records offer.

**Restoring is sound, not exact.** `Restore.AcceptedNeedNotBeExact` has an example and
`Restore.AcceptedIsExactIff` the exact condition.

**Where the documentation says more than the code keeps.** After an update that loses
pairs, the candidate that `HACKING.md:240` calls exact is not, and the snapshot published
with it is restorable but not "as an exact oracle" (`HACKING.md:273`). That cached and
uncached planners agree (`HACKING.md:274`) is therefore proved only after an update that
loses nothing (`CachedPlans.CachedIsUncached`).

**Generations tell committed cells apart, and no others.** `README.md:140` has the monitors
answer `STALE_GENERATION` when the plan's generation differs from the model's. The module
`Generations` proves what that is worth: of the committed rows of a model, and the rows of
it that a committing or a merely reading transaction saw, no two with different base cells
have the same generation. A plan made in a transaction that edited the model and then
aborted is not covered: the next edit of the model gets the generation it had
(`AbortedGenerationIsReused`), and the monitors take that plan for current.

## How the source's data appear

* Numbers are unbounded; `SIZE_MAX` and the sentinel `NONE` (its value) are explicit,
  and where the program refuses to add one to a distance the model does too. The
  theorems assume what allocation guarantees, that an array of all pairs fits memory
  (`Allocatable`, `PairCount(n) <= SIZE_MAX / 8`).
* Arrays that a pass allocates once and mutates (`invalid`, `queued`, `finalized`,
  `tentative`, `positions`) are fields of type `seq` that methods reassign; the
  distance, queue and counting arrays of the build are arrays.
* A 64-bit word of a reverse column or of a state set is the set of its bits; a state
  set is a `set`.
* In `Protocol` a transaction sees its own copy of the database, and commits only if no
  other has committed a model that it wrote. A step is one procedure call; the cache it
  touches is shared and does not roll back.
* The database, the record reader and the caller's lists are parameters. A reader is
  any function from a call number and a list of pairs to an answer; it need not be
  honest. Keys are replaced by identifiers.
* Some key definitions are placed "some steps away", behind a counter that starts at
  `Records.DEPTH`, a number that no proof knows, so that only one named lemma unfolds them
  and the solver does not. The counter means nothing in the program.

## Model

| member | source | states |
|---|---|---|
| `Pairs.IndexKeepsOrder` | src/oracle.c:12-19 | the triangle numbering of unordered pairs keeps the lexicographic order of (i, j), so no two pairs share a number |
| `Pairs.IndexIsOnto` | src/oracle.c:12-31 | every number below n(n+1)/2 names a pair, so with `Pairs.IndexKeepsOrder` the numbering is a bijection |
| `Pairs.IndexDoesNotOverflow` | src/oracle.c:12-31 | once the guard on n(n+1) passes, no product or difference inside the pair formula leaves the range of `size_t` |
| `Pairs.SolvesIsAchieves` | src/oracle.c:87-106 | a walk in the pair graph decides merging and resolving on the automaton's own runs and output traces |
| `PairGraph.CandidateAddIsBest` | src/dynamic.c:221-242 | folding one more action keeps the candidate best (least cost, least action, its target, number of ties), in whatever order arcs arrive |
| `PairGraph.ConsistentIsShortest` | src/oracle.c:154-231 | records that are their own re-evaluation hold the length of a shortest word, and the sentinel if and only if no word exists |
| `PairGraph.ConsistentIsUnique` | src/dynamic.c:870-917 | the unit-weight fixpoint is unique in all five fields of all records, so "exact" has one meaning |
| `Witnesses.FieldsMeanWords` | src/oracle.c:233-270 | what each of the five fields of an exact record says about words: existence, length, least first letter of a shortest word, the pair it leads to, and how many letters start a shortest word |
| `MinHeap.TopIsLeast` | src/dynamic.c:135-162 | the root of an ordered heap is a nearest entry |
| `MinHeap.Heap.Push` | src/dynamic.c:115-133 | sifting up adds exactly the new entry and keeps the order |
| `MinHeap.Heap.Pop` | src/dynamic.c:135-162 | returns the root, removes exactly that entry and keeps the order |
| `RepairTheory.SeedSettles` | src/dynamic.c:476-541 | after the seeds are settled, from any truthful records, every pair is invalid and unreachable, or equals its re-evaluation, or waits for a raised or lowered successor, or was lost before and still is unreachable |
| `RepairTheory.InvalidateSettles` | src/dynamic.c:543-622 | once no new pair is invalidated, every pair is unreachable, or its own re-evaluation, or still waits for a lowered successor |
| `RepairTheory.SettledIsOverEstimate` | src/dynamic.c:543-622 | then no record promises less than its re-evaluation, although some still wait to be lowered |
| `RepairTheory.RebuildOutcome` | src/dynamic.c:686-774 | the level-by-level rebuild keeps the over-estimate, only lowers, and leaves unreached pairs without a finite re-evaluation |
| `RepairTheory.FinishIsTruthful` | src/dynamic.c:686-848 | whatever the rebuild skipped or an earlier repair lost, the records left after propagation are truthful: each is its own re-evaluation or unreachable |
| `RepairBounds.DenseIsAddable` | src/dynamic.c:346-352 | distances during a repair stay so small that the program's refusal to add one to a distance never fires |
| `RepairTheorems.RepairEqualsRebuildIff` | src/dynamic.c:850-917 | from any truthful records, repair equals a full rebuild field by field if and only if no set of unreachable pairs is sealed off when the rebuild starts |
| `RepairTheorems.SealedWasSkipped` | src/dynamic.c:577-595 | if the records were exact before, every pair of a sealed set is both queued as lowered and invalidated |
| `RepairTheorems.RepairEqualsRebuildIfDisjoint` | src/dynamic.c:577-595 | from exact records repair equals rebuild whenever no pair is on both lists |
| `RepairTheorems.OneSidedSeedsAreExact` | src/dynamic.c:476-541 | a check before the call: from exact records, if re-evaluating the seeds raises none, or lowers none, repair equals rebuild |
| `RepairTheorems.SeparateFrontierFlagIsExact` | src/dynamic.c:686-774 | with a frontier flag of its own in place of `queued`, repair would equal rebuild for every change |
| `RepairTheorems.FiniteRecordsAreWitnessed` | src/dynamic.c:776-847 | from any truthful records the repaired ones are truthful again, never stop the program's checks, can be followed, and each finite one spells a word of exactly its length that solves its pair in the new automaton |
| `RepairTheorems.ExactExists` | src/oracle.c:272-299 | every pair graph has exact records |
| `LostPair.RepairLosesAPair` | src/dynamic.c:686-695 | a one-cell change of a four-state automaton whose repair leaves a pair unreachable though its true distance is 3 |
| `LostPair.RepairCanLoseAPair` | src/dynamic.c:686-695 | so repair differs from rebuild on some input |
| `LostUpdate.SeedsOfChange` | src/memgraph/sync_module.c:1231-1290 | the one-cell change and the seeds built for it |
| `LostUpdate.LossSucceeds` | src/memgraph/sync_module.c:2880-2890 | from exact records, with a budget of ten, update_cells does not fall back and loses a pair for good; with the automatic budget, three here, it falls back to a full build |
| `Repair.Context.Evaluate` | src/dynamic.c:244-389 | evaluating a duplicate-free list returns the current records and, for each listed pair, the best entry over all its actions, whatever the order of the arcs; it refuses lists with repetitions or pairs out of range |
| `Repair.Context.MarkTouched` | src/dynamic.c:391-397 | counts each pair once and reports whether the count is within the budget |
| `Repair.Context.CollectSources` | src/dynamic.c:440-474 | returns without repetition exactly the off-diagonal pairs with an arc into the targets, minus the excluded ones |
| `Repair.Pass.SettleBatch` | src/dynamic.c:476-541 | one evaluated batch is settled as the set-level step says, or the budget is exceeded; flags, lists and touched pairs change as a set, records change only in the objective's fields |
| `Repair.Pass.InvalidateDependents` | src/dynamic.c:543-622 | the loop over the growing invalidation list computes the set-level phase, and fails only for the budget |
| `Repair.Pass.PopLevel` | src/dynamic.c:690-705 | pops every entry at the least distance and keeps, once each, the current ones that are not queued |
| `Repair.Pass.RelaxPredecessors` | src/dynamic.c:647-684 | relaxing the arcs into a finished level lowers tentative distances and pushes heap entries so that the heap covers all that still waits |
| `Repair.Pass.RebuildInvalidated` | src/dynamic.c:686-774 | the heap-driven rebuild writes what the level-by-level rebuild of the skipped-pair specification writes, and queues what it reached |
| `Repair.Pass.PropagateDecreases` | src/dynamic.c:776-848 | the queue of lowered pairs computes the set-level propagation; its check for a raised record never fires, and it fails only for the budget |
| `RepairRun.BudgetGrows` | src/dynamic.c:391-397 | each phase touches at least what the phases before it touched, so an exhausted budget is seen in the end whichever phase meets it |
| `RepairRun.RepairOneObjective` | src/dynamic.c:850-868 | from any truthful records the four phases end with the repaired records and exactly the touched pairs, refuse bad seeds, and exceed the budget exactly when the touched pairs outnumber it; the other objective's fields stay |
| `RepairRun.RepairStore` | src/dynamic.c:870-917 | both objectives, from any truthful records: status decided by the arguments, the seeds and the number of pairs both repairs touch together; on success both parts are the repaired records |
| `Columns.BuildColumns` | src/snapshot.c:157-179 | the reverse bit (action, target, state) is set if and only if the action sends the state to the target |
| `Columns.MoveCell` | src/snapshot.c:438-462 | clearing the old target's bit and setting the new one's keeps that agreement for the changed table |
| `Columns.BitInjective` | src/snapshot.c:134-155 | no two (action, target, state) triples share a bit, although states are packed 64 to a word |
| `Snapshot.Store.ReadOutgoing` | src/snapshot.c:487-524 | all arcs out of the listed pairs, once each if the list has no repetition; a pair out of range is refused |
| `Snapshot.Store.ReadIncoming` | src/snapshot.c:526-598 | the exact transpose: every arc into the listed targets once, and no other, read from the reverse columns |
| `Snapshot.Store.SetCell` | src/snapshot.c:438-462 | changes that cell alone, keeps columns and table in agreement, reports whether anything moved, and refuses identifiers out of range |
| `Snapshot.Store.WriteRecords` | src/snapshot.c:629-641 | writes the batch in order, reports a pair out of range, and in every case lists every pair whose record may differ |
| `Snapshot.Store.MarkChanged` | src/snapshot.c:600-627 | adds the pair to the list of changed pairs, without repetition |
| `Snapshot.Store.ChangedPairsSuffice` | src/memgraph/sync_module.c:2681-2708 | overwriting the old stored records at the changed pairs alone gives the records in memory |
| `Predecessors.BuildIndex` | src/oracle.c:120-152 | counting sort: offsets are the slice starts, and each edge sits in its own slot |
| `Predecessors.EdgeIsInSlice` | src/oracle.c:120-152 | every pair edge is in the slice of its target, and in exactly one place of the index |
| `Predecessors.SliceIsInto` | src/oracle.c:120-152 | a slice holds nothing but edges into its target |
| `Oracle.FindDistances` | src/oracle.c:154-231 | the backward multi-source search over the index leaves exact distances for either objective |
| `Oracle.ChooseWitnesses` | src/oracle.c:233-270 | least action, its next pair and the number of ties, chosen for exact distances, make exact records |
| `Oracle.Build` | src/oracle.c:272-299 | a built oracle holds exact records for both objectives |
| `Restore.RestoreOracle` | src/oracle.c:461-514 | accepts a record list if and only if it holds each pair once and every entry passes the local check |
| `Restore.UnreachableHasNoSupport` | src/oracle.c:391-396 | an entry marked unreachable with a support count other than zero makes restoring refuse the whole list |
| `Restore.AcceptedIsStored` | src/oracle.c:482-498 | what is accepted is kept: an entry marked unreachable says nothing, and any other keeps its distance, action, next pair and support |
| `Restore.CheckEntry` | src/oracle.c:391-459 | the local check of one entry, for either objective, decides whether it can be followed and has the right support count |
| `Restore.BuiltRestores` | src/oracle.c:461-514 | the records of a built oracle are accepted and restore the same entries |
| `Restore.TruthfulRestores` | src/oracle.c:461-514 | whatever a build or a repair leaves is accepted and comes back as it was |
| `Restore.AllUnreachablePasses` | src/oracle.c:391-459 | the check does not prove exactness: leaving every off-diagonal pair out passes it on any automaton, and is exact if and only if no such pair can meet the objective |
| `Restore.AcceptedIsExactIff` | src/oracle.c:391-459 | accepted records are exact if and only if every diagonal pair is at the root and no action offers less than a record says, nor as much at a lower number: a check that reads each arc once |
| `Restore.AcceptedNeedNotBeExact` | src/oracle.c:461-514 | on an automaton of two states and one letter, records are accepted that are not exact |
| `Witnesses.WitnessSolves` | src/oracle.c:516-554 | records that pass the check are sound: following them takes exactly the recorded number of letters and meets the objective |
| `Restore.WitnessWord` | src/oracle.c:516-554 | returns a word of exactly the recorded length that merges (resolves) the two states, or says that none is on record |
| `Restore.ExactWordIsFirst` | src/oracle.c:516-554 | on exact records no word that meets the objective is shorter, and none of the same length comes first letter by letter |
| `Changes.ParseChanges` | src/memgraph/sync_module.c:1046-1141 | takes a list if and only if it is not empty, each entry is a cell with a target or an output or both, all known, and no cell is named twice; keeps exactly the entries that change something, in order |
| `Changes.RequestsAreMet` | src/memgraph/sync_module.c:1101-1118 | after the kept changes every requested cell has the target and the output asked for, an omitted one as it was before, and every other cell is as it was |
| `Changes.BuildSeeds` | src/memgraph/sync_module.c:1231-1290 | the seeds are ascending, without repetition, and are exactly the pairs with a changed state |
| `Changes.SeedsAreComplete` | src/memgraph/sync_module.c:1231-1290 | every pair arc that differs between the old and the new automaton starts at a seed, for both objectives |
| `EdgeUpdates.BuildEdgeUpdates` | src/memgraph/sync_module.c:1231-1290 | rows and seeds together: the rows are exactly the arcs of the new automaton that read a changed cell, once each, by pair and action |
| `EdgeUpdates.RowsSuffice` | src/memgraph/sync_module.c:1331-1397 | rewriting the stored edges at those rows alone gives all pair edges of the new automaton |
| `CellUpdate.UpdateCells` | src/memgraph/sync_module.c:2789-2955 | from a truthful prepared snapshot, which is not written: the result is truthful; it is a full build, and exact, exactly if asked for or if the touched pairs exceed the budget; otherwise it is the repaired records, and writing only its changed pairs brings the stored records up to date |
| `CellUpdate.Budget` | src/memgraph/sync_module.c:2880-2881 | the automatic budget is the least number that is at least a quarter of the pairs; any other is the one asked for |
| `CellUpdate.AllPairsSuffice` | src/memgraph/sync_module.c:2880-2890 | a budget of all pairs never falls back to a full build |
| `CellUpdate.UpdatesStayTruthful` | src/memgraph/sync_module.c:2798-2948 | over any sequence of updates, incremental or not, lossy or not, every version of the records is truthful |
| `CellUpdate.UpdateIsExactIff` | src/memgraph/sync_module.c:2789-2955 | from truthful records, an incremental update equals a full build, all fields of all pairs, if and only if neither objective has a sealed set |
| `Supports.MergingShrinks` | src/planner.c:208-224 | a word that brings two states of a support together makes it strictly smaller |
| `SupportSearch.ApplyWord` | src/planner.c:208-224 | the support after a word, letter by letter; a letter out of range is refused |
| `WordSearch.FoundIsFirst` | src/planner.c:825-878 | the first hit of the queue search is the first path in the order by length, then by position of letters |
| `WordSearch.ExhaustedProvesAbsence` | src/planner.c:825-878 | an exhausted queue proves that no path meets the goal |
| `FirstPaths.QueueIsFirstOnes` | src/planner.c:825-878 | the queue of a search holds, in order, the first paths that lead somewhere new, one for each node |
| `SupportSearch.TalliesAgree` | src/planner.c:825-878 | a search makes no choice of its own: the automaton, the order of letters, the goal and the budget determine its outcome, its word and the number of its expansions |
| `SupportSearch.SubsetBfs` | src/planner.c:825-878 | its outcome, word and number of expansions are those of a tally: a plan is the first word to a singleton, found with the expansion of the node one letter before; "no plan" means that every node has been expanded; it gives up only with a node more at hand than the budget allows, and never with a budget of two to the number of states |
| `SupportSearch.GoalBfs` | src/planner.c:1361-1411 | the same for reaching a subset of the goals, never giving up with a budget of two to the number of states |
| `SupportSearch.AnswerIsAboutWords` | src/planner.c:825-878 | an answer about paths is one about words over the permitted letters: no permitted word to the goal is shorter than the plan, and "no plan" means there is none |
| `SupportSearch.GoalGivenUp` | src/planner.c:1372-1376 | a goal search that gives up has expanded as many different supports as the budget allows, the first one among them, each the image under a permitted word, none inside the goals and none one permitted letter before |
| `SupportSearch.GoalOneLetterAway` | src/planner.c:1372-1401 | a goal one permitted letter away is found with any budget, at the first expansion |
| `SupportSearch.GoalAnswerMeans` | src/planner.c:1331-1422 | a plan is a shortest permitted word into the goals, and "no plan" means that there is none |
| `SupportSearch.PlanGoal` | src/planner.c:1331-1422 | argument errors, the case of a support that is inside the goals already, and the report of the search |
| `PairWords.LoadWords` | src/planner.c:329-472 | for any reader that fills its buffer, every word marked available merges (resolves) its pair; an honest reader of sound records yields exactly their witnesses and no error |
| `PairWords.Advance` | src/planner.c:386-456 | a record is taken if and only if it is of the walk's pair, has the distance that the record before it promised, and names an action that does what it says; the walk then takes exactly that step |
| `PairWords.Round` | src/planner.c:375-459 | one request: a reader's error is passed on, the records are refused if and only if one of them is not plausible, and otherwise every active walk takes its step |
| `PairWords.TruthfulIsReadable` | src/planner.c:329-472 | truthful records, exact or not, are such as an honest reader may hand out |
| `Planner.ChooseBest` | src/planner.c:528-562 | the chosen candidate strictly shrinks the support, and none is chosen only if no word is available |
| `Planner.BestMerge` | src/planner.c:481-563 | with honest records the choice is the fold of all pairs of the support, in order, over their witness words |
| `Planner.PickIsBest` | src/planner.c:474-479 | what that fold keeps is one of the candidates, and none of them leaves fewer states; of those that leave as many none has a shorter word, and of those none a lower pair |
| `Planner.AllPairsAreListed` | src/planner.c:502-513 | every pair of states of the support is a candidate |
| `Planner.OneMergeSuffices` | src/planner.c:891-967 | for either planner: if the word of some pair takes the support to one state, any budget gives a plan after one expansion, with a word no longer than that |
| `Planner.WitnessSuffices` | src/planner.c:891-967 | the same in terms of records that can be followed |
| `Planner.MergeableRecordsPlan` | src/planner.c:926-951 | if every pair has a merging word on record, a budget of one less than the number of states gives a plan by merging pairs alone, of at most so many times the number of pairs letters |
| `Planner.Synchronize` | src/planner.c:891-967 | the synchronization contract for any reader: a plan takes the support to one state, "no plan" means none exists, expansions stay within the budget, and a budget of (h - 1) + (2^n - 1) is never too small |
| `Planner.PlanSync` | src/planner.c:969-990 | argument errors first, then the synchronization contract |
| `Planner.SyncIsDetermined` | src/planner.c:891-967 | the words of the pairs determine the whole result, greedy phase and search: outcome, word, expansions and final support |
| `CachedPlans.PlanFromSnapshot` | src/planner.c:969-974 | planning from a snapshot that updates have left truthful never fails on its records and keeps the contract |
| `CachedPlans.CachedIsUncached` | src/memgraph/sync_module.c:1907-1916 | after an update that loses nothing, planning from the cached snapshot gives what planning from a full build gives: outcome, word, expansions and final support |
| `CachedPlans.CachedDisambiguationIsUncached` | src/memgraph/sync_module.c:1907-1916 | the same for disambiguation: outcome, method, word, expansions and branches |
| `Restricted.WitnessIsMergeWord` | src/planner.c:1007-1111 | least-action descent on exact records spells the first merging word in the order by length, then letter by letter |
| `Restricted.FirstWordsMerge` | src/planner.c:1007-1111 | the words found by forward search merge their pairs |
| `PairSearch.AllowedMergeWord` | src/planner.c:1007-1111 | the forward pair search finds the first merging word over the permitted letters, or proves that there is none |
| `RestrictedPlanner.SynchronizeAllowed` | src/planner.c:1164-1239 | the synchronization contract over the permitted letters, and a result determined by the first merging words |
| `RestrictedPlanner.PlanSyncAllowed` | src/planner.c:1164-1239 | argument errors first, then the same contract |
| `RestrictedPlanner.RestrictedIsUnrestricted` | src/planner.c:1164-1239 | given all actions in id order, the restricted planner returns what the unrestricted one returns on exact records: outcome, word, expansions and final support |
| `Traces.BranchesCoverImage` | src/planner.c:631-703 | the branches over all traces together are the support after the word alone |
| `Traces.SingleBranchesAreHoming` | src/planner.c:705-742 | no branch has two states if and only if the word tells apart, or brings together, any two states of the support |
| `Traces.RefineTraces` | src/planner.c:631-680 | one action turns the trace partition of a word into that of the longer word: one branch for each trace some hypothesis gives, with exactly the states those have come to |
| `Traces.TracePartition` | src/planner.c:617-703 | the trace partition of a whole word, the traces in order |
| `Monitor.Track` | src/planner.c:2227-2241 | the expected support is the branch of the outputs seen; otherwise the reported step is the first after which no hypothesis is left, with the outputs that were possible there |
| `Monitor.ValidateUpdate` | src/planner.c:2076-2149 | argument errors, stale generations, and the decision by comparing the report with the support after the completed steps |
| `Monitor.ComparedJudges` | src/planner.c:2129-2141 | continue if and only if the reported states are the expected ones, replan if and only if they are some of them, a violation if and only if one is not expected |
| `Monitor.ValidateObserved` | src/planner.c:2187-2269 | the same with outputs: the whole consumed prefix is checked first, and an impossible output is a violation whatever is reported |
| `Monitor.NoFalseAlarm` | src/planner.c:2187-2269 | a robot that started in the support is never charged: its outputs are compatible, its state is expected, and only a report beyond the expected states is a violation |
| `Monitor.OutputsNarrow` | src/planner.c:2076-2269 | seeing outputs only narrows what is expected without them |
| `Partitions.LessIsTotal` | src/planner.c:135-147 | comparing bitsets word by word from the last one down is a strict total order of sets of states |
| `Partitions.LessLacksHighest` | src/planner.c:135-147 | of two sets, the one that holds the highest state in which they differ is greater |
| `Partitions.SortedIsCanonical` | src/planner.c:1607-1618 | sorted partitions are equal position by position if and only if they are equal as sets of supports |
| `Partitions.AddSupport` | src/planner.c:1553-1583 | inserting a support keeps the partition sorted without repetition and adds exactly that support |
| `Partitions.RefinePartition` | src/planner.c:1620-1668 | one action gives the sorted partition of all non-empty output groups of all branches |
| `Partitions.AfterIsBranches` | src/planner.c:1620-1668 | the supports kept after a word are exactly the non-empty branches of its trace partition |
| `PartitionSearch.PartitionBfs` | src/planner.c:1740-1796 | its outcome, word and expansions are those of a tally over partitions: a plan is the first word, by length and then order of letters, that leaves no branch above the bound, "no plan" is a proof of absence, and it gives up only with a node more at hand than the budget allows |
| `PartitionSearch.FewPartitions` | src/planner.c:1740-1796 | the search never holds more partitions than there are collections of non-empty supports |
| `Disambiguation.PartitionScores` | src/planner.c:705-723 | the largest branch and the number of branches found by counting are those of the word |
| `Disambiguation.ChooseResolution` | src/planner.c:1484-1521 | of the available resolution words the one chosen is beaten by none: smallest worst branch, then shortest, then most branches, then lowest pair |
| `Disambiguation.BestResolution` | src/planner.c:1434-1537 | with honest records: the best of all pairs of hypotheses that have a word on record, if it makes the worst branch smaller, and none only if no such word does |
| `Disambiguation.WitnessResolves` | src/planner.c:1859-1870 | if the witness of some pair leaves no branch above the bound, any budget gives a plan by pair resolution after one expansion; over restricted letters, if the best word uses permitted ones |
| `Disambiguation.PlanIsDetermined` | src/planner.c:1809-1894 | honest records determine the whole plan: outcome, method, word, expansions and what is said of the branches |
| `Disambiguation.AnswerIsAboutBranches` | src/planner.c:1740-1796 | a plan of the search is a shortest permitted word that narrows all branches to the bound, and "no plan" means that no permitted word does |
| `Disambiguation.Disambiguate` | src/planner.c:1809-1894 | for any reader: a plan is a permitted word leaving no branch above the bound, "no plan" means there is none, expansions stay within the budget, and the check of the finished plan never fires |
| `Disambiguation.PlanDisambiguate` | src/planner.c:1896-1948 | argument errors first, a bound above the support among them, then the same contract |
| `Disambiguation.PlanIsHoming` | src/planner.c:725-742 | with bound one a plan is a homing word |
| `Cache.RunKeepsOrder` | src/snapshot_cache.c:123-199 | after any run of lookups and insertions keys are unique, the bytes are within the maximum, entries are in the order of their last use, and each holds what was last stored under its key |
| `Cache.FitIsLongest` | src/snapshot_cache.c:184-191 | only a suffix of the oldest entries is evicted, and no more of them than must be |
| `Cache.StoredIsFound` | src/snapshot_cache.c:148-199 | an entry that fits the maximum comes first and the next lookup of its key finds it; any other leaves the cache as it was |
| `LinkedCache.SnapshotCache.Unlink` | src/snapshot_cache.c:38-51 | removes one node; both link directions agree afterwards |
| `LinkedCache.SnapshotCache.LinkNewest` | src/snapshot_cache.c:53-62 | puts a node first; both link directions agree afterwards |
| `LinkedCache.SnapshotCache.Lookup` | src/snapshot_cache.c:123-146 | finds an entry if and only if there is one, returns its snapshot and moves it first; nothing else moves |
| `LinkedCache.SnapshotCache.Insert` | src/snapshot_cache.c:148-199 | stores if and only if the entry fits the maximum at all: replaces the entry of its key, evicts just enough of the oldest, comes first, and the byte count stays the sum of the entries |
| `Protocol.LoadsAreSafe` | src/memgraph/sync_module.c:1870-1905 | over all runs with interleaved transactions, aborts, evictions and restarts, a transaction that sees a prepared model can load it, hydration is never refused, and it gets the cells and records that it sees, from the cache or not |
| `Protocol.WrittenIsCandidate` | src/memgraph/sync_module.c:2906-2939 | the cells and records that an update writes are those of the candidate it staged |
| `Protocol.StagedByAbortedIsNeverLoaded` | src/memgraph/sync_module.c:2902-2939 | after an update that failed behind its staging, and after any abort or restart that ends a transaction with tokens it had not committed, no transaction of any later run sees such a token, so its entry is never asked for |
| `Protocol.AbortLeavesDead` | src/memgraph/sync_module.c:2902-2939 | a transaction that aborts after its update has returned leaves every token it had not committed dead |
| `Protocol.RestartLeavesDead` | src/memgraph/sync_module.c:166-196 | so does a restart for every open transaction |
| `Protocol.FreshIsNew` | src/memgraph/sync_module.c:187-196 | a token made now was made never before, in this life of the process or an earlier one |
| `Chunks.Unshare` | src/snapshot.c:224-242 | copying a shared chunk keeps every reference count equal to the number of versions that hold the chunk |
| `Chunks.WriteAll` | src/snapshot.c:224-242 | after any sequence of writes to one version, that version shows them, every other version shows what it did, and all reference counts are right |
| `Chunks.Clone` | src/snapshot.c:318-366 | a clone shows the records of its source, shares every chunk, and all reference counts are right |
| `Chunks.Release` | src/snapshot.c:374-389 | releasing a version frees a chunk if and only if no other version holds it |
| `Calls.PrepareThenLoad` | src/memgraph/sync_module.c:1918-2009 | preparing keeps generation and cells, gives the next epoch and a token of its own, and what it prepared is what is loaded next, from the cache if it fits |
| `Calls.UpdateThenLoad` | src/memgraph/sync_module.c:2798-2953 | an update advances the generation in the same epoch, its cells are those seen before with the changes made, and it is loaded next without another preparation |
| `Calls.EditUnprepares` | src/memgraph/sync_module.c:2955-2989 | a marked edit gets a generation of its own and leaves the model unprepared |
| `Calls.LoadThenHit` | src/memgraph/sync_module.c:1870-1905 | loading changes no row, and leaves the snapshot in the cache if it fits |
| `Calls.CallsAreIsolated` | src/memgraph/sync_module.c:2902-2939 | only a commit changes what is committed, and it publishes exactly the rows its transaction has written; no call changes what another open transaction sees |
| `Generations.GenerationsAdvance` | src/memgraph/sync_module.c:2955-2960 | over all runs, from one committed row of a model to any later one the generation never falls, and it is strictly larger if the base cells differ: two committed rows of one generation have the same cells |
| `Generations.GenerationsAdvanceWithin` | src/memgraph/sync_module.c:2955-2960 | the same within a transaction |
| `Generations.CommittedPlanIsDetected` | src/memgraph/sync_module.c:2564-2569 | a plan made in a transaction that goes on to commit never has the generation of a later committed row with other cells |
| `Generations.ReadersPlanIsDetected` | src/memgraph/sync_module.c:2564-2569 | nor has a plan for a model that its transaction has not written, whatever becomes of the transaction |
| `Generations.MonitorDetects` | src/memgraph/sync_module.c:2564-2569 | a monitor in a transaction that began later sees the cells a plan was made for, or a larger generation |
| `Generations.AbortedGenerationIsReused` | src/memgraph/sync_module.c:2955-2960 | for a plan made in a transaction that aborts this is false: any other edit gets the same generation next |

## Left out

- Allocation failures, releasing memory, timing and metrics of any kind, including the trace metrics of a plan.
- The database calls, queries, value marshalling, result encoding and procedure registration of src/memgraph/sync_module.c.
- The command line, name tables, scripts, views and examples.
- Atomic memory orders and the mutex: operations are sequential.
- Stores of records other than the snapshot: the checks that arcs and records of a foreign store are well formed are not modelled, because the snapshot's readers satisfy them.
- Reference counts of whole snapshots and of the topology; `Snapshot.Store` keeps its records flat, as `Chunks` shows a version's shared chunks to be.
- Key tables and the automaton builder (src/sync.c): an automaton is given as its tables.
- `sg_explain_plan`: it lists the branches that `Traces.TracePartition` computes.
- Protocol: generations, epochs and token counters are unbounded, so the refusals of `update_cells` at the last generation and of tokens at the last counter are not modelled; an update whose changes change nothing is not an event.
- Protocol: direct edits of base cells that do not mark the model dirty, which the documentation forbids; restarts are assumed to draw a number never drawn before.
- Batching of rows on their way to the database, and the query that replaces edges; what it does to a row is `EdgeUpdates.IsRewritten`.
- Sorting.Sort: qsort is replaced by an insertion sort with the same result.
- PairWords.LoadWords: a resolution word may be one letter longer than the number of pairs for a dishonest reader, so the length bound stated is that of the rounds.
- RepairRun.RepairStore: says nothing about the records after a refusal or an exceeded budget, where the caller discards the candidate.
