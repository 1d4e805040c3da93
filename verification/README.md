# Verified model of a multi-writer CRDT relational store

The store keeps one replica per peer. Peers write locally under Lamport versions, exchange deltas filtered by
the receiver's frontier, and after each merge repair foreign keys and UNIQUE conflicts. This project models the
replica as classes with the original's loops, proves every loop equal to a value-level specification, and proves
the properties of the specification over all runs of any number of peers.

How the files build on each other:

- `Types`, `Frontiers`, `Merge`, `Uniqueness`, `Storage`: the data model, frontier algebra, the merge lattice, the
  registry of UNIQUE claims, and the state record `ReplicaState` whose `View()` is the value `Replica`.
- `Delta`: extracting and applying a frontier-filtered delta, and `Replay`: applying it twice.
- `Slots`: a replica as a map of last-writer-wins slots (cell, delete, tombstone, owner).
- `Invariants`, `World`: the invariant of one replica, of a pair of replicas (`Complete` is the causal completeness
  that justifies dropping rows from a delta) and of all peers together. A step is a local write, a delivery of a
  delta of any state seen so far (delayed, repeated or reordered), or a garbage collection.
- `Runs`, `Convergence`: what follows in every reachable state, and what any schedule of pairwise syncs computes.
- `Sql`: the write steps of INSERT, UPDATE and DELETE. `ForeignKeys`: the effect of cascade and orphan actions and
  which rows they delete. `Cascades`: the fixpoint loop, equal to a function of the table order. `UniqueRows`: the
  filter of reads and uniqueness enforcement. `Engine`: the three-pass pipeline. `Statements`: whole statements with
  index maintenance. `Peers` and `Host`: the peers of one process, their sync and their statements. Statements and
  enforcement are proved to be local writes of `World`, so the run theorems cover them.
- `Promotion`: which loser follows a deleted owner, and when converged peers agree on it.
- `Reuse` and `Contest`: reachable worlds in which a promise of the store fails, with the exact condition beside them.
- `Gc`, `Index`: tombstone collection and secondary indexes.

## What was found

- An accepted INSERT of a deleted id replaces the whole row. It is a growing write exactly when the id was not stored
  (`Sql.InsertIsWrite`, `Sql.InsertMonotoneIffFresh`). When another peer that holds the delete sends its state, the row
  stays visible exactly if nothing of that peer's row was above the filter (`Reuse.ReusedIdVisibleIff`). Then the two
  peers differ after every further session, quiescent ones included (`Reuse.PartedForever`), and this happens from a
  reachable world (`Reuse.ReusedIdEscapesDelete`). The run theorems cover INSERTs of ids that are not stored.
- A loser that wins its value back with a newer claim stays in its own loser list, although the comment at
  `crates/crdt/src/uniqueness.rs:41` says an owner is never recorded as its own loser. Enforcement then clears the
  live owner's value too (`UniqueRows.ReclaimedValueIsCleared`); `Uniqueness.OwnerOutOfLosers` and
  `UniqueRows.OwnerClearedIffListed` say exactly when.
- After such a re-claim a deleted owner may have live losers and yet no successor, although
  `crates/sql/src/executor.rs:654-656` promises one: `Promotion.NobodyPromoted` is a case and `Promotion.PromotionIff`
  the exact condition.
- Peers with equal rows, tombstones, owners and claimants may show different rows, because deduplication keeps the
  oldest claim of a loser on one side and the newest on the other: `Contest.ConvergedReadsDiffer` is a reachable world.
  Reads agree for every table in which no deleted owner has two live losers (`Promotion.ConvergedReadsAgree`).
- When one column is under both a Cascade and an Orphan key, the order of the parent tables decides whether the child
  survives, and for keys to one table the order of their declaration (`Cascades.FirstKeyDecides`,
  `Cascades.SharedColumnOrderMatters`). The deleted rows are independent of order exactly for schemas without such a
  column (`Cascades.SeparateIffDetermined`).
- The comment at `crates/sql/src/executor.rs:743-746` says a cascade must not erase a newer child write. A row whose
  references are all newer than their parents' deletes is deleted exactly when a Cascade parent is deleted in the same
  enforcement (`ForeignKeys.NewerRowDeletedIff`), so a child written after its grandparent's delete goes with its parent
  (`ForeignKeys.NewerGrandchildDeleted`).
- A UNIQUE column takes the text of its value as key, and the text of a blob is its length: reads never show two rows
  whose blobs in such a column have one length (`UniqueRows.BlobsOfOneLength`).
- A delta extracted before a delete and applied after the row's collection makes the row visible again
  (`Gc.StaleDeltaRevives`), so collection is safe when deltas in flight are drained first; `Gc.RevivedIff` is exact.

## Model

| member | source | states |
|---|---|---|
| Types.VersionOrder | crates/core/src/types.rs:9-15 | versions are totally and strictly ordered |
| Types.StrLessIff | crates/core/src/types.rs:9-15 | a string is less than another exactly when they agree up to a place where it ends or has the smaller character, so a proper prefix is less |
| Types.NewerIff | crates/core/src/types.rs:9-15 | a version is newer exactly by its counter, on a tie by the larger peer id in that order |
| Types.IntegerTexts | crates/core/src/types.rs:82-91 | the text of an integer reads back as the integer, so different integers never share an id, a reference or a claim |
| Types.SharedTexts | crates/core/src/types.rs:82-91 | NULL and the text NULL have one text, and two blobs have one text exactly when they have one length |
| Types.SplitJoin | crates/core/src/types.rs:213-215 | the registry key of a composite constraint splits back into its columns when no column name holds the unit separator |
| Frontiers.ComputeMergeFrontiers | crates/core/src/utils.rs:17-26 | the two loops give the pointwise maximum of both frontiers |
| Frontiers.MergeIsLeastUpperBound | crates/core/src/utils.rs:17-41 | a frontier dominates the merge exactly when it dominates both arguments |
| Frontiers.DominatesPointwise | crates/core/src/utils.rs:38-41 | domination is the pointwise order with absent entries read as 0 |
| Frontiers.LamportClock.Tick | crates/crdt/src/clock.rs:19-22 | advances the counter by one and issues that counter under the own peer id |
| Frontiers.LamportClock.Update | crates/crdt/src/clock.rs:25-27 | moves one past the larger of both counters |
| Frontiers.LamportClock.UpdateFromFrontier | crates/crdt/src/clock.rs:30-37 | raises the counter to the highest counter of the frontier, never lowers it |
| Frontiers.PeerRegistry.UpdatePeerFrontier | crates/metadata/src/lib.rs:18-26 | the stored frontier of a peer becomes the join of the old and the reported one |
| Frontiers.PeerRegistry.GlobalMinFrontier | crates/metadata/src/lib.rs:37-59 | the greatest lower bound of all registered frontiers; empty without peers |
| Merge.ComputeMergeRow | crates/crdt/src/merge.rs:17-57 | the loops give the newer cell of each column and the delete-wins flag with the newer delete version |
| Merge.ComputeMergeTable | crates/crdt/src/merge.rs:60-71 | the loops merge rows key by key and keep the rows of either side |
| Merge.LaterCellWins | crates/crdt/src/merge.rs:6-12 | from either side the cell with the larger counter wins, on a tie that of the larger peer id, also when that id extends the other |
| Merge.MergeRowCommutes | crates/crdt/src/merge.rs:17-57 | row merge commutes when equal versions carry equal values |
| Merge.MergeRowAssociates | crates/crdt/src/merge.rs:17-57 | row merge is associative on well-formed rows |
| Merge.MergeRowAbsorbs | crates/crdt/src/merge.rs:17-57 | merging changes nothing exactly when the incoming row is already below |
| Merge.MergeRowLeast | crates/crdt/src/merge.rs:6-57 | the merge is the least row above both under per-cell versions and delete-wins |
| Merge.MergeTableCommutes | crates/crdt/src/merge.rs:60-71 | table merge commutes on compatible tables |
| Merge.MergeTableAssociates | crates/crdt/src/merge.rs:60-71 | table merge is associative |
| Merge.MergeTableLeast | crates/crdt/src/merge.rs:60-71 | the merged table is the least table above both |
| Uniqueness.UniquenessRegistry.File | crates/crdt/src/uniqueness.rs:23-87 | the record of the key after one claim, every other key unchanged, and whether the claim won |
| Uniqueness.UniquenessRegistry.Merge | crates/crdt/src/uniqueness.rs:132-180 | every key merged by the version branches; for a key of both sides a winner taken from the other side is not among its losers, and an incumbent is exactly if it was before |
| Uniqueness.MergedLosers | crates/crdt/src/uniqueness.rs:136-174 | the whole loser list of a merged record: when the other side wins, one entry a row in row order, the first of the own losers, the other losers and the demoted owner, without the new owner; else the old list extended by the first entry of each new row |
| Uniqueness.UniquenessRegistry.FileAll | crates/sync/src/delta.rs:102-121 | the claim-by-claim rebuild of an incoming registry, owners and losers in record order |
| Uniqueness.ClaimIntoTracks | crates/crdt/src/uniqueness.rs:23-87 | after a claim the owner is the newest claim received, losers are older, and every claimant is still recorded |
| Uniqueness.MergeClaimTracks | crates/crdt/src/uniqueness.rs:132-180 | merging two records keeps the same facts for the union of the claims received |
| Uniqueness.RebuildTracks | crates/sync/src/delta.rs:102-121 | rebuilding from records keeps the whole history of the sender's registry |
| Uniqueness.RegistryConservation | crates/crdt/src/uniqueness.rs:23-180 | under any interleaving of claims, merges and rebuilds every registry agrees with the claims that reached it |
| Uniqueness.RegistryConvergence | crates/crdt/src/uniqueness.rs:132-180 | registries reached by the same claims have the same owner, version and set of claimants, which is exactly the set of rows that claimed |
| Uniqueness.ClaimedLosers | crates/crdt/src/uniqueness.rs:34-75 | a repeated claim of the owner drops its own entries, any other claim appends one entry, of the side that lost |
| Uniqueness.OwnerOutOfLosers | crates/crdt/src/uniqueness.rs:49-59 | an owner ends in its own loser list exactly when an older loser wins the key back |
| Uniqueness.MergeClaimsReplay | crates/crdt/src/uniqueness.rs:132-180 | merging the same registry twice equals merging it once, loser lists included |
| Storage.StorageEngine.UpsertRow | crates/storage/src/engine.rs:30-36 | stores the row under its own id, creating the table if needed, and touches no other row |
| Storage.StorageEngine.GcRow | crates/storage/src/engine.rs:88-92 | removes exactly that row |
| Storage.TombstoneStore.Insert | crates/crdt/src/tombstone.rs:17-22 | overwrites the tombstone of one row |
| Storage.TombstoneStore.Merge | crates/crdt/src/tombstone.rs:46-57 | keeps the newer tombstone of every row |
| Storage.TombstoneStore.CollectStable | crates/crdt/src/tombstone.rs:60-72 | drops exactly the tombstones the global frontier has reached |
| Storage.ReplicaState.constructor | crates/replication/src/lib.rs:7-29 | a new peer has an empty state and a clock of 0 |
| Storage.ReplicaState.TickWrite | crates/sql/src/executor.rs:201-202 | a local write takes the next counter and raises the own frontier entry to it |
| Delta.ExtractDelta | crates/sync/src/delta.rs:10-60 | sends exactly the rows with a version above the remote frontier, the tombstones above it and all claims, each once |
| Delta.ApplyRowDeltas | crates/sync/src/delta.rs:66-78 | merges each received row into the stored one, in order |
| Delta.ApplyTombstones | crates/sync/src/delta.rs:80-99 | a received tombstone deletes a stored row unless its delete is as new; the incoming store keeps the last entry of a row |
| Delta.ApplyDelta | crates/sync/src/delta.rs:64-132 | the whole new state of the target after rows, tombstones, claims, clock and frontier |
| Replay.ApplyTwice | crates/sync/src/lib.rs:4-5 | for any delta with well-formed rows, applying it twice equals applying it once on the whole replica |
| Slots.DeliverRow | crates/sync/src/delta.rs:16-99 | what extraction and application together do to one row, sent or not, with its tombstone sent or not |
| Invariants.OutcomeIsMerge | crates/sync/src/delta.rs:16-25 | delivering a row merges it in full exactly when it was sent or the receiver already holds everything the filter covered |
| Invariants.DeliverMergesRow | crates/sync/src/delta.rs:10-99 | under causal completeness the filtered delta merges the sender's full row |
| Invariants.DeliverSlot | crates/sync/src/delta.rs:10-99 | under causal completeness every slot takes the newer entry of both sides |
| Invariants.TrackedUnion | crates/crdt/src/uniqueness.rs:132-180 | a delivered registry takes the newer owner of each key and keeps the claimants of both sides |
| World.WriteKeepsInv | crates/sql/src/executor.rs:200-241 | local writes keep the invariant of all peers and all states whose deltas are in flight |
| World.DeliverKeepsInv | crates/sync/src/delta.rs:64-132 | applying a delta of any seen state keeps the invariant |
| World.CollectKeepsInv | crates/gc/src/lib.rs:31-51 | collection against the minimum of registered frontiers keeps the invariant |
| World.RunKeepsInv | crates/sync/src/lib.rs:4-7 | causal completeness, version coherence, clock dominance and claim conservation hold in every state of every run |
| Runs.FilteredDeltaIsFullMerge | crates/sync/src/delta.rs:10-60 | in every reachable state the filtered delta gives each row not collected anywhere exactly what a full-state table merge gives, tombstones included |
| Runs.GcFreeDeltaIsFullMerge | crates/sync/src/delta.rs:64-99 | without collection the whole row store equals the full-state merge |
| Runs.TombstonesMirrorDeletes | crates/sync/src/delta.rs:80-99 | without collection a peer has a tombstone exactly for its deleted rows, with the delete's version |
| Runs.DeletedNeverReturns | crates/crdt/src/merge.rs:38-49 | in every run, collections included, a row deleted at a peer is never visible there again |
| Runs.TickIsFresh | crates/crdt/src/clock.rs:19-37 | the next tick is newer than all the peer stores, is in no seen state, and no frontier runs ahead of a clock |
| Runs.NoZombies | crates/gc/src/lib.rs:3-7 | once collected anywhere a row is deleted or absent at every peer in every later state |
| Runs.CollectedWasDeadEverywhere | crates/gc/src/lib.rs:3-7 | a collected row was stored and deleted at every peer at that moment |
| Convergence.SyncPeers | crates/sync/src/session.rs:8-16 | both deltas are extracted before either is applied |
| Convergence.SyncKeepsInv | crates/sync/src/session.rs:8-16 | a sync is two deliveries and keeps the invariant |
| Convergence.GossipJoins | crates/sync/src/lib.rs:5-7 | after any schedule of syncs each peer's slots are the join of the starting states of exactly the peers whose state reached it |
| Convergence.GossipClaimants | crates/crdt/src/uniqueness.rs:132-180 | after any schedule of syncs a peer knows exactly the claimants known to the peers whose state reached it |
| Convergence.OrderIndependence | crates/sync/src/lib.rs:5-7 | two peers reached by the same starting states have equal visible rows and owners whatever the orders of their syncs, equal slots of every row not collected, and equal rows and tombstones when nothing was collected |
| Convergence.SyncRound | crates/sync/src/session.rs:20-39 | one round exchanges both deltas and reports whether a row or tombstone was sent |
| Convergence.QuietRound | crates/sync/src/session.rs:25-36 | a round that reports nothing new changes no row and no tombstone on either side |
| Convergence.SyncToQuiescence | crates/sync/src/session.rs:20-39 | the trace of rounds performed, each but the last with something new, stopping by the cap or a round with nothing new |
| Convergence.QuiescentInTwoRounds | crates/sync/src/session.rs:20-39 | from any reachable pair at most two rounds run and the cap is not used; visible rows and owners are then equal, and rows and tombstones too when nothing was collected |
| Sql.InsertRow | crates/sql/src/executor.rs:200-241 | one tick, all cells and claims under it, single-column claims before composite ones, stored row replaced; `Sql.InsertClaims` and `Sql.InsertAllRows` say what that leaves |
| Sql.UpdateRow | crates/sql/src/executor.rs:305-342 | one tick, assigned cells and the claims of UNIQUE and composite values, all other cells kept |
| Sql.DeleteRow | crates/sql/src/executor.rs:374-389 | one tick as delete version and tombstone version, cells kept |
| Sql.InsertClaims | crates/sql/src/executor.rs:210-237 | an INSERT changes exactly the records of the row's non-NULL UNIQUE values, primary key excepted, and of its complete composite values, and the row owns them under the new version |
| Sql.UpdateClaims | crates/sql/src/executor.rs:310-338 | an UPDATE changes exactly the records of the non-NULL values assigned to UNIQUE columns and of the complete composite values of the new row, and the row owns them under the new version |
| Sql.CompositeValueIs | crates/core/src/types.rs:217-243 | a composite value is the texts of the columns in their order, and there is none exactly when a column is NULL or absent |
| Sql.InsertAllRows | crates/sql/src/executor.rs:200-241 | after an INSERT of several rows an id holds the values of its last mention under the tick of that mention |
| Sql.InsertAllOthers | crates/sql/src/executor.rs:200-241 | an INSERT leaves every row it does not name as it was |
| Sql.LastRowOwns | crates/sql/src/executor.rs:200-237 | the last row of a statement that holds a UNIQUE or composite value owns it, under that row's tick |
| Sql.AssignedLast | crates/sql/src/executor.rs:308-325 | an UPDATE gives a column its last assigned value under the new version |
| Sql.UnassignedKept | crates/sql/src/executor.rs:308-325 | and keeps the cells of the columns it does not assign |
| Sql.InsertIsWrite | crates/sql/src/executor.rs:200-241 | an accepted INSERT of any id keeps the replica's invariant, and only adds to what is stored exactly when the id was not stored |
| Sql.InsertAllIsWrite | crates/sql/src/executor.rs:200-241 | the same for an accepted multi-row INSERT, repeated ids included, and which rows are stored after it |
| Sql.UpdateIsWrite | crates/sql/src/executor.rs:305-342 | an UPDATE keeps the invariant, in particular every holder of a UNIQUE value remains a claimant |
| Sql.DeleteIsWrite | crates/sql/src/executor.rs:374-389 | a DELETE keeps the invariant and keeps tombstones and deletes equal |
| Sql.InsertMonotoneIffFresh | crates/sql/src/executor.rs:184-204 | an accepted INSERT keeps what was stored exactly when the id was not stored, not even deleted |
| Reuse.ReusedIdVisibleIff | crates/sql/src/executor.rs:184-239 | a reused id that receives the state of a peer holding the delete is visible exactly when nothing of that peer's row was sent |
| Reuse.ReuseParts | crates/sql/src/executor.rs:184-239 | reusing an id whose delete the writer's frontier has passed leaves the writer showing the row and the other peer holding it deleted |
| Reuse.PartedStays | crates/sync/src/session.rs:8-16 | a sync in both directions leaves such peers apart |
| Reuse.PartedForever | crates/sync/src/session.rs:20-39 | so does every session, however many rounds it takes |
| Reuse.ReusedIdEscapesDelete | crates/sql/src/executor.rs:184-239 | from a reachable world the duplicate check accepts a deleted id and no later session makes the peers agree on the row |
| Cascades.EnforceFkCascades | crates/sql/src/executor.rs:735-855 | enforcement in the order of table names ends where repeated passes come to rest, with no stale Cascade or Orphan reference; with separate columns it deletes exactly the least cascade; each new delete is caused by a stale Cascade reference, exactly the stale orphan cells are nulled, and a stable state is unchanged; it terminates by visible rows, then open cells; `ForeignKeys.CascadeByCounters` says which reference is stale |
| Cascades.EnforceInOrder | crates/sql/src/executor.rs:738-740 | the same for every order of the tables |
| Cascades.EnforcePass | crates/sql/src/executor.rs:742-851 | one pass is the given function of the state and the table order, and reports whether the clock moved |
| Cascades.PassProgresses | crates/sql/src/executor.rs:738-764 | a pass keeps to every closed set and either changes nothing, which proves the state stable, or lowers the termination measure |
| Cascades.OneOutcome | crates/sql/src/executor.rs:735-855 | enforcement has one outcome: rows, versions, clock and frontier are determined by the start |
| ForeignKeys.CascadeStep | crates/sql/src/executor.rs:802-826 | a cascade action stays within every closed set and removes visible rows |
| ForeignKeys.OrphanShrinks | crates/sql/src/executor.rs:827-846 | nulling closes a cell for good because the tick exceeds every stored delete, also for a parent whose id is the text NULL |
| ForeignKeys.ProgressIsExact | crates/sql/src/executor.rs:735-855 | stability plus progress gives the exact effect |
| ForeignKeys.StableIsClosed | crates/sql/src/executor.rs:780-795 | a stable outcome contains every stale Cascade child and all visible Cascade children of newly deleted rows |
| ForeignKeys.CascadeOrderIrrelevant | crates/sql/src/executor.rs:735-764 | whatever the order of tables, the same rows are deleted |
| ForeignKeys.OrphanOrderIrrelevant | crates/sql/src/executor.rs:735-764 | whatever the order of tables, surviving rows hold the same values |
| ForeignKeys.DeletedIff | crates/sql/src/executor.rs:780-826 | with separate columns a row is deleted exactly when it had a stale Cascade reference or one of its Cascade parents is deleted with it |
| ForeignKeys.NewerRowDeletedIff | crates/sql/src/executor.rs:743-746 | a row whose Cascade references are all newer is deleted exactly when one of its parents is newly deleted |
| ForeignKeys.NewerGrandchildDeleted | crates/sql/src/executor.rs:743-746 | a child written after its grandparent's delete is deleted by every enforcement of that state |
| ForeignKeys.CascadeByCounters | crates/sql/src/executor.rs:780-793 | a visible row whose one deleted Cascade parent was deleted at d is deleted exactly when its reference has a smaller counter, or the same counter and peer |
| ForeignKeys.ConcurrentChildSurvives | crates/sql/src/executor.rs:743-746 | a child another peer wrote at the very counter of the parent's delete survives with its reference, and with all its cells when its table has no Orphan key |
| ForeignKeys.OrphanByCounters | crates/sql/src/executor.rs:780-793 | an Orphan reference of a surviving row to a row deleted at d becomes NULL exactly under the same condition and is otherwise kept |
| ForeignKeys.NewDeletesTakeAll | crates/sql/src/executor.rs:802-846 | a parent deleted by the enforcement itself takes every visible Cascade child and nulls every surviving Orphan reference |
| Cascades.SharedColumnTwoOutcomes | crates/sql/src/executor.rs:771-801 | for every schema with a column under a Cascade and an Orphan key there is a state with two outcomes that delete different rows |
| Cascades.SeparateIffDetermined | crates/sql/src/executor.rs:771-801 | the deleted rows are independent of order exactly when no column is under both kinds of key |
| Cascades.FirstKeyDecides | crates/sql/src/executor.rs:742-775 | with keys to two tables the loop follows the first parent table, with keys to one table the first declared key |
| Cascades.SharedColumnOrderMatters | crates/sql/src/executor.rs:742-775 | the loop leaves the child alive with NULL under one order and deletes it under the other, for the order of tables and for the order of keys |
| ForeignKeys.FkIsWrite | crates/sql/src/executor.rs:735-855 | foreign-key enforcement keeps the invariant and only adds versions of this peer |
| Uniqueness.FirstLoserIs | crates/sql/src/executor.rs:629-632 | the version found is that of the first entry of the row |
| UniqueRows.OneWinner | crates/sql/src/executor.rs:594-644 | a claimed value has at most one live effective winner |
| UniqueRows.PassesFilter | crates/sql/src/executor.rs:474-511 | the filter loops accept exactly the rows that win every non-NULL UNIQUE value and every complete composite value; what winning means for a read is in `UniqueRows.NoLiveRival`, `UniqueRows.ShownTuplesAreUnique` and `UniqueRows.OwnersAreShown` |
| UniqueRows.ExecSelect | crates/sql/src/executor.rs:469-514 | the filter keeps exactly the shown rows of the table that satisfy the condition; an unknown table is an error |
| UniqueRows.SnapshotState | crates/adapter/src/engine.rs:166-241 | returns every stored table with the column values of exactly its shown rows |
| UniqueRows.ShownAreUnique | crates/sql/src/executor.rs:478-495 | no two shown rows of a table share the text of a single-column UNIQUE value |
| UniqueRows.NoLiveRival | crates/sql/src/executor.rs:496-508 | no row a read shows holds a complete composite value whose claim has a different live owner |
| UniqueRows.ShownTuplesAreUnique | crates/adapter/src/engine.rs:211-225 | two shown rows that both claimed one composite value are the same row |
| UniqueRows.OwnersAreShown | crates/sql/src/executor.rs:602-609 | a visible row is shown when each of its UNIQUE and complete composite values is unclaimed or owned by it |
| UniqueRows.BlobsOfOneLength | crates/core/src/types.rs:88 | a UNIQUE column compares blobs by length: reads never show two rows with blobs of one length |
| UniqueRows.EnforceUniqueness | crates/sql/src/executor.rs:659-726 | clears exactly the non-NULL claimed columns of displaced losers, deletes nothing, leaves other cells, and does nothing in a settled state |
| UniqueRows.SettledLosers | crates/sql/src/executor.rs:646-658 | settled means every live loser is the effective winner of a dead owner or has all columns of the claim NULL, composite claims included |
| UniqueRows.SettledIsUnique | crates/sql/src/executor.rs:659-726 | after enforcement no two live rows hold the same single-column UNIQUE value, shown or not |
| UniqueRows.SettledShowsAll | crates/sql/src/executor.rs:646-658 | after enforcement reads hide no visible row of a table without composite constraints |
| UniqueRows.UniqIsWrite | crates/sql/src/executor.rs:659-726 | uniqueness enforcement keeps the invariant and only adds versions of this peer |
| UniqueRows.UniqKeepsFkStable | crates/adapter/src/engine.rs:110-120 | uniqueness enforcement makes no reference stale |
| UniqueRows.OwnerClearedIffListed | crates/sql/src/executor.rs:665-693 | a live owner under no other claim on the column loses its value exactly when it is among its own losers |
| UniqueRows.MergedOwnerKeepsValue | crates/crdt/src/uniqueness.rs:147-152 | after a merge the live owner of a key both sides held keeps its value if it came from the other side, and an incumbent loses it exactly if it was among its own losers |
| UniqueRows.ReclaimedValueIsCleared | crates/crdt/src/uniqueness.rs:49-59 | a visible loser that wins its value back by UPDATE becomes the owner and is then cleared |
| Engine.Enforce | crates/sql/src/executor.rs:392-397 | the three passes have the effect of the first two; the second foreign-key pass changes nothing |
| Engine.EnforcedIsStable | crates/adapter/src/engine.rs:110-120 | after the passes no reference is stale and no value displaced |
| Engine.EnforcedTwice | crates/adapter/src/engine.rs:110-120 | running the passes again changes neither rows, tombstones, claims, clock nor frontier |
| Engine.EnforcedIsWrite | crates/adapter/src/engine.rs:110-120 | the passes keep the invariant, keep the set of rows and only add versions of this peer |
| Engine.OperationIsWrite | crates/sql/src/executor.rs:96-400 | each of INSERT, UPDATE, DELETE and both passes is a local write that keeps the invariant |
| Engine.OperationIsStep | crates/sql/src/executor.rs:96-400 | each is therefore a step of the world of all peers |
| Engine.ReadsAreUnique | crates/sql/src/executor.rs:478-495 | in every reachable state no two rows a peer shows share a non-NULL single-column UNIQUE value |
| Promotion.PromotionIff | crates/sql/src/executor.rs:617-643 | a deleted owner's value has a live winner exactly when the row of the newest live entry wins by its first entry |
| Promotion.DeadOwnerPromotes | crates/sql/src/executor.rs:654-656 | with distinct losers, or first entries newest, a deleted owner has a live successor exactly when it has a live loser |
| Promotion.NobodyPromoted | crates/sql/src/executor.rs:654-656 | after four claims with one re-claim a deleted owner has two live losers and neither wins, so both are displaced |
| Promotion.ConvergedReadsAgree | crates/adapter/src/engine.rs:190-229 | peers with equal visible rows, owners and claimants show the same rows of a table in which no deleted owner has two live losers |
| Promotion.GossipReadsAgree | crates/sync/src/lib.rs:5-7 | so two peers reached by the same peers show the same rows of such a table whatever the order of syncs |
| Contest.ConvergedReadsDiffer | crates/crdt/src/uniqueness.rs:132-180 | a reachable world whose two peers agree on rows, tombstones, owners and claimants and show different rows |
| Statements.NoErrorIffValid | crates/sql/src/executor.rs:143-197 | an INSERT reports no error exactly when every row passes the checks |
| Statements.AcceptedIff | crates/sql/src/executor.rs:139-197 | an INSERT is accepted exactly when the table is known and every row has all NOT NULL values, a value for the first primary key column, and no visible row of its id |
| Statements.RowErrorIs | crates/sql/src/executor.rs:155-190 | which error a row gives: the first NOT NULL column without a value, else the missing key, else the visible row of that id |
| Statements.ExecInsert | crates/sql/src/executor.rs:96-244 | returns the first error in row order and writes nothing, or writes all rows; indexes that agreed with storage still do |
| Statements.ExecDelete | crates/sql/src/executor.rs:347-400 | deletes exactly the matching visible rows, then enforces integrity; the indexes agree with storage as it was before enforcement |
| Statements.DeleteAllIsWrite | crates/sql/src/executor.rs:369-390 | the deletes of a statement are local writes and each matched row ends deleted |
| Statements.DeleteAllRows | crates/sql/src/executor.rs:369-390 | the i-th row deleted gets the i-th tick as delete version and tombstone and keeps its cells |
| Statements.DeletedRow | crates/sql/src/executor.rs:369-397 | a row deleted before keeps its version, a matching row is deleted under a tick of the statement, any other goes only for a stale Cascade reference |
| Statements.ExecUpdate | crates/sql/src/executor.rs:246-345 | updates matching rows until the first NOT NULL violation; the rows before it stay written; indexes that agreed with storage still do |
| Statements.ViolationIs | crates/sql/src/executor.rs:286-297 | a row is refused exactly for an assignment of NULL to a NOT NULL column, and the first such column is reported |
| Statements.UpdatedRow | crates/sql/src/executor.rs:268-342 | only visible rows that satisfy the condition change, and without an error each of them gets its assignments under a tick of the statement |
| Statements.UpdateAllRows | crates/sql/src/executor.rs:277-342 | the i-th row updated gets its own assignments under the i-th tick and keeps all else |
| Statements.UpdateAllIsWrite | crates/sql/src/executor.rs:277-342 | the row updates of a statement are local writes that keep the invariant |
| Statements.StatementIsWrite | crates/sql/src/executor.rs:96-400 | every statement that inserts no stored id is one local write that keeps the invariant |
| Statements.StatementIsStep | crates/adapter/src/engine.rs:50-66 | so it is a step of the world of all peers |
| Statements.Execute | crates/sql/src/executor.rs:39-94 | runs the statement on one replica with its indexes |
| Host.Receive | crates/adapter/src/engine.rs:109-121 | merges a delta and then enforces integrity |
| Host.ReceiveIsSteps | crates/adapter/src/engine.rs:109-121 | receiving is a delivery followed by a local write of the world, and ends stable and settled |
| Host.ReceiveAt | crates/adapter/src/engine.rs:109-121 | one peer changes, all others keep their whole state |
| Peers.EngineHost.RebuildAt | crates/adapter/src/engine.rs:121-125 | the indexes of every stored table become the rebuilt ones and no replica changes |
| Host.Sync | crates/adapter/src/engine.rs:88-140 | fails without effect when a peer is missing; else b receives what a held and a what b held before, also when they are the same peer, and the indexes of both are the rebuilt ones |
| Host.RunStatement | crates/adapter/src/engine.rs:50-66 | runs a statement on one peer and leaves the others alone; unless it reuses an id the world's invariant holds afterwards |
| Host.SyncKeepsIntegrity | crates/adapter/src/engine.rs:88-140 | a host sync is a run of the world after which both peers have no stale reference and no displaced value |
| Host.SyncLeavesUnique | crates/adapter/src/engine.rs:113-117 | after a host sync no two live rows of either peer hold the same single-column UNIQUE value |
| Frontiers.IsStable | crates/gc/src/lib.rs:13-17 | a tombstone is stable exactly when the global frontier has reached its version |
| Gc.RunGc | crates/gc/src/lib.rs:31-51 | removes exactly the rows and tombstones with a stable tombstone and returns their number |
| Gc.CollectGarbage | crates/gc/src/lib.rs:3-7 | collection against the minimum of a peer registry gives the collected replica |
| Gc.CollectIsStep | crates/gc/src/lib.rs:3-7 | with every live peer registered under a past frontier of its own, collection is a step that keeps the invariant |
| Gc.RevivedIff | crates/sync/src/delta.rs:66-78 | an absent row becomes visible exactly when a state that still shows it is delivered above the filter |
| Gc.StaleDeltaRevives | crates/gc/src/lib.rs:3-7 | a concrete delta extracted before a delete and applied after the collection brings the row back |
| Index.SecondaryIndex.Insert | crates/index/src/lib.rs:25-27 | adds a row to the bucket of its key |
| Index.SecondaryIndex.Remove | crates/index/src/lib.rs:29-36 | removes a row from its bucket and an emptied bucket from the index |
| Index.IndexManager.UpdateRow | crates/index/src/lib.rs:107-122 | changes every index of the table by old and new row and no other index |
| Index.IndexManager.RebuildTable | crates/index/src/lib.rs:89-104 | gives the index of the set of rows, so the order and repetition of rows are irrelevant |
| Index.IndexExact | crates/index/src/lib.rs:39-41 | a lookup finds exactly the visible rows with the key, and no bucket is empty |
| Index.LookupFinds | crates/index/src/lib.rs:136-146 | a lookup in the index of a table finds exactly the visible rows whose indexed columns hold the values in order, absent ones read as NULL |
| Index.UpdateAgrees | crates/index/src/lib.rs:107-122 | an index equal to the rebuilt one stays so when a row is written, visibility changes included |
| Index.IndexManager.Maintain | crates/sql/src/executor.rs:341-342 | indexes that agreed with storage agree with it after the row is stored |

## Left out

- SQL and DDL parsing, expression evaluation and column defaults: statements arrive as tables, conditions and column values.
- JSON-RPC, Python adapters, WASM bindings, the benchmark harness and network transport.
- BLAKE3 hashing and the CBOR and JSON encodings; convergence is stated on the rows, tombstones and owners that feed the hash.
- UniqueRows.ExecSelect: ordering, projection and LIMIT of the result are not modelled; it returns the set of rows that pass the filter. Neither are `range_scan` and the row order of snapshots.
- 64-bit counters and integers: counters are unbounded, so overflow is not modelled.
- Iteration in key order: maps are visited in arbitrary order, so every result holds for any order; table names are visited in their order by foreign-key enforcement; the nested maps by table and row are one map by both, with the set of table names beside it.
- Schema changes during a run: all peers of a run share one well-formed schema, with distinct column names free of the unit separator.
- Engine.Enforce: needs the invariant of reachable states, because without clock dominance an Orphan pass might not terminate.
- UniqueRows.ShownAreUnique: single-column constraints only, because a cell-level merge can build a composite tuple nobody claimed, and an unclaimed tuple counts as a winner; `UniqueRows.ShownTuplesAreUnique` covers the tuples both rows claimed.
- UniqueRows.SettledShowsAll: tables without composite constraints only, for the same reason.
- Runs.TombstonesMirrorDeletes: runs without garbage collection; with it the mirror holds for rows not collected anywhere, as `World.RunKeepsInv` keeps.
- Runs.NoZombies: deltas extracted before a collection are drained before it, because `Gc.StaleDeltaRevives` shows what happens otherwise.
- Statements.StatementIsStep: a statement that inserts a stored or collected id is not a step of the world, because it is no growing write; `Reuse` states what happens then.
- Convergence.GossipJoins: pairwise syncs without enforcement; enforcement ticks on every peer, so convergence of the host's sync loop is not stated.
- Statements.ExecDelete: the indexes are not claimed to agree with storage after the enforcement that ends a DELETE, because enforcement does not maintain them.
- Loser lists need not agree between peers and may hold duplicates; only their claimants are stated.
