# A model of the category store and its proofs

The store keeps every category in a JSON file and its metadata (content hash,
versions, search index, sync state) in SQLite. Several processes share one
store; each may stop at any instruction. This project models that store in
Dafny 4.11 and proves what its protocol is for.

`dafny verify dfyconfig.toml` checks the whole project.

## How the model is built

| module (file) | models |
|---|---|
| `Values`, `Sorting`, `Objects` | JSON values, file contents, content hashes, sequences, string order, objects with their members in order |
| `Log` (`Log.dfy`) | `src/store/log.rs`: bounded append-only logs |
| `SearchIndex` | the text index and the direct search of `src/store/mod.rs` |
| `Tables` | the SQLite tables as one value, and the row changes of every mutation |
| `FileStore` | the category directory as one value, its single file operations, coherence |
| `AtomicJson` | `src/store/atomic_json.rs` as a directory object mutated in place |
| `FileNames` | the file names of `src/store/atomic_json.rs` as strings |
| `Operations` | what each mutation decides and its effect on the map from names to contents |
| `Store` | the operations of `src/store/mod.rs` as methods of one process |
| `Protocol`, `ProtocolInvariant`, `Refinement` | any number of processes interleaved at single file operations and database statements, with errors and crashes anywhere |
| `Snapshots` (`Snapshot.dfy`), `Restore` | `src/store/snapshot.rs` |
| `Recovery` | `src/store/recovery.rs` |
| `Sync`, `LastWrite`, `Manifests` (`Manifest.dfy`) | `src/sync.rs` |
| `Txn` | `src/store/txn.rs` |

Three layers share the same definitions. Row changes and file operations are
functions on values (`Tables`, `FileStore`). The sequential classes
(`AtomicJson.Directory`, `Store.Store`, `Restore.BaseDir`, `Txn.WriteTxn`) apply
them step by step and are proved against those functions. `Protocol` interleaves
the same single operations between processes; `ProtocolInvariant` proves what
every step keeps, and `Refinement` proves that every run behaves like an atomic
map that only COMMIT changes.

Assumptions, carried by the data so that nothing is postulated:

- A content hash carries the content it was computed from: no collisions. In
  `Manifests`, where digests are strings of fixed length, each result names the
  inputs on which the digest must not collide.
- Printing a value and parsing it gives the value back (`Pretty`); other bytes
  carry what they parse to.
- A JSON string carries the instant its text denotes under RFC 3339, section
  5.6, if any. Row timestamps are ranks in the order the program compares them.
- Rename is atomic, file operations are durable and ordered, and the suffixes of
  staged, parked and backup files are never reused.
- The write lock is exclusive; a process that stops rolls back its transaction.
- For the commit protocol and the sequential store, the store starts empty;
  recovery of stores that are already divergent is the subject of `Recovery`.

## What the code does not do

Where a promise does not hold on all inputs, the project keeps the code as it is
and proves when it holds:

- A category may be called `a.json.new`: the name is accepted, but its final file
  has the very name of a staged file of category `a`. Names read back correctly
  exactly when no mark ends inside the name or at the dot that follows it
  (`FileNames.FinalNameDecodes`, `FileNames.UnsafeNameIsCaptured`).
- The newest log entry survives an append exactly when the age cap, cast to a
  signed integer, is not negative (`Log.NewestKeptIff`,
  `Log.WrappedAgeLosesTheNewest`).
- The newest version row survives pruning exactly when `max_versions` is at least
  1 (`Tables.PruneKeepsNewest`).
- `import_category` does not validate names, `adopt_plan` does: a plan can be
  adopted exactly when its names are valid and its files parse
  (`Recovery.PlanIsAdoptable`, `Recovery.DottedNameCannotBeAdopted`).
- Under last write wins the outcome of an import depends on the order only around
  the winning version: whenever one version prevails, every order ends with it,
  however the others tie (`Sync.LastWriteWins`). Among peers that serialize alike
  the order is irrelevant exactly when no offer can displace the version held,
  nothing is held or offered, or some offer prevails
  (`Sync.OrderDoesNotMatterIff`); `Sync.TiesDependOnOrder` and
  `Sync.EchoesDependOnOrder` are the two ways it fails.

## Model

| member | source | states |
|---|---|---|
| `Refinement.RunRefinesAtomicMap` | src/store/mod.rs:395-463 | under any interleaving, with errors and crashes anywhere, the committed contents are the committed operations applied one after the other to the empty map |
| `Refinement.CommitIsAtomic` | src/store/mod.rs:404-454 | COMMIT applies the operation to the contents current at that moment, although it was decided earlier |
| `Refinement.CommitLeaves` | src/store/mod.rs:395-463 | COMMIT leaves in its category exactly what the operation should: the value written, the merged object, the log with the new entry last, or nothing; every other category is as it was |
| `Refinement.CommitRecords` | src/store/mod.rs:466-551 | the committed row carries the operation's time and author, the newest version its hash and author; a local write queues its new hash for the next push, a delete its removal and leaves no trace in the other tables |
| `Refinement.StepRefinesAtomicMap` | src/store/atomic_json.rs:1-28 | every step either commits one operation or leaves the committed contents alone |
| `Refinement.CommitTouchesOneCategory` | src/store/mod.rs:523-551 | COMMIT changes row, index, versions, alias and dirty mark of its own category only |
| `Refinement.AppendsAreNeverLost` | src/store/mod.rs:565-605 | at any moment of any run a category only appended to since it was last created, whatever happened to it before, holds the log of all appends committed since then |
| `Refinement.MergesAreNeverLost` | src/store/mod.rs:378-390 | a key written by a committed merge and by no later operation holds what that merge said last about it, null meaning that it is gone, whatever other merges did |
| `Refinement.CommittedMembersAreInOrder` | src/store/mod.rs:439-448 | in any run every object in every committed value has its members in ascending order, each key at most once |
| `Refinement.LogIdsCountCommittedAppends` | src/store/log.rs:83-93 | in any run the ids of such a log count the appends committed since its creation, strictly increase, and reach the newest append; every entry carries the payload and the stamp of its append |
| `Refinement.LogsHoldTheWindow` | src/store/log.rs:115-143 | in any run a log that followed one retention policy since its creation holds exactly the entries of the committed appends within both caps, in commit order |
| `Refinement.ReachableIsCoherent` | src/store/atomic_json.rs:8-28 | in every reachable state the committed bytes are in some file, no final file lacks a row, and a category has at most one staged or parked file |
| `Refinement.LatePromotionIsSafe` | src/store/atomic_json.rs:58-75 | a promotion after the lock is released installs the committed content or does nothing, so it never rolls back a newer commit nor revives a deleted category |
| `Refinement.LateDeleteIsSafe` | src/store/atomic_json.rs:201-210 | completing a delete late touches no final file and only removes the parked file of a category that is still gone |
| `Refinement.DeletedContentIsKept` | src/store/atomic_json.rs:230-263 | the content of a committed delete leaves the directory only for the backups, whoever completes the delete |
| `Refinement.DerivedDataAgrees` | src/store/mod.rs:485-551 | in every reachable state the index has a row for each text and number at a position of a committed value, under its path, and no other; the newest version carries the row's hash, and a deleted category has neither |
| `Refinement.ReadersSeeCommitted` | src/store/mod.rs:297-339 | content and metadata returned without a lock belong together, and the metadata was committed at some moment during the call |
| `Refinement.CasReplacesWhatWasRead` | src/store/mod.rs:285-295 | a write expecting the hash of an earlier read, if it commits over an existing category, replaces exactly the content that was read |
| `Refinement.SnapshotIsAnInstant` | src/store/snapshot.rs:87-154 | when a snapshot releases the lock, its tables, files and backups are those of that instant and nothing is pending |
| `Refinement.SnapshotHasWhatWasAsked` | src/store/snapshot.rs:114-146 | a snapshot has the backups exactly when it was asked for with them, whatever other processes do meanwhile |
| `Refinement.ReconcileSettles` | src/store/mod.rs:124-137 | from any reachable state, also one left by an interrupted recovery, a recovery during which no other process moves changes no row and leaves exactly the committed files, in any order of names |
| `Refinement.ReconcileSettlesAmongOthers` | src/store/mod.rs:124-137 | whatever other processes do during a recovery, every category it found pending ends without pending files and with the committed content, and recovery itself changes no row |
| `Refinement.RecoveryKeepsExactlyTheCommitted` | src/store/mod.rs:127-155 | wherever a run is cut, recovery leaves on disk exactly the outcome of the committed operations |
| `ProtocolInvariant.StepKeepsInv` | src/store/atomic_json.rs:8-28 | every step of every process, including a stop at any point, keeps the protocol invariant |
| `ProtocolInvariant.RunKeepsInv` | src/store/mod.rs:120-155 | the invariant holds in every state of every run from the empty store |
| `Operations.MergesSurvive` | src/store/mod.rs:434-448 | replaying operations, the last merge to mention a key decides it, and its last mention counts |
| `Operations.ApplyPatchKey` | src/store/mod.rs:439-445 | a patch leaves under each key it mentions what the last mention says, nothing for null, and the other keys as they were |
| `Operations.ApplyPatchCanonical` | src/store/mod.rs:439-445 | patching keeps members in ascending order, each key at most once |
| `Operations.MergedIsUnique` | src/store/mod.rs:434-448 | the members so described and their order determine the merged object |
| `Objects.PutAscends` | src/store/mod.rs:443 | inserting or replacing a member keeps the keys strictly ascending |
| `Objects.SameMembersSameObject` | src/store/mod.rs:435-445 | an object with ascending keys is determined by what looking up its keys finds |
| `Operations.EffectExact` | src/store/mod.rs:404-454 | an operation is refused exactly in the listed cases, and otherwise leaves what it should in its category and all others alone |
| `Operations.ReplayCanonical` | src/store/mod.rs:434-449 | replaying operations, every object of every category keeps its members in order |
| `Operations.NamesRefused` | src/store/atomic_json.rs:317-322 | a name is refused exactly when it is empty or holds a slash, a backslash or two dots in a row |
| `Operations.DecideIsOutcome` | src/store/mod.rs:407-449 | the value decided from row and bytes under the lock is the atomic effect on the category |
| `Operations.RefusalsExact` | src/store/mod.rs:415-429 | a write is refused for its kind or its expected hash exactly when the code promises, and for nothing else; a conflict reports both hashes |
| `Operations.AnswersExact` | src/store/mod.rs:404-429 | the answer to a write or an append: a bad name first, then unreadable bytes, then the kind, then the expected hash |
| `Operations.AppendsAreReplayed` | src/store/mod.rs:572-603 | whatever else is committed around them, the appends to a new category build the log of those appends in order |
| `Operations.SinceDeleteReplays` | src/store/mod.rs:629-656 | the operations since the last delete of a category start without it and reach the same contents |
| `Operations.CommittedLogIds` | src/store/mod.rs:577-597 | the log built by the appends committed since the last delete has the ids of those appends |
| `Operations.CommittedLogWindow` | src/store/log.rs:115-143 | the same log, under one policy, holds exactly the entries within both caps |
| `Operations.UpsertRowsKeepsDbOk` | src/store/mod.rs:468-551 | write, merge, append, import and sync upsert keep index and versions in agreement with the rows |
| `Operations.UpsertVersionsExact` | src/store/mod.rs:537-540 | an upsert adds one newest version with the row's hash and author; a local write keeps the newest `max_versions` |
| `Operations.DeleteRowsExact` | src/store/mod.rs:637-649 | a delete leaves no row, version, index row or alias of its category and queues its removal |
| `Operations.UpsertTouchesOneCategory` | src/store/mod.rs:468-551 | no upsert changes what any table says about another category |
| `Operations.DeleteTouchesOneCategory` | src/store/mod.rs:637-649 | nor does a delete |
| `FileStore.CommittedBytesCarried` | src/store/mod.rs:297-302 | in a coherent store some file carries the committed bytes of every row |
| `FileStore.RenameKeepsCoherent` | src/store/atomic_json.rs:114-133 | renaming a pending file over the final one is sound when the row names its bytes, and settles the category |
| `FileStore.DiscardKeepsCoherent` | src/store/atomic_json.rs:134-145 | a staged file whose bytes the row does not name may be removed |
| `FileStore.CommitUpsertKeepsCoherent` | src/store/atomic_json.rs:8-12 | committing a row that names a complete staged file keeps the store coherent before the rename |
| `FileStore.CommitDeleteKeepsCoherent` | src/store/mod.rs:633-650 | committing a delete keeps the store coherent while the file is only parked |
| `FileStore.NothingPendingMeansSettled` | src/store/atomic_json.rs:14-20 | a coherent store without pending files has exactly the committed files |
| `AtomicJson.Directory.Stage` | src/store/atomic_json.rs:83-96 | a fresh staged file with all the bytes, and nothing else changed |
| `AtomicJson.Directory.Promote` | src/store/atomic_json.rs:57-75 | the staged file becomes the final one; a missing one is success |
| `AtomicJson.Directory.SettleStaged` | src/store/atomic_json.rs:107-148 | every listed staged file is promoted or discarded by its hash, and the counts say how many |
| `AtomicJson.SettleEachResult` | src/store/atomic_json.rs:117-147 | afterwards no staged file of the category is left, the committed bytes are final if one carried them, other categories keep their files, and the counts add up |
| `AtomicJson.Directory.CommittedContent` | src/store/atomic_json.rs:158-192 | finds bytes with the committed hash exactly when some file has them, the final file first, parked files last |
| `AtomicJson.Directory.StageDelete` | src/store/atomic_json.rs:213-228 | parks the final file if there is one, otherwise changes nothing |
| `AtomicJson.Directory.FinishDelete` | src/store/atomic_json.rs:344-353 | moves the parked file into the backups, by rename or by copy and remove |
| `AtomicJson.Directory.SettleDeleted` | src/store/atomic_json.rs:230-263 | restores the parked files when the row exists, otherwise completes the delete, and counts them |
| `AtomicJson.RestoreEachResult` | src/store/atomic_json.rs:240-250 | restoring leaves none parked, puts the content back and touches no backup |
| `AtomicJson.BackUpEachResult` | src/store/atomic_json.rs:251-260 | completing deletes leaves none parked, keeps every old backup and adds every parked content |
| `AtomicJson.ListingExact` | src/store/atomic_json.rs:324-342 | a listing has exactly the files of its category and kind, each once |
| `Store.Store.SettleLocked` | src/store/mod.rs:139-155 | afterwards the category has no pending file, the store is coherent, other categories keep theirs and no backup is lost |
| `Store.SettleOk` | src/store/mod.rs:141-155 | settling staged then parked files of any coherent store achieves that |
| `Store.Store.ReconcileOnOpen` | src/store/mod.rs:124-137 | in any order of the pending names the directory ends with exactly the committed files, rows unchanged |
| `Store.Store.ReadConsistent` | src/store/mod.rs:297-339 | undisturbed, committed bytes carried by any file are returned in the first attempt with their row; otherwise it gives up after 40; an orphan file is served without metadata |
| `Store.Store.Read` | src/store/mod.rs:279-284 | the parsed committed content, or the error of a missing or unparseable category |
| `Store.Store.WriteWith` | src/store/mod.rs:395-463 | succeeds exactly when the name is valid and the operation applies to the current content; then rows and final file hold what the operation should leave, otherwise no row changes and the answer says why |
| `Store.Store.Delete` | src/store/mod.rs:629-656 | all rows of a valid name go, its file ends in the backups, nothing of it stays in the directory |
| `Store.Store.ImportCategory` | src/store/mod.rs:1052-1094 | refused exactly when a log or an unreadable value would be overwritten; the bytes already committed are not committed again |
| `Store.Store.UpsertSynced` | src/store/mod.rs:1175-1239 | the row keeps the hash of the local bytes, the peer's hash is recorded beside it |
| `Store.Store.VerifyStore` | src/store/mod.rs:1312-1360 | reports exactly the rows without bytes, the files without row and the names with pending files; clean exactly when the database is intact, no restore was interrupted and the files are the committed contents |
| `Store.Store.SearchInFiles` | src/store/mod.rs:878-892 | the first `limit` matching string leaves of the committed contents, in order |
| `Store.AllMatchesExact` | src/store/mod.rs:878-892 | a result row for every match at a position of the committed value of a listed category, and no other |
| `SearchIndex.CollectExact` | src/store/mod.rs:894-976 | the leaves indexed (or matched by a search) are exactly those at some position of the value, each under the path to that position |
| `SearchIndex.CollectInOrder` | src/store/mod.rs:894-976 | the leaves come in document order, each position once |
| `SearchIndex.FlattenExact` | src/store/mod.rs:943-955 | the index keeps non-empty strings, integers in decimal and the text of other numbers, and nothing of null, booleans and empty strings |
| `SearchIndex.MatchesExact` | src/store/mod.rs:894-916 | a search finds exactly the strings whose lower-cased text contains the query |
| `SearchIndex.IntTextExact` | src/store/mod.rs:951-954 | the text of an integer is its decimal numeral without leading zeros, and no other text is |
| `SearchIndex.PathSpelled` | src/store/mod.rs:956-972 | the path of a position joins keys by dots and puts item numbers in brackets |
| `SearchIndex.IndexTable.IndexRecursive` | src/store/mod.rs:943-976 | inserts one row per textual leaf in value order |
| `SearchIndex.Results.SearchRecursive` | src/store/mod.rs:894-934 | extends the shared results by the matching leaves as far as the limit allows |
| `Tables.StageRowsKeepsDbOk` | src/store/mod.rs:489-551 | an upsert re-indexes its category and leaves every other category's derived data alone |
| `Tables.DeleteRowsKeepsDbOk` | src/store/mod.rs:637-649 | a delete removes index and versions of its category only |
| `Tables.PruneKeepsTheLast` | src/store/mod.rs:978-985 | pruning keeps exactly the newest `max` versions of the category, in order |
| `Tables.PruneKeepsNewest` | src/store/mod.rs:978-985 | the newest version row survives pruning exactly when the maximum is at least 1 |
| `Tables.HoldsMeansSameValue` | src/store/mod.rs:1263-1282 | a positive answer means the local bytes carry the remote version's value |
| `Log.AppendEntryInPlace` | src/store/log.rs:53-81 | one stamped entry with the next id, then pruning; refused for a value that is no log |
| `Log.AppendLeaves` | src/store/log.rs:59-80 | the log after an append records its policy, keeps its other members, stays within the count cap and ends with the entry of the append: payload, next id, stamp |
| `Log.AppendCanonical` | src/store/log.rs:59-81 | an append to a log with members in order leaves one, `_kind`, `_retention` and `entries` once each |
| `Log.NextIdExact` | src/store/log.rs:86-93 | the next id is one past the highest numeric id, modulo 2^64, and 0 without any |
| `Log.PolicyInForce` | src/store/mod.rs:582-585 | an explicit retention comes before the stored one if that has a cap, and this before the default of 200 entries; the log records it |
| `Log.AgePruneExact` | src/store/log.rs:120-134 | age pruning keeps exactly the entries stamped within the cap or without a readable stamp, in order |
| `Log.AppendRefusals` | src/store/log.rs:51-78 | an append is refused exactly for an existing value that lacks the mark or the entries, and fails exactly when the age cutoff leaves the calendar; a marked log is never found malformed |
| `Log.EntryVec.PruneEntries` | src/store/log.rs:119-143 | drops entries by age, then drains the front down to the cap |
| `Log.PrunedIsLongestSuffix` | src/store/log.rs:115-143 | with non-decreasing timestamps pruning keeps the longest suffix within both caps, never fewer than one by count |
| `Log.AppendShape` | src/store/log.rs:59-80 | an append leaves a log that records its retention, keeps its other members, and holds the pruned entries with the new one last |
| `Log.LogIds` | src/store/log.rs:83-93 | ids count the appends since creation, strictly increase, are never reused after pruning, the newest entry is kept, and every entry carries the payload and stamp of its append |
| `Log.NewestKeptIff` | src/store/log.rs:120-134 | an append keeps its own entry, last and with its payload, id and stamp, exactly when the age cap is in range; the others were there before |
| `Log.WrappedAgeLosesTheNewest` | src/store/log.rs:122 | an age cap of 2^64 - 1 days drops the entry just appended, and its id is given again |
| `Log.FixedCountWindow` | src/store/log.rs:135-142 | with a fixed count cap m a log of k appends holds exactly the payloads of the last min(k, max(1, m)), in order |
| `Log.RetentionWindow` | src/store/log.rs:115-143 | under one policy a log holds exactly the entries of the appends within both caps right after the last append, in order |
| `Snapshots.Verify` | src/store/snapshot.rs:173-284 | accepts exactly the directories whose files are one per row with the row's bytes and whose backups are exactly those listed; otherwise reports exactly the problems present |
| `Snapshots.NoProblemMeansFaithful` | src/store/snapshot.rs:195-258 | the problems looked for are all there can be |
| `Snapshots.EverySnapshotVerifies` | src/store/snapshot.rs:155-157 | a snapshot taken in any run, with pending files and late renames of others around, verifies |
| `Restore.BaseDir.Restore` | src/store/snapshot.rs:286-390 | the directory changes by single file operations only, and at every moment, wherever it fails or stops: without a marker the live store is all old or all new, every old piece is live or parked, and from the marker on every new piece is staged or live; what goes live is a staged copy that verified; a rejected snapshot changes nothing, and a faithful one is restored when copies are exact and nothing fails |
| `Restore.BaseDir.StageAll` | src/store/snapshot.rs:303-339 | phase one touches nothing but the staging directory and succeeds only if what arrived there verifies |
| `Restore.BaseDir.Swap` | src/store/snapshot.rs:341-382 | phase two is fail-closed after every single operation and ends with the new store and no marker |
| `Restore.BaseDir.ParkLive` | src/store/snapshot.rs:358-366 | the database, its side files and the categories are parked, each kept |
| `Restore.BaseDir.Open` | src/store/snapshot.rs:36-40 | what the store opens at any moment of a restore is all old or all new |
| `Restore.ExactCopyIsFaithful` | src/store/snapshot.rs:330-332 | an exact staged copy of a verified snapshot verifies when read back |
| `Restore.InstallKeepsSwapping` | src/store/snapshot.rs:367-373 | a staged piece renamed into a free place loses nothing |
| `Restore.SnapshotRestoreRoundTrip` | src/store/snapshot.rs:72-158 | restoring a snapshot over any later store brings back exactly the tables, files and backups of the instant the lock was held, and no side file of the old database |
| `Recovery.Plan` | src/store/recovery.rs:96-166 | succeeds exactly when nothing is pending, no restore was interrupted and every mismatch has a file; the entries are exactly the mismatches, truthfully described |
| `Recovery.FindBackup` | src/store/recovery.rs:168-196 | finds a backup with the hash exactly when there is one |
| `Recovery.SemanticDelta` | src/store/recovery.rs:198-281 | computes the delta of two values, duplicates found by one scan |
| `Recovery.DuplicatesExact` | src/store/recovery.rs:220-226 | no duplicate is reported exactly when all ids differ |
| `Recovery.DuplicatesCounted` | src/store/recovery.rs:220-226 | an id is reported once for each time the file repeats it |
| `Recovery.LogDeltaExact` | src/store/recovery.rs:216-263 | added, missing and changed ids, duplicates and entry counts, each told from the entries of the two logs |
| `Recovery.FileValidExact` | src/store/recovery.rs:246-255 | the file is reported valid exactly when all its entries have ids and these strictly increase |
| `Recovery.MapDeltaExact` | src/store/recovery.rs:266-278 | an object delta names each key by what adopting the file does to it, and no other key changes |
| `Recovery.PureAppendDelta` | src/store/recovery.rs:66-74 | for two valid logs, nothing missing and nothing changed means exactly that the database entries are the file's entries restricted to the database ids, in order |
| `Recovery.AdoptPlan` | src/store/recovery.rs:295-403 | every entry is adopted or none: refused with the first failed precondition, rows unchanged on any error, files untouched, backups only added, and a copy of every adopted file among them |
| `Recovery.AdoptionAgrees` | src/store/recovery.rs:373-383 | after adoption every entry's row names its file and no other row moved |
| `Recovery.AdoptOneExact` | src/store/recovery.rs:384-390 | an adopted row names the file, at the time of adoption, by "recovery", with a version and a mark of its own; no other category changes |
| `Recovery.AdoptingAgainIsNoOp` | src/store/recovery.rs:295-300 | a rerun of the same entries finds all consistent and changes no table |
| `Recovery.PlanIsAdoptable` | src/store/recovery.rs:313-348 | right after a plan, adoption goes through exactly when all names are valid and all files parse |
| `Recovery.AdoptingThePlanLeavesNoMismatch` | src/store/recovery.rs:349-402 | adopting right after the plan leaves no mismatch |
| `Recovery.AdoptionKeepsDbOk` | src/store/recovery.rs:384-390 | adoption keeps index and versions in agreement with the rows |
| `Recovery.DottedNameCannotBeAdopted` | src/store/recovery.rs:315 | a category imported under a name with two dots can be planned but never adopted |
| `Sync.ApplySyncEnvelope` | src/sync.rs:374-480 | imports the entries in order, then deletes; the store stays coherent, and where there is nothing to pull no file changes |
| `Sync.LocalWinsAlways` | src/sync.rs:280 | under "local_wins" an import leaves every category that was there as it was, in every table, and reports each entry not held as won locally |
| `Sync.RemoteWinsAlways` | src/sync.rs:281 | under "remote_wins" every valid category named ends with the data of its last entry, and with its time and author unless it was recognized as held |
| `Sync.OtherStrategiesAreLastWriteWins` | src/sync.rs:282-289 | any other strategy is last write wins |
| `Sync.HeldAfterWrite` | src/store/mod.rs:1256-1282 | a local write voids the recorded alias unless it leaves the very bytes that were imported |
| `Sync.LastWriteWins` | src/sync.rs:267-291 | importing any versions in any order, any number of times and however the peers serialize, leaves the version that prevails over those held and offered; the others may tie |
| `Sync.NewestWins` | src/sync.rs:267-291 | when timestamp, author and data determine one another, the newest of all versions held or offered is left |
| `LastWrite.PrevailingIsLast` | src/sync.rs:272-289 | whatever is recognized as held on the way, the prevailing version is held in the end |
| `LastWrite.DeterminedNewestPrevails` | src/sync.rs:272-289 | among versions that timestamp and value determine, the newest prevails |
| `Sync.OrderDoesNotMatterIff` | src/sync.rs:389-446 | among peers that serialize alike every order of an import has one outcome exactly when no offer can displace the version held, nothing is held or offered, or some offer prevails |
| `LastWrite.OrderIrrelevantIff` | src/sync.rs:272-289 | the same on the versions alone |
| `LastWrite.TwoOrders` | src/sync.rs:282-289 | otherwise two orders of the same offers end with different versions |
| `Sync.ImportsAreConfluent` | src/sync.rs:376-466 | replicas importing the same versions in different envelopes and orders all end with the version that prevails |
| `Sync.TiesDependOnOrder` | src/sync.rs:282-289 | two different values with one timestamp: whichever is imported last stays, however the peers serialize |
| `Sync.EchoesDependOnOrder` | src/sync.rs:392-402 | two versions with one value and hash: whichever is imported first stays, even the older |
| `Sync.ReapplyingIsIdempotent` | src/sync.rs:389-477 | applying an envelope with distinct names twice leaves rows, versions, index, aliases and dirty marks as after the first time |
| `Sync.ReappliedFilesStay` | src/sync.rs:392-402 | the second time there is nothing to pull, so no file changes either |
| `Sync.HoldingIsNeverWrong` | src/store/mod.rs:1256-1282 | in any run, across writes, deletes and re-creations, the store claims to hold a remote version only when its bytes carry that version's value |
| `Sync.RunKeepsAliases` | src/store/mod.rs:1186-1226 | every recorded alias relates two serializations of one value, in every state of every run |
| `Sync.ExportSyncEnvelope` | src/sync.rs:309-341 | exports exactly the named categories held, in the order asked, each as its row and the value of its bytes |
| `Sync.ExportOffersWhatIsHeld` | src/sync.rs:317-334 | an export offers exactly the versions held under its names |
| `Sync.ExchangeConverges` | src/sync.rs:374-376 | two stores that import each other's exports in turn hold the same value of every category exchanged, and the same version unless they held one value under two timestamps or authors |
| `Sync.ImportMoves` | src/sync.rs:389-463 | importing an export moves each category by the one version the peer holds |
| `Manifests.ComputeMerkleRoot` | src/sync.rs:120-143 | the digest of the sorted leaf digests, or "empty" |
| `Manifests.RootFormat` | src/sync.rs:123-143 | the text hashed is the sorted digests of name, colon and hash, one behind the other |
| `Manifests.RootsAgree` | src/sync.rs:120-143 | two roots are equal, whatever the listing order, exactly when the items are |
| `Manifests.RootIgnoresOrder` | src/sync.rs:136 | the root does not depend on the order of the items |
| `Sorting.SortCanonical` | src/sync.rs:136 | permutations sort to the same sequence |
| `Sorting.SortSorts` | src/sync.rs:136 | sorting yields a sorted permutation |
| `Manifests.ConcatInjective` | src/sync.rs:138-142 | concatenating digests of one length loses nothing |
| `Manifests.BuildManifest` | src/sync.rs:147-176 | the items in listing order with the root of their contents |
| `Manifests.RootsCompareStores` | src/sync.rs:166-175 | two stores publish the same root exactly when they hold the same categories with the same contents |
| `Manifests.ComputeDiff` | src/sync.rs:204-263 | the four groups hold exactly the names they should, each once |
| `Manifests.GroupsPartitionNames` | src/sync.rs:222-255 | every name of either side is in exactly one group |
| `Manifests.SwappingSwapsPullAndPush` | src/sync.rs:231-254 | from the other side, pulls become pushes and the rest keeps its group |
| `Manifests.RootsAgreeIffUnchanged` | src/sync.rs:204-263 | equal roots mean that every name is unchanged, and the other way round |
| `Txn.RetryBusyOn` | src/store/txn.rs:59-120 | always one attempt, retries exactly while busy and before the deadline, runs every statement with the busy handler capped to what is left, answers success exactly when the last reply was, and otherwise with its own kind of error; restores the busy handler |
| `Txn.AttemptsAreBounded` | src/store/txn.rs:69-107 | the deadline bounds the attempts: one per 187.5 ms and a constant |
| `Txn.NothingWaitsPastTheDeadline` | src/store/txn.rs:75-81 | each statement runs with the handler set to the configured wait or to what is left, whichever is less, so neither it nor a pause reaches past the deadline |
| `Txn.BusyOnlyAfterTheDeadline` | src/store/txn.rs:94-102 | busy is reported only once the whole deadline has been waited |
| `Txn.ReturnsByTheDeadline` | src/store/txn.rs:59-61 | when SQLite honours whatever busy handler is in force, the call returns by the deadline, give or take four delays |
| `Txn.Begin` | src/store/txn.rs:143-161 | the transaction is open exactly when the last attempt went through, and remembers when the wait started |
| `Txn.WriteTxn.Commit` | src/store/txn.rs:174-196 | exactly one of COMMIT and ROLLBACK counts, COMMIT exactly when its last attempt went through; the transaction is over either way |
| `Txn.WriteTxn.Rollback` | src/store/txn.rs:199-203 | exactly one ROLLBACK, none from the drop that follows |
| `Txn.WriteTxn.Drop` | src/store/txn.rs:206-217 | rolls back unless the transaction is already over |
| `Txn.CommitSharesTheBudget` | src/store/txn.rs:163-185 | COMMIT's deadline is the one BEGIN started from, to within the truncated millisecond; later it gets no time to wait |
| `Txn.TransactionWithinBudget` | src/store/txn.rs:130-139 | a transaction whose work ends within the budget is over by BEGIN's deadline, give or take a millisecond and the delays |
| `FileNames.FinalNameDecodes` | src/store/atomic_json.rs:286-301 | a final file is listed under its own name exactly when the name is safe |
| `FileNames.FinalNamesExact` | src/store/atomic_json.rs:286-301 | a file is listed as the final file of a name exactly when it is called the name and `.json` and holds no mark |
| `FileNames.PendingNamesExact` | src/store/atomic_json.rs:271-284 | a file is attributed to the text before its first staged mark, or without one before its first parked mark |
| `FileNames.PendingNameDecodes` | src/store/atomic_json.rs:271-284 | a staged or parked file of a safe name is attributed to that name, and only then for parked ones |
| `FileNames.OnlyTheWrittenMark` | src/store/atomic_json.rs:35-36 | behind a safe name the only mark in a file name is the one written, although marks overlap at their dots |
| `FileNames.NoCrossCapture` | src/store/atomic_json.rs:324-342 | a prefix scan captures no file of another category or kind |
| `FileNames.DirectoryReadsBack` | src/store/atomic_json.rs:271-301 | a directory of safe names reads back as exactly its final files and its categories with pending files |
| `FileNames.PrefixScansReadBack` | src/store/atomic_json.rs:332-342 | a scan finds exactly the category's own staged or parked files |
| `FileNames.FileNamesAreDistinct` | src/store/atomic_json.rs:38-40 | different files of safe names have different names |
| `FileNames.UnsafeNameIsCaptured` | src/store/atomic_json.rs:86-87 | the final file of `<base>.json.new` has the name of a staged file of `<base>` |
| `FileNames.UnsafeNamesAreValid` | src/store/atomic_json.rs:317-322 | name validation accepts such a name |
| `FileNames.JsonNames` | src/store/atomic_json.rs:287-301 | the sorted names decoded from a listing |
| `FileNames.PendingNames` | src/store/atomic_json.rs:272-284 | the names decoded from the staged and parked files of a listing |
| `FileNames.FilesWithPrefix` | src/store/atomic_json.rs:332-342 | the sorted file names with the prefix |

## Left out

- The copy of the previous file into `backups/` before an overwrite (`backup_copy`) and the pruning of old backups: failures there are only logged.
- The columns `reason`, `timestamp`, `size_bytes`, `namespace` and `write_policy`, and the version metadata shown by `history`, `read_version` and `stats`.
- Full-text and LIKE search, schema creation, PRAGMAs and `VACUUM INTO`: the database is a value with an exclusive write lock.
- fsync and power-loss reordering.
- The transactions of `clear_dirty` and `set_sync_state` in the interleaved protocol: they change no row and no file.
- Whether the dirty queue is complete across a push: it is cleared by name after a network call.
- The metadata that `apply_sync_envelope` reads outside the lock: sync runs as one process in the model.
- The kind check of `import_category` is made before the lock is taken; in the interleaved protocol it constrains nothing.
- Compare-and-swap on a missing category: the expected hash is then ignored, as in the code.
- Copying or removing a directory file by file: in `Restore` a directory is staged, parked, renamed or dropped in one operation.
- Files that are not UTF-8, and stray entries of a snapshot's categories directory that are no `.json` file.
- `classify`, a table of SQLite result codes: the replies in the model are already classified.
- The variant of the retry loop without a connection, which sets no busy handler, and the 32-bit attempt counter.
- The fields `updated_at`, `updated_by` and `version` of manifest items, which take no part in the root or the difference.
- HTTP and MCP servers, the CLI, configuration, the Python bridge, access control, embeddings and the Node.js migration.
- Log.NextId: the sum wraps at 2^64 as in a release build; `Log.LogIds` covers up to 2^64 appends.
