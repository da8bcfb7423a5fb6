# Fathomline: verified core

A Dafny model of the parts of Fathomline where a fast, concurrent or incremental mechanism has to agree with a simple
definition, with the proofs that it does.

| component | modules |
|---|---|
| the concurrent tree walk, and the capped directory sizing | `FileTree`, `Walk`, `WalkMeaning`, `WalkRules`, `BoundedSubtree` |
| the hash-chained audit log, its writers and its checkpoints | `Audit`, `AuditStore`, `Checkpoint` |
| the catalogue: guarded upsert, removals, change log, ingest | `Catalogue`, `Ledger`, `Replay`, `Ingest` |
| rollups, drill-down, LIKE patterns, finalize | `Rollup`, `RollupService`, `DrillDown`, `MissedRename`, `Like`, `Finalize` |
| duplicate detection, three implementations, and its pages | `Grouping`, `Funnel`, `ProviderRuns`, `DedupBuild`, `Pages` |
| protocols and a reducer | `Browse`, `Lease`, `LeaseRace`, `Downsample` |
| paths, orders, lists | `PosixPaths`, `AgentPath`, `LikePaths`, `Ordering`, `Lists` |

## How it is modelled

* **Concurrency** is a step system. The walk's steps are what a worker, the closer or the consumer does between two
  queue operations; the audit store's steps are one read of the head and one insert; the browse queue's are the stretches
  of code between awaits. Runs are arbitrary sequences of enabled steps, and the theorems hold for all of them.
* **Tables** are sequences or maps, and each SQL statement is one atomic step.
* **Loops** that update variables are methods with invariants, each proved against a function or predicate whose own
  properties are then proved as lemmas; services whose state changes are classes.
* **Paths** are real strings: `strip`, `split`, `rstrip`, `count` and the mount `/` are modelled character by character.
  A path is canonical when it is `/` followed by non-empty names joined by `/`, none of them `.` or `..`.
* **Cryptography** is abstract: the digest is any function, and collision freedom is assumed only where a theorem names
  `Sound`; a signature is any predicate, and where `Honest` is named the keys accept the heads they signed and nothing
  else. `Audit.SoundSchemeExists` and `Checkpoint.HonestKeysExist` show that both assumptions can be met.

## Where the code and its documentation differ

The model follows the code. Each difference is a proved statement.

* The walk prunes excluded directories while descending, and the ingest side filters by the same rule; the two agree
  except when the scan root is `/`, `/` is excluded, and something in it would be reported (`WalkMeaning.PruneIsFilter`;
  `WalkMeaning.ExcludedRootHidesFile` is such an input).
* A rename that keeps size and modification time leaves the old path in the catalogue
  (`Catalogue.RenameSeenIffGuardFires`, an instance in `Catalogue.RenameMissed`).
* The number of delete rows equals `removed` only if no matching row still carries the same removal time stamp
  (`Ledger.DeletesExactIffStampFresh`, an instance in `Ledger.SameStampLogsTwice`).
* Entries that repeat a key within a batch are all classified against the same prior row. The agent's staging table
  holds one row per identity (src/fathom/agent/staging/store.py:38), so its own batches do not repeat a key, but the
  server does not check. A key's ledger balances exactly when the sizes that its later entries supersede, each less the
  prior size, add up to zero (`Ledger.KeyBalancesIff`); the theorems over runs carry that term. The replay of such a
  batch changes no row, but with the feed on it logs again every entry that disagrees with the last one of its key
  (`Replay.ReplayIsNoopIff`, `Replay.ReplayLogsAgain`).
* A batch that removes one of its own entries is not idempotent: its replay resurrects the entry and removes it again
  (`Replay.ReplayIsNoopIff`).
* The path validator keeps exactly two leading slashes, so a mount such as `//srv/data` is accepted, and its rows are not
  canonical paths (`Ingest.VettedWithinMount`).
* Drill-down selects by LIKE. Where that comparison folds case, as SQLite's does, the children of a directory whose name
  compares equal are listed and counted too (`DrillDown.FilterExactIff`, `DrillDown.ConservedIff`): listing `/foo` lists
  `/Foo/x` (`DrillDown.CaseFoldLists`).
* Nothing keeps paths unique (src/fathom/core/ingest.py:407-412 identifies entries by device and inode). A missed rename
  followed by a new directory on the old path leaves two live rows on it, and what lies beneath is then counted once for
  each: the children's totals exceed their parent's, with exact comparison too (`DrillDown.TotalsConserved` has the term,
  `DrillDown.ConservedIff` the exact condition, `MissedRename.MissedRenameDoubles` the batch that leads there).
* The suggested keeper is independent of the order in which rows load exactly when one copy is best. Copies on the same
  path of two hosts can tie, and the load query has no order (`DedupBuild.KeeperOfAnyOrder`, `DedupBuild.TiedByOrder`).
* Verifying a checkpoint indexes the log by the anchored serial number. On a database that consumes a serial number for
  a rejected insert, one lost race makes an honest checkpoint of an intact log fail
  (`Checkpoint.AcceptedIffGapless`, `Checkpoint.BurnedNumberBreaksCheckpoint`).
* The size that drill-down shows for a non-empty directory leaves out the directory's own size, which its parent's total
  includes (`DrillDown.ShownFiguresFallShort`).
* A batch that is pushed into a snapshot older than the volume's rollup is not seen by the next finalize
  (`Finalize.LateBatchSkipped`, with a run in `Finalize.LateBatchRun`), and a volume with an empty rollup is taken up
  again by every finalize (`Finalize.RepeatSelects`, an instance in `Finalize.EmptyTakenAgain`).
* The funnel's result is the (size, full hash) partition exactly when equal content never has different partial hashes
  (`Funnel.FunnelIsNaiveIff`, an instance in `Funnel.SplitByPartial`).
* A provider-duplicate limit of zero or less still lets one group through (`ProviderRuns.FindDuplicates`).
* The limit on concurrent heavy scans holds for requests that run one at a time. When their statements interleave it
  holds exactly while no insert acts on a count that others have overtaken (`LeaseRace.LimitKeptIff`); with `k` requests
  between count and insert it can be exceeded by `k - 1` and by no more (`LeaseRace.ExcessBounded`,
  `LeaseRace.ExcessAttained`). Overlapping requests of one host can leave it with two leases
  (`LeaseRace.HostsKeptIff`, `LeaseRace.OverlapDoubles`).
* A browse call can be failed by the expired queue item of an earlier call that used the same request id
  (`Browse.RoundTrip`, a run in `Browse.TwinFails`). It takes a caller that uses an id again: the program's only one
  draws ids at random (src/fathom/api/routers/agent_browse.py:161).

## Model

| member | source | states |
|---|---|---|
| FileTree.ScanDir | src/fathom/backends/posix.py:200-229 | one directory yields its reportable entries and the subdirectories to visit, both in listing order |
| Walk.WalkIsExact | src/fathom/backends/posix.py:144-181 | for any number of workers, any queue bound and every interleaving: when the consumer reads the sentinel it has yielded the root and everything below it, each exactly as often as the tree holds it, and nothing is left in flight |
| Walk.WalkIsSafe | src/fathom/backends/posix.py:144-181 | at every point of every run the result queue is within its bound, nothing has been yielded too often, and no item stands behind the sentinel |
| Walk.SomeStepEnabled | src/fathom/backends/posix.py:144-181 | until the sentinel is read some step is enabled, even with one worker and a one-slot result queue |
| Walk.StepDecreases | src/fathom/backends/posix.py:150-181 | every step lowers the remaining cost by one |
| Walk.WalkTerminates | src/fathom/backends/posix.py:144-181 | no run is longer than the cost of the tree, and a run that cannot go on has finished |
| WalkMeaning.ReportsReachable | src/fathom/backends/posix.py:312-328 | what the walk counts as below a directory is what a route of descended directories reaches |
| WalkMeaning.PathsOnce | src/fathom/backends/posix.py:200-229 | no two reported entries have the same path |
| WalkMeaning.FinishedWalk | src/fathom/backends/posix.py:110-181 | a finished walk has yielded the root and everything reachable by the descend rules, each path once |
| WalkRules.FinishedWalkYields | src/fathom/backends/posix.py:200-328 | a finished walk has yielded an entry other than the root, once and with its own name, kind, size and device, if and only if a way down leads to it on which nothing is unreadable or excluded and everything passed is a real directory, no control directory, and with `one_filesystem` on the root's device |
| WalkMeaning.ExcludedBelow | src/fathom/backends/posix.py:41-52 | exclusion is closed downwards except below an excluded `/` |
| WalkRules.ExcludedIff | src/fathom/backends/posix.py:41-52 | a path is excluded if and only if some non-empty exclude text normalises to it or to a directory above it, by whole names, `/` standing for itself alone |
| WalkMeaning.PruneBelow | src/fathom/backends/posix.py:200-229 | below any directory other than an excluded `/`, pruning on the way down reports what filtering the unpruned walk reports |
| WalkMeaning.PruneIsFilter | src/fathom/backends/posix.py:41-52 | pruning equals filtering if and only if the one exceptional case does not arise |
| WalkMeaning.ExcludedRootHidesFile | src/fathom/backends/posix.py:41-52 | the exceptional case: with `/` excluded the walk of `/` reports nothing, while filtering the unpruned walk keeps a file in it |
| WalkMeaning.UnprunedReports | src/fathom/backends/posix.py:41-52 | the walk that the filter is compared with excludes nothing and descends alike |
| BoundedSubtree.Scan | src/fathom/agent/browse_lister.py:44-63 | one listing is added to the totals and its directories to the stack, stopping at the cap |
| BoundedSubtree.Size | src/fathom/agent/browse_lister.py:30-64 | the loop ends; totals never exceed the subtree's, equal them unless truncated, at most `max_entries` are seen; without a deadline, truncated says whether the subtree reaches the cap |
| BoundedSubtree.TotalOfOne | src/fathom/agent/browse_lister.py:44-63 | every entry is met; a file whose type and size can be read counts with its size, a directory for what it holds, a symlink or an entry of unreadable type for nothing |
| Audit.VerifyChain | src/fathom/core/audit.py:189-206 | accepts exactly the sequences in which every record links to the one before and carries its own hash |
| Audit.AuditChain.Append | src/fathom/core/audit.py:108-140 | the emitted log grows by one record with the given content and stays a chain |
| Audit.AuditChain.Splice | src/fathom/core/audit.py:142-156 | a foreign record is appended with its content unchanged and its links recomputed |
| Audit.RowHashInjective | src/fathom/core/audit.py:53-59 | with an injective digest the row hash determines previous hash and payload, because of the separator |
| Audit.HeadsDistinct | src/fathom/core/audit.py:189-206 | no head recurs along a chain |
| Audit.PrefixesEqual | src/fathom/core/audit.py:189-206 | equal heads after the same number of records mean equal records up to there |
| Audit.LogsEqual | src/fathom/core/audit.py:189-206 | two accepted logs of equal length and last hash are equal record by record |
| Audit.SoundSchemeExists | src/fathom/core/audit.py:35-59 | the assumptions about digest and canonical form can be met |
| AuditStore.ConflictIsStale | src/fathom/core/audit_store.py:82-89 | an insert built on a head read earlier violates the unique index if rows were added since, and only then |
| AuditStore.InsertStep | src/fathom/core/audit_store.py:138-158 | an insert that succeeds adds exactly the writer's record to the chain, a rejected one nothing |
| AuditStore.TableIsOneChain | src/fathom/core/audit_store.py:120-196 | any number of writers, every interleaving: the table is one chain extending the old one, each writer's rows are exactly what it returned, in order, with actor, action, target, before-state and result each as the caller gave it (a spliced record whole), whole batches for finished writers and a proper prefix for those that raised |
| AuditStore.AppendsAreStamped | src/fathom/core/audit_store.py:138-158 | an appended record carries a time at which its writer read the head, a spliced one its own |
| AuditStore.ReadStep | src/fathom/core/audit_store.py:138-150 | a read holds the next job's content on the head that is last now, stamped with the time of this attempt |
| AuditStore.StuckIffAllReturned | src/fathom/core/audit_store.py:120-158 | a step is enabled as long as some writer has neither raised nor returned its batch, and no longer |
| AuditStore.InsertWinsIffHeadIsLast | src/fathom/core/audit_store.py:138-158 | an insert succeeds if and only if the head it was built on is still last |
| AuditStore.RaisingMeansEightLosses | src/fathom/core/audit_store.py:138-158 | a writer gives up only after at least eight rows of others were inserted during its attempts |
| AuditStore.NumberedRun | src/fathom/core/audit_store.py:120-158 | the serial numbers given out are exactly the rows', ascending, and those consumed by rejected inserts; a row's number is its position plus how many below it were consumed, so its position if and only if none was |
| Checkpoint.VerifyLatest | src/fathom/core/audit_store.py:248-276 | the verdict on the latest checkpoint, with the branches in the order of the code |
| Checkpoint.MessageInjective | src/fathom/core/audit_store.py:199-201 | the signed text determines serial number and hash |
| Checkpoint.MessageParts | src/fathom/core/audit_store.py:199-201 | that text is the number, a colon and the hash |
| Checkpoint.DecimalSpells | src/fathom/core/audit_store.py:199-201 | the number is spelled in decimal digits without a leading zero |
| Checkpoint.HonestKeysExist | src/fathom/core/audit_store.py:59-80 | for any set of anchored heads there are keys that accept what was signed for them and nothing else |
| Checkpoint.AcceptedWasAnchored | src/fathom/core/audit_store.py:248-276 | an accepted checkpoint names a head that was signed |
| Checkpoint.AcceptedIffPrefixIntact | src/fathom/core/audit_store.py:204-276 | an honest checkpoint of a gapless log is accepted for exactly the logs that still begin with that log |
| Checkpoint.AcceptedIffGapless | src/fathom/core/audit_store.py:248-276 | an honest checkpoint of a chain is accepted for every extension of it if and only if the anchored serial number is the row's position |
| Checkpoint.CheckpointOverRuns | src/fathom/core/audit_store.py:204-276 | over whole runs it is accepted at every later point if and only if no rejected insert had consumed a number below the anchored one, that is, if that number is the row's position |
| Checkpoint.BurnedNumberBreaksCheckpoint | src/fathom/core/audit_store.py:248-276 | the run of two racing writers after which the checkpoint of the intact log is rejected under any keys, though honest keys verify its signature |
| Catalogue.LookupUpsertAll | src/fathom/core/ingest.py:354-416 | whatever keys a batch repeats, a key's row afterwards is its own row taken through its own entries in order, and no other entry matters |
| Catalogue.LookupDistinct | src/fathom/core/ingest.py:354-416 | with keys that do not repeat each entry meets the row from before the batch, and leaves it inserted or guarded |
| Catalogue.MetadataStores | src/fathom/core/ingest.py:354-416 | column by column, what a metadata batch leaves for a key: a new present row, the last entry over a removed or different row with its hash kept, or the row as it was |
| Catalogue.FullBitStores | src/fathom/core/ingest.py:385-402 | what a full-content batch leaves: the last entry with its hash, the presence markers as they were |
| Catalogue.RemovedRows | src/fathom/core/incremental.py:227-259 | a removal marks the present rows it names, by device and inode or by inode alone, with the time, and changes nothing else |
| Catalogue.SilentBatch | src/fathom/core/ingest.py:247-290 | a full-content batch logs nothing and changes no presence; with the feed off nothing is logged |
| Catalogue.BatchTouchesOnlyItsVolume | src/fathom/core/ingest.py:341-416 | a batch drops and moves no row, keeps identities unique and touches no other host or volume |
| Catalogue.ChurnIffRowChanges | src/fathom/core/incremental.py:214-225 | in any metadata batch a create or modify is logged for a key if and only if the SQL guard lets some entry of it insert or overwrite its row, and always if the row changes; if and only if it changes when no key repeats |
| Catalogue.ChurnReports | src/fathom/core/incremental.py:173-225 | exactly the create and modify rows of a batch, field by field: path, kind and the difference in size to the row from before |
| Catalogue.ChurnKinds | src/fathom/core/incremental.py:214-225 | a key is logged as created if and only if it is reported and has no present row, as modified if and only if its row is present and an entry differs from it in size or time |
| Catalogue.RemovalReports | src/fathom/core/incremental.py:261-296 | exactly the delete rows, field by field: one for each named row with the stamp, minus its size |
| Catalogue.RenameSeenIffGuardFires | src/fathom/core/ingest.py:354-416 | in any metadata batch the stored path is the one a key's last entry reports if and only if that entry met no row, a row for which the guard fired, or that path already |
| Catalogue.RenameMissed | src/fathom/core/ingest.py:394-402 | an entry that reports a new path for an otherwise unchanged row leaves the row and logs nothing |
| Ledger.BatchLaw | src/fathom/core/incremental.py:173-212 | any metadata batch: create and modify deltas exceed the growth of the stored size by exactly what superseded entries add, and so balance if and only if that is zero |
| Ledger.KeyBalancesIff | src/fathom/core/incremental.py:173-212 | for one key with entries of sizes e1 to en and prior size p, the books balance if and only if the sum of ei - p over all but the last is zero |
| Ledger.BatchBalances | src/fathom/core/incremental.py:144-296 | any metadata batch under a fresh time stamp: deltas, stored and present sizes balance with the terms for resurrections and superseded entries, and delete rows number the removals |
| Ledger.RunBalances | src/fathom/core/incremental.py:144-296 | the same over any run of batches with an increasing clock, per key and in total |
| Ledger.LedgerFromBirth | src/fathom/core/incremental.py:173-296 | from an empty catalogue, a key's create and modify deltas sum to its stored size if and only if its repeated entries add nothing; all deltas sum to the present bytes up to the two correction terms |
| Ledger.StoredIsRowSize | src/fathom/core/incremental.py:173-225 | the stored size in the ledger theorems is the size of the key's row |
| Ledger.LedgerWithoutResurrection | src/fathom/core/incremental.py:173-296 | if no key is resurrected and no batch repeats one, every key's deltas sum to its stored size and all deltas to the present bytes |
| Ledger.DeletesExactIffStampFresh | src/fathom/core/incremental.py:227-296 | the delete rows number `removed` if and only if no matching row carried the time stamp already |
| Ledger.SameStampLogsTwice | src/fathom/core/incremental.py:227-296 | a removal applied twice under one clock reading removes nothing the second time and logs a delete row again |
| Ledger.DuplicateKeysMisstate | src/fathom/core/incremental.py:173-212 | two entries of one new key log the first one's size too many, whatever the sizes and the table |
| Replay.ReplayIsNoopIff | src/fathom/core/incremental.py:144-259 | replaying any metadata batch changes, logs and removes nothing if and only if none of its removals names one of its entries and, with the feed on, entries of one key agree with its last in size and time and no removed row carries the replay's time stamp |
| Replay.ReplayUpsertsNothing | src/fathom/core/ingest.py:354-416 | the upsert of a replayed metadata batch leaves the table alone, repeated keys or not, unless the batch removes an entry of its own |
| Replay.ReplayLogsAgain | src/fathom/core/incremental.py:173-212 | two entries of one key that differ in size are logged again by every replay |
| Replay.LegacyEqualsPreciseIff | src/fathom/core/incremental.py:47-68 | an inode-only removal equals the precise one if and only if no other device has a present row of that inode |
| AgentPath.ValidateNormalises | src/fathom/security/paths.py:46-57 | an absolute path without NUL is accepted and becomes its `normpath`, made of proper names; every other text is refused |
| PosixPaths.FoldLaws | src/fathom/security/paths.py:57 | `normpath` part by part: empty parts and `.` vanish, a name and a following `..` cancel, `..` at the root vanishes and at the start of a relative path stays |
| AgentPath.ValidateKeeps | src/fathom/security/paths.py:57 | a path that is already normalised comes back unchanged |
| AgentPath.CanonicalIffSingle | src/fathom/security/paths.py:57 | a normalised path is canonical if and only if it has a single leading slash |
| Ingest.VetEntries | src/fathom/core/ingest.py:106-157 | the accepted rows in order, and every other frame counted as rejected |
| Ingest.FrameAcceptedIff | src/fathom/core/ingest.py:118-130 | a frame is accepted if and only if its path is valid and normalises to the mount's root and names followed by further names; its row has that path and counts those names |
| Ingest.VettedWithinMount | src/fathom/core/ingest.py:106-157 | an accepted row is at or below the mount, with the right depth, and canonical if and only if the mount has a single leading slash |
| Ingest.RequestRemoves | src/fathom/core/ingest.py:204-210 | a request removes the device and inode pairs it sends, or if it sends none the inodes |
| Ingest.IngestService.SnapshotPrior | src/fathom/core/incremental.py:108-142 | the prior state of every key in the batch |
| Ingest.IngestService.Classified | src/fathom/core/incremental.py:173-212 | the churn loop against the prior snapshot equals classifying against the table before the batch |
| Ingest.IngestService.Ingest | src/fathom/core/ingest.py:167-246 | accepted if and only if within the limits, with a mount that is its own `normpath`, and a snapshot of this host and volume if one is named; the first check that fails names the refusal, which changes nothing; an accepted request applies exactly its batch and reports its counts |
| Like.EscapeIsPerCharacter | src/fathom/core/query.py:35-41 | the three sequential replacements equal one escape per character |
| Like.SubtreePatternUpTo | src/fathom/core/query.py:132-137 | for any comparison of characters, the subtree pattern matches exactly the strings that start with the directory and a slash up to that comparison |
| Like.SubtreePattern | src/fathom/core/query.py:132-137 | the subtree pattern matches exactly the strings that start with the directory and a slash |
| Like.ContainsPattern | src/fathom/core/query.py:222 | the search pattern matches exactly the strings in which the text occurs |
| Rollup.ComputeAncestors | src/fathom/core/rollup.py:46-57 | the ancestor loop, string operation by string operation |
| Rollup.AncestorsAreLevels | src/fathom/core/rollup.py:46-57 | on canonical paths the ancestors are the directories from the mount down to the parent, in order |
| Rollup.DepthIsLevels | src/fathom/core/rollup.py:60-62 | the depth computed from the string equals the number of levels and of ancestors |
| Rollup.CanonicalContribution | src/fathom/core/rollup.py:107-116 | an entry is counted once in each strict ancestor and nowhere else |
| Rollup.TotalIsBeneathSum | src/fathom/core/rollup.py:107-116 | each key's totals are the sums over the present entries strictly beneath it |
| Rollup.KeysAreAncestors | src/fathom/core/rollup.py:107-116 | the keys are exactly the strict ancestors, from the mount down, of present entries |
| Rollup.StreamOrderIrrelevant | src/fathom/core/rollup.py:98-116 | the order in which rows stream changes neither the keys nor the totals |
| RollupService.Accumulate | src/fathom/core/rollup.py:107-116 | the streaming accumulator holds exactly the specified keys and totals |
| RollupService.Batched | src/fathom/core/rollup.py:65-74 | batching loses, repeats and reorders nothing; all batches but the last are full |
| RollupService.ComputeRollup | src/fathom/core/rollup.py:91-163 | the rows of a correct rollup with their depths, and the root totals |
| RollupService.RollupFigures | src/fathom/core/rollup.py:76-163 | a row's logical bytes, bytes on disk, files and directories are those of the present entries strictly beneath its directory, and its depth counts its levels below the mount |
| RollupService.RollupTable.InsertBatched | src/fathom/core/rollup.py:128-132 | inserting in chunks adds the row list in order and counts it |
| RollupService.RollupTable.RecomputeFull | src/fathom/core/rollup.py:83-146 | the volume's rows are replaced by a correct rollup, other volumes' rows stay, one history point is added |
| LikePaths.BelowPattern | src/fathom/core/query.py:135 | on real paths and for any comparison, the subtree pattern matches exactly the paths whose first names compare equal to the directory |
| DrillDown.FilterSelectsChildren | src/fathom/core/query.py:132-146 | depth, pattern and presence together select exactly the immediate children and the children of directories that compare equal |
| DrillDown.FilterExactIff | src/fathom/core/query.py:132-146 | the filter selects exactly the children if and only if no directory at that level compares equal without being the same; with exact comparison none does |
| DrillDown.CaseFoldLists | src/fathom/core/query.py:132-146 | with LIKE that ignores case, listing `/foo` selects the file `/Foo/x` |
| DrillDown.ListChildren | src/fathom/core/query.py:120-188 | the selected rows, each as often as stored, by name, each with the figures of its rollup row or its own |
| DrillDown.ListedFigures | src/fathom/core/query.py:140-167 | where the volume's rows of the rollup table are its rollup, those figures are the specified totals, whatever other volumes' rows it holds |
| DrillDown.TotalsConserved | src/fathom/core/query.py:132-188 | in any vetted catalogue the sum over the selected children of own size plus total is the directory's total, mount `/` included, plus what lookalikes add, plus what entries beneath several child rows add and entries beneath none take away |
| DrillDown.ConservedIff | src/fathom/core/query.py:132-188 | in a catalogue with a live row for every parent directory, every total is conserved exactly if and only if no live row at the children's level lies in a directory that compares equal without being the same, and no directory among the children has two live rows and something live beneath it; exact comparison rules out the first, one live row per path the second |
| MissedRename.MissedRenameDoubles | src/fathom/core/ingest.py:394-412 | one batch leads from a single row to a table with two rows on one path, where the children of `/` add up to its total plus the file beneath them |
| DrillDown.ShownFiguresFallShort | src/fathom/core/query.py:147-188 | in any vetted catalogue the figures shown for the children, plus the own figures of non-empty directories, are the parent's total plus what lookalikes and doubled rows add |
| Finalize.IsStale | src/fathom/core/finalize.py:193-219 | the two aggregates test whether some snapshot started no earlier than every rollup row |
| Finalize.FinalizeService.StaleVolumes | src/fathom/core/finalize.py:184-221 | exactly the host's stale volumes, each once |
| Finalize.FinalizeService.CloseSnapshots | src/fathom/core/finalize.py:110-151 | the volume's open snapshots get the totals at the mount; without a root row none changes |
| Finalize.FinalizeService.FinalizeHost | src/fathom/core/finalize.py:71-108 | exactly the stale volumes of the host are recomputed and their open snapshots closed |
| Finalize.FinalizeRightIff | src/fathom/core/finalize.py:88-92 | a volume of the host is right afterwards if and only if it was stale or already right; closed snapshots and other hosts are untouched |
| Finalize.FinalizedSnapshots | src/fathom/core/finalize.py:110-151 | a finalize finishes every open snapshot of a stale volume with something beneath its mount, with the bytes on disk and the number of files there, and leaves every other snapshot alone |
| Finalize.EmptyRollupIff | src/fathom/core/finalize.py:126-135 | there is no root row if and only if no live entry lies below the mount |
| Finalize.RepeatSelects | src/fathom/core/finalize.py:193-221 | an immediate repeat takes up exactly the volumes with a snapshot and an empty rollup |
| Finalize.EmptyTakenAgain | src/fathom/core/finalize.py:193-221 | an empty volume with a snapshot is stale before and after every finalize, and its snapshot stays open |
| Finalize.RepeatChangesNothing | src/fathom/core/finalize.py:71-108 | an immediate repeat changes no rollup row and no snapshot |
| Finalize.RollupsRightAfterFinalize | src/fathom/core/finalize.py:71-108 | over any run whose batches go into snapshots no older than the rollup, every finalize leaves the host's volumes with the rollup of their present entries |
| Finalize.LateBatchSkipped | src/fathom/core/ingest.py:330-339 | a batch into an older snapshot that makes the rollup wrong stays unseen by the next finalize |
| Finalize.LateBatchRun | src/fathom/core/ingest.py:330-339 | a run of four steps that ends with such a batch unseen |
| Grouping.GroupBy | src/fathom/core/dedup.py:80-84 | the dictionary of lists holds each key once, in order of first occurrence, with its items in order |
| Funnel.KeeperIsShallowest | src/fathom/core/dedup.py:57-59 | the suggestion is a member with fewest slashes, first among those, whatever the order of distinct paths |
| Funnel.FindDuplicates | src/fathom/core/dedup.py:62-114 | the reported groups, keepers and byte counts, and the calls of the full hash |
| Funnel.ConsideredExactly | src/fathom/core/dedup.py:80-84 | zero-byte files are skipped if asked, and every other candidate is considered as often as it is listed |
| Funnel.FunnelClasses | src/fathom/core/dedup.py:86-113 | whatever the hashes do, the groups are the classes of two or more of equal size, partial hash and full hash, each once |
| Funnel.ConfirmedByFullHash | src/fathom/core/dedup.py:97-113 | every member of a reported group has the group's size and full hash: size or partial hash alone never groups |
| Funnel.GroupsDescribe | src/fathom/core/dedup.py:97-114 | a group's size and full hash are those of each member, its ids are theirs in order, its reclaimable bytes all but one copy, its suggestion the keeper rule's |
| Funnel.OpenedOnlyOnCollision | src/fathom/core/dedup.py:94-99 | a candidate is fully hashed exactly as often as it is listed if it shares size and partial hash, and never otherwise |
| Funnel.FunnelIsNaiveIff | src/fathom/core/dedup.py:62-114 | the groups are the (size, full hash) classes if and only if equal content implies equal partial hash |
| Funnel.SplitByPartial | src/fathom/core/dedup.py:86-113 | two files of equal size and full hash whose partial hashes differ are a naive class that the funnel does not report |
| Funnel.ReclaimableIsAllButOne | src/fathom/core/dedup.py:105-112 | reclaimable bytes are the members' bytes less one copy of each group |
| ProviderRuns.IterDuplicates | src/fathom/core/provider_dedup.py:114-130 | on sorted rows the one-run detector yields the partition by key |
| ProviderRuns.RunsArePartition | src/fathom/core/provider_dedup.py:64-130 | exactly the key classes of at least `min_members` rows, once each, in key order |
| ProviderRuns.CodePointOrderIsTotal | src/fathom/core/provider_dedup.py:102-106 | a total order of keys, as sorting needs, exists |
| ProviderRuns.FindDuplicates | src/fathom/core/provider_dedup.py:133-155 | with a limit the list is the prefix of that output; the limit is kept if and only if it is positive, or zero with nothing to return |
| DedupBuild.PrefixIsSubtree | src/fathom/core/dedup_service.py:358-363 | the path-prefix filter keeps the directory and what is beneath a directory comparing equal to it; with exact comparison that is the subtree |
| DedupBuild.LoadedRows | src/fathom/core/dedup_service.py:330-364 | exactly the hashed, present files within the scope's volumes and prefix are grouped, each as often as listed |
| DedupBuild.RankKeeper | src/fathom/core/dedup_service.py:128-158 | the ranking branch by branch, with its reason |
| DedupBuild.KeeperIsBest | src/fathom/core/dedup_service.py:128-158 | the keeper is native if any copy is; no eligible copy has a time before the earlier of its two; of equally old ones none is preferred by volume or prefix unless it is, and none as preferred has fewer slashes, or as many and a shorter path, or as long a path that is first by code points |
| DedupBuild.ReasonMeans | src/fathom/core/dedup_service.py:143-158 | the reason names what decided: age if one copy is eldest, else the preference, with the path if several are preferred, else the path |
| DedupBuild.KeeperOfAnyOrder | src/fathom/core/dedup_service.py:154 | the keeper is independent of member order if and only if one element of the pool is best by slashes, length and path, as it is with distinct paths |
| DedupBuild.TiedByOrder | src/fathom/core/dedup_service.py:154 | of two copies on one path, equally old and preferred, the one that loads first is kept |
| DedupBuild.GroupsPartition | src/fathom/core/dedup_service.py:243-255 | the groups are the (size, full hash) classes of two or more, every row as often as it is listed |
| DedupBuild.ReclaimableIsNative | src/fathom/core/dedup_service.py:256-282 | reclaimable bytes are those of the native copies less one, nothing without a native copy; members are flagged as aliases exactly on network mounts |
| DedupBuild.GroupsSuggestBest | src/fathom/core/dedup_service.py:262-272 | every built group suggests the best of its own members |
| DedupBuild.DedupService.BuildIter | src/fathom/core/dedup_service.py:224-300 | the yielded groups and the table's new contents |
| DedupBuild.DedupService.FlushAll | src/fathom/core/dedup_service.py:251-296 | batching writes and yields every group once, in order |
| DedupBuild.DedupService.Rebuild | src/fathom/core/dedup_service.py:204-222 | the count equals the number of groups that a build yields |
| DedupBuild.RebuildIdempotent | src/fathom/core/dedup_service.py:317-328 | rebuilding twice is rebuilding once, and other scopes' groups stay |
| Pages.ListGroups | src/fathom/core/query.py:337-368 | one request returns the next rows after the cursor and says whether more follow |
| Pages.PageSplits | src/fathom/core/query.py:351-368 | a page holds, in id order and at most `limit` of them, groups that are visible, have a member on the volume asked for and come after the cursor; every other such group comes after its last |
| Pages.NothingRepeats | src/fathom/core/query.py:345-353 | across the pages of a walk ids ascend and never repeat, however the table changes meanwhile |
| Pages.NothingSkipped | src/fathom/core/query.py:345-368 | a group that is listable at every request of a complete walk appears in some page |
| Browse.BrowsePullQueue.Enqueue | src/fathom/core/browse.py:257-264 | the state after enqueueing, or the refusal of an id in flight |
| Browse.BrowsePullQueue.Expire | src/fathom/core/browse.py:265-268 | a timeout cancels a pending future and leaves a settled one |
| Browse.BrowsePullQueue.Complete | src/fathom/core/browse.py:265-271 | the returned outcome, and both map entries removed |
| Browse.BrowsePullQueue.Poll | src/fathom/core/browse.py:284-297 | the head of the host's queue is claimed, or failed when expired |
| Browse.BrowsePullQueue.Post | src/fathom/core/browse.py:299-309 | a delivery resolves the matching future or is refused, by the code's order of tests |
| Browse.CallsSettleOnce | src/fathom/core/browse.py:249-309 | every interleaving: a request is claimed at most once, by its host, unexpired; at most one delivery is accepted, from that host; a call returns at most once, and only what was delivered |
| Browse.RoundTrip | src/fathom/core/browse.py:249-309 | a request behind any number of others, with one poll for each and one more in time, is claimed; its answer is accepted and returned if and only if no expired item ahead had the same request id |
| Browse.TwinFails | src/fathom/core/browse.py:284-297 | a run in which the expired item of a timed-out call fails the live call that uses its id again |
| Browse.PollTakesOldest | src/fathom/core/browse.py:276-297 | a poll takes the oldest item of its host's queue and no other |
| Browse.MapsHoldOpenCalls | src/fathom/core/browse.py:257-271 | both maps have the same keys, the ids of the calls that have not returned |
| Browse.AcceptedIff | src/fathom/core/browse.py:299-309 | a delivery is accepted if and only if an unanswered call under its id awaits that host |
| Browse.RefusedIff | src/fathom/core/browse.py:299-309 | a refusal says whether no call is open under the id, one is for another host, or it is for this host but no longer waits |
| Browse.CompletedReturns | src/fathom/core/browse.py:265-271 | a call returns what was delivered for it, or nothing if nothing was or the timer fired before it went on |
| Browse.ExpiryFailsItsOwn | src/fathom/core/browse.py:292-296 | with distinct request ids an expired queue item fails only its own call |
| Browse.VerifyBrowseRequest | src/fathom/core/browse.py:312-345 | the verdict and the nonces used afterwards |
| Browse.VerdictIff | src/fathom/core/browse.py:312-345 | which verdict a presentation gets, test by test |
| Browse.AcceptedIffFirstGenuine | src/fathom/core/browse.py:322-345 | over any sequence of presentations one is accepted if and only if it is genuine and the first genuine one with its nonce |
| Lease.Coordinator.ExpireStale | src/fathom/core/scan_coordinator.py:65-71 | exactly the active leases whose time has come expire |
| Lease.Coordinator.ReleaseLease | src/fathom/core/scan_coordinator.py:74-86 | exactly the host's active leases are released, and their number is returned |
| Lease.AtMostOneActive | src/fathom/core/scan_coordinator.py:101-102 | with one active lease per host that number is at most one |
| Lease.Coordinator.RequestLease | src/fathom/core/scan_coordinator.py:89-152 | the table and the decision after a request |
| Lease.GrantedIff | src/fathom/core/scan_coordinator.py:104-152 | granted if and only if light or fewer than the maximum of other hosts hold an unexpired heavy lease; a deferral means the maximum of different hosts do |
| Lease.OutcomeForRequester | src/fathom/core/scan_coordinator.py:100-166 | after a grant the host has one active lease, good for exactly the TTL; after a deferral it has none, not even its earlier one; other hosts' leases change only by expiring |
| Lease.TableAfterRequest | src/fathom/core/scan_coordinator.py:65-166 | row by row what a request leaves: stale leases expired, the host's own released, the others alone, and the granted lease or the advisory with its retry time and blocking host |
| Lease.RenewalGranted | src/fathom/core/scan_coordinator.py:96-102 | a host that holds a heavy lease always gets a new one |
| Lease.RunKeepsLimits | src/fathom/core/scan_coordinator.py:65-166 | over any run at most one active lease per host and never more heavy ones than the maximum |
| Lease.RetryGranted | src/fathom/core/scan_coordinator.py:65-122 | if nothing is granted meanwhile, a request one TTL later is granted |
| LeaseRace.AloneIsRequest | src/fathom/core/scan_coordinator.py:89-152 | a request that nobody interrupts, statement by statement, leaves the table that the one-transaction model gives |
| LeaseRace.CountedStep | src/fathom/core/scan_coordinator.py:104-118 | under every interleaving only heavy scans have counted |
| LeaseRace.InsertAdds | src/fathom/core/scan_coordinator.py:104-152 | what each request inserts: a light scan a light lease once it has cleared; a heavy one, only once it has counted, a heavy lease if it saw fewer holders than the maximum and else the advisory |
| LeaseRace.CountLawStep | src/fathom/core/scan_coordinator.py:109-122 | under every interleaving a count differs from the current number of active heavy leases by what was inserted and what has gone since |
| LeaseRace.LimitKeptIff | src/fathom/core/scan_coordinator.py:109-123 | for every interleaving the limit holds throughout if and only if no insert acts on a count that has been overtaken by what it left free |
| LeaseRace.ExcessBounded | src/fathom/core/scan_coordinator.py:109-123 | with at most k requests between count and grant there are never more than maximum - 1 + k active heavy leases |
| LeaseRace.ExcessAttained | src/fathom/core/scan_coordinator.py:109-123 | for every maximum and k there is a run that reaches that number |
| LeaseRace.ClearLawStep | src/fathom/core/scan_coordinator.py:100-102 | under every interleaving no lease that was in the table when a request cleared is an active one of its host until it inserts |
| LeaseRace.HostsKeptIff | src/fathom/core/scan_coordinator.py:101-107 | for every interleaving each host has one active lease at most throughout if and only if no lease is inserted for a host that was given another, still active, since the inserting request cleared |
| LeaseRace.TurnsKeepHosts | src/fathom/core/scan_coordinator.py:101-107 | that holds whenever no host overlaps with itself |
| LeaseRace.OverlapDoubles | src/fathom/core/scan_coordinator.py:101-107 | two overlapping requests of one host leave it with two active leases |
| Downsample.Sample | src/fathom/core/query_charts.py:250-270 | unchanged when it fits, the last point without a span, otherwise the last point of every occupied slot in slot order |
| Downsample.SampleIsFaithful | src/fathom/core/query_charts.py:250-270 | at most `buckets` points, in input order, ending with the last; every input point has a kept one at or after it within span/buckets |

## Left out

- Database sessions, savepoints, dialects and isolation: a statement is one atomic step and takes effect at once. `Lease`
  treats a request as one transaction although the code takes no lock; `LeaseRace` splits it into expiring stale leases,
  releasing the host's own, counting and inserting. An outer transaction that rolls everything back is not modelled.
- PostgreSQL refusing two rows of one key in a single upsert statement: such batches are applied row by row, as SQLite
  does.
- Walking with `follow_symlinks=True`, and a consumer or worker that is cancelled part-way.
- Wrapping device and inode numbers to signed 64 bits: identities are unbounded integers.
- Like.SubtreePattern: is for exact comparison, as PostgreSQL's; SQLite's LIKE ignores the case of ASCII letters, for
  which `SubtreePatternUpTo` holds. Which characters compare equal is a parameter.
- Full-content batches in the ledger theorems: they write sizes without logging by design.
- Ingest.IngestService.Ingest: a Windows-shaped mountpoint counts as unsafe here; the program vets it with rules of its
  own. Windows path shapes are not modelled.
- Rollup.TotalIsBeneathSum: is for canonical paths; mounts with two leading slashes are vetted but not rolled up here.
- WalkMeaning.PruneIsFilter: is for a root with a single leading slash.
- DedupBuild.RankKeeper: which filesystem types are network mounts, and the case folding of that test, are a parameter.
- DedupBuild.DedupService.BuildIter: the keeper rule is a total function; a rule that raises is not modelled.
- The JSON form of a scope: scopes are compared as values.
- Canonical encodings, hashing, signing, clocks and file reads: parameters of the model.
- Funnel.FindDuplicates: both hashes of a file can be read and do not change during a run; a hash call or a keeper
  rule that raises is not modelled.
- Downsample.Sample: times are real numbers, so the rounding of floating-point division is not modelled.
- Lease.Coordinator.RequestLease: the run record behind "heavy" is an argument, and the human-readable reason is left out.
- Pages.ListGroups: the limit is at least one, as the route demands (src/fathom/api/routers/duplicates.py:46).
- Request scopes of the access-control layer, except as the set of groups a caller may see in `Pages`.
- Pruning the change log by age, the dedup trigger inside finalize, search and history queries, the HTTP routes, agents,
  staging, remediation, settings policies and notifications: wiring, or single case splits.
- The nonce store's persistence: it is a set with insert-or-fail.
- The definitions of tables other than the columns named here are not part of this model.
