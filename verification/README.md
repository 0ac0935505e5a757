# Verified model of the stateful cores of GeoStudio

The platform keeps a handful of small algorithms whose correctness depends on ordering, on state
carried from one run to the next, or on two forms of the same computation agreeing. This project
models them in Dafny and proves what their comments and tests promise, over every input and every
run. Each module follows one component of the repository.

| file | component |
|---|---|
| `LakeRows`, `LakeSnapshots`, `LakeRuns` | the CDC lake: windows, snapshot choice and writing, whole runs |
| `ResultCache`, `ResultCacheRuns` | the cache of aggregate results, whose key never names a snapshot, and its runs beside the lake |
| `AuditChain`, `AuditLog` (with `AuditGuard`), `AuditStore` | the audit hash chain: rows, guard, sealing, verifying |
| `AuditArchives`, `AuditRetention`, `AuditRuns` | archives by key, retention passes and their transaction, whole runs |
| `AlertEpisodes`, `AlertJobs` | alert evaluations: histories, and the code that produces them |
| `BackupRetention` | backup rotation |
| `AppExportJobs`, `AppExportProtocol` | app export jobs: status updates, and every interleaving around them |
| `FilterValues` | the escaped list codec of `__in` filters |
| `TileCache`, `Precache` | the byte-bounded tile cache and the service worker's precache list |
| `Seqs`, `Wrappers` | filters, sorts, finite sets and the optional value shared by the others |

**How the model is built.** SQL selections are relations (`IsWindow`, `IsChain`, `IsPending`) that
allow every answer an engine may give. Code that updates state is a class or a method proved
against such a relation or a function; the theorems are lemmas about those. Concurrency is a state
machine whose steps are the atomic sections of the code, built from the same update functions that
specify the methods or from their contracts (`AppExportProtocol` on `AppExportJobs`, `LakeRuns` on
`LakeSnapshots`, `ResultCacheRuns` on both and on `ResultCache`, `AuditRuns` on `AuditStore` and
`AuditRetention`).
Numbers, orders and tests that code and specification share are also stated on the columns, with
their literal values (`LakeRows.WindowHolds`, `AuditGuard.GuardIs`, `BackupRetention.KeptHolds`).
Times are integers, except the flush time `_ts`, which is a real; digests are an injective
constructor; clocks, networks and users appear as parameters.

**What the proofs rest on.** These hypotheses appear in the statements, none is hidden:

- Lake: no row with `_ts` at or below the cut of a current or in-flight snapshot arrives later
  (the grace margin); a rebuild marker lies strictly above every LSN seen; per key the version
  (`_lsn`, `_seq` or -1) identifies the row, for results that speak of one answer. The equality
  of `latest_per_key` and the window needs no such order: it holds with ties.
- Result cache: a raw file never changes under its name. Transparency is stated for entries of
  requests during which nothing was written to the lake, linearizability for lists that do not
  come back.
- Audit: row ids are distinct, rows only change through the operations modelled, and, for whole
  runs, no tenant is sealed again after its last sealed row was archived.
- Alerts: evaluations finish in creation order, the listing of 100 rows holds every terminal row
  or more than five of them, and for deliveries the channels are distinct, unchanged within the
  episode and the notification pipeline does not break down. An evaluation and its sends are one
  step: a worker that dies in between leaves a pending row whose sends nobody remembers.
- Backups: week numbers follow dates, which is proved of ISO 8601 weeks (section 4.1.4).

**What the proofs found.**

- Rows that break the grace margin are ignored by every reader of the snapshot; the view stays right
  exactly when each of them is no news for its key (`LateRows`).
- A purge deletes page by page. In every state of every run, reading through a snapshot is right
  exactly when it holds nothing stale and misses nothing, two conditions on what is stored
  (`ReadIsRightIff`). Only in a half emptied lake they may fail (`RunServesNewest`,
  `HalfPurgedServesStale`); a snapshot from before the purge misses nothing (`HalfPurgedIff`), and
  never shows anything older than a surviving row (`HalfPurgedServesNoOlder`). Once placed, the marker
  hides a late fold exactly when it lies strictly above its rows (`MarkerHidesStaleFold`).
- Deleting a collection empties its lake without a marker. That keeps readers right exactly when no
  cycle is in flight (`DeleteCollectionKeepsIff`, `DeletedCollectionComesBack`).
- An entry of the result cache may hold an answer computed after its key was taken. It is right
  whenever its list holds exactly when the writes in between changed no live row
  (`RightWheneverListedIff`). The empty list comes back with a purge, and such an entry is then
  served although it is wrong (`PurgeServesStale`); on a list that does not come back it is still
  the answer of a moment within the request (`HitIsOfTheRequest`).
- Retention empties a chain exactly when its newest row is stale and one pass is enough
  (`PassEmptiesIff`). Sealing then restarts at 1, breaks the link to the archives
  (`SealContinuesHistoryIff`), and the next archive may take the key of the first and replace it
  (`RestartLosesAnArchive`). A pass conserves a tenant's history exactly when its front is not put
  over other rows of an archive (`PassConservesIff`), which never happens in a run that seals no
  emptied tenant again (`RunIsOneChain`, `SealedForEver`); a step that does breaks the chain
  (`StaysOneChainIff`).
- When an upload fails, the pass is rolled back but the objects stored before stay. Every row is
  then still in the table, and each such object holds the front that sealing gives again
  (`AuditRetention.Retention.RetentionTask`). Such an object may overlap the archive of a later,
  longer front: it is the ranges of archives whose rows were deleted that never meet.
- `verify` says nothing of hashed rows without a number that follow a good chain. With no numbered
  row it raises exactly when there are at least two and the first carries its own digest, and otherwise says
  "ok", even on a wrong digest (`AuditStore.Store.Verify`, `AuditStore.Walk`).
- The alert retry budget is counted across episodes: failures that immediately precede an episode
  use it up (`AttemptsExactly`, `SharedBudget`).
- No channel is sent to twice in an episode exactly when the rule lists each channel once
  (`OncePerChannelIff`); the configuration does not ask for it.
- A manual trigger between the listing of a sweep and its turn for a rule leaves two young pending
  evaluations, unless the row of the trigger is evaluated by then (`TriggerDuringSweep`,
  `SweepTurnIff`).
- A failure announced by an export delivery that lost its claim is true exactly when the job was
  not done by then, and it may be (`UnclaimedFailureMayMislead`).
- An empty list folded into a filter reads back as one empty string; every other list is kept
  (`SplitAfterJoinIff`).
- The facade pass gives the same precache list in every order of its visits exactly when no visited
  facade outside the list of the roots and first facades reexports something of that list
  (`AnyOrderIff`); with one, the order decides (`OnePassDependsOnOrder`).

## Model

| member | source | states |
|---|---|---|
| LakeRows.Window | core/app/analytics/snapshot.py:165-171 | a full window over any set of rows has one row per key, none beaten by another of its key, and misses no key |
| LakeRows.WindowHolds | core/app/analytics/aggregate.py:610 | on the columns: in a window each key of the rows is there once, with the highest `_lsn` of its rows and, at an equal one, the highest `_seq`, a missing one counting as -1 |
| LakeRows.LatestPerKey | core/app/analytics/snapshot.py:102-115 | the anti join and the window over touched keys make up an answer of `latest_per_key`, counted with multiplicity |
| LakeRows.LatestPerKeyIsWindow | core/app/analytics/snapshot.py:102-115 | if and only if: over a base with one row per key, the fast form has exactly the answers of one window over base and delta, ties allowed |
| LakeRows.WindowPermuted | core/app/analytics/snapshot.py:109-115 | being a window does not depend on the order of the answer |
| LakeRows.SplitWindow | core/app/analytics/snapshot.py:102-115 | every window over everything splits into untouched base rows and a window over touched keys |
| LakeRows.UntouchedPlusTouched | core/app/analytics/snapshot.py:102-115 | untouched base rows followed by a window over touched keys are a window over everything |
| LakeRows.WindowOfWindow | core/app/analytics/snapshot.py:4-11 | folding earlier rows first and the result with later ones gives an answer of folding all at once; both have the same answers when versions identify rows |
| LakeRows.WindowUnique | core/app/analytics/aggregate.py:592-604 | when versions identify rows, all answers and all live views are the same bag |
| LakeRows.LiveMeansNewestNotDeleted | core/app/analytics/aggregate.py:630-646 | a row is served if and only if it is the newest of its key and not a deletion |
| LakeRows.LiveHolds | core/app/analytics/aggregate.py:610-646 | on the columns: when versions identify rows, a row is served, and once, if and only if it is a raw row, not a deletion, and no row of its key has a higher `_lsn`, or the same and a higher `_seq` |
| LakeRows.WindowExists | core/app/analytics/aggregate.py:641-646 | the relation is never empty: every finite set of rows has a window |
| LakeSnapshots.LakeStorage.ListSnapshots | core/app/analytics/snapshot.py:56-69 | lists exactly the well-named snapshots that no rebuild marker is above, each once, newest cut first, whatever order the store answers in |
| LakeSnapshots.UsableIff | core/app/analytics/snapshot.py:56-78 | a snapshot is usable if and only if both numbers of its name are well-formed, no marker has a greater number than its LSN, and its file is complete and its footer readable |
| LakeSnapshots.LakeStorage.LatestSnapshot | core/app/analytics/snapshot.py:81-93 | answers the readable listed snapshot of greatest cut, or none exactly when there is none or the listing fails |
| LakeSnapshots.LakeStorage.MaxLsn | core/app/analytics/snapshot.py:151-157 | the maximum LSN of the delta, none if and only if it is empty |
| LakeSnapshots.LakeStorage.ReadableSnapshots | core/app/analytics/snapshot.py:132-138 | removes exactly the unreadable listed snapshots that can be removed, finds every usable one and puts the latest first |
| LakeSnapshots.LakeStorage.ComputeFold | core/app/analytics/snapshot.py:139-172 | computes a legal cycle: nothing when there is nothing new, else previous snapshot plus delta with the right name |
| LakeSnapshots.NothingIsLeft | core/app/analytics/snapshot.py:139-164 | a cycle that writes nothing leaves nothing behind: every raw row flushed at or before its cut is at or before the cut of a usable snapshot |
| LakeSnapshots.LakeStorage.Store | core/app/analytics/snapshot.py:172-186 | after a copy that works the whole fold is readable under its name; after any other nothing is readable that was not before; no other name changes |
| LakeSnapshots.LakeStorage.WriteSnapshot | core/app/analytics/snapshot.py:118-186 | the whole cycle: cleaned storage, a legal fold with the cut moved back by the grace, then its publication |
| LakeSnapshots.LakeStorage.ReadCurrent | core/app/analytics/aggregate.py:606-659 | nothing without a raw file, as every caller of the reader checks first; else the latest usable snapshot plus the rows above its cut; only without one, or when the listing fails, the window over all raw rows |
| LakeSnapshots.DroppingKeepsUsable | core/app/analytics/snapshot.py:132-138 | removing unreadable snapshots changes neither markers nor what can be read |
| LakeSnapshots.SameCycle | core/app/analytics/snapshot.py:131-172 | a cycle computed after the clean-up is a cycle on the storage before it |
| LakeRuns.FoldIsFaithful | core/app/analytics/snapshot.py:139-172 | one incremental step is exact: on a faithful base, the fold holds the newest version of every key up to its cut and the greatest LSN folded in |
| LakeRuns.AppendKeeps | core/app/analytics/snapshot.py:13-16 | files that respect the grace margin, late backfills with low LSNs included, leave every current snapshot exact |
| LakeRuns.StartCycleKeeps | core/app/analytics/snapshot.py:131-172 | starting a cycle, from a base or from scratch, keeps the invariant, for the fold in flight too |
| LakeRuns.StartPurgeKeeps | core/app/cdc/main.py:123-149 | starting a purge, or starting it again after a crash, keeps the invariant, with a cycle in flight too |
| LakeRuns.PurgePageKeeps | core/app/analytics/lake_purge.py:19-37 | so does each page of it, whichever files, snapshots and older markers it deletes |
| LakeRuns.NextKeeps | core/app/analytics/snapshot.py:4-19 | every step (append, compaction, cycle start and end, start and pages of a purge, marker, deletion of the collection without a cycle in flight, deletion or damage of snapshots) keeps the invariant |
| LakeRuns.RunKeepsInv | core/app/analytics/snapshot.py:4-19 | so does every run, by induction over any number of steps |
| LakeRuns.RunIsSound | core/app/analytics/snapshot.py:4-19 | in every run, outside a purge, each listed snapshot holds exactly the newest versions up to its cut, tombstones kept, one row per key, and its LSN is their maximum |
| LakeRuns.SnapshotHolds | core/app/analytics/snapshot.py:4-19 | on the columns, in every run outside a purge: a listed snapshot holds only raw rows flushed at or before its cut in milliseconds, each key of these once, with the highest `_lsn`, and its own number is not below any |
| LakeRuns.ReaderSeesNewest | core/app/analytics/aggregate.py:606-646 | any listed snapshot plus its delta, not only the latest, is a window over all raw rows |
| LakeRuns.RunServesNewest | core/app/analytics/aggregate.py:606-659 | in every state of every run, purges included, a reader is served a window over all raw rows through any listed snapshot; in a half emptied lake, when it reads the files |
| LakeRuns.ReaderGetsHighest | core/app/analytics/aggregate.py:606-659 | on the columns, in the same states: a reader is served each key of the raw files once, with the highest `_lsn` and, at an equal one, the highest `_seq`, and nothing that is in no raw file |
| LakeRuns.EveryFallbackServesTheSame | core/app/analytics/aggregate.py:606-646 | in every state of every run but a half emptied lake, an older snapshot or raw reading serves the same bag: the newest version of each key that is not deleted |
| LakeRuns.DeletedStaysDeleted | core/app/analytics/snapshot.py:6-8 | in the same states a key whose newest version is a deletion is never served from an older version |
| LakeRuns.WriteSnapshotIsACycle | core/app/analytics/snapshot.py:118-186 | what the writer's method promises is a step of the run, or two |
| LakeRuns.LateRows | core/app/analytics/snapshot.py:13-16 | without the margin: the view is right if and only if each late row is beaten or matched by a raw row of its key |
| LakeRuns.ReadIsRightIff | core/app/analytics/aggregate.py:623-640 | in every state of every run, half emptied or not, reading through a complete snapshot is right if and only if each of its rows is in a raw file or beaten by a raw row above the cut, and no raw row up to the cut is newer than what is read of its key |
| LakeRuns.HalfPurgedIff | core/app/analytics/lake_purge.py:19-37 | with fewer raw files than before the purge, reading through a snapshot from before it is right if and only if every row of the snapshot is still in a raw file or beaten by a raw row of its key above the cut |
| LakeRuns.HalfPurgedServesNoOlder | core/app/analytics/lake_purge.py:19-37 | through such a snapshot nothing older than a row still in a raw file is served for its key, and a deleted key stays deleted while its tombstone is there |
| LakeRuns.HalfPurgedServesStale | core/app/analytics/lake_purge.py:19-37 | a run of seven states, for any two rows on either side of a cut: one file is deleted, the other is not, and a reader of the latest snapshot is served the deleted one |
| LakeRuns.MarkerHidesStaleFold | core/app/analytics/snapshot.py:48-53 | a fold published after a purge is listed if and only if its LSN is not below the marker |
| LakeRuns.DeleteCollectionKeepsIff | core/app/collections/routes.py:1108-1117 | emptying the lake without a marker keeps the invariant if and only if no cycle is in flight |
| LakeRuns.DeletedCollectionComesBack | core/app/collections/routes.py:1108-1117 | with one, six states, for any two rows on either side of a cut: the fold is published into the collection registered again, and a deleted row is served |
| ResultCache.Cache.Lookup | core/app/analytics/aggregate.py:772-777 | a hit is an entry of this key, stored with an answer computed no earlier than its listing, and becomes the most recent entry |
| ResultCache.HitMovesBack | core/app/analytics/aggregate.py:772-777 | the entry of the key, if there is one, is served and moves behind all others, which keep their order |
| ResultCache.Cache.Keep | core/app/analytics/aggregate.py:788-793 | an answer of at most 2000 rows replaces the entry of its key or comes last, never more than 128 entries, the oldest leaving |
| ResultCache.Put | core/app/analytics/aggregate.py:790-793 | the assignment and the eviction loop replace the entry of the key, or append and drop the oldest beyond 128 |
| ResultCache.Cache.Compute | core/app/analytics/aggregate.py:778-787 | through any snapshot, the engine's answer on the newest versions of all raw rows |
| ResultCache.Cache.Finish | core/app/analytics/aggregate.py:788-799 | failures are not remembered, short answers are the most recent entry |
| ResultCache.Cache.RunAggregate | core/app/analytics/aggregate.py:750-799 | transparency: over entries of requests during which nothing was written, hit or miss, what is served is a fresh computation on the current raw rows, whatever became of files and snapshots, purges included; a hit needs no slot |
| ResultCache.HitIsOfTheRequest | core/app/analytics/aggregate.py:662-668 | linearizability of hits on a list that never returned: the moment of the answer lies within the request served, whoever wrote to the lake meanwhile |
| ResultCache.SettledIsRight | core/app/analytics/aggregate.py:662-668 | an entry computed while its list held is right at every moment with that list, from immutable files alone |
| ResultCache.RightWheneverListedIff | core/app/analytics/aggregate.py:764-793 | an entry listed at one moment and computed at another is right whenever its list holds, whatever was asked, if and only if the writes in between changed no live row |
| ResultCache.PurgeServesStale | core/app/analytics/aggregate.py:662-668 | a run of the lake, a request and an entry: listed before the first file, computed after it, served again after a purge, and wrong |
| ResultCache.AnswerIsUnique | core/app/analytics/aggregate.py:662-668 | answers computed through different snapshots of the same files are equal |
| ResultCache.AnswerHolds | core/app/analytics/aggregate.py:606-659 | on the columns: an answer is what the engine gives on the bag that holds once each raw row that is no deletion and has the highest `_lsn` of its key and, at an equal one, the highest `_seq` |
| ResultCache.OneAnswer | core/app/analytics/aggregate.py:662-668 | the answer on one view is the answer on every view of the same rows |
| ResultCache.PastGrows | core/app/analytics/aggregate.py:662-668 | later writes leave entries as good as they were |
| ResultCacheRuns.CacheIsTransparent | core/app/analytics/aggregate.py:662-668 | in every run of lake steps, purges included, and requests in between, every response, from the cache or not, is that of a fresh computation on the raw rows of that moment; the cache holds at most 128 entries, none of more than 2000 rows |
| ResultCacheRuns.RequestKeeps | core/app/analytics/aggregate.py:764-799 | one request: right, and every entry right whenever its list holds |
| ResultCacheRuns.LakeStepKeeps | core/app/analytics/aggregate.py:662-668 | no step of the lake makes an entry wrong |
| ResultCache.MovedOk | core/app/analytics/aggregate.py:772-775 | moving an entry to the end keeps all entries and their keys distinct |
| AuditChain.Extend | core/app/audit/chain.py:71-82 | sealing numbers rows contiguously behind the head and leaves id, covered columns and payload alone |
| AuditChain.ExtendTwice | core/app/audit/chain.py:59-91 | batches do not matter: sealing in two steps gives the numbers and hashes of one |
| AuditChain.ExtendKeepsChain | core/app/audit/chain.py:59-84 | sealing any rows behind a well-formed chain gives a well-formed chain |
| AuditChain.SealedHolds | core/app/audit/chain.py:43-82 | on the columns: behind a well-formed chain each row gets the next number, from 1 on an empty one, the hash of the row before as its link, the empty string for the first, and the digest of number, link and covered columns |
| AuditChain.ChainHolds | core/app/audit/chain.py:104-136 | a chain is well-formed if and only if each row has a number and the digest of number, link and covered columns, the link an empty string when missing, and follows the row before in number and hash |
| AuditChain.ChainSeqs | core/app/audit/chain.py:77-82 | the numbers of a chain are contiguous from its first row |
| AuditChain.SuffixIsChain | core/app/audit/chain.py:104-107 | any front or tail of a chain is a chain |
| AuditChain.SameHeadSameHistory | core/app/audit/chain.py:43-56 | two verifying histories with one head hash agree on number and covered columns: the shorter is a suffix of the longer |
| AuditChain.SameHeadStep | core/app/audit/chain.py:43-56 | walking back from equal heads the hashes stay equal, row by row |
| AuditChain.CompleteHistoriesAreEqual | core/app/audit/chain.py:71-82 | with no link before the first row of either, they are the same history |
| AuditChain.ForgedRowIsFirstBreak | core/app/audit/chain.py:116-122 | a row that keeps a genuine stored hash but differs in number, link or a covered column, edited or moved, is the first break |
| AuditChain.TamperingIff | core/app/audit/chain.py:104-123 | rows that keep stored hashes of a chain, however edited, deleted or moved, verify if and only if they record a contiguous part of it, and then attest the same facts |
| AuditChain.DisplacedRowIsFirstBreak | core/app/audit/chain.py:116-122 | a genuine row out of its place, behind a genuine start, is the first break |
| AuditChain.DeletionIff | core/app/audit/chain.py:104-122 | cutting rows out leaves a chain if and only if it takes a front or a tail; else the first row after the gap breaks |
| AuditChain.PayloadIsNotCovered | core/app/audit/chain.py:43-56 | erasing payloads leaves chain, attested facts and head as they were |
| AuditChain.SealContinuesHistoryIff | core/app/audit/chain.py:65-71 | archives and newly sealed rows are one chain if and only if a sealed row was left, or nothing was archived |
| AuditChain.RestartBreaksTheLink | core/app/audit/chain.py:71 | a chain restarted at "" never continues a non-empty archive |
| AuditGuard.AppendOnly | core/alembic/versions/0120_audit_log_append_only_chain.py:25-40 | whatever statements are tried, with or without maintenance, a row that no maintenance statement names is still there with its id, covered columns and payload, and unchanged once it has a hash |
| AuditGuard.GuardIs | core/alembic/versions/0120_audit_log_append_only_chain.py:25-40 | the trigger lets a row through if and only if the session is in maintenance, or it is an update that gives a hash to a row without one and keeps id, covered columns and payload; and then which of the two rows |
| AuditGuard.UpdateHolds | core/alembic/versions/0120_audit_log_append_only_chain.py:25-40 | exactly which updates take effect, in and out of maintenance, and that no other row changes |
| AuditGuard.InsertAndDeleteHold | core/alembic/versions/0120_audit_log_append_only_chain.py:25-40 | a deletion takes effect in maintenance alone, an insertion exactly under a free id, and no other row changes |
| AuditGuard.StatementsKeepKeys | core/alembic/versions/0120_audit_log_append_only_chain.py:25-40 | no statement lets a row take another's id |
| AuditLog.SealOne | core/app/audit/chain.py:78-82 | sealing the oldest pending row appends it to its tenant's chain, takes it from the pending rows and touches no other tenant |
| AuditLog.EraseOne | core/app/compliance/service.py:55-68 | erasing one payload keeps every tenant's chain with its facts and head, and every pending row in its place, payload aside |
| AuditLog.ChainIs | core/app/audit/chain.py:110-115 | the selection of sealed rows by number has one answer |
| AuditLog.PendingIs | core/app/audit/chain.py:72-77 | the selection of unsealed rows by id has one answer |
| AuditStore.Store.Append | core/app/audit/chain.py:9-11 | an insert leaves every chain and every other tenant's pending rows alone |
| AuditStore.Store.SelectChain | core/app/audit/chain.py:110-115 | the sealed rows of a tenant, sorted, are its chain and well-formed |
| AuditStore.Store.Head | core/app/audit/chain.py:94-101 | the last number and hash, none if and only if nothing is sealed |
| AuditStore.Store.SealRows | core/app/audit/chain.py:59-84 | seals exactly the first `limit` pending rows in id order behind the head; other tenants unchanged, every change one the guard allows |
| AuditStore.Store.SealAll | core/app/audit/chain.py:87-91 | terminates for every positive batch and equals one unlimited sealing of exactly the pending rows; afterwards every row of the tenant has a hash, and no hashed row and no row of another tenant changed |
| AuditStore.Store.SealNext | core/app/audit/chain.py:89 | a round seals one more batch, and none if and only if all is sealed |
| AuditStore.Store.ErasePayloads | core/app/compliance/service.py:55-68 | changes the chosen payloads only; every chain attests the same facts, and the same rows are pending |
| AuditStore.Store.Verify | core/app/audit/chain.py:104-136 | on a table kept by these operations reports every sealed row as checked; in general breaks exactly when the numbered rows are no chain, at the first misfit; without any numbered row raises if and only if there are at least two hashed rows and the first digest is right, and else says "ok" even when it is wrong |
| AuditStore.SealInOrder | core/app/audit/chain.py:71-82 | the loop with running number and link refines the chain extension |
| AuditStore.Walk | core/app/audit/chain.py:116-123 | the loop finds the first break, and raises if and only if no row is numbered, there are at least two, and the first carries its own digest |
| AuditStore.OrderedIsChain | core/app/audit/chain.py:110-115 | sorting by number yields the chain on any kept table |
| AuditStore.OrderedHolds | core/app/audit/chain.py:110-115 | the rows a verification walks are exactly the hashed rows of the tenant that have a number, in the order of their numbers |
| AuditStore.BatchStep | core/app/audit/chain.py:87-91 | one more batch behind a partial sealing is a larger partial sealing |
| AuditRetention.StaleCount | core/app/audit/retention.py:60-66 | counts up to the last stale row: everything behind is recent |
| AuditRetention.Retention.LastStale | core/app/audit/retention.py:62-66 | the greatest stale number is that of the last stale row of the chain |
| AuditRetention.Retention.SelectRows | core/app/audit/retention.py:60-74 | a pass takes the longest front ending in a stale row, at most 5000 rows |
| AuditRetention.Retention.ArchiveThenDelete | core/app/audit/retention.py:77-87 | deletes exactly the front it put under its key, over whatever was there; a failed upload deletes nothing, stored or not |
| AuditRetention.Retention.RetainTenant | core/app/audit/retention.py:58-87 | one tenant: sealed, then exactly the front of the pass moves to one object; other tenants unchanged |
| AuditRetention.Retention.StaleTenants | core/app/audit/retention.py:54-56 | exactly the tenants with a stale row |
| AuditRetention.Retention.ApplyRetention | core/app/audit/retention.py:46-88 | inside its transaction: tenants without a stale row are not touched; if all uploads work every other one is sealed and its front moves to one object, and the count is that of the numbers under the new keys; else it stops at a tenant whose upload failed; a tenant all of whose rows were created at or after `days` times 86,400 seconds before `now` is left as it is |
| AuditRetention.Retention.RetentionTask | core/app/compliance/jobs.py:138-149 | after a failed upload table and seals are as before, and an object stored on the way holds exactly the front that sealing gives again; otherwise the pass is committed; tenants without a row older than so many days are left as they are |
| AuditRetention.Retention.RetainEach | core/app/audit/retention.py:57-87 | the loop ends with every tenant done, or at the first failed upload with those before done and those after untouched |
| AuditRetention.OneMoreDone | core/app/audit/retention.py:57-87 | retaining one more tenant leaves those before done and those after untouched |
| AuditRetention.DeleteOne | core/app/audit/retention.py:79-86 | the range delete cuts one front off one chain, nothing pending and no other tenant |
| AuditArchives.ReadAfterPut | core/app/audit/store.py:30-33 | storing rows under a key changes what the archives read if and only if one of them has that key and other rows |
| AuditRetention.PassConservesIff | core/app/audit/retention.py:58-87 | archives as they read now, followed by the rows, are the same history after a pass if and only if the front was not put over other rows of an archive |
| AuditRetention.RollbackConservesIff | core/app/compliance/jobs.py:145-147 | the same after a rollback, when an object was stored on the way |
| AuditRetention.EndConservesIff | core/app/compliance/jobs.py:138-149 | for every tenant and either end of the transaction, exactly when a history is conserved |
| AuditRetention.PassResult | core/app/audit/retention.py:54-88 | the loop over the distinct tenants is the pass over all tenants with a stale row |
| AuditRetention.PassEmptiesIff | core/app/audit/retention.py:60-74 | a pass empties a chain if and only if its newest row is stale and one pass is enough |
| AuditRetention.OnlyStaleRowsGo | core/app/audit/retention.py:60-62 | if creation times follow the chain only stale rows go; an uncut pass takes every stale row |
| AuditRetention.FrontHolds | core/app/audit/retention.py:60-74 | a pass takes a front of at most 5000 rows, each stale or with a stale row behind it; with fewer than 5000 no stale row is left |
| AuditRetention.YoungRowsStay | core/app/audit/retention.py:53-87 | if creation follows the chain, a row created at or after `days` times 86,400 seconds before `now` is still in the table after the job, with its id, covered columns and payload, however the transaction ends |
| AuditRetention.KeyHolds | core/app/audit/retention.py:77 | an archive lies under its tenant and the numbers of its first and last row |
| AuditRetention.RangesAreDisjoint | core/app/audit/retention.py:77 | while the history is one chain, numbers archived later exceed all archived before |
| AuditRuns.NextForTenant | core/app/audit/retention.py:58-88 | each insert, sealing, erasure and pass, committed or rolled back, keeps a tenant's archives and chain one chain, the ranges of its archives disjoint and everything sealed readable, unless it seals an emptied tenant again |
| AuditRuns.RunIsOneChain | core/app/audit/chain.py:65-71 | over all such runs: archives as they read now followed by the chain verify as one chain, each stored under its own range, and ranges never meet |
| AuditRuns.SealedForEver | core/app/audit/retention.py:4-6 | over all such runs: a row once sealed can be read at the same place for ever, but for its payload |
| AuditRuns.StaysOneChainIff | core/app/audit/chain.py:65-71 | for a sealing or a committed pass from such a state: archives and chains stay one chain each if and only if it seals no emptied tenant again |
| AuditRuns.RollbackKeepsView | core/app/compliance/jobs.py:145-147 | an object left by a rolled back pass hides no archive, nor does one that an emptied tenant leaves under an unused key |
| AuditRuns.FrontIsAbove | core/app/audit/retention.py:77 | while the history is one chain, the key of the next archive is new and above all others |
| AuditRuns.RestartLosesAnArchive | core/app/audit/retention.py:77-78 | a run for any two stale rows: a tenant archives its only row, is written to again and archives under the same key, and the first row is gone from table and bucket |
| AlertEpisodes.AttemptsExactly | core/app/alerts/jobs.py:93-110 | an evaluation notifies if and only if its episode is not silent, all before it in the episode failed, and at most five failures, counted across the episode's start, precede it |
| AlertEpisodes.AttemptsArePrefix | core/app/alerts/jobs.py:93-110 | attempts are the first evaluations of an episode, at most 1 + 5, all but the last failed |
| AlertEpisodes.TransitionsExactly | core/app/alerts/jobs.py:419-423 | a transition is the first evaluation of an episode that is not silent, and nothing else |
| AlertEpisodes.SharedBudget | core/app/alerts/jobs.py:99-110 | five trailing failures leave the next episode one attempt only |
| AlertEpisodes.FailuresAcross | core/app/alerts/jobs.py:104-110 | the count of failures runs through the start of an episode |
| AlertEpisodes.SentAtMostOnce | core/app/alerts/jobs.py:284-366 | no channel is successfully sent to twice in an episode, and the delivered ones are exactly those sent to |
| AlertEpisodes.DeliveredOnlyGrows | core/app/alerts/jobs.py:424-431 | a delivered channel stays delivered through the retries and is not sent to again |
| AlertEpisodes.DeliveredMeansOnceEach | core/app/alerts/jobs.py:535-587 | a row "delivered" means every channel was sent to exactly once in the episode |
| AlertEpisodes.RoundFacts | core/app/alerts/jobs.py:297-366 | what a round marks, sends and counts as failed agree, for distinct channels |
| AlertEpisodes.DuplicateChannelSentTwice | core/app/alerts/jobs.py:279-305 | for every list with a repeated channel, the first round that works sends to it twice |
| AlertEpisodes.OncePerChannelIff | core/app/alerts/jobs.py:284-366 | no undisturbed episode of a rule sends to a channel twice if and only if the rule lists each channel once |
| AlertJobs.PreviousTerminal | core/app/alerts/jobs.py:61-83 | finds the last terminal evaluation of the past, skipping itself and pending rows |
| AlertJobs.ShouldRetry | core/app/alerts/jobs.py:99-110 | true if and only if the same state follows one to five trailing failures |
| AlertJobs.Notify | core/app/alerts/jobs.py:284-366 | refines the round: channels already delivered are not sent to, the rest are marked by their outcome |
| AlertJobs.NotifyRow | core/app/alerts/jobs.py:535-587 | the round is recorded as it went; a breakdown forgets the channels and counts as failed |
| AlertJobs.Evaluate | core/app/alerts/jobs.py:396-587 | from the newest-first listing, the loops give what the specification over the past, oldest first, says for any row: state, transition, retry, skipped channels; the state is firing, ok or error exactly when the condition held, did not hold or could not be measured |
| AlertJobs.FirstEvaluation | core/app/alerts/jobs.py:406-439 | the first evaluation of a rule notifies if and only if its condition holds; when all sends work every channel is sent to and the row is delivered, when one does not it failed |
| AlertJobs.LaterEvaluation | core/app/alerts/jobs.py:61-110 | a later one is a transition if and only if its state differs from that of the last other evaluated row among the last hundred; a transition notifies, and otherwise only a failed delivery is tried again |
| AlertJobs.FailedEvaluation | core/app/alerts/jobs.py:478-500 | a condition that cannot be measured sets the state, is no transition and notifies nobody |
| AlertJobs.EvaluatedIsLegal | core/app/alerts/jobs.py:396-587 | a new row is evaluated to a legal successor of the past it sees |
| AlertJobs.EvaluatedCompletes | core/app/alerts/jobs.py:369-615 | the evaluation of a new row is a step of the runs below |
| AlertJobs.EvaluatedTwiceIff | core/app/alerts/jobs.py:397-439 | for a row evaluated twice over distinct channels, a channel is sent to twice if and only if for each of the two evaluations the past calls for a notification, does not skip it, and the send works |
| AlertJobs.AlertStore.CreateEvaluation | core/app/alerts/repository.py:21-33 | adds one pending row, and keeps pending rows spaced when the latest is not a young one |
| AlertJobs.AlertStore.EvaluateNow | core/app/alerts/service.py:51-81 | creates if and only if the latest row is not a pending one younger than 3600 seconds, else returns that row's id and changes nothing |
| AlertJobs.AlertStore.ListDueRules | core/app/alerts/repository.py:155-186 | exactly the enabled rules that never ran, hang, or are past their next tick |
| AlertJobs.IsDueHolds | core/app/alerts/repository.py:155-186 | due means enabled and: no row; or the latest pending for 3600 seconds or more; or the latest evaluated and the next tick after its creation not later than now |
| AlertJobs.AlertStore.Sweep | core/app/alerts/jobs.py:630-648 | one new pending row for each due rule, nothing else changes |
| AlertJobs.AlertStore.EvaluateTask | core/app/alerts/jobs.py:369-615 | changes exactly its own row, evaluated from what the listing shows, also when the row is delivered again; its state is firing, ok or error exactly when the condition held, did not hold or could not be measured; an unknown id changes nothing |
| AlertJobs.OneYoungPending | core/app/alerts/repository.py:155-186 | a rule never has two pending evaluations younger than 3600 seconds |
| AlertJobs.NewRowOkIff | core/app/alerts/repository.py:21-33 | a new row keeps pending rows apart if and only if the latest is not a young pending one |
| AlertJobs.SweepTurnIff | core/app/alerts/jobs.py:634-641 | when the turn of a listed rule comes, its new row keeps pending rows apart if and only if no row was added since the listing or the latest is evaluated or old |
| AlertJobs.TriggerDuringSweep | core/app/alerts/jobs.py:636-641 | a manual trigger between the listing of a sweep and its turn for a due rule leaves two young pending rows |
| AlertJobs.EnoughIsAll | core/app/alerts/repository.py:130-152 | more than five terminal rows in the listing decide as the whole history would |
| AlertJobs.WindowIsSuffix | core/app/alerts/repository.py:130-152 | the terminal rows of the listing are the last ones of the history |
| AlertJobs.WindowIsLast | core/app/alerts/repository.py:130-152 | the listing is the last hundred rows, or all when there are fewer |
| AlertJobs.CompletionAppends | core/app/alerts/jobs.py:61-83 | completing in order appends to the terminal rows, wherever reclaimed pending rows lie |
| AlertJobs.RunIsHistory | core/app/alerts/jobs.py:369-587 | in every run, reclaimed rows included, the terminal rows are a legal history, so the episode theorems hold of it |
| BackupRetention.SelectFilesToDelete | deploy/backup/retention.py:22-51 | returns exactly the archives the declarative policy does not keep, newest first; each of them is older than `daily_count` times 86,400 seconds, and at most `weekly_count` of those that old stay; raises if and only if a name holds no date |
| BackupRetention.KeptHolds | deploy/backup/retention.py:32-51 | on the instants: an archive stays if and only if it is of the last `daily_count` days, or the newest of its ISO week among the older ones with fewer than `weekly_count` later weeks that hold an older archive |
| BackupRetention.FewKept | deploy/backup/retention.py:40-51 | of the archives before the cutoff at most `weekly_count` are kept |
| BackupRetention.WeeksChangeOnMondays | deploy/backup/retention.py:46 | the week number is the same all day long and one more the next day if and only if that is a Monday |
| BackupRetention.SplitDaily | deploy/backup/retention.py:35-39 | splits at the daily cutoff, order kept |
| BackupRetention.PickWeekly | deploy/backup/retention.py:44-49 | the greedy pass records exactly the archives the policy keeps on behalf of their week |
| BackupRetention.Dated | deploy/backup/retention.py:28-30 | the archives among the names, newest first |
| BackupRetention.IsoWeeksFollowDates | deploy/backup/retention.py:46 | ISO weeks never decrease with the date |
| BackupRetention.DroppedStaysDropped | deploy/backup/retention.py:22-51 | what a run drops no later run would have kept, whatever is added |
| BackupRetention.QuotaStillFull | deploy/backup/retention.py:44-49 | a week refused for lack of room stays refused on the survivors |
| BackupRetention.OnlySurvivorsMatter | deploy/backup/retention.py:22-51 | a later run judges an archive the same on the survivors as on everything ever made |
| BackupRetention.IncrementalIsOneShot | deploy/backup/retention.py:22-51 | for a later time and any added archives, rotating the survivors plus these gives what rotating everything gives |
| BackupRetention.ManyNightsIsOneRun | deploy/backup/retention.py:22-51 | over any number of nights the survivors are those of one final run on every archive ever made |
| BackupRetention.RotationIdempotent | deploy/backup/retention.py:22-51 | rotating again deletes nothing |
| BackupRetention.NewestArchiveSurvives | deploy/backup/retention.py:22-51 | with a positive weekly count the newest archive is never deleted, however old |
| AppExportJobs.JobRepository.CreateJob | core/app/appexport/repository.py:22-41 | a new job is stuck for no sweep up to now, has nothing to download, and no closed job changes |
| AppExportJobs.JobRepository.MarkRunning | core/app/appexport/repository.py:50-60 | taken if and only if pending; then its age counts from now; afterwards it is pending for nobody, and no other or closed job changed |
| AppExportJobs.JobRepository.MarkDone | core/app/appexport/repository.py:63-88 | closed afterwards in any case, by this call if and only if it was open, and then with its result; no other or closed job changed |
| AppExportJobs.JobRepository.MarkError | core/app/appexport/repository.py:91-97 | afterwards an error if and only if it was not done; no result appears; no other or closed job changed |
| AppExportJobs.JobRepository.MarkEnqueueFailed | core/app/appexport/repository.py:100-113 | afterwards it waits no more; a running job is left to its worker; no other or closed job changed |
| AppExportJobs.JobRepository.ReclaimStuckJobs | core/app/appexport/repository.py:116-149 | exactly the jobs anchored before the threshold fail and are reported, each once; none is stuck afterwards; the threshold is so many minutes of 60 seconds before `now`, the age counts from the start of a running job and from the creation of a waiting one |
| AppExportJobs.DefaultAge | core/app/job_timeouts.py:8 | by default that is 3600 seconds |
| AppExportJobs.FirstCloseWins | core/app/appexport/repository.py:63-149 | once a job was closed, as done or as an error, no later update of any kind has an effect |
| AppExportJobs.FirstClaimWins | core/app/appexport/repository.py:50-113 | after a claim neither a second claim nor a failed enqueueing has an effect |
| AppExportProtocol.RowsEvolve | core/app/appexport/repository.py:50-149 | whatever step, a row only moves along the protocol, and a closed one does not move |
| AppExportProtocol.NextKeeps | core/app/appexport/jobs.py:129-227 | every step of every process keeps the invariant on rows, objects, workers, notifications and sweep |
| AppExportProtocol.RunKeepsInv | core/app/appexport/jobs.py:129-227 | so does every interleaving of any length |
| AppExportProtocol.ClosedForEver | core/app/appexport/repository.py:63-97 | done and error are absorbing over whole runs |
| AppExportProtocol.StatusTellsTheTruth | core/app/appexport/jobs.py:153-200 | done has its object present, error has no result, success was told only of done jobs, failure told by the claimant or the sweeper only of failed ones |
| AppExportProtocol.ClaimedOnce | core/app/appexport/repository.py:50-60 | at most one delivery ever passes a job from pending to running |
| AppExportProtocol.NewlyDone | core/app/appexport/jobs.py:153-170 | a job becomes done only with its object uploaded |
| AppExportProtocol.ResultStays | core/app/appexport/jobs.py:171-174 | deleting a late object never removes that of a job done |
| AppExportProtocol.LateObjectGoes | core/app/appexport/jobs.py:171-174 | the object of a delivery that was overtaken is gone once its deletion works, and its job keeps the failure |
| AppExportProtocol.NotClosedByOthers | core/app/appexport/jobs.py:153-174 | while a claimant works nobody else closes its job as done |
| AppExportProtocol.SweepLeavesNothingStuck | core/app/appexport/repository.py:116-149 | when an interleaved sweep ends, every job it read is closed or anchored no earlier than the threshold |
| AppExportProtocol.UnclaimedFailureIsTrueIff | core/app/appexport/jobs.py:183-200 | a failure announced after a lost claim is true if and only if the job was not done |
| AppExportProtocol.UnclaimedFailureMayMislead | core/app/appexport/jobs.py:129-200 | a run from the empty world after which a failure is announced for a job that is done |
| FilterValues.EscapeIsPerCharacter | core/app/filter_values.py:23-24 | the two successive replacements are one map over the characters |
| FilterValues.EscapeHolds | core/app/filter_values.py:23-24 | escaping puts a backslash before each comma and each backslash and changes nothing else |
| FilterValues.TextHolds | core/app/filter_values.py:27-41 | in the text a comma separates values, a backslash makes the next character literal and stands for itself at the end, and any other character is itself |
| FilterValues.SplitInValues | core/app/filter_values.py:27-41 | the iterator loop, with its escape at the end of the text, refines the recursive scanner |
| FilterValues.ScanEscaped | core/app/filter_values.py:27-41 | the scanner reads an escaped value back whole, whatever follows |
| FilterValues.SplitAfterJoin | core/app/filter_values.py:23-41 | every non-empty list comes back unchanged |
| FilterValues.SplitAfterJoinIff | core/app/filter_values.py:23-41 | a list comes back if and only if it is not empty |
| FilterValues.JoinAfterSplitIff | core/app/filter_values.py:23-41 | a text comes back from its values if and only if its backslashes escape only backslashes and commas |
| FilterValues.JoinInjective | core/app/filter_values.py:23-24 | different non-empty lists never share a text |
| FilterValues.FoldQueryFilters | core/app/filter_values.py:44-62 | repeated parameters whose name ends in `__in` read back as all occurrences in order; anything else keeps its last occurrence as it is |
| FilterValues.NormalizeFilters | core/app/filter_values.py:65-75 | scalars as they are, lists recovered if and only if not empty, nothing for no filters |
| TileCache.Cache.Clear | core/app/tile_proxy.py:42-48 | empties cache and counter together |
| TileCache.Cache.Lookup | core/app/tile_proxy.py:71-79 | hits if and only if the entry was stored less than 60 seconds ago, with the last body stored for the key, and moves it behind the others; an older entry goes, and the counter follows |
| TileCache.Cache.Place | core/app/tile_proxy.py:57-61 | a new entry replaces the old one of its key and is the most recent, the counter following |
| TileCache.Cache.Evict | core/app/tile_proxy.py:62-64 | evicts the shortest front that fits, never the newest entry |
| TileCache.Cache.Store | core/app/tile_proxy.py:51-64 | a tile within the budget survives its own store, the counter stays the sum of the bodies and within the budget; a larger one changes nothing |
| TileCache.Cache.FetchTile | core/app/tile_proxy.py:67-88 | whatever other requests do between look-up and store: answers from the cache or from upstream, keeps only successes within the budget as the last stored, evicting the shortest front of what the others left, and stays within a fixed budget |
| TileCache.MissHolds | core/app/tile_proxy.py:80-88 | a fetch that misses is busy without a slot, unreachable without an answer, and else passes the answer on; only a 200 that fits the budget is kept |
| TileCache.Cache.Others | core/app/tile_proxy.py:42-88 | any sequence of look-ups, stores and clearings keeps the counter exact, every entry the last stored for its key, and a fixed budget |
| TileCache.TotalFromIs | core/app/tile_proxy.py:62-64 | what is left after evicting is the total of the remaining entries |
| TileCache.TotalWithout | core/app/tile_proxy.py:57-79 | removing an entry lowers the total by its body |
| TileCache.WithoutKeeps | core/app/tile_proxy.py:57-79 | removing an entry keeps keys distinct and entries the last stored |
| Precache.Plugin.Walk | shell/vite.serviceWorker.ts:47-54 | terminates on cyclic imports; lists its root, and adds only reachable chunks with all their imports and style sheets |
| Precache.Plugin.AddRoot | shell/vite.serviceWorker.ts:47-54 | from the exact list of some roots to the exact list of one more |
| Precache.Plugin.AddOffline | shell/vite.serviceWorker.ts:64-68 | the roots grow by exactly the files of offline modules |
| Precache.OfflineHolds | shell/vite.serviceWorker.ts:55-68 | a chunk with a module path that ends in one of the three offline modules is an offline one, whatever comes before, and likewise for the collect page |
| Precache.OfflineIff | shell/vite.serviceWorker.ts:55-68 | and only then; backslashes in a path count as slashes |
| Precache.Plugin.AddFacades | shell/vite.serviceWorker.ts:69-75 | after the pass the list is exact for the roots and the facades that joined |
| Precache.Plugin.Generate | shell/vite.serviceWorker.ts:41-78 | fails if and only if there is no entry or no collect page; else the list is exactly what the roots and the joined facades reach, with their style sheets |
| Precache.OfflineIsListed | shell/vite.serviceWorker.ts:41-78 | such a chunk is on the list with its imports and style sheets, and so are the first entry and a chunk with the collect page |
| Precache.WalkedIsExact | shell/vite.serviceWorker.ts:47-54 | what one walk promises turns exact into exact |
| Precache.ExactlyIsClosed | shell/vite.serviceWorker.ts:45-78 | the exact list is closed under static imports and style sheets |
| Precache.ClosedIsExact | shell/vite.serviceWorker.ts:45-78 | a closed list that holds the roots and nothing unneeded is exact |
| Precache.ClosedHoldsPath | shell/vite.serviceWorker.ts:47-54 | a closed list holds every path from what it holds |
| Precache.InWalkStep | shell/vite.serviceWorker.ts:52 | each import walked keeps the chunks added so far complete, the root excepted |
| Precache.JoinedAreFacades | shell/vite.serviceWorker.ts:69-75 | only visited chunks without modules join, and only if they import something of the final list |
| Precache.EarlyFacadesJoin | shell/vite.serviceWorker.ts:69-75 | every visited chunk without modules that imports something the roots need joins |
| Precache.AnyOrderIff | shell/vite.serviceWorker.ts:69-75 | every order of the visits gives the same list if and only if no visited facade outside the list of the roots and first facades reexports something of that list |
| Precache.NobodyLate | shell/vite.serviceWorker.ts:69-75 | and then the list is that of the roots and the visited facades of the first list |
| Precache.OnePassDependsOnOrder | shell/vite.serviceWorker.ts:69-75 | the smallest bundle in which the order of the visits decides whether a chunk is on the list |

## Left out

- LakeSnapshots.LakeStorage.ComputeFold: one cycle reads the raw files once; the code counts them and copies them in two queries, which the grace margin makes agree.
- LakeSnapshots.LakeStorage.LatestSnapshot: only the footer is read, as in the code; a snapshot whose body is damaged is not modelled.
- LakeRuns.RunServesNewest: in a half emptied lake only for readers of the files, because there the property is false of snapshots (`LakeRuns.HalfPurgedServesStale`); exactly when it holds of them is `LakeRuns.ReadIsRightIff`.
- LakeRuns.Unregister: deleting a collection is one step and only without a cycle in flight, because otherwise the property is false (`LakeRuns.DeleteCollectionKeepsIff`); rows of the deleted collection that arrive later are not modelled.
- ResultCacheRuns.CacheIsTransparent: a request is one step, during which nothing is written; for others see `ResultCache.RightWheneverListedIff` and `ResultCache.HitIsOfTheRequest`.
- LakeRuns.Compact: a compaction is one step; one that straddles a purge and brings rows back is not modelled.
- LakeRows.Row: raw rows are a set, since an exact copy of a row changes no answer; columns added, renamed or missing in old files, geometry and the SQL engine itself are not modelled; a row is its key, version, flush time, operation and one text.
- LakeSnapshots.CutSeconds: the cut is an exact real, not a double; both sides use the same expression, so rounding cannot separate them.
- ResultCache.Cache.Compute: the engine is a deterministic function of the live rows (no `sample`); a request is split into listing, look-up, computation and storing; within the computation, snapshot and files are read in one moment.
- ResultCache.CacheKey: the SHA-256 of the key is taken as injective; statement time-outs are one more failure.
- AuditChain.Digest: SHA-256 over JSON is an injective constructor; date formatting and the advisory lock are not modelled, so sealing a tenant is one atomic operation.
- AuditRuns.RunIsOneChain: nothing is proved of runs that seal an emptied tenant again, because there the property is false (`AuditRuns.RestartLosesAnArchive`, `AuditRuns.StaysOneChainIff`).
- AuditRetention.Retention.RetentionTask: a transaction that fails while it commits, after every upload worked, is not modelled apart; it leaves the same objects as a failed last upload that was stored.
- AuditStore.Store.ErasePayloads: which rows and keys are scrubbed is a parameter.
- AuditGuard.Execute: single statements only; the tenant purge under maintenance, which removes a whole chain, is no operation of `AuditStore` or `AuditRuns`.
- AlertJobs.RunIsHistory: a row evaluated a second time is no step of these runs; nothing in the repository retries an evaluation, and what it would send is stated by `AlertJobs.EvaluatedTwiceIff`. A worker that dies after sending and before committing is not modelled either.
- AlertJobs.AlertStore.Sweep: the loop commits after each rule in the code, and here the sweep is one operation; what rows added in between do is stated exactly by `AlertJobs.SweepTurnIff`. A rule deleted meanwhile, cron syntax, time zones, messages and sending itself are left out.
- AppExportProtocol.Next: building the bundle, the storage service and the notification text are choices of success or failure; an ambiguous commit is not modelled. A sweeper that dies is a step, with each row it failed kept.
- BackupRetention.SelectFilesToDelete: name parsing is abstract (a name is an instant, a bad date or something else), and the command line wrapper is left out.
- BackupRetention.IsoWeek: the (year, week) pair is represented by a running week number that changes exactly on Mondays; calendar dates themselves are not modelled.
- FilterValues.NormalizeFilters: `str()` of a value that is not a string is taken as done.
- TileCache.Cache.FetchTile: the steps of other requests between look-up and store are any sequence of look-ups, stores under the same budget and clearings.
- TileCache.Byte: the wait for a concurrency slot and the HTTP client are parameters.
- Precache.Plugin.Generate: the list is a set; sorting it, the leading slash, the build identifier and the template are left out.
- HTTP routes, access control, scripts, UI and migrations other than 0120 carry no state of these algorithms.
- `cell_safety.py`, `bbox.py`, `upload_sniff.py` and `sql_sandbox.py` would only add easy members or depend on the SQL engine's binder.
