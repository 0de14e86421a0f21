# Hirame search: verified model

This project models, in Dafny 4.11, the stateful core of the Hirame search system: how filesystem events and
scans become documents and content versions, how thumbnails are cached, shared and evicted, and four smaller
algorithms beside them. `dafny verify dfyconfig.toml` checks all of it.

## What is modelled

The ingest state machine. `Tables` is the database as a value and `Stores` the same tables as a class whose
methods are the SQL statements; a statement the schema's unique indexes could refuse has the index as its
precondition, so every method that calls it proves the index is never tripped, or takes the refusal as an
outcome. `Reconcile` says what an event, a scan and a promotion do; `Reconcilers` is the program's own sequence
of statements, proved against it. `Observations`, `Documents` and `Queues` say, off the tables, what each event,
scan and promotion does to every row, every document and the queue. The rest is about runs: `Ledger` (every
content version taken up is still held or was invalidated once), `LivePaths`, `ObservedPaths`, `Identity`,
`Contents` (a hash and its version determine each other), `Rename`, `Scans`, `Replay` and `Tracking` (the
observations equal the filesystem), `Roots` (so for a rescan of whatever any run has made), `Delivery` (exactly
once, and nothing read before every root was scanned) and `Subscription` (the stream loop, and why every run of
it is one the theorems cover). `Attempts` splits a promotion between its reads and its writes, `Races`
interleaves any number of them, and `Processors` is the job itself.

The thumbnail cache. `Thumbnails` is the accounting table and its exact LRU; `CacheWorkers` the three workers
and their batched drain on a table and a bucket that share no transaction; `Invalidations` what the document
tables have to do with them; `CacheProtocol` the interleaving of renders, readers and any number of workers at
every step; `CacheRuns` ties the workers' loops to its steps, and `Strandings` says exactly which runs lose track
of an object; `ThumbnailKeys` is the key they all rest on. `Parties`, `Crowds` and `ThumbnailService` are the
handler: the reference-counted party of a shared render, and the cache read, flight and render, with what every
other actor does in between as a parameter.

Beside them: `Supervisors` (After= order and failure propagation through Requires=), `Base64` and `Paging`
(cursor tokens and following them), `Snippets` (highlight splitting) and `Migrations` (the migration runner).

Three assumptions hold throughout. A transaction of the ingest store is one atomic step, which is stronger than
the database's READ COMMITTED; `Races` drops it for promotions. Content hashes are distinct for distinct
content. A job request commits with its transaction, and the requested jobs are multisets.

## What the proofs found

- An event keeps every live document's path observed exactly when it does not strand one (`ObservedPaths`): a
  directory delete, or a directory move, that names a live document's own path leaves that document live
  without an observation.
- The version swap does not look at the tombstone, so a document deleted between a promotion's read and its
  writes has its version invalidated twice and is left one that, once no such job remains, nothing will
  invalidate (`Races.ForgottenForever`), even re-pathed. Exactly the swaps that win on a tombstone do the second
  (`Attempts`), and exactly those that win away from a version also the first; over a whole race the excess is
  there exactly when such a flip lands after the death.
- Identity resolution asks for the inode without asking whether the holder's own path is still observed, so
  promoting one of two hard links takes the other's document; `Identity.PromotionKeepsOthersIff` says exactly
  when.
- The drain is safe against concurrent renders but not against a second worker: with two workers draining at
  once a purge can strand an object (`CacheProtocol.TwoWorkersStrandAnObject`), and over every run exactly the
  purges of rows whose objects a render has put back and recorded do (`Strandings`). The comment at
  `apps/search-api/internal/store/sqlcgen/thumbnails.sql.go:163-166` speaks of concurrent renders only.
- The comment above `snippetSegments` promises the excerpt's text without conditions. It is kept for every
  excerpt but those that are one or more copies of `<b></b>` and nothing else, which come back with their
  markers (`Snippets.TextIsKeptIff`).
- The supervisor's header promises propagation for Requires=. It holds for every outcome of the units' commands
  exactly when the start order puts each selected requirement first (`Supervisors.FailuresPropagateExactly`);
  Requires= without After= breaks that, and so does an After= cycle through a Requires= edge.
- An event keeps the observations equal to the filesystem exactly when no nested root is involved and no
  directory brings watched contents across roots (`Tracking`); deleting a directory that holds a nested root
  leaves that root's rows behind.
- Every result list of at most 2^30 + 1 rows can be paged through with any page sizes; one row more and a client
  asking for pages of one is refused in the middle.

## Model

| member | source | states |
|---|---|---|
| Paths.MountpointFor | apps/search-api/internal/ingest/reconciler.go:668-680 | the loop returns the longest root that contains the path, and reports none exactly when no root does |
| Paths.DeepestIsDeepest | apps/search-api/internal/ingest/reconciler.go:668-680 | the choice the loop makes is a containing root no other containing root is longer than |
| Paths.OrderIndependent | apps/search-api/internal/ingest/reconciler.go:666-680 | listing the same mountpoints in another order resolves every path the same way |
| Paths.RootFreeResolves | apps/search-api/internal/ingest/reconciler.go:666-680 | a directory no root lies beneath resolves exactly as everything inside it does |
| Paths.SubtreePrefix | apps/search-api/internal/ingest/reconciler.go:719-722 | the prefix extends the directory's own path by at most one character |
| Paths.SubtreePrefixIs | apps/search-api/internal/ingest/reconciler.go:719-722 | the directory and a slash, unless it already ends in one |
| Paths.RebaseBack | apps/search-api/internal/store/sqlcgen/filesystem.sql.go:158-163 | rewriting a prefix and rewriting it back is the identity |
| Stores.Store.SetWatermark | apps/search-api/internal/store/sqlcgen/filesystem.sql.go:190-192 | the stored watermark becomes the greater of itself and the new value |
| Stores.Store.NextScanEpoch | apps/search-api/internal/store/sqlcgen/filesystem.sql.go:179-183 | the next epoch is drawn and returned |
| Stores.Store.UpsertObservation | apps/search-api/internal/store/sqlcgen/filesystem.sql.go:271-285 | the row at that key is exactly the one given, every other table unchanged |
| Stores.Store.DeleteObservation | apps/search-api/internal/store/sqlcgen/filesystem.sql.go:14-16 | that one row is gone |
| Stores.Store.DeleteObservationSubtree | apps/search-api/internal/store/sqlcgen/filesystem.sql.go:28-32 | the rows whose path starts with the prefix are gone, no other |
| Stores.Store.MoveObservationSubtree | apps/search-api/internal/store/sqlcgen/filesystem.sql.go:158-163 | every row beneath the old prefix stands at its rewritten path; callable only where no row would land on another |
| Stores.Store.SweepScanEpoch | apps/search-api/internal/store/sqlcgen/filesystem.sql.go:199-205 | removes the root's rows that carry another epoch and returns each of their paths once |
| Stores.Store.FindLiveDocumentByPath | apps/search-api/internal/store/sqlcgen/documents.sql.go:156-160 | finds the live document at a path exactly when one stands there |
| Stores.Store.FindLiveDocumentByInode | apps/search-api/internal/store/sqlcgen/documents.sql.go:123-131 | the live document of least id with that device and inode |
| Stores.Store.FindLiveDocumentByContent | apps/search-api/internal/store/sqlcgen/documents.sql.go:84-96 | the live document of least id with that content whose own path is not observed |
| Stores.Store.CreateDocument | apps/search-api/internal/store/sqlcgen/documents.sql.go:14-18 | a live, versionless document under a fresh id; callable only where the live-path index would accept it |
| Stores.Store.MoveDocument | apps/search-api/internal/store/sqlcgen/documents.sql.go:383-388 | path, device and inode of that document; callable only where the live-path index would accept it |
| Stores.Store.MoveDocumentSubtree | apps/search-api/internal/store/sqlcgen/documents.sql.go:419-427 | every live document beneath the old prefix is re-pathed; callable only where none would land on another |
| Stores.Store.TombstoneDocument | apps/search-api/internal/store/sqlcgen/documents.sql.go:507-512 | that document is no longer live |
| Stores.Store.TombstoneDocumentByPath | apps/search-api/internal/store/sqlcgen/documents.sql.go:531-536 | tombstones whatever stands at the path and returns its id and version |
| Stores.Store.TombstoneDocumentSubtree | apps/search-api/internal/store/sqlcgen/documents.sql.go:560-567 | tombstones every live document beneath the prefix and returns each with the version it had |
| Stores.Store.UpsertContentVersion | apps/search-api/internal/store/sqlcgen/documents.sql.go:602-607 | one row per hash: a known hash keeps its id, a new one gets a fresh id |
| Stores.Store.SetDocumentCurrentVersion | apps/search-api/internal/store/sqlcgen/documents.sql.go:465-471 | swaps the version if and only if it is still the expected one, and otherwise writes nothing |
| Stores.Store.MarkExtractionPending | apps/search-api/internal/store/sqlcgen/documents.sql.go:369-373 | claims the version for extraction and disturbs no claim already there |
| Stores.Store.EnqueueIngestPath | apps/search-api/internal/ingest/pgstore.go:379-386 | one more ingest job commits with the transaction |
| Stores.Store.EnqueueExtractJob | apps/search-api/internal/ingest/pgstore.go:388-390 | one more extraction job commits with the transaction |
| Stores.Store.EnqueueInvalidateThumbnails | apps/search-api/internal/ingest/pgstore.go:392-397 | one more invalidation commits with the transaction |
| Stores.Store.Begin | apps/search-api/internal/ingest/pgstore.go:39-43 | what the transaction begins on is the table state at that moment |
| Stores.Store.Rollback | apps/search-api/internal/ingest/pgstore.go:44-52 | an aborted transaction leaves what it began on, except that ids and epochs drawn from sequences stay drawn |
| Reconcilers.Reconciler.ApplyEvent | apps/search-api/internal/ingest/reconciler.go:234-250 | a committed event applies its kind and advances the watermark if it is newer, else changes nothing; an aborted one changes nothing; live paths stay unique |
| Reconcilers.Reconciler.ApplyKind | apps/search-api/internal/ingest/reconciler.go:252-279 | each kind of event does what its handler does, and an unknown kind nothing |
| Reconcilers.Reconciler.Observe | apps/search-api/internal/ingest/reconciler.go:281-300 | records the path and queues it exactly when it is an allowed file under some root |
| Reconcilers.Reconciler.ObserveOnly | apps/search-api/internal/ingest/reconciler.go:302-314 | records the path and queues nothing |
| Reconcilers.Reconciler.ApplyDelete | apps/search-api/internal/ingest/reconciler.go:316-347 | drops the row (and a directory's subtree), withdraws exactly the documents there and requests what each owes |
| Reconcilers.Reconciler.ApplyMove | apps/search-api/internal/ingest/reconciler.go:349-387 | the four-way choice between roots: a move out is a delete, a move in an observation, a crossing both |
| Reconcilers.Reconciler.MoveFile | apps/search-api/internal/ingest/reconciler.go:389-450 | the document keeps its identity, the one it lands on is withdrawn, a disallowed target withdraws the document itself; no unique index is tripped |
| Reconcilers.Reconciler.MoveDirectory | apps/search-api/internal/ingest/reconciler.go:452-492 | clears the destination, moves rows and documents, requests no ingest; no unique index is tripped |
| Reconcilers.Reconciler.ObserveScanned | apps/search-api/internal/ingest/reconciler.go:585-640 | records one scanned path under its own root and reports queued exactly when a job was added |
| Reconcilers.Reconciler.ReconcileRoot | apps/search-api/internal/ingest/reconciler.go:513-583 | one committed scan is observe-all then sweep then withdraw; its counters are exact; an aborted one leaves only its epoch drawn |
| Reconcilers.Reconciler.ObserveStream | apps/search-api/internal/ingest/reconciler.go:528-552 | the loop over the walk records every path under its own root and counts exactly the jobs it added |
| Reconcilers.Reconciler.SweepAndWithdraw | apps/search-api/internal/ingest/reconciler.go:554-569 | the sweep removes the root's rows of another epoch and withdraws what stood at each, with one invalidation owed for each version; its count is the rows removed |
| Reconcilers.Reconciler.ReconcileAll | apps/search-api/internal/ingest/reconciler.go:494-511 | every root in order and then one watermark; a failure at some root keeps the earlier roots and leaves the watermark as it was |
| Reconcilers.Reconciler.Invalidate | apps/search-api/internal/ingest/reconciler.go:642-647 | nothing is requested for a document without a version |
| Reconcilers.Reconciler.InvalidateAll | apps/search-api/internal/ingest/reconciler.go:649-656 | the loop requests exactly one invalidation for each listed document that has a version |
| Reconcilers.Reconciler.Promote | apps/search-api/internal/ingest/processor.go:115-191 | the write half of a promotion, run with nothing in between |
| Reconcilers.Reconciler.ResolveDocument | apps/search-api/internal/ingest/processor.go:202-258 | path, then inode, then content, then a new row; the document returned exists |
| Observations.EventRowIs | apps/search-api/internal/ingest/reconciler.go:690-714 | after an event the row at the path it reports carries the stat's size, mode, mtime, inode and device, what a directory rename brings is what stood there before, and every other row left is as it was |
| Observations.ScanRowIs | apps/search-api/internal/ingest/reconciler.go:611-624 | after a scan a listed path's row carries what the walk reports of it, and is a directory exactly when bit 31 of the mode is set |
| Observations.ScanRowStays | apps/search-api/internal/store/sqlcgen/filesystem.sql.go:199-205 | every other row a scan leaves is as it was |
| Documents.DeleteOfDocument | apps/search-api/internal/ingest/reconciler.go:316-347 | a deletion withdraws exactly the live document at the path, or those beneath the directory, and leaves every other as it was |
| Documents.RenameOfFile | apps/search-api/internal/ingest/reconciler.go:389-450 | the document renamed keeps its id, version and liveness and takes the new path and the stat's device and inode, or is withdrawn where the new name is not indexed; the one it lands on is withdrawn; every other stays |
| Documents.EventOfDocument | apps/search-api/internal/ingest/reconciler.go:252-387 | no other kind of event changes a document, and a move between roots is the deletion of its source |
| Documents.ScanOfDocument | apps/search-api/internal/ingest/reconciler.go:554-569 | a scan withdraws exactly the live documents of its root whose row was there and whose path the walk did not list |
| Documents.PromoteOfDocument | apps/search-api/internal/ingest/processor.go:115-191 | a promotion leaves its document live at the path with the file's inode and the version of the file's content, claims a version newly taken up, and touches no other document |
| Queues.EventQueues | apps/search-api/internal/ingest/reconciler.go:252-300 | an event queues one job exactly when it is about the contents of an allowed file under a root: debounced for a created or modified file, settled for a closed or moved one |
| Queues.ScanQueuesExactly | apps/search-api/internal/ingest/reconciler.go:595-640 | a scan queues a job once if the walk lists an allowed file whose size or mtime is not the stored one or that has no live document, and otherwise not at all |
| Queues.RunQueuesAllowed | apps/search-api/internal/ingest/reconciler.go:296-299 | over any run nothing queued is lost and every job added names an allowed path under the root it resolves to |
| Ledger.RunConserves | apps/search-api/internal/ingest/reconciler.go:642-656 | over any run: everything any document ever took up is, at the end, either still held by it or was invalidated, each exactly once |
| Ledger.LastHolderInvalidates | apps/search-api/internal/ingest/processor.go:155-178 | in the step in which a version stops being current for its last live holder, an invalidation naming it is requested |
| Ledger.RunNamesRealVersions | apps/search-api/internal/ingest/reconciler.go:642-647 | every invalidation of a run from empty names a version other than 0 that this document held up to some step and not after it |
| Ledger.StepAccounts | apps/search-api/internal/ingest/processor.go:155-178 | one step requests exactly one invalidation for each pair it drops and no other |
| Ledger.EventSheds | apps/search-api/internal/ingest/reconciler.go:316-492 | no event makes a document take up a version, and each it lets go of is accounted for |
| Ledger.ScanSheds | apps/search-api/internal/ingest/reconciler.go:554-569 | no scan makes a document take up a version, and each it lets go of is accounted for |
| Ledger.PromoteAccounts | apps/search-api/internal/ingest/processor.go:148-178 | a promotion takes up at most one version and accounts for the one it supersedes |
| LivePaths.RunUnique | apps/search-api/internal/store/migrations/0001_core_schema.sql:90-92 | in every state of every run at most one live document stands at each mountpoint and path |
| LivePaths.SubtreeMoveUnique | apps/search-api/internal/store/sqlcgen/documents.sql.go:419-427 | a subtree moved where nothing lives beneath lands on no document and keeps live paths unique |
| LivePaths.ResolveUnique | apps/search-api/internal/ingest/processor.go:202-258 | identity resolution keeps live paths unique and leaves its document live at the path |
| ObservedPaths.EventKeepsObservedIff | apps/search-api/internal/ingest/reconciler.go:318-492 | from a state where every live document's path is observed, an event keeps it so if and only if it does not strand one, a condition on the event and the tables before it |
| ObservedPaths.RunObserved | apps/search-api/internal/ingest/reconciler.go:554-569 | over every run whose events strand nothing, every live document's path has an observation |
| ObservedPaths.StrandingHappens | apps/search-api/internal/ingest/reconciler.go:328-340 | a directory delete naming a live document's own path does leave it live and unobserved |
| Identity.ResolvesInOrder | apps/search-api/internal/ingest/processor.go:202-258 | read off the tables: the live document at the path; else the oldest with the file's inode; else the oldest live one with the digest's own version whose path is not observed; else a new one |
| Identity.ResolvedDocument | apps/search-api/internal/ingest/processor.go:202-258 | the document picked stands live at the path with the observation's inode and keeps its version; no other document is touched |
| Identity.CopyIsNotAMove | apps/search-api/internal/store/sqlcgen/documents.sql.go:103-106 | a document is taken from a path that is still observed only by its own inode |
| Identity.PromotionKeepsOthersIff | apps/search-api/internal/store/sqlcgen/documents.sql.go:123-131 | a promotion leaves every other observed path its live document if and only if it does not take one by its inode: the path is free and the least holder of the inode stands at another, still observed path |
| Identity.SecondHardLinkTakesTheDocument | apps/search-api/internal/ingest/processor.go:228-242 | the input: promoting the second of two hard links leaves the first, still observed, with no live document and no job |
| Identity.InodeKeepsIdentity | apps/search-api/internal/ingest/processor.go:228-242 | a file that turns up at a path of its own keeps the one live document with its inode |
| Identity.SameFileAsOnTheWire | apps/search-api/internal/ingest/processor.go:193-200 | after the narrowing to int64 two stats name the same file exactly when they did on the wire, or one has no inode |
| Rename.RenameOfDocument | apps/search-api/internal/ingest/reconciler.go:452-492 | what was beneath the destination is withdrawn, what was beneath the source keeps id, version, liveness and path suffix, everything else is unchanged |
| Rename.RenameWork | apps/search-api/internal/ingest/reconciler.go:488-491 | no ingest and no extraction is requested; only what was overwritten is invalidated |
| Rename.RenameBackRestoresDocuments | apps/search-api/internal/store/sqlcgen/documents.sql.go:419-427 | into an empty destination, neither inside the other, renaming back restores every document and requests nothing |
| Rename.RenameBackRestoresRows | apps/search-api/internal/store/sqlcgen/filesystem.sql.go:158-163 | and every observation but the two directories' own |
| Scans.ScanLeavesExactlyWhatItSaw | apps/search-api/internal/store/sqlcgen/filesystem.sql.go:199-205 | when a root's scan commits, that mountpoint's rows under the root are exactly the scanned paths whose deepest root it is |
| Scans.NothingLivesWhereSwept | apps/search-api/internal/ingest/reconciler.go:554-569 | no live document remains at a swept path |
| Scans.ScannedFileIsQueuedOrAccounted | apps/search-api/internal/ingest/reconciler.go:595-640 | from any tables, each scanned file that is indexed is queued by the scan, or has a live document and had the very size and mtime the walk reports |
| Scans.QueuedCountIsExact | apps/search-api/internal/ingest/reconciler.go:542-551 | the count a scan logs is the number of ingest jobs it added |
| Scans.RunEpochs | apps/search-api/internal/store/sqlcgen/filesystem.sql.go:179-181 | over every run no row carries an epoch that has not been drawn |
| Replay.ScanPlusReplayIsExact | apps/search-api/internal/ingest/reconciler.go:156-193 | each path seen at its own moment after the ring head was read, then every later event in order, leaves exactly the filesystem's watched paths observed, each under its deepest root |
| Roots.RunRooted | apps/search-api/internal/ingest/reconciler.go:666-680 | over every run from an empty table, or any whose rows lie under their roots, every row lies under the root it is filed under, directory renames included |
| Roots.RescanAfterAnyRunIsExact | apps/search-api/internal/ingest/reconciler.go:215-228 | so a gap rescan of whatever any run has made, with the replay that follows it, leaves exactly the filesystem's watched paths observed |
| Replay.PlainApplies | apps/search-api/internal/ingest/reconciler.go:252-347 | an event that is no directory move assigns the presence of the paths it touches outright and leaves every other row |
| Replay.ReplayRow | apps/search-api/internal/ingest/reconciler.go:196-250 | replaying fresh events settles every touched path as the filesystem has it, whatever the scan saw of it |
| Tracking.EventTracksIff | apps/search-api/internal/ingest/reconciler.go:316-492 | from rows that mirror the filesystem, any event, directory moves and deletes included, leaves them mirroring it if and only if it is tracked: no nested root is crossed |
| Tracking.NestedRootOutlivesItsDirectory | apps/search-api/internal/ingest/reconciler.go:316-347 | a concrete untracked event: deleting a directory that holds a nested root leaves that root's row for a path that is gone |
| Tracking.RunTracks | apps/search-api/internal/ingest/reconciler.go:196-250 | tracked events keep the mirror for as long as they come |
| Delivery.ExactlyOnce | apps/search-api/internal/ingest/reconciler.go:231-250 | redelivery that never skips ahead, aborted transactions included, leaves tables and jobs as delivering each event once in order does |
| Delivery.WatermarkNeverDecreases | apps/search-api/internal/store/sqlcgen/filesystem.sql.go:190-192 | no step moves the watermark back |
| Delivery.NothingReadBeforeEveryRootScanned | apps/search-api/internal/ingest/reconciler.go:156-193 | in every state of every run, a nonzero watermark means every root was scanned at least once |
| Subscription.SubscriptionIsARun | apps/search-api/internal/ingest/reconciler.go:156-229 | whatever a subscription delivers and wherever it fails, what it leaves is what some sequence of steps leaves, so every result about runs holds of it |
| Subscription.SubscriptionIsALife | apps/search-api/internal/ingest/reconciler.go:156-229 | and what some moves of the process leave, between runs again, so the bootstrap result holds after any number of subscriptions |
| Subscription.FailureEndsIt | apps/search-api/internal/ingest/reconciler.go:196-229 | nothing after a failed item is applied |
| Subscription.EndsWellIff | apps/search-api/internal/ingest/reconciler.go:156-229 | a subscription ends without an error exactly when neither its bootstrap, if it had one, nor any item failed; after a failed bootstrap no item is taken |
| Subscription.Subscriber.RunOnce | apps/search-api/internal/ingest/reconciler.go:156-193 | bootstraps exactly while the watermark is 0, stops if that fails, and then drives |
| Subscription.Subscriber.Drive | apps/search-api/internal/ingest/reconciler.go:195-229 | the loop over the stream: events applied, gaps rescanned, the first failure leaving it |
| Subscription.Subscriber.ReconcileEverything | apps/search-api/internal/ingest/reconciler.go:494-511 | one full rescan, to its end or to the root it fails at |
| Attempts.LookResolves | apps/search-api/internal/ingest/processor.go:202-258 | the reads of identity resolution followed by its one write are identity resolution |
| Attempts.UncontendedAttemptIsPromote | apps/search-api/internal/ingest/processor.go:115-191 | with nothing committed between its reads and its writes, an attempt is the atomic promotion, is not lost and is not refused by the live-path index |
| Attempts.SwapSound | apps/search-api/internal/store/sqlcgen/documents.sql.go:465-471 | a won swap started from the version really there; a lost one writes nothing at all, its re-pathing rolled back with it, and can only have drawn a version id; one the index refuses writes nothing |
| Attempts.SwapOfDocument | apps/search-api/internal/ingest/processor.go:144-177 | the row a swap leaves: re-pathed unless it was lost or refused, with the content's version if it won; refused exactly when another live document stands at the place |
| Attempts.SwapAccountsIff | apps/search-api/internal/store/sqlcgen/documents.sql.go:465-471 | a swap keeps the account of invalidations if and only if the document is live, the version read was none, or the swap does not win: the place is taken, another version is current, or that version is already the content's; all of it known before the swap |
| Attempts.SwapRevisesATombstoneIff | apps/search-api/internal/store/sqlcgen/documents.sql.go:465-471 | a swap leaves a tombstone a version it did not have if and only if it wins and the document is not live |
| Attempts.UndoneWrite | apps/search-api/internal/ingest/processor.go:155-191 | a lost or refused write leaves every table as it was; it draws a version id at most, and a document id exactly when it was to insert |
| Attempts.WriteUnique | apps/search-api/internal/store/migrations/0001_core_schema.sql:90-92 | whatever an attempt finds when it writes, live paths stay unique |
| Races.TurnsCoverAttempts | apps/search-api/internal/ingest/processor.go:115-191 | every attempt, whatever it found and whatever is committed before it writes, is two turns of a job or one turn elsewhere |
| Races.FlipsFormAChain | apps/search-api/internal/ingest/processor.go:94-191 | under any schedule of any number of jobs, each finding the document by path, inode or content and putting it anywhere, of events, scans and the writes of other documents' promotions, the flips form a chain from the document's first version to its current one; invalidated are exactly the nonzero versions left and the one it died with, extracted exactly those reached |
| Races.LiveChainIsExact | apps/search-api/internal/ingest/processor.go:155-178 | while the document lives, the invalidations are exactly the nonzero versions it was flipped away from |
| Races.GivingUpMeansOthersWon | apps/search-api/internal/ingest/processor.go:94-104 | a job gives up exactly at its third lost swap and never loses another; it loses only to as many flips by others |
| Races.ExcessIffALateFlip | apps/search-api/internal/ingest/processor.go:94-191 | over a whole race the invalidations are exactly one for each version let go of while live and one for the version died with, if and only if no flip away from a version landed after the death; and a tombstone holds another version than it died with only after some flip landed after the death |
| Races.ForgottenForever | apps/search-api/internal/store/sqlcgen/documents.sql.go:465-471 | once the document is dead and no job that read it alive has still to write, no schedule gives it another version or invalidates one it had |
| Races.RaceUnique | apps/search-api/internal/store/migrations/0001_core_schema.sql:90-92 | live paths stay unique through every race |
| Races.DeletedUnderAPromotion | apps/search-api/internal/store/sqlcgen/documents.sql.go:465-471 | the input: a document deleted between read and writes has its version invalidated twice and is left a new one, re-pathed or not |
| Races.FlippedUnderARepath | apps/search-api/internal/ingest/processor.go:216-225 | the input: a job that was to re-path the document loses to one that flips it first, and its new place is rolled back |
| Processors.Processor.Find | apps/search-api/internal/ingest/processor.go:202-258 | the reads: path, then inode, then content, with the version each reads and the place to be written |
| Processors.Processor.WriteTarget | apps/search-api/internal/ingest/processor.go:140-177 | the writes, on the state they find: re-pathing or inserting, which the index may refuse, and the swap, rolled back when lost |
| Processors.Processor.SwapVersion | apps/search-api/internal/ingest/processor.go:144-177 | the statements after the document's row stands where it should are the swap |
| Processors.Processor.Promote | apps/search-api/internal/ingest/processor.go:115-191 | one attempt: the observation read again, the document found, its version read, and the writes against whatever others have committed since, for every document found and for a new one |
| Processors.Processor.ProcessPath | apps/search-api/internal/ingest/processor.go:60-105 | the first read and its refusals, the outcome of hashing, then the retry loop: lost attempts are retried up to three, the first that is not lost ends it, and one that fails ends it with an error |
| Contents.RunKeepsIds | apps/search-api/internal/store/sqlcgen/documents.sql.go:602-607 | over every run each version is one hash's and no hash loses its version |
| Contents.RequestsAreBijective | apps/search-api/internal/service/thumbnailkey.go:11-32 | so over the requests resolved at any moments of a run, version and hash determine each other |
| ThumbnailKeys.KeysAreInjective | apps/search-api/internal/service/thumbnailkey.go:21-30 | two entries have the same object key exactly when hash, page, width, height and format agree |
| ThumbnailKeys.KeysAgree | apps/search-api/internal/service/thumbnailkey.go:11-32 | over versions and hashes that determine each other, row key, object key and entry determine one another |
| ThumbnailKeys.DecimalReadsBack | apps/search-api/internal/service/thumbnailkey.go:25-30 | decimal printing is read back exactly and holds only digits |
| ThumbnailKeys.ObjectKeyIs | apps/search-api/internal/service/thumbnailkey.go:21-30 | the stored form of a key, which objects already in the bucket depend on |
| ThumbnailKeys.RowKeyIs | apps/search-api/internal/store/sqlcgen/thumbnails.sql.go:23-30 | a row is kept under the entry's own version, page, width, height and format |
| Thumbnails.QuotaIsExactLru | apps/search-api/internal/store/sqlcgen/thumbnails.sql.go:256-276 | the quota's rows are the least set of live rows closed under being used earlier, by access time and then id, whose removal makes the rest fit |
| Thumbnails.ExpiredAreOld | apps/search-api/internal/store/sqlcgen/thumbnails.sql.go:206-213 | withdrawing what has expired withdraws exactly the live rows created before the cutoff |
| Thumbnails.BytesAddUp | apps/search-api/internal/store/sqlcgen/thumbnails.sql.go:318-319 | the total is the sum of the rows' own sizes |
| Thumbnails.OneMoreOverflows | apps/search-api/internal/store/sqlcgen/thumbnails.sql.go:285-288 | keeping the most recently used evicted row overflows the quota |
| Thumbnails.AgeThenQuota | apps/search-api/internal/jobs/cache_workers.go:225-241 | after age then quota no live row is past the cutoff and the live total fits |
| Thumbnails.OrderedSorts | apps/search-api/internal/store/sqlcgen/thumbnails.sql.go:123-128 | a listing holds each id once, in order of time and then id |
| Thumbnails.MarkWithdraws | apps/search-api/internal/store/sqlcgen/thumbnails.sql.go:81-85 | marking withdraws exactly the named live rows and keeps earlier marks |
| CacheWorkers.Cache.DrainPending | apps/search-api/internal/jobs/cache_workers.go:57-105 | the batched loop, under any set of failing deletes and any failing statement: exactly which rows are purged, which objects deleted, the count, the bytes and the verdict |
| CacheWorkers.Cache.DrainBatch | apps/search-api/internal/jobs/cache_workers.go:76-97 | one pass: its deletes, and the purge of exactly what they removed |
| CacheWorkers.Cache.DeleteObjects | apps/search-api/internal/jobs/cache_workers.go:76-92 | the inner loop deletes every object it can and remembers whether one failed |
| CacheWorkers.CleanDrainEmpties | apps/search-api/internal/jobs/cache_workers.go:72-74 | a drain that reports no error has purged every withdrawn row |
| CacheWorkers.RefusalLeaves | apps/search-api/internal/jobs/cache_workers.go:76-100 | after delete failures the withdrawn rows left are exactly the failed ones and those past that batch |
| CacheWorkers.HealthyRetryFinishes | apps/search-api/internal/jobs/cache_workers.go:45-56 | a healthy run after any failing one finishes its work and touches no live row |
| CacheWorkers.DrainConserves | apps/search-api/internal/jobs/cache_workers.go:89-92 | bytes before are the bytes purged plus the bytes that stay |
| CacheWorkers.DrainSparesLive | apps/search-api/internal/store/sqlcgen/thumbnails.sql.go:136-138 | no drain, however it fails, deletes the object of a live row |
| CacheWorkers.Cache.MarkByAge | apps/search-api/internal/jobs/cache_workers.go:265-302 | the batched loop, under a failure of any of its statements: every row is as it was but live ones created before the limit, now withdrawn, oldest first; if nothing fails no live row is past the limit; the count, the bytes and the verdict; a limit of zero or less disables it |
| CacheWorkers.StoppedAgePassTakesOldest | apps/search-api/internal/jobs/cache_workers.go:275-301 | an age pass stopped by a failure leaves nothing older than what it took |
| CacheWorkers.Cache.MarkByQuota | apps/search-api/internal/jobs/cache_workers.go:304-325 | marks exactly the quota's rows, or, if its query or its mark fails, none; a limit of zero or less disables it |
| CacheWorkers.Cache.Maintain | apps/search-api/internal/jobs/cache_workers.go:225-263 | age, quota, drain and total, each of which may fail: what is left in every case and whose error is reported; once the age pass is through no live row is past the limit, once the quota pass is what is live fits, and a row that was live is as it was, was past the limit, or was among the quota's |
| CacheWorkers.Cache.Invalidate | apps/search-api/internal/jobs/cache_workers.go:171-194 | a live row of a version in use, or not of the version named, is untouched, its object too; any other is no longer live, and on a clean drain gone with its object; a failing mark leaves everything as it was |
| CacheWorkers.Cache.SweepOrphans | apps/search-api/internal/jobs/cache_workers.go:396-443 | page by page, exactly the old objects no row names go, up to the first that cannot, the page whose query fails or the page the listing fails after |
| CacheWorkers.Cache.Sweep | apps/search-api/internal/jobs/cache_workers.go:366-394 | the same of every stale version, and the orphan pass only after a mark that succeeded and a drain that reached every object; no object of a live row it leaves is deleted |
| Invalidations.SurvivesIffShown | apps/search-api/internal/store/sqlcgen/thumbnails.sql.go:98-107 | a live row survives an invalidation if and only if a live document shows its version now or it is not of the version named |
| CacheWorkers.OrphansAreUnreferenced | apps/search-api/internal/store/sqlcgen/thumbnails.sql.go:175-184 | the sweep's candidates are exactly the listed keys old enough that no row, withdrawn or not, names |
| CacheProtocol.EveryAnswerWasRenderedForItsEntry | apps/search-api/internal/service/thumbnail.go:170-296 | under every interleaving of renders, readers, shared flights and workers, an answer is bytes some render produced for exactly the requested version, page, size and format |
| CacheProtocol.NoDrainStrandsAnObject | apps/search-api/internal/jobs/cache_workers.go:42-56 | with workers taking turns and renders anywhere, every object no row names was last put by a render whose upsert has not happened |
| CacheProtocol.PurgeKeepsAccountIff | apps/search-api/internal/store/sqlcgen/thumbnails.sql.go:158-166 | a purge keeps the bucket accounted for exactly when no row it removes names an object put by a render that recorded it |
| Strandings.NothingStrandedIff | apps/search-api/internal/store/sqlcgen/thumbnails.sql.go:158-166 | over every run, with any number of workers and no turns, no object is ever stranded if and only if no purge removes a row whose object a render has put back and recorded |
| CacheProtocol.TwoWorkersStrandAnObject | apps/search-api/internal/store/sqlcgen/thumbnails.sql.go:163-166 | without turns a purge can strand an object: the run |
| CacheRuns.DrainIsARun | apps/search-api/internal/jobs/cache_workers.go:57-105 | what the drain loop leaves of table and bucket, however it fails, is what some run of one worker's steps in the protocol leaves |
| CacheRuns.InvalidateIsARun | apps/search-api/internal/jobs/cache_workers.go:171-194 | likewise what a stale mark and the drain behind it leave |
| CacheRuns.SweepIsARun | apps/search-api/internal/jobs/cache_workers.go:366-443 | likewise what a whole sweep leaves, orphans included |
| Parties.AnyScheduleFits | apps/search-api/internal/service/thumbnail.go:212-243 | under any schedule of joins and leaves each party's count is its members, it is in the map while it has one, and it is owed or had one cancel after |
| Parties.PartyWhileWanted | apps/search-api/internal/service/thumbnail.go:218-228 | a group has a party in the map exactly when a caller has joined it and not left, and its count is how many |
| Parties.CancelledOnceAndLast | apps/search-api/internal/service/thumbnail.go:231-242 | a party is cancelled at most once, only when nobody waits on it and it has left the map, and by then exactly once |
| Parties.WaitersAreNotCancelled | apps/search-api/internal/service/thumbnail.go:212-217 | nobody still waiting has had the party's context cancelled |
| ThumbnailService.Thumbnail.Join | apps/search-api/internal/service/thumbnail.go:218-231 | the locked section of join, on the map and the party's own counter |
| ThumbnailService.Thumbnail.Leave | apps/search-api/internal/service/thumbnail.go:231-242 | the locked section of leave, removing the party only when it is the last and still the group's own |
| ThumbnailService.Thumbnail.FromCache | apps/search-api/internal/service/thumbnail.go:245-296 | a hit exactly when a live row was found and its object was there; a row without its object is a miss, a table or bucket that does not answer an error |
| ThumbnailService.Thumbnail.Render | apps/search-api/internal/service/thumbnail.go:298-379 | answers exactly when bytes were produced and both stores took them, and then the row is live and names the object |
| ThumbnailService.Thumbnail.Flight | apps/search-api/internal/service/thumbnail.go:183-190 | what a flight runs: answers exactly when the cache has the entry by now, or answers that it has not and the render is published |
| ThumbnailService.Thumbnail.Follow | apps/search-api/internal/service/thumbnail.go:192-208 | a follower takes the result of the flight of its own key, and it was rendered for its own entry |
| ThumbnailService.Thumbnail.Stay | apps/search-api/internal/service/thumbnail.go:179-210 | joining, waiting while other callers come and go, and leaving: each group is left the callers the others alone would have left it |
| ThumbnailService.Thumbnail.Load | apps/search-api/internal/service/thumbnail.go:157-210 | a caller's whole request: exactly when it is answered, that the answer was rendered for its entry, and that it changes nobody else's count; at rest each party has somebody waiting and was not cancelled, or is empty and was cancelled once |
| Supervisors.OrderIsExact | deploy/test/lib/quadlet-supervisor.py:333-350 | each selected unit is listed exactly once, cycles or not, and a selected After= dependency stands first unless it depends on the unit in turn |
| Supervisors.AcyclicOrder | deploy/test/lib/quadlet-supervisor.py:333-350 | a dependency that does not lead back stands before its dependent |
| Supervisors.FailuresPropagateExactly | deploy/test/lib/quadlet-supervisor.py:293-325 | from an empty state, for all outcomes of the units' commands a unit is skipped exactly when it reaches a failed unit through Requires= and then its ExecStart never ran, if and only if the start order puts every selected requirement before what requires it |
| Supervisors.SoundUnitsPropagate | deploy/test/lib/quadlet-supervisor.py:26-30 | it does when every Requires= is also an After= that does not lead back |
| Supervisors.RequiresAloneDoesNotHold | deploy/test/lib/quadlet-supervisor.py:26-30 | without After= it does not: two units, the order they get, and outcomes under which the dependent starts although its requirement fails |
| Supervisors.CycleDoesNotHold | deploy/test/lib/quadlet-supervisor.py:333-350 | nor with After= on a cycle: two units, and the order that starts one before what it requires |
| Supervisors.NotSkippedMeansRun | deploy/test/lib/quadlet-supervisor.py:300-325 | a unit that is not skipped is started exactly when its commands are ready and failed otherwise, and its ExecStart ran unless what precedes it failed |
| Supervisors.Walker.VisitUnit | deploy/test/lib/quadlet-supervisor.py:338-346 | the recursive visit and its loop |
| Supervisors.Walker.OrderUnits | deploy/test/lib/quadlet-supervisor.py:333-350 | the outer loop, each walk starting with nothing seen |
| Supervisors.Supervisor.FindBlockers | deploy/test/lib/quadlet-supervisor.py:294-298 | exactly the requirements on record as failed or skipped |
| Supervisors.Supervisor.StartOne | deploy/test/lib/quadlet-supervisor.py:293-325 | skip, fail or start one unit, and whether its ExecStart ran |
| Supervisors.Supervisor.CmdStart | deploy/test/lib/quadlet-supervisor.py:366-373 | every selected unit in order; the exit code says whether any on record failed |
| Base64.RoundTrip | apps/search-api/internal/service/token.go:49-64 | every byte sequence comes back from its own unpadded base64url encoding |
| Base64.DecodeAcceptsExactly | apps/search-api/internal/service/token.go:64-70 | exactly which strings decode |
| Base64.EncodeIsInjective | apps/search-api/internal/service/token.go:49-51 | different bodies get different tokens |
| Base64.LettersAre | apps/search-api/internal/service/token.go:49-51 | the letters are the URL-safe alphabet in its order |
| Base64.LettersOnly | apps/search-api/internal/service/token.go:64 | exactly which characters carry six bits, and which are skipped |
| Base64.PackIsBits | apps/search-api/internal/service/token.go:51 | the letters' values are the body's own bits in order, the last padded with zeros |
| Base64.UnpackIsBits | apps/search-api/internal/service/token.go:64 | the bytes are the letters' bits, whatever the padding holds |
| Paging.TokenReadsBack | apps/search-api/internal/service/token.go:44-94 | a token is accepted for its own query exactly when its offset is in range, and gives back that offset; for another digest it is refused |
| Paging.DecodePageToken | apps/search-api/internal/service/token.go:60-94 | an accepted offset lies between 0 and the paging limit |
| Paging.NarrowingNeverWraps | apps/search-api/internal/service/search.go:84-88 | neither the offset nor the limit is changed by the int32 narrowing |
| Paging.ResolvePageSize | apps/search-api/internal/service/search.go:126-132 | between 1 and 100, the requested size when that is in range, 20 when none is asked for, 100 when more is |
| Paging.Search | apps/search-api/internal/service/search.go:56-124 | the page, its refusals, and the next token decided by one row past the page |
| Paging.SearchAnswers | apps/search-api/internal/service/search.go:56-124 | an issued token answers with the rows from its offset on, as many as the page holds, and leads on exactly when rows are left; no size asks for 20, over 100 for 100; a blank query is refused |
| Paging.FollowingCollectsEverything | apps/search-api/internal/service/search.go:80-122 | with any page size per request, following tokens ends and the pages concatenate to exactly the list |
| Paging.CollectsEverythingIff | apps/search-api/internal/service/token.go:40-42 | and that holds for every choice of page sizes exactly when the list has at most 2^30 + 1 rows |
| Snippets.SplittingInvertsPrinting | apps/search-api/internal/service/search.go:158-202 | splitting gives back any non-empty list of non-empty segments, plain ones free of the opening and highlighted ones of the closing marker, no two plain ones adjacent |
| Snippets.ProperCutIsUnique | apps/search-api/internal/service/search.go:177-196 | an excerpt is made of plain and highlighted stretches in exactly one proper way, and the loop finds it |
| Snippets.TextIsKeptIff | apps/search-api/internal/service/search.go:158-202 | the texts concatenate to the excerpt without its complete marker pairs if and only if the excerpt is not one or more empty highlights and nothing else |
| Snippets.SegmentsKeepTheText | apps/search-api/internal/service/search.go:198-200 | either the texts are the excerpt without its complete marker pairs, or it shows nothing and comes back whole, markers included |
| Snippets.MarkersStay | apps/search-api/internal/service/search.go:198-200 | the input: one empty highlight |
| Snippets.SnippetSegments | apps/search-api/internal/service/search.go:165-202 | the loop ends on every string and yields those segments |
| Migrations.LoadMigrations | apps/search-api/internal/store/migrate.go:268-313 | succeeds exactly when every file parses and no version repeats, and then lists them in strict version order; a refusal names the first file that does not parse or version that repeats |
| Migrations.NamedFileLoads | apps/search-api/internal/store/migrate.go:315-329 | a file named with a positive version, however padded, an underscore and a name is that migration with the checksum of its body |
| Migrations.MigrationFilesEndInSql | apps/search-api/internal/store/migrate.go:278-282 | exactly the plain files whose name ends in .sql |
| Migrations.LoadedIsNamed | apps/search-api/internal/store/migrate.go:315-329 | and nothing else loads |
| Migrations.IntsAreDigits | apps/search-api/internal/store/migrate.go:321-324 | exactly which prefixes are numbers |
| Migrations.SortingIsUnique | apps/search-api/internal/store/migrate.go:306-311 | with distinct versions there is one sorting, whatever sort is used |
| Migrations.AnyRunsKeepAPrefix | apps/search-api/internal/store/migrate.go:88-143 | any number of runs, each stopped anywhere, keeps the recorded versions a checksum-matching prefix with each of those bodies committed exactly once |
| Migrations.UnstoppedRunFinishes | apps/search-api/internal/store/migrate.go:121-142 | a run that is not stopped then applies exactly the rest |
| Migrations.StatusAgreesWithUp | apps/search-api/internal/store/migrate.go:145-187 | on any database, nothing is pending or drifted exactly when Up would succeed applying nothing |
| Migrations.Migrator.RunUp | apps/search-api/internal/store/migrate.go:88-143 | the loop over the embedded list against what was recorded as it began |
| Migrations.Migrator.ApplyOne | apps/search-api/internal/store/migrate.go:195-215 | body and record commit together or not at all |
| Migrations.Migrator.ReadStatus | apps/search-api/internal/store/migrate.go:147-187 | one status for each embedded migration; a database without the table is fully pending |

## Left out

- READ COMMITTED interleavings between the statements of one event's or one scan's transaction.
- The include filter's string rules: an arbitrary predicate on paths.
- SHA-256, NFKC, BM25 scoring, JSON and the query digest: parameters, the first assumed injective.
- River: uniqueness windows, debouncing, retries and the order of jobs.
- Timestamps are integers, and one run of a cache worker reads the clock once.
- The gRPC stream itself, its gap kinds, the backoff between runs and `warnOnRootMismatch`: a subscription is the list of items it delivers.
- A walk lists each path once and carries no errors of its own; a failing walk is a scan that aborts.
- Hashing a file and sniffing its content: what they come to (vanished, unreadable, not indexed, a digest) is an input.
- The grace period of the orphan sweep in the interleaved protocol, which lets the sweep run at any moment; the sequential sweep has its cutoff.
- Object deletes that report failure after removing the object, and statements that report failure after committing.
- TouchThumbnail's effect on the LRU order between reads, and the render limit and render lifetime.
- Unit files: generation, parsing, specifiers, Exec lines, health probes and timeouts. A unit's own commands are an outcome; the selected names arrive sorted.
- Stop, print and status commands of the supervisor; the saved state is the state field.
- River's own migrations, and the advisory lock: runs of Up are one after another.
- SearchDocuments and CountSearchDocuments: a fixed ordered list, and no estimate.
- Quantization of thumbnail sizes, page-count parsing, gRPC, object-store, database and HTTP plumbing, logging, configuration.
- Replay.ScanPlusReplayIsExact: excludes directory moves and the deletion of a directory with a nested watched root inside the scan window, because the code does not keep the mirror across them; Tracking.EventTracksIff says exactly when a single event does.
- Tracking.EventTracksIff: a directory move is one a filesystem can report, neither end inside the other and no path ending in a slash.
- Rename.RenameBackRestoresDocuments: into an empty destination with neither directory inside the other; otherwise what was overwritten is withdrawn for good.
- Races.FlipsFormAChain: events and scans are one step each.
- Processors.Processor.Promote: its reads, from the observation to the content lookup, see one state, and its writes another; in the race each read stands alone.
- CacheProtocol.NoDrainStrandsAnObject: assumes cache workers take turns, which the two-worker run shows is needed; Strandings.NothingStrandedIff is exact without turns.
- CacheWorkers.Cache.MarkByAge: a whole run uses one withdrawal time, and rows created at the same instant are taken in order of id, where the query leaves ties open.
