# Verified models of pos2

A Dafny project that models the stateful cores of the pos2 workspace and proves what holds
of them in every run. `dafny verify dfyconfig.toml` checks all of it.

The parts, hardest first:

- **Replicated SQLite** (`replsqlite`). One server keeps a snapshot, a version and an
  append-only log of page transactions. Each open connection is a client with its own copy
  of the database, its own write-ahead log and lock counters. The first lock pulls the log
  suffix; the last unlock cuts the write-ahead log into transactions and offers them with an
  optimistic version check. `Replication.dfy` is the protocol as a state machine over bytes,
  `ReplicationRuns.dfy`, `ReplicationResets.dfy` and `ReplicationCommit.dfy` hold the theorems over
  all interleavings, and `ReplicationImpl.dfy` has the server and client objects with their loops, proved against the same functions.
  `PageStore.dfy`, `WalFormat.dfy`, `WalReset.dfy` and `Checksum.dfy` are the algorithms
  below it.
- **Self-updating loader** (`dockerloader`). A supervisor and the application that it
  spawns, talking through three symlinks, a marker file and exit code 42, over an image
  storage with download, extraction and cleanup. Every filesystem call is a step, and a
  crash of both processes can happen between any two of them. `LoaderRuns.dfy` has the safety
  theorems, `LoaderUpdates.dfy` what an update stores, `LoaderTrials.dfy` and `LoaderCommits.dfy` how
  trials end, what runs next and what the marker means, `LoaderBlockedUpdate.dfy`
  when updates get stuck, and `LoaderScenarios.dfy` the steps of the concrete runs.
- **Guest transactions** (`wasi3experiment/src/sqlite.rs`), the **tunnel connection table**
  (`tunnel/src/server.rs`), the **application reconcile loop** (`wasi3experiment/src/main.rs`)
  and the **name-to-path encoding** (`server/src/main.rs`).

## How the models are built

State machines are written as `Enabled` and `Next` over values. A run is any sequence of
states from the initial one in which each state follows from the last by an enabled action,
so every theorem about runs is about every interleaving of any number of clients, handlers or
crashes. Main theorems say what they mean in terms of states and actions of the run and do not
rely on history variables in the model, except for the guest transactions, where the history is
computed from calls and replies alone. Where the source has an object or a loop, a class with the
same fields and loops is proved to take only steps of the machine.

Replication steps are whole calls under the client's mutex, with one exception: the last unlock
makes one server call for each transaction it offers, so it is one step for each offer and
other clients can commit in between. A pull and an open make a single server call each and are
one step. A client can go away at any time, also between two of its offers.
`ReplicationImpl.EndTxIsSteps` shows that the unlock method of the client object is a
run of those single steps.

What the models assume of their environment is in `Enabled` and in `requires`:

- SQLite writes to the write-ahead log only while it holds the write lock, its unlocks match its
  locks, it never truncates the log below its header, and at the last unlock after a write lock
  the log is a header and whole frames for pages numbered from 1. The code panics otherwise.
- Page data has 4096 bytes.
- Arithmetic is that of a release build: `salt1 + 1` wraps (`vol_file.rs:462`); a debug build
  panics at the largest salt. Host byte order is a parameter.
- Versions are unbounded (`u64` in the code), as are the lock counters (`i32`).
- A deletion in the loader either happens or the process dies; writing the marker file is
  atomic; an application calls `mark_ready` before it checks for updates and runs one check at a
  time; every complete image has an `entrypoint` file. A directory removal can stop half way.
- BEGIN, COMMIT and ROLLBACK succeed, guest SQL has no transaction control, and a failing
  statement changes nothing.

## Where the code differs from what is said of it

- `dockerloader/README.md` says that the previous version is restored when a trial times out or
  fails. The supervisor does that by itself if and only if the trial exited with code 42
  (`LoaderTrials.RestoredIffExit42`). After a timeout or any other exit it ends
  (`LoaderTrials.TimedOutTrial`, `LoaderTrials.ExitedTrial`); whenever it is started again, what it
  spawns next is the previous version (`LoaderTrials.PreviousVersionRunsNext`).
- The supervisor lets a trial run on once it has committed, but it looks before it kills. A trial
  that commits between the look and the kill is killed all the same, after it has become the
  installed image (`LoaderCommits.KilledAfterCommit`), and this is the only case
  (`LoaderCommits.CommittedTrialIsKilledIff`).
- The marker is documented as the image of a failed update. The code writes it before the attempt
  is published. A marked image has had its trial or has it pending if and only if the attempt was
  published (`LoaderTrials.MarkedIsTriedIffPublished`); a run that stops in between leaves an image
  marked that was never tried (`LoaderTrials.UntriedImageIsReachable`), and every check skips it
  until another image is marked (`LoaderTrials.UntriedImageIsSkipped`).
- Updates can get stuck. A crash between making the temporary `entrypoint-attempt.tmp` link and
  renaming it leaves the link behind; the next start cleans up the image it points to; from then
  on the existence probe follows the dangling link and answers no, and making the link again
  fails. `LoaderBlockedUpdate` gives the exact condition, a run that gets there, and how long it
  lasts.
- `name_to_path` is not injective on the names that `check_name` accepts
  (`NamePath.CollidingNames`). Which valid names share their path with another one is decided by a
  few neighbouring characters (`NameCollisions.RivalIffAmbiguous`): a `/-` followed by something
  other than a slash, a `-/` after a label character, a `/-/` when there is another slash, or a `--`
  between label characters with no dot after it. Among names with no slash directly before a dash there are no
  collisions, and a decoder by dash parity gives back exactly those.

## Model

| member | source | states |
|---|---|---|
| ReplicationRuns.NoLostUpdate | replsqlite/src/replvfs/vol_file.rs:386-451 | whenever the server log grows, it grows by the first transaction in the log of a client whose session began, at its first lock, with an empty log on exactly the server log now being extended; its copy was the replay of that log ever since and nobody else committed meanwhile |
| ReplicationRuns.ReplicaConsistency | replsqlite/src/replvfs/vol_file.rs:257-289 | in every state the snapshot is the replay of the whole log, entry i has version i + 1, and every client's copy is the replay of exactly the prefix it knows, whether it joined by snapshot or by pulling |
| ReplicationRuns.RefusedFramesNeverCommit | replsqlite/src/replvfs/vol_file.rs:433-448 | what a client commits after a refusal comes from a session that began after the refusal, with an empty log |
| ReplicationRuns.UnlockedLogIsEmptyOrStale | replsqlite/src/replvfs/vol_file.rs:369-394 | with no lock held a client's log is header-only or the server is ahead of it |
| ReplicationRuns.SessionLogIsItsWrites | replsqlite/src/replvfs/vol_file.rs:869-899 | within a session the client's log is the result of that session's own log writes on the empty log it began with |
| ReplicationRuns.SnapshotStability | replsqlite/src/replvfs/vol_file.rs:386-394 | while a client stays engaged its copy and its version do not change, whatever others commit |
| ReplicationRuns.ReadYourWrites | replsqlite/src/replvfs/vol_file.rs:369-384 | a first lock after a client's own accepted commit leaves it with the replay of the whole log, which contains that commit |
| ReplicationRuns.OneCommitPerSession | replsqlite/src/replvfs/vol_file.rs:403-443 | between two accepted offers of a client there is a new first lock that began the second one's session |
| ReplicationRuns.AcceptedIffNobodyCommitted | replsqlite/src/replvfs/vol_file.rs:274-288 | an offer is accepted if and only if the server log is still the one that the session began on |
| ReplicationRuns.LocksAreCounted | replsqlite/src/replvfs/vol_file.rs:745-807 | in every run presence, byte order, lock counters and write mark of a connection are those that an observer of its calls alone would keep: locks taken less locks given up, and the mark set by a write lock and cleared only by an unlock without refusal |
| ReplicationCommit.AnyTransactionCanCommit | replsqlite/src/replvfs/vol_file.rs:386-451 | at the end of any run any unlocked connection can commit any transaction by locking, writing its frames behind the header and unlocking, and the server log then grows by exactly that transaction |
| ReplicationResets.OpenLeavesFreshFiles | replsqlite/src/replvfs/vol_file.rs:589-613 | a new client has the snapshot, no locks and no mark, and log and wal-index are consistent with that snapshot |
| ReplicationResets.FirstLockLeavesFreshFiles | replsqlite/src/replvfs/vol_file.rs:369-384 | a first lock that brings something leaves log and wal-index consistent with the copy after all changes; one that brings nothing leaves log, wal-index and copy as they were |
| ReplicationResets.FinishLeavesFreshFiles | replsqlite/src/replvfs/vol_file.rs:445-448 | an unlock that ends without a refusal leaves log and wal-index consistent with the client's copy and the write mark cleared |
| ReplicationResets.ResetLeavesFreshFiles | replsqlite/src/replvfs/vol_file.rs:453-537 | a reset of any client leaves a log and a wal-index that verify, agree with that client's own database and have the next salts |
| ReplicationRuns.CleanUnlockHadOneTransaction | replsqlite/src/replvfs/vol_file.rs:433-448 | an unlock that ends without a refusal had at most one transaction in its log |
| ReplicationRuns.LogIsAppendOnly | replsqlite/src/replvfs/vol_file.rs:274-288 | an earlier server log is a prefix of every later one |
| ReplicationRuns.ReadsReturnReplayedPages | replsqlite/src/replvfs/vol_file.rs:678-711 | in every reachable state every aligned read of a client is in range and returns the page of the page-level replay of its log prefix |
| Replication.NextPreservesInv | replsqlite/src/replvfs/vol_file.rs:745-807 | every action of every client keeps the protocol invariant and only extends the log |
| Replication.PullCatchesUp | replsqlite/src/replvfs/vol_file.rs:369-384 | a pull takes a replica of any prefix to the whole log and leaves its own log empty; with nothing new it changes nothing |
| Replication.AcceptedCommit | replsqlite/src/replvfs/vol_file.rs:274-288 | a commit is accepted exactly at the current version, then appends one numbered change and keeps the snapshot the replay; a refusal changes nothing |
| Replication.ChangesAfterIsSuffix | replsqlite/src/replvfs/vol_file.rs:263-272 | on a numbered log the changes after version v are the suffix at v |
| Replication.ReplayConcat | replsqlite/src/replvfs/vol_file.rs:372-376 | replaying a prefix and then the rest is replaying the whole |
| ReplicationImpl.UnlockAppendsAtMostOne | replsqlite/src/replvfs/vol_file.rs:396-451 | one full unlock appends the first transaction of the log if the client is current and otherwise nothing, and succeeds exactly when there was nothing to offer or that single transaction was accepted |
| ReplicationImpl.EndTxIsSteps | replsqlite/src/replvfs/vol_file.rs:769-801 | a whole unlock is the protocol's unlock step followed by its single offers and its finish |
| ReplicationImpl.LockIsStep | replsqlite/src/replvfs/vol_file.rs:745-795 | what a lock call does to client and server is the protocol's lock step, which is always possible outside an unlock |
| ReplicationImpl.DbServerData.GetChangesAfter | replsqlite/src/replvfs/vol_file.rs:263-272 | the loop returns the log entries above the version, in order |
| ReplicationImpl.DbServerData.CommitChange | replsqlite/src/replvfs/vol_file.rs:274-288 | the new server state and the result are those of the protocol's commit |
| ReplicationImpl.DbClient.constructor | replsqlite/src/replvfs/vol_file.rs:589-613 | a new client has the server's snapshot and version and a freshly reset log |
| ReplicationImpl.DbClient.PullChanges | replsqlite/src/replvfs/vol_file.rs:369-384 | applies every newer change in order and resets the log exactly if there was one |
| ReplicationImpl.DbClient.OfferTransactions | replsqlite/src/replvfs/vol_file.rs:403-443 | the scan with its moving start offers exactly the transactions of the log, in order, until one is refused |
| ReplicationImpl.DbClient.MaybeEndTx | replsqlite/src/replvfs/vol_file.rs:396-451 | server, client and result after the call are those of a whole unlock; after a refusal the log and the write mark are kept |
| ReplicationImpl.DbClient.ShmLock | replsqlite/src/replvfs/vol_file.rs:745-807 | checkpoint and recovery locks and locks in the wrong mode are busy, unlocks in the wrong mode are bad, and all of them change nothing; the others are the protocol's locks and unlocks |
| ReplicationImpl.DbClient.ResetWal | replsqlite/src/replvfs/vol_file.rs:453-537 | the client after the call is the protocol's client after a reset, whose files ResetLeavesFreshFiles describes; everything else of it is unchanged |
| ReplicationImpl.DbClient.SetIndex | replsqlite/src/replvfs/vol_file.rs:60-67 | both header copies are written and the rest of the page is kept |
| ReplicationImpl.DbClient.SetTail | replsqlite/src/replvfs/vol_file.rs:69-75 | the tail is written and the rest of the page is kept |
| ReplicationImpl.DbClient.WriteWal | replsqlite/src/replvfs/vol_file.rs:875-881 | the new log is the old one extended with zeros as needed and overwritten at the offset |
| PageStore.ApplyTxRefinesPages | replsqlite/src/replvfs/vol_file.rs:325-335 | the pages of the new bytes are the page map's: last write, else old page, else zeros, with min(max(old count, highest page), size after) pages; alignment is kept |
| PageStore.ApplyTxLoop | replsqlite/src/replvfs/vol_file.rs:325-335 | the growing and overwriting loops compute the byte-level transaction |
| PageStore.LastWriteIsLast | replsqlite/src/replvfs/vol_file.rs:326-332 | a page holds the write after which no other write touches it |
| PageStore.UnwrittenPageIsKept | replsqlite/src/replvfs/vol_file.rs:326-332 | a page that is not written keeps its content |
| PageStore.PagesDetermineBytes | replsqlite/src/replvfs/vol_file.rs:325-335 | aligned databases with the same pages are the same bytes, so the page map loses nothing |
| PageStore.ReadPage | replsqlite/src/replvfs/vol_file.rs:678-711 | an aligned read returns the start of that page of the page map, zeros past the end |
| WalFormat.WalRoundTrip | replsqlite/src/replvfs/vol_file.rs:403-443 | for any transactions laid out as frames, with any header, salts, checksums and uncommitted tail, the scan gives back exactly those transactions: page numbers and pages of their frames in order, the commit size of the last, and nothing of the tail |
| WalFormat.ScanIsComplete | replsqlite/src/replvfs/vol_file.rs:403-443 | every well-formed log is the layout of exactly the transactions the scan finds in it plus an uncommitted tail |
| WalFormat.ExtractWritesFromWal | replsqlite/src/replvfs/vol_file.rs:338-363 | the loop returns the page writes of the frames between two positions, in order |
| WalFormat.EveryTransactionHasFrames | replsqlite/src/replvfs/structs.rs:111-122 | every transaction with a write and a commit size is the transaction of some frames |
| WalFormat.FramesDecodeBack | replsqlite/src/replvfs/structs.rs:111-122 | encoded frames decode to themselves |
| WalFormat.FramesEncodeBack | replsqlite/src/replvfs/structs.rs:111-122 | decoded frames encode to the same bytes |
| WalFormat.WalWriteBytes | replsqlite/src/replvfs/vol_file.rs:875-881 | every byte of the log after a write: the data, the old byte, or zero in a gap |
| WalFormat.WalWriteReadsBack | replsqlite/src/replvfs/vol_file.rs:860-881 | a read at the place of a write returns what was written |
| WalReset.ResetIsSelfConsistent | replsqlite/src/replvfs/vol_file.rs:453-537 | from any log of at least 32 bytes a reset leaves a 32-byte log and a wal-index header in which every field has its documented value, both checksums are the Fibonacci-weighted sums of what they cover, the page count is the database's, the first salt has counted up, and the rest of the page is untouched |
| WalReset.ConsecutiveSaltsDiffer | replsqlite/src/replvfs/vol_file.rs:458-464 | the first salt changes with every reset unless it was zero |
| WalReset.MakeHeader | replsqlite/src/replvfs/vol_file.rs:466-485 | the header with its checksum computed by the loop over little-endian words and stored big-endian |
| WalReset.MakeInfo | replsqlite/src/replvfs/vol_file.rs:487-511 | a wal-index copy with its checksum computed by the loop in host byte order |
| Checksum.OnePairIsDetected | replsqlite/src/replvfs/vol_file.rs:540-561 | equally long inputs that differ in exactly one word pair have different checksums |
| Checksum.ExactlyOnePairReaches | replsqlite/src/replvfs/vol_file.rs:540-561 | between any prefix and suffix exactly one word pair gives any wanted checksum |
| Checksum.StepIsBijectiveOnStates | replsqlite/src/replvfs/vol_file.rs:547-558 | for fixed words the step has an inverse on states, on both sides |
| Checksum.StepIsBijectiveOnPairs | replsqlite/src/replvfs/vol_file.rs:547-558 | for a fixed state exactly one word pair leads to each next state |
| Checksum.Concatenation | replsqlite/src/replvfs/vol_file.rs:540-561 | the checksum of a concatenation continues from the state after the prefix |
| Checksum.ChecksumIsFibonacci | replsqlite/src/replvfs/vol_file.rs:540-561 | for every input the two sums are the words weighted by Fibonacci numbers in reverse order, modulo 2^32, the first without the last word (section 4.2 of the SQLite Database File Format) |
| Checksum.ComputeChecksum | replsqlite/src/replvfs/vol_file.rs:540-561 | the loop computes those two weighted sums |
| LoaderRuns.EntrypointSafety | dockerloader/src/lib.rs:338-440 | in every state reachable with crashes anywhere, the entrypoint once installed and the attempt whenever it exists resolve to completely extracted images |
| LoaderRuns.SpawnsOnlyWholeImages | dockerloader/src/main.rs:53-113 | whatever the supervisor is about to execute exists and is completely extracted |
| LoaderRuns.StorageStaysConsistent | dockerloader/src/lib.rs:148-271 | at every step of download, extraction and cleanup every manifest under its final name has all its layer blobs |
| LoaderRuns.CompletedCleanupIsExact | dockerloader/src/lib.rs:200-271 | a completed cleanup, whatever the supervisor does meanwhile, leaves exactly the running image, its manifest, and the blobs that are the manifest's configuration or layers |
| LoaderUpdates.CleanupComesBeforeChecks | dockerloader/src/lib.rs:414-440 | between the start of an application, or its latest mark_ready, and any check for updates a cleanup has been completed |
| LoaderUpdates.UpdateStoresExactly | dockerloader/src/lib.rs:70-198 | an update that gets to its marker has added exactly one manifest, its layer blobs and, unless it was there, the complete image, and left nothing temporary |
| LoaderRuns.AtMostOneTrial | dockerloader/src/lib.rs:299-387 | between two trials of the same image the marker was written for another image |
| LoaderRuns.EntrypointMovesOnlyByCommit | dockerloader/src/lib.rs:414-430 | the entrypoint changes only at the first install and when a running trial commits, and then to that trial's image |
| LoaderRuns.UncommittedTrialsRollBack | dockerloader/src/main.rs:85-122 | over any stretch of a run with no commit in it, crashes and restarts included, the installed image stays the same |
| LoaderRuns.ExtractionFindsItsLayers | dockerloader/src/lib.rs:187-195 | in every state of every run in which supervisor or application is unpacking an image, its next layer is there to unpack, or the directory can be published |
| LoaderRuns.ExtractionCompletes | dockerloader/src/lib.rs:169-198 | every run that is in the middle of an extraction can be continued by that extraction alone to the completely extracted image, in one step for each layer left and the publication |
| LoaderCommits.CommittedTrialIsKilledIff | dockerloader/src/main.rs:85-105 | a committed trial is killed if and only if the supervisor had found it uncommitted before the commit; otherwise the supervisor waits for it |
| LoaderCommits.CommittedTrialRunsOn | dockerloader/src/main.rs:85-105 | unless it came that late, a committed trial runs on until it exits or the system crashes, and after the timeout the supervisor just waits |
| LoaderCommits.CommitClearsMarker | dockerloader/src/lib.rs:419-430 | after a commit the marker is gone as soon as the application is past removing it, until another is written |
| LoaderCommits.KilledAfterCommit | dockerloader/src/main.rs:89-97 | a run in which a trial commits and is then killed |
| LoaderCommits.NextSpawn | dockerloader/src/main.rs:35-122 | after any child has ended the next spawn is a trial of the pending attempt if there is one and otherwise the installed image; after exit code 42 it comes with the next steps |
| LoaderCommits.SpawnNeedsRestartOr42 | dockerloader/src/main.rs:115-122 | between two children there is an outside restart, or the first exited with code 42 and nothing crashed since |
| LoaderCommits.CommittedImageRunsNext | dockerloader/src/main.rs:35-122 | after a committed trial exits with code 42 its image runs next without a trial, unless it has published an attempt, which is tried |
| LoaderTrials.UncommittedTrialEnds | dockerloader/src/main.rs:85-122 | when the supervisor ends a trial that did not commit, the image from before is installed, no attempt is pending, and the supervisor is at its loop head after exit code 42 and down otherwise |
| LoaderTrials.PreviousVersionRunsNext | dockerloader/src/main.rs:35-122 | the next child after an uncommitted trial, over any crashes and restarts, is the image installed before it and not a trial; without an outside restart it comes only after exit code 42, and then at once unless a crash comes first |
| LoaderTrials.RestoredIffExit42 | dockerloader/src/main.rs:115-122 | the supervisor can bring the previous version up by itself if and only if the trial ended with exit code 42 |
| LoaderTrials.TimedOutTrial | dockerloader/src/main.rs:89-97 | a run whose trial times out and after which the previous version does not come up by itself |
| LoaderTrials.ExitedTrial | dockerloader/src/main.rs:115-122 | runs whose trial exits early with and without the restart code; the previous version comes up by itself only in the first |
| LoaderTrials.MarkedIsTriedIffPublished | dockerloader/src/lib.rs:369-386 | after an image is marked and until another marker is written, it has been tried or its attempt is pending if and only if an attempt was published |
| LoaderTrials.UntriedImageIsSkipped | dockerloader/src/lib.rs:353-356 | an image marked but not published is skipped by every later check and never tried, over any crashes and starts, until another image is marked |
| LoaderTrials.UntriedImageIsReachable | dockerloader/src/lib.rs:369-371 | a run that ends with an image marked, no attempt, the system down, and no trial of that image anywhere in it |
| Loader.NextKeepsInv | dockerloader/src/main.rs:23-123 | every step of supervisor and application and every crash keeps the invariant of disk and processes |
| LoaderStorage.CleanKeeps | dockerloader/src/lib.rs:200-271 | every single step of a cleanup keeps manifests with their layers and the kept image, its manifest and its blobs as they were |
| LoaderStorage.JobKeeps | dockerloader/src/lib.rs:70-198 | every single step of a download or extraction keeps manifests with their layers and breaks no extracted image |
| LoaderStorage.CleanedIsExact | dockerloader/src/lib.rs:200-271 | the end of all phases is the store with exactly the kept image and its blobs |
| LoaderStorage.CleanedSpelledOut | dockerloader/src/lib.rs:216-271 | that store for any set of kept images, name by name: kept directories and manifests, and blobs that are configuration or layer of a kept manifest |
| LoaderStorage.CleanupStorage | dockerloader/src/lib.rs:200-271 | the loops, for any set of images to keep, leave exactly those images and the blobs they name |
| LoaderStorage.CollectReferences | dockerloader/src/lib.rs:218-232 | the loop collects exactly the digests named by the manifests of kept images |
| LoaderStorage.Directory.CleanTmp | dockerloader/src/lib.rs:30-68 | the two loops leave exactly the entries with final names, unchanged |
| LoaderBlockedUpdate.UpdateBlockedByDanglingLink | dockerloader/src/lib.rs:373-383 | the steps from the probe of the temporary link on can lead to the attempt being in place if and only if that link is absent or its image is there |
| LoaderBlockedUpdate.NoUpdateWhileStuck | dockerloader/src/lib.rs:373-386 | from then on no attempt is published until that very image is extracted again |
| LoaderBlockedUpdate.BlockedUpdateIsReachable | dockerloader/src/lib.rs:369-383 | a run with one crash that ends with an update marked and no way to put its attempt in place |
| GuestTransactions.TransactionsAreSerial | wasi3experiment/src/sqlite.rs:90-267 | in every interleaving of calls the flag is up exactly when one handle is running, and the committed database is the plain statements and the whole committed transactions one after another |
| GuestTransactions.AnswersAreSerial | wasi3experiment/src/sqlite.rs:91-143 | a statement on a handle traps if the handle is not known, is refused exactly if it has ended, and otherwise is answered on the committed units and the handle's own statements; a plain statement is refused exactly if some handle is open and otherwise answered on the committed units |
| GuestTransactions.BeginIsExact | wasi3experiment/src/sqlite.rs:206-221 | a begin gets a new handle if and only if every handle granted before has been committed, rolled back or dropped |
| GuestTransactions.EndsAreExact | wasi3experiment/src/sqlite.rs:145-200 | commit and rollback succeed exactly on an open handle, are refused exactly on an ended one and trap on an unknown one; a drop succeeds exactly on a known one |
| GuestTransactions.TableIsWhatWasGranted | wasi3experiment/src/sqlite.rs:145-221 | the table holds exactly the handles granted and not dropped, running exactly if not ended, by calls and replies alone |
| GuestTransactions.StepKeepsInv | wasi3experiment/src/sqlite.rs:90-267 | every call keeps the connection and the handle table in agreement with the observed history |
| GuestTransactions.SqliteHost.BeginTx | wasi3experiment/src/sqlite.rs:206-221 | new state and reply of a begin; like every call it keeps the committed database equal to the serial history of the calls so far |
| GuestTransactions.SqliteHost.RunInTx | wasi3experiment/src/sqlite.rs:126-143 | new state, reply and history of a statement on a handle |
| GuestTransactions.SqliteHost.RunPlain | wasi3experiment/src/sqlite.rs:254-267 | new state, reply and history of a statement outside a transaction |
| GuestTransactions.SqliteHost.EndTx | wasi3experiment/src/sqlite.rs:145-181 | new state, reply and history of a commit or rollback |
| GuestTransactions.SqliteHost.DropTx | wasi3experiment/src/sqlite.rs:183-200 | new state, reply and history of dropping a handle, with rollback if it was running |
| TunnelTable.TableMatchesHandlers | tunnel/src/server.rs:75-99 | in every interleaving each table entry has a handler of its domain still waiting on it, and every registered connection not in the table is closed |
| TunnelTable.EntryIsLastRegistration | tunnel/src/server.rs:79-96 | the entry of a domain is c if and only if c was registered last for it and its handler has not finished since |
| TunnelTable.ClosedIffReplacedOrLeft | tunnel/src/server.rs:80-85 | a connection is closed if and only if its peer closed it or a later registration for its domain replaced it |
| TunnelTable.FinishNeverRemovesReplacement | tunnel/src/server.rs:87-96 | a finishing handler leaves a replacement in the table, with its handler still waiting |
| TunnelTable.OneOpenConnectionPerDomain | tunnel/src/server.rs:79-85 | of all connections registered for a domain at most one is open |
| TunnelTable.NothingIsLeftBehind | tunnel/src/server.rs:87-96 | when all handlers have finished the table is empty |
| TunnelTable.ConnectionsMap.Enter | tunnel/src/server.rs:80-85 | the first critical section is the register step of the table machine and keeps its invariant |
| TunnelTable.ConnectionsMap.Leave | tunnel/src/server.rs:88-96 | the second critical section is the finish step of the table machine and keeps its invariant |
| Reconcile.AppSync.SyncPass | wasi3experiment/src/main.rs:267-316 | one pass of the loop is a run of single steps, in any iteration order, and leaves the table exactly the listing; unchanged files keep their instance and new or changed ones get a new one |
| Reconcile.AppSync.SyncApps | wasi3experiment/src/main.rs:264-331 | the loop over any listings is a run of single steps that goes through exactly those listings |
| Reconcile.AppSync.RemoveMissing | wasi3experiment/src/main.rs:270-284 | the removal loop takes one step for each name whose file is gone and then goes on to the comparison |
| Reconcile.TableFollowsListing | wasi3experiment/src/main.rs:264-316 | in every run of single steps, at the end of each pass the table has exactly the names of the listing that began it, each built from its listed path and time; unchanged files kept their instance, others have a new one |
| Reconcile.NoGapInService | wasi3experiment/src/main.rs:277-316 | in every state in the middle of a pass each name that was served before and is still listed is served, by an instance of its old or new file, and nothing but old and new names is |
| Reconcile.UnchangedAppKeepsInstance | wasi3experiment/src/main.rs:286-290 | an application that no listing changes is served by the same instance in every state, the middle of passes included |
| Reconcile.ChangedAppGetsNewInstance | wasi3experiment/src/main.rs:290-316 | when a pass completes, a new or changed application is served by an instance younger than every instance in any table before that pass |
| NameCollisions.RivalIffAmbiguous | server/src/main.rs:661-672 | a valid name has another valid name with the same path if and only if it has one of four local patterns that could be rewritten without becoming invalid |
| NameCollisions.DecodedRival | server/src/main.rs:667-672 | a valid name with a slash before a dash shares its path with one without if and only if the decoded path is a valid name, and then with that one only |
| NameCollisions.CheckNameReads | server/src/main.rs:661-665 | the check accepts exactly the names that a five-state reader takes from start to end |
| NamePath.NameIsRecoverable | server/src/main.rs:667-672 | decoding the path of a valid name by dash parity gives the name back if and only if it has no slash directly before a dash |
| NamePath.NameToPathIsInjective | server/src/main.rs:667-672 | two such names with the same path are equal |
| NamePath.CollidingNames | server/src/main.rs:667-672 | for any labels a and b the valid names a-/b and a/-b have the same path |
| NamePath.DecodableIffSeparated | server/src/main.rs:671-671 | for every string, decoding undoes encoding exactly when no slash is directly followed by a dash or a slash |
| NamePath.ReplacesAreOneMap | server/src/main.rs:671-671 | the two replacements in a row are one map over characters |
| NamePath.CheckNameIsTheExpression | server/src/main.rs:661-665 | the check accepts exactly the names that match the regular expression |
| NamePath.OnlyMatchingNamesHavePaths | server/src/main.rs:661-672 | a name has a path exactly if it matches the expression, the path is then its characters encoded one by one, and any other name is refused |

## Left out

- HTTP transport of the replication protocol: it turns every error into a panic and adds no state.
- SQLite itself, the VFS plugin and the raw wal-index pointers: only their calls appear, as actions.
- `replvfs/mod.rs`, `file.rs` and `mem_file.rs`: dispatch and a plain byte file.
- The contents of the initial database: the theorems hold for any initial database, and those about pages for any page-aligned one.
- Frame checksums and salts inside the log: the scan of the source does not read them either.
- The supervisor loop, download and extraction as imperative methods: they are transitions over a value, because a crash must be possible between any two calls; the cleanup loops are given both ways.
- Registry calls, tar and gzip, and streaming of downloads: a download or an unpacked layer is one result.
- Two tasks of one application calling into the loader at the same time: one check runs at a time.
- Row values and column counts of guest queries: a statement is a function of the database that returns rows.
- Handshake and authentication of tunnel clients, DNS, certificates, the web device flow: plumbing over libraries.
- WebAssembly instantiation: an instance is an opaque value tagged with what it was built from; a failing instantiation ends the loop of the source, which is a run that stops before the insertion.
