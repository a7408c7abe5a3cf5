# Chevalier: verified models of the VFS gateway, programmatic tool calls and retries

A Dafny model of the stateful parts of Chevalier, and proofs about them that range
over every input, every run or every reachable state. `dafny verify dfyconfig.toml`
checks the whole project.

**Publication coordinator.** One state machine per workspace owner: a FIFO
readers/writer gate (`ReadersWriter`), a bounded history of published paths
(`PublicationFeed`), parked long polls and the registry of watcher acks
(`Coordinator`). Each stretch between two `await`s is one event, and every clock
reading is an input. `CoordinatorRuns`, `CoordinatorAcks` and `OptimisticReads` prove
what all runs keep. `PublicationState` is the same machine as a class that updates its
fields in place; each of its methods is proved to take the step of the transition
system.

**Cache coherence.** `Namespace` is a workspace of names and inodes and what clients
can read of it. `Mutations` applies namespace batches as the local backend does and
computes the paths and subtrees the gateway reports for them. `Containment` decides, for
each kind of mutation, exactly when everything outside a reported set reads as before;
`DirectoryTimes` does the same for whole listings, which also show the times of
subdirectories. `Writes` does both for lists of file writes and the report computed for
them. `Coherence` puts coordinator, store and any number of caching watchers together and
proves their caches coherent over whole runs; `PlainRuns` specialises that to workspaces
without second hard links, and `AckedCaches` adds what the acks promise about those
caches. `CacheRetention` is the other half: watchers give up nothing that answers do not
name. `MutationEffects` and `WriteEffects` say what each change leaves at the paths it
names and when it is refused. `ReportLimits` shows, with exact conditions, where the
reports of batches fall short.

**Advisory locks.** `AdvisoryLocks` relates the interval list to a map from bytes to
holders; `AdvisoryLockTable` is the request handler over the in-memory store.

**Helpers.** `Base64` (against sections 3.5 and 4 of RFC 4648), `Append` (base and tail
under compare-and-swap, with ideal digests) and `SubtreeWalk` (the worklist behind
subtree-metadata requests).

**Programmatic tool calls.** `Programmatic` is the protocol loop, as a function of the
events that reach it and as a class; `ProgrammaticRuns`, `ProgrammaticFraming` and
`ProgrammaticResults` prove conservation of calls, independence of chunking and what a
successful run returns; `ProgrammaticOutcomes` decides how every run ends from what was
printed and what completed.

**Retries.** `Backoff` is the retry loop over real-valued durations.

Properties that turned out not to hold as one might state them are kept as results,
each with a failing case and the exact condition:

- After a round of re-examined acks, a mutation may be left waiting for nobody when the
  clock ticks during the round (`TickMayStrandAMutation`, a run from the initial state;
  condition in `NobodyStrandedIff`).
- A batch's report leaves other readers stale when an inode it disturbs has a name
  outside it, or when missing parents are made above it: exactly then
  (`KeptIffContained`; cases in `HardLinkAliasGoesStale`, `MissingParentGoesStale`).
- A rename onto equivalent contents keeps the target and deletes the source, so a second
  name of the source goes stale (`ReplayedRenameExample`, `ReplayedRenameLeavesAliasStale`;
  condition in `RenameKept`), and a rename of a path to itself deletes it
  (`RenameToItselfDeletes`), unless there is nothing at the path or a symlink that leads
  nowhere: exactly then it changes nothing (`RenameToItselfKeepsIff`).
- A write that creates a file is fully reported exactly when its parent exists and is not
  the root (`CreatingWriteReported`). The comment above the code says an overwrite's
  parent did not change; its listing carries the new metadata, and staging restamps it. An
  overwrite is fully reported exactly when it changed nothing, the parent's time included
  (`OverwriteReported`). In a list of writes a sibling's creation can bring the parent into
  the report; the exact condition for lists is `WritesKeptIffContained`.
- A directory's time, as its own parent lists it, is not reported
  (`DirectoryTimesGoUnreported`). Whole listings outside the report stay valid exactly
  when the mutation is contained and every restamped directory is the root or listed
  within the report (`KeptFullyIffContained`).
- Sleeps are the capped exponential exactly when the cap cuts no shrinking schedule
  (`ClosedFormIffCapHarmless`); a negative multiplier panics after the first sleep unless
  that sleep is zero (`RetryWithBackoff`).
- A committed append is old content and tail exactly when the declared hash names just
  that (`CommitsOldThenTail`, `MisdeclaredHashCommitsOtherBytes`).

## Model

| member | source | states |
|---|---|---|
| `Coherence.CachesStayCoherent` | ts/vfs-gateway-server.ts:1361-1376 | After any interleaving of reads, namespace batches, file writes, polls and late deliveries, every watcher that evicts what answers name stands at the revision it was told, and every entry it caches agrees with the store there, or at the later revision the entry was read at; for whole listings too, when restamped directories are listed within the reports. Watchers come at any time. |
| `CacheRetention.InstalledEntriesAreKept` | sandbox/vmd/src/fuse/fs.rs:1039-1072 | Over every run an entry that arrived no older than its watcher's revision is cached, and stays so as long as no answer applied was truncated or listed its path or a subtree it lies in, and no other read of its key was installed. |
| `CacheRetention.LostEntriesHaveAReason` | sandbox/vmd/src/fuse/fs.rs:1039-1072 | When an entry is gone or another, some step of the run evicted or replaced it. |
| `CacheRetention.EvictionsAreWarranted` | ts/vfs-gateway-server.ts:484-514 | An answer that is not truncated evicts an entry only if a publication the watcher had not seen named its path or a subtree it lies in. |
| `CacheRetention.AnswerIsAppliedExactly` | sandbox/vmd/src/fuse/fs.rs:1039-1072 | An answer moves the watcher to its revision if that is newer, and drops exactly what it names, or everything when truncated. |
| `CacheRetention.ReadIsInstalled` | ts/vfs-gateway-server.ts:235-243 | A read is cached exactly when it is not older than the watcher's revision, and nothing else changes. |
| `CacheRetention.SeedMovesOn` | sandbox/vmd/src/fuse/client.rs:392-404 | Starting from a read moves the watcher to the read's revision if that is newer, and keeps its cache. |
| `CacheRetention.FetchAnswers` | ts/vfs-gateway-server.ts:235-243 | A read under the lock sends off what the latest published store holds, with the current revision. |
| `AckedCaches.AckedMeansCoherent` | ts/vfs-gateway-server.ts:331-336 | Over any run from a non-negative revision (the code starts from the time) in which named watchers poll with a revision they have applied: when a mutation's response leaves with all acks, every watcher registered and unexpired at that reading has seen the mutation's publication and all before it, and caches nothing older. |
| `AckedCaches.GateAcked` | ts/vfs-gateway-server.ts:554-604 | Whoever is registered and unexpired at the reading that lets a response leave with all acks has acked its revision. |
| `PlainRuns.PlainCachesStayCoherent` | ts/vfs-gateway-server.ts:1361-1376 | The same, starting without second hard links, with nothing to check about changes but that directories exist, no hard links are made and each directory written to gets a new file and is not the root; for whole listings too, under the condition that is exact for them. |
| `PlainRuns.PlainContained` | ts/vfs-gateway-server.ts:2515-2547 | In a workspace without second hard links a mutation that adds entries only to existing directories is contained in its report. |
| `PlainRuns.PlainWritesContained` | ts/vfs-gateway-server.ts:2459-2474 | There, writes into existing directories other than the root that each get a new file are contained in the computed report. |
| `Coherence.StepKeepsCoherence` | ts/vfs-gateway-server.ts:302-338 | Every step of server, store or watcher keeps the system invariant: publications documented by their entries, reads genuine, cache coherent. |
| `Coherence.RevocationKeepsCoherence` | ts/vfs-gateway-server.ts:445-514 | Evicting exactly the answered paths and subtrees, or everything when truncated, moves a coherent cache to the answered revision. |
| `Coherence.ReadKeepsCoherence` | ts/vfs-gateway-server.ts:235-243 | A read response fenced by its revision can be installed whenever it arrives. |
| `Coherence.SeedKeepsCoherence` | sandbox/vmd/src/fuse/client.rs:392-404 | Polling on from the revision of a read is safe when nothing cached is older than that read. |
| `Coherence.ChangeUnnoticed` | ts/vfs-gateway-server.ts:1361-1376 | A contained batch or list of writes leaves every read outside the report computed for it unchanged. |
| `Coherence.BatchKept` | ts/vfs-gateway-server.ts:1361-1376 | A batch whose mutations are reported, and contained when their turn comes, leaves every read outside unchanged; that the gateway's own report does report them is `ReportIsReported`. |
| `Containment.KeptIffContained` | ts/vfs-gateway-server.ts:2424-2438 | For every mutation, all reads outside a reported set stay the same if and only if new parents and all names of disturbed inodes lie within it; the store stays well-formed. |
| `MutationEffects.MutationLeaves` | vfs/src/local.rs:1772-2014 | What each mutation leaves, through names and metadata: an empty file, a directory or a symlink as asked for, new and with one link; a second name of the same inode; the new mode; the name gone; the tree at `from`, inode by inode, at `to`. The names added are those and the missing directories, ordinary ones; every other name keeps inode, contents and mode. |
| `MutationEffects.RefusedIff` | vfs/src/local.rs:1772-2014 | A mutation is refused if and only if its target exists or is of the wrong kind, a directory is not empty, a tree would move into itself, or something above the path is not a directory, kind by kind. |
| `MutationEffects.EquivalentIff` | vfs/src/local.rs:3049-3105 | Two trees count as equivalent if and only if they have the same names below them with the same contents. |
| `Containment.RenameKept` | vfs/src/local.rs:1942-2011 | A rename leaves all reads outside its report unchanged if and only if it is contained, whether it moves a subtree, replaces a file, finds its outcome already there, or names one inode twice. |
| `Containment.ReplayedRenameKept` | vfs/src/local.rs:1987-1995 | A rename onto equivalent contents, which copies permissions and removes the source tree, is unnoticed elsewhere if and only if no inode that loses a name or changes its mode has a name outside the report. |
| `Containment.ReplayKeepsContents` | vfs/src/local.rs:3049-3105 | Such a rename leaves at every target name what was at the source name. |
| `Containment.ModesCopied` | vfs/src/local.rs:3107-3134 | Copying permissions over trees that share no inode, in any order, gives each target its source's mode. |
| `DirectoryTimes.KeptFullyIffContained` | ts/vfs-gateway-server.ts:2991-3006 | Whole listings outside the report stay the same, too, if and only if the mutation is contained and every directory it restamps is the root or has its parent within the report. |
| `DirectoryTimes.RestampedIffEntriesChange` | vfs/src/local.rs:1772-2014 | After any mutation a directory still in place shows the mutation's time if some name directly in it came, went or was bound anew, and its old time if not. |
| `DirectoryTimes.MutationRestamps` | vfs/src/local.rs:1772-2014 | The directories each kind of mutation restamps, named beforehand, stay in place and no other inode's time changes. |
| `Containment.HardLinkKept` | ts/vfs-gateway-server.ts:2426-2427 | The same equivalence for a new hard link, whose link count shows under every alias. |
| `Containment.RemoveEntryKept` | ts/vfs-gateway-server.ts:2424-2438 | Removing a name goes unnoticed elsewhere if and only if it named a directory or no alias lies outside the report. |
| `Mutations.MutationSnapshotPaths` | ts/vfs-gateway-server.ts:2515-2523 | The loop computes the reported paths whose members `SnapshotMembers` characterises. |
| `Mutations.SnapshotMembers` | ts/vfs-gateway-server.ts:2515-2523 | A path is reported if and only if some mutation names it or one of its children. |
| `Mutations.MutationSupersededSubtrees` | ts/vfs-gateway-server.ts:2536-2547 | The loop computes the superseded subtrees whose members `SupersededMembers` characterises. |
| `Mutations.SupersededMembers` | ts/vfs-gateway-server.ts:2536-2547 | A subtree is superseded if and only if a removal of a directory or a rename names it. |
| `Mutations.SupersededWithinSnapshot` | ts/vfs-gateway-server.ts:2515-2547 | Every superseded subtree is a reported path. |
| `Mutations.ReportIsReported` | ts/vfs-gateway-server.ts:2515-2547 | A batch's report covers each of its mutations: names, parents and renamed or removed trees; the coherence theorem rests on it. |
| `Writes.WriteManyAffectedPaths` | ts/vfs-gateway-server.ts:2459-2474 | The written paths come first, then, once each, exactly the non-root parents of creations not already there. |
| `Writes.WritesCover` | ts/vfs-gateway-server.ts:2459-2474 | The report computed from the store's results covers exactly the written paths and the non-root directories of files created. |
| `Writes.WritesWrote` | vfs/src/local.rs:2367-2548 | Staging and installing a list of writes adds exactly the written names and their missing directories, leaves in each rewritten inode what was last written under any of its names, puts files in the place of symlinks, restamps exactly the directories staged in, and changes nothing else. |
| `WriteEffects.WrittenFileHolds` | vfs/src/local.rs:2367-2548 | A write that finds no file leaves one with its contents, mode and time, new and with one link, whatever else the list writes. |
| `WriteEffects.RewrittenFileHolds` | vfs/src/local.rs:2562-2599 | A file that is there keeps inode and mode and holds what was last written under any of its names. |
| `WriteEffects.MadeDirectoryHolds` | vfs/src/local.rs:2404-2411 | Directories made for a list of writes are ordinary new ones. |
| `WriteEffects.WriteRefusedIff` | vfs/src/local.rs:2367-2548 | A write is refused if and only if it names a directory or a name below something that is not one. |
| `Writes.WritesKeptIffContained` | ts/vfs-gateway-server.ts:2441-2474 | For a list of writes and any set: all reads outside it stay the same if and only if new names, all names of rewritten or unseated inodes and the listings that show them, and restamped directories lie within it. |
| `Writes.WritesKeptFullyIffContained` | ts/vfs-gateway-server.ts:2991-3006 | For whole listings the condition adds that restamped directories are the root or listed within the set. |
| `Writes.CreatingWriteReported` | ts/vfs-gateway-server.ts:2459-2474 | With the computed report, a creating write leaves all other reads valid if and only if the parent existed and is not the root. |
| `Writes.OverwriteReported` | ts/vfs-gateway-server.ts:2454-2457 | With the computed report, an overwrite keeps the names its parent lists, and leaves every unreported read valid if and only if contents and time of the file and time of the parent all stayed the same. |
| `ReportLimits.DirectoryTimesGoUnreported` | ts/vfs-gateway-server.ts:2991-3006 | A creation changes the whole listing one level above its directory, which its report leaves out, although everything else unreported stays valid. |
| `ReportLimits.HardLinkAliasGoesStale` | ts/vfs-gateway-server.ts:2424-2438 | Changing the mode through one name changes what an unreported alias reads. |
| `ReportLimits.AliasedWorkspaceExists` | ts/vfs-gateway-server.ts:2426-2427 | Such a workspace exists. |
| `ReportLimits.ReplayedRenameLeavesAliasStale` | vfs/src/local.rs:1987-1995 | A rename of a file onto equivalent contents changes what an unreported alias of the source reads. |
| `ReportLimits.ReplayedRenameExample` | vfs/src/local.rs:1987-1995 | With two names of one empty file and another empty file, that rename happens, and is not contained. |
| `ReportLimits.RenameToItselfDeletes` | vfs/src/local.rs:1987-1995 | Renaming an existing path to itself removes it and everything below it, and nothing else. |
| `ReportLimits.RenameToItselfKeepsIff` | vfs/src/local.rs:1987-1995 | It changes nothing if and only if the path is absent or a symlink that leads nowhere. |
| `ReportLimits.MissingParentGoesStale` | vfs/src/local.rs:1739-2018 | Making a directory below a missing parent changes a read outside its report. |
| `PublicationFeed.AnswersAreCompleteOrTruncated` | ts/vfs-gateway-server.ts:484-514 | From the retained history, the answer is what the log of all publications ever made owes: the duplicate-free unions after `since`, or a truncation exactly when history or caps demand it. |
| `PublicationFeed.UnionMembers` | ts/vfs-gateway-server.ts:491-513 | The unions hold exactly what publications after `since` named. |
| `PublicationFeed.RecordRetains` | ts/vfs-gateway-server.ts:458-473 | Recording keeps the history the newest part of the full log, with the floor at the last evicted revision. |
| `PublicationFeed.SubtreeCapNeverFires` | ts/vfs-gateway-server.ts:484-514 | With subtrees among the paths, an answer is truncated if and only if the history is empty, `since` is below the floor or the path union is too long. |
| `PublicationFeed.EmptyHistoryIsBelowFloor` | ts/vfs-gateway-server.ts:484-490 | A watcher behind an empty history is below its floor. |
| `ReadersWriter.GateIsFifoAndExclusive` | ts/vfs-gateway-server.ts:340-389 | In every run grants then queue are the requests in call order, a writer holds alone, somebody holds whenever somebody waits, and a reader at the head of the queue waits for a writer only. |
| `ReadersWriter.FastReadMeansEmptyQueue` | ts/vfs-gateway-server.ts:340-364 | A read granted at once overtakes nobody. |
| `ReadersWriter.GrantedWithinHoldersAndQueue` | ts/vfs-gateway-server.ts:366-389 | A request behind k others with h holders is granted once h + k releases happened, whatever else arrives. |
| `ReadersWriter.ReleaseKeepsInv` | ts/vfs-gateway-server.ts:636-651 | Releasing and draining keep the gate's invariant and take exactly one holder off; a second release does nothing. |
| `CoordinatorRuns.EveryRunKeepsInv` | ts/vfs-gateway-server.ts:302-338 | In every reachable state nobody parked is overdue, the history retains the log's newest part, and every answer ever given was what the log owed at that moment, timeouts reporting no advance. |
| `CoordinatorRuns.StepKeepsInv` | ts/vfs-gateway-server.ts:516-524 | Each atomic step keeps that invariant. |
| `CoordinatorRuns.EveryCallSettlesOnce` | ts/vfs-gateway-server.ts:401-435 | Over any run a poll is parked or answered exactly as often as it was made. |
| `CoordinatorRuns.EveryAnswerIsToItsPoll` | ts/vfs-gateway-server.ts:401-435 | Over any run every answer carries the call and the revision of a poll that was made. |
| `CoordinatorRuns.TimerSettles` | ts/vfs-gateway-server.ts:419-434 | A poll's timer leaves it answered and no longer parked. |
| `CoordinatorRuns.RevisionsOnlyRise` | ts/vfs-gateway-server.ts:316-325 | Revisions rise by at least one per commit and stand still otherwise, for any clock. |
| `CoordinatorRuns.CommitTakesLeast` | ts/vfs-gateway-server.ts:316-317 | A commit takes the least revision above the last one that is not behind the clock. |
| `CoordinatorAcks.ResponsesLeaveOnlyWhenAllowed` | ts/vfs-gateway-server.ts:579-604 | A response leaves only when every registered watcher unexpired at that mutation's own clock reading has acked its revision, or the cap elapsed or is not positive. |
| `CoordinatorAcks.CommitWaitsIff` | ts/vfs-gateway-server.ts:579-604 | A commit's response waits if and only if the cap is positive and a registered watcher, unexpired at the commit's reading, has not acked the new revision; otherwise it leaves in that step. |
| `CoordinatorAcks.TimerAnswers` | ts/vfs-gateway-server.ts:579-604 | The cap's timer answers the mutation it was set for and no other. |
| `CoordinatorAcks.PollRegisters` | ts/vfs-gateway-server.ts:532-547 | A named poll leaves its watcher registered at the highest revision it ever acked, for the grace, unless a reading of the round finds that expired; the others stay unless found expired. |
| `CoordinatorAcks.RegistryAfter` | ts/vfs-gateway-server.ts:554-564 | No other step registers anybody or changes an ack; a commit and a cap's timer drop exactly the expired. |
| `CoordinatorAcks.RoundIsExact` | ts/vfs-gateway-server.ts:567-572 | In one round a mutation stays exactly if some registered watcher lagged at its own clock reading; none is lost. |
| `CoordinatorAcks.NobodyStrandedIff` | ts/vfs-gateway-server.ts:554-572 | After a round every waiting mutation has a live laggard if and only if no later reading of the round retires its last one. |
| `CoordinatorAcks.SteadyClockLeavesLaggards` | ts/vfs-gateway-server.ts:554-572 | With one clock value for the round that is so. |
| `CoordinatorAcks.TickMayStrandAMutation` | ts/vfs-gateway-server.ts:554-572 | With a tick it need not be: a legal run from the initial state leaves a mutation waiting with no registered laggard. |
| `CoordinatorAcks.WaitingRisesOverRuns` | ts/vfs-gateway-server.ts:316-336 | In every run the waiting mutations have different revisions, rising in the order of their commits. |
| `CoordinatorAcks.AckedOnlyRisesOverRuns` | ts/vfs-gateway-server.ts:532-547 | While a watcher stays registered its acked revision never falls. |
| `CoordinatorAcks.EveryMutationHasOneResponse` | ts/vfs-gateway-server.ts:331-336 | Over any run each committed mutation has exactly one response, given or waiting. |
| `OptimisticReads.SameEpochMeansWriterFree` | ts/vfs-gateway-server.ts:376-389 | Two writer-free moments show the same epoch if and only if no writer held the gate between them. |
| `OptimisticReads.CheckpointsDecide` | ts/vfs-gateway-server.ts:621-634 | The checkpoints of a try agree if and only if no writer came between them, and then store and revision stood still. |
| `OptimisticReads.OptimisticRead` | ts/vfs-gateway-server.ts:262-277 | A returned scan read one unchanged store and carries its revision; a refused one was overlapped by a writer on each of three tries. |
| `PublicationState.Workspace.constructor` | ts/vfs-gateway-server.ts:213-233 | A new workspace is the initial state. |
| `PublicationState.Workspace.Acquire` | ts/vfs-gateway-server.ts:340-364 | Takes the gate's acquire step and touches nothing else. |
| `PublicationState.Workspace.ReleaseReader` | ts/vfs-gateway-server.ts:366-374 | Takes the gate's release step once, and nothing the second time. |
| `PublicationState.Workspace.ReleaseWriter` | ts/vfs-gateway-server.ts:376-389 | Raises the epoch, wakes exactly the overdue watchers and drains. |
| `PublicationState.Workspace.Drain` | ts/vfs-gateway-server.ts:636-651 | Grants one writer or all readers before the next writer. |
| `PublicationState.Workspace.Watch` | ts/vfs-gateway-server.ts:401-435 | Records the ack, then answers or parks, as the transition system does. |
| `PublicationState.Workspace.WatchResult` | ts/vfs-gateway-server.ts:445-453 | What an answer says at a revision. |
| `PublicationState.Workspace.RecordPublication` | ts/vfs-gateway-server.ts:458-473 | Appends and evicts in place as `Record` says. |
| `PublicationState.Workspace.PathsPublishedSince` | ts/vfs-gateway-server.ts:484-514 | The two growing sets with early exit compute `Since`. |
| `PublicationState.Workspace.NotifyWatchers` | ts/vfs-gateway-server.ts:516-524 | Over a snapshot, with removal in place, wakes exactly the overdue watchers in order. |
| `PublicationState.Workspace.RecordWatcherAck` | ts/vfs-gateway-server.ts:532-547 | Registers a named watcher with a rising ack and re-examines the waiting mutations; ignores an anonymous one. |
| `PublicationState.Workspace.UnackedWatchers` | ts/vfs-gateway-server.ts:554-564 | Drops expired watchers and counts the laggards among the rest. |
| `PublicationState.Workspace.NotifyAckWaiters` | ts/vfs-gateway-server.ts:567-572 | Re-examines the snapshot with one clock reading each, settling in place. |
| `PublicationState.Workspace.AwaitPublicationAcks` | ts/vfs-gateway-server.ts:579-604 | Answers a committed mutation at once or parks it. |
| `PublicationState.Workspace.AckTimeout` | ts/vfs-gateway-server.ts:579-604 | The cap answers a waiting mutation once. |
| `PublicationState.Workspace.Commit` | ts/vfs-gateway-server.ts:302-338 | Publish, release, await acks: one commit step. |
| `PublicationState.Workspace.Abandon` | ts/vfs-gateway-server.ts:302-338 | A transaction that fails or mutates nothing only releases. |
| `PublicationState.Workspace.WatchTimeout` | ts/vfs-gateway-server.ts:401-435 | A poll's own timer settles it once, if still parked. |
| `AdvisoryLocks.TableRefinesByteMap` | ts/vfs-gateway-server.ts:812-873 | Per identity and byte, each request does to the table what it does to a byte map: a grant overwrites exactly its range, a refusal nothing, an unlock and the releases clear exactly theirs, and expired bytes are free. |
| `AdvisoryLocks.RunRefinesByteMap` | ts/vfs-gateway-server.ts:715-874 | After any run of requests at any clock readings the table holds at every byte what running the byte map alone leaves there. |
| `AdvisoryLocks.RewriteHolding` | ts/vfs-gateway-server.ts:987-992 | Cutting a range out of the caller's locks frees exactly those bytes and no others. |
| `AdvisoryLocks.LiveHolding` | ts/vfs-gateway-server.ts:894-896 | Dropping expired locks frees exactly the bytes whose lease ran out. |
| `AdvisoryLocks.ConflictIsOnSomeByte` | ts/vfs-gateway-server.ts:898-919 | No conflict is found if and only if no other owner holds, unexpired, a byte of the range in an excluding mode. |
| `AdvisoryLocks.GetPredictsSet` | ts/vfs-gateway-server.ts:794-851 | The conflict found in the rewritten list is the one found in the list as it stands. |
| `AdvisoryLocks.RequestKeepsSafe` | ts/vfs-gateway-server.ts:812-873 | Every request keeps ranges non-empty, one identity's locks disjoint and writers exclusive. |
| `AdvisoryLocks.EveryRunIsSafe` | ts/vfs-gateway-server.ts:715-874 | So does every run at any clock readings, and n requests add at most 2n entries. |
| `AdvisoryLocks.WriterExcludesEveryone` | ts/vfs-gateway-server.ts:898-919 | After any run a byte write-locked by one owner is held by no other. |
| `AdvisoryLocks.RewriteGrowth` | ts/vfs-gateway-server.ts:987-992 | A cut adds at most one entry, and none unless an own lock strictly contains the range. |
| `AdvisoryLocks.RequestGrowth` | ts/vfs-gateway-server.ts:819-863 | A set adds at most two entries, an unlock one, anything else none. |
| `AdvisoryLockTable.LockTable.Handle` | ts/vfs-gateway-server.ts:715-874 | A malformed request is rejected and changes nothing; otherwise the owner's table and every byte of it move as specified, the reported conflict is the first one, and other owners are untouched. |
| `AdvisoryLockTable.AcceptedIffAsked` | ts/vfs-gateway-server.ts:715-792 | A request is accepted as an operation if and only if its fields, one by one, ask for it: identity, absent namespace, numerals of the range, kind and process id. |
| `AdvisoryLockTable.RefusedIffNothingAsked` | ts/vfs-gateway-server.ts:715-792 | Otherwise it is refused, as lacking a file identity exactly when that is what it lacks. |
| `AdvisoryLockTable.OffsetIsItsNumeral` | ts/vfs-gateway-server.ts:972-981 | An offset is accepted as n if and only if it is the decimal numeral of n, most significant digit first, possibly behind zeros. |
| `AdvisoryLockTable.NonEmptyIff` | ts/vfs-gateway-server.ts:968-970 | A field counts as given if and only if it has a character that is not white space. |
| `AdvisoryLockTable.LockTable.Set` | ts/vfs-gateway-server.ts:812-873 | Grants and rewrites, or refuses with the first conflict of the live table. |
| `AdvisoryLockTable.LockTable.RenewLeases` | ts/vfs-gateway-server.ts:723-752 | Extends exactly the named live leases of the mount; revives nothing. |
| `AdvisoryLockTable.LockTable.Replace` | ts/vfs-gateway-server.ts:877-892 | Replaces one owner's entry, keeps the others. |
| `AdvisoryLockTable.NormalizeIdentities` | ts/vfs-gateway-server.ts:921-958 | Accepts a list of complete identities as a set, rejects any other. |
| `Base64.IsCanonicalBase64` | ts/vfs-gateway-server.ts:2296-2324 | Accepts a value if and only if it is the encoding of some bytes. |
| `Base64.EncodeAfterDecode` | ts/vfs-gateway-server.ts:2296-2324 | Decoding then encoding reproduces an accepted string. |
| `Base64.DecodeAfterEncode` | ts/vfs-gateway-server.ts:2287-2324 | Every encoding is accepted and decodes to its bytes. |
| `Base64.EncodingIsUnique` | ts/vfs-gateway-server.ts:2287-2324 | Two bodies never share an encoding. |
| `Base64.GroupIsBigEndian` | ts/vfs-gateway-server.ts:2287-2324 | A group's four symbols are the base-64 digits of its three bytes, most significant first. |
| `Base64.TestVectors` | ts/vfs-gateway-server.ts:2287-2324 | The encoding agrees with the test vectors of section 10 of RFC 4648. |
| `Append.Entry.Append` | ts/vfs-gateway-server.ts:1391-1405 | Early check, staging, hash check and compare-and-swap give the answer and the file that the lemmas below speak of. |
| `Append.StageFull` | ts/vfs-gateway-server.ts:2838-2863 | For any replies the copy ends and stages the bytes read and the tail, or refuses when they are not `offset` many. |
| `Append.AppendIsAllOrNothing` | ts/vfs-gateway-server.ts:2818-2871 | A refused append changes nothing; a committed one replaced a file of `offset` bytes with the precondition's hash by one with the declared hash ending in the tail, even if the store changed since the early check. |
| `Append.RefusalsTell` | ts/vfs-gateway-server.ts:2818-2871 | Each refusal is given if and only if what it names was wrong: no base named, another base, another length, another hash. |
| `Append.CommitsOldThenTail` | ts/vfs-gateway-server.ts:2864-2871 | A committed append is old content and tail if and only if the declared hash is the hash of just that, whatever the reads returned. |
| `Append.MisdeclaredHashCommitsOtherBytes` | ts/vfs-gateway-server.ts:2864-2871 | Otherwise it can be something else: a concrete request. |
| `Append.StillStoreAppends` | ts/vfs-gateway-server.ts:2818-2871 | Against a file that holds still, whatever the early check saw and with any chunk sizes, an append commits if and only if the check saw this file and hash, length and declared hash are right, and then writes content and tail. |
| `SubtreeWalk.Walk` | ts/vfs-gateway-server.ts:1741-1777 | The worklist reports each entry as often as the recursive definition, completely unless the limit is reached, and never more than the limit or a spurious one; it ends. |
| `SubtreeWalk.ReportedIffVisible` | ts/vfs-gateway-server.ts:1741-1777 | The recursive definition reports once each file or link below the prefix on a path not excluded, and nothing else. |
| `SubtreeWalk.ExclusionInherited` | ts/vfs-gateway-server.ts:2054-2070 | Whatever lies below an excluded directory is excluded, so pruning loses nothing. |
| `SubtreeWalk.ExcludedLetterByLetter` | ts/vfs-gateway-server.ts:2054-2070 | A path is excluded if and only if somewhere, between separators of either kind or the ends, a dot is followed by g, i and t in either case. |
| `SubtreeWalk.ExcludedChild` | ts/vfs-gateway-server.ts:2064-2070 | A child is excluded if and only if its directory is or its own name is. |
| `ProgrammaticRuns.CallsAndRepliesAreConserved` | rust/src/programmatic.rs:196-262 | In every run at most 1000 calls are accepted, ids distinct and non-zero; the dispatcher gets exactly those naming a listed tool other than `execute_code`; every reply answers an accepted call and none is answered twice. |
| `ProgrammaticRuns.SuccessAnswersEverything` | rust/src/programmatic.rs:231-234 | Success leaves nothing running and every accepted call answered once. |
| `ProgrammaticRuns.EveryReplyIsForItsJob` | rust/src/programmatic.rs:246-260 | Each reply was written when one of the running jobs completed and carries, under that job's id, that the tool is not listed, or the dispatcher's error, or that its value is too long, or the value, case by case. |
| `ProgrammaticResults.SuccessReturnsTheOutput` | rust/src/programmatic.rs:216-241 | A successful run returns, in order, all values put out before the first done line, at most 1000 and within the byte limit, and accepted every call before it. |
| `ProgrammaticOutcomes.SuccessIff` | rust/src/programmatic.rs:196-262 | A run succeeds with an output if and only if it went on up to an event that prints the done line, every call made by then had completed, and the output is all that was put out before. |
| `ProgrammaticOutcomes.OutcomeIff` | rust/src/programmatic.rs:196-262 | A run has an outcome if and only if some event gives it: the first line that is malformed, an error, done, an excess output or a bad call, each with its own message, an overflow, a crash, a lost reply or an end. |
| `ProgrammaticOutcomes.RunningIff` | rust/src/programmatic.rs:196-262 | A run goes on exactly as long as nothing that happened and nothing that was printed ends it, and then as many jobs run as calls were made and not completed. |
| `ProgrammaticOutcomes.ErrorFrameEndsTheRun` | rust/src/programmatic.rs:227-230 | An error frame ends the run with its own message. |
| `ProgrammaticFraming.EveryRunTakesTheLines` | rust/src/programmatic.rs:213-220 | Under any interleaving a running loop has taken exactly the complete lines of all output and holds exactly the text after the last newline. |
| `ProgrammaticFraming.ChunkingIsIrrelevant` | rust/src/programmatic.rs:213-220 | Two splittings of one stream that both fit the buffer lead to the same state. |
| `ProgrammaticFraming.LinesAndRestAreTheStream` | rust/src/programmatic.rs:216-217 | Lines and remainder put together are the stream. |
| `ProgrammaticFraming.MarkedLine` | rust/src/programmatic.rs:218-220 | A line is a message if and only if it starts with the marker, and is parsed from behind it. |
| `Programmatic.Execution.Receive` | rust/src/programmatic.rs:213-262 | The in-place buffer loop takes the step `Feed`. |
| `Programmatic.Execution.AcceptCall` | rust/src/programmatic.rs:242-260 | Accepts a fresh non-zero id within the limit, or ends the run. |
| `Programmatic.Execution.Handle` | rust/src/programmatic.rs:221-262 | Each kind of frame updates the loop's variables as `OnFrame` says. |
| `Programmatic.Execution.Complete` | rust/src/programmatic.rs:196-203 | A finished job leaves the set and is replied to under its own id. |
| `Backoff.RetryWithBackoff` | rust/src/retry.rs:97-142 | For any multiplier: at most `max_retries + 1` calls, each within the time limit and after its scheduled sleep; a further call is made after an inference, network or I/O failure with retries and time left, and after nothing else; a value or final error is passed on unchanged, otherwise the last error is reported as retries exceeded; a scaled duration below zero panics, exactly after a first sleep that is scaled below zero. |
| `Backoff.GrowingClosedForm` | rust/src/retry.rs:131-136 | With a multiplier of at least one every later sleep is the capped exponential. |
| `Backoff.ShrinkingClosedForm` | rust/src/retry.rs:131-136 | With a smaller one the cap binds at most once and the rest decay from there. |
| `Backoff.ClosedFormIffCapHarmless` | rust/src/retry.rs:131-136 | The capped exponential is the schedule if and only if the multiplier is at least one, the first product is within the cap, or the cap is zero. |
| `Backoff.ScaledIsPower` | rust/src/retry.rs:131-136 | Repeated scaling is multiplication by the power. |
| `Backoff.TotalSleepBounded` | rust/src/retry.rs:128-136 | All sleeps together are at most the first and one cap for each further retry. |

## Left out

- HTTP routing, authentication, JSON encoding and syncing: plumbing around the modelled operations.
- Single-path mutation routes (plain write, delete, directory, symlink, hard link, rename): they publish an empty path set, so no coherence is claimed for them.
- Atomicity of the fallback loop of write-many (ts/vfs-gateway-server.ts:1958-2015): the code does not promise it.
- Writes.ApplyWrite: write preconditions and replays of writes already made, which change nothing, are not modelled, nor what a failed list leaves behind; all writes of a list carry one time, and a symlink's target is not validated.
- Path normalisation on arbitrary strings: paths are segment sequences.
- Real time: clocks, deadlines and timers are inputs; log rate limiting is not modelled.
- Lock state stores shared between processes: only the in-memory store is modelled.
- Digests: treated as injective.
- `expectedFileId` preconditions, native appends (`appendFromFile`) and errors thrown by the store while the base is read: the latter end the request before anything is written.
- Append.AppendIsAllOrNothing: speaks of preconditions that name a content hash, which is what the route asks for; a link fingerprint is not a base to append to.
- SubtreeWalk.Walk: does not model the final sort by path, which only permutes the entries, nor trees that change during the walk.
- Namespace batches are taken as atomic: vfs/src/local.rs:1773-2018 leaves earlier mutations in place when a later one fails, and no coherence is claimed after such a failure.
- Mutations.ApplyRename: whether a symlink leads anywhere and the order in which directories are read are parameters; errors for paths through non-directories, durability and retried operation ids are not modelled.
- Standard error, signal escalation and cleanup after the programmatic loop (rust/src/programmatic.rs:264-324): they depend on runtime timing.
- Backoff.RetryWithBackoff: durations are exact reals, so rounding of floating-point seconds is not modelled.
- Bindings for Python and Node, sandbox clients, durable types: thin wrappers or types without transitions.
