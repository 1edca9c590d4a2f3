# ZippyNFS: a Dafny model of its write protocol, its on-disk naming and its lookups

ZippyNFS is a file server that keeps its files in the host's file system, and a FUSE client that
buffers writes. This project models the three parts that have to survive crashes, retries and
interleavings, and proves what they promise.

**Writes and commits.** The client logs each write, sends it UNSTABLE, compares the epoch in the
reply with the one it knows, and resends its log when the server has restarted; COMMIT is repeated
until it is answered in the epoch in which the log was sent. The pattern is that of WRITE and
COMMIT with a write verifier, sections 3.3.7 and 3.3.21 of RFC 1813.

- `Content.dfy`: file contents, positioned writes, last writer wins, chunks, and the absorption law.
- `Protocol.dfy`: handlers with their disk steps, faults, retry, replay and commit as functions.
  Restarts, crashes inside handlers, lost requests, lost replies and commits by other clients come
  from a schedule, so a statement about all schedules is a statement about all runs.
- `Durability.dfy`: the invariant of every step and the durability of a commit.
- `Sessions.dfy`, `EndToEnd.dfy`: whole runs of calls on any files; what the user wrote is what the
  disk holds after a flush and what a read returns.
- `Outcomes.dfy`: what a call answers, by its messages; and that calls and whole sessions succeed where
  the server answers now and then.
- `Messages.dfy`, `Incarnations.dfy`: runs as lists of messages; the client's state follows from the
  replies it has had, and replies with one epoch come from one incarnation.
- `Guarantee.dfy`, `Shadow.dfy`, `Exactness.dfy`: exactly when an Ok commit is durable, computed from
  the log and the replies. Shadows are other schedules that give the client the same replies.
- `ReadsTell.dfy`: a session in which reading another file tells the client more than the log does.
- `Bounds.dfy`, `Limits.dfy`: how much work a replay or commit does, when a call gives up, and two
  runs that lose data.
- `ServerObject.dfy`, `ClientObject.dfy`: the same protocol as objects that change their tables in
  place, each method tied to the function it computes.

**Names on disk.** A file exists where its numbered file `fid` and a named file `fid.name` lie in the
same directory. Operations are sequences of single disk steps and a crash may fall between any two.

- `Namespace.dfy`: the disk, paths, and the tree invariant kept by every disk step.
- `CrashAtomicity.dfy`: the logical tree, the plans of the operations, and when they are atomic.
- `NameRuns.dfy`: names over whole runs with crashes, and runs from an empty disk in which a rename
  is not atomic and in which two files come to share a name.
- `Junk.dfy`, `JunkRuns.dfy`: the disk swept of junk, and exactly which requests junk changes, over runs.
- `NameCalls.dfy`: CREATE, MKDIR, REMOVE, RMDIR and RENAME with the client's retries, and exactly when
  a failing call has changed the tree.
- `SharedDisk.dfy`: COMMIT on the disk that it shares with CREATE, REMOVE and RENAME.
- `CommitRace.dfy`: the buffers of one file under interleaved WRITEs and COMMITs, and exactly when an
  acknowledged write is lost.
- `FileNames.dfy`, `ReadDir.dfy`: the printed names, and directory listings in pages.

**Finding files, and the counter.** A cache from fid to parent must agree with a search of the disk;
the name lock must keep names unique under concurrency; fids and epochs come from one counter.

- `ServerRuns.dfy`: runs of RPCs, each answered or cut short by a crash after any disk step.
- `Handlers.dfy`: what one handler of the name server may do to disk, cache and name lock, panics
  included, and what follows for all requests of an incarnation.
- `TreeSpec.dfy`: the file system that users are to see, on a plain tree, and exactly when the server's
  answers are those of that file system.
- `TreeRuns.dfy`: the same over whole runs, and a server that never crashes.
- `NameServer.dfy`: the server as an object: breadth-first search, cached lookup and the handlers.
- `HostNames.dfy`: the lookup by pattern on the file names that the host lists.
- `NameLock.dfy`: all interleavings of CREATE, MKDIR, RENAME and REMOVE.
- `CacheRace.dfy`: all interleavings of searches, creates, renames and removes on the cache of parents.
- `Counter.dfy`, `FreshIds.dfy`: all interleavings and crashes of `fetch_inc`, and the fids and
  epochs that the name server draws from it.

## How the main results fit together

`Content.ReplayAbsorption` makes resent and duplicated writes harmless. From it
`Durability.CommitDurable` shows that an Ok commit is durable whenever the file's log is *synced*
(acknowledged in the client's epoch) or the commit itself met a new epoch, and
`EndToEnd.FlushedIsWhatWasWritten` restates this for the user's own writes over runs on many files.

Being synced is enough but not necessary: a write that gave up may simply be repeated. The exact
condition is `Guarantee.Settled`, which looks only at the first content, the log, and the writes sent
in the stored epoch with their results. `Exactness.GuaranteeIsExact` shows, over runs, that an Ok
means durable under every schedule with the same replies if and only if the log is settled, or the
client has not yet noticed the epoch that the server had when the log began.
`Exactness.LosesFromTheStart` gives the losing schedule from the start of the session.
`Guarantee.UncoveredIsOpen` covers the two ways to go wrong, an epoch taken over through another file
and a write that gave up; `Guarantee.AckSettles` and `Guarantee.RepeatSettles` the ways to stay
settled. The condition covers sessions that write, commit, and read files at rest, to which nothing
was sent. A read of any other file may add knowledge, even if it is not the file to be committed:
`ReadsTell.ReadTells` is a session whose log is not settled and whose commit is guaranteed all the
same. That settled is enough holds with all reads (`Exactness.SettledIsDurable`).

Those results say what an Ok is worth. `Outcomes` says when there is one: a user write, a flush and a
read are Ok exactly if all their messages are, and return the error of the last one otherwise
(`Outcomes.ChunksTell`, `Outcomes.CommitTells`, `Outcomes.ReadTells`). Under any schedule that answers one
of five attempts in a row, restarts and crashes included, every call succeeds (`Outcomes.CallSucceeds`),
a commit that has missed a restart recovers (`Outcomes.CommitRecovers`), and a session on one file, or on
many without a restart, ends with the user's bytes on disk and in the hands of the reader, without an if
(`Outcomes.SessionSucceeds`).

On the naming side `TreeSpec.Spec` is the meaning of the requests on a plain tree of files, and
`TreeSpec.AnswerMeetsSpec` shows that every answer, with its error code or its fid, and the tree after it
are those of `Spec`, exactly unless junk changes the request; a server that never crashes leaves no junk,
so that all its answers are those of `Spec` (`TreeRuns.WithoutCrashes`). `ServerRuns.StepKeepsInv` carries the tree, the cache and the freshness of fids
through every answered RPC and every crash; `CrashAtomicity.RenameAtomicExactly` says which renames
are atomic, `NameRuns.UniqueInEveryRun` exactly in which runs names stay unique, and
`NameLock.QuietRenamesAreAtomic` that crash-free histories never leave the names that spoil it.
`JunkRuns.JunkInEveryRun` compares a run with that of a server that sweeps its disk after every step:
they agree exactly as long as no request is one of the two kinds that junk changes.
`NameCalls.CallAccounted` adds the client's retries, and `CacheRace.RightExactly` says in which
interleavings the cache stays right, which the sequential server always keeps.

The models meet in three places. `FreshIds.DrivenIsRun` shows that a server whose fids and epochs are
results of the counter makes only runs of the model, and `FreshIds.CrashIsRestart` that its crashes
are restarts of the write protocol. `SharedDisk.CommitIsHandleCommit` shows that COMMIT, as a
sequence of disk steps, does to the tree what it does in the write protocol, and
`SharedDisk.DurableExactly` and `SharedDisk.DurableInPlace` what other operations on the same disk may
do to it in between. `CommitRace.IntactExactly` takes the endings of COMMITs from there and follows the
acknowledged writes of a file through any number of overlapping WRITEs and COMMITs.

The object methods are proved to perform the steps of these models: each client method equals its
protocol function on the whole state, and each handler of the name server is one step `Next` whose
disk steps are taken in the order of its plan, or a panic whose effects are spelled out.

## Where the code and its documentation differ

- `README.md:14` calls renaming a file atomic. Within one directory it is not: a crash can show both
  names (`NameRuns.RenameInPlaceShowsBoth` is such a run). Between directories it is, unless an
  interrupted rename has left a named file of the same fid in the destination
  (`CrashAtomicity.RenameAtomicExactly`).
- `README.md:124-125` says junk left by crashes does not affect correctness. It does, in two ways. A
  leftover name comes back to life when its file is moved there, and may then clash with another file
  (`NameRuns.LeftoverClashes`, a run of five requests from an empty disk). And a directory that holds
  only junk shows as empty but cannot be removed, now or ever (`JunkRuns.EmptyLooksFull`,
  `JunkRuns.JunkStays`). These are all: an answer or the tree after a request differs from that on the
  swept disk exactly if the request is such an RMDIR, or a RENAME across directories that has moved a
  file with leftovers (`Junk.JunkExactly`, over runs `JunkRuns.JunkInEveryRun`).
  `CrashAtomicity.RenameUniqueExactly` is the exact condition for unique names alone.
- `README.md:103-105` says that at a COMMIT all writes are persisted before the answer. COMMIT renames
  its copy onto the path it has looked up; if a RENAME has moved the file to another directory by
  then, the answer is Ok and the file has its old content (`SharedDisk.RenameBetween`). If a directory
  above the file has moved, the COMMIT fails, its buffer is gone, and the next COMMIT answers Ok
  (`CommitRace.MovedAncestorLoses`). A WRITE may be acknowledged into a buffer that a COMMIT has already
  written, and of two first WRITEs one may replace the other's buffer (`CommitRace.PushTooLate`,
  `CommitRace.TwoFirstWrites`).
- The assertion at `server/src/handler/mod.rs:1082` takes it for granted that the cache knows the old
  directory. A search that adds what it found before a RENAME makes it wrong; the next RENAME of the
  file then panics with the cache locked, and every lookup after it fails until the restart
  (`CacheRace.StalePairPanics`, `CacheRace.PoisonStays`).
- `README.md:107-111` says a client that sees a restart resends all uncommitted data. It resends
  only the file at hand; the others are no longer resent by their commits
  (`Limits.EpochTakenOverByAnotherFile`). A write that gave up is skipped by later ones
  (`Limits.ErrorLeavesAHole`).

## Model

| member | source | states |
|---|---|---|
| `Content.Pwrite` | server/src/handler/mod.rs:1281-1285 | seek and write: length and every byte of the result, with holes read as zero and an empty write changing nothing |
| `Content.LastWriterWins` | server/src/handler/mod.rs:1279-1286 | a list of writes drained onto a file gives each byte its last writer, and the length the furthest non-empty write |
| `Content.AbsorbOne` | client/src/bin/client_fuse.rs:272-305 | one logged write, executed an extra time before the log, leaves no trace in bytes, length or holes |
| `Content.ReplayAbsorption` | client/src/bin/client_fuse.rs:272-305 | any sequence of logged writes followed by the whole log is the log alone |
| `Content.ChunksAreOneWrite` | client/src/bin/client_fuse.rs:826-850 | the pieces of a user write of any length, applied in order, are one write of all the data |
| `Content.Chunks` | client/src/bin/client_fuse.rs:831-841 | every piece has 1 to 4000 bytes and a count equal to its length |
| `Content.Pread` | server/src/handler/mod.rs:840-850 | one positioned read: how many bytes there are to read, and each of them |
| `Content.ReadsBack` | server/src/handler/mod.rs:840-850 | what was written reads back at its place |
| `Content.ReadsBeside` | server/src/handler/mod.rs:840-850 | a write leaves what lies beside it as it reads |
| `Protocol.TryEpoch` | server/src/handler/mod.rs:86-103 | one attempt moves the epoch exactly by its restarts, and an epoch in a reply lies between those before and after |
| `Protocol.RpcEpoch` | client/src/bin/client_fuse.rs:106-151 | a retried call returns an epoch the server had during the call; ENOENT only for a missing file, and Ok only for a write or a file that is there |
| `Protocol.Replay` | client/src/bin/client_fuse.rs:262-308 | the replay loop terminates under every finite schedule and the client's epoch never passes the server's, so its assertion holds |
| `Protocol.Commit` | client/src/bin/client_fuse.rs:338-377 | the commit loop terminates and keeps the same epoch bound |
| `Durability.CommitCrashAtomic` | server/src/handler/mod.rs:1257-1293 | a crash inside COMMIT leaves the files as they were, or after the last step as the whole commit makes them |
| `Durability.CrashInCommit` | server/src/handler/mod.rs:1257-1293 | a crash at any step of a COMMIT, and the restart: the new content is on disk exactly if the last step was taken, and nothing is pending |
| `Durability.TryNear` | server/src/handler/mod.rs:893-915 | whatever the fate of an attempt, the file on disk, with or without its pending writes, stays the first content with some logged writes applied |
| `Durability.TryEffect` | server/src/handler/mod.rs:893-915 | while the epoch stays, an attempt applies a write once or not at all, and once if it was executed; any other request leaves what commits would give |
| `Durability.TryCommit` | server/src/handler/mod.rs:1218-1296 | an answered COMMIT has drained the buffer and, without a restart before it, put the pending writes on disk |
| `Durability.RpcEffect` | client/src/bin/client_fuse.rs:106-151 | the same for a call with its retries: executing a write twice equals executing it once |
| `Durability.RpcSafe` | client/src/bin/client_fuse.rs:106-151 | no call of this client breaks the part of the invariant that survives restarts, for any of its files |
| `Durability.RpcCommit` | client/src/bin/client_fuse.rs:347-355 | what an Ok COMMIT call says about the disk, retries included |
| `Durability.ReplayKeeps` | client/src/bin/client_fuse.rs:262-308 | a replay that returns Ok leaves the whole log acknowledged in the client's epoch, and keeps the invariant also on error |
| `Durability.WriteKeeps` | client/src/bin/client_fuse.rs:315-335 | an asynchronous write keeps the invariant and says which files remain synced |
| `Durability.CommitDurable` | client/src/bin/client_fuse.rs:338-377 | an Ok commit of a synced file, or one that met a new epoch, leaves on disk the content at the first buffered write with every buffered write applied in order |
| `Sessions.RunsAreDurable` | client/src/bin/client_fuse.rs:262-377 | the invariant, epoch soundness and commit durability after any calls on any files under any schedule |
| `Sessions.ChunksContent` | client/src/bin/client_fuse.rs:826-853 | a user write moves the intended content by exactly its pieces and keeps the file tracked |
| `Sessions.WriteThenFlush` | client/src/bin/client_fuse.rs:808-854 | user writes then a flush, all Ok: the disk holds the old content with all user writes applied |
| `Durability.RpcQuiet` | server/src/handler/mod.rs:1218-1240 | nothing touches a file without pending writes, and a read of it is answered from the disk |
| `Sessions.CommitQuiet` | client/src/bin/client_fuse.rs:338-377 | committing any file leaves a file without a log as it is |
| `Sessions.ReadExact` | client/src/bin/client_fuse.rs:510-542 | the read loop returns as many bytes as asked for or as there are up to the end of the file, each the byte of the file at its position, despite the 4000-byte cap on one reply |
| `Sessions.RoundTrip` | client/src/bin/client_fuse.rs:493-543 | write, flush, read: the length and every byte of what is read are those of the content written |
| `EndToEnd.CallIntends` | client/src/bin/client_fuse.rs:808-854 | one good call moves the intended content of every file as the user means it to |
| `EndToEnd.FlushedIsWhatWasWritten` | client/src/bin/client_fuse.rs:262-377 | over runs on many files: a flushed file is its first content with the user's writes applied, and reads back so |
| `Outcomes.ReplayTells` | client/src/bin/client_fuse.rs:272-308 | a replay is Ok exactly if all its messages are, and then it ended with the last write of the log, answered in the epoch the client now has; otherwise it returns the error of its last message |
| `Outcomes.CommitTells` | client/src/bin/client_fuse.rs:340-377 | a commit is Ok exactly if all its messages are, and then the last is a COMMIT answered in the epoch the client now has; otherwise it returns the error of its last message; it drops the log exactly if it is Ok |
| `Outcomes.ChunksTell` | client/src/bin/client_fuse.rs:826-854 | a user write is Ok exactly if all its messages are, and then its last piece was sent; otherwise it returns the error of its last message |
| `Outcomes.ReadTells` | client/src/bin/client_fuse.rs:510-542 | a user read is Ok exactly if all its messages are; otherwise it returns the error of its last message |
| `Outcomes.CallSucceeds` | client/src/bin/client_fuse.rs:106-151 | under every schedule that answers one of five attempts in a row, whatever restarts, crashes and losses it holds, every write, and every flush and read of a file that is there, is Ok |
| `Outcomes.CommitRecovers` | client/src/bin/client_fuse.rs:340-377 | under such a schedule a commit by a client that has missed a restart is Ok and leaves the expected content on disk |
| `Outcomes.MissingFails` | server/src/handler/mod.rs:1221-1228 | under such a schedule a flush or read of a file that is not there fails with ENOENT |
| `Outcomes.OneFileSucceeds` | client/src/bin/client_fuse.rs:262-377 | under such a schedule every call of a session on one file is Ok and good, through restarts and crashes |
| `Outcomes.SteadySucceeds` | client/src/bin/client_fuse.rs:262-377 | under such a schedule without a restart every call of a session on any files is Ok and good |
| `Outcomes.SessionSucceeds` | client/src/bin/client_fuse.rs:493-543 | such sessions end with a flush that is Ok, with the user's bytes on disk, and with a read that is Ok and returns them |
| `Outcomes.WriteAllExactly` | client/src/bin/client_fuse.rs:808-854 | writing several pieces of data is Ok exactly if every one of the calls is, and then does what they do |
| `Outcomes.RoundTripSucceeds` | client/src/bin/client_fuse.rs:493-543 | under such a schedule write, flush and read are all Ok and the bytes read are those of the content written |
| `Outcomes.WriteFlushInstance` | client/src/bin/client_fuse.rs:808-854 | a session of two writes and two flushes at a restarted server: good, all Ok, both bytes on disk |
| `Bounds.ReplayBound` | client/src/bin/client_fuse.rs:272-305 | with k epoch changes and n logged writes a replay from pos makes at most (n - pos) + k * n WRITE calls |
| `Bounds.CommitBound` | client/src/bin/client_fuse.rs:340-374 | a commit makes at most k + 1 COMMIT and k * n WRITE calls |
| `Bounds.GivesUpExactly` | client/src/bin/client_fuse.rs:106-151 | a call returns EIO exactly when none of its attempts is answered |
| `Messages.RunFollows` | client/src/bin/client_fuse.rs:262-377 | the replies decide the run: a world that gives the same replies to the same requests takes an equal client through the same calls to an equal state |
| `Messages.RunRecorded` | client/src/bin/client_fuse.rs:315-335 | while no COMMIT closes it, a log holds just the writes that were sent, and the stored epoch is that of the last reply that carried one |
| `Incarnations.SameEpochSameIncarnation` | server/src/handler/mod.rs:69-73 | in a run, two replies carry the same epoch exactly if the same incarnation sent them |
| `Incarnations.StoredEpochNamesIncarnation` | client/src/bin/client_fuse.rs:291-304 | over whole runs a reply carries the epoch the client has stored exactly if no restart or crash came since the reply that brought it was sent; it never carries an earlier one |
| `Bounds.CommitRefinesStable` | server/src/handler/mod.rs:659-690 | COMMIT gives the files that stable writes of the same list give, and a crash inside either handler shows the whole old file or the whole result |
| `Bounds.CopiesGo` | server/src/handler/mod.rs:659-690 | an answered COMMIT of something or stable write leaves no copy of its file under tmp, touches no other copy, and never reads one that a crash has left |
| `Bounds.CommitWritesPending` | client/src/bin/client_fuse.rs:360-364 | a commit that meets no new epoch writes the server's pending writes, all and only |
| `Bounds.SmoothCommit` | client/src/bin/client_fuse.rs:347-364 | without faults a commit in the server's epoch returns Ok, writes what is pending and drops the log |
| `Guarantee.SettledIsExpected` | client/src/bin/client_fuse.rs:360-364 | if the log is settled, every content that the sent writes may have led to is the expected one |
| `Guarantee.AckSettles` | client/src/bin/client_fuse.rs:302-304 | a settled log stays settled with each write that is acknowledged |
| `Guarantee.RepeatSettles` | client/src/bin/client_fuse.rs:323-334 | a settled log stays settled when a write gives up and is then repeated with success |
| `Guarantee.UncoveredIsOpen` | client/src/bin/client_fuse.rs:294-301 | a byte the log changes and no write acknowledged in the stored epoch covers leaves the log unsettled |
| `Guarantee.AfterFits` | server/src/handler/mod.rs:893-915 | over all runs the server holds, in the stored epoch, one of the contents that the replies allow |
| `Shadow.Minimal` | client/src/bin/client_fuse.rs:106-151 | there is a schedule with the same replies under which nothing reached the server but what was acknowledged |
| `Shadow.OnDisk` | server/src/handler/mod.rs:1228-1240 | for every write that was sent there is a schedule with the same replies under which its byte was committed by somebody |
| `Shadow.Unsure` | client/src/bin/client_fuse.rs:360-364 | a byte that is not certain from the replies is wrong under some schedule with the same replies |
| `Exactness.SettledIsDurable` | client/src/bin/client_fuse.rs:360-364 | in every run that leaves the log settled, an Ok commit puts the first content with all logged writes on disk |
| `Exactness.NotSettledLoses` | client/src/bin/client_fuse.rs:360-364 | with reads of files at rest only, if the log is not settled there is a schedule with the same replies under which the commit returns Ok and data is lost |
| `Exactness.GuaranteeIsExact` | client/src/bin/client_fuse.rs:338-377 | in sessions that read only files at rest, an Ok is durable under every schedule with the same replies if and only if the log is settled or the client is behind the epoch in which the log began |
| `Exactness.LosesFromTheStart` | client/src/bin/client_fuse.rs:262-377 | the losing schedule for a whole session from a fresh start, with the same replies throughout and any reads before the first buffered write |
| `ReadsTell.ReadTells` | server/src/handler/mod.rs:819-859 | a session that is unsettled and yet guaranteed, since a read of another file shows a write without an earlier acknowledged one, and so a restart |
| `ReadsTell.TalkTells` | server/src/handler/mod.rs:69-73 | any server that gives the replies of that session has restarted since the first of them |
| `Limits.EpochTakenOverByAnotherFile` | client/src/bin/client_fuse.rs:294-301 | a run with every answer Ok in which a restart noticed through one file loses the write to another |
| `Limits.ErrorLeavesAHole` | client/src/bin/client_fuse.rs:323-334 | a run in which a write that gave up is never resent and a later commit answers Ok |
| `ServerObject.ZippynfsServer.GetOrCreateAsyncBufs` | server/src/handler/mod.rs:694-714 | an existing buffer is kept, a missing one is created empty |
| `ServerObject.ZippynfsServer.WriteUnstable` | server/src/handler/mod.rs:893-915 | the write is appended in memory and acknowledged with the epoch; the count assertion holds |
| `ServerObject.ZippynfsServer.WriteStable` | server/src/handler/mod.rs:641-691 | the state after a crash at any step, or the whole write |
| `ServerObject.ZippynfsServer.Commit` | server/src/handler/mod.rs:1218-1296 | the drain loop: the state after a crash at any step, or the whole commit |
| `ServerObject.ZippynfsServer.Read` | server/src/handler/mod.rs:819-859 | as many bytes as asked for, up to 4000 and to the end of the file, each the byte of the file at its position; or a stale handle |
| `ServerObject.ZippynfsServer.Restart` | server/src/handler/mod.rs:86-103 | buffers lost, files kept, later epoch |
| `ClientObject.ZippyFileSystem.DoWithRetry` | client/src/bin/client_fuse.rs:106-151 | the retry loop computes the retried call of the protocol |
| `ClientObject.ZippyFileSystem.WritePart` | client/src/bin/client_fuse.rs:227-259 | one logged write sent with its count |
| `ClientObject.ZippyFileSystem.WriteAsyncHandleEpochs` | client/src/bin/client_fuse.rs:262-308 | the replay loop on the object's whole state, with its epoch assertion |
| `ClientObject.ZippyFileSystem.WriteAsyncPart` | client/src/bin/client_fuse.rs:315-335 | log, then send from there |
| `ClientObject.ZippyFileSystem.Commit` | client/src/bin/client_fuse.rs:338-377 | the commit loop on the object's whole state, with its epoch assertion; its outcome is that of its last message, an Ok the answer to a COMMIT in the epoch now known, and it is Ok where the server answers now and then |
| `ClientObject.ZippyFileSystem.Write` | client/src/bin/client_fuse.rs:808-854 | sends exactly the chunks of the data, in order, until an error; Ok exactly if every message was, and always where the server answers now and then |
| `ClientObject.ZippyFileSystem.Read` | client/src/bin/client_fuse.rs:493-543 | computes the reads of the protocol; over a file at rest the length and every byte are right, and it is Ok where the server answers now and then |
| `ClientObject.ZippyFileSystem.Flush` | client/src/bin/client_fuse.rs:975-989 | a flush of the object keeps the durability promise, and is Ok exactly if every message of it was |
| `Namespace.PathUnique` | server/src/handler/mod.rs:144-201 | there is only one path of live links to a file |
| `Namespace.LinkedIsLive` | README.md:115-119 | under the tree invariant, having both server files is the same as being reachable from the root |
| `Namespace.DelNumberedKeepsTree` | server/src/handler/mod.rs:570-581 | removing a file or an empty directory orphans nothing |
| `Namespace.MoveKeepsLive` | server/src/handler/mod.rs:1056-1068 | moving a file outside its own subtree keeps every live file live, with its subtree |
| `Namespace.StepKeepsTree` | server/src/handler/mod.rs:448-474 | every disk step of every operation keeps the tree invariant |
| `CrashAtomicity.CreateAtomic` | server/src/handler/mod.rs:448-474 | CREATE and MKDIR show the old tree until the last step, then the tree with the new file |
| `CrashAtomicity.RemoveAtomic` | server/src/handler/mod.rs:566-597 | REMOVE and RMDIR take the file out with their first step |
| `CrashAtomicity.RenameShows` | server/src/handler/mod.rs:1042-1092 | the tree after each disk step of any rename, leftovers included |
| `CrashAtomicity.RenameConserves` | server/src/handler/mod.rs:1031-1092 | every disk step of any rename keeps all files, kinds, contents and the names of others; the moved file keeps its old or its new name |
| `CrashAtomicity.RenameAtomicExactly` | server/src/handler/mod.rs:1042-1092 | rename is crash-atomic if and only if it crosses directories and finds no leftover name of the file there |
| `CrashAtomicity.RenameUniqueExactly` | server/src/handler/mod.rs:1014-1092 | at each step of a rename names stay unique if and only if it stays in the directory, has not moved the file, or no leftover of the file clashes with a name in use |
| `CrashAtomicity.CreateUnique` | server/src/handler/mod.rs:508-528 | creating under a free name keeps names unique |
| `NameRuns.StepUnique` | server/src/handler/mod.rs:1031-1092 | one request, answered or cut short by a crash, keeps names unique exactly if it is not a rename that meets a clashing leftover |
| `NameRuns.UniqueInEveryRun` | README.md:115-125 | in every run with crashes all states have unique names exactly if no rename has met a clashing leftover |
| `NameRuns.RenameInPlaceShowsBoth` | README.md:14 | a run from an empty disk in which a crash inside a rename shows one file under both names |
| `NameRuns.LeftoverClashes` | README.md:124-125 | a run from an empty disk in which an answered rename brings a leftover back to life: two files share a name, and on the way the tree is neither the old nor the intended one |
| `Junk.JunkExactly` | README.md:124-125 | a request has the same reply and shows the same tree on the disk swept of junk, if and only if it is not an RMDIR refused because of junk alone, nor a RENAME that has moved a file with leftovers to another directory |
| `JunkRuns.StepJunkExactly` | server/src/handler/mod.rs:559-603 | the same for one step of the server, answered or cut short by a crash, with the states swept after it |
| `JunkRuns.JunkInEveryRun` | README.md:115-125 | over all runs, a server that sweeps its disk after every step goes step by step with the real one exactly as long as no step is one that junk changes |
| `JunkRuns.JunkStays` | server/src/handler/mod.rs:448-474 | a numbered file that a crashed CREATE left without a name stays where it is in every later state, and its directory is never removed |
| `JunkRuns.HousedInEveryRun` | server/src/handler/mod.rs:572-581 | over all runs with crashes no directory is removed from under a server file, not even from under junk |
| `JunkRuns.EmptyLooksFull` | server/src/handler/mod.rs:574-578 | a run from an empty disk after which a directory shows as empty and RMDIR answers NOTEMPTY |
| `NameCalls.CallAccounted` | client/src/bin/client_fuse.rs:106-151 | over all attempts of a name call: the tree has changed exactly if one attempt took effect, at most one did, success is reported exactly if that one's reply came back, and an error code tells exactly by whether the request would have failed so at the start |
| `NameCalls.FailureExactly` | client/src/bin/client_fuse.rs:867-938 | a failing CREATE, MKDIR, REMOVE, RMDIR or RENAME has changed the tree exactly if an attempt took effect and its reply was lost; with a code, exactly if the request would not have failed with it at the start |
| `NameCalls.MadeAndRefused` | client/src/bin/client_fuse.rs:106-151 | a MKDIR on an empty disk whose reply is lost: the client is told EEXIST, and the directory is there |
| `SharedDisk.DurableExactly` | server/src/handler/mod.rs:1222-1293 | whatever other disk steps run during a COMMIT, its Ok is durable exactly if the path it looked up still leads to the file at its final rename; otherwise the file keeps its old content |
| `SharedDisk.NoFileExactly` | server/src/handler/mod.rs:1221-1228 | a COMMIT is answered with a stale handle exactly if the tree did not show the file when it looked |
| `SharedDisk.SparedIsDurable` | server/src/handler/mod.rs:1222-1293 | COMMIT is Ok and durable while nobody moves or removes the file or a directory above it |
| `SharedDisk.RenameBetween` | server/src/handler/mod.rs:1031-1092 | a RENAME of the file between copy and final rename: the Ok is durable if and only if the file stays in its directory |
| `SharedDisk.DurableInPlace` | server/src/handler/mod.rs:1222-1293 | for a file that is still in the tree, the Ok of a COMMIT is durable if and only if its path at the end is the path at the lookup |
| `SharedDisk.AncestorBetween` | server/src/handler/mod.rs:1257-1293 | a COMMIT fails if a directory above the file moves to another directory before the copy or before the final rename |
| `SharedDisk.CommitMisses` | server/src/handler/mod.rs:1257-1293 | a disk reached from the empty one, on which a RENAME during a COMMIT makes it answer Ok with the write beside the file |
| `CommitRace.StepIntactExactly` | server/src/handler/mod.rs:692-714 | one step of any WRITE or COMMIT keeps every acknowledged write, once and in order, if and only if it is not an insert over a buffer in use, a push into a buffer that nobody will write or that others must follow, or a COMMIT that ends on an old copy, out of turn or not in place |
| `CommitRace.IntactExactly` | server/src/handler/mod.rs:1228-1293 | over all interleavings of WRITEs and any number of COMMITs of a file: the same, up to any state of the run |
| `CommitRace.CommitsEnd` | server/src/handler/mod.rs:1242-1255 | a COMMIT is under way from when it takes a buffer until it ends or finds it empty, whatever the others do |
| `CommitRace.NothingIsDurable` | server/src/handler/mod.rs:1232-1249 | a COMMIT that answers Ok because it finds nothing to write speaks the truth if no step before it was one of those |
| `CommitRace.OkTheSecondTime` | server/src/handler/mod.rs:1228-1240 | after a COMMIT that did not get its writes into the file the next one answers Ok, and the write is nowhere |
| `CommitRace.PushTooLate` | server/src/handler/mod.rs:900-907 | a run in which a WRITE is acknowledged into a buffer that a COMMIT has taken and written |
| `CommitRace.TwoFirstWrites` | server/src/handler/mod.rs:694-714 | a run in which the insert of one WRITE replaces the buffer of another that is acknowledged |
| `CommitRace.MovedAncestorLoses` | server/src/handler/mod.rs:1257-1293 | on any disk, a directory above the file moved before the copy: the COMMIT fails, the next is Ok, the write is lost |
| `SharedDisk.CommitIsHandleCommit` | server/src/handler/mod.rs:1257-1293 | a COMMIT left alone changes the tree in the content of its file only, and does to the contents what COMMIT does in the write protocol |
| `ServerRuns.CrashAtomic` | server/src/handler/mod.rs:442-603 | whatever junk lies around, a crash in CREATE, MKDIR, REMOVE or RMDIR shows the tree before or after |
| `ServerRuns.PlanKeepsTree` | server/src/handler/mod.rs:442-603 | after any number of disk steps of any RPC the disk is a tree of live directories |
| `ServerRuns.StepKeepsInv` | server/src/handler/mod.rs:482-553 | an answered RPC or a crash keeps tree, cache and freshness; the counter moves on and a restart has a later epoch |
| `ServerRuns.TreeInEveryRun` | server/src/handler/mod.rs:972-1096 | in every state of every run each file that shows has one parent directory and one chain of parents to the root |
| `ServerRuns.NothingLost` | server/src/handler/mod.rs:559-603 | no step loses a file, its kind, its content or its reachability, except the file a remove names |
| `ServerRuns.NeverReused` | server/src/handler/counter.rs:36-50 | over all runs a fid that is gone stays gone, and epochs grow exactly with restarts |
| `ServerRuns.EpochApart` | server/src/handler/mod.rs:69-73 | the epoch is never the fid of a file |
| `ServerRuns.RemovedForGood` | server/src/handler/mod.rs:559-603 | after an answered remove the fid is not live in any later state |
| `ServerRuns.AnsweredIsCached` | server/src/handler/mod.rs:542-547 | an answered CREATE, MKDIR or RENAME leaves the file in the cache with its directory, an answered REMOVE or RMDIR leaves it out, and other entries stay |
| `ServerRuns.CachedIsSearch` | server/src/handler/mod.rs:209-231 | the lookup through the cache terminates and equals the search |
| `ServerRuns.CacheAgreesInEveryRun` | server/src/handler/mod.rs:237-250 | in every state of every run the cached lookup of every fid is the search, and a rename's assertion on the old parent holds |
| `CacheRace.StepRightExactly` | server/src/handler/mod.rs:237-250 | one step of any thread keeps the cache right if and only if it does not add a pair that has become untrue |
| `CacheRace.RightExactly` | server/src/handler/mod.rs:1061-1084 | in every interleaving of searches, creates, renames and removes the cache is right all the way if and only if whatever is added to it is still true then; and then no rename panics |
| `CacheRace.StaysTrue` | server/src/handler/mod.rs:239-244 | a pair goes stale only by a rename or a remove of its own file after it was read |
| `CacheRace.RightFinds` | server/src/handler/mod.rs:209-231 | with a right cache and no remove under way the cached lookup is the search |
| `CacheRace.CreatedIsCached` | server/src/handler/mod.rs:542-547 | the directory of a created file gets into the cache, whatever the others do in between |
| `CacheRace.WrongStays` | server/src/handler/mod.rs:1077-1083 | a wrong entry stays wrong through everybody else's steps, and a rename of its file panics on it |
| `CacheRace.PoisonStays` | server/src/handler/mod.rs:1061-1084 | after such a panic nobody changes the cache or moves a file until the server restarts |
| `CacheRace.HauntedForGood` | server/src/handler/mod.rs:583-587 | the entry of a removed file that is added too late stays until the server restarts |
| `CacheRace.StalePairPanics` | server/src/handler/mod.rs:1077-1083 | from any sound state, four steps of a search and two renames that end in the panic |
| `CacheRace.StalePairHaunts` | server/src/handler/mod.rs:583-587 | from any sound state, four steps of a search and a remove that leave such an entry |
| `TreeSpec.AnswerMeetsSpec` | server/src/handler/mod.rs:482-603 | every answered request, with its error code or the fid it names, and the tree after it, is as the meaning of the requests on a plain tree says, if and only if it is not one that junk changes |
| `TreeSpec.CrashMeetsSpec` | server/src/handler/mod.rs:442-603 | a crash in CREATE, MKDIR, REMOVE or RMDIR leaves the tree as it was, or as that meaning says |
| `TreeRuns.RunMeetsSpec` | server/src/handler/mod.rs:482-1096 | over all runs the answered requests are as that meaning says exactly as long as none is one that junk changes |
| `TreeRuns.WithoutCrashes` | README.md:115-119 | a run in which every request is answered and no move refused leaves no junk and names unique, and every answer and every tree is as that meaning says |
| `TreeRuns.LookupFinds` | server/src/handler/mod.rs:777-817 | LOOKUP in a directory of the tree answers a fid exactly if a file there has the name, the fid of such a file, and of the only one where names are unique; otherwise NOENT |
| `TreeRuns.EntryStays` | server/src/handler/mod.rs:482-1096 | requests about others, answered or crashed, leave a file its directory, names, kind and content |
| `TreeRuns.CreatedIsFound` | server/src/handler/mod.rs:482-553 | over all runs, what an answered CREATE or MKDIR has made is there, under its name and of its kind, until it is removed or renamed, and LOOKUP answers its fid where names are unique |
| `NameServer.ZippynfsServer.FindNoCache` | server/src/handler/mod.rs:140-202 | the search ends, dequeues only live files and each once, finds a fid exactly if it is live, and returns its path and the parent links along it |
| `NameServer.ZippynfsServer.FindCached` | server/src/handler/mod.rs:209-231 | finds a fid exactly if it is live, with its path and only true parent links |
| `NameServer.ZippynfsServer.FindByFid` | server/src/handler/mod.rs:237-250 | equals the search, only adds true links to the cache, and afterwards the cache has the parent of every file on the way |
| `NameServer.ZippynfsServer.FindByName` | server/src/handler/mod.rs:253-281 | finds a file with the name exactly if there is one with both server files |
| `NameServer.ZippynfsServer.LockName` | server/src/handler/mod.rs:423-425 | true exactly if the name was free, and then it is held |
| `NameServer.ZippynfsServer.UnlockName` | server/src/handler/mod.rs:433-436 | releases a held name; holding it is demanded |
| `NameServer.ZippynfsServer.CreateObj` | server/src/handler/mod.rs:442-478 | new fid, numbered file, named file, in this order |
| `NameServer.ZippynfsServer.DeleteObj` | server/src/handler/mod.rs:559-603 | numbered file, cache entry, named file, in this order |
| `NameServer.ZippynfsServer.CreateObject` | server/src/handler/mod.rs:482-553 | one step of the model with its checks, errors, disk steps in order, cache update and name lock; or, for an empty name, a panic that leaves the name locked |
| `NameServer.ZippynfsServer.RemoveObject` | server/src/handler/mod.rs:925-970 | the same for REMOVE and RMDIR |
| `NameServer.ZippynfsServer.RenameObject` | server/src/handler/mod.rs:972-1096 | the same for RENAME, including the move the host refuses, and the panics over an empty name or a directory that is none |
| `Handlers.HandledKeepsSane` | server/src/handler/mod.rs:420-436 | every handler, answered or panicked, keeps the invariant of disk, cache and counter, and only adds to the names that panics have left locked |
| `Handlers.RenameIntoFile` | server/src/handler/mod.rs:1006-1014 | over all requests of an incarnation: a RENAME into something that is no directory panics, or answers EXIST if its new name is locked already, and every later one to that name answers EXIST; nothing moves |
| `Handlers.LeaksAreHarmless` | server/src/handler/mod.rs:420-436 | over all requests of an incarnation, a name that a panic left locked stays locked, and no later request that meets its assertions finds its name locked |
| `NameServer.ZippynfsServer.LookupObject` | server/src/handler/mod.rs:777-817 | the same for LOOKUP |
| `NameLock.LocksKept` | server/src/handler/mod.rs:420-436 | every held name is in the lock, held by one thread |
| `NameLock.LockedExactly` | server/src/handler/mod.rs:420-436 | in every interleaving a name is locked exactly if a thread holds it, and one thread only; with no request in flight the lock is empty |
| `NameLock.Publishes` | server/src/handler/mod.rs:508-537 | when a thread has published, its file is there under the name that it holds |
| `NameLock.StepKeepsInv` | server/src/handler/mod.rs:500-540 | every interleaved step keeps names unique, checked names free, and junk accounted for |
| `NameLock.NamesStayUnique` | server/src/handler/mod.rs:1006-1089 | in every interleaving each name of a directory has at most one live file and every unlock finds its name |
| `NameLock.QuietRenamesAreAtomic` | server/src/handler/mod.rs:1042-1092 | after a crash-free history a rename to another directory is crash-atomic |
| `Counter.NeverReturnsTwice` | server/src/handler/counter.rs:36-50 | over all interleavings and crashes later results are larger, and a word repeats only after the counter has gone around |
| `Counter.WrapsAround` | server/src/handler/counter.rs:44 | from every count there is a run that returns the first word again after 2^64 calls, and not before |
| `Counter.InOrder` | server/src/handler/counter.rs:36-50 | without a crash the results come out one by one from the count at the start, whatever the interleaving and the write-backs |
| `Counter.AfterRestart` | server/src/handler/mod.rs:86-103 | the first result after a crash is no earlier than any result before it |
| `FreshIds.StepFromCounter` | server/src/handler/mod.rs:448-450 | ids that are results of the counter are the fresh ones that the model of the name server asks for |
| `FreshIds.DrivenIsRun` | server/src/handler/mod.rs:86-103 | a name server driven by the counter, with crashes anywhere in its calls, makes only runs of the model |
| `FreshIds.CrashIsRestart` | server/src/handler/mod.rs:69-73 | a crash of the name server is a restart with a later epoch in the write protocol |
| `Counter.AtomicPersistentUsize.FetchInc` | server/src/handler/counter.rs:36-50 | returns the old word, stores its successor with wrap-around, flushed |
| `NameServer.ZippynfsServer.ReadDirectory` | server/src/handler/mod.rs:1151-1203 | READDIR: a stale handle or no directory, exactly then; otherwise the page, at the offset, of just the files that the tree shows in the directory, by ascending fid |
| `ReadDir.ListingExactly` | server/src/handler/mod.rs:606-638 | the listing of a directory has an entry exactly if the tree shows a file in it with that name and of that kind |
| `ReadDir.PageFits` | server/src/handler/mod.rs:1190-1196 | a page goes on with the listing at the offset, fits 4000 bytes, and stops only at the end or where one more entry would not fit |
| `ReadDir.SortingUnique` | server/src/handler/mod.rs:1187-1188 | with distinct fids there is one sorted listing |
| `ReadDir.SortByFid` | server/src/handler/mod.rs:1179-1188 | each entry once, by ascending fid |
| `ReadDir.HandleReadDir` | server/src/handler/mod.rs:1170-1202 | the page of the sorted live entries at the offset |
| `ReadDir.FillReply` | client/src/bin/client_fuse.rs:567-590 | entries are numbered from the offset until the buffer is full |
| `ReadDir.ListAll` | client/src/bin/client_fuse.rs:545-593 | paging from the last number taken lists, once and in order, just the files that the tree shows in the directory, and ends |
| `FileNames.NameRoundTrip` | server/src/handler/mod.rs:613-629 | splitting a named file at the first dot gives fid and name back, and the two kinds of server file are never confused |
| `FileNames.PrintedInDecimal` | server/src/handler/mod.rs:146 | fids are printed in decimal, so that the root's numbered file is called 1 |
| `FileNames.EncodeInjective` | server/src/handler/mod.rs:449-450 | two files never share a server file name |
| `FileNames.LookupMatchesExactly` | server/src/handler/mod.rs:261-272 | the lookup pattern matches exactly the wanted name and captures the fid |
| `HostNames.LookupByPattern` | server/src/handler/mod.rs:253-281 | matching the file names that the host lists against the pattern finds exactly the files that have the name and both server files |

## Left out

- CommitDurable: asks for more than is needed, a synced file; GuaranteeIsExact has the exact condition.
- GuaranteeIsExact: is about sessions that read only files at rest; what other reads reveal is not used, and ReadTells shows that it can matter.
- CallSucceeds: is about schedules that answer one of any five attempts in a row; what a call that gives up leaves is in FailureExactly, Limits and Exactness.
- AnswerMeetsSpec: is about requests that meet the assertions of their handlers; a crash inside RENAME is in RenameShows.
- CallAccounted: assumes unique names at the start, and nobody else's requests between the attempts of the call; requests that panic are not among the attempts.
- RightExactly: a search is its reads of single links and one addition to the cache; requests that the host or the lock refuses take no step.
- IntactExactly: is about one life of the server and one file; FILE_SYNC writes, which this client never sends, and restarts are in the write protocol.
- FlushedIsWhatWasWritten: covers calls that return Ok and epoch changes met while no other file has buffered writes, and a fixed set of files; SharedDisk says what CREATE, REMOVE and RENAME may do to a commit.
- SharedDisk: one COMMIT against disk steps of others; COMMITs and WRITEs of one file against each other are in CommitRace, with the endings that SharedDisk gives.
- NamesStayUnique: assumes a crash-free history, at most one rename in flight per file, no directory being moved or removed, and no removal of a file whose rename is in flight; the lock is keyed by the directory's fid, which stands for its path while directories stay put.
- NeverReturnsTwice: two results may coincide after 2^64 further calls, as WrapsAround shows; elsewhere fids and epochs are unbounded.
- ListAll: assumes distinct fids in the directory; after an interrupted rename inside a directory one fid shows twice and the unstable sort may order its two entries differently from call to call. The size of one entry is a parameter.
- CreateObject: the handlers of the name server object run one at a time, so that only names left locked by panics are met there; concurrency is in NameLock and CacheRace.
- Writes by other clients, to any file, and SETATTR size changes; for concurrent writes to one file the system gives no guarantee. Commits by others are in the model.
- The attempts of one call do not overlap: an earlier execution has finished or died before the retry is answered, and handlers for one fid interleave in CommitRace only.
- The NULL call that fetches the first epoch; any first epoch up to the server's is allowed.
- Input and output errors inside handlers, where early returns leak a held name or drop buffers; the only refused host operation modelled is a move into the file's own subtree.
- Read: a READ of a directory, which the server answers with an error; the write path holds contents of files only.
- DoWithRetry: errors other than transport errors and a stale handle.
- The thread id in the name of a tmp file: handlers run one at a time in the write path, so one tmp file per fid is kept.
- Conversions between 64-bit signed and unsigned numbers in messages, and offsets near their limits.
- Names with characters that mean something in a pattern, and non-ASCII digits; matching is exact.
- Attributes, time stamps, GETATTR, SETATTR, STATFS, the Thrift transport, FUSE reply types, reconnecting and back-off, logging, the CLI client and the benchmarks.
- Directory syncs as separate events: disk steps are durable in program order.
