# uvfs, verified

A Dafny model of the uvfs kernel module: a file system whose operations are answered by a user-space server through a
character-device driver. Most of the project is about that driver's transaction protocol (`driver.c`); the rest is about
three places where a loop or a cache has to agree with something simpler (`dir.c`, `super.c`, `file.c`).

`dafny verify dfyconfig.toml` checks everything.

## What is modelled

**The transaction protocol.** `DriverModel` is a state machine with one step per critical section under `Uvfs_lock`, for
any number of file-system threads and server threads, with opens, closes, shutdown requests, SIGKILLs and signals in any
order. A run is any sequence of enabled steps from the freshly loaded module. `Driver.Device` is the same driver in its
own imperative form: transactions are objects whose flags change in place, the lists hold references to them, and the
drain and search loops are loops. Each method is proved to be the corresponding step on the abstract state, and the device
always stands where the run of the steps it has made ends, so the theorems about runs hold of it. A separate `History`
records what happened in a run, so that properties of whole runs can be stated on its end; the machine does not read it.

The comment at driver.c:195-198 leaves open whether a request can go unanswered and whether the wake-up at line 199 is
needed. The answers:

- No request is ever lost (`NoRequestLost`).
- Without signals to server threads no wake-up is lost either, with or without line 199 (`NoLostWakeup`,
  `ExtraWakeupRedundant`): pending requests reach the server by the readers' own steps (`RequestsReachReaders`,
  `SleepersLeaveNothingBehind`).
- With signals a wake-up can be lost (`SignalLosesWakeup`): a reader that was woken and then takes a signal leaves without
  looking and without passing the wake-up on. Such a reader does not count as being on its way. `WakeupLostExactly` says
  when a wake-up is lost, for every run: some step lost it and no later step mended it. With line 199 the only losing step
  is a signal to the one reader on its way while there is work and a sleeper. Mending steps are an enqueue, a delivery, a
  shutdown request and a reader that enters during a shutdown; the bad state also ends when the only sleeper is signalled
  or the only pending request is aborted.
- With signals line 199 is not redundant: without it an ordinary delivery can lose a wake-up (`ExtraWakeupNeeded`).
- The callers' side is sound: nobody sleeps at line 368 or 378 once its wait is over (`NobodyOversleeps`), and `abort` is
  set for exactly the sleepers that a reader has to wake at lines 206-207 (`AbortTellsWhomToWake`).

For a server that answers only after the delivering read returned, the abort handshake has one gap, the missing second look
at `in_use` after line 379 (`AbortHandshake`, `ReturnLeavesWindowExactly`, `LateClaimHappens`).

**Directories.** `DirRecords` has the packed records and the cursor over them, `Readdir` the resumable readdir loops,
`PathWalk` path lookup through a dentry cache that may be arbitrarily stale, `LinkCounts` the incremental link counts.

**Inodes and handles.** `Handles` and `InodeCache` have the hash-and-compare inode cache against a plain map, `FileHandles`
the exported handles, `PageFreshness` the invalidation of cached pages by attributes.

**Pages.** `FilePages` has page-wise write-back, chunked writes and page reads against a flat byte sequence.

## Assumptions about the surroundings

- A file of the driver is not released while a read, write or ioctl on it is in flight.
- A pending SIGKILL is not withdrawn.
- `wake_up_interruptible` on the driver queue wakes one really sleeping exclusive waiter if there is one; which one is
  left open.
- `wait_event` tests its condition and falls asleep in one step (a wake-up in between keeps it from sleeping), `wake_up` on
  a transaction's queue wakes its caller, and a SIGKILL wakes it from the interruptible wait only.
- Replies fit in `uvfs_reply_u`; what a reply says is a number.
- The data buffer of a readdir reply starts at a multiple of four, as it does inside a transaction.
- Server errors are negative.
- For path walks, the server answers lookups by the key (aruid, sfuid, sbxid) of a directory's handle, and its tree does not
  change during the walk.
- Page fills are atomic with respect to invalidation, and `invalidate_inode_pages2` and `invalidate_inode_pages` drop every
  page.
- A read request with a negative offset is answered with no bytes.

Clocks, memory allocation, user-space copies and the server's answers are parameters.

## Model

| member | source | states |
|---|---|---|
| `DriverInvariant.NextInv` | driver.c:89-130 | every step of every thread, for any server, keeps the inductive invariant: lists disjoint and without repeats, one writer per claimed transaction, `in_use` only with a window open, empty lists without open files |
| `DriverInvariant.RunInv` | driver.c:89-422 | the invariant holds at the end of every run |
| `DriverInvariant.NoRequestLost` | driver.c:349-384 | in every run a transaction whose caller is still in uvfs_make_request is in exactly one of four places: once on the request list, once on the reply list, claimed by one writer, answered; all others are on neither list |
| `DriverCallers.NobodyOversleeps` | driver.c:360-384 | in every run a caller asleep at line 368 is neither answered nor killed and its transaction can still be answered; one asleep at line 378 has `in_use` and `abort` set and a window open |
| `DriverCallers.AbortTellsWhomToWake` | driver.c:204-208 | in every run, when a reader's window on a sleeping caller's transaction closes, the caller's wait is over if and only if `abort` is set |
| `DriverCallers.AbortWakeNeeded` | driver.c:206-207 | a concrete run to a caller asleep at line 378 that only the wake-up of line 207 can wake |
| `DriverCallers.NoHangWithoutServer` | driver.c:102-130 | in every run, when no file is open both lists are empty, no thread is in the driver, every queued caller is answered and awake and returns by its own next one or two steps |
| `DriverWakeups.NoLostWakeup` | driver.c:154-199 | in every run without signals to servers, if work is pending and a reader sleeps, another is awake with no signal pending or on its way out through the shutdown exit, with or without line 199 |
| `DriverWakeups.ExtraWakeupRedundant` | driver.c:195-199 | with line 199 removed, outside shutdown and without signals, while somebody sleeps there are at least as many woken readers as pending requests |
| `DriverWakeups.ShutdownReachesReaders` | driver.c:157-172 | in every run without signals, during a shutdown each step of a waiting reader brings all of them closer to leaving, and while one waits some waiting reader can take a step |
| `DriverWakeups.LaterWakeupRepairs` | driver.c:298-357 | from any state in which no sleeper has a signal pending, as in every run, an enqueue, a dequeue and a shutdown request leave somebody on the way who will look, if somebody sleeps |
| `DriverWakeups.RequestsReachReaders` | driver.c:154-201 | in every run without signals, outside shutdown, while a request is pending and a reader is on the queue some reader can take a step, and every such step delivers the oldest request |
| `DriverWakeups.SleepersLeaveNothingBehind` | driver.c:154-201 | in every run without signals, outside shutdown, while somebody sleeps the readers that are awake can deliver all pending requests in order by their own steps, with or without line 199 |
| `DriverSignals.StepServedExactly` | driver.c:154-199 | for every step, with signals and with or without line 199: work is left with nobody on the way who will look if and only if the step loses the wake-up or finds it lost and does not mend it; a signalled reader does not count |
| `DriverSignals.WakeupLostExactly` | driver.c:154-199 | in every run, with any signals, work is left with nobody on the way who will look if and only if some step lost a wake-up and no later step mended it; with line 199 only a signal to a woken reader loses one |
| `DriverSignals.ExtraWakeupNeeded` | driver.c:195-199 | a concrete run with a signal after which an ordinary delivery loses the wake-up without line 199 and keeps it with line 199 |
| `DriverSignals.SignalLosesWakeup` | driver.c:184-189 | a concrete run in which a signal leaves a request pending with readers asleep and nobody on the way, still so after the signalled reader has left and after another one is signalled |
| `DriverHistory.SerialOfWraps` | driver.c:412 | n increments of the int counter give n reduced to 32 signed bits |
| `DriverHistory.SharedSerialExactly` | driver.c:412 | two allocations of one session share a serial if and only if a multiple of 2^32 allocations lies between them |
| `DriverHistory.SessionSerialsDistinct` | driver.c:401-422 | in every run, transactions allocated since the same last close, at most 2^32 of them, have different serials |
| `DriverHistory.EqualSerialsExactly` | driver.c:126 | over all sessions: two transactions of a run carry the same serial if and only if their places after their last closes differ by a multiple of 2^32 |
| `DriverSessions.OlderSessionTakesReply` | driver.c:252-271 | a concrete run in which the reply to a completely read request is taken for one allocated before the last close and queued after it |
| `DriverHistory.ReplyCompletesItsTransaction` | driver.c:249-277 | within a session a write claims exactly the transaction that carries its serial, and after it only that transaction has changed |
| `DriverHistory.ClaimHeldUntilExit` | driver.c:262-277 | a transaction claimed by a writer stays claimed by it through any run of the other threads, and the writer's second critical section then answers that transaction and changes no other |
| `DriverHistory.UnmatchedReplyIgnored` | driver.c:262-267 | a write leaves the state unchanged if and only if nothing on the reply list carries its serial |
| `DriverHistory.FifoAtMostOnce` | driver.c:192-194 | in every run the delivered sequence followed by the pending list is the enqueue history without the aborted or drained ones, and has no repeats |
| `DriverOutcomes.OneOutcome` | driver.c:343-393 | in every run a returned request is on neither list and its outcome (not queued, interrupted, drained, replied with these data) is the one its history calls for; it is interrupted if and only if it was queued and its caller killed, answered or not |
| `DriverOutcomes.CheckDecides` | driver.c:371-384 | in every run, the section after the wait of line 368: killed and no window open, exactly then -ERESTARTSYS; killed with a window open, exactly then the abort wait; not killed, exactly then the answer of the last close or the server, unchanged |
| `DriverOutcomes.ReturnTells` | driver.c:350-383 | the step that returns leaves in the reply the error or the data its outcome says |
| `DriverOutcomes.ReturnedForever` | driver.c:343-393 | a returned request keeps its outcome and is never on a list again, whatever follows |
| `DriverOutcomes.ShutdownFreezesDelivery` | driver.c:154-172 | from a shutdown request until the last close nothing is delivered and nothing joins the reply list |
| `DriverOutcomes.DeliveredStillAnswered` | driver.c:249-277 | in every run within a session, everything on the reply list can still be answered by sending its serial, shutdown or not |
| `DriverOutcomes.LastCloseAnswersTheRest` | driver.c:106-127 | the last close answers everything left on either list with -EIO and ends the shutdown |
| `DriverHandshake.AbortHandshake` | driver.c:371-384 | in every run with a server that answers only after the delivering read returned, a window open on a returned transaction is one writer's, claimed after the caller had waited for a reader's window and before it retook the lock |
| `DriverHandshake.ReturnLeavesWindowExactly` | driver.c:374-383 | the returning step leaves a window open if and only if it is the one of line 379 and `in_use` is set by then |
| `DriverHandshake.SeenSerialIsPolite` | driver.c:252-261 | within a session, a server that sends only serials of completed reads answers only after the delivering read returned |
| `DriverSessions.AbortHandshakeBySerial` | driver.c:371-384 | the handshake theorem for a server described by the serials it sends |
| `DriverSessions.LateClaimHappens` | driver.c:378-383 | a concrete run of such a server in which uvfs_make_request returns with a writer's window open, and it is a late claim |
| `Driver.Device.NothingLost` | driver.c:343-393 | in every state the device gets to, a transaction whose caller has not returned is in exactly one place, the caller sleeps only while it has to wait, and it is answered, awake and without a window once no file is open |
| `Driver.Device.NewTransaction` | driver.c:401-422 | allocation of a fresh object is the machine's step |
| `Driver.Device.QueueRequest` | driver.c:348-358 | enqueueing is the machine's step; without open files the caller gets -EIO at once |
| `Driver.Device.FinishRequest` | driver.c:371-384 | the section after the wait is the machine's step; which of the three ends is taken and what the reply then holds, from `kill` and `in_use` before; a caller that returns is off both lists |
| `Driver.Device.SleepCaller` | driver.c:368-378 | a caller that finds its condition false falls asleep, the machine's step |
| `Driver.Device.FinishAbort` | driver.c:379-384 | so is the section after the abort wait |
| `Driver.Device.OpenFile` | driver.c:89-95 | so is an open |
| `Driver.Device.DrainRequests` | driver.c:109-116 | the first drain loop answers exactly the pending requests with -EIO, wakes their callers and empties the list |
| `Driver.Device.DrainReplies` | driver.c:117-124 | the second does so for the transactions awaiting replies |
| `Driver.Device.Release` | driver.c:102-130 | a close is the machine's step, drains included |
| `Driver.Device.ShutdownIoctl` | driver.c:293-301 | the shutdown request is the machine's step and sets the flag |
| `Driver.Device.Read` | driver.c:135-201 | a read of fewer than 4156 bytes is refused with -EIO and changes nothing; any other is the machine's step and takes the oldest request if and only if there is one and no shutdown |
| `Driver.Device.ReadAgain` | driver.c:180-201 | a sleeper that runs again leaves with -ERESTARTSYS exactly on a signal, else takes the oldest request if and only if there is one and no shutdown |
| `Driver.Device.LeaveOnShutdown` | driver.c:164-171 | the shutdown exit passes the wake-up on |
| `Driver.Device.EndRead` | driver.c:204-208 | closing a reader's window is the machine's step; it wakes the caller exactly if `abort` is set |
| `Driver.Device.Search` | driver.c:252-261 | the search loop finds the first transaction on the list with the serial, and none only if nobody has it |
| `Driver.Device.Write` | driver.c:221-271 | the three early errors change nothing; otherwise the claim is the machine's step, a transaction is claimed and 0 returned if and only if one on the reply list has the serial, else -EINVAL |
| `Driver.Device.EndWrite` | driver.c:273-282 | closing a writer's window answers the transaction and wakes its caller |
| `DirRecords.CursorRecovers` | dir.c:534-552 | on a buffer that holds a list of records the cursor stays aligned and in bounds and reads exactly that list |
| `DirRecords.PackRoundTrip` | protocol.h:467-483 | every entry list packed with four-byte rounding, followed by anything, is recovered by the cursor |
| `DirRecords.AddressIsOffset` | dir.c:548-551 | rounding addresses is rounding offsets when the buffer is aligned |
| `Readdir.Fetch` | dir.c:534-551 | dereferencing a record and stepping to the next one yields the entry and the position of the rest |
| `Readdir.AheadSorted` | dir.c:546 | entries shown have strictly increasing indices, so none repeats |
| `Readdir.ShownIsBelow` | dir.c:494-559 | the entries shown are exactly those of the directory with index below `f_pos` |
| `Readdir.DirFile.ShowRecords` | dir.c:534-552 | the inner loop shows a beginning of the reply's entries, as many as filldir takes in a row, stops early only at one it refuses, and moves `f_pos` past exactly those shown |
| `Readdir.DirFile.ReadDir` | dir.c:494-559 | exactly what a call does: it asks at `f_pos` again and again, shows whole replies, and ends at an error, which it returns, at an empty reply, or at the entry the buffer refuses; every call ends and only adds entries with higher indices; for a fixed directory and any cutting into replies, what all calls showed is a beginning of it, all of it if and only if a call returns 0 without a full buffer |
| `Readdir.FixedEnds` | dir.c:494-559 | why: replies about a fixed directory go on where the entries shown end |
| `PathWalk.WalkByKey` | dir.c:133-183 | a walk does not depend on which handle of a file it starts from |
| `PathWalk.Dcache.Revalidate` | dir.c:568-624 | a cached dentry is trusted if and only if it has an inode and the server, asked for a name of at most 256 bytes, still names that file there, or the lookup was interrupted, or something is mounted below it; else it is unhashed |
| `PathWalk.Dcache.LookUp` | dir.c:92-183 | a lookup gives the cached inode of the key the server answered, or a negative dentry on any error, a name of more than 256 bytes and a failed uvfs_iget included |
| `PathWalk.Dcache.Walk` | dir.c:568-624 | for every path and every stale cache, a server that goes by keys, no interrupted lookup and nothing mounted below, the walk ends at the file that asking the server for each component ends at, or nowhere with it; lack of memory can only make it end nowhere |
| `LinkCounts.AdjustAgrees` | dir.c:461-481 | one successful operation keeps every count equal to the one recomputed from the namespace |
| `LinkCounts.CountsAgreeOverRuns` | dir.c:219-481 | so does every run of create, mkdir, symlink, unlink, rmdir and rename |
| `LinkCounts.RenamedRecount` | dir.c:461-481 | what a rename does to every recomputed count, within one directory or between two, onto nothing or onto a file or an empty directory |
| `LinkCounts.Client.CreateEntry` | dir.c:62-78 | create and symlink: counts and namespace after success, neither changed after an error of the server; if uvfs_iget fails the server has the file and the client's counts still agree |
| `LinkCounts.Client.MakeDir` | dir.c:343-361 | the same for mkdir, but if uvfs_iget fails exactly the parent's count is one too low |
| `LinkCounts.Client.RemoveEntry` | dir.c:217-226 | the same for unlink |
| `LinkCounts.Client.RemoveDir` | dir.c:402-408 | the same for rmdir |
| `LinkCounts.Client.RenameEntry` | dir.c:459-481 | the same for rename |
| `Handles.CompareIsKeyEquality` | super.c:125-135 | the comparison is equality of (aruid, sfuid, sbxid), an equivalence that the hash respects; a handle rebuilt from a key has zeros elsewhere |
| `InodeCache.InsertImplements` | super.c:137-151 | a new inode on its chain keeps the chains an implementation of the plain map |
| `InodeCache.Cache.Lookup` | super.c:448-449 | searching one hash chain finds exactly the inode the plain map has |
| `InodeCache.Cache.Iget` | super.c:144-212 | the cached inode of the key refreshed, or a new one; one inode per key, one key per inode |
| `InodeCache.Cache.GetDentry` | super.c:437-518 | a cached inode is found without the server; otherwise its answer decides, -ECOMM told as -ESTALE; a dentry that cannot be had fails the call and leaves the cache |
| `FileHandles.EncodeFh` | super.c:285-315 | the words written, their number and the type; a buffer too small is refused and untouched |
| `FileHandles.HandleRoundTrip` | super.c:285-349 | decoding gives back the inode's key; a parent comes back exactly for a connectable non-directory, with the right key if and only if it shares the child's aruid |
| `FileHandles.DecodersAgreeExactly` | super.c:317-387 | the decoders of the two kernel generations agree on a handle if and only if its type is at least 1 |
| `FileHandles.Resolve` | super.c:319-333 | encoding and decoding the handle of a cached inode finds that very inode |
| `PageFreshness.RevalidatedPagesAreFresh` | super.c:214-247 | if stamps tell, then in every run, late replies included, every page that survives a refresh with current attributes shows the bytes it would be filled with now |
| `PageFreshness.DistinctStampsTell` | super.c:216-218 | (size mod 2^32, mtime) never repeating is enough for that |
| `PageFreshness.FreshExactly` | super.c:214-247 | the exact condition: all runs are fresh page by page if and only if no byte a page can show changes between two versions with the same (size mod 2^32, mtime) |
| `PageFreshness.StaleOtherwise` | super.c:214-247 | otherwise a run and a page of it that survives a refresh with current attributes and shows different bytes |
| `PageFreshness.CachedFile.RefreshInode` | super.c:214-247 | the pages are kept if and only if the 32-bit size, the seconds and the nanoseconds of the mtime all equal those of the inode, which then has the new ones; the step of the machine |
| `PageFreshness.CachedFile.RevalidateInode` | super.c:249-283 | an error changes nothing; success leaves only pages with the bytes of the present version |
| `PageFreshness.CachedFile.FillPage` | file.c:171-217 | a page read puts the present version's bytes in the mapping, an error nothing |
| `FilePages.PageRequestExact` | file.c:128-156 | for every size up to 0xFFFFFFFF the request for a page covers exactly the file's bytes in it, without wrap |
| `FilePages.EachByteSentOnce` | file.c:128-165 | over all pages each byte of [0, i_size) is sent exactly once and no other byte is |
| `FilePages.ReadOffsetExact` | file.c:194 | the int offset of a read is right if and only if it is below 2^31 |
| `FilePages.PageReadExact` | file.c:194-210 | among the pages the mount allows, a page read is the file's page if and only if its offset is below 2^31 or the file has only zeros there |
| `FilePages.ReadPage` | file.c:171-225 | for every page, the zero-padded bytes at the offset the request holds; on an error the page is left alone |
| `FilePages.PageBytes` | file.c:204-210 | bytes read through pages are the file's bytes |
| `FilePages.SpliceTwice` | file.c:286-300 | two adjacent writes are one |
| `FilePages.CommitSizeExactly` | file.c:298-307 | after a commit `i_size` agrees with the server if and only if something was written or nothing was raised |
| `FilePages.File.WritePage` | file.c:128-165 | what one page write-back does to the server, the skipped pages included |
| `FilePages.File.WriteBack` | file.c:128-165 | writing back all pages leaves the server with exactly what the pages show |
| `FilePages.File.CommitWrite` | file.c:286-313 | the bytes sent and the new `i_size`, also when the server refuses |
| `FilePages.File.WriteEnd` | file.c:249-269 | a short copy zeroes exactly the rest of the chunk in the page and sends only what was copied; the answer is its length whatever the server said |
| `FilePages.File.WriteFile` | file.c:229-313 | a write cut into page chunks leaves the flat splice on the server and its length in `i_size` |
| `FilePages.File.WriteRun` | file.c:229-313 | so does any run of writes |
| `FilePages.LastWriteWins` | file.c:229-313 | after a run of writes every byte written is that of the last write that covers it |
| `FilePages.RunReaches` | file.c:298-307 | and the file is as long as it was or as the farthest nonempty write reaches |

## Left out

- Kernel internals: scheduler, spinlocks, slab allocator, dcache, page cache and `iget5_locked` appear only through small contracts.
- Addresses: every allocation of a transaction has its own address, and the lists are sequences of references, so neither the reuse of freed memory nor the links inside `list_head` are captured.
- driver.c:215: the size returned by a read is fetched after the unlock; the model returns it without that access.
- Signal masks (driver.c:360-365, 386-390) are reduced to a pending kill that never clears.
- Driver.Device.EndWrite: what the copy of line 272 stores appears at the end of the window, since nobody may look before.
- PathWalk.Dcache.Walk: says nothing about walks with interrupted lookups or something mounted below, the two cases in which dir.c:594 and dir.c:617 keep a stale dentry; Revalidate states them.
- PathWalk.Dcache.LookUp: does not model `d_splice_alias` finding an older dentry of a directory, nor `shrink_dcache_parent`; the error results set at dir.c:163 and dir.c:173 are overwritten at dir.c:178, so every error ends as a negative dentry.
- LinkCounts.CountsAgreeOverRuns: is about operations whose uvfs_iget succeeds; CreateEntry and MakeDir state what a failed one (dir.c:73-77, 355-359) leaves behind.
- LinkCounts.Client.RenameEntry: relies on the kernel's checks before a rename (different inodes, same kind, no directory into itself) and on the server refusing to replace or remove a directory that is not empty.
- FilePages.File.WritePage: page flags and locks are not modelled.
- Page coherence after partial local writes: `uvfs_prepare_write` loads nothing, so the code does not establish it.
- uvfs_permission, symlink.c, statfs, setattr, getattr, read_super, option parsing, operations.c, uvfs_signal.cc, module setup and the other ioctls: one request with field copies, or plumbing.
