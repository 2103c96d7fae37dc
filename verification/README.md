# S.Ha.R.K.: verified models of its file system core and kernel queues

S.Ha.R.K. is a real-time kernel in C. This project models the parts of it whose correctness is not local to one
function, in `rtos/fs` (block cache, inode cache, readers/writer lock, shutdown gate, tree of mounted file systems) and
in `rtos/kernel` (task queues, task descriptors and joins, queued signals and per-process timers, execution times), and
proves their invariants for tables of any size and any number of threads. `dafny verify dfyconfig.toml` checks it all.

## How it is built

Where the C code updates tables in place, a class has the same tables as arrays and the same steps as methods. Each
method is proved against a function on values (`State()`, `Abs()` is the value of the tables), and the properties are
proved about those functions. Where threads interleave, the same functions are the steps of a transition system
(`Machines`): a region under a mutex or with interrupts disabled is one atomic step, a semaphore wait is a step of its
own, and theorems quantify over all feasible runs.

| file | what it is about |
|---|---|
| `IndexLists.dfy`, `HashedLists.dfy` | lists threaded through tables by index; hash buckets and a free list over one table |
| `Machines.dfy` | runs of transition systems: invariants, termination measures, populations of threads |
| `RwLock.dfy` | the readers/writer lock, for any number of threads |
| `EntryHandshake.dfy` | one block-cache entry under concurrent lock, unlock and eviction |
| `EntryLocking.dfy` | that entry together with its own readers/writer lock |
| `DiskCache.dfy`, `DiskCacheCode.dfy` | the whole block cache run by one thread, over a disk that may fail |
| `DiskCacheSessions.dfy` | its runs, with any number of blocks held, against a plain disk |
| `InodeCache.dfy`, `InodeSessions.dfy` | the inode cache and its runs |
| `SyscallGate.dfy` | the gate that the shutdown closes |
| `SuperTree.dfy` | the tree of super blocks and its visit |
| `IQueue.dfy` | task queues over shared links |
| `ShadowChains.dfy`, `TaskTable.dfy` | shadow pointers; descriptors from creation over join to reuse |
| `TaskRuns.dfy`, `TaskCases.dfy` | what holds over the runs of joining tasks and exactly when it fails; runs in which it does |
| `SignalTable.dfy`, `SignalCode.dfy`, `SignalDelivery.dfy` | the shared table of signal entries; its code; delivery |
| `SignalHistory.dfy` | what goes into the signal queues and the timers over whole runs, and what comes out |
| `Clocks.dfy` | time arithmetic and the arming of timers |
| `ExecTimes.dfy` | the ring of job execution times |

History variables (ghost fields, and the components `signals`, `exits`, `missed`, `held`, `last`, `place`, `holder`)
record what happened; no operation depends on them. Integers are unbounded, including `task_ID`; the hash functions wrap
at 32 bits as the code does. A signal set is the set of its members. Pointers to slots of a static table are indices.
The fields of `sig_queue` and the link fields of `dcache` are kept in arrays of their own.

## Where the code does less than it seems to

Each of these is proved, with a concrete case, an exact condition, or both.

- `task_join` looks whether its target exists and is joinable with interrupts enabled, and does not look again when it
  has disabled them; and a task that ends is freed only after its cleanup handlers, again with interrupts enabled. A join
  comes `Late` when it blocks although its target has ended and another join has ended its reservation, or the
  descriptor is free, or it is that of a task that cannot be joined. Exactly then nobody ever releases it and a later
  end of the descriptor's user can raise `XINVALID_KILL_SHADOW` (`LostExactly`, `LostForEver`, `JoinCanRaiseExactly`,
  `JoinCanBeLate`, `JoinCanBlockOnFree`, `JoinCanBlockOnDetached`).
- When the descriptor has been used again for a task that can be joined, `task_join` waits for that task, which the caller
  never named, and delivers its value. It is right exactly when the task found by its first check is the one in the
  descriptor (`WaitsForNamedExactly`, `JoinIsRightExactly`, `JoinCanWaitForAnother`).
- A joiner killed with cancellation disabled goes on with the end of `task_join`. The invariant is kept exactly when its
  target is no `Hazard`, else a descriptor can be queued twice (`StepKeepsExactly`, `SurvivorQueuesTwice`). It too is
  right exactly when the task it found is still waiting to be joined in its descriptor (`JoinIsRightExactly`,
  `SurvivorTakesAnother`).
- A joiner that is released and dies before it runs leaves its target unjoinable, as a comment in `kill.c` says. The
  target stays so exactly until a survivor of an earlier join of the descriptor goes on, and for ever, whatever else
  happens, when there is none (`DeadJoinerStrands`, `StrandedExactly`, `StrandedForEverExactly`, `TaskCanBeStranded`, `StrandedCanBeRescued`).
- The loop of `sigaction` that drops pending entries is right exactly for a queue of at most one entry, and two can be
  queued (`DropsExactly`, `DropCanGoWrong`).
- A timer whose signal is not accepted by `sigqueue_internal` leaves its entry on the free list although it counts it as
  posted (`FireKeepsExactly`, `RefusedPostLeaksEntry`, `EntryCanLeak`).
- A successful try-lock can wait: another caller takes its token between the monitor section and the semaphore wait.
  It can be overtaken exactly when another caller of its side is blocked (`OvertakenExactly`, `TryLockMayWait`).
- The shutdown loses its wakeup exactly when the last call leaves through `release_sys_call`; it then ends by its timeout
  or not at all (`WokenExactly`, `LostForEver`, `WakeupCanBeLost`).
- The scan for an entry to evict finds none exactly when every idle entry is stamped with its initial bound, or is dirty
  and comes after a clean one (`ScanFailsExactly`, `BlindToNever`).
- The assertion `used==1` of `dcache_dirty` holds for a writer exactly when no other thread refers to the entry; a thread
  that only waits for the lock makes it fail (`DirtyAssertedExactly`, `DirtyAssertionCanFail`).
- `super_removefromtree` reads the first child before it takes the mutex. When that child is the block to remove and
  others have been inserted in front of it since, all those are cut off with it, and exactly then the tree is broken
  (`RemoveSection`, `LeftIsTreeExactly`).
- Entries purged by `dcache_purgedevice`, and inodes destroyed by `destroy_inode`, end on no list and are not used again
  in any run (`DiskCacheSessions.Session`, `InodeSessions.Session`).
- `find_inode` recycles the slot of an inode without references whether it is dirty or not. The change is not written
  back, and the flag is that of the next inode in the slot (`FindInode`, `InodeSessions.Session`).
- `jet_gettable` with a negative argument returns the number of slots but copies nothing once that many jobs have
  passed (`GetTable`). `jet_delstat` does not clear the table although its comment says so (`DelStat`).
- `timer_settime` with a zero value deletes the event but keeps its number, so the timer still counts as armed
  (`SetTime`).

## Model

| member | source | states |
|---|---|---|
| RwLocks.RwLock.RdLock | rtos/fs/rwlock.c:35-48 | enters the monitor as a reader: admitted with a token, or counted as blocked |
| RwLocks.RwLock.TryRdLock | rtos/fs/rwlock.c:50-67 | succeeds exactly when a reader is admitted, and changes nothing when it fails |
| RwLocks.RwLock.WrLock | rtos/fs/rwlock.c:69-83 | enters the monitor as a writer |
| RwLocks.RwLock.TryWrLock | rtos/fs/rwlock.c:85-103 | succeeds exactly when a writer is admitted, and changes nothing when it fails |
| RwLocks.RwLock.RdUnlock | rtos/fs/rwlock.c:105-117 | the last reader hands the lock to one blocked writer |
| RwLocks.RwLock.WrUnlock | rtos/fs/rwlock.c:119-137 | the loop hands the lock to all blocked readers at once, else to one blocked writer |
| RwLocks.ReachableInv | rtos/fs/rwlock.c:35-137 | in every state any number of threads can reach: at most one active writer, who excludes active readers; threads inside plus tokens are the active count, and threads waiting are the blocked count plus tokens, for both sides |
| RwLocks.WriterExcludes | rtos/fs/rwlock.c:35-137 | a writer inside excludes every other thread |
| RwLocks.NoLostWakeup | rtos/fs/rwlock.c:105-137 | somebody waiting implies a token he may use or a holder inside; an idle lock has nobody blocked or waiting |
| RwLocks.Progress | rtos/fs/rwlock.c:35-137 | some waiting or holding thread can move exactly when there is one |
| RwLocks.EverybodyIsServed | rtos/fs/rwlock.c:35-137 | without new calls every run is bounded by the work left, so everybody gets in and out |
| RwLocks.QueuedWriterStopsReaders | rtos/fs/rwlock.c:39-43 | while a writer is queued, readers are admitted only by a departing writer, all those blocked in one batch |
| RwLocks.OneWriterBeforeABlockedReader | rtos/fs/rwlock.c:119-137 | over any run in which a reader stays blocked at most one writer is admitted |
| RwLocks.OneBatchBeforeABlockedWriter | rtos/fs/rwlock.c:119-137 | over any run in which a writer stays queued and none is admitted at most one batch of readers is |
| RwLocks.OvertakenExactly | rtos/fs/rwlock.c:50-67 | a thread between its section and its wait can be left without a token exactly when another caller of its side is blocked |
| RwLocks.TryLockSucceeds | rtos/fs/rwlock.c:50-103 | right after a successful try-lock there are as many tokens as waiters and it cannot be overtaken |
| RwLocks.TryLockMayWait | rtos/fs/rwlock.c:50-67 | a run of three threads in which a successful try-lock is left waiting |
| EntryHandshake.CacheEntry.Hit | rtos/fs/dcache.c:933-944 | the section of a search that finds the entry |
| EntryHandshake.CacheEntry.GiveUp | rtos/fs/dcache.c:948-975 | a woken thread that sees a failure drops its reference; the last one signals `esync` or frees the entry |
| EntryHandshake.CacheEntry.FinishRead | rtos/fs/dcache.c:1031-1068 | the section after the read of a miss, both outcomes |
| EntryHandshake.CacheEntry.FinishWriteBack | rtos/fs/dcache.c:528-559 | the section after the write-back of an eviction: restored on failure, error synchronisation when somebody was woken |
| EntryHandshake.CacheEntry.WakeAll | rtos/fs/dcache.c:541-545 | the loop turns every blocked thread into one token |
| EntryHandshake.ReachableInv | rtos/fs/dcache.c:510-577 | the invariant of the handshake in every reachable state |
| EntryHandshake.ReferencesCounted | rtos/fs/dcache.c:931-985 | `used` is the number of threads that refer to a listed entry and -1 on the free list; threads queued for `ready` are those to be signalled plus the tokens; holders have a ready entry under its key |
| EntryHandshake.AssertionsHold | rtos/fs/dcache.c:341-1103 | no assertion in the code of lock, unlock and eviction ever fails |
| EntryHandshake.RecycledOnlyWhenUnreferenced | rtos/fs/dcache.c:1012-1068 | an entry is refilled or freed only when no other thread refers to it |
| EntryHandshake.ErrorSyncSignalledOnce | rtos/fs/dcache.c:550-577 | each error synchronisation gets exactly one signal, from the last failed waiter, and its token is the one consumed |
| EntryHandshake.WrittenBeforeRecycled | rtos/fs/dcache.c:510-577 | over every run that follows a write to the entry, it is refilled or freed only once a write-back has succeeded; a failed one leaves it to be written again |
| EntryHandshake.WrittenBackOnlyIfMarked | rtos/fs/dcache.c:507-537 | over every run that follows a refill, the entry is evicted as dirty only if it has been written to since |
| EntryHandshake.ReadBeforeUse | rtos/fs/dcache.c:1022-1063 | over every run that follows the step in which a thread takes the entry for a key, somebody holds it only once a read has succeeded |
| EntryHandshake.Progress | rtos/fs/dcache.c:510-577 | whenever some thread is in the handshake, some thread in it can move |
| EntryHandshake.EverybodyLeaves | rtos/fs/dcache.c:911-1110 | without new calls every run is bounded, whatever the disk does |
| EntryLocking.ReachableInv | rtos/fs/dcache.c:911-1110 | the handshake and the lock of an entry run together keep both invariants, and whoever waits for the lock or has it holds a reference to the entry |
| EntryLocking.TransferExcludes | rtos/fs/dcache.c:1022-1043 | while the disk is read or written for the entry, nobody has the lock, waits for it or is about to ask, and there is no other transfer |
| EntryLocking.WriterIsAlone | rtos/fs/dcache.c:1148-1180 | a writer of the buffer excludes every other user and every transfer, and has the ready entry under its key |
| EntryLocking.FillerIsAlone | rtos/fs/dcache.c:1022-1043 | while a thread reads the block, the lock is unused and every other thread is away or queued without a token |
| EntryLocking.LockUnderMutexNeverBlocks | rtos/fs/dcache.c:1039-1044 | the lock taken with the cache mutex held after a read never blocks, for reading or writing |
| EntryLocking.DirtyAssertedExactly | rtos/fs/dcache.c:600-606 | the assertion that the entry has one user holds for a writer exactly when no other thread refers to it |
| EntryLocking.FinderBreaksAssertion | rtos/fs/dcache.c:600-606 | any thread that finds the block while a writer has it makes that assertion fail |
| EntryLocking.DirtyAssertionCanFail | rtos/fs/dcache.c:600-606 | a reachable state in which it fails |
| EntryLocking.WrittenBeforeRecycled | rtos/fs/dcache.c:510-606 | the same for a writer under the lock, over every run of handshake and lock together |
| EntryLocking.Progress | rtos/fs/dcache.c:911-1110 | the two protocols together never get stuck: some thread that refers to the entry can move exactly when there is one |
| EntryLocking.EverybodyLeaves | rtos/fs/dcache.c:911-1110 | without new calls every run of both is bounded, so every thread gets its lock, gives it back and leaves |
| HashedLists.TakeFreeSpelled | rtos/fs/dcache.c:330-350 | popping the free list keeps all links right |
| HashedLists.PutFreeSpelled | rtos/fs/dcache.c:361-378 | pushing an entry of no list on the free list keeps all links right |
| HashedLists.InsertSpelled | rtos/fs/dcache.c:394-417 | the writes of an insertion put the entry in front of its bucket, with next and prev mutual inverses, and touch no other list |
| HashedLists.RemoveSpelled | rtos/fs/dcache.c:428-446 | the writes of a removal take exactly that entry out of its bucket and touch no other list |
| HashedLists.RemoveUndoesInsert | rtos/fs/dcache.c:428-446 | removal by the stored bucket number restores the lists as before the insertion |
| DiskCaches.FillKeeps | rtos/fs/dcache.c:1012-1043 | filling an unlisted entry with an uncached block, as the disk has it, keeps the invariant and what every reader sees |
| DiskCaches.FailedFillKeeps | rtos/fs/dcache.c:1048-1063 | a failed read puts the entry back on the free list, whatever was written over its key |
| DiskCaches.EvictKeeps | rtos/fs/dcache.c:507-578 | evicting a block whose content the disk has is not noticed by any reader |
| DiskCaches.TouchKeeps | rtos/fs/dcache.c:510-537 | a write-back, failed or not, changes nothing a reader sees as long as dirty is cleared only when disk and buffer agree |
| DiskCaches.WriteChanges | rtos/fs/dcache.c:600-606 | a dirty write changes the view at its own key and nowhere else |
| DiskCaches.ScanIsBest | rtos/fs/dcache.c:485-498 | for stamps below the bound, the flag, index and stamp of the eviction scan say after any entries which of them is the best |
| DiskCaches.ScanFindsVictim | rtos/fs/dcache.c:478-501 | for stamps below the bound the scan ends with the oldest clean idle entry, else the oldest dirty idle one, else none |
| DiskCaches.ScanFailsExactly | rtos/fs/dcache.c:478-501 | for any stamps it finds none exactly when every idle entry is overlooked: stamped with the initial bound, or dirty and after a clean one |
| DiskCaches.BlindToNever | rtos/fs/dcache.c:478-501 | a cache with a clean idle entry in which the whole scan finds nothing |
| DiskCaches.TriedOneMore | rtos/fs/dcache.c:858-872 | one more entry tried by a flush: clean unless its own write failed, and no other write has |
| DiskCaches.TriedAll | rtos/fs/dcache.c:840-880 | when every cached entry has been tried, the disk has every sector whose write did not fail, as its readers see it |
| DiskCacheCode.DiskCache.constructor | rtos/fs/dcache.c:229-262 | the empty cache satisfies the invariant |
| DiskCacheCode.DiskCache.GetDcache | rtos/fs/dcache.c:330-350 | pops the free list |
| DiskCacheCode.DiskCache.FreeDcache | rtos/fs/dcache.c:361-378 | pushes on the free list |
| DiskCacheCode.DiskCache.InsertDcache | rtos/fs/dcache.c:394-417 | enters the bucket of its key |
| DiskCacheCode.DiskCache.RemoveDcache | rtos/fs/dcache.c:428-446 | leaves its bucket |
| DiskCacheCode.DiskCache.ScanEntry | rtos/fs/dcache.c:485-498 | one round of the eviction scan |
| DiskCacheCode.DiskCache.ScanBucket | rtos/fs/dcache.c:483-500 | the scan goes on over one more bucket |
| DiskCacheCode.DiskCache.FindVictim | rtos/fs/dcache.c:478-501 | finds an idle entry, or none exactly when every idle entry is overlooked; for stamps below the bound the victim: the oldest clean idle entry, else the oldest dirty idle one |
| DiskCacheCode.DiskCache.WriteBack | rtos/fs/dcache.c:507-567 | the write-back of a dirty victim: restored when it fails, ready to leave when it works |
| DiskCacheCode.DiskCache.PurgeDcache | rtos/fs/dcache.c:456-581 | evicts an idle entry, the victim for stamps below the bound; no content changes even when the write-back fails; without a failed write nothing is evicted exactly when every idle entry is overlooked |
| DiskCacheCode.DiskCache.CatchDcache | rtos/fs/dcache.c:666-673 | a free entry if there is one, else an evicted one, never one that is on no list |
| DiskCacheCode.DiskCache.Find | rtos/fs/dcache.c:928-995 | finds the entry of the key, or proves that there is none |
| DiskCacheCode.DiskCache.Fill | rtos/fs/dcache.c:1012-1068 | the second stage of a lock, for both outcomes of the read |
| DiskCacheCode.DiskCache.Fetch | rtos/fs/dcache.c:997-1076 | the part of a lock for a block that is not cached |
| DiskCacheCode.DiskCache.GenLock | rtos/fs/dcache.c:911-1076 | no content changes; the entry returned has the key and its content; a hit costs no transfer; entries in use are left alone; entries on no list stay there and no others join them; without a failed transfer nothing is returned exactly when the block is not cached, no entry is free and every idle one is overlooked |
| DiskCacheCode.DiskCache.Hit | rtos/fs/dcache.c:936-937 | one reference more on a cached entry; no content changes |
| DiskCacheCode.DiskCache.GenUnlock | rtos/fs/dcache.c:1090-1110 | drops a reference and stamps the entry; no content changes |
| DiskCacheCode.DiskCache.WriteBlock | rtos/fs/dcache.c:600-606 | the content changes at the held key only |
| DiskCacheCode.DiskCache.FlushEntry | rtos/fs/dcache.c:856-872 | writes one dirty entry back and clears its flag, or leaves it dirty with one failed write more for its key |
| DiskCacheCode.DiskCache.Flush | rtos/fs/dcache.c:840-880 | no content changes; 0 is returned exactly when no transfer failed; a failed write does not keep the other blocks from the disk: it has every content but that of blocks whose own write failed in this flush, exactly those stay dirty, only blocks that were cached and dirty fail, and each once |
| DiskCacheCode.DiskCache.PurgeEntry | rtos/fs/dcache.c:785-814 | one block of the device is written back and unlinked |
| DiskCacheCode.DiskCache.PurgeDevice | rtos/fs/dcache.c:739-829 | afterwards no block of the device is cached unless it stopped at an error; without `cont` no content is lost, and with it exactly what was dirty and whose own write-back failed |
| DiskCacheSessions.LockOne | rtos/fs/dcache.c:911-1076 | a lock with any blocks held: the entry has the block, no other content or held entry changes, and without a failed transfer it is refused only when every entry is in use or lost |
| DiskCacheSessions.UnlockOne | rtos/fs/dcache.c:1090-1110 | gives back one reference of a held entry, and is refused for any other |
| DiskCacheSessions.FlushAll | rtos/fs/dcache.c:840-880 | a flush with any blocks held: the same, and held entries and references are as before |
| DiskCacheSessions.PurgeOne | rtos/fs/dcache.c:739-829 | refused exactly when a block of the device is held; else it loses exactly the blocks whose own write-back failed, only with `cont`, and those were dirty |
| DiskCacheSessions.Execute | rtos/fs/dcache.c:739-1110 | one lock, read, write, unlock, flush or purge with any blocks held: its answer, every content, references, keys of held entries, lost entries; a flush or a purge reports an error exactly when a transfer failed in it, what a flush leaves dirty, and that a purge that runs to its end empties its device |
| DiskCacheSessions.NoRoomIsFull | rtos/fs/dcache.c:456-501 | with no entry free or idle, references and lost entries are at least as many as entries |
| DiskCacheSessions.OneMoreKey | rtos/fs/dcache.c:911-1110 | over one more operation held entries keep the key they were locked for |
| DiskCacheSessions.OneMore | rtos/fs/dcache.c:739-1110 | one more operation extends the correspondence with a plain disk |
| DiskCacheSessions.Session | rtos/fs/dcache.c:739-1110 | for any sequence of these operations and any failing transfers: everything read and everything there in the end is what a plain disk would hold, but for the blocks that purges with `cont` could not write back; a held entry serves the block it was locked for; each flush and purge reports an error exactly when one of its own transfers failed; references are the locks outstanding; an entry that a purge left on no list is never used again; and without failing transfers a lock is refused only when at least as many locks are outstanding as there are entries not lost |
| InodeCaches.SlotsAreAMap | rtos/fs/inode.c:364-395 | referenced inodes have one slot each, and distinct inodes distinct slots |
| InodeCaches.WithLinksKeeps | rtos/fs/inode.c:374-380 | the link count stays the number of finds less unlocks |
| InodeCaches.EnterKeeps | rtos/fs/inode.c:238-256 | entering an uncached inode keeps every other reference |
| InodeCaches.DropKeeps | rtos/fs/inode.c:265-274 | removing an unreferenced inode keeps every reference |
| InodeCaches.InodeCache.GetInode | rtos/fs/inode.c:174-205 | pops the free list |
| InodeCaches.InodeCache.FreeInode | rtos/fs/inode.c:218-228 | pushes on the free list |
| InodeCaches.InodeCache.InsertInode | rtos/fs/inode.c:238-256 | enters the bucket of its key with one link |
| InodeCaches.InodeCache.RemoveInode | rtos/fs/inode.c:265-274 | leaves its bucket |
| InodeCaches.InodeCache.PurgeInode | rtos/fs/inode.c:284-306 | recycles only a slot without links; there is none only if every cached inode is in use |
| InodeCaches.InodeCache.FindInode | rtos/fs/inode.c:364-395 | a cached inode keeps its slot, one reference is added, inodes in use are never recycled, the slot taken is the head of the free list or else one without links, no dirty flag changes, and it fails exactly when no slot is free, every cached inode is in use and this one is not cached |
| InodeCaches.InodeCache.UnlockInode | rtos/fs/inode.c:398-407 | gives one reference back and changes nothing else |
| InodeCaches.InodeCache.MarkDirty | rtos/fs/utime.c:69-78 | a holder marks its inode as changed |
| InodeCaches.InodeCache.DestroyInode | rtos/fs/inode.c:410-435 | succeeds exactly for the only reference when the write-back works; the slot then is on no list |
| InodeSessions.Execute | rtos/fs/inode.c:364-437 | one find, change, unlock or destroy: its answer in every state, and what it does to references, slots and dirty flags |
| InodeSessions.RightNow | rtos/fs/inode.c:364-437 | in a state that a session has come to, what is answered for the slot of a referenced inode is right |
| InodeSessions.FullNow | rtos/fs/inode.c:364-395 | when no slot is free and every cached inode has references, every slot has an owner of its own or is lost |
| InodeSessions.Session | rtos/fs/inode.c:364-437 | over any sequence of operations references are counted right; an inode is found in the same slot as long as it stays referenced, and changed, given back and destroyed there, the last exactly for its only reference and with the write-back it needs; a find gets no slot only when every slot belongs to an inode of its own with references or is lost; and the slot of a destroyed inode is never handed out again |
| SyscallGates.SyscallGate.CallToFs | rtos/fs/fs.h:131-141 | enters and is counted exactly when the state is 0; a refused call changes nothing |
| SyscallGates.SyscallGate.ReleaseSysCall | rtos/fs/fs.h:146-151 | counts the call out without a signal |
| SyscallGates.SyscallGate.ReacquireSysCall | rtos/fs/fs.h:154-162 | counts the call in again unless the gate is closed |
| SyscallGates.SyscallGate.ReturnFromFs | rtos/fs/fs.h:165-178 | counts the call out; the last one out of a closed gate must signal |
| SyscallGates.SyscallGate.BlockAllFsCalls | rtos/fs/fs.h:213-246 | closes the gate and waits exactly when calls are in progress |
| SyscallGates.ReachableInv | rtos/fs/fs.h:131-246 | the invariant over every run of any number of threads and one shutdown |
| SyscallGates.CountsCalls | rtos/fs/fs.h:131-246 | the counter is the number of calls in progress and not released, at most one signal is sent, and a finished shutdown leaves no call in progress |
| SyscallGates.NobodyBeforeTheStart | rtos/fs/fs.h:131-141 | over every run nobody is inside, nor counted, before the gate is opened for the first time |
| SyscallGates.ClosedForEver | rtos/fs/fs.h:131-162 | once the gate is closed the calls in progress only get fewer, over any run |
| SyscallGates.NoCallAfterShutdown | rtos/fs/fs.h:213-246 | after a shutdown without timeout no call is ever in progress again |
| SyscallGates.WokenExactly | rtos/fs/fs.h:146-178 | a shutdown in front of an empty gate is going to be woken exactly when the last call left through `__return_from_fs`, and has lost its wakeup exactly when it left through `release_sys_call` |
| SyscallGates.Wakes | rtos/fs/fs.h:225-242 | a wakeup that is not lost needs at most the signal under way and one poll |
| SyscallGates.LostForEver | rtos/fs/fs.h:225-242 | a lost wakeup ends by the timeout or not at all |
| SyscallGates.WakeupCanBeLost | rtos/fs/fs.h:146-151 | a run in which it is lost |
| SuperTrees.AllBelowRoot | rtos/fs/super.c:197-205 | every block of the tree reaches the root through its parents |
| SuperTrees.InsertKeeps | rtos/fs/super.c:197-205 | inserting a fresh block leaves a finite tree |
| SuperTrees.RemoveKeeps | rtos/fs/super.c:207-221 | so does removing a childless block other than the root |
| SuperTrees.VisitsEachOnce | rtos/fs/super.c:223-232 | the order of the visit has every block exactly once |
| SuperTrees.DescendantsFirst | rtos/fs/super.c:223-232 | in that order every block comes before its ancestors |
| SuperTrees.UpToFirst | rtos/fs/super.c:223-232 | a visit that stops is a prefix that ends with the first failure |
| SuperTrees.SuperBlocks.InsertIntoTree | rtos/fs/super.c:197-205 | links the block as first child of its parent, and moves no other |
| SuperTrees.SuperBlocks.FindChild | rtos/fs/super.c:213-217 | from the child read as first, finds the block and its elder sibling |
| SuperTrees.LeftIsTreeExactly | rtos/fs/super.c:218-219 | unlinking a child through its parent leaves a tree exactly when the child is the first |
| SuperTrees.SuperBlocks.RemoveSection | rtos/fs/super.c:207-221 | the part under the mutex, for a first child read before it: exactly that child leaves and the tree stays one, unless the block is the child read and others have been inserted in front of it since; then exactly those are cut off with it |
| SuperTrees.SuperBlocks.RemoveFromTree | rtos/fs/super.c:207-221 | when nobody comes between, exactly that child leaves, its siblings keep their order |
| SuperTrees.SuperBlocks.VisitTree | rtos/fs/super.c:223-232 | the recursion terminates and visits the post-order of the subtree up to the first failure |
| SuperTrees.SuperBlocks.EnumDevice | rtos/fs/super.c:240-245 | without failures every block is visited exactly once, else a prefix up to the first failure; descendants always come before ancestors |
| IQueues.PriorityInsertStable | rtos/kernel/iqueue.c:75-101 | a priority insert keeps the queue sorted, first in first out among equals |
| IQueues.TimespecInsertStable | rtos/kernel/iqueue.c:109-137 | a deadline insert keeps the queue sorted, first in first out among equals |
| IQueues.RemoveKeepsSorted | rtos/kernel/iqueue.c:171-186 | an extraction removes exactly one task and keeps both orders |
| IQueues.IQueue.PriorityInsert | rtos/kernel/iqueue.c:75-101 | the task takes its place by priority; all queues over the same links stay well formed, the others unchanged |
| IQueues.IQueue.TimespecInsert | rtos/kernel/iqueue.c:109-137 | the same by deadline |
| IQueues.IQueue.InsertFirst | rtos/kernel/iqueue.c:141-153 | prepends; the other queues are unchanged |
| IQueues.IQueue.InsertLast | rtos/kernel/iqueue.c:156-168 | appends; the other queues are unchanged |
| IQueues.IQueue.Extract | rtos/kernel/iqueue.c:171-187 | exactly that task leaves, the rest keep their order |
| IQueues.IQueue.GetFirst | rtos/kernel/iqueue.c:189-204 | pops the first task, or answers that there is none |
| IQueues.IQueue.GetLast | rtos/kernel/iqueue.c:206-221 | pops the last task, or answers that there is none |
| ShadowChains.ForestIsGrounded | rtos/kernel/kern.c:292-296 | the only cycles are self-loops exactly when every chain ends at a root |
| ShadowChains.ForestReaches | rtos/kernel/kern.c:292-296 | a chain ends within as many steps as there are tasks |
| ShadowChains.UnlinkKeepsForest | rtos/kernel/join.c:71-89 | cancelling a join keeps the forest |
| ShadowChains.LinkKeepsForestExactly | rtos/kernel/join.c:125-152 | linking a root to a target keeps the forest exactly when it is not the root of the target's chain |
| ShadowChains.OnChain | rtos/kernel/join.c:125-133 | a root is on a chain exactly when it is the root of that chain |
| TaskTables.TaskTable.InternalCreateInit | rtos/kernel/grpcreat.c:117-211 | answers a descriptor exactly when the task is accepted and some free descriptor does not wait for a join; it is then the first such one, off the free queue, alive with the next task_ID, joinable as asked, without a waiter and its own shadow; else no descriptor is in use that was not |
| TaskTables.TaskTable.GroupCreateReject | rtos/kernel/grpcreat.c:324-338 | gives the descriptor back |
| TaskTables.TaskTable.FindTarget | rtos/kernel/join.c:105-108 | ESRCH exactly for a number out of range or a free descriptor that does not wait for a join; made with interrupts enabled |
| TaskTables.TaskTable.CheckJoinable | rtos/kernel/join.c:109-109 | EINVAL exactly for a target that is not joinable; made with interrupts enabled |
| TaskTables.TaskTable.JoinSection | rtos/kernel/join.c:111-160 | the section with interrupts disabled: EINVAL exactly when a joiner is recorded, else EDEADLK exactly when the caller is on the chain of shadows of the target, else the link and the wait exactly when the target has not ended |
| TaskTables.TaskTable.JoinEpilogue | rtos/kernel/join.c:174-195 | ends the reservation; a discarded descriptor returns to the free queue |
| TaskTables.TaskTable.CancellationPoint | rtos/kernel/join.c:71-89 | undoes the link of a blocked joiner |
| TaskTables.TaskTable.TaskMakeFree | rtos/include/kernel/model.h:140-149 | the part with interrupts disabled: a joinable descriptor keeps the value and waits for its join, its joiner is released and is its own shadow again, and whether another task still has it as its shadow is reported |
| TaskTables.TaskTable.PublicEnd | rtos/modules/edf/edf.c:561-576 | frees the descriptor and queues it, whenever the scheduling module does so |
| TaskTables.TaskTable.FollowShadows | rtos/kernel/kern.c:292-296 | the scheduler's walk terminates at the root of the chain |
| TaskTables.StepKeepsExactly | rtos/kernel/join.c:71-195 | of all steps, exactly a section of task_join that comes late and a survivor whose target is a hazard break the invariant |
| TaskTables.ReachableInv | rtos/kernel/join.c:71-195 | the invariant of descriptors, joiners, shadows and free queue over every run without those two, with preemption between the checks and the section of a join, terminations in two steps, and survivors |
| TaskRuns.FreeQueueIsExact | rtos/kernel/grpcreat.c:117-131 | in every reachable state shadows are a forest and a descriptor is on the free queue once if it is free and not discarded, else not at all |
| TaskRuns.BlockedTargetLives | rtos/kernel/join.c:125-160 | the target of a blocked joiner exists, has not started to end, and will release it |
| TaskRuns.BlockedUntil | rtos/kernel/join.c:125-172 | a blocked joiner goes on only when the task it waits for ends, or when it is killed |
| TaskRuns.WaitsForNamedExactly | rtos/kernel/join.c:105-160 | a joiner that blocks waits for the task its first check found exactly when that is still the one in the descriptor |
| TaskTables.TakeFreeIs | rtos/kernel/grpcreat.c:117-131 | the allocation loop passes over, and marks, exactly the leading descriptors that wait for a join |
| TaskTables.CreateIs | rtos/kernel/grpcreat.c:117-211 | the same of the values: the descriptors passed over, the one taken or put back, and what stays as it was |
| TaskRuns.DeadlockReportedExactly | rtos/kernel/join.c:125-152 | EDEADLK is returned exactly when the caller joins itself or the link would close a cycle |
| TaskRuns.SecondJoinerRefused | rtos/kernel/join.c:120-123 | while a joiner is blocked on a task, the section of any other joiner of that task fails with EINVAL and changes nothing |
| TaskRuns.DispatchedCanRun | rtos/kernel/kern.c:292-303 | whatever existing task a level chooses, the task dispatched in its place is neither free nor blocked in a join |
| TaskRuns.ReservedUntilJoined | rtos/kernel/join.c:174-180 | a terminated joinable descriptor keeps identity and value and is not reused until a joiner or a survivor ends its reservation, which puts it on the free queue if it is free |
| TaskRuns.JoinDeliversExitValue | rtos/kernel/join.c:183-195 | the value a released joiner delivers is the one that the task it waited for, and no later user of the descriptor, ended with |
| TaskRuns.WaitDelivers | rtos/kernel/join.c:125-195 | over any run in which it is not killed, a join that blocks stays blocked on, or is released by, the task that was in the descriptor then, and ends by joining that task and delivering its value; it is the task named exactly when the ids agree |
| TaskRuns.JoinIsRightExactly | rtos/kernel/join.c:105-195 | however it ends, at once, after a release or as a survivor, task_join ends the reservation of the task its first check found, and delivers its value, exactly when that task is still to be joined in its descriptor, and that of another task exactly when another one is |
| TaskRuns.NoInvalidKillShadow | rtos/include/bits/errno.h:113-113 | in those runs termination finds no foreign shadow written by a join, so this exception is not raised |
| TaskRuns.LostExactly | rtos/kernel/join.c:111-160 | a join that blocks is lost, with nobody left to release it, exactly when it comes late |
| TaskRuns.LostForEver | rtos/kernel/join.c:125-160 | over every run, late joins and hazardous survivors included, a lost joiner stays blocked unless it is killed |
| TaskRuns.JoinCanRaiseExactly | rtos/include/bits/errno.h:113-113 | after the section of task_join the exception can follow exactly when it came late |
| TaskCases.JoinCanBeLate | rtos/kernel/join.c:105-160 | a reachable state in which a section comes late because its target is ending and was joined by another |
| TaskCases.JoinCanBlockOnFree | rtos/kernel/join.c:105-160 | one in which it blocks on a free descriptor, which a check made now would refuse |
| TaskCases.JoinCanBlockOnDetached | rtos/kernel/join.c:105-160 | one in which it blocks on a task that cannot be joined |
| TaskCases.JoinCanWaitForAnother | rtos/kernel/join.c:105-160 | one from which it waits for a task that it never named |
| TaskRuns.DeadJoinerStrands | rtos/kernel/cancel.c:71-84 | a released joiner that dies leaves its target stranded |
| TaskRuns.JoinableExactly | rtos/kernel/join.c:105-123 | a terminated task can be joined exactly when no joiner is recorded |
| TaskRuns.StrandedExactly | rtos/kernel/join.c:105-180 | over every run, late joins and hazardous survivors included, a stranded task stays unjoined and its descriptor unused exactly as long as no survivor of an earlier join of the descriptor goes on |
| TaskRuns.StrandedForEverExactly | rtos/kernel/join.c:105-180 | it is stranded for ever, in all those runs, exactly when no such survivor is left |
| TaskCases.TaskCanBeStranded | rtos/kernel/cancel.c:71-84 | a reachable state with a task stranded for ever |
| TaskCases.StrandedCanBeRescued | rtos/kernel/join.c:169-180 | a reachable state with a stranded task that a survivor can still join |
| TaskCases.SurvivorQueuesTwice | rtos/kernel/join.c:169-180 | a reachable state from which a survivor queues a descriptor twice |
| TaskCases.SurvivorTakesAnother | rtos/kernel/join.c:169-195 | a reachable state from which a survivor ends the reservation of a task it never named, although its target is no hazard |
| SignalTables.SigQueueInv | rtos/kernel/signal.c:532-606 | queueing keeps the invariant |
| SignalTables.DequeueInv | rtos/kernel/signal.c:757-779 | taking the first entry of a queue keeps it |
| SignalTables.CreateTimerInv | rtos/kernel/time.c:143-191 | reserving an entry for a timer keeps it |
| SignalTables.DeleteTimerInv | rtos/kernel/time.c:198-237 | deleting a timer keeps it, posted or not |
| SignalTables.FireKeepsExactly | rtos/kernel/time.c:259-279 | a fire keeps it exactly when the entry is pending already or the signal passes the guards of the queueing |
| SignalTables.PostUsesOwnEntry | rtos/kernel/time.c:266-279 | a post appends exactly the timer's own entry and leaves the free list as it was |
| SignalTables.RefusedPostLeaksEntry | rtos/kernel/time.c:266-279 | after a refused post the next timer gets the same entry |
| SignalTables.EntryCanLeak | rtos/kernel/time.c:266-279 | a reachable state from which a fire leaks an entry that the next timer then shares |
| SignalTables.EntriesConserved | rtos/kernel/signal.c:577-606 | every entry is once on the free list, on one queue, or set aside for one live timer |
| SignalTables.NothingIsLost | rtos/kernel/time.c:143-322 | over every run of queueing, killing, delivering, timer operations and changes of actions in which each fire is accepted or its entry pending already, and no change of an action drops more than one entry: entries are conserved, overruns are the missed fires saturated at DELAYTIMER_MAX, and a queued signal is pending |
| SignalTables.TwoCanBeQueued | rtos/kernel/signal.c:532-606 | a run that queues two entries for one signal |
| SignalCode.DropReads | rtos/kernel/signal.c:382-394 | what each round of the dropping loop of sigaction reads and writes, for a head that a timer owns and for one that is free to recycle |
| SignalCode.DropsExactly | rtos/kernel/signal.c:382-396 | for every valid table the loop ends with the queue empty and no entry lost exactly when the queue has at most one entry |
| SignalCode.DropCanGoWrong | rtos/kernel/signal.c:382-396 | a reachable table with two entries queued, on which it goes wrong |
| SignalCode.SignalTable.constructor | rtos/kernel/signal.c:1536-1556 | every entry free, every queue empty |
| SignalCode.SignalTable.LastOf | rtos/kernel/signal.c:602-604 | the walk ends at the tail |
| SignalCode.SignalTable.PutAtTail | rtos/kernel/signal.c:582-606 | the head of the free list, with the values given, goes to the tail of the queue of its signal |
| SignalCode.SignalTable.SigQueueInternal | rtos/kernel/signal.c:532-606 | EINVAL exactly for a number out of range, EAGAIN exactly when the signal would be queued and no entry is free; otherwise a signal that is ignored, or pending and without information, changes nothing, and any other is queued with its values in the first free entry |
| SignalCode.SignalTable.TakeFirst | rtos/kernel/signal.c:1174-1202 | the first entry leaves its queue, its values are returned and it goes back to its timer or the free list |
| SignalCode.SignalTable.Take | rtos/kernel/signal.c:1159-1202 | the values of the first queued entry, which leaves its queue, or those of a kill(); the signal stays pending exactly when another value waits |
| SignalCode.SignalTable.DropPending | rtos/kernel/signal.c:382-396 | the loop itself, for queues of any length: what it leaves in the cells when it ends, and that with at most one entry it drops what is pending |
| SignalCode.SignalTable.SigAction | rtos/kernel/signal.c:358-400 | rejects exactly a bad number, sets the action, and, with at most one entry queued, drops what is pending exactly when the signal comes without information and is now ignored or defaulted |
| SignalCode.SignalTable.TimerCreate | rtos/kernel/time.c:143-191 | fails exactly when no entry is free; a signalling timer takes the head of the free list |
| SignalCode.SignalTable.TimerDelete | rtos/kernel/time.c:198-237 | fails exactly for a slot that is no timer; a pending entry is given back on delivery, another at once |
| SignalCode.SignalTable.TimerFire | rtos/kernel/time.c:243-279 | counts an overrun or posts the timer's own entry |
| SignalHistories.EnqueueWaiting | rtos/kernel/signal.c:582-606 | queueing puts the values behind those that wait for the signal, and changes nothing for other signals |
| SignalHistories.DeliverWaiting | rtos/kernel/signal.c:1174-1202 | taking a value takes the first that waits, and changes nothing for other signals |
| SignalHistories.FireWaiting | rtos/kernel/time.c:259-279 | an accepted fire puts the signal number and the value of the timer behind what waits for that signal |
| SignalHistories.ToldStep | rtos/kernel/signal.c:532-606 | one call keeps the books of what was asked for and handed out in agreement with the table |
| SignalHistories.FirstInFirstOut | rtos/kernel/signal.c:532-606 | over every run of queueing, killing, delivering, timer operations and changes of actions in which each fire is accepted or its entry pending already, and no change of an action drops more than one entry: the values accepted for a signal, by its caller or for a timer with the number and value of its timer_create, are those taken so far, in that order, followed by those still queued; a signal is pending exactly when a value or a kill() waits; and each timer has the notification, signal, value and overruns of what was asked |
| SignalDelivery.FlattenFirst | rtos/kernel/signal.c:1235-1245 | taking the first item of the first list that has one takes the first item of all |
| SignalDelivery.FirstDue | rtos/kernel/signal.c:1235-1245 | taking the first occurrence of the least unblocked signal takes the first delivery that is due |
| SignalDelivery.DueRight | rtos/kernel/signal.c:1235-1245 | what is due for process signals comes by number, each with exactly the values that wait for it in order; it is dropped exactly when it comes without information and is ignored or an error, else handled with exactly the signal, the task's and the action's mask blocked |
| SignalDelivery.OwnDueRight | rtos/kernel/signal.c:1250-1256 | the same of the signals of the task itself, once each |
| SignalDelivery.Ffs | rtos/kernel/signal.c:131-139 | the least member, 0 for the empty set |
| SignalDelivery.Task.ReallyDeliverSignal | rtos/kernel/signal.c:1265-1326 | dropped exactly when the signal comes without information and is ignored or an error; else the handler runs with exactly the signal, the task's mask and the action's mask blocked, and the mask is restored |
| SignalDelivery.Task.DeliverProcessSignal | rtos/kernel/signal.c:1159-1207 | one occurrence of the signal is delivered |
| SignalDelivery.Task.DeliverProcessSignals | rtos/kernel/signal.c:1235-1245 | terminates; delivers by number and first in first out within one; leaves exactly the blocked signals pending, their queues untouched |
| SignalDelivery.Task.DeliverOwnSignals | rtos/kernel/signal.c:1250-1256 | terminates; delivers what is left pending on the task itself |
| SignalDelivery.Task.DeliverPendingSignals | rtos/kernel/signal.c:1216-1258 | everything unblocked is delivered: process signals first, then the task's own, each by number and with exactly what waits for it first in first out, each dropped or handled under exactly the right mask; nothing unblocked stays pending, nothing blocked is touched, the mask is restored; a nested call does nothing |
| Clocks.LessMeansEarlier | rtos/oslib/ll/sys/ll/time.h:112-116 | on normalised times the comparison is that of the nanoseconds |
| Clocks.NoDrift | rtos/kernel/time.c:305-314 | the k-th reactivation is due k periods after the armed time, normalised |
| Clocks.DueInOrder | rtos/kernel/time.c:305-314 | later reactivations are due strictly later |
| Clocks.AlarmClock.SetTime | rtos/kernel/time.c:324-399 | rejects exactly unnormalised arguments, reports the remaining time, and arms at the absolute or relative time |
| Clocks.AlarmClock.Rearm | rtos/kernel/time.c:305-322 | the next expiry of a periodic timer; a one-shot timer is disarmed |
| ExecTimes.SumOfParts | rtos/kernel/jet.c:206-206 | the total adds up over any division of the history |
| ExecTimes.MaxIsLargest | rtos/kernel/jet.c:203-204 | the maximum is an upper bound that some job attains |
| ExecTimes.RingAdvances | rtos/kernel/jet.c:210-212 | advancing the ring shifts the history by one job |
| ExecTimes.JobTimes.UpdateSlice | rtos/kernel/jet.c:178-182 | adds to the current job |
| ExecTimes.JobTimes.UpdateEndcycle | rtos/kernel/jet.c:195-218 | the current job becomes history |
| ExecTimes.JobTimes.GetStat | rtos/kernel/jet.c:85-105 | sum, maximum and number of the jobs since the last jet_delstat, and the current job |
| ExecTimes.JobTimes.DelStat | rtos/kernel/jet.c:112-131 | starts new totals and keeps the ring |
| ExecTimes.JobTimes.CopyBehind | rtos/kernel/jet.c:168-171 | the copying loop |
| ExecTimes.JobTimes.GetTable | rtos/kernel/jet.c:146-175 | the last n jobs with zeros before the first; for negative n the jobs since the last such call, exactly when they are fewer than the slots |

## Left out

- DropPending: does not follow the loop beyond `rounds` rounds, because on two or more entries it may never end.
- PublicEnd: does not model the scheduling module; that it frees the descriptor once, at some time and at some position of the free queue, is an assumption.
- TaskMakeFree: does not model the mutex modules (`pi.c`, `pc.c`, `srp.c`), which write shadows too; what is said of foreign shadows and of the dispatched task is about those that task_join writes.
- NoInvalidKillShadow: does not cover a task that ends while it owns a contended mutex of those modules.
- DispatchedCanRun: does not cover chains through such mutexes either.
- FindTarget: does not split the reads of the status and of the flag, which can be seen as made at one moment.
- LostForEver: does not follow runs beyond the moment when a descriptor is on the free queue twice; nor does StrandedExactly.
- Terminations: cleanup handlers and key destructors of an ending task, and signal handlers that run inside task_join, do not join, kill or end tasks themselves; a task that ends while the joiner it has on record is not blocked (after a late join) is not followed, nor what the exception does.
- WriteBlock: does not model a writer that is not alone on the entry; the assertion of `dcache_dirty` fails there (`DirtyAssertedExactly`).
- PurgeDevice: does not model the wait for entries in use; it starts once they are idle.
- RemoveSection: does not model other removals between the reading of the first child and the mutex.
- RemoveFromTree: does not model removing a block that has children, which unlinks its subtree with it; `umount_device` refuses such a block (`rtos/fs/fs.c:466-472`).
- EnumDevice: does not model callbacks that change the tree.
- TimerCreate: does not model the list of timer slots, which are never given back, nor the clock argument and the default event.
- SetTime: does not model the check of the timer number, nor the deletion of the kernel event itself.
- ReallyDeliverSignal: does not model the default action: its exit is unreachable in the code, which goes on to call the default handler.
- DeliverPendingSignals: does not model unblocked signals with the default action, for the same reason.
- Events of the block cache: `dcache_flush` and `dcache_purgedevice` are not steps of the concurrent handshake. They take references that the error synchronisation does not expect, and clear `dirty` after releasing their lock.
- That no key is cached twice is proved for one thread only: `__purge_dcache` drops `hashmutex` around the write, and the search is not repeated.
- The choice of the task that receives a queued signal, `sigwait` waiters and their wakeup, and signals raised by handlers while they run.
- `__dcache_flush`, `dcache_end`, the write-through variant, statistics and magic numbers.
- The waiters for `fssysinit` and the counted wait of `block_all_fs_calls`; the timeout may strike at any time.
- The level scan of the scheduler, capacity timers, context switches, and the ready queues of the scheduling modules.
- The check of the task number and of JET_ENABLED in the `jet_` functions.
- `task_joinable` and `task_unjoinable`, group creation beyond a single descriptor, and scheduling-module exceptions.
- Condition variables, internal semaphores, keys, interrupt tables, the real-time clock and the POSIX wrappers.
