# A model of the kernel's core, with proofs

This project models the state-heavy parts of a small RISC-V teaching kernel and of its image builder,
and proves what they are for:

- **Virtual memory** (`Sv39`, `Spaces`, `Memory`, `Boot`): the free-page list, the three-level Sv39
  tables, and walking, mapping, cloning, sweeping and reclaiming address spaces, against the translation
  algorithm of the RISC-V Privileged Architecture (version 20211203), section 4.3.2, with the Sv39
  parameters of section 4.4.
- **Threads** (`Sched`, `Locks`, `Runs`, `Effects`, `Threads`): the scheduler as a state machine with
  invariants over every run, what each operation does and when a call returns, and the thread manager's intrusive lists and loops refined to it, with conditions, join and
  the sleep lock.
- **Files** (`Block`, `Scattered`, `Layout`, `Kfs`, `FileRuns`, `Mkfs`, `RoundTrip`): sector requests, a byte device on
  top of them, inodes and data blocks on top of that, down to "a file is a byte sequence", and images from
  the builder read back.
- **UART** (`Ring`, `Uart`): ring buffers with wrapping counters, and the protocol between threads and the
  interrupt handler.
- **Terminal** (`Terminal`): line-ending normalisation, as machines and as the buffer scans that carry them out.
- **Alarms** (`Timer`) and **descriptors** (`Descriptors`, `Processes`).
- `Chains` holds what several of these share: linked lists in memory and table searches.

## How to read the model

- Addresses of structs and pages are integers, 0 being NULL, and memory is a map from them. A page is a
  union of a free-list link and 512 words, as in the source. Every page has a role (free, kernel, page
  table of a space, frame of a user page, lost); the invariants tie roles to the actual links and entries.
- Threads in supervisor mode are not preempted (src/kern/intr.c:105-108), so an operation up to its
  suspend_self is one step of the scheduler. The UART machine is finer: the interrupt handler may come
  between any two steps of a call, including the halves of `rbuf_get`, `rbuf_put` and `ier |= bit`; only
  testing a buffer and going to sleep, where interrupts are off, is one step.
- A failing assertion of the scheduler or its panic on a spurious signal is the result `Crash`, proved
  unreachable; the freeing of stacks is not part of this (see below). A panic for lack of pages is `Panic`.
- Fields named `birth`, `held`, `slept`, `woken`, `served`, `accepted`, `sent`, `read` and `written` are
  histories added for the statements.

## Where the source does not do what it seems to

What the model can state of these is proved, with the exact condition where there is one.

- memory_init presets `free_list` to the first page it then links, so the bottom page is linked to itself
  and is handed out exactly twice, after which the list is empty (`Boot.BottomPageTwice`,
  `Boot.InitListIsNoFreeList`). That is so if its first holder leaves its first word alone until then;
  otherwise that word becomes the head of the list (`Boot.WrittenBottomPage`). All other results start from
  the same chain ending in NULL (`Boot.NullTerminatedIsFreeList`).
- memory_alloc_and_map_page over a mapped page loses the old frame, one page for each such call
  (`Memory.Manager.Run`).
- vioblk_write past the end of the device returns 0 with the device lock held, exactly when position plus
  length exceeds the device size (`Block.Device.Write`). fs_ioctl leaves the file system lock held exactly
  for an unknown command on an open file (`Kfs.FileSystem.Ioctl`).
- The clamp of fs_read and fs_write stops at the end of the file exactly when position plus count does not
  wrap at 2^64 (`Kfs.ClampIsExact`).
- mkfs counts one data block too many for a file whose size is a multiple of 4096. The image is well formed
  exactly when no such file comes before a non-empty one (`Mkfs.ImageIff`); a file is stored where its inode
  says exactly when no such file comes before it (`Mkfs.PlacedRight`).
- ioterm_write leaves a skipped leading `\n` out of its result (`Terminal.Term.Write`). ioterm_read returns
  exactly when the buffer is not empty and the raw text to come is not swallowed whole or is followed by an
  error; otherwise, at end of input for one, each turn of its loop leaves it there (`Terminal.Term.Read`,
  `Terminal.Term.ReadOnce`).
- An alarm that is due has its interrupt pending exactly if there has been a timer interrupt before or the
  first tick is over (`Timer.DueIsPendingIff`, `Timer.DueInEveryRun`, with `Timer.FirstTickIsLate` for an
  instant where it fails).
- suspend_self frees the stack of an exited thread by an address that is not page-aligned
  (`Threads.ExitedStackIsUnaligned`), so a thread that goes on inside suspend_self after another one has
  exited meets the panic of memory_free_page. The scheduler results hold of the code without that call.
- thread_spawn and thread_fork_to_user do not set `child_exit` of a new thread struct
  (src/kern/thread.c:319-336), and kmalloc does not promise zeroed memory. The model takes new structs as
  zeroed.
- lock_acquire by a thread that holds the lock puts it to sleep on a lock that only it could release
  (`Runs.SelfDeadlock`). A thread asleep on a lock waits for another live thread exactly if it does not hold
  the lock itself (`Locks.SleeperWaitsForAnother`). A thread that exits with a lock leaves it held: the lock
  invariant survives a step exactly if the step is not such an exit (`Locks.StepLocksIff`), and such exits
  are reachable (`Runs.ExitWithLockIsReachable`).

## Model

| member | source | states |
|---|---|---|
| `Sv39.MacrosAreIndices` | src/kern/memory.c:61-63 | the three shift-and-mask macros give the 9-bit indices of the 27-bit virtual page number, for every address |
| `Sv39.WalkAgreesWithHardware` | src/kern/memory.c:814-859 | a walk without create reaches an entry exactly where translation is decided at level 0, and that entry decides it; where it returns NULL hardware faults or uses a superpage |
| `Spaces.Translation` | src/kern/memory.c:756-761 | in any space a user page translates by its level-0 entry alone, and a kernel page as in the main table |
| `Spaces.FramesAreDisjoint` | src/kern/memory.c:739-793 | over all spaces, two valid user entries name the same frame only if they are the same page of the same space |
| `Spaces.FramesAreMapped` | src/kern/memory.c:555-583 | conversely every page with the role of a frame is named by the level-0 entry of its virtual page |
| `Spaces.StoreIsPrivate` | src/kern/memory.c:739-793 | a store through one mapped user page changes neither contents nor translation of any other user page of any space |
| `Spaces.KernelTranslationSame` | src/kern/memory.c:756-761 | kernel addresses keep their translation when only user tables change |
| `Spaces.InstallTable` | src/kern/memory.c:839-851 | linking a zeroed table behind an invalid entry keeps the tables trees and changes no address's entry |
| `Spaces.MapEffect` | src/kern/memory.c:573-576 | filling one level-0 entry keeps the trees, changes the entry of that page only, and releases just the frame named before |
| `Spaces.UnmapLeaf` | src/kern/memory.c:386-395 | clearing one level-0 entry keeps the trees and releases exactly the frame it named |
| `Spaces.FlagLeaf` | src/kern/memory.c:344-346 | rewriting the flags of a valid entry leaves every page its role and the tables trees |
| `Spaces.NewRoot` | src/kern/memory.c:746-761 | a zeroed root with the main table's global entries is a space with no user page mapped |
| `Spaces.PoolIsPartitioned` | src/kern/memory.c:264-312 | free list, kernel pages, page tables, user frames and lost pages add up to the pool, and the free list holds exactly the free pages |
| `Memory.Manager.AllocPage` | src/kern/memory.c:264-282 | panics exactly on an empty list; otherwise hands out the first page, zeroed, and the list is the rest of the old one |
| `Memory.Manager.FreePage` | src/kern/memory.c:294-312 | the page becomes the first of the free list, and no other page changes |
| `Memory.Manager.AllocKernelPage` | src/kern/memory.c:264-282 | taking a page for the kernel changes no translation of any space |
| `Memory.Manager.FreeKernelPage` | src/kern/memory.c:294-312 | giving it back undoes the change of roles, with no translation changed |
| `Memory.Manager.WalkPt` | src/kern/memory.c:814-859 | returns the table the pure walk reaches; without create nothing changes; with create it succeeds exactly for user pages, adds only zeroed tables taken from the free list, and no entry or kernel mapping changes |
| `Memory.Manager.WalkLevel` | src/kern/memory.c:824-855 | one turn of the walk stays on the path of the page, or gives up exactly where the pure walk does |
| `Memory.Manager.CreateTable` | src/kern/memory.c:839-851 | the create branch installs a fresh zeroed table and changes no address's entry |
| `Memory.Manager.MapFresh` | src/kern/memory.c:575-576 | writing a leaf makes the new page the frame of that one virtual page, in that space only |
| `Memory.Manager.AllocAndWalk` | src/kern/memory.c:562-573 | a page and its table, or, where the walk gives up, the page back on the free list |
| `Memory.Manager.AllocAndMapPage` | src/kern/memory.c:555-583 | maps exactly the well-formed, aligned, non-kernel addresses, to a zeroed page with V set and just the given R, W, X, U and G bits; no other page of any space changes its entry |
| `Memory.Manager.NewSpace` | src/kern/memory.c:746-761 | a new root that shares the kernel and maps no user page |
| `Memory.Manager.ClonePage` | src/kern/memory.c:764-786 | one page: equal flags and contents in a frame of its own, everything else as before |
| `Memory.Manager.FillCopy` | src/kern/memory.c:774-785 | the new frame is filled from the parent's and belongs to the child's page |
| `Memory.Manager.SpaceClone` | src/kern/memory.c:739-793 | the finished loop: for every user page the child's entry is a private copy of the parent's, and all that existed before is unchanged |
| `Memory.CloneIsDeepCopy` | src/kern/memory.c:739-793 | in hardware terms: a user address is mapped in the child exactly when in the parent, with equal flags and contents in different frames; kernel addresses as in the main table; every old space translates as before |
| `Memory.CloneStep` | src/kern/memory.c:764-786 | the loop's invariant goes on from one page to the next |
| `Memory.Manager.ReleasePage` | src/kern/memory.c:386-395 | freeing one leaf, in either order of clearing and freeing, touches only that frame and its table |
| `Memory.Manager.SweepUser` | src/kern/memory.c:379-396 | the sweep over the user range frees exactly the leaves it takes, each once, and never a table it still walks |
| `Memory.Manager.SpaceReclaim` | src/kern/memory.c:365-400 | afterwards the main space is active; a page of the user region whose entry has V, not G, and one of R, W, X faults and its frame is free; every other page keeps entry, translation and frame; no other page of memory changes its role |
| `Memory.Manager.UnmapAndFreeUser` | src/kern/memory.c:500-532 | a page of the user region whose entry has V, U, and one of R, W, X faults and its frame is free; all else is as before |
| `Memory.SweptPage` | src/kern/memory.c:379-396 | a page the sweep takes faults and its frame is free; any other keeps its entry, translation and the role of its frame |
| `Memory.SweptRoles` | src/kern/memory.c:379-396 | conversely a page of memory that changed its role is free and was the frame of a page that went |
| `Memory.WellformedIs` | src/kern/memory.c:865-869 | an address is well formed exactly if its top 26 bits are all 0 or all 1 |
| `Memory.SweepTranslates` | src/kern/memory.c:365-400 | in hardware terms: the swept pages fault, and every other page of every space translates as before |
| `Memory.TranslationSame` | src/kern/memory.c:814-859 | equal level-0 entries and kernel tables mean equal translation |
| `Memory.MapTranslates` | src/kern/memory.c:555-583 | in hardware terms: after a mapping, an unmapping or new flags that page translates by its new entry, and every other page of every space as before |
| `Memory.LostByMapping` | src/kern/memory.c:575-576 | mapping over a valid entry loses exactly the frame that was there; mapping an unmapped page loses none |
| `Memory.Manager.SetPageFlags` | src/kern/memory.c:326-350 | the R, W, X, U and G bits of one valid entry of the active space become those given, V stays, A and D are added; no other page of any space changes its entry |
| `Memory.Manager.HandlePageFault` | src/kern/memory.c:594-635 | exactly the addresses from 0xC0000000 up to 0xD0000000 come to be mapped, to a zeroed page with V, R, W, U and not X or G; what was mapped there is lost |
| `Memory.Manager.Step` | src/kern/memory.c:264-312 | every operation keeps the invariants and the pool, and reports whether it mapped over a page |
| `Memory.Manager.MapUser` | src/kern/memory.c:555-583 | a user mapping loses one page exactly when the page was mapped |
| `Memory.Manager.Run` | src/kern/memory.c:264-583 | over any run of alloc, free, map, set flags, page fault, clone, switch, unmap and reclaim the five uses of pages partition the pool, and as many pages are lost as mappings were made over mapped pages |
| `Boot.InitTables` | src/kern/memory.c:163-195 | the mapping loops build the giga, mega and 4 KB tables entry for entry |
| `Boot.MapGigas` | src/kern/memory.c:163-165 | the first loop maps exactly the two gigaranges below RAM to themselves |
| `Boot.MapMegas` | src/kern/memory.c:190-195 | the last loop maps exactly the RAM megapages after the first to themselves |
| `Boot.MapSections` | src/kern/memory.c:175-188 | the three section loops together give every page of the first megapage its section's permissions |
| `Boot.MapPages` | src/kern/memory.c:175-188 | a section loop fills exactly the entries of the section's pages |
| `Boot.IdentityMap` | src/kern/memory.c:163-195 | every page below the end of RAM translates to itself through aligned superpages, not for user mode; text pages have R and X, read-only data R, all others R and W, so nothing is both writable and executable |
| `Boot.SectionsMeet` | src/kern/memory.c:175-188 | every page of the first megapage is in exactly one section loop |
| `Boot.BootIsWellFormed` | src/kern/memory.c:163-195 | these tables satisfy the invariants all other memory results start from |
| `Boot.ChainPages` | src/kern/memory.c:227-245 | the page-linking loop, as written, leaves the bottom page linked to itself |
| `Boot.BottomPageComesTwice` | src/kern/memory.c:227-245 | which page every allocation hands out: each once from the top down, the bottom page once more, then none |
| `Boot.BottomPageTwice` | src/kern/memory.c:227-245 | the same from the memory the loop leaves |
| `Boot.WrittenBottomPage` | src/kern/memory.c:273-279 | what the first holder of the bottom page writes to its first word becomes the head of the list |
| `Boot.InitListIsNoFreeList` | src/kern/memory.c:227-245 | no duplicate-free list describes the chain the loop leaves |
| `Boot.StartManager` | src/kern/memory.c:125-245 | for every layout and pool, the tables memory_init builds and the pages on a list that ends in NULL are a start that satisfies every invariant, with RAM mapped to itself |
| `Boot.ChainUp` | src/kern/memory.c:241-245 | the linking loop, from an empty list, leaves the chain that ends in NULL |
| `Boot.NullTerminatedIsFreeList` | src/kern/memory.c:241-245 | the same chain with a NULL at the bottom is a free list of exactly its pages |
| `Sched.StepKeeps` | src/kern/thread.c:198-707 | every operation of the running thread keeps all scheduler invariants and fails no assertion; the only other ends are halting, too many threads and a childless join |
| `Sched.SuspendKeeps` | src/kern/thread.c:589-641 | giving up the processor leaves exactly one running thread and consistent lists; the ready list is not empty |
| `Sched.WaitKeeps` | src/kern/thread.c:476-494 | a thread that waits is on exactly its condition's list |
| `Sched.WakeKeeps` | src/kern/thread.c:496-524 | a broadcast readies exactly the waiters |
| `Sched.SpawnKeeps` | src/kern/thread.c:298-345 | a new thread is ready, in a free slot, a child of its creator; or the table is full |
| `Sched.ForkKeeps` | src/kern/thread.c:198-276 | a forked child runs at once and its parent is ready |
| `Sched.ExitKeeps` | src/kern/thread.c:347-360 | an exiting thread is on no list and its joining parent is woken; main halts instead |
| `Sched.RecycleKeeps` | src/kern/thread.c:571-587 | reparenting to the joining thread keeps the family a tree and frees the slot |
| `Sched.JoinLoopKeeps` | src/kern/thread.c:427-451 | a join either recycles an exited child or waits while the child has not exited |
| `Sched.JoinAnyKeeps` | src/kern/thread.c:383-423 | joining any child waits only when no child has exited |
| `Sched.ResumeKeeps` | src/kern/thread.c:410-422 | going on after a wait keeps the invariants; a woken thread_join_any finds an exited child, so the spurious-signal panic is unreachable |
| `Sched.NoExitedSlot` | src/kern/thread.c:412-420 | the table search finds a child exactly when there is an exited one |
| `Sched.AcquireKeeps` | src/kern/lock.h:47-65 | one turn of acquiring keeps the scheduler's invariants |
| `Sched.ReleaseKeeps` | src/kern/lock.h:67-78 | releasing does |
| `Locks.StepLocks` | src/kern/lock.h:47-78 | every operation keeps: held locks name their holder, and a thread waiting for a lock implies that it is held |
| `Locks.MutualExclusion` | src/kern/lock.h:47-78 | two threads between acquire and release of one lock are the same |
| `Locks.StepLocksIff` | src/kern/lock.h:47-78 | the lock invariant survives a step exactly if the step is not an exit that holds a lock |
| `Locks.SleepersHaveAHolder` | src/kern/lock.h:47-78 | a thread on a lock's wait list implies a live thread that holds the lock |
| `Locks.SleeperWaitsForAnother` | src/kern/lock.h:47-78 | that thread is another one exactly if the sleeper does not hold the lock itself |
| `Runs.BootIsOk` | src/kern/thread.c:291-296 | the state after thread_init satisfies every invariant |
| `Runs.ReachableStatesAreSafe` | src/kern/thread.c:198-707 | in every state of every run from boot exactly one thread runs, lists and states agree, and no next operation fails an assertion |
| `Runs.ReachableLocksExclude` | src/kern/lock.h:47-78 | mutual exclusion in every state of every run whose threads exit without locks |
| `Runs.ReachableSleepersWait` | src/kern/lock.h:47-78 | in every state of such a run a sleeper waits for another live thread exactly if it does not hold the lock itself |
| `Runs.SelfDeadlock` | src/kern/lock.h:47-65 | from boot, acquiring a lock twice leaves the thread asleep on a lock that only it holds |
| `Runs.ExitWithLockIsReachable` | src/kern/thread.c:347-360 | a run from boot after which an exit that holds a lock is possible, and breaks the lock invariant |
| `Runs.FamilyIsATree` | src/kern/thread.c:571-587 | from every live thread the parent links lead to main |
| `Runs.ReadyPosition` | src/kern/thread.c:589-641 | a ready thread moves up by exactly one at each suspend_self, whatever else happens |
| `Runs.BoundedWaiting` | src/kern/thread.c:589-641 | the thread at index k of the ready list runs at exactly the (k+1)-th later suspend_self |
| `Runs.BroadcastKeepsOrder` | src/kern/thread.c:496-524 | on any condition, waiters join the end of the ready list in waiting order, and no other wait list changes |
| `Effects.SpawnEffect` | src/kern/thread.c:298-345 | panics exactly when slots 1 to 15 are in use; else the new thread is in the first free one, ready at the end of the list, a child of the running thread, which runs on |
| `Effects.ForkEffect` | src/kern/thread.c:198-276 | the same, but the child runs and its parent is ready at the end of the list |
| `Effects.ExitDone` | src/kern/thread.c:347-360 | main halts; another thread is exited, those that wait for a child of its parent become ready behind the others, and the first ready thread runs |
| `Effects.YieldEffect` | src/kern/thread.c:589-641 | the first ready thread runs and the one that yields is last in the ready list |
| `Effects.SleepEffect` | src/kern/thread.c:476-494 | a wait on any condition, of devices, locks or children: the thread is last in that list and the first ready thread runs |
| `Effects.WaitEffect` | src/kern/thread.c:476-494 | condition_wait does just that and nothing else |
| `Effects.BroadcastEffect` | src/kern/thread.c:496-524 | exactly the threads that wait on the condition become ready, in waiting order behind those that were; the caller runs on |
| `Effects.AcquireEffect` | src/kern/lock.h:47-65 | lock_acquire, called or gone on with, returns exactly when it finds the lock free, and then the running thread is its owner; otherwise the thread sleeps on the lock again |
| `Effects.ReleaseEffect` | src/kern/lock.h:67-78 | the lock has no owner and exactly its waiters become ready; no other lock changes |
| `Effects.JoinEffect` | src/kern/thread.c:427-451 | thread_join, called or gone on with, returns exactly when that child has exited, and then it is gone, its slot free and its children passed on; otherwise the thread sleeps again |
| `Effects.JoinRefused` | src/kern/thread.c:427-440 | thread_join of anything but a child of the caller changes nothing |
| `Effects.ReapEffect` | src/kern/thread.c:571-587 | recycling an exited child removes it, frees its slot and passes its children to the running thread, and changes nothing else |
| `Effects.JoinAnyEffect` | src/kern/thread.c:383-423 | thread_join_any returns exactly when some child has exited, and then the one in the lowest slot is gone; it refuses exactly a thread without children; otherwise it sleeps |
| `Threads.ExitedStackIsUnaligned` | src/kern/thread.c:634-638 | the address suspend_self frees for an exited thread is never page-aligned |
| `Threads.Kernel.constructor` | src/kern/thread.c:291-296 | the initial lists and table are the state machine's boot state |
| `Threads.Kernel.ListInsert` | src/kern/thread.c:652-667 | on links, head and tail: the thread is appended to that list, all other lists are untouched |
| `Threads.Kernel.ListRemove` | src/kern/thread.c:669-686 | takes the first thread off that list only, or returns NULL |
| `Threads.Kernel.ListAppend` | src/kern/thread.c:690-707 | the second list is appended to the first and emptied |
| `Threads.Kernel.SuspendSelf` | src/kern/thread.c:589-641 | does exactly the abstract switch |
| `Threads.Kernel.ConditionWait` | src/kern/thread.c:476-494 | does exactly the abstract wait |
| `Threads.Kernel.ConditionBroadcast` | src/kern/thread.c:496-524 | the loop over the wait list and the list append do exactly the abstract wake-up, with the assertions inside it holding |
| `Threads.Kernel.FindSlot` | src/kern/thread.c:309-315 | the first free slot other than main's, or the table size |
| `Threads.Kernel.Spawn` | src/kern/thread.c:298-345 | does exactly the abstract creation |
| `Threads.Kernel.Fork` | src/kern/thread.c:198-276 | does exactly the abstract fork |
| `Threads.Kernel.RecycleThread` | src/kern/thread.c:571-587 | the table loop passes every child to the parent and frees slot and struct |
| `Threads.Kernel.ThreadExit` | src/kern/thread.c:347-360 | does exactly the abstract exit |
| `Threads.Kernel.JoinChild` | src/kern/thread.c:445-448 | one turn of the join loop is the abstract one |
| `Threads.Kernel.ThreadJoin` | src/kern/thread.c:427-451 | does exactly the abstract join, with its refusals |
| `Threads.Kernel.ScanChildren` | src/kern/thread.c:392-398 | the first loop finds the first exited child, or tells whether there are children |
| `Threads.Kernel.ThreadJoinAny` | src/kern/thread.c:383-410 | does exactly the abstract join of any child, up to its wait |
| `Threads.Kernel.ScanExited` | src/kern/thread.c:412-420 | the second loop finds the first exited child |
| `Threads.Kernel.FinishJoinAny` | src/kern/thread.c:412-422 | after the wait the first exited child is recycled; the search does not fall through to the panic |
| `Threads.Kernel.LockAcquire` | src/kern/lock.h:47-65 | one turn of the loop is the abstract one |
| `Threads.Kernel.LockRelease` | src/kern/lock.h:67-78 | does exactly the abstract release |
| `Threads.Kernel.Execute` | src/kern/thread.c:198-707 | whatever may be done next in a good state, the code does exactly the abstract step, with every assertion holding, and leaves a good state |
| `Block.Device.Read` | src/kern/vioblk.c:367-430 | returns exactly the bytes from the position on, as many as asked for or as there are, through whole sectors; the disk is unchanged |
| `Block.Device.ReadSector` | src/kern/vioblk.c:377-426 | one turn of the read loop delivers the next bytes of the device |
| `Block.Device.Write` | src/kern/vioblk.c:446-547 | replaces exactly the bytes from the position on; returns 0 with the lock held exactly when the data runs past the end |
| `Block.Device.WriteSector` | src/kern/vioblk.c:461-543 | one turn replaces exactly its bytes, by read-modify-write when it is not a whole sector |
| `Block.PartOfSector` | src/kern/vioblk.c:475-541 | writing back a sector with a part replaced is replacing that part of the disk |
| `Block.Device.SetPos` | src/kern/vioblk.c:641-658 | sets the position exactly when it is within the device |
| `Layout.FieldsAt` | src/kern/kfs.h:12-31 | where every count, name, inode number, size and block number of an image lies, in bytes |
| `Layout.LittleEndian` | src/util/mkfs.c:55-65 | the bytes of a word, lowest first, are its digits to base 256 |
| `Layout.BlockBytes` | src/kern/kfs.c:517-566 | the part of a data block that fs_read copies holds just the next bytes of the file |
| `Layout.AddrDistinct` | src/kern/kfs.c:529-536 | on an image with unshared blocks no two bytes of any files have the same place |
| `Layout.OverwriteMore` | src/kern/kfs.c:368-418 | piecewise writes, each within a block, add up to overwriting the whole range |
| `Layout.OverwriteIsSplice` | src/kern/kfs.c:368-418 | overwriting a range splices it into that file; every other file, inode and directory entry is unchanged |
| `Kfs.ClampIsExact` | src/kern/kfs.c:483-486 | the byte count stops at the end of the file exactly when position plus count does not wrap |
| `Kfs.FileSystem.Mount` | src/kern/kfs.c:104-143 | once, on an image: the boot block is read and every slot is free |
| `Kfs.FileSystem.FindName` | src/kern/kfs.c:193-208 | the first directory entry with the name, or that there is none |
| `Kfs.FileSystem.FindSlot` | src/kern/kfs.c:176-182 | the first slot not in use |
| `Kfs.FileSystem.FetchInode` | src/kern/kfs.c:489-508 | the inode buffer holds the inode's block |
| `Kfs.FileSystem.Open` | src/kern/kfs.c:160-255 | succeeds exactly when mounted with a free slot and an entry of that name; takes the first of each; the slot is in use with one reference, position 0 and the inode number and size of the entry; no other slot changes |
| `Kfs.FileSystem.Close` | src/kern/kfs.c:269-279 | frees exactly that slot |
| `Kfs.FileSystem.ReadBlock` | src/kern/kfs.c:517-566 | one turn of the read loop delivers the next bytes of the file |
| `Kfs.FileSystem.ReadLoop` | src/kern/kfs.c:511-566 | the loop delivers the whole range, across blocks |
| `Kfs.FileSystem.Read` | src/kern/kfs.c:446-576 | returns exactly bytes [pos, min(pos+n, size)) of the file, moves the position past them, and changes no disk byte and no other open file; refusals otherwise |
| `Kfs.FileSystem.WriteBlock` | src/kern/kfs.c:368-418 | one turn of the write loop replaces bytes at the place of the position, within its block |
| `Kfs.FileSystem.WriteLoop` | src/kern/kfs.c:361-418 | the loop overwrites the whole range, across blocks and sectors |
| `Kfs.FileSystem.Write` | src/kern/kfs.c:297-428 | replaces exactly bytes [pos, min(pos+n, size)) of the file; every other file, inode, directory entry and disk byte is unchanged; error results and what they leave |
| `Kfs.FileSystem.Ioctl` | src/kern/kfs.c:593-740 | length, position and block size are reported, each by its own command; the position stays within the file, a NULL argument is refused, and the lock stays held exactly for an unknown command |
| `FileRuns.DoKeeps` | src/kern/kfs.c:160-715 | every operation on the abstract table keeps all sizes and every position within its file |
| `FileRuns.Untouched` | src/kern/kfs.c:297-428 | over any run a file changes only through writes on a handle for it |
| `FileRuns.ReadBackWrites` | src/kern/kfs.c:297-576 | write, seek back, read: the bytes written, as far as the file has room |
| `FileRuns.Execute` | src/kern/kfs.c:160-715 | each call on inodes, blocks and sectors does exactly the operation on a table of byte sequences, and a read returns its bytes |
| `FileRuns.RunAll` | src/kern/kfs.c:160-715 | any sequence of open, close, read, write and seek refines the run on byte sequences |
| `Mkfs.ShortNameIs` | src/util/mkfs.c:88-97 | a path that is a name without slash, alone or after "user/bin/" or "../user/bin/", is listed under that name |
| `Mkfs.Dentries` | src/util/mkfs.c:87-106 | entry i holds the shortened, cut and padded name of file i and inode number i; it stops exactly at a name with a slash |
| `Mkfs.NumberBlocks` | src/util/mkfs.c:117-129 | an inode's size and consecutive block numbers |
| `Mkfs.Inodes` | src/util/mkfs.c:108-133 | inode i gives the size of file i and blocks numbered on from those of the files before |
| `Mkfs.CopyFile` | src/util/mkfs.c:150-158 | a file's bytes in whole blocks, through a reused buffer |
| `Mkfs.DataBlocks` | src/util/mkfs.c:150-158 | the bytes of every file lie one after the other, in whole blocks |
| `Mkfs.Header` | src/util/mkfs.c:135-137 | the counts in the boot block, with the entries kept |
| `Mkfs.WriteOut` | src/util/mkfs.c:143-148 | boot block and inodes one after the other |
| `Mkfs.Build` | src/util/mkfs.c:67-163 | the three passes together, whatever the inode array held before |
| `Mkfs.PlacedRight` | src/util/mkfs.c:119 | a file's data is where its inode says exactly when no earlier file has a size that is a multiple of 4096 |
| `Mkfs.ImageIff` | src/util/mkfs.c:119 | the image is well formed exactly when no such file comes before a non-empty one |
| `Mkfs.EmptyFirstIsLost` | src/util/mkfs.c:119 | an empty file before a one-byte file puts the byte where no inode leads |
| `Mkfs.BytesBack` | src/util/mkfs.c:87-158 | on such an image every file's byte sequence is the original |
| `RoundTrip.FieldBack` | src/util/mkfs.c:102 | a name field read as a C string is the name cut at 32 characters |
| `RoundTrip.NameFound` | src/kern/kfs.c:193-208 | with names that differ in their first 32 characters, looking up a file's name finds that file |
| `RoundTrip.ReadPieces` | src/kern/kfs.c:446-576 | reads of any sizes, one after the other, return the file piece by piece |
| `RoundTrip.OpenAndRead` | src/kern/kfs.c:160-576 | on a fresh mount, opening the only file of a name and reading on returns that file from its start |
| `RoundTrip.ImageRoundTrip` | src/util/mkfs.c:87-158 | build an image, attach, mount, open by the name at the end of the path, read with any sizes: the original bytes |
| `Ring.StoreKeeps` | src/kern/uart.c:302-309 | storing before the tail moves changes nothing in the queue |
| `Ring.PutAppends` | src/kern/uart.c:302-309 | moving the tail appends what was stored, also across a counter wrap |
| `Ring.GetTakes` | src/kern/uart.c:311-320 | moving the head takes off the oldest, which is what was loaded |
| `Ring.SlotWraps` | src/kern/uart.c:302-320 | because 64 divides 65536 a wrap does not move the slot |
| `Ring.RingBuf.constructor` | src/kern/uart.c:289-292 | an empty queue |
| `Ring.RingBuf.IsEmpty` | src/kern/uart.c:294-296 | exactly when the queue is empty |
| `Ring.RingBuf.IsFull` | src/kern/uart.c:298-300 | exactly when the queue holds 64 characters |
| `Ring.RingBuf.Put` | src/kern/uart.c:302-309 | in place: appends to the queue |
| `Ring.RingBuf.Get` | src/kern/uart.c:311-320 | in place: removes the oldest |
| `Uart.StepKeeps` | src/kern/uart.c:185-280 | every step of a call and every interrupt keeps order, sleepers' conditions, interrupt sources and each call's account |
| `Uart.RxKeeps` | src/kern/uart.c:263-270 | the receive half of the handler, at any point of a running call |
| `Uart.TxKeeps` | src/kern/uart.c:272-279 | the transmit half |
| `Uart.CheckKeeps` | src/kern/uart.c:211-216 | a thread goes to sleep only with its buffer empty or full and its interrupt source on |
| `Uart.IerKeeps` | src/kern/uart.c:221 | writing back `ier`, read before interrupts came in between, turns no other source off |
| `Uart.OpenedIsOk` | src/kern/uart.c:147-170 | a freshly opened device satisfies the invariant |
| `Uart.SessionIsFifo` | src/kern/uart.c:185-280 | over any interleaving: sent plus queued is what was written, read plus queued is what was accepted, in order, across any number of wraps |
| `Uart.NoSleeperStranded` | src/kern/uart.c:211-251 | in every reachable state a sleeping reader means an empty buffer with receive interrupts on, a sleeping writer a full buffer with transmit interrupts on |
| `Uart.InterruptWakes` | src/kern/uart.c:256-280 | the interrupt that sleepers wait for readies all of them |
| `Uart.CallsComplete` | src/kern/uart.c:226-254 | a write returns with all of its characters put in order, a read with at least one and at most as many as asked for |
| `Uart.SleepersAreWoken` | src/kern/uart.c:256-280 | in every state of every session that interrupt readies all sleepers |
| `Uart.SessionCallsComplete` | src/kern/uart.c:185-254 | every call of every session returns with its account in order |
| `Uart.RxEffect` | src/kern/uart.c:263-270 | a received character is appended unless the buffer is full; exactly then receive interrupts go off; readers are woken exactly when the buffer was empty |
| `Uart.TxEffect` | src/kern/uart.c:272-279 | the oldest character is sent unless the buffer is empty; exactly then transmit interrupts go off; writers are woken exactly when the buffer was full |
| `Uart.BothEffects` | src/kern/uart.c:256-280 | an interrupt for both does the receive half first, and one for neither nothing |
| `Uart.EnterEffect` | src/kern/uart.c:185-243 | a call begins, or a woken one goes on, at its test of the buffer, with nothing else changed |
| `Uart.CheckEffect` | src/kern/uart.c:211-216 | a read sleeps exactly on an empty buffer and a write on a full one |
| `Uart.LoopEffect` | src/kern/uart.c:218-248 | a call moves another character exactly while it wants one and the buffer allows it |
| `Uart.MoveEffect` | src/kern/uart.c:218-248 | a read gets the oldest character and a write appends its next one, and each is counted once |
| `Uart.EndEffect` | src/kern/uart.c:221-250 | a call ends with its interrupt source on; a write that is not finished tests the buffer again |
| `Terminal.OutConcat` | src/kern/io.c:228-236 | output does not depend on how text is split into writes |
| `Terminal.InConcat` | src/kern/io.c:219-226 | input does not depend on how raw text is split into reads |
| `Terminal.InIsNormal` | src/kern/io.c:206-211 | input text is the raw text with each of `\r\n`, `\r` and `\n` as one `\n` |
| `Terminal.OutIsExpanded` | src/kern/io.c:213-214 | output text is that text with every `\n` as `\r\n` |
| `Terminal.WriteThenRead` | src/kern/io.c:219-236 | reading back what was written is normalising the original |
| `Terminal.OutIsIdempotent` | src/kern/io.c:228-236 | writing what is already normalised changes nothing |
| `Terminal.ReadThenWrite` | src/kern/io.c:219-236 | writing normalised input is writing the raw text |
| `Terminal.InHasNoCr` | src/kern/io.c:206-211 | normalised input has no `\r` and is not longer |
| `Terminal.InIsEmpty` | src/kern/io.c:420-423 | all of a chunk is swallowed exactly when it is a lone `\n` after a `\r` |
| `Terminal.SwallowedInParts` | src/kern/io.c:371-423 | when the text to come is swallowed whole, so is any part the raw device delivers and any rest |
| `Terminal.IoWrite` | src/kern/io.c:53-69 | what arrives is a prefix, as long as the result says, and everything on a device that always takes something |
| `Terminal.IoReadFull` | src/kern/io.c:35-51 | fills the buffer unless the input ends first; then the count, or the device's error in its place |
| `Terminal.Term.Write` | src/kern/io.c:428-537 | the buffer scan emits exactly what the per-character machine does, for every input and state; the result counts all but a skipped leading `\n` |
| `Terminal.SentSkip` | src/kern/io.c:486-495 | a `\n` is dropped only when nothing is pending |
| `Terminal.Term.Normalize` | src/kern/io.c:392-418 | the in-place scan leaves exactly the machine's output at the front of the buffer |
| `Terminal.Term.ReadOnce` | src/kern/io.c:371-423 | one turn of the loop: where the read is to return it ends it or uses up raw text, and where it is not it does not end it and leaves that so |
| `Terminal.Term.Read` | src/kern/io.c:364-426 | returns after at most two non-empty raw reads: the device's error exactly when the text to come is swallowed whole, else the normalised form of just the raw text it took, never empty and without `\r` |
| `Terminal.WriteAll` | src/kern/io.c:428-537 | any splitting into successive writes emits the same |
| `Terminal.ReadAll` | src/kern/io.c:364-426 | reading until the device reports its end gives the normalised text, for any buffer size and raw chunks |
| `Timer.InsertSorted` | src/kern/timer.c:84-121 | insertion keeps the deadlines in order |
| `Timer.SleepIsExact` | src/kern/timer.c:63-132 | one alarm joins the queue, with the sum of last event and count, at most 2^64 - 1, as its deadline; or nothing happens when that has passed |
| `Timer.InterruptIsExact` | src/kern/timer.c:143-175 | an interrupt wakes exactly the alarms that are due and keeps the others in order |
| `Timer.EveryRun` | src/kern/timer.c:63-175 | over every run: sorted, nothing dropped or woken twice, nothing woken early, and after the first interrupt the compare register is the earlier of first deadline and next tick |
| `Timer.NoneEarlyNoneDropped` | src/kern/timer.c:63-175 | over every run the alarms asked for, each with its deadline in plain arithmetic, are together those in the queue and those woken, none of these before its deadline |
| `Timer.WokenInTime` | src/kern/timer.c:63-175 | every wake-up belongs to a sleep of that alarm with that deadline and is not before the sum of its last event and count, or that sum is beyond the clock |
| `Timer.TickAdvances` | src/kern/timer.c:161-169 | an interrupt after the tick moves it on by one period, and no other does; the compare register is the earlier of tick and first deadline |
| `Timer.DueIsPendingIff` | src/kern/timer.c:161-169 | when an alarm is due its interrupt is pending exactly if there has been an interrupt or the first tick is over |
| `Timer.DueInEveryRun` | src/kern/timer.c:48-175 | the same for every run, in terms of whether it has an interrupt |
| `Timer.FirstTickIsLate` | src/kern/timer.c:33-50 | a reachable instant, before both, at which an alarm is due and no interrupt pending |
| `Timer.AlarmQueue.constructor` | src/kern/timer.c:48-55 | the starting state |
| `Timer.AlarmQueue.Reset` | src/kern/timer.c:137-139 | deadlines count from now; no sleeping alarm is touched |
| `Timer.AlarmQueue.AlarmSleep` | src/kern/timer.c:63-132 | on links: the deadline is the last event plus the count, or 2^64 - 1 if that is less; the call waits exactly if the deadline is not past, and then by sorted insertion with the register moved when it must be |
| `Timer.AlarmQueue.Enqueue` | src/kern/timer.c:84-121 | both insertion branches are insertion in front of the first alarm not due earlier |
| `Timer.AlarmQueue.FindPrev` | src/kern/timer.c:105-113 | the search stops after the last alarm due earlier |
| `Timer.AlarmQueue.BroadcastDue` | src/kern/timer.c:153-159 | the loop unlinks and signals just the due prefix |
| `Timer.AlarmQueue.Interrupted` | src/kern/timer.c:143-175 | does the abstract interrupt on links, with tick and register stated in numbers |
| `Descriptors.StepKeeps` | src/kern/syscall.c:111-387 | open, close, exec, fork and exit keep: every object has at least as many references as entries that name it, over all processes, and none once closed |
| `Descriptors.ForkKeeps` | src/kern/syscall.c:360-382 | fork counts every copied entry, and a failed fork gives back exactly what it took |
| `Descriptors.ExitKeeps` | src/kern/process.c:153-159 | exit drops one reference for each entry of the process |
| `Descriptors.NoneDangles` | src/kern/io.h:189-206 | after any run every object named in any table is open and has a reference for each entry |
| `Descriptors.ClosedWhenUnnamed` | src/kern/io.h:194-206 | the close operation runs only when no table names the object afterwards |
| `Descriptors.OpenIsFresh` | src/kern/kfs.c:176-182 | an object that is not open is named nowhere, so a slot in use is never reused |
| `Descriptors.OpenEffect` | src/kern/syscall.c:111-128 | just that entry names the object, which is open with one reference; no other entry, count or object changes |
| `Descriptors.CloseEffect` | src/kern/syscall.c:142-153 | just that entry is cleared and its object has one reference less, open exactly if any is left |
| `Descriptors.ExecEffect` | src/kern/syscall.c:268-281 | just that entry is cleared; every count stays |
| `Descriptors.ForkEffect` | src/kern/syscall.c:335-387 | the child has the same table, and every object one reference more for each entry that names it; a failed fork leaves every count and table and an empty new one |
| `Descriptors.ExitEffect` | src/kern/process.c:153-159 | the table is cleared, every object has one reference less for each entry that named it, and no other table changes |
| `Processes.ProcessTable.constructor` | src/kern/process.c:58-75 | the start of the state machine: one empty table, no file and no device open |
| `Processes.ProcessTable.Reference` | src/kern/io.h:189-192 | one more in the object's own count |
| `Processes.ProcessTable.Release` | src/kern/io.h:194-206 | one less in the object's own count; the close function of its kind runs, and the object stops being open, exactly when that was the last reference |
| `Processes.ProcessTable.CloseFile` | src/kern/kfs.c:269-279 | the file system's close marks exactly that slot as not in use |
| `Processes.ProcessTable.OpenFile` | src/kern/kfs.c:160-255 | the file system's open marks the first slot not in use, with one reference |
| `Processes.ProcessTable.SysFsOpen` | src/kern/syscall.c:111-128 | succeeds exactly with a good descriptor and name pointer, a mounted file system, a free slot and a file of the name; the slot that the file system chose, the first not in use, was named by no table and is now in just that entry, open with one reference; else nothing changes |
| `Processes.ProcessTable.SysDevOpen` | src/kern/syscall.c:77-96 | the refusals, among them of a device in use; any other was named by no table, is now in just that entry and in use with one reference |
| `Processes.ProcessTable.SysClose` | src/kern/syscall.c:142-153 | succeeds exactly for an entry in use: just that entry is cleared, and its object has one reference less and is open exactly if any is left |
| `Processes.ProcessTable.SysExec` | src/kern/syscall.c:268-281 | just that entry is cleared; the executable is the object it named, which stays open with a reference of its own |
| `Processes.ProcessTable.CopyTable` | src/kern/syscall.c:361-366 | the loop references every entry and copies it to the child's table |
| `Processes.ProcessTable.ReleaseRow` | src/kern/syscall.c:376-380 | the loop of a failed fork releases every entry of the parent once |
| `Processes.ProcessTable.SysFork` | src/kern/syscall.c:335-387 | the child has the table of its parent, with one reference more for each entry; a failed fork gives back exactly what it took and leaves an empty table |
| `Processes.ProcessTable.Execute` | src/kern/syscall.c:77-387 | each system call is its own step of the state machine, or none exactly when it fails to open |
| `Processes.ProcessTable.RunAll` | src/kern/syscall.c:77-387 | any sequence of system calls, on slots, devices and arrays, is a run of the state machine made of the steps of just these calls |
| `Processes.FromStart` | src/kern/syscall.c:77-387 | from a fresh device, mounted file system and table, after any sequence of system calls every object named in any table is open, with a reference for each entry |
| `Processes.ProcessTable.ProcessExit` | src/kern/process.c:145-166 | the loop clears the table and drops one reference of each object for each entry that named it; every other table stays |

## Left out

- Boot.ChainPages: the free list the other results start from ends in NULL; the code's own loop does not give that, and its exact outcome is stated instead.
- Memory.Manager.WalkPt: with create, only for pages outside the gigarange that holds the kernel's own tables, where creating a table would write into them; no caller does.
- Memory.Manager.AllocAndMapPage: the same restriction; the address argument is otherwise arbitrary.
- Memory.Manager.SetPageFlags: only for pages that are not the kernel's; for those the code would change a table that all spaces share.
- Locks.StepLocks: threads that exit while holding a lock are excluded, because the code then leaves the lock held for good; a contended lock_acquire does not restore the interrupt state, which is not modelled.
- Kfs.FileSystem.Read: requires that position plus count does not wrap at 2^64; what the code does beyond that is a read past its inode, and `Kfs.ClampIsExact` states the boundary.
- Kfs.FileSystem.Write: the same boundary.
- FileRuns.Execute: the device is writable, as vioblk_attach makes it, and transfers are at most 2^64 - 2^32 bytes, so that no position makes them wrap.
- Kfs.FileSystem.Mount: the file system has one device for good. The code stores the new device before it finds that a file system is mounted already, so a refused second mount redirects the mounted one. Further, only devices that hold an image are mounted; the byte counts in inodes are at most 1023 blocks and the disk at most 2^32 bytes, because the code's own checks and 32-bit sums do not go further.
- Block.Device.Read: 512-byte blocks, and a request is one device step, so a completion that comes before the wait is not modelled.
- Mkfs.Build: at most 63 files of fewer than 1023 blocks each, which the builder's arrays hold and it does not check; reads of input files are full until their end.
- Terminal.Term.Write: a raw device that fails or takes nothing is modelled for iowrite only; after a short iowrite the code goes on with a line ending in the middle of the text.
- Terminal.Term.Read: a raw device delivers its text and then ends or fails for good; errors between texts are not modelled.
- Processes.ProcessTable.SysFork: which process-table slot a failed fork clears (the code clears slot 0), and forking with a full process table, where the child pointer is uninitialised.
- Uart.StepKeeps: calls of length 0, which return at once, and the cut of lengths at LONG_MAX; closing and reopening, which starts a new session.
- Timer.AlarmQueue.Reset: an alarm is not reset by another thread while it sleeps.
- Threads.Kernel.ThreadJoin: the code reads the table slot before it checks the index; the value is not used then.
- Processes.ProcessTable.SysDevOpen: how the device table is searched for name and instance; its result is an argument.
- memory_alloc_and_map_range and memory_set_range_flags, which are loops over the operations modelled; memory_validate_vptr_len and memory_validate_vstr, which only read entries.
- Page tables are not freed by the source, and so count as page tables for good.
- Sched.StepKeeps: stack pages of threads and their freeing in suspend_self, which as written panics (see above).
- Context switch, trap entry and all assembly.
- TLB flushes and ASIDs: translation is reading the current tables.
- Feature negotiation, virtqueue descriptors, the PLIC, the console and other device registers.
- ELF loading, signals, the device table, the heap allocator, ioterm_getsn, io_lit and formatted output.
- Shell and user programs.
