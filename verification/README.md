# A Dafny model of an extended xv6 kernel

The system is an xv6 kernel with a buddy and a slab allocator, a page cache in front of its files and
a second (NVMe) device with its own log.  This project models its most intricate parts and proves what
they are for.  Each component is a small group of modules; code that updates state in place is a class
or a method proved against a specification, concurrent code is a state machine over its steps.

| component | files |
|---|---|
| write-ahead log, buffer cache | `Disk`, `LogSpec`, `LogMachine`, `LogLimits`, `BufferCache`, `LogDriver`, `CommitLimits` |
| buddy allocator | `BuddyTiles`, `BuddyLists`, `BuddyIndex`, `BuddyUnique`, `BuddyLayout`, `Buddy`, `BuddyPages` |
| slab allocator, dmalloc and dfree | `SlabSpec`, `SlabSteps`, `SlabRelations`, `SlabFree`, `Slab`, `KernelHeap` |
| page cache | `PageCacheSpec`, `PageCache` |
| blocks, inode contents, directories | `FsSpec`, `FsSteps`, `FsSpace`, `FileSystem`, `Directory` |
| page tables | `Vm`, `AddressSpace` |
| user malloc and free | `UserAllocSpec`, `UserAlloc` |
| pipes over sleep and wakeup | `Pipe` |
| grep's matcher | `Grep` |
| the shell's parser | `ShellGrammar`, `ShellTokens`, `Shell` |
| shared | `Basics`, `Counting` |

`dafny verify dfyconfig.toml` checks everything.

Large invariants are often stated twice: openly (`HeapOk`, `FsOk`, `FramesOk`, `Inv`) and behind a
quantifier that proofs open on demand (`Sound`, `Kept`, `Sealed`, ...).  Each closed form comes with an
`Open...` or `Unseal` lemma that proves the two equivalent.

## Assumptions

- Log: each `bwrite` is one atomic step and a crash loses all memory between two of them.  An operation
  writes only on the device it began on, to blocks outside the log area, and logs at most MAXOPBLOCKS new
  blocks.  During commit and recovery nobody else holds a log block or a logged block.  The size of the
  log area is arbitrary: where a result needs transactions to fit their area it says so (`Fits`), and
  `LargeAreaRefines` shows that they always do in an area of more than LOGSIZE blocks.
- Allocators: one caller at a time; addresses are byte offsets from `kmemAlloc.vstart`; struct sizes are
  those of a 32-bit kernel (page descriptor 24 bytes, hash node 16, NODE 16, NODELIST 8).  The memory
  given to `buddyInit` has at least three whole pages and at most 512 MB, requests are at most 1 GB
  (beyond that `calOrder` overflows `int`), and the first word of the initial block is 0
  (`buddy.c:77` does not set it).  `dmalloc` panics rather than returning 0; a panic ends a run.
- Page cache: one caller at a time, files opened for reading and writing, lengths that are whole pages
  (`PageCache.WriteBackKeepsLengthIff` says why), transfers of at least one byte at an offset that is not
  negative, with their end below 2^31, files registered in CACHE_META.  What a page from `kalloc` held
  before is a parameter.
- Files: a single device, block contents as the buffer cache shows them.  Page tables: `oldsz <= KERNBASE`
  (with the last directory entry absent and larger sizes, the skip of `vm.c:268` wraps to 0).
- Pipes: an end is closed by its last holder, so not while another process is inside a call on that end.
  No process is killed.
- `malloc`: `sbrk` succeeds at or above the end of its previous grants, and the header `base` lies below
  it; the size asked for is any 32-bit unsigned number.

## What the proofs turned up

- `log_write` panics on a block the transaction already holds once the log has LOGSIZE entries, although
  absorption needs no room (`LogLimits.AbsorptionPanics`).  Inside an operation it panics exactly when the
  transaction has reached the capacity of its log area (`LogMachine.LogWritePanics`).
- With `nlog <= LOGSIZE`, and `mkfs.c:25` sets `nlog = LOGSIZE`, an operation can panic in `log_write`
  although its reservation is not used up and no two operations race (`LogLimits.BudgetPanics`): `begin_op`
  reserves against LOGSIZE, the guard of `log_write` against `nlog - 1`.  Operations within their budget
  pass the guards in every reachable state exactly when `nlog > LOGSIZE` (`LogLimits.BudgetSufficesIff`).
- `log_write` tests the size of the log before taking its lock.  With `nlog <= LOGSIZE` two operations can
  pass the test together and make the log as long as its area (`LogLimits.GuardsRace`), and commit then
  writes the block behind the area (`LogLimits.RaceWritesPast`); every reachable transaction fits exactly
  when `nlog > LOGSIZE` (`LogLimits.LogFitsIff`).
- A full transaction dirties NBUF buffers, and `commit` then finds none to read a log block into.  Such a
  cache is built from a fresh one by logging NBUF blocks (`CommitLimits.FillTransaction`), and commit fails
  on it (`CommitLimits.CommitRunsOut`), in every area that lets such a transaction in
  (`CommitLimits.FullCommitFails`); with no other buffer held it succeeds exactly when the transaction
  has fewer than NBUF blocks (`LogDriver.CommitFindsBufferIff`).
- `bfreerange` tests a remainder with the size of a pointer instead of a NODELIST; the carved areas still
  fit (`BuddyLayout.CarvingFits`).
- `malloc` of more than 2^32 - 8 bytes wraps to a block of one unit (`UserAllocSpec.UnitsEnough`,
  `UserAllocSpec.LargeRequestWraps`).  From 2^31 - 15 to 2^32 - 8 bytes, `morecore` asks `sbrk` for
  zero or a negative number of bytes and puts its header on memory the process does not have
  (`UserAllocSpec.LargeRequestsUnbacked`).  A request that goes to `sbrk` yields a block that is memory of
  the process and large enough exactly up to 2^31 - 16 bytes (`UserAllocSpec.RequestServedIff`).
- `pageCacheFileRead` unlocks the inode only if `readi` returned something.  A transfer that reaches behind
  the end of its file enters a page of old memory, returns its full length and leaves the inode locked
  (`PageCache.ReadAtEnd` is the shortest such call); one that reaches a second page there sleeps for good on
  its own lock, and an offset behind the page map indexes past it.  A call leaves the inode unlocked, and
  does what direct access does, exactly when its range ends inside the file
  (`PageCache.PageCache.CachingRead` and `CachingWrite`; `PageCache.Fate` says how every other call ends).
- `write_direct` writes whole pages, so a file whose length is no multiple of a page grows when its last page
  is written back (`PageCache.WriteBackKeepsLengthIff`).
- `sys_caching_read` and `sys_caching_write` move the file's offset only when they touch more than one
  page (their `pos` clauses).

## Model

| member | source | states |
|---|---|---|
| `LogSpec.HeadRoundTrip` | log.c:111-164 | decoding the header block that write_head encodes gives back the logged block numbers |
| `LogSpec.RecoveryPrefix` | log.c:82-108 | after any prefix of recovery's writes the disk is still replayable and means the same; after all of them the home blocks hold that meaning and the log is empty |
| `LogSpec.CommitPrefix` | log.c:302-323 | after any prefix of commit's writes the disk means the state before the transaction, or the state with all its blocks, the latter exactly when the header write is included |
| `LogSpec.CommitPoint` | log.c:302-312 | the header write is the commit point and what commit writes afterwards is what a recovery of that disk would write |
| `LogSpec.CrashedRecoveries` | log.c:166-174 | any number of recoveries, each crashing anywhere, change the meaning of no block |
| `LogSpec.CrashAtomicity` | log.c:82-174 | a crash anywhere in commit, then any crashed recoveries and a completed one, leave all of the transaction or none, all exactly when the header had reached disk |
| `LogMachine.RunInv` | log.c:177-273 | every state of every interleaving of begin_op, log_write, end_op, commit steps, crashes and recovery steps satisfies the invariant, as long as the transactions before it fit their log area, whatever its size |
| `LogMachine.RunRefines` | log.c:177-323 | every run whose transactions fit their area is action by action a run of atomic group commit: begin_op and end_op enter and leave, log_write changes that block to that data in the volatile state, the header write and no other makes the volatile state durable, a commit ends only with everything durable, only a crash falls back, and nothing else is seen |
| `LogMachine.LargeAreaRefines` | log.c:177-323 | with a log area of more than LOGSIZE blocks that is every run |
| `LogMachine.SettledStays` | log.c:302-323 | the same of every run of the specification |
| `LogMachine.CommitSurvives` | log.c:302-323 | durability: once a commit is over, what the operations had written by then is what every later crash falls back to, until another commit writes its header |
| `LogMachine.LastEndCommits` | log.c:214-243 | an end_op begins the commit if and only if its operation is the only one, and it never panics |
| `LogMachine.RestIsDurable` | log.c:214-243 | in every reachable state between commits with nobody outstanding the log is empty and everything written is durable |
| `LogMachine.NextBeginIsDurable` | log.c:178-243 | once the last operation has ended, the next begins only when everything written before is durable |
| `LogMachine.BeginIff` | log.c:178-194 | begin_op lets a process in if and only if no commit is under way and its whole budget fits beside what is logged and reserved |
| `LogMachine.NeverStuck` | log.c:178-243 | no run gets stuck: a commit or recovery can go on, a process inside an operation can go on, and with nobody inside anybody can begin |
| `LogMachine.PanicsIff` | log.c:335-355 | in every run the kernel panics exactly at a log_write whose transaction has reached the capacity of its area |
| `LogMachine.Reservations` | log.c:178-273 | for every size of the log area: committing implies nobody is outstanding, logged blocks are distinct, the log has room for all unused budgets; so end_op's panic and an append past LOGSIZE are unreachable |
| `LogMachine.LogWritePanics` | log.c:335-355 | inside an operation log_write panics exactly when the transaction has reached the capacity of its area, for every size; in an area of more than LOGSIZE blocks never while the operation has budget left |
| `LogLimits.AbsorptionPanics` | log.c:340-352 | a run within every budget reaches a state in which an active operation re-logs a block the log holds and panics |
| `LogLimits.BudgetPanics` | log.c:340-343 | with a log area of at most LOGSIZE blocks a single run, without a race, reaches the panic in an operation that has budget left |
| `LogLimits.BudgetSufficesIff` | log.c:178-192 | operations with budget left pass the guards in every reachable state if and only if the area has more than LOGSIZE blocks |
| `LogLimits.GuardsRace` | log.c:340-352 | with a log area of at most LOGSIZE blocks two operations pass the unlocked test and outgrow the area |
| `LogLimits.RaceWritesPast` | log.c:276-289 | the commit that follows writes the block behind the log area |
| `LogLimits.LogFitsIff` | log.c:340-352 | every reachable transaction fits its log area if and only if the area has more than LOGSIZE blocks |
| `BufferCache.Cache.constructor` | bio.c:38-56 | binit links all NBUF buffers, none valid, the cache showing the disk |
| `BufferCache.FindBlock` | bio.c:69-76 | finds the buffer of a block exactly when one carries it |
| `BufferCache.FindVictim` | bio.c:81-91 | the buffer recycled is neither referenced nor dirty and was released longest ago; none only if none is eligible |
| `BufferCache.ToFront` | bio.c:139-144 | the list stays a permutation of all buffers, in order of release |
| `BufferCache.Cache.Bget` | bio.c:61-93 | a cached block is found again, otherwise the least recently released eligible buffer is taken, otherwise the panic; at most one buffer per block |
| `BufferCache.Cache.Bread` | bio.c:96-110 | returns the latest contents set under that block number, sleeps exactly when another process holds the buffer, and panics exactly when the block is not cached and no buffer is free |
| `BufferCache.Cache.Bwrite` | bio.c:113-121 | one disk write of the buffer's contents, after which it is clean |
| `BufferCache.Cache.Pin` | log.c:353-353 | a logged buffer is dirty and keeps showing contents the disk lacks |
| `BufferCache.Cache.Brelse` | bio.c:125-148 | the last release moves the buffer to the head of the list; contents stay visible |
| `LogDriver.WriteLog` | log.c:276-289 | performs exactly the log writes, in order, through the cache, or panics before the first |
| `LogDriver.InstallTrans` | log.c:82-97 | performs exactly the install writes, in order, through the cache |
| `LogDriver.WriteHead` | log.c:139-152 | writes the encoded header, or panics without writing when no buffer is free |
| `LogDriver.Log.Commit` | log.c:302-313 | the disk writes are exactly CommitWrites in order; the cache shows the same home blocks before and after |
| `LogDriver.Log.ReadHead` | log.c:111-123 | reads the logged block numbers from the header |
| `LogDriver.Log.Recover` | log.c:166-174 | the disk writes are exactly RecoverWrites in order, and it never panics at boot |
| `LogDriver.CommitFindsBufferIff` | bio.c:78-92 | with no buffer held, commit finds a buffer if and only if fewer than NBUF blocks are logged |
| `CommitLimits.FillTransaction` | log.c:335-355 | logging NBUF blocks through a fresh cache leaves every buffer pinned and none to recycle |
| `CommitLimits.CommitRunsOut` | log.c:276-312 | a transaction of NBUF blocks logged through a fresh cache makes commit run out of buffers before its first write |
| `CommitLimits.FullCommitFails` | log.c:276-312 | so it does in every area of more than LOGSIZE blocks, for any NBUF consecutive home blocks |
| `BuddyTiles.SplitTiling` | buddy.c:134-145 | splitting a block keeps the blocks a tiling of the region, each aligned to its size |
| `BuddyTiles.MergeTiling` | buddy.c:297-320 | so does merging two buddies |
| `BuddyTiles.AllFreeIsOneBlock` | buddy.c:282-333 | a tiling of free blocks in which no two buddies are both free is the single initial block |
| `BuddyUnique.CanonicalUnique` | buddy.c:282-333 | two tilings without free buddies that have the same blocks in use are the same |
| `BuddyIndex.AddKeeps` | buddy.c:200-209 | addSize keeps the index exact: one node per live block, in its bucket |
| `BuddyIndex.RemoveKeeps` | buddy.c:211-238 | so does removing the node found |
| `BuddyIndex.PoolHasRoom` | buddy.c:183-194 | with fewer live blocks than nodes createNode finds a free node |
| `BuddyLayout.CarvingFits` | buddy.c:44-51 | for every power of two the NODELIST entries of all nodes fit their pages and there is a node for every page |
| `BuddyLayout.Bfreerange` | buddy.c:28-61 | the managed region starts behind the node areas, ends inside the range, and has no more pages than there are nodes |
| `BuddyLayout.LinkNodeList` | buddy.c:165-181 | every node is on the free list once; no node or entry reaches past its area, so none reaches vstart |
| `Buddy.CalOrder` | buddy.c:114-124 | the smallest order whose blocks hold the size |
| `Buddy.Allocator.constructor` | buddy.c:71-79 | initially one free block covers the region |
| `Buddy.Allocator.DivideOrder` | buddy.c:126-148 | the block returned is the lowest part of the block split, of the target order, newly in use |
| `Buddy.Allocator.Alloc` | buddy.c:88-111 | succeeds exactly when some free block is large enough; the block handed out is the lowest part of the first of the smallest free blocks that hold the size, its upper halves become the only new free blocks and every other block stays |
| `Buddy.Allocator.RemoveSize` | buddy.c:211-238 | returns the size recorded for a live block, -1 for any other address |
| `Buddy.Allocator.MergeOrder` | buddy.c:282-333 | merging upwards ends in canonical form, with the live blocks unchanged |
| `Buddy.Allocator.Release` | buddy.c:261-277 | frees exactly the live block at the address, and reports an address that is none; the block it merges into is the first of its list |
| `Buddy.LiveApart` | buddy.c:126-148 | live blocks do not overlap, lie inside the region, and hold what was asked for |
| `Buddy.AllFreedIsInitial` | buddy.c:282-333 | once everything is freed the state is the initial one |
| `Buddy.LiveDetermines` | buddy.c:282-333 | the live blocks determine the free ones |
| `Buddy.ReleaseUndoesAlloc` | buddy.c:261-333 | freeing a block just allocated brings all blocks back as they were |
| `BuddyPages.PageFitsIff` | buddy.c:88-111 | a page can be allocated if and only if some page of the region is in no live block |
| `BuddyPages.OnePageLess` | buddy.c:126-148 | allocating a page takes exactly one free page |
| `BuddyPages.ManyPagesMore` | buddy.c:282-333 | giving pages back frees exactly that many |
| `SlabSpec.InUseCounts` | slab.c:182-221 | a page with nothing in use has every slot on its free list, a page with a slot off the list has something in use |
| `SlabSpec.MetadataCaches` | slab.c:301-302 | the caches used for descriptors and hash nodes are the smallest that hold them |
| `SlabSteps.PopKeeps` | slab.c:205-221 | pop_free_list keeps all slab invariants and hands out an object nobody owned |
| `SlabSteps.PushKeeps` | slab.c:182-203 | push_free_list keeps them for an object nobody refers to |
| `SlabSteps.LinkKeeps` | slab.c:137-155 | linking a new page keeps them, its descriptor being an object or the page's own first slot |
| `SlabSteps.HashAddKeeps` | slab.c:99-117 | a node added to its chain makes its page found and keeps one node per page |
| `SlabSteps.HashRemoveKeeps` | slab.c:119-132 | a removed node's page is no longer found, all others are |
| `SlabSteps.UnlinkKeeps` | slab.c:157-170 | unlinking a free page leaves its cache non-empty and every live object on a linked page |
| `SlabFree.EnoughRemain` | slab.c:75-84 | when a page is returned, at least MAX_FREE_PAGE other free pages of its cache stay linked |
| `SlabFree.Cascade` | slab.c:62-93 | object, hash node, page and descriptor freed in turn remove exactly the object, metadata and whole pages, and keep every counter's distance to the truth |
| `SlabFree.CascadeGone` | slab.c:157-177 | of the pages the cascade unlinks, exactly the static ones keep their buddy pages |
| `Slab.MakeSlabObj` | slab.c:12-26 | the free list of a new page is its slots in order |
| `Slab.SlabSystem.FindRoom` | slab.c:377-391 | rotates the list to its first page with a free object, and finds one exactly when some page of the cache has room |
| `Slab.SlabSystem.AllocNewPageAddr` | slab.c:328-367 | a new descriptor object; the recursion through pages that describe themselves terminates, uses at most two buddy pages, and fails only when none is left |
| `Slab.SlabSystem.InsertHashNode` | slab.c:99-117 | the page is in the hash table afterwards; at most three buddy pages are used, and it fails only when none is left |
| `Slab.SlabSystem.Allocate` | slab.c:369-417 | a new object of the cache; live objects and pages stay, only metadata is added beside it; whenever the cache has room it is the first free object of the first page that has any and nothing else changes, otherwise at most four buddy pages are used and it fails only when none is left |
| `Slab.SlabSystem.FindTargetPage` | slab.c:41-53 | finds the node of an address's page exactly when the page is hashed |
| `Slab.SlabSystem.FreeSlabObj` | slab.c:62-88 | SUCCESS exactly for live objects, NOT_FOUND exactly for addresses off all hashed pages; the object goes to the front of its page's free list, or its page goes, exactly when it is free and one too many; the recursive cascade terminates, keeps all invariants, and keeps the buddy pages of static pages only |
| `Slab.SlabSystem.ReturnHashNode` | slab.c:119-135 | unhashes the page and frees its node |
| `Slab.SlabSystem.ReturnSlabPage` | slab.c:157-177 | unlinks the page and frees its descriptor; its buddy page is free again, except for a static page |
| `KernelHeap.CalcSlabIdx` | slab.c:307-317 | the smallest cache whose objects hold n bytes |
| `KernelHeap.SlabInit` | slab.c:223-239 | one hashed static page per cache, counters exact; succeeds exactly when SLAB_NUM pages are free |
| `KernelHeap.InitHeap` | buddy.c:63-79 | initialisation yields a valid heap with nothing held exactly when the managed region has SLAB_NUM pages |
| `KernelHeap.CachesAtRest` | slab.c:62-88 | between operations every linked page is consistent, the hash table holds exactly the linked pages, no cache is empty, free_page_num is the number of free pages and at most MAX_FREE_PAGE |
| `KernelHeap.OwnMetadataPins` | slab.c:353-360 | a page holding its own descriptor or its own hash node never becomes free |
| `KernelHeap.BlocksDisjoint` | buddy.c:81-112 | blocks held by callers, from both layers, are pairwise disjoint, inside the region and as large as requested |
| `KernelHeap.Dmalloc` | buddy.c:81-112 | adds one new block of the requested size to those held, from the slab exactly up to half a page; it panics only for no size, for want of a large enough block or of any page; for larger sizes exactly when no free block fits, for smaller ones never when the cache has room or more pages are free than it may need; large blocks are the buddy allocator's best fit, small ones the first free object of the first page that has any, or cost one free page per new page |
| `KernelHeap.Dfree` | buddy.c:254-280 | removes exactly the block, from the layer that issued it, and panics for an address not held; exactly the dynamic pages unlinked by it become free buddy pages |
| `KernelHeap.Serve` | buddy.c:81-280 | over any run of requests the blocks held are those allocated and not freed since, at new addresses, always disjoint and inside the region; a run ends early only at a free of an address not held, or at an allocation of no size, without a free block that fits, or without a free page; afterwards the live buddy blocks are the linked pages, the static pages returned, and the large blocks held |
| `PageCache.VictimUnique` | file.c:330-345 | reference bits and axis determine the clock's victim |
| `PageCache.PageCache.ClockHand` | file.c:330-345 | within CACHESIZE + 1 probes: the first slot from axis not referenced, or axis if all were; exactly the slots passed lose their reference |
| `PageCache.PageCache.ClockPolicy` | file.c:330-359 | evicts that victim, written back if dirty; no logical file changes; it sleeps exactly when the victim is a dirty page of a file this process has locked |
| `PageCache.PageCache.Register` | file.c:92-121 | the first unused entry for the file unless there is one; fails exactly when the table is full |
| `PageCache.PageCache.CheckCache` | sysfile.c:153-193 | a hit exactly when the page is mapped, and then it is marked referenced |
| `PageCache.PageCache.FileWrite` | file.c:475-522 | the file becomes what writei leaves in transactions of 1536 bytes up to the first that fails; the inode is unlocked again, and the call sleeps exactly if it was locked before |
| `PageCache.PageCache.FileRead` | file.c:436-456 | a page of the file, the rest old memory; the inode stays locked exactly when nothing was read |
| `PageCache.WrittenBackInside` | file.c:475-522 | inside the file the transactions equal one write of the whole |
| `PageCache.WriteBackKeepsLengthIff` | sysfile.c:232-237 | writing a page back leaves the file as long as it was if and only if the file reaches to the end of that page |
| `PageCache.PageCache.WriteDirect` | sysfile.c:229-238 | a dirty page goes to its file, no logical file changes; sleeps exactly when that file is locked by this process |
| `PageCache.PageCache.CacheFault` | sysfile.c:241-299 | brings the page in, evicting if full; slots and page maps stay inverse, counts exact, no logical file changes; behind the end of the file it leaves the inode locked; it sleeps whenever the inode is locked already, and never when no inode is; the page sits in the first empty slot, without a reference |
| `PageCacheSpec.AtUnique` | sysfile.c:241-299 | no page is cached twice |
| `PageCacheSpec.CleanKeeps` | sysfile.c:232-237 | writing back keeps the invariants and every logical file |
| `PageCacheSpec.DropKeeps` | file.c:350-356 | dropping a clean page keeps them |
| `PageCacheSpec.FillKeeps` | sysfile.c:254-295 | loading a page keeps them |
| `PageCacheSpec.StoreKeeps` | sysfile.c:451-470 | writing into a cached page changes exactly those bytes of that logical file |
| `PageCacheSpec.StrayStoreKeeps` | sysfile.c:451-470 | writing into a cached page behind the end of its file changes no logical file |
| `PageCache.PageCache.CachingRead` | sysfile.c:302-408 | how every call ends, and with which inode locked; no file changes, and what is read agrees with the logical file as far as it reaches; it returns with the inode unlocked, and with what direct access returns, if and only if the range ends inside the file; the file's offset is the end of the range if it touches several pages, and unchanged otherwise |
| `PageCache.PageCache.CachingWrite` | sysfile.c:420-530 | how every call ends, and with which inode locked; exactly the bytes of the range inside the file change and no other file; it returns with the inode unlocked, and leaves what direct access leaves, if and only if the range ends inside the file; the file's offset is the end of the range if it touches several pages, and unchanged otherwise |
| `PageCache.ReadAgreesIff` | fs.c:499-523 | a full answer is what readi returns if and only if the range ends inside the file |
| `PageCache.WriteAgreesIff` | fs.c:528-558 | a write cut at the end of the file is what writei leaves if and only if it ends inside the file |
| `PageCache.ReadAtEnd` | sysfile.c:302-408 | one byte at the end of any file: a fresh cache answers with a byte of old memory where direct access reads nothing, and leaves the inode locked |
| `PageCache.PageCache.Close` | sysfile.c:198-227 | afterwards the file itself holds what the cache showed, and none of its pages is dirty |
| `PageCache.PageCache.Execute` | sysfile.c:302-530 | any sequence of reads, writes and closes answers and leaves the files as direct access would, and no inode locked, if and only if every request ends inside its file; otherwise up to the first that does not, which ends as stated |
| `FsSpec.FlippedMarks` | fs.c:68-72 | setting or clearing a bit of the free map changes the mark of that block alone |
| `FsSpec.PutWordAt` | fs.c:437-440 | storing an entry of an indirect block changes that entry alone |
| `FsSteps.FileLayout` | fs.c:419-447 | where each byte of a file lies: direct blocks by the inode, the others by the words of its indirect block, zero where there is none |
| `FsSpace.RangeStep` | fs.c:419-447 | allocating the first block of a range takes exactly its share, so the free blocks less those the range still needs stay the same |
| `FileSystem.FileSystem.FirstFree` | fs.c:65-78 | the lowest block not marked, if there is one |
| `FileSystem.FileSystem.Balloc` | fs.c:57-97 | marks and zeroes the lowest free data block, panics exactly when all are marked; one free block fewer and no file's bytes change |
| `FileSystem.FileSystem.Bmap` | fs.c:419-447 | the block of the file's nth block, allocated only if missing, at the cost of exactly the missing blocks, the panic exactly when there are too few; ownership stays injective and no byte of any file changes |
| `FileSystem.FileSystem.Readi` | fs.c:499-523 | exactly the slice of the file, -1 exactly for an offset past the end or a wrapping sum; without holes nothing is allocated or changed |
| `FileSystem.FileSystem.Writei` | fs.c:528-558 | the file becomes the spliced byte sequence, its size the maximum; other files and the absence of holes are kept; -1 exactly for offsets out of range, the panic exactly when fewer blocks are free than the range is missing, the indirect block included |
| `FileSystem.FileSystem.Bfree` | fs.c:100-115 | the panic "freeing free block" is unreachable for a referenced block |
| `FileSystem.FileSystem.Itrunc` | fs.c:454-482 | releases exactly the inode's blocks, each once; other inodes keep their blocks and bytes |
| `FileSystem.MarkedIffNamed` | fs.c:57-115 | a block is marked if and only if it is metadata or exactly one inode slot or indirect entry names it |
| `Directory.SameName` | fs.c:563-567 | namecmp: equality of the first DIRSIZ bytes up to a NUL |
| `Directory.FieldReadsBack` | fs.c:619-619 | a stored name reads back as the name cut to DIRSIZ bytes |
| `Directory.SplicedEntries` | fs.c:621-621 | writing the bytes of an entry writes that entry alone |
| `Directory.LinkedMeaning` | fs.c:611-621 | a new name in a free entry or behind the last one means its inode, and every other name means what it did |
| `Directory.Dirlookup` | fs.c:571-595 | the first entry in use for the name, with its offset, or none; nothing changes |
| `Directory.Dirlink` | fs.c:598-625 | -1 exactly when the name is present; otherwise the panic exactly when the first free entry lies outside the largest file or its blocks are not free; otherwise the name then means the inode, all other names and files are as before |
| `Vm.WalkKeeps` | vm.c:256-279 | deallocating page by page unmaps exactly those pages, frees exactly their frames and keeps one use per frame |
| `Vm.WalkSkips` | vm.c:264-268 | pages of an absent table need no visit |
| `AddressSpace.AddressSpace.constructor` | vm.c:124-126 | an empty directory: nothing mapped, every frame with its one use |
| `AddressSpace.AddressSpace.WalkAlloc` | vm.c:35-55 | afterwards the page has a table unless no frame was left; no mapping changes |
| `AddressSpace.AddressSpace.MapPage` | vm.c:60-80 | maps that page alone, or fails for want of a frame changing no mapping; the panic "remap" exactly for a page that is mapped |
| `AddressSpace.AddressSpace.DeallocUvm` | vm.c:255-279 | with its skip it has exactly the effect of the page-by-page walk, and never frees frame 0 |
| `AddressSpace.AddressSpace.AllocUvm` | vm.c:221-249 | succeeds if and only if the free frames cover the new pages and the page tables they miss; then every page between the sizes is mapped to a frame that was free; on failure all mappings are as before and every data frame is back |
| `AddressSpace.FramesStep` | vm.c:231-247 | each round takes exactly the share of its page from the frames the range needs |
| `AddressSpace.AddressSpace.FreeVm` | vm.c:283-298 | every frame of the address space is free again, each once |
| `UserAllocSpec.UnitsEnough` | umalloc.c:69-69 | the block holds the bytes asked for if and only if the rounding does not wrap, and one unit less would not |
| `UserAllocSpec.LargeRequestWraps` | umalloc.c:69-69 | a request of 2^32 - 1 bytes yields one unit |
| `UserAllocSpec.SbrkExactIff` | umalloc.c:51-54 | sbrk's int argument is the size of the block, or positive at all, if and only if the block has fewer than 2^31 bytes |
| `UserAllocSpec.RequestServedIff` | umalloc.c:46-69 | the block obtained through sbrk is backed by memory and holds the bytes asked for if and only if these are at most 2^31 - 16 |
| `UserAllocSpec.LargeRequestsUnbacked` | umalloc.c:51-56 | for 0xfffffff8 bytes sbrk is asked for 0 bytes, for 0xfffff000 bytes for -4088 |
| `UserAllocSpec.LiveDisjoint` | umalloc.c:62-90 | blocks handed out overlap neither each other nor a free block |
| `UserAlloc.JoinedSorted` | umalloc.c:33-42 | after merging, the list is in address order with no two adjacent free blocks |
| `UserAlloc.JoinedTiles` | umalloc.c:33-42 | and tiles the same memory |
| `UserAlloc.UserHeap.FindGap` | umalloc.c:30-32 | the search of free terminates at the block before the address, the wrap-around included |
| `UserAlloc.UserHeap.Free` | umalloc.c:24-44 | the block is free and merged with the free neighbours it touches, the next search starting at the free block before it; free and live blocks still tile all memory obtained |
| `UserAlloc.UserHeap.Scan` | umalloc.c:74-88 | the search of malloc finds a block exactly when one is large enough, or ends at freep |
| `UserAlloc.UserHeap.Morecore` | umalloc.c:46-61 | the block put on the list is large enough for the request; the memory the process has changes by sbrk's wrapped signed argument |
| `UserAlloc.UserHeap.Extend` | umalloc.c:74-88 | the request that goes to sbrk is served from the new region, all of it backed or none |
| `UserAlloc.UserHeap.Malloc` | umalloc.c:63-90 | a new live block of the computed size; 0 exactly when nothing fits and sbrk fails; the heap stays backed, and the block is memory of the process, exactly when sbrk was not asked or asked for a positive size; the block is the end of the first free block behind freep that is large enough, or of what sbrk granted |
| `Pipe.PipeSafe` | pipe.c:59-121 | in every interleaving: bytes read are a prefix of bytes written, at most PIPESIZE are buffered and the ring holds exactly them, and with the lock free a sleeper on nread has an empty pipe with writer open, one on nwrite a full pipe with reader open; a freed pipe has no user |
| `Pipe.CallsExact` | pipe.c:84-117 | in every interleaving: a pipewrite has stored exactly the bytes of its buffer up to its count, in order, and a piperead returns exactly the bytes it took, in order |
| `Pipe.CallsComplete` | pipe.c:76-121 | in every interleaving: a pipewrite returns with all its bytes stored, or from a full pipe without reader; a piperead with n bytes or with all there were, and with none only from a pipe without writer; a close with its end closed |
| `Pipe.FreedIff` | pipe.c:59-73 | with the lock free, the pipe's memory has been given back if and only if both ends are closed |
| `Pipe.CountersExact` | pipe.c:85-114 | the wrapping 32-bit counters tell empty and full exactly |
| `Pipe.TraceInv` | proc.c:445-502 | every reachable state satisfies the invariant, each step of sleep and wakeup included |
| `Pipe.NoDeadlock` | proc.c:445-502 | if no process inside a call can move, all sleep on the same channel and none could proceed |
| `Grep.FirstItem` | grep.c:85-106 | the first item takes a piece and the rest match where it ends |
| `Grep.MatchHere` | grep.c:85-96 | true exactly when the items match at this position |
| `Grep.MatchStar` | grep.c:99-106 | true exactly when some run of the starred character leads to a match |
| `Grep.Match` | grep.c:72-82 | true exactly when some position of the text, or its start for a leading ^, matches the pattern's meaning; the recursion terminates |
| `Shell.GetToken` | sh.c:265-308 | the next token and nothing but white space around it |
| `Shell.ParseExec` | sh.c:416-446 | agrees with the functional parser on the tokens: the command it reads, the tokens it leaves, and failure in the same cases |
| `Shell.ParsePipe` | sh.c:361-372 | likewise for pipes, to the right |
| `Shell.ParseLine` | sh.c:344-359 | likewise for background marks and lists; terminates on every line |
| `ShellGrammar.LineSound` | sh.c:344-446 | what the parser reads is derived by the grammar |
| `ShellGrammar.LineTake` | sh.c:344-446 | the parser reads every command the grammar derives, whatever follows that cannot continue it |
| `ShellGrammar.ParsedIff` | sh.c:344-446 | tokens spell a command with few enough arguments if and only if the parser returns that command and leaves nothing |
| `ShellGrammar.Unambiguous` | sh.c:344-446 | the tokens of a line spell at most one command |
| `Shell.SpelledIff` | sh.c:327-342 | the tokens of a line spell some command exactly when the functional parser consumes them all |
| `ShellTokens.FoundUnique` | sh.c:265-308 | a line has only one sequence of tokens |
| `Shell.LineWords` | sh.c:344-446 | a command spelled by tokens refers to exactly their words |
| `Shell.Nulterminate` | sh.c:450-493 | writes NUL at the end of every recorded word and nowhere else |
| `Shell.ParseCmd` | sh.c:327-342 | accepts a line if and only if its tokens spell a command with few enough arguments; then every word character lies in exactly one recorded word, and each word in the terminated text is its token |

## Left out

- Device drivers (IDE, NVMe queues, PCI, APIC, UART, console): their behaviour depends on hardware that is not visible.
- The second device's copies of the log and superblock code: textually parallel; the model takes the device as a parameter.
- `check_cache_hash` chains, NAMEFD bookkeeping and file-name hashing: a file is its identity, lookup is the scan of CACHE_META; cache behaviour across reopening is not modelled.
- `lru_policy`, `FIFO_policy`, `random_policy`, `reference_time` and `fifo_cnt`: never reached from the fault handler.
- Spinlocks, interrupts and `swtch`: acquiring and releasing a lock are atomic steps.
- Killed processes inside pipe calls.
- Contents of memory behind allocated blocks: the allocators are shown to hand out disjoint blocks and to keep their own links in free memory.
- The doubly linked lists (buffers, slab pages, hash chains) are sequences; the buddy's free lists and malloc's ring keep their pointers.
- `iupdate`, `ialloc`, `iget` and path names: inodes are records in memory.
- Directory.Dirlookup: the directory has no holes and a size of whole entries, as every directory mkfs and dirlink make.
- The link between file system blocks and the log: the block contents of `FileSystem` are those the buffer cache shows.
- `copyuvm`, `copyout`, `loaduvm` and the kernel part of `setupkvm`.
- grep's line buffering and the shell's execution of commands.
- AddressSpace.AddressSpace.MapPage: one user page, the case allocuvm uses; the loop of mappages over a longer range is not modelled.
- Shell.ParseCmd: command trees are values, built where the parser fills them in place.
- KernelHeap.Dfree: the caller does not pass the address of the allocator's own descriptors or hash nodes.
