# A Dafny model of an xv6 kernel with buddy and slab allocators

The system is xv6 for RISC-V with two allocators added under it: a buddy allocator for
physical pages and a slab allocator on top of it. This project models the parts of it that
carry invariants and proves what they promise, over all inputs and, where the code is a
protocol, over all interleavings.

| modules | what they model |
|---|---|
| `PowersOfTwo`, `BuddySpec`, `BuddyNodes`, `BuddyLists`, `BuddyCount`, `Buddy` | the buddy allocator: blocks as aligned runs of pages, splitting and merging, the linked free lists in memory, the state table, the initial layout, and the page counts |
| `Slab`, `SlabAsBuilt` | the slab allocator over a buddy allocator that it shares: pages on lists by number of used cells, bitmaps, cell addresses, and who owns which page |
| `LogDisk`, `LogOps` | the write-ahead log: the order of disk writes and crash recovery, and the reservation of log space |
| `BufferRing`, `BufferCache` | the buffer cache: the recency ring, reference counts and pins |
| `LogView`, `LogCache` | cache, operations, commit and crashes as one machine, and why it is a plain block map to its users |
| `FsLayout`, `FsSpec`, `FileSystem` | inodes, the block bitmap, indirect blocks, reading and writing files |
| `PageTable`, `VmSpec`, `VmTables`, `Vm`, `VmFree`, `VmSpaces` | Sv39 page tables (section 4.4 of the RISC-V Privileged Architecture, version 20211203) as flat maps, the tables they take, user address spaces over them, and their isolation from each other |
| `Scheduling`, `Families` | the process table: scheduling, sleep and wakeup; fork, exit and wait |
| `Pipe` | the pipe ring with wrapping counters |
| `HeapSpec`, `Umalloc` | the user-level allocator (section 8.7 of The C Programming Language, 2nd edition) |
| `ShellSpec`, `ShellGrammar`, `ShellRoundTrip`, `ShellWords`, `Shell` | the shell's tokens, grammar, recursive-descent parser and `nulterminate` |
| `SetSizes` | counting, for the modules that compare numbers of pages and blocks |

## How the model reads

Code that updates memory in place is a class, with loops where the source has loops. Its
methods are proved against functions on values, and the properties are lemmas about those
functions. Code whose point is concurrency is a state machine. Its steps are the stretches
of code between lock operations, and the properties hold in every state of every run.

Addresses are page numbers, block numbers or header units where only those matter. C
pointers are indices or addresses in a map. A panic is a result value. What `kalloc`,
`sbrk`, `killed` and the copies to and from a caller's memory answer is a parameter or a free
choice, so the proofs hold for every answer.

## Where the code does not meet its intent

- `insert_block` does not set the old first block's `prev`. `BuddyNodes` proves what the list
  operations do as written: removing any block but the first loses the blocks before it.
  With an unsigned `char` table the buddy allocator only ever removes first blocks, so
  `BuddyAllocator` is proved with the code as it stands; with a signed one, and in
  `SlabAllocator`, the missing assignment is put in, on a line marked as such.
- The slab's `list_insert` has the same gap, and `lib_slab_free` removes pages anywhere in a
  list. `OlderRemovalLosesNewer` is the smallest run that loses a page, and
  `SlabAsBuilt.NullPageIff` says after which runs `lib_slab_alloc` follows a null pointer.
- `add_free_block` can run past the top list. The free operation reports this as `Overrun`,
  `MergeOverrunsIff` gives the exact condition for one free, and `OverrunIff` for whole runs with
  signed `char`: 2^levels pages or more. `FreeLastPair` is such a run, in the order in which
  the lists hand out blocks. The kernel has 10 levels (`kernel/buddy_alloc.h`) and some 2^15 pages.
- The state table is plain `char` and is compared with -1. The signedness of `char` is a
  parameter. With unsigned `char`, which is the RISC-V convention, freed blocks never merge and
  nothing overruns; `PutCanonicalIff` and `UnsignedBackToFreshIff` say exactly when the layout
  survives.
- `get_page_number` keeps the distance from the first page in an `int`. `PageNumberIff` says
  which addresses it takes for which page, and `PageFoundIff` which pages it finds; an
  allocation that picks another page is `missed`.
- `lib_slab_free` clears a bitmap byte after giving the page back. `LateClearMissesNode` shows
  that the byte is not one that the buddy allocator has written.
- `log_write` panics at `log.size - 1` and looks at fullness before absorption.
  `NeverTooBigIff` and `AbsorptionRefusedIff` say what follows, and the shipped image has
  `nlog == LOGSIZE` (`mkfs/mkfs.c:25`), which is on the wrong side of the first condition.
- `writei` releases a buffer it has changed, without logging it, when the copy from the caller
  fails part-way through a block. The bytes stay in a buffer that is neither logged nor pinned;
  until it is recycled they are what the file reads as. `ReportedIsWholeIff` says when that
  shows, and `ShortWriteChangesMore` is an input for which it does. `LogCache` is about callers
  that log what they change.
- `malloc` passes `sbrk` a byte count that its `int` argument can cut. `SbrkFitsIff` gives the
  requests for which it is right.
- `piperead` drops the byte whose `copyout` fails. The byte counts as taken and not as
  delivered.

## Model

| member | source | states |
|---|---|---|
| `BuddySpec.NeighbourFacts` | lib/buddy_alloc/buddy_alloc.c:298-312 | the neighbour of an aligned block is the other half of its parent: the two are disjoint, aligned, each other's neighbour, and together exactly the parent |
| `BuddySpec.NeighbourStartsBlock` | lib/buddy_alloc/buddy_alloc.c:312-331 | in any layout of the working pages into disjoint aligned blocks, the first page of a block's neighbour starts a block of no higher level, so the level read there is meaningful and the asserts of the merge loop hold |
| `BuddySpec.CanonicalIffNoPairs` | lib/buddy_alloc/buddy_alloc.c:298-347 | the free blocks are the maximal aligned blocks within the free pages exactly when no two free neighbours below the top level are left unmerged |
| `BuddySpec.TakeKeepsInv` | lib/buddy_alloc/buddy_alloc.c:228-241 | splitting a free block down to the requested level keeps every working page in exactly one aligned free or allocated block, and leaves no mergeable pair |
| `BuddySpec.TakePages` | lib/buddy_alloc/buddy_alloc.c:228-279 | the pages that leave the free set are exactly those of the block handed out, and they were all free |
| `BuddySpec.MergeSound` | lib/buddy_alloc/buddy_alloc.c:298-347 | the merge loop keeps the layout, ends at a block that contains the freed one and has no free neighbour, and takes only free blocks |
| `BuddySpec.MergeOverrunsIff` | lib/buddy_alloc/buddy_alloc.c:318-346 | the merge loop leaves with lvl == levels exactly when the freed block grows to the top level and its top-level neighbour is free |
| `BuddySpec.PutKeepsInv` | lib/buddy_alloc/buddy_alloc.c:350-374 | freeing keeps the layout, and the free pages grow by exactly the pages of the block |
| `BuddySpec.PutCanonicalIff` | lib/buddy_alloc/buddy_alloc.c:298-347 | freeing keeps the canonical form if and only if plain char is signed, or the block is of the top level, or its neighbour is not free |
| `BuddySpec.CanonicalUnique` | lib/buddy_alloc/buddy_alloc.c:298-374 | two canonical states with the same allocated blocks are equal: the free lists are a function of what is allocated |
| `BuddySpec.TakeThenPut` | lib/buddy_alloc/buddy_alloc.c:243-374 | freeing what was just allocated restores the state, unless that free would overrun the top level |
| `BuddySpec.RunIffBlock` | lib/buddy_alloc/buddy_alloc.c:212-220 | some free block of level l or more exists exactly when some aligned run of 2^l working pages is entirely free |
| `BuddySpec.FreshInv` | lib/buddy_alloc/buddy_alloc.c:135-164 | the initial layout covers the working pages with aligned blocks and is canonical |
| `BuddySpec.RunKeepsLayout` | lib/buddy_alloc/buddy_alloc.c:243-374 | in every state of every run of allocs and frees, up to a free that overruns the lists, each working page lies in exactly one aligned, in-range block, and with signed char the free lists are canonical |
| `BuddySpec.RunBackToFresh` | lib/buddy_alloc/buddy_alloc.c:167-374 | with signed char, whenever nothing is allocated, after any run and in whatever order things were freed, the state is the initial one |
| `BuddySpec.UnsignedBackToFreshIff` | lib/buddy_alloc/buddy_alloc.c:167-374 | with unsigned char, when everything has been freed the state is the initial one if and only if no allocation on the way split a block |
| `BuddySpec.UnsignedTableFragments` | lib/buddy_alloc/buddy_alloc.h:65 | with an unsigned table entry the state after alloc and free of one page of two is not canonical |
| `BuddySpec.OverrunIff` | lib/buddy_alloc/buddy_alloc.c:298-347 | with signed char, for every number of pages and levels, some run of allocations and frees from the initial layout reaches a free that uses a list past the last if and only if there are 2^levels pages or more |
| `BuddyNodes.ChainInsert` | lib/buddy_alloc/buddy_alloc.c:55-68 | insert_block puts the new block at the front, with or without the assignment of the old first block's prev |
| `BuddyNodes.ChainUnlink` | lib/buddy_alloc/buddy_alloc.c:70-85 | with prev links in place, remove_block of the k-th block leaves all others in order |
| `BuddyNodes.ChainUnlinkAsWritten` | lib/buddy_alloc/buddy_alloc.c:55-85 | as written every linked block's prev is the list head, so removing the k-th block leaves exactly the blocks after it |
| `BuddyNodes.LenCountsIffFrontRemovals` | lib/buddy_alloc/buddy_alloc.c:55-89 | over any run of list_add and remove_block as written from an empty list, the blocks reachable are the suffixes that removals leave, and len equals their number if and only if every removal was of the first block |
| `BuddyNodes.OlderRemovalLosesNewer` | lib/slab_alloc/slab_alloc.c:68-100 | add x, add y, remove x, as when a cell is freed on the older of two slab pages on one list: as written nothing is reachable any more, y is lost and len is 1 |
| `BuddyNodes.NullFirstIff` | lib/buddy_alloc/buddy_alloc.c:212-220 | over any run of one list as written, with any writes elsewhere between, the list has len > 0 and no first block if and only if nothing is reachable on it and some earlier removal was not of its first block |
| `SlabAsBuilt.StepKeepsInv` | lib/slab_alloc/slab_alloc.c:68-100 | list_add and list_remove as written keep every page list a chain whose pages all point back to the head, and the lists apart: an operation on one list is a write elsewhere to the others |
| `SlabAsBuilt.NullPageIff` | lib/slab_alloc/slab_alloc.c:201-243 | as written, after any run of list_add and list_remove over all lists, lib_slab_alloc finds a list with len > 0 whose head.next is null if and only if no page is reachable on that list and some earlier list_remove on it was not of its first page |
| `BuddyLists.ServiceableIffRun` | lib/buddy_alloc/buddy_alloc.c:203-279 | in a canonical state a request of n pages can be served exactly when n is a power of two below 2^levels and an aligned run of n free pages exists |
| `BuddyCount.Conservation` | lib/buddy_alloc/buddy_alloc.c:383-399 | the free count that lib_buddy_stat computes is the number of free pages, and with the sizes in the state table it adds up to the working pages |
| `Buddy.Log2` | lib/buddy_alloc/buddy_alloc.c:203-209 | the exponent of a power of two below 2^31, and for every other 64-bit number no level that the allocator has, shifts past the width of int included |
| `Buddy.PageNumberIff` | lib/buddy_alloc/buddy_alloc.c:98-106 | get_page_number finds page p exactly for the addresses whose distance from the first page is p pages modulo 2^32 |
| `Buddy.PageFoundIff` | lib/buddy_alloc/buddy_alloc.c:98-113 | get_page_number leads from the address of a page back to it if and only if the page lies in the first 2^31 bytes |
| `Buddy.PageNumberInverts` | lib/buddy_alloc/buddy_alloc.c:98-113 | every page is found from its own address if and only if the pages span at most 2^31 bytes |
| `Buddy.BuddyAllocator.constructor` | lib/buddy_alloc/buddy_alloc.c:128-164 | init yields the binary decomposition of the working pages: pages >> top blocks at the top level, listed with the last one first, and one block per set bit below |
| `Buddy.BuddyAllocator.InsertBlock` | lib/buddy_alloc/buddy_alloc.c:55-68 | the pointer writes put the block behind the head; with unsigned char these are the writes of the source and no other |
| `Buddy.BuddyAllocator.ListAdd` | lib/buddy_alloc/buddy_alloc.c:55-89 | the free set gains the block, at the front of its list |
| `Buddy.BuddyAllocator.RemoveBlock` | lib/buddy_alloc/buddy_alloc.c:70-85 | the free set loses exactly that block: with prev links wherever it is in its list, and as written when it is the first of its list |
| `Buddy.BuddyAllocator.FindFreeBlock` | lib/buddy_alloc/buddy_alloc.c:212-220 | a free block of the smallest sufficient level, the first of its list, or null when there is none of that level or more |
| `Buddy.BuddyAllocator.Devide` | lib/buddy_alloc/buddy_alloc.c:228-241 | cuts a free block down to the final level and puts each upper half at the front of its list |
| `Buddy.BuddyAllocator.Alloc` | lib/buddy_alloc/buddy_alloc.c:243-279 | null exactly when no block (with signed char: no aligned run) serves the request or the block picked lies past the first 2^31 bytes, where get_page_number does not find it; then nothing changes; otherwise the first block of the smallest sufficient level is split, and state and lists are exactly those that follow |
| `Buddy.FreeLastPair` | lib/buddy_alloc/buddy_alloc.c:243-377 | a failing input for every size: of the n top-level blocks of a fresh allocator, freeing number n - 1 after one request if n is even, or n - 2 after two if n is odd, runs past the last list with signed char, if and only if there are 2^levels pages or more |
| `Buddy.BuddyAllocator.NeighbourTests` | lib/buddy_alloc/buddy_alloc.c:288-331 | the table entry and the level read at the neighbour's first page decide exactly whether the neighbour is free |
| `Buddy.BuddyAllocator.AddFreeBlock` | lib/buddy_alloc/buddy_alloc.c:298-347 | the loop with its list removals computes the specified merge, and goes past the top list exactly in the overrun case |
| `Buddy.BuddyAllocator.Release` | lib/buddy_alloc/buddy_alloc.c:350-374 | a page number that does not start an allocated block is rejected without change; an overrun happens exactly when all around the block is free up to 2^levels pages and char is signed; otherwise the state is that of the specified free |
| `Buddy.BuddyAllocator.ReleaseAt` | lib/buddy_alloc/buddy_alloc.c:98-374 | the same from an address: rejected unless its distance modulo 2^32 is a whole number of pages, else as the free of that page |
| `Buddy.BuddyAllocator.Stat` | lib/buddy_alloc/buddy_alloc.c:383-399 | total is all pages, free is the number of free pages, and free, the allocated sizes and the service pages add up to the total |
| `Buddy.MetadataFits` | lib/buddy_alloc/buddy_alloc.c:122-125 | the service pages are the least number of pages that the lists and the state table end inside of |
| `Buddy.Init` | lib/buddy_alloc/buddy_alloc.c:167-195 | fails exactly when a node does not fit in a page or the metadata needs more pages than there are; otherwise gives the initial layout of the remaining pages |
| `Slab.PageGeometry` | lib/slab_alloc/slab_alloc.c:107-155 | every cell lies between the page header and the bitmap, and the bitmap inside the page |
| `Slab.MostCells` | lib/slab_alloc/slab_alloc.c:120-155 | the cells and their bitmap fit behind the page header, and with one cell more they would not |
| `Slab.CellsDisjoint` | lib/slab_alloc/slab_alloc.c:111-113 | distinct cells, of one page or of two, do not overlap |
| `Slab.AddrDecodes` | lib/slab_alloc/slab_alloc.c:223-243 | the page and the cell index computed from a cell's address are the right ones |
| `Slab.SlabAllocator.constructor` | lib/slab_alloc/slab_alloc.c:60-66 | an empty slab over a buddy allocator: all lists empty, no page |
| `Slab.ServPages` | lib/slab_alloc/slab_alloc.c:120-127 | the smallest power of two of pages that holds the bytes |
| `Slab.Init` | lib/slab_alloc/slab_alloc.c:120-155 | the list heads fit the block taken for them, which is the smallest power of two of pages; fails exactly when the buddy allocator cannot serve it, and then nothing changed |
| `Slab.SlabAllocator.FirstFree` | lib/slab_alloc/slab_alloc.c:181-198 | by counting, the scan finds a clear byte before the end whenever used_cells is below the number of cells, so its assert holds |
| `Slab.SlabAllocator.PageAllocCell` | lib/slab_alloc/slab_alloc.c:181-198 | one clear byte of the page is set and the page moves to the next list: every page on list k has exactly k bytes set |
| `Slab.SlabAllocator.NewPage` | lib/slab_alloc/slab_alloc.c:165-179 | the new page joins list 0 with a clear bitmap |
| `Slab.SlabAllocator.FindPage` | lib/slab_alloc/slab_alloc.c:201-210 | a page of the fullest list that still hands out cells, or null when there is none |
| `Slab.SlabAllocator.TakePage` | lib/slab_alloc/slab_alloc.c:165-179 | a page that the slab did not have, from the buddy allocator, empty and on list 0; fails exactly when the buddy allocator has none |
| `Slab.SlabAllocator.Alloc` | lib/slab_alloc/slab_alloc.c:201-215 | slab and buddy allocator stay in order together; the cell returned was not in use and is now, on the fullest page with room; a page is taken exactly when every page is full, and the call fails exactly when there is none; no other client loses or gains a block |
| `Slab.SlabAllocator.Free` | lib/slab_alloc/slab_alloc.c:235-243 | the cell is no longer in use, no other cell changes, and the page goes back to the buddy allocator exactly when that was its last cell in use; slab and buddy allocator stay in order together, except exactly when that free overruns the lists |
| `Slab.LateClearMissesNode` | lib/slab_alloc/slab_alloc.c:235-243 | the bitmap byte cleared after the page was given back lies past the buddy node header in that page |
| `Slab.OtherAlloc` | kernel/buddy_alloc.c:44-51 | an allocation by another client keeps slab and buddy allocator in order together and gives it a block that is no page of the slab |
| `Slab.OtherFree` | kernel/buddy_alloc.c:53-59 | so does its free of anything that is not a page of the slab |
| `Slab.NoLeak` | lib/slab_alloc/slab_alloc.c:201-243 | when no cell is in use the slab holds no page, every page outside the other clients' blocks is free, and with signed char the free lists are the canonical ones for those blocks |
| `LogDisk.HeadRoundTrip` | kernel/log.c:86-114 | the header block written by write_head is read back by read_head |
| `LogDisk.InstallPrefix` | kernel/log.c:68-83 | stopping install_trans after k writes has put exactly the first k logged blocks in place |
| `LogDisk.RecoverPrefix` | kernel/log.c:116-123 | stopping recovery after any write leaves the same logical contents and a well-formed log; completing it installs them and empties the log |
| `LogDisk.CommitPrefix` | kernel/log.c:193-203 | after k writes of commit the disk means the new contents when the header write is among them, and the old contents otherwise |
| `LogDisk.CrashAtomicity` | kernel/log.c:68-203 | commit stopped at any disk write, then recovery stopped any number of times at any writes, then one complete recovery: every home block is new if the first write_head reached the disk, else every one is old |
| `LogDisk.DiskLog.WriteLog` | kernel/log.c:178-191 | the disk writes are exactly the cached blocks, in order, into the log |
| `LogDisk.DiskLog.InstallTrans` | kernel/log.c:68-83 | the disk writes are exactly the log copies, in order, to their home blocks |
| `LogDisk.DiskLog.Commit` | kernel/log.c:193-203 | writes nothing for an empty transaction; otherwise exactly the specified sequence of disk writes, and empties the log |
| `LogDisk.DiskLog.Recover` | kernel/log.c:116-123 | reads the header and makes exactly the specified sequence of recovery writes |
| `LogOps.StepKeepsInv` | kernel/log.c:126-235 | each step keeps lh.n plus the unspent budgets of the outstanding operations within LOGSIZE, lh.n within the log area, logged block numbers distinct, and no operation outstanding during a commit |
| `LogOps.RunKeepsReservation` | kernel/log.c:126-235 | that holds in every state of every interleaving |
| `LogOps.NeverTooBigIff` | kernel/log.c:214-225 | log_write's "too big a transaction" panic is unreachable for the new blocks that an operation has reserved if and only if log.size exceeds LOGSIZE |
| `LogOps.IdleAdmits` | kernel/log.c:126-143 | over every run begin_op goes on whenever no operation and no commit is under way, and with an empty log exactly while fewer than three operations are |
| `LogOps.AbsorptionRefusedIff` | kernel/log.c:214-235 | some reachable state, in which no write has panicked, makes log_write panic for a block that is in the log already, if and only if the log has room for a block at all |
| `LogOps.OpLog.BeginOp` | kernel/log.c:126-142 | admits the operation exactly when no commit runs and MAXOPBLOCKS more fit, else sleeps unchanged |
| `LogOps.OpLog.EndOp` | kernel/log.c:146-175 | the last outstanding operation starts the commit |
| `LogOps.OpLog.LogWrite` | kernel/log.c:214-235 | panics exactly when the log is full or there is no transaction; otherwise absorbs a logged block or appends a new one |
| `BufferRing.RemoveOk` | kernel/bio.c:116-137 | unlinking a buffer leaves the ring of the others in order |
| `BufferRing.MoveToFrontOk` | kernel/bio.c:116-137 | brelse's six pointer writes move the buffer to the front and keep the ring |
| `BufferCache.StepKeepsInv` | kernel/bio.c:58-151 | every step of the cache keeps at most one buffer per block, counts equal to holders plus pin, and a buffer for every block whose disk contents are out of date; that the log and its callers take only such steps is LogCache.UnpinAndReleaseAreSafe |
| `BufferCache.BreadReturnsLast` | kernel/bio.c:92-103 | over every run of the cache alone bread returns the contents last put into a buffer of the block, in the only buffer that holds it |
| `BufferCache.ReferencedNotRecycled` | kernel/bio.c:72-85 | a buffer that bget recycles is held by no one, not pinned, not locked, and holds nothing the disk does not have |
| `BufferCache.BCache.constructor` | kernel/bio.c:36-53 | an empty cache whose ring links all buffers |
| `BufferCache.BCache.Bget` | kernel/bio.c:58-89 | fails exactly when the block is not cached and every buffer is referenced; otherwise the cached buffer, or the least recently used free one |
| `BufferCache.BCache.Bread` | kernel/bio.c:92-103 | the buffer is valid and holds the contents last given to its block |
| `BufferCache.BCache.Brelse` | kernel/bio.c:116-137 | drops one reference; exactly when that was the last the buffer goes to the front of the ring, where the others keep their order |
| `BufferCache.BCache.Bpin` | kernel/bio.c:139-144 | one more reference, and the block counts as pinned |
| `BufferCache.BCache.Bunpin` | kernel/bio.c:146-151 | one reference less, and the block no longer counts as pinned |
| `LogView.LogicalIsCommitted` | kernel/log.c:68-203 | whatever point operations and commit have reached, what the disk stands for is the block map at the last commit record |
| `LogView.FlushHeadKeepsInv` | kernel/log.c:99-114 | the write of the header turns the blocks that operations gave into the committed ones, and the second write of it loses none |
| `LogView.CrashKeepsInv` | kernel/log.c:116-123 | a crash at any point and any number of recoveries cut short leave a state like a fresh boot on the committed blocks |
| `LogCache.StepKeepsInv` | kernel/log.c:68-235 | cache, operations and commit as one machine: every step of readers, operations and commit, and every crash, keeps the joint invariant |
| `LogCache.BreadReturnsGiven` | kernel/log.c:68-235 | over every interleaving of readers, operations, commits and crashes, bread of a block outside the log returns what an operation last gave to it, in the only buffer for it |
| `LogCache.DiskIsLastRecord` | kernel/log.c:68-203 | in every reachable state, across any number of transactions, the disk stands for the block map at the last commit record, and a crash there with any number of recoveries cut short leaves that map |
| `LogCache.RecordBetweenOperations` | kernel/log.c:146-203 | a commit record is written only when no operation is under way and no changed block is unlogged |
| `LogCache.CommitIsDurable` | kernel/log.c:146-175 | when commit returns, the blocks on record are what operations last gave |
| `LogCache.PinnedAreLogged` | kernel/log.c:68-235 | in every reachable state the pinned blocks are exactly the logged ones that are not installed yet |
| `LogCache.CopyHomeChangesNothing` | kernel/log.c:73-76 | the memmove of install_trans outside recovery changes no byte of the cache |
| `LogCache.UnpinAndReleaseAreSafe` | kernel/log.c:76-81 | bunpin is called only once the disk has the block's last contents, bpin only for blocks that are not pinned, and brelse never gives up contents that are neither on disk nor pinned |
| `FsLayout.WordRoundTrip` | kernel/fs.c:395-418 | a 32-bit block address written into an indirect block is read back, and no other address changes |
| `FsLayout.MarkRoundTrip` | kernel/fs.c:65-105 | setting or clearing a bitmap bit changes that bit and no other |
| `FsSpec.NoSharing` | kernel/fs.c:382-421 | bmap is injective: no block belongs to two inodes or to two places of one |
| `FsSpec.AssignKeepsInv` | kernel/fs.c:382-421 | assigning a free block to an empty place keeps every invariant and changes no existing byte of any file |
| `FsSpec.TruncKeepsInv` | kernel/fs.c:425-453 | freeing exactly the blocks of one inode keeps every invariant and every other file |
| `FileSystem.FileSys.Balloc` | kernel/fs.c:65-88 | the first free block, zeroed and marked in use, or 0 exactly when all are in use |
| `FileSystem.FileSys.Bmap` | kernel/fs.c:382-421 | the address of block bn, allocating it if need be; the only blocks taken are that one and, for a block listed there, the indirect block; fails only when the disk is full, and never changes file contents |
| `FsSpec.GaveOut` | kernel/fs.c:382-421 | when every data block is in use and a place of the range is still empty, the free blocks at the start were fewer than the empty places, the indirect block included |
| `FsSpec.WentRound` | kernel/fs.c:382-421 | when every place of the range is filled, they were as many |
| `FileSystem.FileSys.Readi` | kernel/fs.c:471-496 | the slice of the file's byte sequence, cut at its end, and empty for an offset past it or a wrapping range; -1 exactly when the caller's memory ends before the slice |
| `FileSystem.FileSys.Writei` | kernel/fs.c:505-539 | the file becomes itself overwritten or extended from off, up to the count reported plus what a failing copy left in its block, cut at the new size; every other file is the same; -1 exactly for the bad ranges; if the free blocks fill the empty places that the copies reach, the count is all, or ends at the last block boundary that the caller's memory reaches, and it tells the whole change exactly when the tail past that boundary is kept; if not, it ends at the first place they do not fill; no block is taken for anything else |
| `FileSystem.RoundEnds` | kernel/fs.c:516-528 | a round of writei ends at a block boundary or at the end; one whose copy fails started at the last boundary below the end of the caller's memory |
| `FileSystem.ReportedIsWholeIff` | kernel/fs.c:516-530 | from off, the sizes and the bytes alone: the count that writei reports tells the whole change to the file if and only if the caller's memory holds all of it, or what it holds past its last block boundary lies past the end of the file or equals what the file has there |
| `FileSystem.ShortWriteChangesMore` | kernel/fs.c:516-530 | a failing input: 2048 bytes at offset 0 of a 4096-byte file, of which the caller's memory holds 1500, are reported as 1024, and byte 1024 is new |
| `FileSystem.OverwriteReads` | kernel/fs.c:471-539 | what was written is read back and the rest of the file is as it was |
| `FileSystem.FileSys.Bfree` | kernel/fs.c:91-105 | clears the bit, or panics when it was clear |
| `FileSystem.FileSys.Itrunc` | kernel/fs.c:425-453 | frees exactly the blocks the inode owns, direct, indirect and the indirect block itself |
| `PageTable.PteRoundTrip` | kernel/riscv.h:347-353 | packing a page address and flags into an entry loses neither |
| `PageTable.IndexInjective` | kernel/riscv.h:355-358 | the three 9-bit indices determine the virtual page |
| `PageTable.AddKeepsForest` | kernel/vm.c:85-103 | a table page added under an invalid entry keeps the tables a forest with one path to each |
| `PageTable.AddKeepsLeaf` | kernel/vm.c:85-103 | walk with alloc changes no translation of any page table |
| `PageTable.SetChangesOneLeaf` | kernel/vm.c:142-192 | writing the leaf entry of one page changes that translation and no other, in this page table or another |
| `Vm.Machine.UvmCreate` | kernel/vm.c:196-205 | a new page table that maps nothing, at the cost of one free page |
| `Vm.Machine.Walk` | kernel/vm.c:85-103 | the level-0 table for the page: without alloc nothing changes, with alloc only tables on the way to the page are added, and it fails only when memory is out |
| `Vm.Machine.WalkAddr` | kernel/vm.c:108-126 | the physical page of a valid user entry, 0 for anything else, and nothing changes |
| `Vm.Machine.MapPages` | kernel/vm.c:142-165 | exactly the pages mapped get the new entries, every other translation is the same; stops early only out of memory or at a page already mapped |
| `Vm.Machine.MapRange` | kernel/vm.c:142-165 | for a range of bytes, aligned or not, exactly the pages that hold one of them are mapped; panics exactly for an empty range |
| `Vm.Machine.Unmap` | kernel/vm.c:170-192 | succeeds exactly when every page of the range has a leaf entry, removes exactly those entries, and with do_free frees exactly their pages |
| `Vm.Machine.UvmDealloc` | kernel/vm.c:255-267 | removes and frees exactly the pages between the two rounded sizes |
| `Vm.Machine.UvmAlloc` | kernel/vm.c:225-249 | on success fresh zeroed pages are mapped for exactly the added range; on failure every translation and data page is as before and every data page taken is free again; it fails when the free pages are fewer than the pages to add plus the tables missing for them, and only then |
| `Vm.Machine.UvmCopy` | kernel/vm.c:305-333 | on success the child maps fresh pages with the parent's bytes and flags and nothing else changes; on failure every data page taken is free again; it fails when the free pages are fewer than the pages to copy plus the tables missing for them, and only then |
| `VmTables.RanOut` | kernel/vm.c:85-248 | a page or a table is wanting with fewer than n pages mapped: the free pages at the start were fewer than n plus the missing tables |
| `VmTables.HadEnough` | kernel/vm.c:85-248 | all n pages are mapped: they were as many |
| `VmTables.MissingFromEmpty` | kernel/vm.c:85-103 | the first n pages of an empty page table take one table for each 512 pages and one for each 512 * 512 |
| `VmSpec.BuiltUndo` | kernel/vm.c:225-333 | unmapping and freeing a range that was just built leaves every translation and every data page as it was |
| `Vm.Machine.CopyOut` | kernel/vm.c:351-371 | writes the bytes to their user addresses and no others, all of them unless it meets the first page that is not the user's |
| `Vm.Machine.CopyIn` | kernel/vm.c:376-396 | succeeds exactly when all addresses are the user's, and returns the bytes there |
| `VmSpec.ReadsBack` | kernel/vm.c:351-396 | what copyout wrote copyin returns |
| `VmSpec.NotTheUsers` | kernel/vm.c:107-124 | copyout changes no page that is mapped without PTE_U |
| `VmFree.FreeWalk` | kernel/vm.c:271-287 | succeeds exactly when no leaf is left below the table, and then every table page at and below it is free and no other is touched |
| `VmFree.UvmFree` | kernel/vm.c:291-297 | succeeds exactly when all pages below sz are mapped and none above; then every page of the address space is free and no other page table changed |
| `VmSpaces.BuiltIsolated` | kernel/vm.c:225-333 | mapping fresh pages above the size keeps the address spaces isolated: every page below a size present, accessible and a data page, nothing above, no data page in two places |
| `VmSpaces.UnmappedIsolated` | kernel/vm.c:255-267 | so does unmapping and freeing the pages above a smaller size, and the pages that stay keep their bytes |
| `VmSpaces.WrittenIsolated` | kernel/vm.c:351-371 | so does copyout, and no byte of another address space changes |
| `VmSpaces.AddressSpaces.Create` | kernel/vm.c:196-205 | a new empty address space, isolated from the others, which do not change |
| `VmSpaces.AddressSpaces.Grow` | kernel/proc.c:257-275 | the pages added are zero, and the old pages and the other address spaces do not change; it fails if and only if the free pages are fewer than the pages to add plus the tables missing for them, and then nothing changes |
| `VmSpaces.AddressSpaces.Shrink` | kernel/proc.c:257-275 | never panics; the pages that stay and the other address spaces do not change |
| `VmSpaces.AddressSpaces.Fork` | kernel/proc.c:279-300 | the child has the bytes and flags of the parent in pages of its own, and no other address space changes; it fails if and only if the free pages are fewer than one root, the n pages of the parent, a table for each 512 of them and one for each 512 * 512, and then the same pages are free, data and tables as before |
| `VmSpaces.AddressSpaces.Destroy` | kernel/vm.c:271-297 | never panics; exactly the pages and the tables of the address space become free, and the other address spaces do not change |
| `VmSpaces.AddressSpaces.NoLeak` | kernel/vm.c:196-333 | nothing leaks, whatever the calls were: a page is free if and only if no address space maps it and it is no table, every table is that of an address space, and without address spaces every page is free |
| `VmSpaces.AddressSpaces.Store` | kernel/vm.c:351-371 | the bytes reach their addresses, and no other address space changes |
| `HeapSpec.OrderedUnique` | user/umalloc.c:24-44 | an address-ordered list without adjacent blocks is determined by its free units |
| `HeapSpec.JoinUnits` | user/umalloc.c:24-44 | free adds exactly the units of the block to the free ones |
| `HeapSpec.JoinOrdered` | user/umalloc.c:24-44 | after coalescing on both sides the list is again in address order with no two blocks adjacent |
| `HeapSpec.CarveUnits` | user/umalloc.c:63-90 | malloc takes exactly the units of the block it returns out of the free ones |
| `HeapSpec.CarveThenJoin` | user/umalloc.c:24-90 | freeing what malloc just returned restores the free list exactly |
| `Umalloc.StopsThere` | user/umalloc.c:28-31 | the two tests of free's search loop hold at the one place where the block belongs and nowhere else |
| `Umalloc.AllFreeIsOneBlock` | user/umalloc.c:24-90 | once everything is freed, contiguous core is one free block again |
| `Umalloc.Heap.Search` | user/umalloc.c:28-31 | the search terminates, at the place where the block fits |
| `Umalloc.Heap.FreeMem` | user/umalloc.c:24-44 | the block leaves the blocks in use and joins the free list, coalesced; units are conserved; freep is the block before it |
| `Umalloc.Heap.Morecore` | user/umalloc.c:46-61 | adds at least 4096 units of new core to the free ones, or does nothing when sbrk fails; short exactly when sbrk succeeds for a byte count that its int argument has cut |
| `Umalloc.Heap.Scan` | user/umalloc.c:73-88 | finds the first sufficient block in circular order after freep, exactly when there is one |
| `Umalloc.NUnits` | user/umalloc.c:69 | a block of that many units holds nbytes bytes after its header, with less than one unit to spare |
| `Umalloc.Heap.Malloc` | user/umalloc.c:63-90 | fails exactly when no free block is large enough and sbrk fails; otherwise returns a new block that holds nbytes bytes, cut from the first sufficient one, and calls sbrk only when there was none; freep is the block before; short exactly when morecore is |
| `Umalloc.SbrkFitsIff` | user/umalloc.c:46-90 | the byte count asked of sbrk fits its int argument if and only if at most 0x7fffffe0 bytes are asked of malloc |
| `Scheduling.StepKeepsInv` | kernel/proc.c:366-604 | each step of a scheduler, a kernel thread in yield, sleep or exit, a wakeup or another CPU keeps locks, states, saved contexts and c->proc consistent |
| `Scheduling.OneCpu` | kernel/proc.c:444-510 | in every reachable state a process is current on at most one CPU, and while its lock is free it is RUNNING exactly when some CPU runs it |
| `Scheduling.NoLostWakeup` | kernel/proc.c:535-580 | when a wakeup issued under lk is over, no process that gave up lk to sleep on that channel is still asleep |
| `Scheduling.WokenOnlyBy` | kernel/proc.c:565-605 | over every run a sleeping process is woken only by kill or by a wakeup on its own channel |
| `Scheduling.StatesAreTrue` | kernel/proc.c:366-563 | over every run a SLEEPING process went to sleep on the channel it is on, one that yielded is RUNNABLE, a ZOMBIE came from exit, and a thread runs free exactly while RUNNING |
| `Scheduling.SleepReturnsLocked` | kernel/proc.c:533-563 | over every run a thread that switched away in sleep is on its way back until it holds the condition lock again |
| `Scheduling.KillWakes` | kernel/proc.c:584-605 | kill leaves the process not SLEEPING, and changes no other |
| `Scheduling.SwitchesAreSafe` | kernel/proc.c:444-499 | sched always finds p->lock held and p->state changed, the scheduler switches only to saved contexts, and a ZOMBIE whose lock is free has left its CPU |
| `Scheduling.SchedHoldsOneLockIff` | kernel/proc.c:368-499 | over every run sched's test of noff passes if and only if its caller, when it took p->lock, held nothing but the condition lock that sleep releases before sched, or the wait_lock that exit does |
| `Families.StepKeepsInv` | kernel/proc.c:279-435 | each step of fork, exit, reparent and wait keeps every parent alive and every exiting process without children behind its scan |
| `Families.StepKeepsHistory` | kernel/proc.c:346-435 | each step keeps pids unique and every exited process either reaped once or present as a ZOMBIE |
| `Families.StaysReapable` | kernel/proc.c:330-435 | in every reachable state no process has a ZOMBIE or UNUSED parent, and an exited process not yet reaped is a ZOMBIE with a live parent |
| `Families.ReapedOnceByParent` | kernel/proc.c:390-435 | over every run a process is reaped at most once, after it exited, and by its parent of the moment |
| `Families.NoSleeperHasZombie` | kernel/proc.c:330-435 | in every reachable state in which wait_lock is free, a process asleep in wait has no ZOMBIE child |
| `Families.WaitAnswers` | kernel/proc.c:388-436 | over every run wait returns -1 for want of a child only when it has none or was killed, and sleeps only when it has children and none of them is a ZOMBIE |
| `Families.KillEndsSleep` | kernel/proc.c:584-605 | kill ends a sleep in wait, and changes nothing else |
| `Pipe.TestsAreExact` | kernel/pipe.c:82-110 | the tests on the wrapping counters tell empty and full exactly |
| `Pipe.PutKeepsRing` | kernel/pipe.c:90 | putting a byte into a ring that is not full keeps all bytes inside in order |
| `Pipe.TakeKeepsRing` | kernel/pipe.c:115 | the byte taken is the oldest one inside |
| `Pipe.RunIsFifo` | kernel/pipe.c:70-124 | over every interleaving of readers and writers at most PIPESIZE bytes are inside, the bytes out are a prefix of the bytes in, and every call has moved its own bytes in order |
| `Pipe.PipeBuffer.Write` | kernel/pipe.c:70-97 | appends exactly the bytes it reports; sleeps exactly when the pipe is full, fails exactly when the reader is gone or the process killed |
| `Pipe.PipeBuffer.Read` | kernel/pipe.c:99-124 | returns the oldest bytes in order, as many as there are up to n or to the first whose copyout fails, which is taken but not returned; sleeps or fails exactly when the pipe is empty and a writer remains |
| `Pipe.PipeBuffer.Close` | kernel/pipe.c:51-68 | closes one end, and frees the pipe exactly when both are closed |
| `ShellSpec.TokenIsWord` | user/sh.c:266-309 | a token of kind 'a' is a maximal run of word characters |
| `ShellRoundTrip.RoundTripIff` | user/sh.c:328-447 | for every command tree of legal words, parsing its parenthesised printing returns that tree and consumes all input if no simple command in it has ten words or more, and panics otherwise |
| `ShellRoundTrip.TooManyWords` | user/sh.c:430-441 | the argument loop panics at the tenth word, wherever the command stands |
| `ShellGrammar.ParserIsExact` | user/sh.c:328-447 | against a grammar of its own: for every line, parsecmd returns a tree if and only if the tokens of the line, with any white space between them, spell a sentence that means that tree: pipelines, lists, "&", groups, and simple commands with redirections before, between and after their words, kept in order; and no simple command has ten words |
| `ShellGrammar.SentenceParses` | user/sh.c:345-447 | every sentence is parsed, wherever it stands, to what it means |
| `ShellGrammar.LineSpells` | user/sh.c:345-447 | every parse is that of a sentence, and takes exactly its tokens |
| `ShellGrammar.TokensCover` | user/sh.c:266-309 | the tokens of a line hold every character that is not white space, once and in order |
| `ShellWords.LineIsWords` | user/sh.c:345-447 | every argument and file name in a parse is a maximal word of the line |
| `ShellWords.WordsAreStrings` | user/sh.c:450-494 | after nulterminate each word is a C string that is exactly its token |
| `Shell.Parser.NextToken` | user/sh.c:266-309 | the scanning loops compute the specified token |
| `Shell.Parser.Redirs` | user/sh.c:375-398 | the loop reads exactly the redirections that follow |
| `Shell.Parser.Arguments` | user/sh.c:430-446 | the loop reads exactly the words and redirections of a simple command |
| `Shell.Parser.Block` | user/sh.c:400-414 | reads a parenthesised line and its redirections, or panics, as specified |
| `Shell.Parser.Exec` | user/sh.c:416-447 | reads a block or a simple command, or panics, as specified |
| `Shell.Parser.PipeLine` | user/sh.c:362-373 | reads a pipeline, or panics, as specified |
| `Shell.Parser.Line` | user/sh.c:345-360 | reads a line, or panics, as specified; terminates on every input |
| `Shell.Parser.NulTerminate` | user/sh.c:450-494 | writes NUL at the end of each word of the command and nowhere else |
| `Shell.Parser.ParseCommand` | user/sh.c:328-343 | parses the line or panics, as specified, and leaves every word of the command a C string equal to its token |

## Left out

- Buddy.BuddyAllocator.Alloc: there are at most 31 levels, because the level shifts are `int` operations; a call that is `missed` stops there, where the source panics or, from 2^32 bytes on, writes another page's table entry.
- Buddy.BuddyAllocator.Release: says nothing of the state after an overrun, where the source goes on past the end of an array.
- Buddy.BuddyAllocator.ReleaseAt: the page size is the kernel's 4096.
- Buddy.Init: block headers are kept beside the pages, not inside them, so that a client writing to a page it still holds is not modelled.
- BuddySpec.RunKeepsLayout: a run ends at a free that overruns the lists, because the source is then past the end of an array; `OverrunIff` says when that can happen.
- Slab.SlabAllocator.constructor: requires a positive cell size and at least two cells to a page, which `lib_slab_init` does not verify; with none `lib_slab_alloc` panics, and with one it uses a list head past the last.
- SlabAsBuilt.NullPageIff: a run ends where a page that the lists have lost is freed.
- Slab.SlabAllocator.Alloc: null also stands for the panic when the buddy allocator's call is `missed`; page headers are kept beside the pages, as the buddy allocator's are.
- LogDisk.CrashAtomicity: a block write is atomic, and logged blocks lie outside the log.
- LogOps.OpLog.LogWrite: an operation adds at most MAXOPBLOCKS new blocks, which `begin_op` promises but nothing enforces.
- LogCache.BreadReturnsGiven: operations change blocks between `begin_op` and `end_op`, log what they changed before they release it, and add at most MAXOPBLOCKS new blocks; a crash ends with one complete recovery.
- BufferCache.BCache.Bunpin: requires that the block is pinned and the disk has its contents, which `LogCache.UnpinAndReleaseAreSafe` shows of every call.
- BufferCache.BreadReturnsLast: device numbers are at least 1.
- FileSystem.FileSys.Writei: bytes that a failing copy left count as contents, though the source can lose them when it recycles their buffer; the on-disk copy of the inode (`iupdate`) and the log calls are not modelled.
- Vm.Machine.UvmAlloc: the extra permissions are write and execute bits, as its callers pass; sizes are at most MAXVA, past which `walk` panics.
- Vm.Machine.Unmap: when pages are freed, they are data pages and no page is mapped twice in the range, as `kfree` needs; `VmSpaces` shows this of every address space.
- Vm.Machine.CopyOut: every user page has a data page of its own, which `VmSpaces` shows of every address space.
- VmFree.FreeWalk: valid level-0 entries grant read, write or execute access, which `VmSpaces` shows of every address space; without any, Sv39 and the code take them for pointers.
- VmSpaces.AddressSpaces.Grow: the trampoline and trap frame pages, which `uvmfree` does not see, and `uvmclear` are not part of an address space here.
- VmSpaces.AddressSpaces.Fork: the page of the trap frame and the tables above it are not among the pages it needs here, as they are not part of an address space.
- Umalloc.Heap.Malloc: new core lies above the base header, and block sizes fit in 32 bits; says nothing of the heap once morecore has used memory that sbrk did not give.
- Families.ReapedOnceByParent: pids do not wrap around.
- Families.NoSleeperHasZombie: going to sleep in `wait` is one step, as `Scheduling.NoLostWakeup` justifies.
- Scheduling.NoLostWakeup: says nothing about fairness, only that no sleeper is missed.
- Scheduling.SwitchesAreSafe: whether interrupts are off when `sched` looks is not modelled.
- Directories, path names, inode allocation and reference counts, system calls, `exec`, traps, device drivers, the console and the other user programs are not part of this model.
- Lock acquisition order and deadlock freedom are not stated.
- `runcmd` and the rest of the shell after parsing are not part of this model.
- `copyinstr`, `uvmfirst` and the kernel's own page table would add only easy members.
