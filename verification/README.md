# Rodnix: a verified model of its kernel core

A model, in Dafny, of five parts of the Rodnix kernel, with proofs of what they
promise. `dafny verify dfyconfig.toml` checks everything.

* **EXT2** (`Ext2*.dfy`, after `kernel/fs/ext2.c`). Block bitmaps and free
  counters, the block map of an inode through direct, single and double
  indirect pointers, growing, trimming, resizing, reading and writing back. A
  ghost map from blocks to the slot that names them makes ownership injective,
  and a ghost trace of disk images lets every single write be checked for
  crash safety. The driver is a class whose methods keep the image well formed
  and every image of the trace safe.
* **User VM** (`Vm*.dfy`, after `kernel/vm/`). Address maps, page tables, page
  reference counts, shared objects and copy on write. `VmSteps` is the VM as a
  state machine, `VmRuns` proves its invariant over all runs, `VmIsolation`
  proves that private pages are isolated after a fork, `VmExposure` that what
  is not isolated can be changed by others, and `VmKernel` is the code itself,
  entry by entry and page by page, each operation proved to be a step of the
  machine that leaves all counts right. `VmSharing` follows shared memory from
  the mapping through fork and faults to a store that the other side reads.
* **VFS** (`Vfs*.dfy`, after `kernel/fs/vfs.c`). The name space as a forest with
  mounts, the path cache, and node lifetime by reference count. The walk that
  resolves a path is the reference; the cache and the loops are proved equal
  to it, and each change is described by what it does to all paths.
* **Heap and wait queues** (`HeapBlocks.dfy`, `KernelHeap.dfy`, `WaitQueue.dfy`,
  after `kernel/common/heap.c` and `kernel/common/waitq.c`). A coalescing
  first-fit allocator over headers linked by address, and timed wait queues as
  a state machine.
* **UDP** (`InetChecksum.dfy`, `UdpSockets.dfy`, `UdpErrors.dfy`, after
  `kernel/net/`). The checksum of RFC 1071, section 1, frame building, the
  receiver's tests, what they make of a frame with one changed byte, and the
  queues.

Addresses that the kernel gets from its allocators (a new node, a new object,
pages for the heap), the outcome of operations that belong to other parts
(truncating a file, a file system's own mount) and the clock are parameters.
Integer widths are written out wherever a value can reach them.

## What turned out not to hold

Each of these has a lemma with a concrete case, an exact condition, or both.

* A growth that reports success need not have grown the file: a stored size
  above 1 TB is read back without its high half, and from block size times 2^32
  on the number of blocks wraps. A success is what was asked for exactly up to
  1 TB (`Ext2Resize.FullyExactly`);
  growing to block size times 2^32 bytes maps nothing and leaves the file empty
  (`Ext2Driver.Ext2.GrowToNothing`).
* A growth that fails on a file with a hole at its end can leave the boundary
  table allocated. The free blocks come back exactly if that table was there
  before or there were too few free blocks to create it
  (`Ext2Resize.LeakExactly`); `Ext2Examples.LeakingGrowth` is a volume where
  they do not.
* A trim does not free every table it leaves empty: the sub-table that the cut
  falls into stays, and the double indirect table with it, when only holes are
  kept in it (`Ext2Trim.EmptyTablesFreedExactly` is exact;
  `Ext2Examples.TrimLeavesTables` is such a file).
* A file need not grow with zeros: a shrink does not clear the rest of the last
  block it keeps, and a later growth shows it again
  (`Ext2Driver.Ext2.ShrinkAndRegrow`; exact condition in
  `Ext2Resize.GrownReads` and `GrownWithZeros`).
* File positions from block size times 2^32 on alias lower ones, since the
  logical block number is cut to 32 bits (`Ext2File.ReachablePosition` is
  exact); what is written right there lands in the first block
  (`HighWriteHitsBlockZero`).
* A private page that is not present at a fork stays shared and writable on
  both sides (`VmExposure.UntouchedForkIsShared` is such a run). The side that
  touches it first has it to itself exactly if no object has a place for it
  (`VmIsolation.UntouchedForkExactly`).
* `munmap` of a range strictly inside an entry of a full map reports an error
  after it has already unmapped the pages (`VmKernel.UserVm.MapRemove`). The
  next access then finds the object's page, writable, which ends the isolation
  of whoever shares it (`VmExposure.RefusedUnmapExposes`; exact condition in
  `VmIsolation.RefusedExactly`).
* A file mapped without `MAP_PRIVATE` is not always shared with a child. The
  new object has a slot for each page of the mapping's length, but the fault
  handler numbers its pages from the beginning of the file. A page is shared
  exactly if its file offset is below the length; otherwise the child keeps
  what the file holds there (`VmSharing.FileMemoryIsShared`).
* Renaming a directory to a place below its own mount loses it
  (`VfsPaths.MountHidesAncestor`; exact condition in `RenameTheorem`).
* A path longer than 63 characters can put a wrong entry into the path cache,
  exactly if its first 63 characters have other components
  (`VfsNames.RememberExactly`). Looking up those 63 characters then returns a
  node they do not lead to (`Vfs.VfsState.LookupMisled`), and `unlink` and
  `open` then remove and open that node. They take the node the path leads to
  exactly if the cache has no wrong answer for it (`Vfs.VfsState.Unlink`,
  `Open`; played through in `Vfs.MisledByAPrefix`, `OpenMisled` and
  `UnlinkMisled`). The forest, the counts and the lifetime of nodes hold on
  such a cache too.
* A second mount on a directory is not refused: its path already leads into the
  first mounted tree, and no path ever leads into the second. The path of the
  mount point shows the new tree exactly if what it led to was not itself the
  root of a tree (`VfsChanges.MountTheorem`, `Vfs.VfsState.MountFs`; played
  through in `Vfs.MountThrice`).
* `krealloc` leaves two free neighbours when it shrinks a block next to a free
  one (`KernelHeap.ShrinkLeavesNeighbours`; exact condition in
  `HeapBlocks.SplitCoalesced`), and growing the heap relies on there being none
  (`KernelHeap.GrownIsListed`).
* Requests above 2^64 - 16 bytes are rounded to zero, so first fit hands out
  any free block for them (`KernelHeap.HugeRequest`; exact condition in
  `AlignExactly`).
* A frame in which one byte of the UDP header was changed can still be read: a
  checksum that became zero is not tested, and a shorter length passes exactly
  if the words it cuts off make up for the two places where it is added
  (`UdpErrors.OneByteChanged` is exact for every byte of every frame;
  `UdpErrors.LengthThatPasses` is a datagram that then reads as an empty one).
* Checksums are stored in host order. On the wire an IP header passes the test
  of RFC 1071 exactly when the two bytes of its checksum are equal, which is
  when its other words add up to a multiple of 257 (`UdpSockets.HeaderOnTheWire`
  and `HeaderPasses`; one that fails in `HeaderThatFails`). A datagram passes
  that of RFC 768 exactly when the words of UDP header, protocol and payload do
  (`UdpOnTheWire`; one that fails in `DatagramThatFails`). The kernel's own
  receiver undoes this.

Where comments and code disagree the code is followed: `ext2.c` calls itself
read-only but writes, and the header fields commented as network order hold
checksums in host order.

## Model

| member | source | states |
|---|---|---|
| `Ext2Layout.SetWordFrame` | kernel/fs/ext2.c:651-656 | storing one 32-bit entry of a pointer table changes that entry and no other |
| `Ext2Layout.LowByteFirst` | kernel/fs/ext2.c:651-656 | the four bytes of an entry, low byte first, when stored and when read |
| `Ext2Layout.SetBitFrame` | kernel/fs/ext2.c:389-396 | setting or clearing one bitmap bit changes that bit and no other |
| `Ext2Disk.LeafRoundTrip` | kernel/fs/ext2.c:494-559 | the slot that a logical block number selects stands for that number |
| `Ext2Disk.LbnRoundTrip` | kernel/fs/ext2.c:494-559 | and every slot is selected by exactly the number it stands for |
| `Ext2Disk.OwnershipIsInjective` | kernel/fs/ext2.c:561-784 | in a well-formed image no block is named by two slots of any inodes |
| `Ext2Disk.OwnedIsCrashSafe` | kernel/fs/ext2.c:640-664 | an image in which every named block is owned and marked is safe to crash in: whatever a path of pointers reaches is marked allocated |
| `Ext2Bitmap.TakenAccounting` | kernel/fs/ext2.c:395-412 | marking a free block and decrementing both counters keeps superblock and descriptor counters equal to the number of clear bits in range |
| `Ext2Bitmap.GivenAccounting` | kernel/fs/ext2.c:424-477 | clearing a marked block and incrementing both counters does too |
| `Ext2Bitmap.GroupCounterFits` | kernel/fs/ext2.c:402-404 | a descriptor counter never leaves its 16 bits |
| `Ext2Bitmap.SuperCounterFits` | kernel/fs/ext2.c:405-407 | the superblock counter never leaves its 32 bits |
| `Ext2Bitmap.CountersAgree` | kernel/fs/ext2.c:402-408 | the descriptor counters add up to the superblock counter |
| `Ext2Bitmap.FirstFree` | kernel/fs/ext2.c:368-417 | the block found by scanning groups and bits is the lowest free one |
| `Ext2Bitmap.NothingFree` | kernel/fs/ext2.c:358-422 | when every group is skipped or scanned without success, nothing is free |
| `Ext2Driver.FindClearBit` | kernel/fs/ext2.c:388-393 | the first clear bit of a bitmap below a limit |
| `Ext2Driver.Ext2.constructor` | kernel/fs/ext2.c:1414-1506 | a mounted well-formed image is the initial state |
| `Ext2Driver.Ext2.AllocBlock` | kernel/fs/ext2.c:353-422 | takes the lowest free block, or fails with nothing changed exactly when there is none; bitmap first, counters second |
| `Ext2Driver.Ext2.FreeBlock` | kernel/fs/ext2.c:424-477 | gives back a marked block, leaves an unmarked one alone, refuses one out of range |
| `Ext2Driver.Ext2.FreshBlock` | kernel/fs/ext2.c:479-492 | a taken block is zeroed before anything can point to it, and every image on the way is safe to crash in |
| `Ext2Attach.PointSound` | kernel/fs/ext2.c:651-656 | putting a fresh block into one empty slot leaves ownership injective and the rest of the map as it was |
| `Ext2Grow.AttachTheorem` | kernel/fs/ext2.c:561-784 | filling one empty slot with a fresh block keeps the image well formed, all other mappings and all file contents |
| `Ext2Driver.Ext2.AttachInInode` | kernel/fs/ext2.c:607-627 | fills an empty pointer of the inode with a zeroed block, or fails with nothing changed when the disk is full; every image on the way is safe to crash in |
| `Ext2Driver.Ext2.AttachInTable` | kernel/fs/ext2.c:640-664 | fills an empty table entry: data block, then table entry, then inode, each image safe to crash in |
| `Ext2Driver.Ext2.GetBlock` | kernel/fs/ext2.c:494-559 | returns exactly the block the map gives for every logical block below the limit, and refuses all others |
| `Ext2Driver.Ext2.GetOrAllocBlock` | kernel/fs/ext2.c:561-784 | afterwards the block is mapped; failure means the disk is full; other mappings, contents and inodes are unchanged; the image stays well formed and every image on the way is safe to crash in |
| `Ext2Tables.OwnedByTables` | kernel/fs/ext2.c:786-849 | what an inode owns is exactly what its direct pointers, its single and its double indirect tables name |
| `Ext2Driver.Ext2.CountAllocatedBlocks` | kernel/fs/ext2.c:786-849 | counts exactly the data and table blocks the inode owns |
| `Ext2Trim.TrimmingIsCrashSafe` | kernel/fs/ext2.c:851-1056 | every image between two writes of a trim is safe to crash in, provided the size on disk no longer covers what is being cut |
| `Ext2Trim.FinishedTrim` | kernel/fs/ext2.c:851-1056 | after a trim the dropped blocks are free again, all slots below the cut and all other inodes are as before, and the image is well formed |
| `Ext2Trim.EmptyTablesFreedExactly` | kernel/fs/ext2.c:986-1048 | every sub-table that a trim leaves empty is freed exactly if the one the cut falls into, if present, keeps something |
| `Ext2Trim.HollowIsEmptied` | kernel/fs/ext2.c:986-1048 | where it keeps only holes, that sub-table and the double indirect table stay although they name no data |
| `Ext2Driver.Ext2.TrimInodeBlocks` | kernel/fs/ext2.c:851-1056 | frees exactly the data blocks at or above the cut, the sub-tables that start there, and the single and double indirect tables that keep no entry; keeps every mapping below it, and sets the sector count right; if the size on disk no longer covers the cut, every image on the way is safe to crash in |
| `Ext2File.ReadAfterWrite` | kernel/fs/ext2.c:1058-1127 | for off <= old size, reading after a successful write gives the old contents overlaid with the data at off, holes reading as zero, up to 64 MB |
| `Ext2File.ReachablePosition` | kernel/fs/ext2.c:1267-1275 | block number and offset lead back to the position exactly below block size times 2^32 |
| `Ext2File.AliasPosition` | kernel/fs/ext2.c:1267-1275 | in general they are those of the position modulo block size times 2^32 |
| `Ext2File.HighWriteHitsBlockZero` | kernel/fs/ext2.c:1267-1275 | what is written at block size times 2^32 is read at position 0 |
| `Ext2Driver.Ext2.LoadFile` | kernel/fs/ext2.c:1058-1127 | returns the bytes of the file as the block map gives them, holes as zeros, at most 64 MB |
| `Ext2Driver.Ext2.WriteRange` | kernel/fs/ext2.c:1264-1306 | writes the data block by block at the position the offset really stands for; what was written before a failure is there, the rest is as before; it fails only where the map ends or the disk is full |
| `Ext2Driver.Ext2.WritebackFile` | kernel/fs/ext2.c:1221-1325 | writes the range, grows the size only, changes no other file, and says why it failed |
| `Ext2Driver.Ext2.WriteAndLoad` | kernel/fs/ext2.c:1221-1325 | writing back and loading again gives the old file with the data laid over it, or with as much of it as was written before the disk was full |
| `Ext2Resize.RollbackRestores` | kernel/fs/ext2.c:1374-1389 | trimming back a failed growth restores the old map, owners and free blocks, if it did not create the table at the boundary |
| `Ext2Resize.RollbackLeaks` | kernel/fs/ext2.c:1374-1389 | if it did, the trim keeps that table: it was free before and is not free afterwards |
| `Ext2Resize.LeakExactly` | kernel/fs/ext2.c:1374-1389 | the free blocks are the old ones and those a plain cut gives back exactly if, before the growth, the boundary table was there or there were fewer free blocks than the tables needed for it |
| `Ext2Examples.SparseLeaks` | kernel/fs/ext2.c:1374-1389 | a volume and a file for which they are not |
| `Ext2Resize.RollbackTheorem` | kernel/fs/ext2.c:1374-1389 | after a failed growth size, contents and mappings below the old end are as before, nothing is mapped past it, and the free blocks are as above, exactly |
| `Ext2Resize.DenseBoundary` | kernel/fs/ext2.c:1374-1389 | files without holes have the boundary table |
| `Ext2Resize.DenseRollback` | kernel/fs/ext2.c:1374-1389 | for them a failed growth changes no pointer, no owner, no free block, no counter and no byte |
| `Ext2Resize.FullyExactly` | kernel/fs/ext2.c:1369-1398 | a growth that reports success gives the file its new size and maps every block of it exactly up to 1 TB |
| `Ext2Resize.WrappedSize` | kernel/fs/ext2.c:1369-1398 | growing any file to block size times 2^32 needs no blocks and is stored as an empty file |
| `Ext2Resize.GrownReads` | kernel/fs/ext2.c:1369-1398 | the grown file begins with the old one, and the rest is zeros exactly if what lay past the old end was |
| `Ext2Resize.GrownWithZeros` | kernel/fs/ext2.c:1369-1398 | with nothing mapped past the end, exactly if the rest of the last block is clear |
| `Ext2Resize.ShrunkReads` | kernel/fs/ext2.c:1399-1411 | a shrink keeps every byte of the blocks it keeps and leaves nothing mapped past them |
| `Ext2Driver.Ext2.ResizeFile` | kernel/fs/ext2.c:1336-1412 | grows, with the status of `GrowStatus`, what was asked for exactly up to 1 TB, or shrinks by cutting, or rolls back, without a trace for files without holes; other files are untouched |
| `Ext2Driver.Ext2.Shrink` | kernel/fs/ext2.c:1399-1411 | cuts the file; every image on the way is safe to crash in, which needs the smaller size on disk first |
| `Ext2Driver.Ext2.Grow` | kernel/fs/ext2.c:1369-1398 | succeeds exactly if the block map reaches that far and there is a free block for every data block and table that is missing before; unsupported or generic error otherwise, by which comes first. A success takes exactly those blocks and stores the larger size, as asked up to 1 TB; a failure rolls back; no byte changes; every image on the way is safe to crash in |
| `Ext2Needs.BlocksTaken` | kernel/fs/ext2.c:561-784 | attaching a logical block takes one free block for every slot on the way to it that gets filled |
| `Ext2Needs.WhyStopped` | kernel/fs/ext2.c:1374-1389 | a growth that stops on the way stops for lack of blocks exactly if fewer are free than the whole range lacks, data blocks and tables counted before the call |
| `Ext2Needs.AllSupplied` | kernel/fs/ext2.c:1374-1389 | one that comes to the end had enough |
| `Ext2Driver.Ext2.GrowToNothing` | kernel/fs/ext2.c:1369-1398 | growing to block size times 2^32 reports success and leaves an empty file |
| `Ext2Driver.Ext2.ShrinkAndRegrow` | kernel/fs/ext2.c:1336-1412 | cut and grown again, a file shows its old bytes up to the end of the last block kept, and zeros from there on |
| `Ext2Examples.LeakingGrowth` | kernel/fs/ext2.c:1374-1389 | a failed growth after which no block of the file is mapped and fewer blocks are free |
| `Ext2Examples.TrimLeavesTables` | kernel/fs/ext2.c:986-1048 | a trim after which no block of the file is mapped and two tables are still allocated |
| `Ext2Sectors.BlockDevice.ReadBytes` | kernel/fs/ext2.c:178-210 | returns the bytes of the device at any offset and length inside it, whatever the sector boundaries |
| `Ext2Sectors.BlockDevice.WriteBytes` | kernel/fs/ext2.c:212-254 | overlays the device with the data at any offset, leaving every other byte as it was |
| `VmState.LookupCovers` | kernel/vm/vm_map.c:191-203 | the entry found covers the address; none found means none covers it |
| `VmEntries.PunchView` | kernel/vm/vm_map.c:118-189 | cutting a range out of a map removes exactly the pages of that range and changes no other |
| `VmEntries.PunchOk` | kernel/vm/vm_map.c:118-189 | and leaves entries aligned, in range and disjoint |
| `VmKernel.PunchGrows` | kernel/vm/vm_map.c:170-186 | a range strictly inside an entry makes the map one entry longer, any other range no longer |
| `VmCounts.AddMapping` | kernel/vm/vm_page_ref.c:46-49 | one more page-table entry and one more reference keep every page counted once per mapping and once per object slot |
| `VmCounts.ReplaceMapping` | kernel/vm/vm_fault.c:58-70 | moving a mapping to a new page, counting it and releasing the old page keeps the counts |
| `VmCounts.FramesReleased` | kernel/vm/vm_page_ref.c:51-78 | a frame becomes free exactly when its last reference goes |
| `VmRuns.StepKeepsInv` | kernel/vm/vm_fault.c:22-117 | every fault, store, unmap, refused unmap, map, fork, exit, new task, moved break, and object created or let go keeps maps aligned and disjoint, present pages within entries and permissions, shared pages those of their object, and memory whole, given that it leaves the counts right, which is proved of the operations |
| `VmRuns.MappedFrames` | kernel/vm/vm_page_ref.c:51-78 | no present page is a free frame |
| `VmIsolation.IsolationStep` | kernel/vm/vm_fault.c:58-70 | any step that spares an isolated page leaves it isolated, and its bytes change by a store of its own only |
| `VmIsolation.IsolationRun` | kernel/vm/vm_fault.c:22-117 | over every run that spares the page, refused unmappings included, the bytes an address space sees at an isolated page are those its own stores put there |
| `VmIsolation.ForkIsolation` | kernel/vm/vm_map.c:453-517 | after a fork, in every run that spares the page on both sides, parent and child each read the bytes from before the fork changed by their own stores and nothing else, if the fork isolates it |
| `VmIsolation.ForkIsolatesExactly` | kernel/vm/vm_map.c:453-517 | right after a fork a page is isolated on either side exactly if before it only private mappings of the parent could write it, and no other address or holder of an object can reach it |
| `VmIsolation.IsolatedForks` | kernel/vm/vm_map.c:453-517 | every page that is isolated before the fork is such a page |
| `VmIsolation.CopiedSideIsIsolated` | kernel/vm/vm_fault.c:58-70 | whatever held before, a side that has taken its copy reads from then on the bytes it copied changed by its own stores and nothing else |
| `VmIsolation.CowOfOwner` | kernel/vm/vm_fault.c:58-70 | a copy is isolated, whoever could write the page before |
| `VmIsolation.RefusedExactly` | kernel/vm/vm_map.c:170-186 | after a refused unmapping a page stays isolated exactly if the range held neither its own mapping nor one of the same page through an entry that may write it |
| `VmIsolation.FreshPageIsIsolated` | kernel/vm/vm_fault.c:72-114 | a private writable page that was just faulted in is isolated, unless its object is held outside the maps or also backs another address |
| `VmIsolation.NonResidentPageIsShared` | kernel/vm/vm_map.c:453-517 | a private page that was not present at the fork is not isolated: both sides fault in the same object page, writable |
| `VmIsolation.UntouchedForkExactly` | kernel/vm/vm_map.c:453-517 | the side that touches such a page first, parent or child, has it isolated exactly if no object has a place for it |
| `VmExposure.IsolatedExactly` | kernel/vm/vm_fault.c:22-117 | a mapped private page is isolated exactly if no run that leaves it alone changes what is read there |
| `VmExposure.NotIsolatedIsChanged` | kernel/vm/vm_fault.c:22-117 | one that is not isolated is changed by others within a store, a fault and a store, or a new task, a mapping, a fault and a store |
| `VmExposure.UntouchedForkIsShared` | kernel/vm/vm_map.c:453-517 | a state and a run in which the child of a fork reads what its parent stores |
| `VmExposure.RefusedUnmapExposes` | kernel/vm/vm_map.c:170-186 | a state and a run in which a refused unmapping of one task lets the page of another change |
| `VmIsolation.SharedMappingsAgree` | kernel/vm/vm_fault.c:72-114 | two present non-private mappings of the same object page are the same frame, in every reachable state |
| `VmSharing.AnonymousMemoryIsShared` | kernel/vm/vm_fault.c:22-117 | mmap without private, fork, a fault on each side, a store: both pages are one frame and the child reads the byte; fails only if the mapping is refused or no frame is free |
| `VmSharing.FileMemoryIsShared` | kernel/vm/vm_fault.c:73-112 | the same for a file: the child reads the byte exactly if the file offset of the page is below the length of the mapping, and else what the file holds there |
| `VmSharing.ObjectIsShared` | kernel/vm/vm_fault.c:73-112 | two maps of one object, at any two places that show one page within its size, name one frame once touched; what is stored through one is read through the other |
| `VmSharing.TouchBoth` | kernel/vm/vm_fault.c:73-112 | of two shared pages with the same place in the same object, neither present yet, both faults find one frame exactly if the object has a slot for it |
| `VmIsolation.RunKeepsInv` | kernel/vm/vm_fault.c:22-117 | so the invariant holds in every state of every run of such steps |
| `VmKernel.UserVm.constructor` | kernel/vm/vm_map.c:24-33 | with no task and all frames free the invariant holds |
| `VmKernel.UserVm.NewTask` | kernel/vm/vm_map.c:227-248 | refines the NewTask step: a task with an empty map |
| `VmKernel.UserVm.RetainPage` | kernel/vm/vm_page_ref.c:15-49 | one more reference to one page, all other counts unchanged; page 0 is refused |
| `VmKernel.UserVm.ReleasePage` | kernel/vm/vm_page_ref.c:51-78 | one reference less; the last one frees the frame; unknown and null pages are refused |
| `VmKernel.UserVm.AllocZeroPage` | kernel/vm/vm_pager.c:7-17 | a free frame, zeroed and counted once, or none |
| `VmKernel.UserVm.MapLookup` | kernel/vm/vm_map.c:191-203 | the first entry that covers an address |
| `VmKernel.UserVm.MapOverlap` | kernel/vm/vm_map.c:60-70 | whether any entry meets a range |
| `VmKernel.UserVm.UnmapRange` | kernel/vm/vm_map.c:135-143 | clears the present pages of a range and drops one reference each |
| `VmKernel.UserVm.UnrefObject` | kernel/vm/vm_object.c:42-85 | the last reference releases every resident page and the object |
| `VmKernel.UserVm.CutEntry` | kernel/vm/vm_map.c:146-187 | drops, trims or splits one entry and keeps object counts right |
| `VmKernel.UserVm.MapRemove` | kernel/vm/vm_map.c:118-189 | refines the Unmap step; a split in a full map is refused with the entries unchanged but the pages of the range already unmapped, the RefusedUnmap step |
| `VmKernel.UserVm.MapAdd` | kernel/vm/vm_map.c:84-116 | refines the Map step; refused exactly for a bad range, a full map or an overlap |
| `VmKernel.UserVm.CreateObject` | kernel/vm/vm_object.c:13-32 | refines the CreateObject step: a new object without resident pages, held once, with a slot for every page of its size rounded up, at least one; with none exactly if rounding up wraps |
| `VmKernel.UserVm.DropHandle` | kernel/vm/vm_object.c:42-85 | refines the DropHandle step: a holder outside the maps lets go; the object lives on exactly while an entry or holder is left |
| `VmKernel.UserVm.FindGap` | kernel/vm/vm_map.c:205-225 | the lowest page-aligned gap at or above hint and mapping base; zero only if there is none below the limit |
| `VmKernel.UserVm.Mmap` | kernel/vm/vm_map.c:269-301 | succeeds exactly if, at a fixed place, the range is valid and what is left around it does not fill the map, or elsewhere there is a gap and the map is not full, and there is memory for the object; the status otherwise. If the address is fixed, an Unmap or RefusedUnmap step or nothing, then on success a Map step with a new empty object that the entry alone holds; behind every page stands the page of the object with its number; on failure nothing further |
| `VmKernel.UserVm.MmapObject` | kernel/vm/vm_map.c:303-335 | the same, exact status included, with an object the caller holds and keeps holding; behind a page stands the page at the offset, as far as the object goes |
| `VmKernel.UserVm.MmapFile` | kernel/vm/vm_map.c:337-386 | the same, exact status included, with a new object backed by the bytes of a file; behind a page stands the page at the file offset exactly if that is below the length of the mapping |
| `VmMaps.FixedMapReplaces` | kernel/vm/vm_map.c:269-301 | a fixed mapping replaces exactly its range, and no page of it is present afterwards |
| `VmKernel.UserVm.SetBrkBase` | kernel/vm/vm_map.c:258-267 | refines the Adjust step: begin and end of the heap are the base rounded up to a page |
| `VmKernel.UserVm.Brk` | kernel/vm/vm_map.c:396-437 | grows by a private anonymous mapping with an object page behind every page, shrinks by an Unmap or RefusedUnmap step, reports the end; exact status; refused calls change nothing |
| `VmKernel.UserVm.FaultHandle` | kernel/vm/vm_fault.c:22-117 | refines the Fault step; says which faults are refused, that a permitted one fails only for lack of memory, and what a new page holds |
| `VmKernel.FirstBytes` | kernel/vm/vm_fault.c:86-101 | every byte of a new page: the one of the file at its place, or zero |
| `VmKernel.UserVm.CopyPage` | kernel/vm/vm_fault.c:58-70 | the copy has the bytes of the shared page and is writable; the shared page loses one reference |
| `VmKernel.UserVm.BringIn` | kernel/vm/vm_fault.c:72-114 | maps the resident page of the object, or a fresh page with zeros or file bytes |
| `VmKernel.UserVm.ForkClone` | kernel/vm/vm_map.c:453-517 | refines the Fork step: same entries, same frames, private writable ones read-only and marked on both sides, all counts right |
| `VmMaps.ForkedPage` | kernel/vm/vm_map.c:483-509 | sharing one page advances the half-finished fork by that page and nothing else |
| `VmKernel.UserVm.TaskDestroy` | kernel/vm/vm_map.c:519-540 | refines the Exit step; terminates, since each round removes the first entry |
| `VmKernel.PunchFirst` | kernel/vm/vm_map.c:526-533 | cutting out the range of the first entry removes that entry and no other |
| `HeapBlocks.SplitShape` | kernel/common/heap.c:115-135 | splitting keeps the blocks aligned, disjoint, in order and tiling the regions exactly |
| `HeapBlocks.MergedShape` | kernel/common/heap.c:70-103 | so does merging two adjacent blocks |
| `HeapBlocks.AppendShape` | kernel/common/heap.c:137-169 | so does a new region |
| `HeapBlocks.SplitCoalesced` | kernel/common/heap.c:115-135 | after splitting a used block no two free neighbours are adjacent exactly if its successor was not free and adjacent |
| `HeapBlocks.MergeAroundCoalesced` | kernel/common/heap.c:70-103 | merging around one block restores coalescing when only pairs with that block were open |
| `HeapBlocks.LivePayloads` | kernel/common/heap.c:199-244 | live payloads are 16-aligned, inside the obtained regions and pairwise disjoint over their requested sizes |
| `HeapBlocks.AllReturned` | kernel/common/heap.c:224-244 | when everything has been freed there are at most as many blocks as regions: no fragmentation is left |
| `HeapBlocks.GrowthFits` | kernel/common/heap.c:137-153 | the new block fits the request and claims no more than it got exactly for requests up to 2^44 - 4128 bytes |
| `KernelHeap.GrownIsListed` | kernel/common/heap.c:159-166 | the block that growing returns is still listed exactly if its predecessor was not waiting to be merged |
| `KernelHeap.ShrinkLeavesNeighbours` | kernel/common/heap.c:276-278 | shrinking a used block in place above the threshold can leave two free neighbours, in a heap that tiles its region |
| `KernelHeap.AlignExactly` | kernel/common/heap.c:199-222 | rounding a request up gives at least the request exactly up to 2^64 - 16 bytes |
| `KernelHeap.HugeRequest` | kernel/common/heap.c:199-222 | above that the first free block is handed out, and it is too small |
| `KernelHeap.ProductFits` | kernel/common/heap.c:252-255 | the division test of kcalloc detects exactly the products that wrap |
| `KernelHeap.LinkedMerge` | kernel/common/heap.c:76-89 | unlinking the absorbed header leaves forward and backward links those of the merged list |
| `KernelHeap.LinkedSplit` | kernel/common/heap.c:122-134 | linking the remainder in leaves them those of the split list |
| `KernelHeap.Heap.constructor` | kernel/common/heap.c:21-22 | the empty heap is valid |
| `KernelHeap.Heap.Init` | kernel/common/heap.c:171-197 | one free block over the first region; a heap that has one is left alone |
| `KernelHeap.Heap.FindFit` | kernel/common/heap.c:105-113 | the first free block that is large enough, or none exists |
| `KernelHeap.Heap.BlockInList` | kernel/common/heap.c:34-50 | whether a header is among the first million and one blocks |
| `KernelHeap.Heap.MergeIfPossible` | kernel/common/heap.c:70-103 | takes in the free successor, then is taken in by the free predecessor |
| `KernelHeap.Heap.SplitBlock` | kernel/common/heap.c:115-135 | splits off the rest if it is worth a block |
| `KernelHeap.Heap.InsertBlock` | kernel/common/heap.c:58-68 | appends a block to the list |
| `KernelHeap.Heap.Grow` | kernel/common/heap.c:137-169 | the returned block is listed, free and large enough; the region is added |
| `KernelHeap.Heap.Kmalloc` | kernel/common/heap.c:199-222 | a new live payload of the requested size, 16-aligned, in the first block that fits, wasting no rest that could be a block; grows only if none does; panics exactly if then there is no memory |
| `KernelHeap.Heap.Kfree` | kernel/common/heap.c:224-244 | panics exactly on pointers that are no live payload within the search bound, else the payload is no longer live; the heap stays coalesced |
| `KernelHeap.Heap.Kcalloc` | kernel/common/heap.c:246-263 | like kmalloc of the product, or null exactly if it is zero or does not fit 64 bits; panics exactly if nothing fits and there are no pages to grow by |
| `WaitQueue.StepKeepsInv` | kernel/common/waitq.c:81-158 | every step keeps: a thread is in a queue exactly if that is its owner, in the timeout list exactly if armed, and counts are lengths |
| `WaitQueue.RunKeepsInv` | kernel/common/waitq.c:81-246 | so these hold in every state of every run |
| `WaitQueue.TickClears` | kernel/common/waitq.c:220-246 | after a tick no thread is armed with a deadline at or before it |
| `WaitQueue.FirstComeFirstServed` | kernel/common/waitq.c:118-146 | over every run, while a thread waits, nobody behind it in the queue is woken by a single wake-up |
| `WaitQueue.OrderKept` | kernel/common/waitq.c:81-158 | no step lets a thread overtake another in its queue |
| `WaitQueue.NewcomerIsLast` | kernel/common/waitq.c:81-97 | a step that brings a thread into a queue puts it behind all that wait there |
| `WaitQueue.ComesFirstIsServedFirst` | kernel/common/waitq.c:81-146 | over every run, who comes into a queue later is not woken by a single wake-up while one who came before still waits |
| `WaitQueue.LeaversAreOut` | kernel/common/waitq.c:99-116 | a thread that leaves is in no queue afterwards, has no owner and is not armed |
| `WaitQueue.TimeoutExactly` | kernel/common/waitq.c:178-246 | a wait reports a timeout exactly if a tick at or past its deadline found it still waiting, over every run |
| `WaitQueue.NotShorter` | kernel/common/waitq.c:50-61 | a timeout in milliseconds is never rounded down, exactly as long as rounding up does not wrap 64 bits |
| `WaitQueue.WaitQueues.constructor` | kernel/common/waitq.c:63-71 | empty queues and idle threads are valid |
| `WaitQueue.WaitQueues.Disarm` | kernel/common/waitq.c:24-34 | takes an armed thread off the timeout list |
| `WaitQueue.WaitQueues.Arm` | kernel/common/waitq.c:36-48 | arms, or re-arms at the end of the list |
| `WaitQueue.WaitQueues.EnqueueThread` | kernel/common/waitq.c:81-97 | appends at the tail, or refuses a thread that waits anywhere |
| `WaitQueue.WaitQueues.RemoveThread` | kernel/common/waitq.c:99-116 | takes out a thread that waits in this queue, not timed out; afterwards it is in no queue and not armed |
| `WaitQueue.WaitQueues.WakeFirst` | kernel/common/waitq.c:118-146 | takes out the thread that came first |
| `WaitQueue.WaitQueues.WakeEveryone` | kernel/common/waitq.c:148-158 | takes out all, in order, and counts them |
| `WaitQueue.WaitQueues.WaitBegin` | kernel/common/waitq.c:178-199 | queues up and arms as one step |
| `WaitQueue.WaitQueues.WaitEnd` | kernel/common/waitq.c:210-212 | reports and clears the timeout flag |
| `WaitQueue.WaitQueues.TickTimeouts` | kernel/common/waitq.c:220-246 | times out exactly the threads whose deadline has come |
| `VfsTree.ChildIff` | kernel/fs/vfs.c:184-195 | a child is found exactly if its parent pointer and its name say so |
| `VfsTree.OnePath` | kernel/fs/vfs.c:264-296 | no node is reached by two paths |
| `VfsMoves.MovedForest` | kernel/fs/vfs.c:197-206 | moving a node anywhere but below itself keeps a forest with consistent links and distinct sibling names |
| `VfsMoves.MovedAcyclic` | kernel/fs/vfs.c:719-729 | the ancestor test is what keeps parent pointers free of cycles |
| `VfsPaths.RenameTheorem` | kernel/fs/vfs.c:731-786 | after a rename the old path and all below it are gone, all other paths lead where they led, and the new path leads where the old one did, with all below it, exactly if the new place was not below the old path |
| `VfsPaths.AncestorTestSuffices` | kernel/fs/vfs.c:761-763 | without a mount at or below the moved directory the ancestor test guarantees that condition |
| `VfsPaths.MountHidesAncestor` | kernel/fs/vfs.c:719-729 | with a mount it does not: a directory can be moved below its own mount and is lost |
| `VfsChanges.CreateTheorem` | kernel/fs/vfs.c:404-416 | creating makes one new path and changes no other; the forest stays one |
| `VfsChanges.UnlinkTheorem` | kernel/fs/vfs.c:679-717 | unlinking removes one path, with all below it, and changes no other |
| `VfsChanges.MountTheorem` | kernel/fs/vfs.c:509-546 | the path of the mount point leads to the root of the mounted tree exactly if what it led to was neither the root nor the root of a mount |
| `VfsChanges.MountedIsTop` | kernel/fs/vfs.c:278-294 | what a path leads to is the root of a tree exactly if it has no parent; a directory found by its path that has a mount is one |
| `VfsChanges.MountOtherPaths` | kernel/fs/vfs.c:509-546 | paths not through the mount point lead where they led |
| `VfsNames.NextComponent` | kernel/fs/vfs.c:208-225 | cuts the next component off, at most 31 characters of it |
| `VfsNames.RememberExactly` | kernel/fs/vfs.c:95-106 | remembering what a path leads to keeps the cache right exactly if the first 63 characters have the same components |
| `VfsNames.LongPathMisleads` | kernel/fs/vfs.c:95-106 | a path of 64 characters whose first 63 lead nowhere |
| `Vfs.VfsState.constructor` | kernel/fs/vfs.c:418-443 | a name space with only a root is valid |
| `Vfs.VfsState.CacheReset` | kernel/fs/vfs.c:63-72 | no path is remembered any more |
| `Vfs.VfsState.CacheLookup` | kernel/fs/vfs.c:74-93 | the node of the first live slot with that path; if the cache is right it is what the walk would find |
| `Vfs.VfsState.CacheInsert` | kernel/fs/vfs.c:95-106 | one slot, in turn, holds the first 63 characters of the path |
| `Vfs.VfsState.FindChild` | kernel/fs/vfs.c:184-195 | the child with a name, or none |
| `Vfs.VfsState.FindMountAt` | kernel/fs/vfs.c:53-61 | what is mounted on a node |
| `Vfs.VfsState.WalkPath` | kernel/fs/vfs.c:278-294 | the loop over components computes the walk |
| `Vfs.VfsState.Lookup` | kernel/fs/vfs.c:264-296 | for every path and any cache: what is found is what the cache answers, else the walk, and some path leads to it; from a valid state the result is that of the walk, and the state stays valid exactly if nothing was found or the first 63 characters have the same components |
| `Vfs.VfsState.LookupMisled` | kernel/fs/vfs.c:264-296 | otherwise the next lookup of those 63 characters, not remembered before, returns a node they do not lead to |
| `Vfs.MisledByAPrefix` | kernel/fs/vfs.c:264-296 | such a name space and path, from its creation on |
| `Vfs.OpenMisled` | kernel/fs/vfs.c:803-845 | opening a path that leads nowhere opens another file |
| `Vfs.UnlinkMisled` | kernel/fs/vfs.c:679-717 | unlinking a path that leads nowhere removes another file |
| `Vfs.VfsState.ResolveParent` | kernel/fs/vfs.c:227-262 | the directory of the last component, or there is none |
| `Vfs.VfsState.CreateNode` | kernel/fs/vfs.c:404-416 | links a new node, forgets cached paths, and leaves everything valid, whatever the cache held |
| `Vfs.VfsState.Mkdir` | kernel/fs/vfs.c:657-677 | whatever the cache holds: makes one new path, to an empty directory, or finds it there, with the exact status |
| `Vfs.VfsState.Release` | kernel/fs/vfs.c:167-182 | one reference less; the last one frees the node |
| `Vfs.VfsState.Unlink` | kernel/fs/vfs.c:679-717 | whatever the cache holds: the path of the node found is gone, which is the path asked for exactly if the cache has no wrong answer for it; the node is freed at once exactly if no file is open on it; no other count changes; all outcomes |
| `Vfs.VfsState.IsAncestor` | kernel/fs/vfs.c:719-729 | whether a directory is a node or above it |
| `Vfs.VfsState.Rename` | kernel/fs/vfs.c:731-786 | whatever the cache holds: the exact status, going by walks and parent pointers: denied for the root, not found, unsupported on ext2, busy if the new name is taken, invalid for a directory at or above its new place; on success all paths change as the rename theorem says, and the counts stay right |
| `Vfs.VfsState.MountFs` | kernel/fs/vfs.c:509-546 | refused as busy exactly if the directory found, or the driver, is; on success its path shows the tree exactly if that directory is not the root of a tree, else no path ever does; whatever the cache holds |
| `Vfs.MountThrice` | kernel/fs/vfs.c:509-546 | a second mount on a directory succeeds and is never seen, the third is refused |
| `Vfs.VfsState.Open` | kernel/fs/vfs.c:803-845 | whatever the cache holds: on success one more reference is held by the file, which is the one the path leads to exactly if the cache has no wrong answer for it; a failed truncating open leaves all counts as they were; all outcomes |
| `Vfs.VfsState.Close` | kernel/fs/vfs.c:847-859 | whatever the cache holds: the node is freed exactly if it is unlinked and was open only here |
| `Vfs.VfsState.Dup` | kernel/fs/vfs.c:861-869 | whatever the cache holds: the second file holds its own reference |
| `InetChecksum.Reduce` | kernel/net/bsd_inet.c:84-90 | folding carries computes the sum modulo 65535, zero only for zero |
| `InetChecksum.AddBuf` | kernel/net/bsd_inet.c:70-82 | adds the 16-bit words of a buffer, an odd last byte as a high half, modulo 2^32 |
| `InetChecksum.InCksum` | kernel/net/bsd_inet.c:41-59 | the complement of the folded sum |
| `InetChecksum.PiecewiseSum` | kernel/net/bsd_inet.c:148-151 | adding even-length parts one after the other is adding their concatenation |
| `InetChecksum.OddPartsDiffer` | kernel/net/bsd_inet.c:70-82 | after a part of odd length the next part counts shifted by a byte, so adding up in parts is right exactly if that makes no difference to it |
| `InetChecksum.OddPartsExample` | kernel/net/bsd_inet.c:70-82 | two bytes added one by one are not their sum as a word |
| `InetChecksum.FieldInHostOrder` | kernel/net/socket.c:811-811 | stored in host order, as here, the checksum makes the sum over the whole all ones exactly if its two bytes are equal; in network order it always would |
| `UdpSockets.UdpChecksum` | kernel/net/bsd_inet.c:115-155 | the three parts added one after the other give the checksum of their concatenation, never zero |
| `UdpSockets.WriteIp` | kernel/net/socket.c:800-811 | the header fields go into the zeroed buffer, the checksum over them last; no other byte changes |
| `UdpSockets.WriteUdp` | kernel/net/socket.c:813-819 | so do the UDP header and the payload |
| `UdpSockets.BuildFrame` | kernel/net/socket.c:785-819 | the buffer ends up holding exactly the frame of the datagram |
| `UdpSockets.RoundTrip` | kernel/net/socket.c:749-824 | every frame that is sent passes all tests of the receiver, reaches the addressed port, and decodes to payload, sender port and address |
| `UdpSockets.WireLayout` | kernel/net/socket.c:749-824 | every field of a sent frame at its byte offset: stations, type, lengths, addresses, ports, payload |
| `UdpErrors.OneByteChanged` | kernel/net/socket.c:341-602 | for every sent frame and every byte of it that is changed: a change of type or IP header is never delivered, one of ports or payload never read; a changed length is read exactly if `LengthPasses`, a changed checksum exactly if it became zero |
| `UdpErrors.LengthThatPasses` | kernel/net/socket.c:565-587 | a datagram of two bytes that reads as an empty one when its length byte is changed |
| `UdpErrors.OnlyUdpIsDelivered` | kernel/net/socket.c:341-385 | whatever reaches a socket is IP with protocol 17, long enough, and names that port |
| `UdpSockets.HeaderOnTheWire` | kernel/net/socket.c:810-811 | the header that is sent passes the test of RFC 1071 exactly if the two bytes of its checksum are equal |
| `UdpSockets.HeaderPasses` | kernel/net/socket.c:800-811 | which is exactly when its other words add up to a multiple of 257 |
| `UdpSockets.HeaderThatFails` | kernel/net/socket.c:800-811 | a route and length for which they do not |
| `UdpSockets.UdpOnTheWire` | kernel/net/bsd_inet.c:115-155 | a datagram passes the test of RFC 768 exactly if the words of UDP header, protocol number and payload add up to a multiple of 257, whatever the addresses |
| `UdpSockets.DatagramThatFails` | kernel/net/bsd_inet.c:115-155 | a datagram for which they do not |
| `UdpSockets.FirstInFirstOut` | kernel/net/socket.c:341-602 | in every run of arrivals and reads the k-th read that finds something returns the k-th frame of its port, up to its limit, and the rest stays queued |
| `UdpSockets.DatagramsInOrder` | kernel/net/socket.c:341-602 | so what was sent to a port is read in the order of arrival, each datagram as it was sent |
| `UdpSockets.UdpNet.constructor` | kernel/net/socket.c:54-54 | no port is bound |
| `UdpSockets.UdpNet.Bind` | kernel/net/socket.c:647-672 | binds a free port in range, or changes nothing |
| `UdpSockets.UdpNet.SendTo` | kernel/net/socket.c:749-824 | refuses empty and oversized payloads and ports out of range, else builds the frame |
| `UdpSockets.UdpNet.Ingress` | kernel/net/socket.c:341-385 | a frame that passes the tests joins the queue of its port, at the end; all others are dropped |
| `UdpSockets.UdpNet.Receive` | kernel/net/socket.c:513-602 | takes the oldest frame and returns as much of its payload as fits, with the sender, or drops it |
| `UdpSockets.UdpNet.Play` | kernel/net/socket.c:341-602 | the calls of such a run give every queue and every answer that the run has |
| `UdpSockets.UdpNet.SendAndReceive` | kernel/net/socket.c:447-602 | for every payload that fits a buffer of 2048 bytes with its headers, once what was queued before is read, what is received is what was sent |

## Left out

- Ext2File.ReadAfterWrite: only for off <= old size, because bytes between the old size and a later offset are not cleared on every path of the source; the same holds for Ext2Driver.Ext2.WriteAndLoad.
- Ext2Driver.Ext2.constructor: takes a well-formed image, because reading and testing superblock and descriptors at mount is not modelled.
- KernelHeap.Heap.Kmalloc: requests above 2^44 - 4128 bytes are not admitted, because for them the page count no longer fits the 32 bits it is passed in, or a sum wraps (`HeapBlocks.GrowthFits` and `KernelHeap.AlignExactly` are exact).
- KernelHeap.Heap.Kcalloc: the zero fill of the payload is not stated, because payload bytes are not part of the heap model.
- UdpSockets.UdpNet.Bind: a queue belongs to a port, because a socket is not an entity of this model; in the source a socket that is bound to two ports has one queue for both.
- UdpSockets.UdpNet.SendTo: the frame is the result, because choosing the interface and handing the frame to it are not modelled.
- VmKernel.UserVm.NewTask: the task has no map yet, because tearing down the old one is modelled on its own (`VmKernel.UserVm.TaskDestroy`).
- VmKernel.UserVm.UnrefObject: pages of a file are not written back when the object dies, because the file system behind them is not part of this model.
- VmRuns.StepKeepsInv: that the counts are right again after a step is part of what a step is; that each operation of the kernel leaves them right is proved of the operations in `VmKernel`.
- VmKernel.UserVm.Mmap: flags come without the copy-on-write mark, because no caller sets it (kernel/posix/posix_sys_vm.c:50-64); the same holds for MmapFile, MmapObject and MapAdd.
- WaitQueue.WaitQueues.WaitBegin: a thread enters with no owner, or already in this queue and not armed, because the source ignores the refusal to queue a thread that waits elsewhere.
- EXT2: failing device reads and writes and failing memory allocation; the byte layout of superblock, descriptors and inode table (inodes are a map); directories; files that are symbolic links stored in the inode; triple indirect blocks, which the source does not use either.
- EXT2: the redundant second write of an inode that was only marked dirty by allocation.
- VM: `mprotect`, `msync`, replacing the map at `exec`, writing file pages back when an object dies, failing insertion into a page table, failing allocation of a map at fork, and the pages that the program loader maps itself.
- VM: the 32-bit width of page and object counters, which more than four billion references to one page or object would exceed.
- VM: allocation of the child's page-table root; the invariant speaks of pages below the entries of the map.
- VFS: file contents, positions and permissions; importing the initial ram disk and replacing the root by it; failing allocation of nodes; the generation stamp of cached nodes, which never decides since cached nodes are live.
- VFS: the list of mounts does not hold the entry for the root itself, which has no mount point.
- Heap: `krealloc`, whose shrinking branch does not keep the list coalesced; locking by interrupt level.
- Wait queues: the scheduler that blocks and wakes threads; the counter of a queue as a 32-bit number; the wrap of a deadline, now plus timeout, beyond 64 bits.
- UDP: ARP, ICMP, choice of interface and route, stream sockets, waiting in receive, locks, failing allocation.
- IPC, the scheduler, system calls, drivers and boot code: not modelled.
