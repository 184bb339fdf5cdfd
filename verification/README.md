# A model of the MyOS kernel

MyOS is a multiprocessor x86-64 kernel. This project states what its most intricate data
structures and protocols promise, and proves it of a Dafny model of the code. Code that
updates structures in place is modelled by classes, methods and loops proved against
functions; code whose point is concurrency is modelled as atomic steps of any number of CPUs
or processes over a shared state, with invariants over every interleaving.

`dafny verify dfyconfig.toml` checks the whole project.

| area | files |
|---|---|
| page allocator | `Buddy`, `BuddyZone`, `Pmm` |
| ext2 block trees and files | `Ext2Map`, `Ext2Tree`, `Ext2Bitmap`, `Ext2Growth`, `Ext2Cut`, `Ext2Shrink`, `Ext2Lost`, `Ext2File`, `Ext2Fs` |
| ext2 directories | `Ext2Dirent`, `Ext2Dir`, `Ext2Directory` (records in blocks), `Ext2Names`, `Ext2Links`, `Ext2Deep` (the tree), `Ext2Disk`, `Ext2Rename` (the operations, on both) |
| buffer cache | `Bcache`, `BcacheTurns` |
| address spaces, fork, copy-on-write | `Vma`, `Cow`, `Access`, `Mm` |
| page tables | `PageTables`, `Vmm`, `VmmPrune`, `VmmOps`, `Paged` (copy-on-write on them) |
| object caches | `Slab`, `SlabPages` |
| scheduler, exit and wait | `Sched`, `SchedSafe`, `SchedRuns`, `SchedTurns` |
| TLB shootdown | `Tlb` |
| pipes and mutexes | `PipeRing`, `PipeProto`, `PipeSafe`, `PipeCalls`, `Mutex` |
| signals | `Signals`, `Sigframe` |

How the pieces fit: `Mm` keeps page tables as one map from (address space, page) to an entry.
`Paged` reads that map off the four-level tables of `VmmOps`, one per address space, and runs
fault_page, the sharing of a page in fork, unmapping and destroying as writes of last-level entries
on them; what a process reads there is stated through the translation of its own tables.
`Ext2Rename` runs on the blocks of `Ext2Directory`, one list of blocks per directory, and keeps
beside them the tree of names that they stand for (`Ext2Disk`); its results are stated on the tree.
`SlabPages` puts the object caches on the page allocator of `Pmm`.
`Access` ties the entries of `Mm` to the protection of the areas. `SchedTurns`, `PipeCalls` and `BcacheTurns`
say of the steps of these protocols when each can be taken and what it changes, on the states before and after.

Integers are unbounded; 64-bit wrap-around is written out where the code meets it (`Vma`,
`Sigframe`), on-disk widths are part of the record and pointer encodings, and truncation to a
32-bit mask is explicit in `Sigframe`. Availability of memory, nodes, inodes and blocks is a
parameter or an arbitrary choice, so every failure path is covered.

## What the proofs show beyond the comments in the code

- find_free_area (kernel/mm/mm.c:128-145) computes MMAP_TOP - len without a check, so that taken
  alone it can return an address from which the length wraps around (`Vma.FindFreeArea` has the exact
  condition, `Vma.WrappedPlace` an input). No caller asks for such a length: sys_mmap refuses more
  than 2^40 bytes (kernel/sys/syscall.c:119-120), and exec and the ELF loader pass an address
  (kernel/proc/exec.c:112-113, kernel/sys/elf.c:118). `Vma.SysMmap` says what a caller gets.
- free_tree (kernel/fs/ext2.c:722-745) loses what lies below an index block for whose copy there is
  no memory: it is neither freed nor reachable. `Ext2Lost.LoseBlock` mounts such a file system and
  truncates its file; `Ext2Cut.FreeableIff` is the exact condition. What is lost is never shared,
  i_blocks keeps counting it, and so does the model (`lost`).
- mm_unmap (kernel/mm/mm.c:187-221) needs its spare node for at most one area. Without it the
  pages of the range are gone but the area stays, as zero-filled memory (`Mm.UnmapViews`).
- is_ancestor (kernel/fs/ext2.c:1249-1267) also answers true for a directory 4096 or more levels
  deep, so rename refuses moves into such directories. `Ext2Names.WalkExact` is the exact condition,
  `Ext2Deep.WrongAncestor` a tree on which the answer is wrong.

## Model

| member | source | states |
|---|---|---|
| `BuddyBlocks.Climb` | kernel/mm/pmm.c:98-116 | a run of free pages aligned to a block lies in a maximal free block, found by climbing from sibling to sibling |
| `BuddyBlocks.CanonicalDisjoint` | kernel/mm/pmm.c:98-116 | two different maximal free blocks share no page: the blocks on the free lists are disjoint |
| `BuddyBlocks.RemoveCanonical` | kernel/mm/pmm.c:118-135 | taking one maximal block out of the free pages removes exactly that block from the set of maximal blocks |
| `BuddyBlocks.AddCanonical` | kernel/mm/pmm.c:98-116 | adding a block whose sibling is not free adds exactly that block to the set of maximal blocks |
| `BuddyBlocks.SiblingListed` | kernel/mm/pmm.c:104-112 | a free sibling of a block apart from the free pages is itself a listed block, so the tag test of the merge loop is exact |
| `BuddyZone.ListsDetermined` | kernel/mm/pmm.c:82-135 | two states whose free lists represent the same set of free pages have the same lists, as sets, at every order |
| `BuddyZone.FlipIsSibling` | kernel/mm/pmm.c:103 | xor with the block size is the arithmetic sibling of an aligned block |
| `BuddyZone.RunIsListed` | kernel/mm/pmm.c:120-124 | if 2^order aligned pages are free then some list at or above that order is not empty |
| `BuddyZone.Zone.AddFree` | kernel/mm/pmm.c:82-88 | listing a block whose sibling is not free keeps lists, tags and free pages in canonical form |
| `BuddyZone.Zone.DelFree` | kernel/mm/pmm.c:90-95 | unlisting a block removes just its pages |
| `BuddyZone.Zone.BuddyFree` | kernel/mm/pmm.c:98-116 | the free pages grow by exactly the freed block and the lists are maximally coalesced again |
| `BuddyZone.Zone.Halve` | kernel/mm/pmm.c:127-133 | the split loop keeps one block of the wanted order and returns exactly the rest |
| `BuddyZone.Zone.BuddyAlloc` | kernel/mm/pmm.c:118-135 | fails if and only if no aligned run of 2^order pages is free; otherwise hands out one such run and nothing else |
| `BuddyZone.Zone.FreeRange` | kernel/mm/pmm.c:236-252 | the start-up loop makes exactly the given range free |
| `Pmm.PageAllocator.FreeRegion` | kernel/mm/pmm.c:236-252 | handing over a usable region makes exactly its pages free and managed |
| `Pmm.PageAllocator.AllocPages` | kernel/mm/pmm.c:139-164 | in one zone: None exactly when the order is too large or no run is free; allocated blocks and free pages partition the managed pages and the counter is exact |
| `Pmm.PageAllocator.FreePages` | kernel/mm/pmm.c:166-190 | returns exactly the pages of the block, for any block handed out |
| `Pmm.PageAllocator.AllReturned` | kernel/mm/pmm.c:166-190 | when every allocation is back, in whatever order, the lists represent the managed pages again |
| `Pmm.Memory.constructor` | kernel/mm/pmm.c:254-275 | two zones that meet at 4 GiB, without pages |
| `Pmm.Memory.FreeRegion` | kernel/mm/pmm.c:236-252 | a region, also one across 4 GiB, becomes free in the zones it lies in |
| `Pmm.Memory.Alloc` | kernel/mm/pmm.c:139-164 | an ordinary request takes the normal zone whenever that has a run, else DMA32; a DMA32 request takes only that zone; None exactly when no permitted zone has a run |
| `Pmm.Memory.Free` | kernel/mm/pmm.c:166-190 | the page number finds the zone that the block came from |
| `Ext2Map.PathHasBase` | kernel/fs/ext2.c:542-573 | the path of every addressable file block is a valid leaf location whose base is that file block |
| `Ext2Map.BaseHasPath` | kernel/fs/ext2.c:542-573 | every leaf location is the path of its base: block_path is a bijection onto the leaves |
| `Ext2Map.Covers` | kernel/fs/ext2.c:749-784 | a leaf lies below an index block if and only if its file block lies in the range of base and span that trunc_tree computes |
| `Ext2Map.PtrRoundTrip` | kernel/fs/ext2.c:598-640 | storing a block pointer changes just that 32-bit little-endian pointer |
| `Ext2Map.PtrBytes` | kernel/fs/ext2.c:598-640 | where the four bytes of a block pointer lie: byte 4i is the lowest of pointer i, byte 4i + 3 the highest; storing one leaves every other byte alone |
| `Ext2Map.PathOrder` | kernel/fs/ext2.c:542-573 | of two file blocks the earlier comes first in i_block or, in the first index block where their paths part, has the earlier pointer |
| `Ext2Tree.AttachForest` | kernel/fs/ext2.c:578-641 | attaching a fresh zeroed block to a hole keeps the trees of all inodes disjoint |
| `Ext2Tree.CutAt` | kernel/fs/ext2.c:749-784 | clearing the pointers at or above the limit makes exactly the locations from there on holes |
| `Ext2Bitmap.FindZeroBit` | kernel/fs/ext2.c:245-259 | finds a zero bit whenever there is one, skipping full bytes |
| `Ext2Bitmap.TestIs` | kernel/fs/ext2.c:245-259 | bit i of a byte is its i-th binary digit from the lowest on |
| `Ext2Bitmap.Layout.BitOrder` | kernel/fs/ext2.c:263-303 | blocks are numbered group by group and bit by bit, and every group but the last is full-sized |
| `Ext2Bitmap.HoldsSet` | kernel/fs/ext2.c:263-327 | setting or clearing one bit changes the set of used blocks by exactly that block |
| `Ext2Bitmap.BlockAllocator.Alloc` | kernel/fs/ext2.c:263-303 | 0 if and only if every block is used; otherwise the first free block in the order of the search, which begins at the goal (the goal itself when free), with group and superblock counters equal to the numbers of zero bits |
| `Ext2Bitmap.BlockAllocator.Free` | kernel/fs/ext2.c:305-327 | clears exactly one bit and moves the counters, and leaves everything alone for a block out of range or already free |
| `Ext2Growth.AttachStep` | kernel/fs/ext2.c:578-641 | attaching keeps ownership exclusive, i_blocks exact and every used block marked |
| `Ext2Growth.DataWriteBytes` | kernel/fs/ext2.c:683-719 | writing one data block changes the bytes of that file block only, in no other file |
| `Ext2Growth.ChunkWritten` | kernel/fs/ext2.c:683-719 | one chunk of a write sets exactly the bytes it covers |
| `Ext2Cut.RegionLeft` | kernel/fs/ext2.c:722-784 | freeing part of one region leaves the blocks of every other region used |
| `Ext2Cut.ProgressJoin` | kernel/fs/ext2.c:749-784 | cutting two disjoint regions one after the other frees each block of both once and damages neither |
| `Ext2Cut.IndexWritten` | kernel/fs/ext2.c:775-783 | writing back an index block with some pointers cleared cuts its subtree at the limit |
| `Ext2Cut.FreeableIndex` | kernel/fs/ext2.c:722-745 | what can be freed of a subtree is its root and, if that could be copied, what can be freed below its pointers |
| `Ext2Cut.FreeableIff` | kernel/fs/ext2.c:727-742 | all removed blocks are freed if and only if no removed index block without memory for its copy points to a block |
| `Ext2Lost.BlockLost` | kernel/fs/ext2.c:727-742 | a file with one indirect and one data block, and no memory for the copy: after the cut no location holds a block, the index block is free again, and the data block is still marked used |
| `Ext2Lost.StartsConsistent` | kernel/fs/ext2.c:727-742 | the file system before the cut meets every condition that the operations keep: all 21 blocks used, both blocks of the file owned by it, i_blocks exact |
| `Ext2Lost.LoseBlock` | kernel/fs/ext2.c:722-797 | that file system can be made, and truncating its file to 0 without memory for the copy leaves a valid one in which no location holds a block while block 21 is still used, counted as lost |
| `Ext2Lost.FollowBytes` | kernel/fs/ext2.c:603-641 | on an index block given as literal bytes, the first four of them 15 00 00 00, bmap of file block 12 answers 21, and of file block 13 a hole |
| `Ext2Shrink.CutMapping` | kernel/fs/ext2.c:787-800 | after the cut every location at or above the limit is a hole and every other location of every inode is unchanged |
| `Ext2Shrink.CutConsistent` | kernel/fs/ext2.c:722-817 | after the cut the forest, ownership and i_blocks are consistent again |
| `Ext2Shrink.CutBytes` | kernel/fs/ext2.c:787-800 | the bytes of file blocks at or above the limit read as zero, all other bytes of all files stay |
| `Ext2File.WriteIsArrayWrite` | kernel/fs/ext2.c:683-719 | a write on disk is a write on a byte array with the gap filled by zeros |
| `Ext2File.ResizeIsArrayResize` | kernel/fs/ext2.c:787-817 | a truncation on disk is a resize of the byte array: growing after shrinking appends zeros |
| `Ext2File.ArrayLaws` | kernel/fs/ext2.c:647-719 | on arrays: reading back gives the bytes last written, other bytes stay, and regrown bytes are zero |
| `Ext2Fs.Ext2.Attach` | kernel/fs/ext2.c:263-303 | a new block is fresh, zeroed and owned by one location; on ENOSPC nothing changes |
| `Ext2Fs.Ext2.Step` | kernel/fs/ext2.c:591-634 | one level of bmap: a pointer that is there is followed and nothing changes; a hole is filled, if asked for, with the first free block from the goal on unless the disk is full |
| `Ext2Fs.Ext2.Bmap` | kernel/fs/ext2.c:578-641 | the block of a file block, or EFBIG exactly beyond the addressable range; a missing block is the first free one from the group of the inode, or from its index block, on; ENOSPC part-way down leaves a consistent tree, and without create nothing changes |
| `Ext2Fs.Ext2.GroupStartIs` | kernel/fs/ext2.c:597-599 | the goal for the first block of a file is the first block of the group of its inode |
| `Ext2Fs.Ext2.Read` | kernel/fs/ext2.c:647-681 | returns the array read of the contents, cut short only at the end of the addressable range |
| `Ext2Fs.Ext2.Write` | kernel/fs/ext2.c:683-719 | the accepted prefix is written to the byte array, other files stay the same, and the error says why it stopped |
| `Ext2Fs.Ext2.FreeTree` | kernel/fs/ext2.c:722-745 | frees, once each, exactly the blocks of the subtree that are not below an index block without memory for its copy |
| `Ext2Fs.Ext2.TruncTree` | kernel/fs/ext2.c:749-784 | cuts one subtree at the limit and frees exactly the removed blocks that can be freed |
| `Ext2Fs.Ext2.ShrinkTo` | kernel/fs/ext2.c:787-809 | the mapping below ceil(size / block) is unchanged, everything from there on is a hole, the removed blocks that can be freed are freed once each and the others are counted as lost |
| `Ext2Fs.Ext2.Truncate` | kernel/fs/ext2.c:787-817 | the file becomes the resized byte array, other files stay; bitmap, free count and i_blocks move by exactly the removed blocks that can be freed, with or without memory for the copies |
| `Ext2Dirent.PackRead` | kernel/fs/ext2.c:948-957 | the bytes of a record read back as that record |
| `Ext2Dirent.HeaderWritten` | kernel/fs/ext2.c:948-957 | byte by byte where a record keeps inode, rec_len, name_len, file type and name |
| `Ext2Dirent.HeaderRead` | kernel/fs/ext2.c:844-860 | the fields of a record are the little-endian numbers at offsets 0, 4, 6 and 7 of it |
| `Ext2Dirent.Replaced` | kernel/fs/ext2.c:875-889 | a change from one record on that leaves the rest tiled leaves the block tiled, with the same records before it |
| `Ext2Dirent.SplitRecs` | kernel/fs/ext2.c:935-959 | splitting a record yields the old record with the room its name needs and the new one with the rest; the block stays exactly tiled |
| `Ext2Dirent.FillRecs` | kernel/fs/ext2.c:935-959 | filling a free record replaces just that record |
| `Ext2Dirent.NumberedRecs` | kernel/fs/ext2.c:1005-1008 | another inode in a record, 0 for a free one, replaces just that record |
| `Ext2Dirent.SwallowedRecs` | kernel/fs/ext2.c:996-1010 | removing a later record gives its room to the one before, and the block stays exactly tiled |
| `Ext2Dir.BindConcat` | kernel/fs/ext2.c:861-919 | the map of a list of records is the map of its parts, the first record of a name deciding |
| `Ext2Dir.FindInBlock` | kernel/fs/ext2.c:875-913 | the walk finds the first record of a name with the record before it, or the name is not bound in the block |
| `Ext2Dir.Visit` | kernel/fs/ext2.c:861-892 | the walk with any visitor stops at the first record with its property, or no record of the block has it |
| `Ext2Dir.AddedGains` | kernel/fs/ext2.c:935-959 | add_visit gives the block exactly one more binding |
| `Ext2Dir.RemovedLoses` | kernel/fs/ext2.c:996-1010 | remove_visit takes exactly one binding from the block |
| `Ext2Dir.RemovedHasRoom` | kernel/fs/ext2.c:935-1010 | after a removal the block has room for the same name again |
| `Ext2Dir.AddedMarked` | kernel/fs/ext2.c:935-959 | adding a record leaves no free record behind that holds the name .. |
| `Ext2Dir.RemovedMarked` | kernel/fs/ext2.c:996-1010 | nor does removing one of another name, so that dotdot_visit, which does not look at the inode, stops at the live record |
| `Ext2Dir.NumberedChanges` | kernel/fs/ext2.c:1045-1055 | dotdot_visit changes the inode of one binding of the block and nothing else |
| `Ext2Dir.DirBlockBinds` | kernel/fs/ext2.c:1160-1181 | the block that mkdir writes binds . and .. and nothing else, without duplicates |
| `Ext2Directory.FirstBlockRecs` | kernel/fs/ext2.c:974-989 | a new directory block is one record that owns all of it |
| `Ext2Directory.Directory.Find` | kernel/fs/ext2.c:902-919 | dir_find agrees with the map, on damaged directories too |
| `Ext2Directory.Directory.Add` | kernel/fs/ext2.c:962-994 | adding an absent name adds only that binding; ENOSPC exactly when no record has room and there is no block; failures change nothing |
| `Ext2Directory.Directory.Remove` | kernel/fs/ext2.c:1012-1022 | removes only that binding, ENOENT exactly when it is absent, and leaves room for the name |
| `Ext2Directory.Directory.Rebind` | kernel/fs/ext2.c:1300-1313 | dir_remove and then dir_add of the same name always succeeds without a new block, and changes only that binding |
| `Ext2Directory.NewDirectory` | kernel/fs/ext2.c:1160-1187 | a directory made by mkdir is a valid one whose map holds . and .. only |
| `Ext2Directory.Directory.SetDotdot` | kernel/fs/ext2.c:1045-1055 | over all blocks, the binding of .. gets the new inode and every other binding stays |
| `Ext2Directory.Directory.IsEmpty` | kernel/fs/ext2.c:1024-1042 | dir_is_empty is true exactly when no name but . and .. is bound |
| `Ext2Directory.LiveOnce` | kernel/fs/ext2.c:1057-1098 | without duplicate names the live records are as many as the bindings and have different names |
| `Ext2Directory.Directory.Readdir` | kernel/fs/ext2.c:1057-1098 | one call returns the next live record and a position after it, over holes and damaged records, whatever the blocks hold |
| `Ext2Directory.Directory.ReadAll` | kernel/fs/ext2.c:1057-1098 | a full pass ends and yields each binding exactly once |
| `Ext2Names.WalkExact` | kernel/fs/ext2.c:1249-1267 | on a tree is_ancestor is true exactly for ancestors (or the directory itself) and for directories 4096 or more levels deep |
| `Ext2Names.NoLoop` | kernel/fs/ext2.c:1249-1267 | following .. never comes back to a directory other than the root |
| `Ext2Deep.WrongAncestor` | kernel/fs/ext2.c:1249-1267 | a valid tree, a chain of directories 4096 levels deep with a directory beside it, on which is_ancestor takes that directory for an ancestor and rename refuses a move that makes no loop |
| `Ext2Links.NewDirValid` | kernel/fs/ext2.c:1154-1205 | a new directory keeps the graph a tree with real parents and exact link counts |
| `Ext2Links.DropDirValid` | kernel/fs/ext2.c:1224-1246 | removing an empty directory keeps it so |
| `Ext2Links.NewFileValid` | kernel/fs/ext2.c:1139-1152 | a new file keeps it so |
| `Ext2Links.DropFileValid` | kernel/fs/ext2.c:1207-1222 | unlinking a name keeps it so; the file goes with its last name |
| `Ext2Links.MoveValid` | kernel/fs/ext2.c:1305-1325 | moving a name to a directory outside what moves keeps it so |
| `Ext2Links.MoveIffOutside` | kernel/fs/ext2.c:1281-1284 | moving a directory leaves everything reachable from the root if and only if the new parent is not inside it |
| `Ext2Disk.NamesOnDisk` | kernel/fs/ext2.c:962-1022 | when the blocks of one directory change as one name does, the blocks of all directories stand for the changed names |
| `Ext2Disk.EmptyShows` | kernel/fs/ext2.c:1024-1042 | the map of the blocks of a directory holds . and .. only, if and only if the tree has no name in it |
| `Ext2Rename.Namespace.constructor` | kernel/fs/ext2.c:1160-1187 | a root directory alone: its block stands for the empty tree, which is valid |
| `Ext2Rename.Namespace.DirFind` | kernel/fs/ext2.c:915-919 | dir_find on the blocks of a directory finds its parent as .. and its names as the tree has them |
| `Ext2Rename.Namespace.DirAdd` | kernel/fs/ext2.c:962-994 | dir_add adds the name to blocks and tree alike; ENOSPC exactly when no record has room and there is no block |
| `Ext2Rename.Namespace.DirRemove` | kernel/fs/ext2.c:1012-1022 | dir_remove takes the name from both, and leaves room for it |
| `Ext2Rename.Namespace.SetParent` | kernel/fs/ext2.c:1045-1055 | dotdot_visit on the blocks of a directory is a change of its parent in the tree |
| `Ext2Rename.Namespace.FirstRecords` | kernel/fs/ext2.c:1160-1187 | the first block of a new directory is an empty directory with that parent in the tree |
| `Ext2Rename.Namespace.IsAncestor` | kernel/fs/ext2.c:1249-1267 | the loop over the .. records on the blocks computes exactly that |
| `Ext2Rename.Namespace.Create` | kernel/fs/ext2.c:1139-1152 | success adds one file name to blocks and tree; when dir_add fails the inode already made is taken back and neither has changed |
| `Ext2Rename.Namespace.Mkdir` | kernel/fs/ext2.c:1154-1205 | success adds one empty directory with nlink 2 and .. to the parent, in blocks and tree; when its block or its name finds no room the directory already made is taken back and neither has changed |
| `Ext2Rename.Namespace.Unlink` | kernel/fs/ext2.c:1207-1222 | removes one name of a file from blocks and tree; the error tells which check failed |
| `Ext2Rename.Namespace.Rmdir` | kernel/fs/ext2.c:1224-1246 | removes exactly an empty directory; the error tells which check failed |
| `Ext2Rename.Namespace.Rename` | kernel/fs/ext2.c:1269-1334 | on the directory blocks: a failure changes neither blocks nor tree, success moves exactly that name after unlinking what the new name held and mends .., EINVAL exactly for a move into itself or too deep, ENOSPC only for a name that was not there when no record of the directory has room and there is no block, and blocks and tree still agree |
| `Vma.Find` | kernel/mm/mm.c:97-104 | the area that holds an address, or none covers it |
| `Vma.RangeFree` | kernel/mm/mm.c:106-113 | true if and only if no address of the range is covered |
| `Vma.InsertKeeps` | kernel/mm/mm.c:115-125 | inserting an area that meets no other keeps the list sorted, disjoint, aligned and in user space |
| `Vma.FindFreeArea` | kernel/mm/mm.c:128-145 | for every length: terminates with the highest place that keeps a page from every area, 0 only when no place at or above USER_SPACE_START + PAGE_SIZE is free; a length above MMAP_TOP acts as a negative one, with an exact condition for a wrapped result |
| `Vma.WrappedPlace` | kernel/mm/mm.c:130 | a note on the range that find_free_area does not check and no caller asks for: MMAP_TOP + PAGE_SIZE bytes in an empty address space give a wrapped result |
| `Vma.MmapLength` | kernel/sys/syscall.c:119-120 | the lengths that sys_mmap lets through stay at most MMAP_TOP when rounded up to pages, so that the search never wraps |
| `Vma.MapArea` | kernel/mm/mm.c:147-171 | adds exactly one area over addresses that were not covered, or changes nothing |
| `Vma.SysMmap` | kernel/sys/syscall.c:115-125 | EINVAL exactly for a shared or file mapping or a length of 0 or above 2^40; where the kernel chooses, the highest place that keeps a page from every area, where the caller does, that address; ENOMEM only when there is none or no node; the area has the protection asked for |
| `Vma.UnmapAreas` | kernel/mm/mm.c:187-221 | the loop with its one spare node computes the carved list |
| `Vma.CarveKeeps` | kernel/mm/mm.c:187-221 | carving keeps the list valid |
| `Vma.CarveCovers` | kernel/mm/mm.c:187-221 | carving removes exactly the range from the covered addresses when the spare node was there or not needed |
| `Vma.CarveStuck` | kernel/mm/mm.c:209-215 | without the spare node an area that would have to be split stays, and the list is unchanged |
| `Vma.CarveFrom` | kernel/mm/mm.c:187-221 | every remaining piece keeps the protection and kind of its area |
| `Vma.SbrkAreas` | kernel/mm/mm.c:223-254 | moves the end of the last heap area and nothing else; refuses exactly when there is no heap area or the new end lies below its start, too close to the next area or outside user space |
| `Vma.GrowStack` | kernel/mm/mm.c:302-319 | extends a stack area down to the address; refuses exactly when no stack area lies above within the limit or the page below would meet another area |
| `Cow.MapFreshSound` | kernel/mm/mm.c:259-299 | mapping a free frame keeps every reference count exact and writable pages unshared |
| `Cow.DropSound` | kernel/mm/pmm.c:192-199 | dropping a reference keeps that, and the last one frees the frame |
| `Cow.ShareSound` | kernel/mm/mm.c:366-405 | sharing a page with a child keeps that, both entries read-only |
| `Cow.AdoptSound` | kernel/mm/mm.c:280-282 | taking over a frame with one reference keeps that |
| `Cow.CopySound` | kernel/mm/mm.c:284-292 | the private copy of a shared page keeps that and holds the same bytes |
| `Cow.StorePrivate` | kernel/mm/mm.c:259-299 | a store through a writable entry is seen through no other entry |
| `Access.GuardedKept` | kernel/mm/mm.c:49-57 | while entries stay and areas keep their protection, every page can be written, now or after a copy, exactly where its area permits writing |
| `Access.CarveProt` | kernel/mm/mm.c:187-221 | what unmapping leaves around an address keeps its protection |
| `Mm.FillIsInvisible` | kernel/mm/mm.c:259-299 | mapping zero pages in covered holes changes no process's view |
| `Mm.ForkViews` | kernel/mm/mm.c:407-438 | with all pages shared the child sees the parent's memory and nobody else sees a difference |
| `Mm.UndoneViews` | kernel/mm/mm.c:430-437 | a failed fork that is cleaned up leaves every view and every mapping as before |
| `Mm.UnmapViews` | kernel/mm/mm.c:187-221 | after an unmap the range is gone from one view, or reads as zeros when an area had to be split without a node; no other memory of any process has changed |
| `Mm.HeapViews` | kernel/mm/mm.c:223-254 | after sbrk memory above a lower end is gone, below a higher end it reads as zeros, and nothing else has changed |
| `Mm.Machine.Create` | kernel/mm/mm.c:67-82 | a new address space sees nothing and changes nothing for the others |
| `Mm.Machine.FaultPage` | kernel/mm/mm.c:259-299 | no process sees a difference; a page touched first gets the protection of its area, after a write fault it is writable, and it fails only for missing memory and then changes nothing |
| `Mm.Machine.FillPage` | kernel/mm/mm.c:268-274 | a page touched for the first time reads as zeros and is writable exactly if its area permits writing |
| `Mm.Machine.BreakCow` | kernel/mm/mm.c:276-296 | copy or adopt: no process sees a difference, the page is writable afterwards, and every entry still grants what its area permits |
| `Mm.Machine.HandleFault` | kernel/mm/mm.c:321-335 | resolved only for an access that the area at the address permits, and then always unless memory is missing; the stack grows exactly when it may; no process loses or changes memory it had |
| `Mm.Machine.StoreByte` | kernel/mm/mm.c:259-299 | a store to a writable page lies in an area that permits writing, changes one byte of the writer's view and nothing of any other process |
| `Mm.Machine.UnmapPages` | kernel/mm/mm.c:174-185 | unmaps exactly the pages of the range in this address space, dropping one reference each |
| `Mm.Machine.Unmap` | kernel/mm/mm.c:187-221 | pages and areas of the range go and every process sees just that, with the exact case in which the range stays as zeros; failures change nothing |
| `Mm.Machine.MapArea` | kernel/mm/mm.c:147-171 | exactly one more area of the wanted place and protection, which reads as zeros; no process loses memory |
| `Mm.Machine.Sbrk` | kernel/mm/mm.c:223-254 | moves the heap end exactly when it may, gives back exactly the pages above a lower end, and every process sees just that |
| `Mm.Machine.Destroy` | kernel/mm/mm.c:84-93 | drops one reference for each page of this address space and touches no other |
| `Mm.Machine.CopyTables` | kernel/mm/mm.c:366-405 | shares pages of the parent until it runs out of memory for a page table, and not otherwise; everything else unchanged |
| `Mm.Machine.Fork` | kernel/mm/mm.c:407-438 | fails exactly for missing memory: for the child, for one of its areas or for a page table; the child starts with the parent's memory; on every failure all processes see what they saw before |
| `PageTables.GrownEntries` | kernel/mm/vmm.c:94-111 | hooking a fresh zeroed table into an absent entry changes that entry only and keeps the tables a tree |
| `PageTables.PokeEntries` | kernel/mm/vmm.c:296-320 | writing a page entry changes that entry only and moves no table |
| `PageTables.PrunedEntries` | kernel/mm/vmm.c:421-462 | unhooking an empty table changes that entry only and keeps the tables a tree |
| `Vmm.SameLeavesTr` | kernel/mm/vmm.c:94-124 | creating or dropping tables changes no translation |
| `Vmm.SmallTr` | kernel/mm/vmm.c:296-320 | a last-level entry decides the translation of one page only |
| `Vmm.MidTr` | kernel/mm/vmm.c:146-151 | a 2 MiB entry translates its 512 pages linearly and changes no other page |
| `Vmm.BigTr` | kernel/mm/vmm.c:137-143 | a 1 GiB entry translates its 262144 pages linearly and changes no other page |
| `VmmOps.AddressSpace.NextLevel` | kernel/mm/vmm.c:94-111 | the table below an entry, made on demand, with every translation unchanged and frames conserved |
| `VmmOps.AddressSpace.GetPte` | kernel/mm/vmm.c:113-124 | the last-level table of a page, every translation unchanged; fails only out of frames or at a huge page |
| `VmmOps.AddressSpace.MapPage` | kernel/mm/vmm.c:296-308 | on success exactly one page gains a translation; on failure none changes |
| `VmmOps.AddressSpace.UnmapPage` | kernel/mm/vmm.c:310-320 | exactly one page loses its translation, and it returns its frame; huge pages are left alone |
| `VmmOps.AddressSpace.UpdateFlags` | kernel/mm/vmm.c:352-361 | exactly one page changes its flags, with the same frame |
| `VmmOps.AddressSpace.Translate` | kernel/mm/vmm.c:322-350 | the walk with its 1 GiB and 2 MiB exits agrees with the partial map |
| `VmmOps.AddressSpace.MapStep` | kernel/mm/vmm.c:129-161 | one round maps with the largest page that alignment, the length left and the entry there allow |
| `VmmOps.AddressSpace.MapRange` | kernel/mm/vmm.c:129-161 | with any mix of page sizes the range translates like the page-by-page linear map, and everything else as before; fails only without frames or at a huge page in the way |
| `VmmPrune.PrunedOnlyEmpty` | kernel/mm/vmm.c:442-454 | the frame given back was a table of this tree without a present entry, and the entry for it is the only one cleared |
| `VmmOps.AddressSpace.Prune` | kernel/mm/vmm.c:421-462 | no translation changes; each frame given back was a table whose entries are not present or lead to tables given back as well; no empty last-level table is left in the range, and outside it every last-level table stays |
| `VmmOps.AddressSpace.Destroy` | kernel/mm/vmm.c:251-292 | frees each table of the lower half and the PML4 exactly once, after its last read, and drops one reference per page mapped to a counted frame |
| `VmmOps.GrewNoHuge` | kernel/mm/vmm.c:94-133 | making tables on the way to a page makes no huge page |
| `Paged.ReadsUnique` | kernel/mm/vmm.c:94-133 | the four-level tables of all address spaces leave no choice for the flat table of Cow and Mm |
| `Paged.ReadsPut` | kernel/mm/mm.c:259-299 | a change of the translation of one page of one address space is a change of one entry of the flat table |
| `Paged.PagedMemory.SetPte` | kernel/mm/mm.c:266-289 | writing a last-level entry changes the flat table at that page only, with the frame and the rights that the written word holds; the tables of every other address space still are the flat table |
| `Paged.PagedMemory.FaultPage` | kernel/mm/mm.c:259-299 | on the four-level tables: no process reads anything else than before but for zeros at a page first touched, which is writable and executable exactly as asked for; counts stay exact, and it fails only for missing memory, with the flat table unchanged |
| `Paged.PagedMemory.BreakCow` | kernel/mm/mm.c:276-296 | a copy or an adoption by one last-level entry, after which the page is writable with its other rights as before and every page reads as before; fails only without a frame |
| `Paged.PagedMemory.SharePage` | kernel/mm/mm.c:383-398 | one round of copy_user_tables: the child reads the page of the parent, both entries are read-only and marked for copying if the page could be written, otherwise as they were, and nobody sees a difference, also when there is no memory for a table |
| `Paged.ShareEntry` | kernel/mm/mm.c:383-398 | what sharing does to the flags of an entry, bit by bit |
| `Paged.RestBits` | kernel/mm/mm.c:49-57 | the rights of an entry are its bits 1, 9 and 63 |
| `Paged.PagedMemory.UnmapPage` | kernel/mm/mm.c:174-185 | one page of one process is gone and its frame has one reference less; all other pages read as before |
| `Paged.PagedMemory.Store` | kernel/mm/mm.c:259-299 | a store through a writable translation changes one byte of the page that the process reads, and nothing that another process, or another page, reads |
| `Paged.PagedMemory.Destroy` | kernel/mm/mm.c:84-93 | destroying the tables of an address space drops one reference for each of its pages, keeps all counts exact, and changes nothing that another process reads |
| `Sched.FindZombie` | kernel/proc/process.c:526-534 | the scan finds the first matching zombie child, or there is none |
| `SchedSafe.BulkSafe` | kernel/proc/process.c:376-385 | waking and orphaning loops keep the invariant |
| `SchedSafe.ParkedSafe` | kernel/proc/process.c:292-298 | giving up the CPU in any state keeps the invariant |
| `SchedSafe.DieMissed` | kernel/proc/process.c:463-476 | an exiting child leaves no waiting parent asleep |
| `SchedSafe.WaitMissed` | kernel/proc/process.c:519-566 | a parent goes to sleep only without a matching zombie |
| `SchedSafe.DropOwned` | kernel/proc/process.c:132-161 | proc_free destroys an address space that nobody else names |
| `SchedRuns.StepInv` | kernel/proc/process.c:132-298 | every step of every CPU keeps the whole invariant |
| `SchedRuns.RunExclusive` | kernel/proc/process.c:205-290 | in every reachable state of every interleaving: no stack is shared, a process that is not RUNNING is on a stack only under proc_lock, on its stack its own page table is in CR3 unless it has just replaced it, off it the kernel's is, and a process asleep in a wait for pid n (for any child) has no zombie child of pid n (at all) |
| `SchedTurns.WaitBegins` | kernel/proc/process.c:519-521 | a wait is for the pid asked for, and holds proc_lock |
| `SchedRuns.WaitTakes` | kernel/proc/process.c:519-548 | proc_wait takes the first child in the table that is a zombie of the pid asked for (any child for -1), and only that |
| `SchedRuns.WaitLeaves` | kernel/proc/process.c:519-566 | it sleeps only while a child of that pid exists, and sleeps or returns empty-handed only when none of them is a zombie |
| `SchedRuns.WaitFinds` | kernel/proc/process.c:526-548 | while such a zombie is there it is taken, and the parent does not sleep |
| `SchedRuns.FreesNothingInUse` | kernel/proc/process.c:132-161 | no step frees a kernel stack that a CPU is on or switching to, or an address space that is in a CR3 |
| `SchedRuns.PickNearest` | kernel/proc/process.c:226-236 | the search finds the nearest READY slot after rr_next, and something whenever there is one |
| `SchedRuns.Fair` | kernel/proc/process.c:226-236 | while a process stays READY at most MAX_PROCS - 1 others are picked |
| `SchedRuns.PickNext` | kernel/proc/process.c:226-236 | the loop returns that slot and the next starting point |
| `SchedRuns.WaitScan` | kernel/proc/process.c:520-541 | the loop finds the first matching zombie and whether any child matches |
| `SchedTurns.LifeCycle` | kernel/proc/process.c:76-566 | for every step and every slot, the state, parent and pid after it: a slot is taken only when free, a process runs only when picked as nearest and stops running only by its own step, a sleeper wakes exactly when told, a zombie goes to its waiting parent or, as an orphan, to the reaper, and a slot is free again only when released |
| `SchedTurns.StepKin` | kernel/proc/process.c:78-96 | no two slots in use ever have the same pid, and nobody is its own parent |
| `SchedTurns.StepNoLeak` | kernel/proc/process.c:132-161 | every step keeps: every address space belongs to a process or to an unfinished exec, exit or fork, and every slot that is neither free nor in use is being worked on |
| `SchedTurns.RunNoLeak` | kernel/proc/process.c:132-477 | so nothing leaks and no pid is used twice in any run |
| `SchedTurns.NoneWithoutProcess` | kernel/proc/process.c:132-161 | when the processes are gone so is their memory |
| `SchedTurns.NoDeadlock` | kernel/proc/process.c:205-300 | a CPU can always go on unless it waits for proc_lock, whose holder never waits |
| `SchedTurns.LeaveChoices` | kernel/proc/process.c:292-477 | when a process may yield, sleep, stop or exit: inside a critical section, and exit only without memory and unfinished work |
| `SchedTurns.WorkChoices` | kernel/proc/process.c:76-566 | when it may wait for a child, claim a slot, load, install or give up an address space |
| `SchedTurns.WakeChoices` | kernel/proc/process.c:373-391 | only the holder of proc_lock wakes, and only a process that is BLOCKED or STOPPED |
| `SchedTurns.BirthChoices` | kernel/proc/process.c:76-173 | a new slot gets a stack, then an address space, and can be made READY once it has a stack |
| `SchedTurns.WaitGivesUp` | kernel/proc/process.c:519-566 | proc_wait returns without a child exactly when no zombie is there for it or a stopped child is |
| `SchedTurns.SwapSteps` | kernel/proc/process.c:449-461 | exec and exit first replace the address space, then load CR3, and only then destroy the old one |
| `SchedTurns.ReleaseSteps` | kernel/proc/process.c:132-161 | proc_free gives back the stack, then the memory, then the slot |
| `SchedTurns.ReaperSteps` | kernel/proc/process.c:238-252 | the reaper of orphans releases a slot in the same three steps |
| `SchedTurns.ReaperWalks` | kernel/proc/process.c:238-252 | the reaper looks at every slot in turn |
| `SchedTurns.ReaperStarts` | kernel/proc/process.c:254-300 | only the boot CPU, with nothing READY, starts it, at the first slot |
| `Tlb.StepInv` | kernel/arch/smp.c:69-107 | every step keeps: pending equals posted slots plus handlers in progress, no slot refers to a returned request, acknowledged CPUs have flushed |
| `Tlb.RunInv` | kernel/arch/smp.c:69-107 | so it holds in every reachable state, for any number of concurrent requesters |
| `Tlb.ReturnIsSafe` | kernel/arch/smp.c:87-107 | when tlb_shootdown returns, no other online CPU caches a page of the range and nothing refers to the request |
| `Tlb.CallTurn` | kernel/arch/smp.c:87-107 | a shootdown of pages no longer mapped starts with the first CPU, waits after the last, and returns exactly when its counter is zero |
| `Tlb.SenderTurn` | kernel/arch/smp.c:95-101 | the posting loop goes over the CPUs once and sends to every other online one |
| `Tlb.HandlerTurn` | kernel/arch/smp.c:69-80 | process_inbox goes over the slots once, empties each that is filled, flushes every page of the request and then acknowledges |
| `Tlb.MemoryTurn` | kernel/arch/smp.c:54-107 | what the rest of the system may do meanwhile: cache and drop pages, map and unmap them |
| `Tlb.WaitersProgress` | kernel/arch/smp.c:69-107 | a CPU that owes an acknowledgement to a waiting CPU always has a step, which delivers one or comes closer |
| `Tlb.AckComes` | kernel/arch/smp.c:69-107 | steps of an owing CPU alone, whatever it is doing, lead to its acknowledgement |
| `Tlb.WaitEnds` | kernel/arch/smp.c:87-107 | from every reachable state a finite run brings the counter of a waiting CPU to zero |
| `PipeRing.PoppedContents` | kernel/fs/pipe.c:56-60 | moving head and count drops exactly the oldest bytes |
| `PipeRing.PushedContents` | kernel/fs/pipe.c:93-98 | writing behind the tail appends exactly the new bytes |
| `PipeRing.PipeBuffer.CopyOut` | kernel/fs/pipe.c:56-60 | copies out the oldest min(len, count) bytes in order |
| `PipeRing.PipeBuffer.CopyIn` | kernel/fs/pipe.c:93-98 | appends as many bytes as fit, around the end of the buffer |
| `PipeSafe.OfAppend` | kernel/fs/pipe.c:93-99 | appending to the log extends the bytes of one call only |
| `PipeSafe.StepInv` | kernel/fs/pipe.c:37-124 | every step of any number of readers, writers and closers keeps the invariant |
| `PipeSafe.NoLostWakeup` | kernel/fs/pipe.c:37-124 | with the pipe lock free, a reader is BLOCKED only on an empty pipe with a writer left, a writer only on a full pipe with a reader left |
| `PipeSafe.PipeIsQueue` | kernel/fs/pipe.c:29-106 | bytes accepted are bytes delivered and then the ring, at most PIPE_SIZE; a count is the length of the prefix appended, an error appended nothing, and 0 means all was delivered and no writer is left |
| `PipeSafe.FreedUnused` | kernel/fs/pipe.c:108-124 | the pipe is freed once, when no call is under way |
| `PipeCalls.WriteReturns` | kernel/fs/pipe.c:67-106 | a write that returns returns what it has appended: all its bytes, unless no reader is left or it was interrupted on a full pipe; an error means nothing was appended |
| `PipeCalls.ReadReturns` | kernel/fs/pipe.c:37-65 | a read that returns returns the bytes it took; 0 only on an empty pipe without writers; it is interrupted only on an empty pipe with a writer left |
| `PipeCalls.ReaderTurn` | kernel/fs/pipe.c:42-61 | with the lock held a read takes the oldest bytes whenever there are some, ends at the end of file, and otherwise sleeps or is interrupted |
| `PipeCalls.WriterTurn` | kernel/fs/pipe.c:74-103 | with the lock held a write returns when done, fails without readers, gives way on a full pipe, and otherwise appends |
| `PipeCalls.WriterAppends` | kernel/fs/pipe.c:89-99 | as many of its next bytes as fit |
| `PipeCalls.WakesAll` | kernel/fs/pipe.c:61-124 | a wake-up lets every process asleep on that channel go on, and no other |
| `PipeCalls.WakesNext` | kernel/fs/pipe.c:37-124 | a reader that took bytes wakes the writers, a writer that appended some the readers, and a release both |
| `PipeCalls.WakesOn` | kernel/fs/pipe.c:37-124 | and where each of them goes on then |
| `PipeCalls.CallsBegin` | kernel/fs/pipe.c:37-73 | a call begins with nothing done; reading 0 bytes is over at once |
| `PipeCalls.CallsEnd` | kernel/fs/pipe.c:37-124 | an end is closed when no call is under way on it; an interruption sends a sleeper back to its loop |
| `PipeCalls.Releases` | kernel/fs/pipe.c:108-124 | dropping the last file of an end closes that end only, and the pipe is freed when both are closed |
| `PipeCalls.NoOtherRelease` | kernel/fs/pipe.c:108-124 | nothing else closes an end or frees the pipe |
| `PipeCalls.NoDeadlock` | kernel/fs/pipe.c:37-124 | while a call is under way whose process is not BLOCKED, some process can go on |
| `Mutex.MutexSafe` | kernel/lib/mutex.c:17-41 | at most one process is between lock and unlock, and with the spinlock free a BLOCKED process waits for a mutex that another holds |
| `Mutex.LockTurn` | kernel/lib/mutex.c:17-29 | a mutex that is not locked is taken, and a process sleeps only for one that is |
| `Mutex.UnlockTurn` | kernel/lib/mutex.c:31-41 | unlocking leaves the mutex unlocked and wakes every process asleep on it |
| `Mutex.LockMoves` | kernel/lib/mutex.c:17-41 | no other step changes owner or lock; whoever returns from mutex_lock owns the mutex, whoever returns from mutex_unlock does not |
| `Mutex.NoDeadlock` | kernel/lib/mutex.c:17-41 | while a process is in a call and not BLOCKED, some process in a call can go on |
| `Signals.NextIsDeliverable` | kernel/proc/signal.c:170-186 | something is found exactly when something is deliverable; it is SIGKILL or the lowest unblocked pending signal |
| `Signals.StepInv` | kernel/proc/signal.c:70-102 | every step keeps: SIGKILL and SIGSTOP never blocked or caught, STOPPED means not killed, SIGCONT and stop signals not pending together, no sleep in pause with a deliverable signal |
| `Signals.RunInv` | kernel/proc/signal.c:245-379 | so it holds of every process after every run of sends, deliveries, system calls and forks |
| `Signals.ForkInv` | kernel/proc/process.c:93-103 | the signal state that a child inherits satisfies it |
| `Signals.BootInv` | kernel/proc/process.c:91-103 | so does that of the first process |
| `Signals.KillWakes` | kernel/proc/signal.c:70-102 | SIGKILL makes a stopped or sleeping process READY |
| `Signals.SendArrives` | kernel/proc/signal.c:70-102 | a signal that is wanted or blocked is pending afterwards, an unwanted one is not kept; SIGCONT and the stop signals cancel each other; mask and actions stay |
| `Signals.SendWakes` | kernel/proc/signal.c:70-102 | a stopped process is READY after SIGCONT or SIGKILL and after nothing else; a sleeping one exactly after a wanted signal that is not blocked |
| `Signals.SendNothing` | kernel/proc/signal.c:70-74 | nothing happens to the dead, or for a number that is no signal |
| `Signals.TakeEffect` | kernel/proc/signal.c:170-186 | delivery takes SIGKILL if it may be delivered, else the lowest signal that may, with its action, and there is something to take exactly when something is deliverable |
| `Signals.TakenCases` | kernel/proc/signal.c:245-281 | an unwanted signal is dropped, a stop signal by default stops, a handler is entered, and with any other default action the process can only die |
| `Signals.FrameEffect` | kernel/proc/signal.c:202-243 | entering a handler blocks its mask and, unless it may nest, the signal; a one-shot action is reset |
| `Signals.MaskEffect` | kernel/proc/signal.c:354-379 | the exact mask after SIG_BLOCK, SIG_UNBLOCK, SIG_SETMASK and sigreturn |
| `Signals.ActionEffect` | kernel/proc/signal.c:330-352 | the exact actions after sigaction; a pending signal that is now ignored goes |
| `Signals.ForceEffect` | kernel/proc/signal.c:303-317 | a fault cannot be ignored or blocked: it is pending and deliverable afterwards |
| `Signals.ExecEffect` | kernel/proc/signal.c:319-328 | exec keeps ignored signals ignored and resets every other action |
| `Signals.PauseEffect` | kernel/proc/signal.c:483-490 | pause sleeps exactly when nothing is deliverable |
| `Signals.ForkEffect` | kernel/proc/process.c:93-103 | a child starts with the mask and the actions of its parent and nothing pending |
| `Signals.WhenEnabled` | kernel/proc/signal.c:70-379 | what a process does to its signals it does while it runs; signals are sent to it in any state; only faults are forced |
| `Signals.StateOnly` | kernel/proc/process.c:205-300 | scheduling changes no signal |
| `Sigframe.FramePlace` | kernel/proc/signal.c:219-224 | a frame lies below the red zone, no further than alignment needs, and the handler starts with RSP % 16 = 8 |
| `Sigframe.HandlerRoundTrip` | kernel/proc/signal.c:202-243 | handler entry and sigreturn on an untouched frame restore every register, RSP, RIP and the mask, RFLAGS limited to 0xCD5 with IF and bit 1 |
| `Sigframe.ReturnOf` | kernel/proc/signal.c:381-413 | what sigreturn makes of the context that setup_frame wrote |
| `Sigframe.EntryMask` | kernel/proc/signal.c:226-240 | the mask in a handler contains the old one and the signal, never SIGKILL or SIGSTOP; TF and DF are clear |
| `Sigframe.EntryBlocks` | kernel/proc/signal.c:235-240 | it is exactly the old mask, that of the action without SIGKILL and SIGSTOP, and the signal unless it may nest |
| `Sigframe.EntryIff` | kernel/proc/signal.c:211-224 | a handler is entered unless it has no restorer or the frame cannot be written |
| `Sigframe.EntryRegs` | kernel/proc/signal.c:226-240 | the handler starts at its address with the signal in rdi, rsi, rdx and rax 0, TF and DF clear, every other register as it was |
| `Sigframe.EntryFrame` | kernel/proc/signal.c:202-224 | word by word what lies at its stack pointer: the restorer as return address, then the saved context; no other memory changes |
| `Sigframe.FrameLayout` | kernel/proc/signal.c:209-216 | which register lies in which word of the frame |
| `Sigframe.ReturnSafe` | kernel/proc/signal.c:381-413 | whatever the frame holds by then, sigreturn leads to user addresses with permitted flags and mask, and refuses exactly what is unmapped or leads elsewhere |
| `Bcache.StepInv` | kernel/fs/block.c:279-389 | every step of any number of processes keeps the invariant, with eviction, re-targeting and lost races |
| `Bcache.CacheCoherent` | kernel/fs/block.c:279-379 | at most one buffer per device, block and size; a valid buffer that nobody holds equals the disk; a user's buffer holds the block asked for |
| `Bcache.UsedStays` | kernel/fs/block.c:294-318 | a buffer with a reference is neither freed nor re-targeted |
| `BcacheTurns.GetTurn` | kernel/fs/block.c:279-316 | bget uses a cached block; else, at 1024 buffers, the unreferenced one at the end of the list is re-targeted, or dropped if of another size; else a new one is allocated; the whole effect of each |
| `BcacheTurns.MakeTurn` | kernel/fs/block.c:317-346 | a buffer that another process put in meanwhile is used instead of the new one; otherwise the new one goes to the front, not valid, with one reference |
| `BcacheTurns.ReadTurn` | kernel/fs/block.c:348-363 | bread returns the bytes of the disk, from a valid buffer or by reading them |
| `BcacheTurns.HoldTurn` | kernel/fs/block.c:365-379 | a holder changes its buffer only, writes it to its own block of the disk, and lets go of it when it has written what it changed |
| `BcacheTurns.EndTurns` | kernel/fs/block.c:348-379 | a use begins with a search, takes the mutex of its buffer only while nobody has it, and ends by dropping one reference |
| `BcacheTurns.Proceeds` | kernel/fs/block.c:279-379 | only a process that waits for a buffer that another holds cannot go on |
| `BcacheTurns.DropsLeastRecent` | kernel/fs/block.c:292-308 | in every run, of the buffers that nobody references the one used longest ago is given up |
| `BcacheTurns.CacheBounded` | kernel/fs/block.c:292-346 | however many processes race, the cache exceeds 1024 buffers by no more than their number |
| `BcacheTurns.InvalidateTurn` | kernel/fs/block.c:381-389 | exactly the unreferenced buffers of the device are no longer valid |
| `Slab.NewSlab` | kernel/mm/slab.c:161-182 | the loop threads all objects into one acyclic chain |
| `Slab.TakenOk` | kernel/mm/slab.c:204-208 | taking the first free object keeps the chain acyclic and the counter exact |
| `Slab.GivenOk` | kernel/mm/slab.c:241-243 | so does giving an object back |
| `Slab.Cache.Alloc` | kernel/mm/slab.c:184-221 | hands out an object that was not live; fails exactly when all objects are live and there is no page |
| `Slab.Cache.Free` | kernel/mm/slab.c:223-257 | takes back exactly that object, keeps the three lists a partition by inuse with at most one empty slab |
| `Slab.LiveDisjoint` | kernel/mm/slab.c:161-182 | live objects do not overlap and lie inside their slab |
| `Slab.CountersExact` | kernel/mm/slab.c:184-257 | inuse counts the live objects of its slab and active_objs all live objects |
| `Slab.NeedsSlab` | kernel/mm/slab.c:189-202 | a new slab is made exactly when every object is live |
| `SlabPages.HeldApart` | kernel/mm/slab.c:161-182 | blocks of one order held by different callers are at least a block apart |
| `SlabPages.Kmem.Alloc` | kernel/mm/slab.c:161-221 | on the page allocator: fails exactly when every object is live and no run of pages is free, and takes pages only then |
| `SlabPages.Kmem.Free` | kernel/mm/slab.c:223-257 | a slab given up goes back to the page allocator, no other block does |

## Left out

- Ext2Fs.Ext2.Read: writing the inode back to the inode table, time stamps, disk errors and the read_only flag are not modelled.
- Ext2Fs.Ext2.Bmap: where blocks go when several on the way are missing at once is stated only level by level (Ext2Fs.Ext2.Step).
- Inode bitmaps (alloc_inode_nr, free_inode_nr): the same bitmap and counter story as for blocks.
- Ext2Directory.Directory.Find: dirent_ok's read of a header that would cross the end of a damaged block is taken to fail; the code would read a few bytes past the block.
- Ext2Directory.Directory.Readdir: the look-up of the inode for a record without a file type is not modelled.
- Ext2Rename.Namespace.Rename: directories that were removed while a process still has them as its current directory are not modelled, nor the address order of the two directory locks, disk errors and time stamps.
- Ext2Rename.Namespace.DirAdd: the blocks of a directory are a list of their own; that a directory is a file of `Ext2Fs` whose bytes are those blocks is not stated, so a new block is a parameter.
- Mount points and path resolution (vfs.c).
- Pmm.Memory.Alloc: zeroing for GFP_ZERO is not modelled.
- Panics (double free, unlock by a stranger, free of a dead object) are preconditions.
- Vma.UnmapAreas: the linked list of areas is a sequence that the methods return anew, so the list links themselves are not modelled.
- Paged.PagedMemory.SharePage: the loops over the tables of the parent are those of Mm.Machine.CopyTables; frames for tables come from a pool of each address space.
- Mm.Machine.CopyTables: pages are visited in no particular order, and the mapcount statistic is not modelled.
- Mm.Machine.Unmap: TLB flushing is the subject of `Tlb`; page-table pruning is the subject of `VmmOps`.
- VmmOps.AddressSpace.Translate: returns an option; the code returns 0 both for an unmapped page and for physical address 0.
- VmmOps.AddressSpace.MapRange: where the code panics the method returns false with part of the range mapped.
- VmmOps.AddressSpace.MapPage: sharing of the upper half between address spaces is not modelled; each address space is one tree.
- Tlb.ReturnIsSafe: the guarantee is for the CPUs the request was posted to; the caller flushes locally while it can still be moved to another CPU; a page is not mapped again while a shootdown of it is under way, as callers give the range up afterwards.
- SchedRuns.RunExclusive: waits for a process group (pid 0 or below -1) are left out, because a group may change while the parent sleeps; so are quantum counting and interrupt flags.
- SchedTurns.WorkChoices: any free slot may be claimed; the code claims the first, which is one of them.
- SchedSafe.WaitMissed: reports of stopped children (WUNTRACED) return at any time.
- PipeSafe.NoLostWakeup: a signal that arrives while pipe_read or pipe_write decides to sleep is tested under the pipe lock only, so nothing is said about signals and pipe sleeps beyond waking.
- PipeCalls.WriteReturns: the SIGPIPE that pipe_write sends when no reader is left is not modelled.
- Mutex.MutexSafe: locking a mutex twice by its owner and unlocking by a stranger panic and have no step.
- Signals.RunInv: who sends a signal, process groups, alarms and SA_RESTART are not modelled.
- Sigframe.HandlerRoundTrip: the vector field that selects the return instruction is not modelled.
- Bcache.CacheCoherent: a holder writes its changes back before releasing the buffer, writes succeed, and byte ranges are addressed with one block size, as the file system does.
- Slab.Cache.Free: poison, red zones and the double-free mark, and the layout computed by cache_setup, are not modelled.
- kmalloc size classes, statistics, and destroying a cache.
- Interrupt handling, context-switch register layout, weak memory ordering, device drivers, terminals, tmpfs, exec and ELF loading: outside these cores.
