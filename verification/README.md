# mCertiKOS: crash-safe files, memory, threads

A Dafny model of the four cores of a small teaching kernel, with proofs that each in-place
implementation refines a simple specification.

**File system** (`kern/fs`). `BufCache` is the buffer cache: buffers with flags on a doubly linked
ring (`Ring`), in front of a disk that maps sectors to blocks. Each sector write appends the new disk
image to a ghost `trace`, so "a crash between any two sector writes" is "any element of the trace".
`LogSpec` says what recovery makes of an image; `RedoLog` is the log itself. `Layout` and `Ownership`
give the on-disk layout and the rule that every data block has one owner, `FileSpec` reads a file as
one flat byte sequence, and `InodeSpec`/`InodeLayer` are block_alloc, block_free, bmap, inode_read,
inode_write and inode_trunc on top of the log. `FreeSpace` counts: free blocks against the blocks a
write still needs, so that "out of blocks" has an exact condition. `FileLayer` is file_write: it puts
the whole stack together in one statement about every disk image that a write can leave behind.
`Mount` is log_init, from an image to a running file system, and `Mount.Reboot` closes the circle: any
image of an interrupted write starts a kernel again. `Mount` also gives the image of a new disk, so
that the invariants have a first state.

**Names** (`NameSpec`, `Namespace`, `DirCodec`, `PathSpec`, `InodeCache`, `PathWalk`). Directories as
slots of entries, the bytes that hold the slots, link counts, create, link, unlink, the slots of the
inode cache, and path resolution as a fold. `Namespace` works on the tree alone; `DirSpec` reads that
tree from the sectors, and `DirLayer` runs the same system calls on the blocks, each as one transaction
whose every disk image boots to the old tree or to the new one. `Format` makes the root directory of a
new disk.

**Concurrency of the cache** (`SharedCache`). The buffer cache, the disk queue and the disk interrupt
as a state machine over the regions under `bcache.lock` and `ide_lk`, in every interleaving.

**Memory manager** (`MemoryMap`, `Quota`, `PageAlloc`, `PageTable`, `Vmm`, `UserCopy`, `ElfLoad`).
From the firmware's memory map to the page allocator, quotas that form a tree, two-level page tables
that live in the pages they manage, copying to and from user memory, and loading an executable.

**Threads** (`ThreadQueue`, `SchedSpec`, `Scheduler`, `SleepWakeup`). Index-linked queues, the
scheduler on one CPU, and thread_sleep against thread_wakeup one lock step at a time.

Conventions. `KERN_PANIC` stops the kernel: where a caller's mistake leads to it, the model demands
the opposite (and callers are proved to comply); where the world does ("out of blocks", "no
inodes"), the method returns `None` or `Stopped`, says when that happens, and promises that the
trace is still safe. A region under a spinlock is one step, except in `SleepWakeup`, which is about
the locks themselves. Page table entries are packed by arithmetic (`page * 4096 + permissions`),
which is what the shifts and masks of 32-bit paging compute (section 4.3 of volume 3 of the Intel
Software Developer's Manual).

Seven things the code does not always do, each with the exact condition under which it does:

- `container_can_consume` adds in 32 bits and can accept a request that does not fit
  (`Quota.CanConsumeExact`, `Quota.CanConsumeWraps`); the split that follows keeps the accounts right
  if and only if the request does fit (`Quota.SplitExact`, `PageAlloc.Pmm.Spawn`).
- container_free keeps the accounts right if and only if the page is free or the caller's own
  (`PageAlloc.Pmm.ContainerFree`, `Quota.FreeOfAnothers`).
- pt_copyin, pt_copyout, pt_memset and elf_load ignore that alloc_page has failed and go on with the
  physical page that the entry names, which is page 0 if it is empty. The process has the bytes
  afterwards if and only if its quota covers the pages and page tables that are missing
  (`UserCopy.CopyOut`, `UserCopy.CopyIn`, `UserCopy.MemSet`, `ElfLoad.Load`).
- The range check of pt_copyin and pt_copyout adds in 32 bits as well
  (`UserCopy.RangeOkExact`, `UserCopy.RangeWraps`).
- One pass of pmmap_merge can leave regions that touch (`MemoryMap.MergeOnce`,
  `MemoryMap.MergeNeighbours`); it leaves none if and only if the regions that touch are neighbours in
  the list and come in pairs (`MemoryMap.MergeSettles`). It always keeps the coverage
  (`MemoryMap.MergeCovers`).
- create and link keep the link counts right if and only if the directory they write to is itself
  still linked; a directory that was removed while it was somebody's working directory is not
  (`Namespace.Tree.Create`, `Namespace.Tree.Link`, `Namespace.DeadDirectory`; on the disk
  `DirLayer.SysLink`, `DirLayer.SysCreate`).
- An inode without links is freed by its last reference. After a crash there are no references, and what
  has lost its last link by then is never found or freed again (`PathWalk.UnlinkLeaks`,
  `PathWalk.Walker.constructor`).

## Model

| member | source | states |
|---|---|---|
| `BufCache.Cache.constructor` | kern/fs/bufcache.c:40-56 | The ring links all buffers; nothing is cached, busy or dirty; the trace is the initial disk |
| `BufCache.Cache.Lookup` | kern/fs/bufcache.c:69-81 | The scan from the head finds the one buffer of a sector, or none if it is not cached |
| `BufCache.Cache.Victim` | kern/fs/bufcache.c:83-93 | The scan from the tail finds the recyclable buffer behind which no other in the ring is recyclable; none only if no buffer is |
| `BufCache.Cache.Read` | kern/fs/bufcache.c:63-109 | Returns a held buffer with the current contents of the sector; fails exactly when it is not cached and all buffers are busy or dirty; no other buffer and no disk sector changes |
| `BufCache.SomeRecyclable` | kern/fs/bufcache.c:83-93 | With fewer than NBUF sectors busy or dirty there is a buffer to recycle, so "no buffers" cannot happen |
| `BufCache.Cache.IdeRw` | kern/dev/disk/ide.c:118-147 | A dirty buffer is written and becomes clean, any other is read; exactly one disk image is added to the trace by a write |
| `BufCache.Cache.Write` | kern/fs/bufcache.c:114-121 | The held data becomes the sector's disk contents in one step, and the cache stays coherent |
| `BufCache.Cache.MarkDirty` | kern/fs/log.c:173-173 | The buffer is dirty, so it will not be recycled, while the disk keeps the old contents |
| `BufCache.Cache.Release` | kern/fs/bufcache.c:127-145 | The buffer is not busy and moves to the front of the ring, the others keep their order |
| `BufCache.CleanView` | kern/fs/bufcache.c:16-21 | Whatever is neither busy nor dirty is seen through the cache as it is on disk |
| `LogSpec.HeadRoundTrip` | kern/fs/log.c:84-109 | Reading the header that write_head encodes gives back the sector list |
| `LogSpec.Reinstalled` | kern/fs/log.c:69-81 | Installing again after installing any first part gives the same disk |
| `LogSpec.RecoveryRestarts` | kern/fs/log.c:111-117 | After a crash at any point of a recovery, a complete recovery gives the disk of an uninterrupted one |
| `LogSpec.RecoveryIsIdempotent` | kern/fs/log.c:69-117 | The same for any number of crashes at any points, and the log header is empty afterwards |
| `LogSpec.NothingCommitted` | kern/fs/log.c:111-117 | Without a commit record recovery changes no sector outside the log |
| `LogSpec.CommittedImage` | kern/fs/log.c:129-136 | Once the header is on disk, every later image of the commit recovers to the whole transaction |
| `LogSpec.CommittedHome` | kern/fs/log.c:69-109 | With the header written, recovery leaves each logged sector with its logged data and all others unchanged |
| `LogSpec.CommittedOldOrNew` | kern/fs/log.c:129-136 | From the commit record on, every sector outside the log holds its old or its new contents on disk, never a third version |
| `LogSpec.RecoveredWord` | kern/fs/log.c:69-94 | Recovery by the words on disk: the header's first word is the number of log blocks, word 1 + i is where block i belongs, and that sector gets log block i unless a later one is for it too |
| `LogSpec.RecoveredRest` | kern/fs/log.c:69-117 | A sector that no word of the header names stays as it is, and the first word of the header is 0 afterwards |
| `RedoLog.Log.InstallTrans` | kern/fs/log.c:69-81 | Copies every logged block home; the trace grows by exactly the images of the specification, one per sector |
| `RedoLog.Log.ReadHead` | kern/fs/log.c:84-94 | The in-memory header is what the disk says, and nothing is written |
| `RedoLog.Log.WriteHead` | kern/fs/log.c:98-109 | One sector write puts the in-memory header on disk |
| `RedoLog.Log.RecoverFromLog` | kern/fs/log.c:111-117 | Disk and trace are those of the specification's recovery; the file system then sees the recovered sectors |
| `RedoLog.Log.BeginTrans` | kern/fs/log.c:119-127 | The transaction starts from the committed state |
| `RedoLog.Log.LogWrite` | kern/fs/log.c:152-174 | The transaction sees the new data, the sector is logged once however often it is written, and every image still recovers to the state before the transaction |
| `RedoLog.Log.TraceSafe` | kern/fs/log.c:152-174 | Every disk image since the transaction began holds, outside the log, exactly the state before it, and recovers to it |
| `RedoLog.Log.LoggedIsView` | kern/fs/log.c:152-174 | The committed state with the logged blocks applied is what the transaction sees |
| `RedoLog.Log.ChangedLogged` | kern/fs/log.c:152-174 | The transaction sees the committed state in every sector that it has not logged |
| `RedoLog.Log.CommitTrans` | kern/fs/log.c:129-142 | Every disk image from the header write on recovers to the whole transaction and mixes no third version of a sector in; afterwards the log is empty and the transaction's view is the committed state |
| `Layout.InodeArea` | kern/fs/dinode.h:21-34 | Inode blocks lie before the bitmap, the bitmap before the data, the data before the log |
| `Layout.MarkedUsed` | kern/fs/dinode.h:29-34 | Setting a block's bit changes that block's bit and no other, across bytes and bitmap blocks |
| `Layout.BitmapBit` | kern/fs/dinode.h:29-34 | Block b is in use iff bit b % 8 of byte b % 4096 / 8 of sector b / 4096 + ninodes / 8 + 3 is set |
| `Layout.InodeRoundTrip` | kern/fs/dinode.h:11-18 | Decoding an encoded inode gives it back |
| `Layout.InodeStored` | kern/fs/inode.c:63-78 | Storing one inode in its block leaves its neighbours alone |
| `Layout.InodeBytes` | kern/fs/dinode.h:11-27 | Where inode i is: 64 bytes from byte 64 * (i % 8) of sector i / 8 + 2, and which of them are type, major, minor, link count, size and the thirteen addresses, low byte first |
| `Bytes.LittleEndian` | kern/fs/dinode.h:11-18 | A word on disk is its four bytes, the lowest first, and its halves are the two 16-bit fields |
| `Ownership.SingleReference` | kern/fs/block.c:31-73 | No block is referenced by two slots of inodes or table blocks |
| `Ownership.MarkedWrite` | kern/fs/block.c:31-73 | Marking a block used or free moves it between "free" and "in transit" and touches nobody's reference |
| `Ownership.Attached` | kern/fs/inode.c:232-242 | A block in transit stored in an empty inode slot gets that one owner |
| `Ownership.AttachedIndirect` | kern/fs/inode.c:243-249 | The same for an entry of the table block |
| `Ownership.Detached` | kern/fs/inode.c:270-275 | Clearing a direct slot puts exactly its block in transit |
| `Ownership.DetachedTable` | kern/fs/inode.c:277-287 | Clearing the table slot puts the table block and exactly the blocks it lists in transit |
| `Ownership.OwnerIs` | kern/fs/dinode.h:11-18 | A block belongs to an inode iff it is one of its thirteen addresses or one of the 128 words of the block that the last address names |
| `InodeLayer.Fs.ReadSuper` | kern/fs/block.c:10-17 | Returns what the super block says and leaves nothing held |
| `InodeLayer.Fs.BlockZero` | kern/fs/block.c:20-28 | The block is all zeros, logged, and no other sector has changed |
| `InodeLayer.Fs.BlockAlloc` | kern/fs/block.c:31-55 | Returns a data block that was free and had no owner, marked used and zeroed; fails only if every block is used |
| `InodeLayer.Fs.BlockFree` | kern/fs/block.c:58-73 | Clears exactly the bit of a used block |
| `InodeLayer.Fs.Bmap` | kern/fs/inode.c:227-255 | Returns the block of the slot, allocating it and the table block if they are missing; no owned block and no other reference changes; what it takes was needed, and it fails only if no block is free and one is missing |
| `InodeLayer.Fs.InodeUpdate` | kern/fs/inode.c:63-78 | The inode on disk equals the one in memory: the 64 bytes of its struct dinode, byte by byte, hold the fields of the inode in memory |
| `InodeLayer.Fs.InodeLock` | kern/fs/inode.c:133-162 | The fields of the inode in memory are those that the 64 bytes of its struct dinode hold, byte by byte, and nothing changes |
| `InodeLayer.Fs.InodeRead` | kern/fs/inode.c:308-331 | Returns exactly the file's bytes from off, cut at its end, each read through the inode's addresses from the sectors; refused iff off is past the end or off + n wraps; nothing changes |
| `InodeLayer.Fs.InodeWrite` | kern/fs/inode.c:336-365 | The flat file is the old one with the bytes spliced in at off, other files are unchanged, there are no holes, and the on-disk inode equals the one in memory; refused iff off is past the end or off + n exceeds 71680 bytes; a write that is not refused stops iff there are fewer free blocks than it has missing ones; logs at most its blocks, the table block, the inode and the bitmap |
| `InodeLayer.Fs.InodeTrunc` | kern/fs/inode.c:264-291 | The file is empty, size and all thirteen addresses are 0; exactly the blocks that its addresses and its table block named are free now, every other bit of the bitmap and every other file is unchanged; "freeing free block" is unreachable |
| `InodeSpec.FreedBlocks` | kern/fs/inode.c:264-291 | A block is in use after truncation iff it was and the inode's addresses did not lead to it |
| `InodeSpec.RefusedExact` | kern/fs/inode.c:336-349 | The two 32-bit tests of inode_write refuse exactly the writes that begin past the end of the file or end past 71680 bytes |
| `InodeSpec.WrittenBytes` | kern/fs/inode.c:336-365 | A write byte by byte: byte p of the file, found through the addresses on disk, is the source's inside the span and the old one outside; the size is the larger of the old size and the span's end |
| `FileSpec.FileBytes` | kern/fs/inode.c:227-255 | Byte p of the flat file is byte p % 512 of the sector in address p / 512, the first twelve in the inode, the next 128 in the block that the thirteenth names |
| `FileSpec.ProgressWrite` | kern/fs/inode.c:352-358 | One turn of the copy loop extends the written prefix and changes no other byte of any file |
| `FileSpec.ProgressDone` | kern/fs/inode.c:336-365 | A complete loop is the splice of the source into the flat file |
| `FileSpec.ProgressOther` | kern/fs/inode.c:336-365 | A write in progress leaves every other file's contents alone |
| `FreeSpace.SpareIsFree` | kern/fs/block.c:31-55 | The data blocks without an owner are exactly the blocks whose bit is clear |
| `FreeSpace.FitsExact` | kern/fs/block.c:31-55 | There are blocks for n bytes at off iff at least as many bits of the bitmap are clear as addresses of the span are 0, the address of the table block among them if the span reaches past block 11 |
| `FreeSpace.GainBlock` | kern/fs/inode.c:232-249 | A block that becomes block bn of a file leaves "free blocks less missing blocks" as it was, for every span around bn |
| `FreeSpace.GainTable` | kern/fs/inode.c:240-242 | The same for the table block on the way to an indirect block |
| `FreeSpace.WrittenRoom` | kern/fs/inode.c:352-363 | A write that has ended shows that there were enough free blocks for it at the start |
| `FreeSpace.EnoughFree` | kern/fs/inode.c:352-358 | One free block more than the bytes span is enough for every write |
| `FreeSpace.OneBlockLess` | kern/fs/sysfile.c:408-420 | The block of a new directory is one that the entry in its parent then does not find, and no other need changes |
| `FreeSpace.LoopLogged` | kern/fs/inode.c:352-358 | The copy loop logs nothing but the bitmap, the table block and the blocks of its span, and takes no block from anybody |
| `FileLayer.ChunkFits` | kern/fs/file.c:125-131 | If the empty log has room for the bitmap and six sectors, a chunk spans at most four data blocks, and log and cache have room for them, the table block and the inode |
| `FileLayer.LogFits` | kern/fs/log.c:152-163 | The empty log has room for the bitmap and k sectors iff they are fewer than LOGSIZE and than nlog - 1; so with a one-block bitmap the calls with k = 6 need nlog >= 9, and mkdir with k = 7 needs nlog >= 10 |
| `FileLayer.OneBitmapBlock` | kern/fs/dinode.h:29-34 | The bitmap is one block iff the disk has at most one block's worth of bits |
| `FileLayer.WriteChunk` | kern/fs/file.c:138-143 | One transaction of at most six changed sectors besides the bitmap: the disk images boot to the state before it, and from the commit on to the whole chunk written; stores the chunk iff it is not refused and there are blocks for it |
| `FileLayer.WrittenTwice` | kern/fs/file.c:133-150 | Consecutive writes are one write of the concatenation |
| `FileLayer.ReachStep` | kern/fs/file.c:133-150 | The loop is refused right after the last chunk that ends within the largest file, and never before |
| `FileLayer.ReachExact` | kern/fs/file.c:118-155 | In numbers: all of it if it ends within 71680 bytes, otherwise the whole chunks of 1536 bytes that do, and nothing if the file is not writable or off is past its end |
| `FileLayer.FileWrite` | kern/fs/file.c:118-155 | Returns n if off is inside the file and the end within the largest file, -1 otherwise; stops in between iff the free blocks do not cover what the accepted bytes still need; the offset moves by exactly the accepted bytes, and each of these is found on disk through the inode's addresses, as is every old byte; every disk image on the way boots to a consistent file system in which the file has whole chunks of the data (or all of it), never fewer than an earlier image, and nothing else differs |
| `FileLayer.EndTrans` | kern/fs/log.c:129-142 | Committing ends a transaction: its images boot to the state before it, and from the commit record on to the whole of it |
| `Mount.Mount` | kern/fs/log.c:54-66 | From any image with a super block and a readable log whose recovered sectors are a consistent file system: a running file system with exactly those sectors, whose size, inode count and log length are words 0, 2 and 3 of sector 1; a crash while mounting changes nothing |
| `Mount.Reboot` | kern/fs/log.c:54-66 | Every image that file_write can leave behind starts a kernel again, with the file as it was or with whole chunks of the data in it |
| `Mount.NewDiskState` | kern/fs/dinode.h:23-41 | Sectors in which only the root inode is in use and only metadata and log blocks are marked are a consistent file system |
| `Mount.NewImage` | kern/fs/dinode.h:23-41 | A disk with these sectors and an empty log can be mounted |
| `SharedCache.StartInv` | kern/fs/bufcache.c:40-56 | The state after bufcache_init satisfies the cache invariant |
| `SharedCache.NextKeeps` | kern/fs/bufcache.c:63-145 | Every step of every thread and every disk interrupt keeps the cache invariant |
| `SharedCache.RecycleKeeps` | kern/fs/bufcache.c:83-91 | Giving an idle clean buffer to another sector loses nothing |
| `SharedCache.InterruptKeeps` | kern/dev/disk/ide.c:84-111 | Completing the request at the head, and starting the next, keeps disk, queue and buffers consistent |
| `SharedCache.Exclusive` | kern/fs/bufcache.c:63-145 | After every run: at most one buffer per sector, exactly one holder for a busy buffer and none for another |
| `SharedCache.SeesLastRelease` | kern/fs/bufcache.c:58-109 | After every run: a holder that has not changed its buffer sees what was last released for that sector |
| `SharedCache.SeesLastStore` | kern/fs/bufcache.c:58-145 | After every run: whoever has been given the buffer of a sector sees what anybody stored there last, or the first contents of the disk; without a buffer, or with an idle clean one, the disk has it |
| `SharedCache.CurrentKept` | kern/dev/disk/ide.c:84-147 | Every step but a store keeps the value of every sector, wherever it is: in the buffer, on its way to the disk, or on the disk |
| `SharedCache.NothingLost` | kern/fs/log.c:152-174 | After every run: data that was released and is not on disk is in a buffer, which is dirty while idle |
| `SharedCache.IdleCleanIsDisk` | kern/fs/bufcache.c:16-21 | After every run: an idle clean buffer equals the disk |
| `SharedCache.RingFront` | kern/fs/bufcache.c:132-139 | The ring holds every buffer once, in the order of their last release |
| `SharedCache.RecyclesOldest` | kern/fs/bufcache.c:83-91 | The buffer that is recycled was released no later than any other idle clean one |
| `SharedCache.GetFires` | kern/fs/bufcache.c:63-97 | bufcache_get goes through if the buffer of the sector is idle, and without a buffer if any buffer is idle and clean |
| `SharedCache.HolderFires` | kern/dev/disk/ide.c:84-147 | A busy buffer is never stuck: it is in the disk queue and an interrupt can come, or it has a holder who can read it, or mark and release it |
| `NameSpec.EntriesPut` | kern/fs/dir.c:47-79 | Linking a new name adds one binding to the directory's map |
| `NameSpec.EntriesCleared` | kern/fs/sysfile.c:355-357 | Clearing a slot removes one binding |
| `NameSpec.AddLinkKeeps` | kern/fs/sysfile.c:276-290 | A link made in a live directory keeps every link count equal to the number of entries |
| `NameSpec.AddLinkBreaks` | kern/fs/sysfile.c:276-290 | In an unlinked directory it does not |
| `NameSpec.MakeDirKeeps` | kern/fs/sysfile.c:399-420 | A new directory in a live directory keeps counts, dots and the tree in order |
| `NameSpec.MakeDirBreaks` | kern/fs/sysfile.c:399-420 | In an unlinked directory it does not |
| `NameSpec.EmptyDirRefs` | kern/fs/sysfile.c:308-320 | A directory with nothing after its dots has exactly one link, its entry in its parent |
| `NameSpec.NamedHasLinks` | kern/fs/sysfile.c:348-349 | Whatever a live directory names has links, so "unlink: nlink < 1" cannot happen |
| `NameSpec.DropFileKeeps` | kern/fs/sysfile.c:355-366 | Unlinking a file keeps the tree in order |
| `NameSpec.DropDirKeeps` | kern/fs/sysfile.c:355-366 | Unlinking an empty directory takes its last link, leaves its parent live and the tree in order |
| `NameSpec.ReclaimKeeps` | kern/fs/inode.c:185-203 | Freeing an inode without links keeps the tree in order |
| `Namespace.Tree.constructor` | kern/fs/dinode.h:11-18 | A root directory alone is in order |
| `Namespace.Tree.DirLookup` | kern/fs/dir.c:18-44 | Finds the entry of a name and its slot; none iff there is none |
| `Namespace.Tree.DirLink` | kern/fs/dir.c:47-79 | Refused iff the name is taken; otherwise the first empty slot, or one more, has the entry and nothing else changes |
| `Namespace.Tree.IsDirEmpty` | kern/fs/sysfile.c:308-320 | True iff every slot after the two dots is empty |
| `Namespace.Tree.InodeAlloc` | kern/fs/inode.c:35-58 | Takes an unused inode; fails iff there is none |
| `Namespace.Tree.Create` | kern/fs/sysfile.c:380-422 | An existing file is returned, any other existing name refused; otherwise the map gains the name, and the tree stays in order iff the directory is still linked |
| `Namespace.Tree.Link` | kern/fs/sysfile.c:253-303 | Succeeds iff the target is no directory and the new name is free in an existing directory; on failure the undo leaves everything as it was; the tree stays in order iff the directory is still linked |
| `Namespace.Tree.Unlink` | kern/fs/sysfile.c:322-378 | Succeeds iff the entry exists and is neither a dot nor a directory in use; the map loses exactly that name and the tree stays in order, always |
| `Namespace.Tree.InodePut` | kern/fs/inode.c:185-203 | Frees the inode iff it has no links, and the tree stays in order |
| `Namespace.DeadDirectory` | kern/fs/sysfile.c:380-422 | mkdir d, unlink d, create in d: from an orderly tree to a wrong link count |
| `DirCodec.EntryRoundTrip` | kern/fs/dir.h:9-12 | Decoding the 16 bytes of an entry gives the entry back |
| `DirCodec.EntryBytes` | kern/fs/dir.h:9-12 | Entry k is in bytes 16 * k to 16 * k + 15: the inode number in the first two, low byte first, then the name, ended by a zero byte if it is shorter than 14 |
| `DirCodec.NoEntryIsZeros` | kern/fs/sysfile.c:355-357 | The zeroed entry that sys_unlink writes is the empty slot |
| `DirCodec.SlotWritten` | kern/fs/dir.c:72-76 | Writing an entry at its offset changes one slot of the directory, or appends one |
| `DirCodec.DirectoryWritten` | kern/fs/dir.c:72-76 | inode_write of an entry is that change of one slot, and no other directory changes |
| `DirSpec.WrittenTree` | kern/fs/dir.c:72-76 | inode_write of an entry changes one slot of one node of the tree that the sectors hold |
| `DirSpec.LabelledTree` | kern/fs/inode.c:63-78 | inode_update with a new link count changes that count in the tree and nothing else |
| `DirLayer.DirLookup` | kern/fs/dir.c:18-44 | Reading the directory from its blocks finds the entry of a name and its slot, none iff there is none; nothing changes |
| `DirLayer.DirLink` | kern/fs/dir.c:47-79 | Refused iff the name is taken; otherwise the tree has the entry in the first empty slot, or one more; stops iff that slot lies past the largest file or there is no block for it |
| `DirLayer.IsDirEmpty` | kern/fs/sysfile.c:308-320 | True iff every entry after the two dots is empty on disk |
| `DirLayer.InodeAlloc` | kern/fs/inode.c:35-58 | The first free inode on disk is marked with the type and empty; stops iff there is none |
| `DirLayer.PutInode` | kern/fs/inode.c:185-203 | The last reference to an inode without links empties and frees it: the tree loses that node and nothing else |
| `DirLayer.DotsLogged` | kern/fs/sysfile.c:408-415 | The two dots of a new directory cost the log at most two sectors more than its inode |
| `DirLayer.SysLink` | kern/fs/sysfile.c:253-303 | One transaction: the disk images boot to the old sectors and then to the new ones; done iff the target is no directory and the name is free in the directory; then the directory's names are the old ones and the new one for the target, whose link count is one more, and every other file is the same on disk; declined, every file is the same; an orderly tree stays so iff the directory is still linked; stops iff the directory is full or there is no block for the entry |
| `DirLayer.SysUnlink` | kern/fs/sysfile.c:322-378 | One transaction: the disk images boot to the old sectors and then to the new ones; done iff the name is there and is neither a dot nor a directory with entries after its dots; then the directory's names are the old ones without it; what it stood for has one link less and the same bytes, or, with the last link and reference, type 0 and all its blocks free; every other file is the same on disk; declined, every file is; the tree stays in order; never stops |
| `DirLayer.UnlinkableIs` | kern/fs/sysfile.c:331-353 | What may be unlinked, from the directory's bytes: a name that is there, is no dot, and stands for no directory with an entry after its dots |
| `DirLayer.SysCreate` | kern/fs/sysfile.c:380-422 | One transaction, for files and for directories: the disk images boot to the old sectors and then to the new ones; if the name is new, the directory's names gain it for an inode that was free and now has the type, one link, and no bytes or the two dots, and every other file is the same on disk; a taken name changes nothing, and gives the inode if a file was asked for and is there, and none otherwise; an orderly tree stays so iff the directory is still linked; stops iff the name is new and there is no free inode, the directory is full, or there are too few free blocks for the entry and, for mkdir, the block of the new directory |
| `Format.MakeRoot` | kern/fs/sysfile.c:411-415 | The dots of the root of a new disk, written through dir_link: a file system whose tree is in order |
| `Format.BootsMountable` | kern/fs/log.c:54-66 | What boots to a consistent file system can be mounted as that file system |
| `PathSpec.SplitJoin` | kern/fs/path.c:24-40 | Splitting at slashes loses nothing and leaves no slash |
| `PathSpec.SpelledElems` | kern/fs/path.c:24-40 | A path spelled as segments with slashes around them asks for the first thirteen characters, or fewer, of each segment in turn |
| `PathSpec.SpellingOf` | kern/fs/path.c:24-40 | Every path has such a spelling |
| `PathSpec.NameiParent` | kern/fs/path.c:123-139 | Resolving a path is resolving its parent and then its last name there |
| `PathWalk.NameiExact` | kern/fs/path.c:80-121 | A path leads to an inode iff there is a trail of directory entries with its names, from the start to that inode |
| `PathWalk.ParentExact` | kern/fs/path.c:102-105 | The parent is the directory at the end of the trail with all names but the last |
| `PathWalk.NameiStops` | kern/fs/path.c:94-96 | The walk locks an inode without a type iff a trail with some of the names leads to one |
| `PathWalk.SkipElem` | kern/fs/path.c:41-72 | Returns the first maximal non-slash segment cut to 13 characters and a shorter rest with the remaining segments; fails iff there is none |
| `PathWalk.PathLinked` | kern/fs/path.c:80-121 | No path from the root, or from anything linked, leads to an inode without links |
| `PathWalk.UnlinkLeaks` | kern/fs/sysfile.c:355-366 | Unlinking the last link of an inode that is still open leaves it with a type, and no path leads to it |
| `InodeCache.Find` | kern/fs/inode.c:91-104 | The scan finds the inode's own slot, or else a free one; none iff the inode has no reference and every slot is taken |
| `InodeCache.NotFull` | kern/fs/inode.c:91-104 | With two slots left, one more reference does not fill the cache |
| `PathWalk.Walker.constructor` | kern/fs/inode.c:24-27 | No slot has a reference; the inodes without links are lost, and every operation below keeps them as they are |
| `PathWalk.Walker.Get` | kern/fs/inode.c:85-115 | One more reference to that inode, and as many to every other; a recycled slot is not valid; stops iff the inode has no slot and none is free |
| `PathWalk.Walker.Dup` | kern/fs/inode.c:121-127 | One more reference through the same slot |
| `PathWalk.Walker.Lock` | kern/fs/inode.c:133-162 | The slot is valid and no reference changes; stops iff the inode has no type |
| `PathWalk.Walker.Put` | kern/fs/inode.c:185-203 | One reference less; the inode is freed iff it was the last one and there are no links, because an inode without links that somebody refers to is always valid |
| `PathWalk.Walker.Namex` | kern/fs/path.c:80-121 | A path that starts with '/' gives the fold of lookup from inode 1 over the names after it; an empty path or one with another first character, the fold from the current directory; for nameiparent over all names but the last; one more reference to the result and none to any other inode, on every exit; the file system is unchanged; with two free slots it never stops at "no inodes" |
| `MemoryMap.Insert` | kern/dev/mboot.c:55-79 | The list stays sorted by start, gains exactly the region, and covers exactly that much more |
| `MemoryMap.MergeInPlace` | kern/dev/mboot.c:81-99 | The in-place pass computes the specification's merge |
| `MemoryMap.MergeCovers` | kern/dev/mboot.c:81-99 | Merging keeps the coverage of each type exactly |
| `MemoryMap.MergeContains` | kern/dev/mboot.c:81-99 | Merging tears no region apart: each lies in one of the merged regions of its type |
| `MemoryMap.MergeSorted` | kern/dev/mboot.c:81-99 | Merging keeps the list sorted and in bounds |
| `MemoryMap.MergeOnce` | kern/dev/mboot.c:81-99 | One pass can leave two regions that could still be merged |
| `MemoryMap.MergeNeighbours` | kern/dev/mboot.c:81-99 | So it can when a region of another type lies between them |
| `MemoryMap.MergeSettles` | kern/dev/mboot.c:81-99 | For a sorted list, one pass leaves no two regions that could be merged iff the regions that touch are neighbours and none touches two others |
| `MemoryMap.ClampExact` | kern/dev/mboot.c:154-164 | The clamped region is the reported one below the last byte of 4 GB, with the same start and the smaller end |
| `MemoryMap.PmmapInit` | kern/dev/mboot.c:134-173 | The list covers exactly what the firmware reported below the last byte of 4 GB, type by type; every entry lies in one region as a whole |
| `MemoryMap.Usable` | kern/pmm/MATInit/MATInit.c:80-93 | True iff the first region that contains the whole page is RAM |
| `MemoryMap.CountPages` | kern/pmm/MATInit/MATInit.c:38-50 | The number of whole pages below the highest region's end |
| `MemoryMap.PmemInit` | kern/pmm/MATInit/MATInit.c:21-101 | The permission of every page up to the highest reported end: 1 for kernel pages, 2 only for user pages every byte of which was reported as RAM, and 2 for every user page that lies in one RAM entry and in no part in an entry of another type, or, if merging has left no regions that touch, was reported as RAM and nothing else in any number of entries |
| `MemoryMap.Boot` | kern/pmm/MContainer/MContainer.c:22-55 | Every page the allocator can ever hand out is a user page wholly in reported RAM, every user page that lies in one RAM entry and in none of another type is among them, and the root container's quota is their number |
| `PageAlloc.Pmm.constructor` | kern/pmm/MContainer/MContainer.c:22-55 | The root container's quota is the number of usable pages |
| `PageAlloc.CountNormal` | kern/pmm/MContainer/MContainer.c:31-42 | The counting loop counts the usable pages |
| `PageAlloc.Pmm.Palloc` | kern/pmm/MATOp/MATOp.c:27-63 | Returns the first free page after the last one in circular order and marks it: of the free pages from the last one up the lowest, or if there is none the lowest of all; 0 iff no page is free; terminates |
| `PageAlloc.Pmm.Pfree` | kern/pmm/MATOp/MATOp.c:73-78 | Exactly that page is free again |
| `PageAlloc.Pmm.ContainerAlloc` | kern/pmm/MContainer/MContainer.c:129-143 | Returns 0 iff the container's own quota is used up, never because no page is left; otherwise a page nobody had |
| `PageAlloc.Pmm.ContainerFree` | kern/pmm/MContainer/MContainer.c:146-158 | The page is nobody's and the caller's usage drops by one; the accounts stay right iff the page was free or the caller's own |
| `PageAlloc.Pmm.ContainerSplit` | kern/pmm/MContainer/MContainer.c:94-122 | The child's id was unused and is 3 * id + 1 + children; within the parent's quota the child has the quota and the parent that much more usage and one more child, and no other container changes; the accounts stay right iff the parent has it |
| `PageAlloc.Pmm.Spawn` | kern/trap/TSyscall/TSyscall.c:96-110 | For every 32-bit request: refused iff children or ids run out or the sum exceeds the quota without coming round; the accounts stay right iff it is refused or fits |
| `Quota.RoomForAll` | kern/pmm/MContainer/MContainer.c:129-143 | While any container is below its quota, fewer pages are allocated than exist |
| `Quota.UsageIsPages` | kern/pmm/MContainer/MContainer.c:94-158 | Conservation: the usage of all containers, less the quotas of all containers but the root, is the number of allocated pages |
| `Quota.AllHanded` | kern/pmm/MContainer/MContainer.c:94-122 | What all containers have handed to their children is the sum of the quotas of all containers but the root |
| `Quota.AllocKept` | kern/pmm/MContainer/MContainer.c:129-143 | Allocating below the quota keeps the accounts |
| `Quota.FreeKept` | kern/pmm/MContainer/MContainer.c:146-158 | Freeing keeps the accounts |
| `Quota.FreeBreaks` | kern/pmm/MContainer/MContainer.c:146-158 | Freeing somebody else's page breaks them |
| `Quota.FreeOfAnothers` | kern/pmm/MContainer/MContainer.c:146-158 | Two containers and one page for which it does |
| `Quota.SplitKept` | kern/pmm/MContainer/MContainer.c:94-122 | Splitting within the quota keeps the accounts and the tree of ids |
| `Quota.SplitBreaks` | kern/pmm/MContainer/MContainer.c:88-122 | Splitting beyond the quota breaks them, whatever the 32-bit fields then hold |
| `Quota.SplitExact` | kern/pmm/MContainer/MContainer.c:88-122 | For every 32-bit request, splitting keeps the accounts iff the request fits the parent's quota |
| `Quota.SplitFields` | kern/pmm/MContainer/MContainer.c:94-122 | A split within the quota, field by field of every container |
| `Quota.ChildUnique` | kern/pmm/MContainer/MContainer.c:100-101 | Child ids of different parents or positions never collide |
| `Quota.CanConsumeExact` | kern/pmm/MContainer/MContainer.c:83-86 | The 32-bit comparison is right iff the sum does not come round to a value within the quota |
| `Quota.CanConsumeWraps` | kern/pmm/MContainer/MContainer.c:83-86 | A request for which it is wrong |
| `PageTable.SingleMapping` | kern/vmm/MPTKern/MPTKern.c:37-69 | No physical page serves two mappings |
| `PageTable.TablesNotMapped` | kern/vmm/MPTComm/MPTComm.c:43-59 | No physical page is both page table and mapped |
| `PageTable.DataWritten` | kern/vmm/MPTIntro/MPTIntro.c:80-87 | Writing to a page that is no page table, be it allocated or not, changes no translation |
| `PageTable.StoredOne` | kern/vmm/MPTIntro/MPTIntro.c:89-97 | Storing an entry changes one translation of one process |
| `PageTable.Mapped` | kern/vmm/MPTKern/MPTKern.c:37-52 | Mapping a fresh page keeps the roles of all pages apart |
| `PageTable.Unmapped` | kern/vmm/MPTKern/MPTKern.c:62-69 | So does unmapping |
| `PageTable.TableAdded` | kern/vmm/MPTComm/MPTComm.c:43-59 | A fresh, cleared page as page table changes no translation |
| `PageTable.TableRemoved` | kern/vmm/MPTComm/MPTComm.c:64-70 | Removing a page table removes the translations of its directory entry and no others |
| `Vmm.Mm.AllocPtbl` | kern/vmm/MPTComm/MPTComm.c:43-59 | An empty page table, paid from the quota; fails iff the quota is used up; no translation changes |
| `Vmm.Mm.MapPage` | kern/vmm/MPTKern/MPTKern.c:37-52 | Exactly one translation changes, to the page with its permissions; fails iff the page table is missing and cannot be paid |
| `Vmm.Mm.AllocPage` | kern/vmm/MPTNew/MPTNew.c:16-25 | A page nobody had is mapped there with the permissions, belongs to the process, and nothing else is translated differently; fails iff the usage and one page, or two if the directory entry is 0, exceed the quota, and then no translation changes |
| `Vmm.Mm.UnmapPage` | kern/vmm/MPTKern/MPTKern.c:62-69 | Returns the entry that was there, and exactly that translation is gone |
| `Vmm.Mm.FreePtbl` | kern/vmm/MPTComm/MPTComm.c:64-70 | The translations of the directory entry are gone, the table's page is free and no longer charged, nothing else changes; without a table nothing changes at all |
| `UserCopy.PokedState` | kern/lib/pmap.c:71-76 | Writing through an entry changes exactly those bytes of that process and of nobody else if the page is present, and no byte that anybody sees if it is not |
| `UserCopy.WalkIs` | kern/vmm/MPTOp/MPTOp.c:15-31 | The two steps of the translation: bits 31 to 22 select the directory entry, bits 21 to 12 the word of the page table that it names, bits 11 to 0 the byte of the page that the word names |
| `UserCopy.EnsurePage` | kern/lib/pmap.c:64-69 | The page is present iff it was or the quota covers it and the table it needs; at most this one page was added, writable and the user's, and paid for; no visible byte changed |
| `UserCopy.NeedPaid` | kern/vmm/MPTNew/MPTNew.c:16-25 | alloc_page consumes at least what it makes no longer missing, for every set of pages |
| `UserCopy.CopyOut` | kern/lib/pmap.c:53-85 | Nothing happens if a range check fails; otherwise all is reported as copied, and the process sees the source iff its quota covers the missing pages and tables of the span, which are then exactly what it has consumed; in any case only missing pages of the span are added, writable and the user's, and no other byte or mapping of anybody changes |
| `UserCopy.CopyIn` | kern/lib/pmap.c:19-51 | The same for reading: the result is what the process has in the span iff its quota covers what is missing; no byte that was there changes |
| `UserCopy.MemSet` | kern/lib/pmap.c:87-112 | The same for filling a span with one value |
| `UserCopy.OutAndIn` | kern/lib/pmap.c:19-85 | If the quota covers the span, copying out and in again returns the same bytes, and the second copy consumes nothing |
| `UserCopy.MovedTwice` | kern/lib/pmap.c:19-85 | A span that is read back is the span that was written |
| `UserCopy.RangeOkExact` | kern/lib/pmap.c:53-59 | The 32-bit range check is right iff the span does not run past the top of the address space and end below the user's end |
| `UserCopy.KernelOkExact` | kern/lib/pmap.c:58-59 | Which kernel spans pass the second check |
| `UserCopy.RangeWraps` | kern/lib/pmap.c:53-59 | A span of 256 bytes for which it is wrong |
| `ElfLoad.PageBytes` | kern/lib/elf.c:58-72 | The three cases of the page loop produce the segment's image page by page |
| `ElfLoad.ImageHasContents` | kern/lib/elf.c:49-56 | The pages' image contains the file bytes at p_va and zeros up to p_memsz |
| `ElfLoad.LoadSegment` | kern/lib/elf.c:49-72 | If the quota covers what is missing, the segment's pages hold its image with its permissions; in any case only its pages are touched, and what is no longer missing has been paid for |
| `ElfLoad.Load` | kern/lib/elf.c:42-73 | Into a process without the pages of the segments: all their pages are present iff the quota covers them and the missing page tables, which are then exactly what has been consumed; byte p_va + k is then file byte p_offset + k below p_filesz and 0 up to p_memsz, and the entry of every page has bits 0 and 2 set and bit 1 iff the segment is writable; in any case only segment pages are added and no byte or mapping that was there changes |
| `ThreadQueue.QueuesDisjoint` | kern/thread/PTQueueIntro/PTQueueIntro.c:4-15 | No thread is in two queues or twice in one |
| `ThreadQueue.Queues.constructor` | kern/thread/PTQueueInit/PTQueueInit.c:8-18 | All queues are empty |
| `ThreadQueue.Queues.Enqueue` | kern/thread/PTQueueInit/PTQueueInit.c:26-41 | Appends to that queue and leaves the others alone |
| `ThreadQueue.Queues.Dequeue` | kern/thread/PTQueueInit/PTQueueInit.c:48-71 | Removes and returns the first; NUM_IDS iff empty |
| `ThreadQueue.Queues.Remove` | kern/thread/PTQueueInit/PTQueueInit.c:77-104 | Deletes the thread wherever it is in that queue and keeps the order of the rest |
| `ThreadQueue.Unlinked` | kern/thread/PTQueueInit/PTQueueInit.c:81-103 | Joining the neighbours leaves the linked queue of the others |
| `SchedSpec.StepKeeps` | kern/thread/PThread/PThread.c:33-154 | Every step keeps: the ready queue holds exactly the READY threads once each, the current thread is the only RUN thread, idle is not asleep |
| `SchedSpec.SomebodyReady` | kern/thread/PThread/PThread.c:123-126 | If the idle thread never sleeps, a sleeper never finds the ready queue empty |
| `SchedSpec.RunFifo` | kern/thread/PThread/PThread.c:33-154 | Over every run, threads are dispatched in the order in which they became ready |
| `SchedSpec.BoundedWaiting` | kern/thread/PThread/PThread.c:59-81 | The thread at position i of the ready queue is run by exactly the (i + 1)-th dispatch, whatever operations happen |
| `SchedSpec.DispatchCount` | kern/thread/PThread/PThread.c:59-136 | Every yield and every sleep dispatches once, nothing else does |
| `SchedSpec.SleeperKept` | kern/thread/PThread/PThread.c:141-154 | No step but a wakeup of its channel touches a thread that is asleep on it |
| `SchedSpec.SleeperWoken` | kern/thread/PThread/PThread.c:141-154 | A wakeup of its channel makes a sleeper ready, behind everybody who was ready before |
| `SchedSpec.SleepThenWake` | kern/thread/PThread/PThread.c:101-154 | Over every run: a thread that calls thread_sleep on a channel is asleep until the first thread_wakeup of that channel, whatever others do, and ready then |
| `Scheduler.Threads.constructor` | kern/init/init.c:32-41 | kern_main leaves the shell running and idle ready |
| `Scheduler.Threads.ThreadSpawn` | kern/thread/PThread/PThread.c:33-48 | A thread that did not exist, with the id that the container was given, becomes ready last and every other thread stays as it is, or nothing happens |
| `Scheduler.Threads.ThreadYield` | kern/thread/PThread/PThread.c:59-81 | The current thread becomes ready last, the first of the queue runs, and every other thread stays as it is |
| `Scheduler.Threads.SchedUpdate` | kern/thread/PThread/PThread.c:83-95 | Every SCHED_SLICE-th tick yields, the others do nothing |
| `Scheduler.Threads.ThreadSleep` | kern/thread/PThread/PThread.c:101-128 | The current thread is asleep on the given channel, the first of the ready queue runs, and every other thread stays as it is; the dequeue is never from an empty queue |
| `Scheduler.Threads.ThreadResume` | kern/thread/PThread/PThread.c:130-135 | The channel of the current thread is cleared and nothing else changes |
| `Scheduler.Threads.ThreadWakeup` | kern/thread/PThread/PThread.c:141-154 | Makes exactly the threads asleep on the channel ready, in order of their ids |
| `SleepWakeup.NextKeeps` | kern/thread/PThread/PThread.c:101-154 | Every lock step of every thread keeps the protocol's invariant |
| `SleepWakeup.OneHolder` | kern/thread/PThread/PThread.c:116-117 | In every interleaving each of the two locks has at most one holder |
| `SleepWakeup.NoLostWakeup` | kern/fs/log.c:119-142 | In every interleaving: a thread that is asleep although the condition was made true since it looked will be woken, because somebody who made it true has yet to call thread_wakeup |
| `SleepWakeup.WakeupReaches` | kern/fs/bufcache.c:67-80 | In every interleaving: a wakeup makes ready every thread that is committed to sleep on the channel and looked before the caller's change |
| `SleepWakeup.ReturnsLocked` | kern/thread/PThread/PThread.c:116-136 | In every interleaving: the first place that a thread comes to after thread_sleep is under lk, which it holds |

## Left out

- Boot code, assembly, traps, context switch registers, device drivers and the commands of the IDE ports: no abstract state; the disk is a map and the disk queue keeps only its order.
- Spinlocks themselves: a locked region is one step, and no claim is made about deadlock (sys_read and sys_write sleep with a spinlock held).
- More than one CPU, and disk errors: the code does not carry them through.
- `InodeLayer` and `FileLayer` are single-threaded; interleavings are treated in `SharedCache` for the cache and in `SleepWakeup` for waiting, not for whole file operations.
- In `InodeLayer`, `FileLayer` and `DirLayer` an inode in memory is a parameter that equals the inode table; the slots of the inode cache and their counts are treated in `PathWalk`, and waiting for a locked inode nowhere.
- Ownership.Bitmap: is part of every file system invariant and takes for granted that the image marks the blocks before the data and those of the log as used, as `Mount.NewDisk` does; the code relies on it and never checks it.
- `Namespace` has no largest directory and no largest link count.
- Namespace.Tree.Create: demands that some inode is unused if the name is new, because the code stops the kernel otherwise.
- DirLayer.SysLink: demands links on the file, and fewer than the 16-bit link count can hold, beyond which the code wraps; there is one device, and nameiparent has been done.
- DirLayer.SysUnlink: takes as a parameter whether there are other references to what the name stands for.
- DirLayer.SysCreate: demands inode numbers and, for mkdir, a link count that fit 16 bits, and a name other than ".." in a removed directory, whose parent may have been freed, on which the code stops; major and minor are 0, as both callers pass them.
- PathWalk.Walker.Lock: does not wait, because the walk is by one thread.
- BufCache.Cache.Read: a thread does not ask for a sector that it holds itself, because it would wait for itself for ever.
- UserCopy.CopyOut: spans that come round and pass the check (`UserCopy.RangeWraps`) are excluded, because what they do to the kernel's entries is not modelled.
- UserCopy.CopyIn: excludes the same spans as CopyOut.
- UserCopy.MemSet: demands a span in the user range, which the code does not check.
- Vmm.Mm.MapPage: demands a page that the caller has been given and not yet mapped, as alloc_page calls it; the code would map any page, and then two mappings could share it.
- ElfLoad.Load: takes the program headers as values; the parsing of the ELF header, its assertions and elf_entry are not modelled. The segments' pages are absent and no two segments share a page, as for a new process and a linked program; alloc_page would map a fresh page over one that is there.
- ElfLoad.LoadSegment: demands absent pages for the same reason.
- Vmm.Mm.constructor: starts from page directories without user entries; the loops of pdir_init, pdir_init_kern and idptbl_init that write the kernel's identity entries are not modelled.
- MemoryMap.PmmapInit: has no limit of 128 slots, and the lists by type (step 2 of pmmap_merge) are not kept.
- Scheduler.Threads.ThreadSleep: the idle thread does not call it, and lk is not null.
- Scheduler.Threads.ThreadSpawn: excludes a quota request whose 32-bit sum comes round and is granted; what that does to the accounts is `PageAlloc.Pmm.Spawn`.
- Scheduler.Threads.constructor: demands the 20000 free user pages that kern_main asks for; with fewer the code goes on with an id that does not exist.
- PathWalk.Walker.Get: demands an inode that is not lost, which is what every directory entry names that a walk can meet.
- T_DEV inodes, devsw, the file table and its reference counts, sys_read, sys_write, the rest of sys_open, sys_chdir, sys_ls, sys_pwd and argument handling: wrappers that would only add easy members.
- Console, printing, string routines, shell, user programs: user interface.
