# A verified model of the HexaOS kernel core

This project models, in Dafny, the parts of HexaOS that keep state and must not
lose it: the HEXAFS snapshot store, the kernel heap, the physical page allocator
and page tables, the task table with its scheduler, the blocking pipe, the user
table and the password records. Each operation that changes state in place is a
method of a class that holds the kernel's own arrays and fields; its contract
ties the new state to a function of the old one, and the theorems are proved
about those functions over all inputs, all runs and all crash points.

## What is proved

**HEXAFS is crash-atomic without a journal.** The disk is an array of 4096
sectors and one sector write is one atomic step. Power may fail after any prefix
of the writes of a save (`Snapshots.CrashAtomicity`): the next mount accepts the
superblock and loads exactly the old form table if the last write is missing,
exactly the new one if it is not, and in both cases every block of every
snapshot on the chain is marked used in the bitmap on disk. Over any history of
form saves, boots, and crashes in either (`History.SnapshotsAreImmutable`) no block
of an earlier snapshot is rewritten or freed and each still decodes to the forms it
was saved with. `History.SaveLoad` says what a load gives back for every table and
any free space, `Snapshots.SaveAddsSnapshotIff` when a save takes effect at all, and
`History.SaveLoadExact` that a table within the limits of the format comes back
unchanged. `History.MountIsSound` shows that a fresh volume is a starting point
for all of this, and `History.FormatCrash` that a crash at any write of making it
leaves one too.

**The kernel's own sequence.** Every boot ends with a commit that names no directory,
and every form save is followed by a save of the user table, which rewrites the live
directory in place. `Separation` adds that directories of different snapshots, and
the objects of one directory, share no block; `Traces` and `UserWrites` follow the
sectors such a rewrite writes, one by one. A crash in it leaves a sound store
exactly outside one window, from the write that names a new block to the first
bitmap sector (`UserWrites.UsersCrashIff`). `Lives.LifeKeepsStore` proves over every
sequence of form saves, boots, user-table saves, and crashes in all of them, that
the store stays sound as long as no crash falls into that window and no save runs
out of space inside it, hence each next form save is crash-atomic, and that a
snapshot whose directory was not live then is untouched. `Lifetime.SaveDataReload`
states exactly what the kernel finds after saving everything and rebooting, and
`Hints.LowestOverLife` that every block handed out in such a life is the lowest free
one.

**Below it** the write-through cache refines an uncached disk, the hinted
allocator refines a plain scan, objects keep their last write and never share
blocks, and one changed byte of a superblock is always noticed because 33 is
invertible modulo 2^32.

**The heap** keeps its headers inside the arena. Every call keeps the in-arena
list linked, tiled and coalesced, leaves other live payloads word for word, hands
out at most 16 bytes more than asked for, and a run whose payloads have all been
released is back at its single initial block.

**Page tables** refine a flat map per directory: mapping and unmapping change
one page's entry, and above 1 GB no other directory sees it.

**Tasks, pipes, records.** The scheduler's two passes pick the task they should,
waiting is bounded when the runnable tasks have equal priorities, every run keeps
the task table sound, every interleaving of readers and writers keeps the pipe's
bytes in order, a call that gets its turns returns, and the user table and password records survive their round trips.

Some expected properties do not hold of the code. Each has its exact condition:

- A directory takes entries only until it is linked: `Directory.AddEntryAppends`,
  with `Directory.LinkBreaksSeal` and `Directory.DirectoryTakesTwelve`.
- The first block after a format is the lowest one: `History.AllocAfterFormat`.
- A user table reported as saved can be loaded: `Users.UsersRoundTrip`.
- A save of the user table keeps the store sound: `UserWrites.UsersSoundIff`.
- A crash in a save of the user table leaves a sound store:
  `UserWrites.UsersCrashIff`.
- What was saved is found after every boot: `History.LoadsUntilBoot` for the forms and
  `Boots.UsersUntilBoot` for the user table; the first boot finds both and the second
  one does not, with the failing inputs in `History.SecondBootLoses` and
  `Boots.SecondBootLosesUsers`.
- A save of the form table takes effect: `Snapshots.SaveAddsSnapshotIff`.
- A page mapped with the user flag can be used from user mode: never, since no
  directory entry has the flag; `PageTables.Access`.
- A saved form table comes back after the kernel's own save:
  `Lifetime.ReloadExactIff`.
- Timer ticks serve every runnable task: `TaskRuns.FairIff`, with the failing input
  `TaskRuns.LoneTopExample`.
- `proc_wait` returns the child's pid: `TaskRuns.WaitTells`.
- End of file means that the pipe is drained: `Pipe.EofDrainedIff` and
  `Pipe.OneReaderDrainedIff`, with the failing run `Pipe.EofMayLeaveBytes`.
- Creation, exit and kill keep the task table sound: `Tasks.CreateUserKeepsIff`,
  `Tasks.ExitKeepsIff`, `Tasks.KillKeepsIff`.
- A read of sector 0 gives sector 0: `BlockCache.Cache.Read`.

## Where code and documentation disagree

The model follows the code.

- The documentation promises a write-ahead journal; `hexafs_journal_t` is never
  used. What protects a save is the order of its writes: new blocks, bitmap,
  superblock.
- The documentation promises up to 88 directory entries over 8 linked blocks; 12
  entries over 2 blocks is the most a directory can take, and a load reads the
  first 11.
- The documentation promises that dirty cache lines are flushed on commit; writes
  go through at once and the flush is never needed.
- The documentation promises versioned rollback along the snapshot chain; the
  snapshot that each boot commits names no directory, so nothing is loaded from it.
- A comment in `proc_exit` says children are reparented; the pid is cleared first,
  so only tasks whose parent is already -1 are touched.
- A comment in `create_user_page_dir` speaks of the top 256 entries; the lowest
  256 are copied.

## Layout

| file | holds |
|---|---|
| Bytes, Bitmap, BlockCache | words in buffers, the content hash, bitmaps, the hinted allocator, the sector cache |
| Store, Directory, Objects, Forms | the volume's state, directories, objects, forms |
| Snapshots, History, Users | transactions, snapshots, crashes, histories, the user table |
| Boots | the user table across boots |
| Layout | where each field lies in the stored bytes |
| Separation, Lifetime | who owns which block, and what a save of the user table does to the live directory |
| Traces, UserWrites | the sectors a save of the user table writes, and a crash at each of them |
| Lives, Hints | the life of a volume with boots, both kinds of saves and crashes in all of them |
| HexaFs | the class `Volume`: all HEXAFS operations in place, each proved against the functions above |
| HeapSpec, KernelHeap | the block list, and the class `Heap` over the arena |
| PageTables, Mmu | the flat view of the tables, and the class `Machine` |
| Tasks, TaskRuns, TaskTable | the task table, its runs, and the class `Kernel` |
| Pipe, Password | the pipe's interleavings, and password records |

## Model

| member | source | states |
|---|---|---|
| `Bytes.ContentHash` | hexafs_disk.c:99-105 | the byte loop computes the hash function the theorems are about |
| `Bytes.HashStepInjective` | hexafs_disk.c:103 | 33 is invertible modulo 2^32: one step loses nothing of the state |
| `Bytes.HashIsSum` | hexafs_disk.c:99-105 | the hash is the polynomial of the bytes at 33, started at 5381, modulo 2^32 |
| `Bytes.HashSuffix` | hexafs_disk.c:99-105 | prefixes with different hashes stay different after any common suffix |
| `Bytes.HashOneByte` | hexafs_disk.c:99-105 | changing exactly one byte of any buffer always changes its hash |
| `Bytes.HashTwoBytes` | hexafs_disk.c:442-443 | writing a nonzero 16-bit value over two zero bytes always changes the hash |
| `Bytes.SealSeals` | hexafs_disk.c:196-202 | a checksum stored over the block with that word zeroed is accepted again |
| `Bytes.SealedIff` | hexafs_disk.c:226-230 | a block is accepted exactly when its word is that polynomial over the block with the word's own bytes zero |
| `Bytes.SealedRejectsByte` | hexafs_disk.c:226-230 | a sealed block rejects every change of exactly one byte, the checksum's own bytes included |
| `Bitmap.SetBit` | hexafs_disk.c:87 | setting a bit sets that bit and no other |
| `Bitmap.ClearBit` | hexafs_disk.c:95 | clearing a bit clears that bit and no other |
| `Bitmap.Mark` | hexafs_disk.c:83-89 | marking changes the state of one unit only; out of range it does nothing |
| `Bitmap.Unmark` | hexafs_disk.c:91-97 | releasing changes the state of one unit only; out of range it does nothing |
| `Bitmap.Scan` | hexafs_disk.c:134-155 | the two scans return a free unit of the range, and fail exactly when none is free |
| `Bitmap.ScanIsLowest` | hexafs_disk.c:134-153 | they return the lowest free unit if and only if the free units do not lie on both sides of the hint |
| `Bitmap.AllocStepKeepsHint` | hexafs_disk.c:133-162 | taking and releasing keep everything below the hint in use |
| `Bitmap.AllocRunLowest` | hexafs_disk.c:133-162 | over every run from such a state each allocation returns the lowest free unit |
| `BlockCache.Cache.Find` | hexafs_disk.c:23-27 | the first slot of that block number, or -1 when there is none |
| `BlockCache.Cache.Evict` | hexafs_disk.c:29-34 | the first empty slot, and slot 0 only when none is empty |
| `BlockCache.Cache.FlushDirty` | hexafs_disk.c:36-45 | rewriting the dirty slots leaves the disk as it is |
| `BlockCache.Cache.Read` | hexafs_disk.c:47-61 | a read answers what the disk holds; for block 0 exactly when no slot is empty, else it answers the first empty slot's old bytes |
| `BlockCache.Cache.Store` | hexafs_disk.c:63-74 | a write changes one sector of the disk at once and keeps every slot equal to its sector |
| `BlockCache.Cache.Run` | hexafs_disk.c:23-74 | every sequence of reads and writes answers and ends as on a disk without a cache |
| `Store.AllocBlock` | hexafs_disk.c:133-156 | the block returned was free and is zeroed and used now; 0 exactly when none is free; nothing else is taken |
| `Store.FreeBlock` | hexafs_disk.c:158-162 | exactly that block becomes free; reserved and out-of-range numbers change nothing |
| `Store.AllocTakes` | hexafs_disk.c:133-156 | the whole effect of an allocation: one bit, the dirty flag, the hint behind the block, and one write of zeros |
| `Store.FreeGives` | hexafs_disk.c:158-162 | the whole effect of a release: one bit, the dirty flag, the hint not behind the block |
| `Store.BlockAllocatorRefinesScan` | hexafs_disk.c:133-162 | block allocation and release are steps of the hinted allocator over blocks 109..4095 |
| `Store.SuperFields` | hexafs_disk.c:204-219 | a built superblock is accepted and holds the root, time and generation it was built from |
| `Store.SuperblockIntegrity` | hexafs_disk.c:196-234 | every superblock written is accepted with its root, and every copy that differs in exactly one byte is rejected |
| `Directory.StrLenIs` | hexafs_disk.c:463-465 | the length of a stored name is determined by its terminator |
| `Directory.PutNameReads` | hexafs_disk.c:463-465 | a stored name reads back cut to 31 bytes and no other byte of the block changes |
| `Directory.FieldMatchIsEquality` | hexafs_disk.c:500-504 | on a terminated field the byte-by-byte comparison decides string equality |
| `Directory.EmptyDirFields` | hexafs_disk.c:416-429 | a new directory block is sealed, empty and not linked |
| `Directory.PutEntryAppends` | hexafs_disk.c:461-470 | the entry is appended, earlier entries and the link stay, the block is sealed again |
| `Directory.LinkBreaksSeal` | hexafs_disk.c:438-447 | linking keeps every entry but always leaves a block whose checksum is wrong |
| `Directory.AddEntryAppends` | hexafs_disk.c:449-490 | adding succeeds if and only if the directory is not yet linked and, when full, a block is free; it then appends the one entry; on failure nothing changes at all |
| `Directory.AddEntryCost` | hexafs_disk.c:449-490 | an entry costs one block exactly when it links the second directory block |
| `Directory.AddAll` | hexafs_disk.c:449-490 | any sequence of adds keeps a well-formed directory |
| `Directory.DirectoryTakesTwelve` | hexafs_disk.c:449-490 | from an empty directory exactly the first twelve adds succeed, in order; every later one fails and leaves the list alone |
| `Directory.FirstMatch` | hexafs_disk.c:492-514 | the first entry of that name across the linked blocks, or none exactly when no entry has it |
| `Objects.WriteChunksSpec` | hexafs_disk.c:306-320 | the data loop fails exactly when it needs more blocks than are free; else each piece sits in its own block, reused or new, and nothing else is touched |
| `Objects.WriteChunksFails` | hexafs_disk.c:306-320 | when the data loop fails every block is in use |
| `Objects.GatherReassembles` | hexafs_disk.c:342-355 | reading the pieces back gives the data, cut to four blocks |
| `Objects.NewObjFields` | hexafs_disk.c:271-285 | a new object has its type, size 0 and no data blocks |
| `Objects.WriteObjectSpec` | hexafs_disk.c:287-330 | a write succeeds if and only if enough blocks are free; the object then reads back the first 2048 bytes with its full size recorded; only its own and formerly free blocks change |
| `Objects.NotAnObject` | hexafs_disk.c:287-357 | a header without the magic word reads as absent and is not written |
| `Objects.ObjectFrame` | hexafs_disk.c:332-357 | an object reads the same on every disk that agrees on its own blocks |
| `Objects.OverwriteOne` | hexafs_disk.c:287-357 | a successful overwrite updates that object's content and no other's, and no two objects come to share a block |
| `Objects.OverwriteRun` | hexafs_disk.c:287-357 | after any run of successful writes to many objects each read returns that object's last write |
| `Forms.Payload` | hexafs.c:99-117 | an encoded form is at most 2048 bytes: ten more than its content, which is cut to 2038 |
| `Forms.ParsePayload` | hexafs.c:172-212 | decoding an encoded form gives back its owner (0 outside 0..11), mode and the first 2038 content bytes |
| `Forms.ParseShort` | hexafs.c:172-212 | objects too short for all metadata get the defaults for what is missing, and their content starts behind what is there |
| `Forms.SaveObjectSpec` | hexafs.c:99-122 | a form is stored if and only if its header and data blocks are free, in formerly free blocks only, and reads back its payload |
| `Forms.SaveObjectFails` | hexafs.c:107-120 | a form that cannot be stored gives its header block back: that one is the only free block then, or none was free before |
| `Forms.SaveFormSpec` | hexafs.c:132-140 | one round of the save loop lists the form last exactly when it fits, else it leaves the list alone; earlier forms stay; the number of blocks left is exact |
| `Forms.DirectoryFrame` | hexafs.c:147-217 | a directory decodes to the same forms on every disk that agrees on its blocks |
| `Forms.Listed` | hexafs.c:161-216 | one form per directory entry, in order |
| `Forms.NotAForm` | hexafs.c:161-216 | an entry that names no form loads as an empty one of owner 0 and mode 0644 |
| `Snapshots.SnapFields` | hexafs_disk.c:363-374 | a built snapshot block holds its parent, directory and name, cut to 31 bytes |
| `Snapshots.TxStartsAndEnds` | hexafs.c:35-69 | a transaction starts clean with the next number unless one is active, and an end of either kind changes nothing else of it |
| `Snapshots.SnapCreateSpec` | hexafs_disk.c:359-382 | a new snapshot takes one free block, links to the current root and leaves the directory it names alone; none is made exactly when no block is free |
| `Snapshots.CreateDirSpec` | hexafs_disk.c:416-429 | an empty directory in a formerly free block, or 0 exactly when none is free |
| `Snapshots.SaveFormsLists` | hexafs.c:132-140 | with room for all, the directory lists the first twelve forms in order and exactly the blocks they need are gone |
| `Snapshots.FittedIsLongest` | hexafs.c:132-140 | the forms that fit are the longest prefix of the table whose blocks, link included, are free |
| `Snapshots.SaveFormsExactly` | hexafs.c:132-140 | every table, any free space: the directory lists the forms that fit, up to twelve; if not all do, one block is left over, and none if a prefix of the table takes exactly the free blocks |
| `Snapshots.SaveAddsSnapshotIff` | hexafs.c:124-143 | a save adds a snapshot if and only if a block is free for the directory and no prefix of the table, nor the first twelve forms without their link, takes exactly the blocks left |
| `Snapshots.PrepareSpec` | hexafs.c:124-143 | up to its commit a save writes formerly free blocks only, for every table and any amount of free space |
| `Snapshots.CommitWrites` | hexafs.c:45-62 | the writes of a save are writes to free blocks and the bitmap, and then one superblock write |
| `Snapshots.CommitDisk` | hexafs.c:45-62 | after the commit the disk holds the new root, the bitmap of memory, and every block that was in use as it was |
| `Snapshots.QuietRecovers` | hexafs_disk.c:256-269 | whatever reached the disk before the superblock, a boot finds the old snapshots, forms and used marks |
| `Snapshots.MountIsBoot` | hexafs.c:71-93 | mounting a disk whose superblock is accepted rebuilds memory from it and writes nothing |
| `Snapshots.SaveAllKeepsStore` | hexafs.c:124-145 | a save keeps the store sound for every table and any free space, adds at most one snapshot in front, and leaves every earlier one as it was |
| `Snapshots.SaveAllWrites` | hexafs.c:124-145 | the sectors written account for the whole new disk, and every proper prefix of them leaves the old store readable |
| `Snapshots.CrashAtomicity` | hexafs.c:124-145 | after a crash at any write, mount and load give exactly the old or exactly the new form table, with every reachable block marked used on disk |
| `Snapshots.CrashPoint` | hexafs.c:35-62 | what any commit with quiet early writes keeps: before its last write the old store is mounted, after it the new one |
| `Snapshots.RebootKeeps` | hexafs_disk.c:256-269 | a reboot between operations loses nothing of the store |
| `Snapshots.BootKeepsStore` | boot_policy.c:122-145 | the commit at the end of a boot, which names no directory, keeps the store sound and every earlier snapshot as it was |
| `Snapshots.BootLoads` | boot_policy.c:122-145 | after that commit a load finds nothing if a block was free for its snapshot, and what it found before otherwise |
| `Snapshots.BootWrites` | boot_policy.c:122-145 | its writes account for the whole new disk, and every proper prefix of them leaves the old store readable |
| `Snapshots.BootAtomicity` | boot_policy.c:122-145 | after a crash at any of its writes the next mount is sound and loads what a load before it, or after it, gives |
| `History.SnapshotsAreImmutable` | hexafs.c:99-145 | over every history of saves, boots, and crashes in both the chain only grows at its front and each old snapshot keeps its blocks, in use and unchanged, and its forms |
| `History.LoadsUntilBoot` | hexa.c:3428-3440 | over every history without a completed save a load finds the forms of its start, until a boot commit finds a block for its snapshot; from then on nothing |
| `History.SecondBootLoses` | hexa.c:3428-3440 | the first boot finds the forms; a second one, or a boot after a crash in the first save, finds none, unless no block was free for the first boot's snapshot |
| `History.FormatSpec` | hexafs_disk.c:236-254 | a format gives a sound empty store with every block from 109 on free |
| `History.AllocAfterFormat` | hexafs_disk.c:236-254 | the first block after a format is where the old hint stood; it is the lowest if and only if the hint was at either end |
| `History.MountIsSound` | hexafs.c:71-93 | mounting any disk without an accepted superblock gives a sound store with one empty snapshot "boot_ok" |
| `History.FormatCrash` | hexafs.c:71-90 | after a crash at any write of making a new volume the next mount gives a sound store: a fresh one before the first and after the last write, one without snapshots in between |
| `History.ChainUnique` | hexafs_disk.c:384-401 | the parent links from a root determine the list of snapshots |
| `History.ChainAcyclic` | hexafs_disk.c:384-401 | the parent links never close a cycle |
| `History.SnapFind` | hexafs_disk.c:384-401 | the newest snapshot of the name, and 0 exactly when none has it or the name is empty |
| `History.SaveLoad` | hexafs.c:99-217 | every table, any free space: a load after a save gives the first eleven of the forms that fit, as the format stores them, in order, if a block was left for the snapshot, and otherwise what it gave before |
| `History.SaveLoadExact` | hexafs.c:99-217 | up to eleven forms within the limits on name, owner and size come back exactly |
| `Users.EncodeUsers` | hexa.c:2726-2737 | the byte loop builds the encoding of the table |
| `Users.DecodeUsers` | hexa.c:1540-1550 | the parsing loop computes the decoding |
| `Users.CodecRoundTrip` | hexa.c:1539-1552 | tables of 1 to 12 users decode to themselves, and tables of any other length are refused |
| `Users.DecodeReadsTable` | hexa.c:1540-1550 | what follows a table is ignored, and no proper part of it is accepted |
| `Users.NothingUnmounted` | hexafs.c:124-145 | without a mounted volume neither save does anything |
| `Users.UsersObjectSpec` | hexafs.c:351-357 | the ".users" object is found or made; it fails exactly when it must be made and no block is free; a linked directory never comes to name it |
| `Users.UsersSaveSucceeds` | hexafs.c:340-368 | the save reports success if and only if there is a live directory and the blocks it needs are free |
| `Users.UsersRoundTrip` | hexafs.c:340-385 | after a successful save a load returns the saved bytes if and only if the directory already named ".users" or was not linked and had or got room for the entry |
| `Users.UserTableSurvives` | hexa.c:2722-2740 | with at most eleven forms and room, the user table survives encoding, storing, loading and decoding |
| `Boots.BootUsers` | boot_policy.c:122-145 | after the commit at the end of a boot the user table is gone if a block was free for its snapshot, and unchanged otherwise |
| `Boots.UsersUntilBoot` | hexa.c:3428-3440 | over every history without a completed save of the forms the user table of its start is found, until a boot commit finds a block for its snapshot |
| `Boots.SecondBootLosesUsers` | hexa.c:3428-3440 | the first boot finds the user table; a second one without a save finds it if and only if there was none or no block was free at the first |
| `Separation.SeparateFrame` | hexafs_disk.c:332-357 | that snapshots share no blocks depends on their own blocks only |
| `Separation.AddKeepsApart` | hexafs_disk.c:449-490 | an added entry's object stays apart from the others, and the directory grows into that object and free blocks only |
| `Separation.SaveFormsFresh` | hexafs.c:132-140 | the directory a save builds uses formerly free blocks only, and no two of its objects share one |
| `Separation.SaveAllSeparate` | hexafs.c:124-145 | a save keeps the blocks of different snapshots' directories, and of each directory's objects, apart |
| `Separation.CommitSeparate` | hexafs.c:45-62 | so does every commit whose new directory, if it names one, uses formerly free blocks |
| `Separation.BootSeparate` | boot_policy.c:122-145 | so does the commit at the end of a boot |
| `Lifetime.RewriteKeepsDir` | hexafs_disk.c:287-330 | writing one object of a directory keeps the directory and every other form of it |
| `Lifetime.TargetKeepsDir` | hexafs.c:351-357 | finding or making ".users" keeps the directory well formed, its objects apart, in its own and free blocks |
| `Lifetime.UsersKeepStore` | hexafs.c:340-368 | a completed save of the user table leaves a sound store with at most one snapshot more and every snapshot of another directory unchanged |
| `Lifetime.UsersSnapshotIff` | hexafs.c:340-368 | a successful save makes a snapshot "users_update" of the same directory in front of the old root if and only if a block is left after what it wrote, else it keeps the root |
| `Lifetime.UsersListing` | hexafs.c:351-362 | what the live directory lists after the user table was written: ".users" appended as an empty form, or a form of that name overwritten |
| `Lifetime.SaveDataReload` | hexa.c:2722-2740 | after save_data and a reboot, given room, the user table loads as saved and the form table is the saved one with what the ".users" entry makes of it |
| `Lifetime.ReloadExactIff` | hexafs.c:161-216 | the form table comes back unchanged if and only if it is full and has no form ".users", or has one that reads as the user table does |
| `Traces.WrotePrefix` | hexafs_disk.c:111-113 | any prefix of a run of writes leaves the blocks outside the run's own set as they were |
| `Traces.OncePrefix` | hexafs_disk.c:111-113 | if one block outside that set is written once, a prefix holds it as it was or as it will be, by whether it was written |
| `UserWrites.UsersTrace` | hexafs.c:340-368 | up to its commit a save of the user table writes free blocks, the data blocks of ".users", and at most one other block once: the header of ".users", or the first directory block when the entry is added |
| `UserWrites.SoundAt` | hexafs.c:340-368 | a live directory that moved within its own and free blocks by both bitmaps leaves a sound, separate store with the other snapshots unchanged |
| `UserWrites.UnsoundAt` | hexafs.c:340-368 | a block that the live directory uses and the bitmap on disk has as free makes the store unsound for every list of snapshots |
| `UserWrites.UsersCrashIff` | hexafs.c:340-368 | after a crash at any write of a save of the user table, successful or not, the mounted store is sound if and only if the directory block or header that names a new block is not written yet or the first bitmap sector is; sound stores keep the other snapshots |
| `UserWrites.UsersSoundIff` | hexafs.c:340-368 | the save leaves a sound store if and only if ".users" was named, the directory is linked, too few blocks are free to name it, or all the blocks it needs are free; it then adds at most one snapshot and stays separate |
| `UserWrites.FailedUnsound` | hexafs.c:351-362 | a failed save that wrote the new entry leaves a store sound for no list of snapshots |
| `Lives.HarmlessIff` | hexa.c:2722-2740 | from a sound state with its bitmap on disk every act, crashes included, leaves a sound store if and only if it is harmless: its check on entry, and for a crash the window, decide it |
| `Lives.LifeKeepsStore` | hexa.c:2722-2740 | over every sequence of form saves, boots, harmless user-table saves, and harmless crashes in all of them the store stays sound and separate, the chain only grows in front, and snapshots whose directory was never live during a user-table save keep blocks and forms |
| `Lives.FreshIsSeparate` | hexafs.c:78-87 | a volume that was just made is separate, so every such life can start there |
| `Hints.LowAlloc` | hexafs_disk.c:133-156 | with nothing free below the hint the block handed out is the lowest free one, and nothing is free below the new hint |
| `Hints.LowestOverLife` | hexafs_disk.c:133-162 | over every run from a mount, of form saves, boots, user-table saves and crashes, sound or not, each block handed out is the lowest free one |
| `Layout.SuperLayout` | hexafs_disk.c:196-220 | every field of a written superblock at its offset, the generation one higher, the root and time kept |
| `Layout.SuperAcceptedIff` | hexafs_disk.c:222-234 | accepted exactly with the magic word and the checksum of the block with its own bytes zero |
| `Layout.FormatLayout` | hexafs_disk.c:236-254 | a format leaves root 0, time 0, generation 2, and exactly the blocks below 109 used |
| `Layout.SnapLayout` | hexafs_disk.c:359-377 | every field of a snapshot block at its offset |
| `Layout.NewObjectLayout` | hexafs_disk.c:271-285 | every field of a new object header at its offset |
| `Layout.ObjectLayout` | hexafs_disk.c:306-329 | a written header holds the size, the hash of the data, and the numbers of the blocks that hold the pieces in order |
| `Layout.PieceLayout` | hexafs_disk.c:306-320 | a piece is 512 bytes of the data, padded with zeros |
| `Layout.EmptyDirLayout` | hexafs_disk.c:416-429 | a new directory block, byte by byte |
| `Layout.EntryLayout` | hexafs_disk.c:461-470 | the k-th entry lies at 12 + 44k: name, object, type; the count is raised and nothing else changes |
| `Layout.LinkLayout` | hexafs_disk.c:449-490 | the twelfth entry: the link word at 496 is the only change of the full block, and the new block holds the entry |
| `Layout.UserLayout` | hexa.c:2726-2737 | user i lies at 4 + 68i: name, password record, root flag, three zeros |
| `Layout.PayloadLayout` | hexafs.c:99-117 | owner, mode and a zero word in front of the content |
| `HexaFs.CopyName` | hexafs_disk.c:463-465 | the copy loop stores the name cut to 31 bytes and terminated |
| `HexaFs.CompareName` | hexafs_disk.c:500-504 | the comparison loop decides equality of the stored name and the argument |
| `HexaFs.ReadName` | hexafs.c:162-167 | the copy loop returns the stored name |
| `HexaFs.ScanBlock` | hexafs_disk.c:499-510 | the entry loop finds the first entry of the name in one block |
| `HexaFs.Volume.constructor` | hexafs_disk.c:12-21 | memory as it is when the kernel starts |
| `HexaFs.Volume.BlockRead` | hexafs_disk.c:107-109 | the sector as the disk holds it; nothing visible changes |
| `HexaFs.Volume.BlockWrite` | hexafs_disk.c:111-113 | one sector reaches the disk, in order |
| `HexaFs.Volume.BitmapTest` | hexafs_disk.c:76-81 | whether the block is used |
| `HexaFs.Volume.BitmapSet` | hexafs_disk.c:83-89 | one block is marked used in place; out of range nothing changes |
| `HexaFs.Volume.AllocBlock` | hexafs_disk.c:133-156 | the scanning loops allocate as the proved allocator does |
| `HexaFs.Volume.FreeBlock` | hexafs_disk.c:158-162 | the block is released and the hint lowered |
| `HexaFs.Volume.InitBitmap` | hexafs_disk.c:164-172 | the blocks below 109, and only those, are used |
| `HexaFs.Volume.SaveBitmap` | hexafs_disk.c:174-184 | both bitmap sectors reach the disk in order when memory differs |
| `HexaFs.Volume.LoadBitmap` | hexafs_disk.c:186-194 | memory takes over the bitmap on disk |
| `HexaFs.Volume.WriteSuper` | hexafs_disk.c:204-220 | the sealed superblock with the next generation reaches the disk |
| `HexaFs.Volume.ReadSuper` | hexafs_disk.c:222-234 | accepted exactly when magic and checksum fit; memory changes only then |
| `HexaFs.Volume.Format` | hexafs_disk.c:236-254 | superblock, then bitmap, of an empty volume; the hint is kept |
| `HexaFs.Volume.MountDisk` | hexafs_disk.c:256-269 | succeeds exactly on an accepted superblock |
| `HexaFs.Volume.Mount` | hexafs.c:71-93 | takes over the volume, or makes a new one with an empty first snapshot |
| `HexaFs.Volume.TxBegin` | hexafs.c:35-43 | a transaction starts unless one is active |
| `HexaFs.Volume.TxCommit` | hexafs.c:45-62 | a dirty transaction writes bitmap, then superblock |
| `HexaFs.Volume.TxAbort` | hexafs.c:64-69 | only the transaction ends |
| `HexaFs.Volume.AllocObject` | hexafs_disk.c:271-285 | a new empty object of that type, or 0 |
| `HexaFs.Volume.WriteObject` | hexafs_disk.c:287-330 | the data loop and header write of an object |
| `HexaFs.Volume.ReadObject` | hexafs_disk.c:332-357 | type, size and bytes of an object |
| `HexaFs.Volume.SnapCreate` | hexafs_disk.c:359-382 | a snapshot in front of the root, within a dirty transaction |
| `HexaFs.Volume.SnapFind` | hexafs_disk.c:384-401 | the walk along the parent links terminates with the newest match, or 0 at a block that is no snapshot |
| `HexaFs.Volume.CreateDir` | hexafs_disk.c:416-429 | an empty directory block, or 0 |
| `HexaFs.Volume.AddEntry` | hexafs_disk.c:449-490 | the entry added, or no change |
| `HexaFs.Volume.FindEntry` | hexafs_disk.c:492-514 | the first match across the linked blocks |
| `HexaFs.Volume.SaveObject` | hexafs.c:99-122 | a form's object, or 0 |
| `HexaFs.Volume.SaveForm` | hexafs.c:133-139 | one round of the save loop |
| `HexaFs.Volume.SaveAll` | hexafs.c:124-145 | the whole save refines the function the crash theorem is about |
| `HexaFs.Volume.LoadForm` | hexafs.c:162-215 | one form of the table |
| `HexaFs.Volume.LoadAll` | hexafs.c:147-217 | the table the live snapshot decodes to; every early return leaves the old table |
| `HexaFs.Volume.BootPolicy` | boot_policy.c:122-145 | what a boot commits to the volume |
| `HexaFs.SoundIsLoadable` | hexafs.c:147-159 | a sound store meets all that loading, searching snapshots and saving the user table need |
| `HexaFs.Volume.UsersObject` | hexafs.c:351-357 | the ".users" object, found or made |
| `HexaFs.Volume.UsersSave` | hexafs.c:340-368 | the user table written into the live directory and committed |
| `HexaFs.Volume.UsersLoad` | hexafs.c:370-385 | the user table of the live directory |
| `HeapSpec.Round` | paging.c:208 | a multiple of four, at least the size and less than four bytes above it; 0 for sizes above 0xFFFFFFFC |
| `HeapSpec.FirstFit` | paging.c:209-224 | the first free block that is large enough |
| `HeapSpec.CarveKeeps` | paging.c:211-221 | an allocation keeps the arena tiled and coalesced and adds exactly one new payload |
| `HeapSpec.CarveSplits` | paging.c:211-221 | at most four words more than asked for are handed out, and only if they could not hold a block; else a free block with the rest follows right behind; the free words account for both |
| `HeapSpec.SpaceAccounts` | paging.c:206-242 | every word is a header, free or in use, and there is at most one free block more than blocks in use |
| `HeapSpec.FreshArenaPacks` | paging.c:206-226 | equal allocations in a fresh arena lie back to back, as many as fit |
| `HeapSpec.FreeKeeps` | paging.c:228-242 | freeing keeps the arena tiled, leaves no two neighbours free, and removes exactly that payload |
| `HeapSpec.FreeUndoesMalloc` | paging.c:206-242 | freeing right after a successful allocation restores the exact earlier block list |
| `HeapSpec.LiveDisjoint` | paging.c:206-226 | two live payloads never overlap, headers included |
| `HeapSpec.NothingLiveIsInitial` | paging.c:228-242 | with nothing live the arena is its single initial block |
| `HeapSpec.RunKeepsHeap` | paging.c:206-242 | over every run the live payloads are exactly the outstanding ones, and releasing all of them in any order restores the initial block |
| `HeapSpec.RunSparesSpace` | paging.c:206-242 | over every run each live payload was handed out for a request of at most four words less, and all words but payloads and at most two headers for each of them and one more are free |
| `KernelHeap.Heap.constructor` | paging.c:192-204 | one free block covers the arena |
| `KernelHeap.Heap.FindFit` | paging.c:209-224 | the walk along the in-arena list finds the first fit |
| `KernelHeap.Heap.TakeBlock` | paging.c:212-220 | the header writes of a split, and the used mark |
| `KernelHeap.Heap.Kmalloc` | paging.c:206-226 | fails exactly for size 0 or when nothing fits, changing nothing; else one new aligned payload of at least the rounded size and at most 16 bytes more, the free space less by exactly that and the header of a split, every live payload unchanged |
| `KernelHeap.Heap.FreeAndJoin` | paging.c:231-235 | the block is free and has swallowed a free successor |
| `KernelHeap.Heap.FindPrev` | paging.c:236-237 | the walk finds the block in front |
| `KernelHeap.Heap.JoinPrev` | paging.c:236-241 | a free predecessor swallows the block |
| `KernelHeap.Heap.Kfree` | paging.c:228-242 | exactly that payload is released; the in-arena list refines the freed block list; other payloads unchanged |
| `KernelHeap.Heap.Krealloc` | paging.c:244-256 | fails exactly when a larger block is needed and none fits, changing nothing; else an aligned payload with the old words in front, other payloads unchanged |
| `KernelHeap.Heap.Relocate` | paging.c:248-254 | a larger block taken, the payload copied, the old block freed |
| `KernelHeap.Heap.CopyPayload` | paging.c:250-252 | the copy reproduces the payload and touches the target only |
| `PageTables.TableLinkedKeeps` | paging.c:121-127 | linking a table from a free frame changes only that directory's entries of that index |
| `PageTables.EntryWritten` | paging.c:128-129 | writing a table entry is seen at one page only, and above 1 GB by one directory only |
| `PageTables.DirAddedKeeps` | paging.c:102-109 | a new directory shares the kernel's low gigabyte, maps nothing above it, and changes no other translation |
| `PageTables.FirstDir` | paging.c:78-81 | a directory without entries translates nothing |
| `PageTables.Access` | paging.c:121-129 | a page can be written if and only if its own entry allows it, and user mode reaches no page, whatever its flags |
| `Mmu.Machine.constructor` | paging.c:29-41 | free are exactly the pages between the kernel and the end of memory, without page 0 and the video area |
| `Mmu.Machine.PmmAlloc` | paging.c:43-59 | a free frame, the lowest if nothing below the hint is free; 0 exactly when none is free |
| `Mmu.Machine.PmmFree` | paging.c:61-67 | exactly that frame becomes free and the allocator stays lowest-first |
| `Mmu.Machine.CountFree` | paging.c:69-73 | the number of free frames |
| `Mmu.Machine.PagingInit` | paging.c:78-89 | the kernel directory maps the first 8 MB to themselves, writable, and nothing else; three frames are taken and allocation stays lowest-first |
| `Mmu.Machine.IdentityTable` | paging.c:82-89 | one 4 MB identity table is added for one frame, lowest-first kept |
| `Mmu.Machine.EnsureTable` | paging.c:121-127 | the index gets a table, for one frame if it had none; no translation of any directory changes; lowest-first kept |
| `Mmu.Machine.MapPage` | hexa.c:295-307 | one page's entry is set, writable exactly as the flags say; every other page of every directory, and above 1 GB every other directory, is unchanged; one frame is taken exactly when a table was missing, lowest-first kept |
| `Mmu.Machine.UnmapPage` | paging.c:132-142 | one page becomes absent, with the same frame condition |
| `Mmu.Machine.CreateUserDir` | paging.c:102-109 | a new directory in one free frame with the kernel's low part; existing ones are unchanged; lowest-first kept |
| `Tasks.PickIsRight` | process.c:249-260 | the first task of maximum priority in cyclic order if that is at least the current priority, else the first runnable one, else none |
| `Tasks.EqualPrioritiesRoundRobin` | process.c:249-260 | when the runnable tasks have equal priorities the choice is the next of them in turn, whatever dead slots hold |
| `Tasks.ScheduleIsRight` | process.c:244-263 | a tick makes that task current and running, the old one ready, touches nothing else, stays put exactly when nobody else can run, and does nothing with at most one live task |
| `Tasks.BoundedWaiting` | process.c:244-263 | over every run of ticks, exits, kills, creations, waits and reaps in which the runnable tasks have equal priorities, a task that stays runnable becomes current within its distance, at most 15 switches |
| `TaskRuns.TickChoice` | process.c:249-263 | a tick never prefers a task below another of at least the current priority, and takes the nearest one when there is none |
| `TaskRuns.LowPriorityStarves` | process.c:254-256 | while two tasks of the highest priority can run, no tick chooses a task below it |
| `TaskRuns.FairIff` | process.c:244-263 | a row of ticks makes every runnable task current within 16 ticks, again and again, if and only if nobody else waits, or ticks switch at all and runnable priorities are equal or at most two tasks can run; else some runnable task is never current after the first tick |
| `TaskRuns.LoneTopExample` | process.c:249-260 | one task of priority 2 and two of priority 1: the third never runs |
| `Tasks.ExitHandsOver` | process.c:133-166 | exit leaves a zombie with its code and goes to the next runnable task whatever its priority; no other slot changes |
| `TaskRuns.ZombieOrigin` | process.c:133-191 | over every run each zombie has one step that ended it, and is unchanged since |
| `TaskRuns.EndedHow` | process.c:133-191 | a task that ended as the current one has pid -1 and its exit code, one that another task killed keeps its pid with code -1 |
| `TaskRuns.WaitCollectsLowest` | process.c:168-177 | the lowest zombie child is collected, and nothing changes when there is none |
| `TaskRuns.WaitTells` | process.c:133-191 | over every run the returned pid is -1 if and only if there is no zombie child or the collected one ended by proc_exit; the code is the one it ended with |
| `Tasks.FreeSlot` | process.c:16-24 | the first dead slot |
| `Tasks.CreateAdds` | process.c:62-94 | creation succeeds exactly when the counter allows it and a slot is dead; the lowest dead slot then holds the ready task with the next pid, its priority and parent, it is counted, and nothing else changes |
| `Tasks.CreateUserAdds` | process.c:96-131 | a user task is created exactly when there is room and a page was found; the lowest dead slot holds it with priority 1 and its parent; without a page the slot is taken too, uncounted, and no pid is returned; without room nothing changes |
| `Tasks.KillEnds` | process.c:179-191 | kill returns 0 exactly when the pid names a task, which becomes a zombie of code -1 and is no longer counted, or exits if it is the current one; nothing else changes |
| `Tasks.ReapFrees` | process.c:193-199 | every zombie slot becomes dead and nothing else changes |
| `Tasks.FirstTask` | process.c:26-60 | the first task of an empty table is in slot 0 and has pid 1 |
| `Tasks.CreateKeeps` | process.c:62-94 | creation keeps the table sound and hands out a pid no slot had |
| `Tasks.CreateUserKeepsIff` | process.c:96-131 | creating a user task keeps the table sound if and only if a page was found or no slot was taken |
| `Tasks.ExitKeepsIff` | process.c:133-166 | exit keeps the table sound if and only if the exiting task was counted |
| `Tasks.KillKeepsIff` | process.c:179-191 | kill keeps the table sound if and only if its target is not a zombie |
| `Tasks.WaitKeeps` | process.c:168-177 | collecting a zombie child keeps the table sound |
| `Tasks.ReapKeeps` | process.c:193-199 | reaping keeps the table sound |
| `Tasks.ScheduleKeeps` | process.c:244-263 | a switch keeps at most one task running, the current one |
| `Tasks.ApplyKeeps` | process.c:62-263 | every allowed call keeps the table sound |
| `Tasks.StartKeeps` | hexa.c:3416-3420 | the hand-made first switch makes the second task current and running, changes nothing else, and keeps the table sound |
| `Tasks.RunKeepsTable` | process.c:16-199 | over every run from boot, user tasks included, at most the current task runs, the counter is exact and live pids are distinct |
| `TaskTable.Kernel.constructor` | process.c:26-60 | an empty table |
| `TaskTable.Kernel.AllocPid` | process.c:16-24 | the first dead slot gets the next pid |
| `TaskTable.Kernel.Create` | process.c:62-94 | the in-place creation refines the table function |
| `TaskTable.Kernel.CreateUser` | process.c:96-131 | creation of a user task in place refines the table function, with and without a page for its stack |
| `TaskTable.Kernel.Exit` | process.c:133-166 | exit and the switch to the next runnable task |
| `TaskTable.Kernel.Kill` | process.c:179-191 | kill, of the current task by exit |
| `TaskTable.Kernel.Wait` | process.c:168-177 | the first zombie child is collected |
| `TaskTable.Kernel.Reap` | process.c:193-199 | every zombie becomes dead |
| `TaskTable.Kernel.ChooseBest` | process.c:250-258 | the first pass of the choice |
| `TaskTable.Kernel.ChooseFirst` | process.c:250-258 | the second pass of the choice |
| `TaskTable.Kernel.Schedule` | process.c:244-263 | both passes and the switch |
| `Pipe.PutAppends` | pipe.c:62-66 | the ring is full at one below its size, and a put appends |
| `Pipe.GetRemoves` | pipe.c:43-46 | a get removes the oldest element |
| `Pipe.StepKeeps` | pipe.c:37-86 | every step of every call keeps order, conservation and the counts |
| `Pipe.OrderAndConservation` | pipe.c:37-86 | for every interleaving, bytes consumed followed by the ring are the bytes produced in order, at most 4095 are held, and each call returns the count it moved, falling short only once the other side is gone |
| `Pipe.NextTurn` | pipe.c:41-74 | a call that moved all its bytes, or that looks at a side nobody is left on, returns that count at its next turn; any other turn moves a byte, or finds nothing to read or no room, or goes back to trying |
| `Pipe.TurnsAreSpent` | pipe.c:37-76 | over every interleaving the turns of a call are one for each byte moved, two for each failed attempt, and a last one after the last byte |
| `Pipe.EnoughTurns` | pipe.c:37-76 | a call given more turns than bytes asked for plus twice its failures has returned |
| `Pipe.OneCanMove` | pipe.c:41-74 | a reader and a writer never both wait: one of them moves a byte at its next attempt |
| `Pipe.EndsCounted` | pipe.c:78-87 | over every run a pipe has one end of each kind less those closed |
| `Pipe.EofDrainedIff` | pipe.c:43-50 | over every run each short return has a last failed attempt, and leaves the ring empty if and only if all bytes appended since were consumed by others |
| `Pipe.OneReaderDrainedIff` | pipe.c:43-50 | with one reader at work, however many calls returned before, if and only if no byte was appended between that attempt and the look at the writers |
| `Pipe.ClosedMeansDrained` | pipe.c:43-50 | if all write ends were closed and all write calls had returned at the failed attempt, end of file means drained |
| `Pipe.EofMayLeaveBytes` | pipe.c:47-50 | a reader can return end of file while a byte is in the ring |
| `Pipe.RingBuffer.constructor` | pipe.c:25-27 | an empty ring |
| `Pipe.RingBuffer.TryPut` | pipe.c:114-119 | appends exactly when the ring is not full |
| `Pipe.RingBuffer.TryGet` | pipe.c:127-131 | removes the oldest exactly when the ring is not empty |
| `Password.ItoaInto` | hexa.c:160-190 | for every base 2..36 and a buffer that holds the text, it holds the digits most significant first, signed in base 10 only |
| `Password.ItoaValue` | hexa.c:160-190 | what is printed reads back as the number, with a minus sign in base 10 and unsigned otherwise, without leading zeros, for every base 2..36 |
| `Password.HexIsShort` | hexa.c:210-224 | eight hexadecimal digits hold every 32-bit value, so the 16-byte buffer suffices |
| `Password.ReverseInPlace` | hexa.c:182-189 | the buffer is reversed in place and nothing beyond it changes |
| `Password.ComputeHash` | hexa.c:193-201 | both loops compute the salted hash that the next three rows describe |
| `Password.OneIteration` | hexa.c:193-197 | the first iteration is the polynomial of the password's bytes at 33, started at 5381 plus the salt, modulo 2^32 |
| `Password.OneMoreIteration` | hexa.c:198-199 | each further one takes h to (h << 5) + h + (h >> 16) + (h & 0xFF), wrapping, the shifts given by where each bit goes |
| `Password.LastByteTold` | hexa.c:226-236 | a record of at most two iterations never accepts two passwords that differ in their last byte only |
| `Password.RootsRecord` | hexa.c:1531-1535 | the record the kernel starts with is 00A5+57E89156E; it accepts "root" and not "toor" |
| `Password.HexVal` | hexa.c:203-208 | a digit value below 16 for every character |
| `Password.HexValues` | hexa.c:203-208 | both cases of the sixteen digits have their value, and any other character is 0 |
| `Password.ParseItoa` | hexa.c:160-190 | what is printed in hexadecimal parses back, for every 32-bit value |
| `Password.SaltField` | hexa.c:215-219 | the four salt characters hold the low 16 bits of the salt |
| `Password.EncodePwd` | hexa.c:210-224 | the in-place construction yields the record |
| `Password.CheckPwd` | hexa.c:226-246 | both record formats are checked as specified |
| `Password.RecordAccepts` | hexa.c:210-246 | for every salt a record accepts a password exactly when its hash under the salt's low 16 bits equals the stored hash |
| `Password.AnyRecord` | hexa.c:226-236 | a record of any digit of iterations accepts exactly the passwords whose hash under the salt's low 16 bits it holds |
| `Password.OldRecordAccepts` | hexa.c:238-245 | a record of the old format accepts exactly the passwords with its hash of one iteration |
| `Password.GarbageIsRefused` | hexa.c:226-245 | what has neither format's mark is refused |
| `Password.OldRecordSeparates` | hexa.c:238-245 | a record of the old format never accepts two passwords that differ in exactly one byte |
| `Password.RecordRoundTrip` | hexa.c:210-246 | with a 16-bit salt a record accepts its own password, and another one exactly when the salted hashes are equal |

## Left out

- Sector writes are atomic and succeed: disk faults other than a crash, and torn sectors, are not modelled.
- HexaFs.Volume.BlockRead: block numbers are 1..4095; sector 0 is treated at the cache (`BlockCache.Cache.Read`) and larger numbers never occur on a sound volume.
- HexaFs.Volume.AddEntry: directories are ones that create and add_entry made; a foreign block with the directory magic is not modelled.
- HexaFs.Volume.FindEntry: like AddEntry, on directories that create and add_entry made.
- HexaFs.Volume.LoadAll: a directory block that carries its magic word is one that a save made; `kmalloc` does not fail inside save and load.
- HexaFs.Volume.UsersSave: the live directory is a sound one, and the data is at most 2048 bytes (the caller's largest is 820).
- HexaFs.Volume.UsersLoad: the ".users" object, if named, is well formed.
- HexaFs.Volume.WriteObject: sizes are below 2^31, where the source's block count is computed without overflow, and the header names blocks of the disk.
- HexaFs.Volume.ReadObject: the header names blocks of the disk; a read returns bytes instead of filling a caller's buffer.
- UserWrites.UsersSoundIff: stated, like `UserWrites.UsersCrashIff` and `Lives.HarmlessIff`, from states whose bitmap is on disk, as every commit leaves it; a failed save may leave blocks taken in memory only.
- UserWrites.UsersCrashIff: soundness is of the store's structure and of snapshots of other directories; data of ".users" that is overwritten in place may be old and new in parts after a crash.
- Users.UserTableSurvives: the room it asks for is sufficient, not the least possible; the exact condition for one save is `Users.UsersSaveSucceeds`; the reboot is in `Lifetime.SaveDataReload`.
- Lifetime.SaveDataReload: at most eleven forms, and room for everything; the general save is `History.SaveLoad`.
- The rest of `boot_policy.c`: stages always succeed there, and what else it does is output and small variations of the snapshot search.
- `tx_gen`, `next_pid` and the pids are unbounded; `format_gen` wraps at 32 bits as in the source.
- Removing and listing directory entries, pimp rules and capability grants: small variations of find and of the users object.
- KernelHeap.Heap.Kfree: the pointer is 0 or a live payload; the ghost argument names its block.
- KernelHeap.Heap.Krealloc: for a live pointer sizes above 0xFFFFFFFC, which the rounding wraps to 0, are excluded; bytes are copied a word at a time, since every stored size is a multiple of four.
- The heap's own page mapping at boot, and a call before the heap exists.
- Mmu.Machine.constructor: memory is at least one page and the kernel ends above address 0.
- Mmu.Machine.PmmFree: the address is at least 4096, because page 0's address is the failure value, and the frame is neither a directory nor a table.
- Mmu.Machine.MapPage: a frame is free when a table is needed; the source writes to address 0 otherwise. `map_page` is the same on the active directory; the TLB, and the bits a processor itself sets in entries, are not modelled.
- Mmu.Machine.CreateUserDir: a frame is free, for the same reason.
- Mmu.Machine.PagingInit: three frames are free.
- Tasks.BoundedWaiting: counts switches; a tick with at most one live task makes none, and the hand-made first switch at boot is not a step of these runs.
- Tasks.RunKeepsTable: the runs are those whose calls meet the exact conditions above: a user task that takes a slot gets its stack page, exit is by a counted task, kill names no zombie.
- Stacks, names, registers, file descriptors, page directories of tasks and the context switch itself; a switch sets the current task.
- Pipe.RingBuffer.TryPut: the schema and activity checks of a typed pipe are left out; the event queue's ring works the same way, its type mask is left out.
- The spin loops of pipe_read and pipe_write are steps of the interleaving model, not methods; allocation of pipe numbers is left out.
- Password.ItoaInto: bases 2 to 36, for which the digits and letters suffice.
- ATA register handshakes, interrupts, TSS, GDT and boot code, shell, drivers, network, frame buffer, `intent.c`, `vfs.c`, `elf.c`, `sync.c`, `replay.c`, `kobserve.c` and `log.c`: input and output, or easy next to the core.
