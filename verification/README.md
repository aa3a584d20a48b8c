# OS/161 in Dafny

A model of the stateful cores of the OS/161 teaching kernel, with proofs of what each of them promises over whole runs.

- **SFS**, the on-disk file system: files through 15 direct and 128 indirect block pointers, a free map, an inode cache with dirty flags, one directory with link counts. The code is the class `Sfs` over a device of 512-byte blocks; it refines an abstract file system of names, byte arrays and references, from the image `mksfs` writes, through operations that run out of space, through sync and remount; what is on the device is stated in bytes.
- **The kernel heap**: free lists threaded through the free memory, two lists of page records, and whole pages from the page source. To its callers it is a collection of separate arrays of words.
- **Threads**: the run queue (a growing ring), sleepers and zombies (resizable arrays), semaphores and locks, as code and as a state machine whose steps are the regions run with interrupts off.
- **Two driver protocols**: the serial console with interrupt-driven and polled writers, and the disk with its two semaphores, both over every interleaving with the device and the interrupt handler.
- **Address translation** through the TLB, with fork copying an address space; **vnode reference counts** through the path operations.
- **printf, snprintf and atoi**, the **additive-feedback generator** of libc and the kernel's **Park-Miller generator**.

Each part has a value-level state with its invariant, small lemmas about each elementary change, code proved equal to those changes, and a last module with whole runs. Integers are unbounded; where the source's 32-bit arithmetic matters (file offsets, page counts, addresses, printf and atoi, the generators) the wrap-around is written out.

Where the code differs from what its comments or its users expect, the model follows the code, shows an input, and proves exactly when the expectation holds:

- `random.c` says that `setstate` may be called with the array in use. It reads the position noted there before noting the current one, which is harmless only after whole rounds (`Random.SameArray`, `Random.SameArrayExample`).
- A left-aligned field with zero fill puts zeros behind the number, so `atoi` does not read it back (`Atoi.RoundTripExactly`, `Atoi.ZerosBehindExample`).
- Room for sleepers is made by `thread_fork`; a thread that sleeps before the first fork still takes storage (`ThreadTheorems.SleepTakesStorage`, `ThreadTheorems.FirstSleepTakesStorage`).
- `kmalloc` and the page source compute sizes and addresses modulo 2^32 (`Kheap.PagesCover`, `Kheap.WrappedRequest`, `Ram.StealExact`, `Ram.StealWraps`); region sizes likewise (`DumbVm.RegionCovers`, `DumbVm.RegionWraps`). A region that begins in page 0 is forgotten by the next definition (`DumbVm.BothRegionsRecorded`, `DumbVm.FirstRegionForgotten`).
- After a sync with removed files still held, a new mount has blocks marked that nobody can free any more; otherwise remounting loses nothing (`SfsRun.SyncAndRemount`, `SfsHistory.RunLost`, `SfsHistory.OrphanIsLost`).
- A write that fails at its start still raises the file's size to its offset if that is past the end (`SfsHistory.FailedWrite`, `SfsHistory.FailedWriteGrows`).
- `sfs_truncate` does not clear what the last block kept holds past the new end, and from the indirect block on keeps one block too many (`SfsTruncate.TruncateExact`, `SfsTruncate.TruncateLeaves`).
- A read whose end is past 2^31 is not clipped at the end of the file (`SfsTransfer.ReadIsClipped`, `SfsTransfer.ReadNotClipped`).
- `vfs_setbootfs` means to allow a colon at the end of the name and refuses it (`Vfs.TrailingColon`, `Vfs.TrailingColonExample`).

## Model

| member | source | states |
|---|---|---|
| `SfsRun.RunFromNew` | sbin/mksfs/mksfs.c:116-165 | mksfs on a device, mount, then any sequence of operations: the file system stays consistent, and every answer and effect is that of an abstract file system (names, byte arrays, references) that starts with no names and no files |
| `SfsRun.Run` | kern/fs/sfs/sfs_vnode.c:115-1379 | every sequence of reads, writes, truncations, creations, links, removals, renames, lookups and releases on a consistent file system is a run of the abstract one: each result, byte count and effect decided by the abstract state, except that ENOSPC may come when the device is full (for a creation: was full, or has at most one free block left) |
| `SfsRun.Exec` | kern/fs/sfs/sfs_vnode.c:115-1379 | one operation: consistent before and after; its result, the inode returned, the number of bytes moved and the bytes read are those of the abstract step |
| `SfsRun.SyncAndRemount` | kern/fs/sfs/sfs_fs.c:80-311 | sync and then a mount of the image: the device, read by its format alone, shows exactly the file system; the new mount is consistent, with the same names, sizes, links and bytes; the files lost are exactly those without a name that were kept only by their vnodes |
| `SfsHistory.RunReplays` | kern/fs/sfs/sfs_vnode.c:417-513 | in every run, a file that stays in existence holds exactly what replaying the writes and truncations to it, each with the byte count it was answered with, leaves |
| `SfsHistory.ReadsReplay` | kern/fs/sfs/sfs_vnode.c:417-513 | every read in every run is answered with the bytes and the result that this replay determines |
| `SfsHistory.ReadsLastWrite` | kern/fs/sfs/sfs_vnode.c:417-513 | after a write, whole or cut short, reading within the bytes it stored returns them, whatever happened to other files in between |
| `SfsHistory.FailedWrite` | kern/fs/sfs/sfs_vnode.c:447-513 | a write that fails without storing a byte leaves the file system as it was if and only if it began no further than the end of the file; past the mappable size every write fails so |
| `SfsHistory.FailedWriteGrows` | kern/fs/sfs/sfs_vnode.c:447-513 | from a new file system: one byte at offset 73216 of an empty file is refused with EINVAL and leaves a size of 73216 |
| `SfsHistory.RunTidy` | kern/fs/sfs/sfs_vnode.c:856-924 | without a new mount no run ever loses a file: one without names or references is gone |
| `SfsHistory.RunLost` | kern/fs/sfs/sfs_vnode.c:614-658 | a lost file stays lost in every later run, keeps its contents, and keeps its inode block and data blocks marked |
| `SfsHistory.OrphanIsLost` | kern/fs/sfs/sfs_fs.c:80-311 | from a new file system: create, remove while held, sync and mount again; the inode is lost and marked through every later run |
| `SfsHistory.OutOfSpace` | kern/fs/sfs/sfs_vnode.c:60-78 | ENOSPC is answered only if the files there are, at 145 blocks each, could fill the device |
| `SfsHistory.NewFile` | kern/fs/sfs/sfs_vnode.c:1183-1236 | on a device larger than that, a first file can be created |
| `SfsSpace.FileBound` | kern/fs/sfs/sfs_vnode.c:115-261 | a file never takes more than its 143 data blocks and one indirect block |
| `SfsSpace.SpaceLeft` | kern/fs/sfs/sfs_vnode.c:60-78 | while the device is larger than all its files could be, more than one block is free |
| `SfsImage.RemountIsFaithful` | kern/fs/sfs/sfs_fs.c:208-311 | mounting a synced image gives a consistent file system with the same names and files and nothing held |
| `SfsImage.RemountKeepsFiles` | kern/fs/sfs/sfs_vnode.c:1545-1651 | every inode read back from a synced image is the one the cache held, with the same owner for every block |
| `SfsImage.MapWritten` | kern/fs/sfs/sfs_fs.c:39-73 | writing the free map to its own blocks changes no file |
| `SfsImage.MapOnDisk` | kern/fs/sfs/sfs_fs.c:39-73 | after the map is written, the bits on the device mark exactly the blocks in use |
| `SfsImage.FreshIsEmpty` | sbin/mksfs/mksfs.c:39-114 | the image mksfs writes is a consistent file system with no names, no files, and exactly the superblock, root inode and map blocks in use |
| `SfsState.OneFileChanged` | kern/fs/sfs/sfs_vnode.c:115-513 | if only the blocks and inode of one file changed and that file's own part of the invariant holds, then the whole ownership invariant holds and every other file keeps its size, links and bytes |
| `SfsState.SlotsDisjoint` | kern/fs/sfs/sfs_vnode.c:115-261 | no block is held by two slots among inodes, direct pointers, indirect blocks and indirect entries |
| `SfsState.FileGrew` | kern/fs/sfs/sfs_vnode.c:115-261 | giving a file one more (cleared) block changes the contents of no file |
| `SfsState.AttachDirect` | kern/fs/sfs/sfs_vnode.c:140-169 | a missing direct block, attached: invariant kept, no file changed |
| `SfsState.AttachIndirect` | kern/fs/sfs/sfs_vnode.c:191-223 | a missing indirect block, attached with no entries: invariant kept, no file changed |
| `SfsState.AttachEntry` | kern/fs/sfs/sfs_vnode.c:234-252 | a missing indirect entry, attached and written back: invariant kept, no file changed |
| `SfsState.WriteData` | kern/fs/sfs/sfs_vnode.c:277-412 | overwriting a data block changes exactly that block of exactly that file |
| `SfsState.SetMeta` | kern/fs/sfs/sfs_vnode.c:501-506 | changing a cached size or link count keeps the invariant and every other file |
| `SfsTruncate.TruncatedIsEmpty` | kern/fs/sfs/sfs_vnode.c:1063-1157 | truncation to zero: the file is empty, exactly its blocks are free again, every other file is as it was |
| `SfsTruncate.CutIs` | kern/fs/sfs/sfs_vnode.c:1063-1157 | truncation to any length keeps block ownership, the free map and every other file; what is left of the file is the bytes of the blocks kept |
| `SfsTruncate.TruncateExact` | kern/fs/sfs/sfs_vnode.c:1063-1157 | the result is the file cut off at the length if and only if the file has only zeros from there to the end of the blocks kept: the last block by rounding, and one more from the indirect block on |
| `SfsTruncate.TruncateRight` | kern/fs/sfs/sfs_vnode.c:1063-1157 | so it always is when the file does not shrink, and at block boundaries below the indirect blocks |
| `SfsTruncate.TruncateLeaves` | kern/fs/sfs/sfs_vnode.c:1087-1136 | truncated to 1 a file keeps its byte 1, truncated to 7680 it keeps its byte 7680 |
| `SfsTruncate.CutZero` | kern/fs/sfs/sfs_vnode.c:1063-1157 | truncation to zero gives up exactly the file's blocks |
| `SfsState.SyncedIsSame` | kern/fs/sfs/sfs_vnode.c:37-51 | writing a dirty inode to its block changes no file and leaves the cached copy clean |
| `SfsState.DroppedIsSame` | kern/fs/sfs/sfs_vnode.c:856-924 | forgetting a clean vnode changes no file |
| `SfsState.LoadedIsSame` | kern/fs/sfs/sfs_vnode.c:1545-1651 | loading an inode into the cache changes no file |
| `SfsState.CreatedIsNew` | kern/fs/sfs/sfs_vnode.c:761-783 | a new inode owns one block, has no contents, and changes no other file |
| `SfsState.DiscardedIsGone` | kern/fs/sfs/sfs_vnode.c:856-924 | giving up an emptied, unlinked inode frees its block and changes no other file |
| `SfsTransfer.StepTrans` | kern/fs/sfs/sfs_vnode.c:417-513 | two consecutive partial transfers are one: the pieces of a request add up to the request |
| `SfsTransfer.ReadStep` | kern/fs/sfs/sfs_vnode.c:277-412 | copying part of one block out is a step of reading the file's byte array |
| `SfsTransfer.WriteStep` | kern/fs/sfs/sfs_vnode.c:277-412 | patching part of one block and writing it back is a step of writing the file's byte array |
| `SfsTransfer.MoveEnds` | kern/fs/sfs/sfs_vnode.c:417-513 | where a request stops: past the last mappable block, or at the first block for which there is no space |
| `SfsTransfer.ReadIsClipped` | kern/fs/sfs/sfs_vnode.c:426-446 | a read that starts inside the file is clipped at its end if and only if its own end is below 2^31 |
| `SfsTransfer.ReadNotClipped` | kern/fs/sfs/sfs_vnode.c:426-446 | an input where it is not |
| `SfsDirectory.LinkNames` | kern/fs/sfs/sfs_vnode.c:664-703 | binding an unused name in a free slot adds that name and changes no other |
| `SfsDirectory.UnlinkNames` | kern/fs/sfs/sfs_vnode.c:708-720 | clearing a slot removes exactly the name it bound |
| `SfsDirectory.LinksAfterPut` | kern/fs/sfs/sfs_vnode.c:556-584 | rewriting a slot moves one link from the old inode to the new one and no other count changes |
| `SfsDirectory.LinksBound` | kern/fs/sfs/sfs_vnode.c:1183-1264 | a link count never exceeds the number of slots, so 16 bits hold it |
| `SfsDirectory.NamesFillSlots` | kern/fs/sfs/sfs_vnode.c:614-703 | there are as many names as slots in use, so the directory is full exactly when the names number its slots |
| `SfsDirectory.EntriesAfterWrite` | kern/fs/sfs/sfs_vnode.c:556-584 | writing an entry's 64 bytes at a slot's offset puts that entry in that slot and changes no other slot |
| `SfsDirectory.EntryNotWritten` | kern/fs/sfs/sfs_vnode.c:556-584 | a directory write that fails has stored nothing of the entry |
| `SfsOps.LinkComplete` | kern/fs/sfs/sfs_vnode.c:1243-1264 | a new name written and the link count raised: names unique, link counts exact, and the abstract effect is one new binding |
| `SfsOps.UnlinkComplete` | kern/fs/sfs/sfs_vnode.c:1269-1297 | a slot cleared and the link count lowered: consistent again, and the abstract effect is one name less |
| `SfsOps.WholeGone` | kern/fs/sfs/sfs_vnode.c:856-924 | an inode nobody names or holds can be given up: names and link counts stay exact |
| `SfsOps.WholeCreated` | kern/fs/sfs/sfs_vnode.c:761-783 | a new inode held once and named by nobody keeps the file system consistent |
| `SfsOps.WholeDropped` | kern/fs/sfs/sfs_vnode.c:856-924 | dropping the clean vnode of a linked inode keeps everything and only forgets the reference |
| `SfsFileSystem.NewFileGone` | kern/fs/sfs/sfs_vnode.c:1214-1225 | releasing a file that never got a name undoes its creation |
| `SfsFileSystem.RenameDone` | kern/fs/sfs/sfs_vnode.c:1305-1379 | bind the new name, unbind the old one: the two steps together change the name and nothing else |
| `SfsFileSystem.Sfs.BAlloc` | kern/fs/sfs/sfs_vnode.c:60-78 | returns the lowest free block, cleared and now marked, or ENOSPC when the device is full; never block 0 and never past the end, so the invalid-block panic is unreachable |
| `SfsFileSystem.Sfs.BFree` | kern/fs/sfs/sfs_vnode.c:84-89 | frees a marked block and only that |
| `SfsFileSystem.Sfs.BMap` | kern/fs/sfs/sfs_vnode.c:115-261 | the device block behind a file block, allocated on request; every file reads as before, and a block returned is marked and is the one the file maps there |
| `SfsFileSystem.Sfs.PartialIo` | kern/fs/sfs/sfs_vnode.c:277-347 | part of one block: all the bytes move, or none (past the map, or no space) |
| `SfsFileSystem.Sfs.DirectIo` | kern/fs/sfs/sfs_vnode.c:386-409 | the uio is aimed at the device block and restored: the cursor moves by one block and exactly that block is transferred |
| `SfsFileSystem.Sfs.BlockIo` | kern/fs/sfs/sfs_vnode.c:352-412 | one whole block between file and caller, holes reading as zeros |
| `SfsFileSystem.Sfs.MoveBlocks` | kern/fs/sfs/sfs_vnode.c:447-497 | leading part, whole blocks, trailing part: the bytes moved are the file's bytes at the request's offset, up to where mapping or space ends |
| `SfsFileSystem.Sfs.Io` | kern/fs/sfs/sfs_vnode.c:417-513 | a read returns the file's bytes, with the part past the end set aside in 32-bit arithmetic, and changes nothing; a write stores exactly the bytes consumed and leaves size = max(old size, final offset) |
| `SfsFileSystem.Sfs.ReadIo` | kern/fs/sfs/sfs_vnode.c:426-513 | reading, with the part past end of file set aside and restored |
| `SfsFileSystem.Sfs.WriteIo` | kern/fs/sfs/sfs_vnode.c:447-513 | writing, including the size update after a short write |
| `SfsFileSystem.Sfs.Truncate` | kern/fs/sfs/sfs_vnode.c:1063-1157 | to any length: exactly the blocks the two loops give up are free, the bytes of all others stay, no other file changes; the invariant holds again if and only if the file now is its old bytes cut off at the length |
| `SfsFileSystem.Sfs.FindName` | kern/fs/sfs/sfs_vnode.c:614-658 | the slot binding a name if there is one, and the last free slot; never meets the name twice |
| `SfsFileSystem.Sfs.DirLink` | kern/fs/sfs/sfs_vnode.c:664-703 | binds a new name: EEXIST iff taken, ENAMETOOLONG iff too long, EINVAL iff all 1144 slots are in use; ENOSPC only if the device is full and no slot is free; files left alone on failure |
| `SfsFileSystem.Sfs.DirUnlink` | kern/fs/sfs/sfs_vnode.c:708-720 | clears an existing slot; cannot fail |
| `SfsFileSystem.Sfs.ReadDir` | kern/fs/sfs/sfs_vnode.c:523-550 | an existing slot is read whole |
| `SfsFileSystem.Sfs.WriteDir` | kern/fs/sfs/sfs_vnode.c:556-584 | overwriting a slot cannot fail; appending can, and then the directory is as it was |
| `SfsFileSystem.Sfs.LoadVnode` | kern/fs/sfs/sfs_vnode.c:1545-1651 | one more reference; an inode not in memory is read from its block; a marked-free inode is never loaded |
| `SfsFileSystem.Sfs.MakeObj` | kern/fs/sfs/sfs_vnode.c:761-783 | a new unlinked inode held once, or no space and nothing changed |
| `SfsFileSystem.Sfs.SyncInode` | kern/fs/sfs/sfs_vnode.c:37-51 | a dirty inode reaches its block |
| `SfsFileSystem.Sfs.DecRef` | kern/fs/vfs/vnode.c:72-98 | one reference less; with the last reference to an unlinked inode exactly its blocks and itself are freed, otherwise no block is |
| `SfsFileSystem.Sfs.Reclaim` | kern/fs/sfs/sfs_vnode.c:856-924 | the last reference: truncate and free if unlinked, then sync and drop |
| `SfsFileSystem.Sfs.LookOnce` | kern/fs/sfs/sfs_vnode.c:726-752 | a reference to the file of that name, or ENOENT exactly when there is none |
| `SfsFileSystem.Sfs.Creat` | kern/fs/sfs/sfs_vnode.c:1183-1236 | an existing file is opened (or EEXIST with excl); a new one is empty with one link; ENOSPC if the device was full, otherwise the result of the directory entry, with at most one block free after ENOSPC; a failed creation leaves nothing behind |
| `SfsFileSystem.Sfs.CreatNew` | kern/fs/sfs/sfs_vnode.c:1214-1236 | the same for a name that does not exist |
| `SfsFileSystem.Sfs.Link` | kern/fs/sfs/sfs_vnode.c:1243-1264 | another name for a held file, refused exactly for a name taken, too long or one too many, or with the device full; unchanged on failure |
| `SfsFileSystem.Sfs.UnlinkSlot` | kern/fs/sfs/sfs_vnode.c:1284-1291 | clears a slot and lowers the link count |
| `SfsFileSystem.Sfs.Remove` | kern/fs/sfs/sfs_vnode.c:1269-1297 | the name goes at once; the contents stay until the last reference goes |
| `SfsFileSystem.Sfs.Rename` | kern/fs/sfs/sfs_vnode.c:1305-1379 | all or nothing: the file has the new name instead of the old one, or nothing changed; ENOENT iff there is no old name, otherwise refused exactly as a link is |
| `SfsFileSystem.Sfs.Read` | kern/fs/sfs/sfs_vnode.c:929-936 | reads the held file as its byte array; EISDIR for the directory |
| `SfsFileSystem.Sfs.Write` | kern/fs/sfs/sfs_vnode.c:941-948 | writes the held file as its byte array and touches no other; EISDIR for the directory |
| `SfsFileSystem.Sfs.TruncateFile` | kern/fs/sfs/sfs_vnode.c:1063-1157 | the same as users see it: size and bytes of the held file change so and nothing else does; EISDIR for the directory; consistent again if and only if it is a proper cut |
| `SfsFileSystem.Sfs.MapIoWrite` | kern/fs/sfs/sfs_fs.c:39-73 | the whole free map reaches its blocks, and no other block changes |
| `SfsFileSystem.Sfs.Sync` | kern/fs/sfs/sfs_fs.c:80-145 | afterwards every cached inode and the free map equal what is on the device, no file has changed, and the device, read by its format alone, shows these names, files and marks |
| `SfsFileSystem.Sfs.Unmount` | kern/fs/sfs/sfs_fs.c:165-192 | EBUSY while any vnode is in memory; otherwise everything is on the device and nothing is held |
| `SfsMount.Mksfs` | sbin/mksfs/mksfs.c:116-165 | whatever the device held, the image is that of a new file system, with superblock and root inode stated byte by byte; a volume name or a device that is too large is refused, and then no block past the root inode was written |
| `SfsMount.FillBitmap` | sbin/mksfs/mksfs.c:86-114 | exactly the file system's own blocks and the numbers past its end are marked |
| `SfsMount.DoAllocBit` | sbin/mksfs/mksfs.c:75-84 | marks one bit that was not marked |
| `SfsMount.MapIoRead` | kern/fs/sfs/sfs_fs.c:39-73 | the bitmap in memory is that of the device's map blocks |
| `SfsMount.DoMount` | kern/fs/sfs/sfs_fs.c:208-311 | refuses the wrong sector size or magic number; otherwise the blocks the superblock counts, their own free map, no vnodes |
| `SfsLayout.InodeRoundTrip` | kern/include/kern/sfs.h:45-52 | an inode written to its block is the inode read back |
| `SfsLayout.EntryRoundTrip` | kern/include/kern/sfs.h:57-60 | a directory entry written out is the entry read back |
| `SfsLayout.WordsRoundTrip` | kern/include/kern/sfs.h:45-52 | words written to a block are the words read back |
| `SfsLayout.WordLayout` | kern/include/kern/sfs.h:45-52 | word i of a block, such as an entry of an indirect block, is the big-endian number in bytes 4i to 4i + 3 |
| `SfsLayout.InodeLayout` | kern/include/kern/sfs.h:45-52 | for every block: the inode read from it has its size in bytes 0 to 3, type in 4 and 5, link count in 6 and 7, direct block k in 8 + 4k and on, indirect block in 68 to 71, all big-endian |
| `SfsLayout.InodeEncoded` | kern/include/kern/sfs.h:45-52 | an inode is written as exactly these bytes |
| `SfsLayout.OneBlockHolds` | kern/include/kern/sfs.h:45-52 | these numbers determine all 512 bytes |
| `SfsLayout.EntryLayout` | kern/include/kern/sfs.h:57-60 | a directory entry is read with its inode number in bytes 0 to 3 and its name from byte 4 up to a NUL or byte 62 |
| `SfsLayout.EntryEncoded` | kern/include/kern/sfs.h:57-60 | and is written so, with zeros behind the name |
| `SfsMount.SuperEncoded` | sbin/mksfs/mksfs.c:39-56 | the superblock mksfs writes: magic number, block count and volume name at their bytes, zeros elsewhere |
| `SfsMount.RootEncoded` | sbin/mksfs/mksfs.c:58-71 | the root inode mksfs writes: bytes 4 to 7 are 00 02 00 01, all others zero |
| `SfsDevice.SyncedShows` | kern/include/kern/sfs.h:32-60 | reading the synced device with nothing but block numbers, byte offsets and big-endian numbers finds every file with its size, type, links and every byte, and a name in a directory slot exactly if the file system has it, with its inode number |
| `SfsDevice.SyncedMarks` | kern/include/kern/sfs.h:10-25 | bit b % 8 of byte b / 8 of the blocks from 2 on is set exactly for the blocks in use |
| `SfsDevice.BlockWritten` | kern/fs/sfs/sfs_vnode.c:115-261 | block k of a file is the one named in the inode's word 2 + k, or from 15 on in word k - 15 of the indirect block |
| `SfsDevice.NameFound` | kern/fs/sfs/sfs_vnode.c:523-584 | a slot of the device binds a name to an inode number exactly if that slot of the directory does |
| `Bitmaps.MaskIsShift` | kern/lib/bitmap.c:96-105 | the bit masks are the shifts that translate a number to word and mask |
| `Bitmaps.BitAfterUpdate` | kern/lib/bitmap.c:107-131 | setting or clearing one bit of a byte leaves the other seven alone |
| `Bitmaps.FullByte` | kern/lib/bitmap.c:72-94 | a byte is all ones exactly when each of its eight numbers is marked |
| `Bitmaps.MarkedAfterUpdate` | kern/lib/bitmap.c:107-131 | setting or clearing one bit adds or removes exactly one number of the marked set |
| `Bitmaps.Bitmap.constructor` | kern/lib/bitmap.c:30-64 | nothing marked below nbits, everything marked from there to the end of the last byte |
| `Bitmaps.Bitmap.Alloc` | kern/lib/bitmap.c:72-94 | the lowest unmarked number, now marked, or ENOSPC exactly when all are marked |
| `Bitmaps.Bitmap.Mark` | kern/lib/bitmap.c:107-118 | adds a number that was not marked |
| `Bitmaps.Bitmap.Unmark` | kern/lib/bitmap.c:120-131 | removes a number that was marked |
| `Uios.Uio.MoveOut` | kern/userprog/uio.c:11-82 | bytes copied out land at the iovec's base; base, length, resid and offset advance by the bytes moved |
| `Uios.Uio.MoveIn` | kern/userprog/uio.c:11-82 | bytes copied in come from the iovec's base, with the same accounting |
| `Uios.Uio.MoveZeros` | kern/userprog/uio.c:84-108 | zeros in pieces of sixteen, with the same accounting |
| `KheapRun.Run` | kern/lib/kheap.c:545-577 | for every run of allocations, stores, loads and frees from boot, at every moment the live blocks are exactly those the client has not freed, each large enough and holding the words last stored; every answer is right: null exactly when memory for that size is out, a word read is the one stored |
| `KheapRun.Step` | kern/lib/kheap.c:545-577 | one call of the client; null exactly when no block of the class is free and no page can be added, or the pages do not fit; only requests that wrap around are not issued |
| `KheapRun.HeldApart` | kern/lib/kheap.c:350-577 | two allocations not yet freed never overlap, and each is 16-byte aligned |
| `KheapState.LiveBlocksDisjoint` | kern/lib/kheap.c:350-540 | live blocks, of pages or whole pages, are pairwise disjoint |
| `KheapState.PabRoundTrip` | kern/lib/kheap.c:80-82 | page address and block type come back out of the packed word |
| `KheapSteps.OnePageChanged` | kern/lib/kheap.c:372-406 | a change confined to one page that keeps that page's free list and blocks keeps the whole invariant |
| `KheapSteps.PopKeepsInv` | kern/lib/kheap.c:378-405 | taking the head of a page's free list keeps: chains of exactly nfree distinct blocks, both lists, every block free or live |
| `KheapSteps.PushKeepsInv` | kern/lib/kheap.c:507-526 | putting a block back keeps the same, for any memory that differs only inside that block |
| `KheapSteps.FreeCount` | kern/lib/kheap.c:526-534 | a page's nfree equals its number of blocks exactly when none of its blocks is live |
| `KheapSteps.AddKeepsInv` | kern/lib/kheap.c:414-457 | a fresh page, threaded last to first and put at the front of both lists, keeps the invariant |
| `KheapSteps.RemoveKeepsInv` | kern/lib/kheap.c:307-330 | unlinking a page without live blocks from both lists and freeing its record keeps the invariant |
| `KheapSteps.ListRemove` | kern/lib/kheap.c:307-330 | letting the predecessor (or the head) take over the successor removes exactly one element of a list |
| `KheapSteps.BigAddKeepsInv` | kern/lib/kheap.c:548-560 | whole pages handed out keep the invariant |
| `KheapSteps.StoreKeepsInv` | kern/lib/kheap.c:24-30 | the owner of a block may store anywhere in it without breaking a free list |
| `KheapBlocks.PopBlocks` | kern/lib/kheap.c:378-405 | to callers, one more block of the page's size; every other block's words are unchanged |
| `KheapBlocks.PushBlocks` | kern/lib/kheap.c:507-526 | to callers, one block less; every other block's words are unchanged |
| `KheapBlocks.ListedIffOccupied` | kern/lib/kheap.c:526-534 | a page is on the list of all pages, and on some per-size list, exactly while one of its blocks is live |
| `KheapBlocks.SizeListsDisjoint` | kern/lib/kheap.c:204-230 | no page is on two per-size lists |
| `Kheap.PagesCover` | kern/lib/kheap.c:548-560 | rounding up covers the request if and only if the request is at most 2^32 - 4096 |
| `Kheap.WrappedRequest` | kern/lib/kheap.c:545-560 | a request above the last whole page of a word is rounded to no pages, so the frame returned stays free |
| `Kheap.BlockTypeFor` | kern/lib/kheap.c:332-348 | the smallest size class that holds the request |
| `Kheap.Kheap.AllocPageRef` | kern/lib/kheap.c:110-133 | the lowest record not in use, or none exactly when all are |
| `Kheap.Kheap.AllocKpages` | kern/arch/mips/mips/dumbvm.c:42-52 | the next frames as a kernel address, or 0 when they do not fit |
| `Kheap.Kheap.ThreadPage` | kern/lib/kheap.c:434-450 | each block's first word links to the block before it, and nothing outside the page changes |
| `Kheap.Kheap.NewPage` | kern/lib/kheap.c:409-457 | a fresh page at the front of both lists, or no change, and exactly when not |
| `Kheap.Kheap.TakeBlock` | kern/lib/kheap.c:378-405 | the head of the free list leaves it; the next link or the invalid offset takes its place |
| `Kheap.Kheap.FirstWithRoom` | kern/lib/kheap.c:372-378 | a page of the class with a free block, or none exactly when all are full |
| `Kheap.Kheap.SubpageKmalloc` | kern/lib/kheap.c:350-460 | a block of the class, all others unchanged; null exactly when the class is full and no page can be had |
| `Kheap.Kheap.Kmalloc` | kern/lib/kheap.c:545-563 | a new block of at least the size asked for, aligned, apart from all live ones, whose words do not change; null exactly when exhausted |
| `Kheap.Kheap.RemoveFromSame` | kern/lib/kheap.c:315-321 | the pointer walk unlinks the page from its per-size list |
| `Kheap.Kheap.RemoveFromAll` | kern/lib/kheap.c:323-329 | the pointer walk unlinks the page from the list of all pages |
| `Kheap.Kheap.DropPage` | kern/lib/kheap.c:529-534 | the page leaves both lists and its record is free again |
| `Kheap.Kheap.PageOf` | kern/lib/kheap.c:481-498 | the page of blocks that holds an address, or none |
| `Kheap.Kheap.GiveBlock` | kern/lib/kheap.c:507-526 | linked in front, every word after the link 0xdeadbeef, memory outside the block unchanged |
| `Kheap.Kheap.SubpageKfree` | kern/lib/kheap.c:462-540 | frees a block of a page and gives the page up with its last block; false exactly for whole-page blocks; the alignment panic is unreachable |
| `Kheap.Kheap.Kfree` | kern/lib/kheap.c:565-577 | the block is gone, every other block keeps its words; null is ignored |
| `Ram.StealExact` | kern/arch/mips/mips/ram.c:63-77 | the page source serves or refuses a request correctly if and only if the end address fits 32 bits |
| `Ram.StealWraps` | kern/arch/mips/mips/ram.c:63-77 | a request whose end address does not fit moves the next free address backwards |
| `Queues.RingAdd` | kern/lib/queue.c:97-107 | storing at the write position appends to the sequence the ring stands for, at every wrap position |
| `Queues.RingRem` | kern/lib/queue.c:117-120 | the element at the read position is the head of that sequence |
| `Queues.FullWhenMeeting` | kern/lib/queue.c:97-98 | the positions would meet exactly when the ring holds size - 1 elements |
| `Queues.Queue.Grow` | kern/lib/queue.c:17-51 | same contents in a ring of the doubled size, or no change without memory |
| `Queues.Queue.CopyIn` | kern/lib/queue.c:45-48 | re-adding the old elements never grows the new ring, so the mutual recursion ends after one level |
| `Queues.Queue.AddTail` | kern/lib/queue.c:90-108 | appends; doubles exactly when full |
| `Queues.Queue.RemHead` | kern/lib/queue.c:110-121 | takes the head |
| `Queues.Queue.Preallocate` | kern/lib/queue.c:70-81 | room in advance, same contents |
| `Arrays.Array.Preallocate` | kern/lib/array.c:42-65 | same contents with room for n, in new storage |
| `Arrays.Array.SetSize` | kern/lib/array.c:67-89 | keeps the common prefix; takes storage only past max, gives it back only when emptied and large |
| `Arrays.Array.Add` | kern/lib/array.c:99-114 | appends; takes storage exactly when full |
| `Arrays.Array.Remove` | kern/lib/array.c:116-127 | one element out, the others in order |
| `ThreadProofs.WakeupIs` | kern/thread/thread.c:516-544 | the removal loop wakes exactly the threads sleeping on the address, in order, and nobody else moves |
| `ThreadProofs.StepKeeps` | kern/thread/thread.c:235-544 | every step (fork with any shortage, yield, exit, P, V from threads or handlers, lock operations, the scheduler's choice) keeps the invariant |
| `ThreadProofs.RunKeeps` | kern/thread/thread.c:235-544 | every reachable state satisfies it |
| `ThreadProofs.ResumeKeeps` | kern/thread/thread.c:399-424 | what a thread does when chosen (destroy zombies, look at its semaphore or lock again, maybe sleep again) keeps the invariant |
| `ThreadProofs.SleepKeeps` | kern/thread/thread.c:501-510 | going to sleep on what is not to be had keeps the invariant |
| `ThreadTheorems.OnePlace` | kern/thread/thread.c:336-424 | in every reachable state each thread ever made is, once, in exactly one of running, run queue, sleepers, zombies, or is destroyed and in none; numthreads counts the first three |
| `ThreadTheorems.DeadStaysDead` | kern/thread/thread.c:101-118 | a zombie is never scheduled again and is destroyed only from the zombie list |
| `ThreadTheorems.NobodySleepsOnCount` | kern/thread/synch.c:65-98 | no lost wakeup: in every reachable state a positive count means that nobody sleeps on the semaphore |
| `ThreadTheorems.LockLaw` | kern/thread/synch.c:149-222 | available exactly without a holder, and then nobody sleeps on the lock |
| `ThreadTheorems.OnlyHolderReleases` | kern/thread/synch.c:196-210 | a held lock changes only through its holder's own release |
| `ThreadTheorems.FreeLockTaken` | kern/thread/synch.c:149-194 | a free lock is taken only by the thread that runs |
| `ThreadTheorems.SleepTakesStorage` | kern/thread/thread.c:382-388 | for a running thread, sleeping takes storage if and only if the sleepers array has none yet |
| `ThreadTheorems.StorageStays` | kern/lib/array.c:67-89 | that storage is never given back in any run |
| `ThreadTheorems.FirstSleepTakesStorage` | kern/thread/thread.c:173-214 | the first thread sleeping before any fork does take storage |
| `ThreadTheorems.WakeupNeedsNoRoom` | kern/thread/thread.c:536-541 | a wakeup under a running thread never grows the run queue |
| `ThreadTheorems.ForkNeedsNoRoom` | kern/thread/thread.c:276-299 | after fork's own preallocation, adding the new thread never grows the run queue |
| `ThreadTheorems.YieldGrows` | kern/thread/thread.c:379-381 | a yield grows the ring exactly when it holds size - 1 threads, and then no thread sleeps |
| `ThreadTheorems.MovesUp` | kern/thread/scheduler.c:88-119 | a thread at position i is at position i - n after n choices, whatever is added meanwhile |
| `ThreadTheorems.RunsAfter` | kern/thread/scheduler.c:88-119 | so it is the one chosen after exactly i further choices |
| `ThreadSync.SemaphoreLaw` | kern/thread/synch.c:18-98 | in every run the count is the initial value given, plus the calls of V in the run, minus the Ps that have come back, all counted from the events and from who runs on |
| `ThreadSync.SemStep` | kern/thread/synch.c:65-98 | a V raises its semaphore's count by one, a P that comes back (at once or after sleeping) lowers it by one, and no other step changes it |
| `ThreadSync.NoMoreThanAllowed` | kern/thread/synch.c:65-98 | so no more Ps ever come back than the initial value and the Vs allow |
| `ThreadSync.PTakesOrSleeps` | kern/thread/synch.c:65-86 | P comes back at once exactly on a positive count; otherwise the caller is asleep on the semaphore |
| `ThreadSync.MutualExclusion` | kern/thread/synch.c:149-222 | in no run are two threads between coming back from lock_acquire (or a successful try) and their own lock_release of one lock |
| `ThreadSync.HolderIsInSection` | kern/thread/synch.c:149-222 | the holder recorded is exactly the thread that is there, by the events of the run |
| `ThreadSync.LockStep` | kern/thread/synch.c:149-210 | coming back with a lock found it free and takes it, the holder's release frees it, nothing else changes it |
| `ThreadSync.ReleaseFrees` | kern/thread/synch.c:196-210 | after its holder's release a lock is free and nobody is in the section |
| `ThreadSync.AcquireTakesOrSleeps` | kern/thread/synch.c:149-194 | lock_acquire comes back at once, and a try says yes, exactly when nobody is in the section; otherwise the caller of lock_acquire sleeps on the lock |
| `ThreadSync.ExitIsForever` | kern/thread/thread.c:433-473 | a thread that exited at any point of a run is dead in every later state |
| `ThreadSync.YieldRunsAgain` | kern/thread/thread.c:478-488 | a thread that yields is the one chosen after exactly those who were in the run queue |
| `ThreadSync.ForkRuns` | kern/thread/thread.c:235-334 | so is a thread just forked, and it is counted |
| `ThreadSync.ForkFails` | kern/thread/thread.c:235-334 | a fork fails exactly for a shortage it meets, and then there is no new thread and nothing the others can see has changed |
| `ThreadSync.ZombiesGo` | kern/thread/thread.c:399-424 | the next thread that comes back from a switch destroys all the dead; a thread just started leaves them |
| `ThreadSystem.RunEvents` | kern/thread/thread.c:172-544 | the code, run on any sequence of events from boot, is in the state the machine says and satisfies the invariant |
| `ThreadSystem.Kernel.Wakeup` | kern/thread/thread.c:516-544 | the loop over the sleepers array is the machine's wakeup |
| `ThreadSystem.Kernel.Sleep` | kern/thread/thread.c:501-510 | thread_sleep up to the switch |
| `ThreadSystem.Kernel.Yield` | kern/thread/thread.c:478-488 | thread_yield up to the switch |
| `ThreadSystem.Kernel.Exit` | kern/thread/thread.c:433-473 | thread_exit up to the switch |
| `ThreadSystem.Kernel.Exorcise` | kern/thread/thread.c:101-118 | destroys all zombies; none of them is the running thread |
| `ThreadSystem.Kernel.Reserve` | kern/thread/thread.c:276-293 | the three preallocations, in order, with any of them failing |
| `ThreadSystem.Kernel.Fork` | kern/thread/thread.c:235-334 | the new thread last in the run queue and counted, or only the room made; fails exactly as told by the shortage |
| `ThreadSystem.Kernel.Dispatch` | kern/thread/thread.c:399-424 | the scheduler's choice and what the chosen thread does first |
| `ThreadSystem.Kernel.SemP` | kern/thread/synch.c:65-86 | one look at the count: sleep or take |
| `ThreadSystem.Kernel.SemV` | kern/thread/synch.c:88-98 | count up, everyone waiting woken |
| `ThreadSystem.Kernel.LockAcquire` | kern/thread/synch.c:149-166 | one look at the lock: sleep or take |
| `ThreadSystem.Kernel.LockTryAcquire` | kern/thread/synch.c:168-194 | takes a lock that is free and not already held by the caller, and says so |
| `ThreadSystem.Kernel.LockRelease` | kern/thread/synch.c:196-210 | only the holder's release has an effect |
| `Lser.Protocol` | kern/dev/lamebus/lser.c:17-127 | in every interleaving of interrupt-driven writers, polled writers, interrupts and device completions: never "Not clear to write", never a character given to a busy device; what the device is given interleaves the characters of the writers past P and those of the polled writers, each in the order of the calls and none missing but those not yet sent; one V per finished interrupt-driven send |
| `Lser.InterruptsOnly` | kern/dev/lamebus/lser.c:17-80 | without polled writes the device has been given exactly the characters of the writers past P, in that order, but for one not sent yet |
| `Lser.StepKeeps` | kern/dev/lamebus/lser.c:17-127 | each atomic step keeps: one permit among semaphore, writer past P and unreported send; device and flag agree |
| `Lser.Quiescent` | kern/dev/lamebus/lser.c:17-53 | with nothing outstanding every writer past P but one that has not sent yet has had its report, and without polled writes what came out is exactly what they brought |
| `Lser.Progress` | kern/dev/lamebus/lser.c:82-127 | a writer past P finds the driver clear; a completion followed by an interrupt frees the permit; a spinning writer gets through after its completions |
| `Lser.PolledIsRun` | kern/dev/lamebus/lser.c:95-127 | a polled write as a whole is a run of such steps |
| `Lser.PolledEffect` | kern/dev/lamebus/lser.c:95-127 | its character is out when it returns, after everything sent before; a pending report stays pending |
| `Lser.Softc.HandleIrq` | kern/dev/lamebus/lser.c:17-53 | clears the flag and the condition and does one V, exactly when the condition is there |
| `Lser.Softc.PassP` | kern/dev/generic/console.c:101-107 | the P of an interrupt-driven writer takes the one permit |
| `Lser.Softc.Write` | kern/dev/lamebus/lser.c:55-80 | the writer past P finds the flag clear and the device idle |
| `Lser.Softc.SpinUntilWrite` | kern/dev/lamebus/lser.c:82-93 | returns with the write-done condition set and the character in flight, if any, out |
| `Lser.Softc.WritePolled` | kern/dev/lamebus/lser.c:95-127 | the code is that polled write; flag unchanged |
| `LhdProofs.RunKeeps` | kern/dev/lamebus/lhd.c:72-247 | every interleaving of any number of clients, the card and the interrupt handler keeps the invariant |
| `LhdProofs.OneOwnerOfCard` | kern/dev/lamebus/lhd.c:199-244 | at most one thread is past P(lh_clear), and the card works only for it |
| `LhdProofs.ResultIsOwn` | kern/dev/lamebus/lhd.c:223-235 | the result a thread is about to read is that of the operation finished last, which is this thread's own, for the sector it is at, begun after its call began and after all operations for its earlier sectors; on a good read the buffer holds that operation's data |
| `LhdProofs.ReadsLatest` | kern/dev/lamebus/lhd.c:199-244 | each sector a call has read was read by an operation of its own thread during the call, in order, and is the data of the latest write to that sector finished before that operation |
| `LhdProofs.WritesDone` | kern/dev/lamebus/lhd.c:199-244 | a write call that returned success wrote each of its sectors with its own data, by operations of its own thread during the call, in order |
| `LhdProofs.SectorsLatest` | kern/dev/lamebus/lhd.c:72-104 | every sector holds the data of the latest finished write; a successful read call got all its sectors |
| `LhdCalls.CallAnswered` | kern/dev/lamebus/lhd.c:170-247 | in every interleaving, a call that is back, for the argument it was made with: on success every sector transferred in order by operations of its own thread during the call, reads with the data of the latest write before; on failure the sectors before it so, and EINVAL past the end of the disk, EFAULT after a bad buffer, or the result of its own operation for the next sector |
| `LhdCalls.RunAnswers` | kern/dev/lamebus/lhd.c:170-247 | what the driver works on is the argument of the thread's latest call, by the events of the run |
| `LhdProofs.CopyKeeps` | kern/dev/lamebus/lhd.c:226-235 | taking result and data keeps the invariant, also when the caller's buffer is bad |
| `LhdProofs.CardKeeps` | kern/dev/lamebus/lhd.c:217-221 | the card finishing, well or badly, keeps the invariant |
| `LhdProofs.AloneSector` | kern/dev/lamebus/lhd.c:199-244 | without competition, one turn of the loop as steps of that machine comes to exactly what the code of one sector promises: the sector, the result, the data, and the card free again |
| `LhdDriver.Softc.IoSector` | kern/dev/lamebus/lhd.c:199-244 | one sector: the card's result, or EFAULT for a bad buffer (before a write, after a read); sector written or data read exactly on success, semaphores as before |
| `LhdDriver.Softc.HandleIrq` | kern/dev/lamebus/lhd.c:85-104 | acknowledges and reports a finished operation, and only that |
| `LhdDriver.Softc.Io` | kern/dev/lamebus/lhd.c:170-247 | unaligned or out-of-range requests are refused; otherwise exactly the sectors before the first error of card or buffer are transferred and the result says which error |
| `VmRun.Run` | kern/arch/mips/mips/dumbvm.c:62-315 | for every run of stores, loads, forks, new programs and context switches, every answer follows from the operations before it: an access fails exactly for an address outside the regions given when the program was made (or its parent's, for a fork) or if 64 other pages were used since the last switch; forks and programs fail exactly when frames run out; a word read is the one stored there last or inherited |
| `VmRun.Exec` | kern/arch/mips/mips/dumbvm.c:62-315 | one operation is answered so, and leaves the machine as can be known from the answers |
| `VmRun.RefusedIs` | kern/arch/mips/mips/dumbvm.c:62-154 | the machine faults on an address exactly if it is refused by what is known from the operations |
| `VmState.TranslateInjective` | kern/arch/mips/mips/dumbvm.c:236-259 | different addresses of one space, and any addresses of two spaces, are different words of memory |
| `VmState.TranslatePage` | kern/arch/mips/mips/dumbvm.c:114-133 | translating an address is translating its page and keeping the offset |
| `VmState.TranslateBelow` | kern/arch/mips/mips/ram.c:63-77 | frames of a space were all handed out by the page source |
| `VmState.AddressesAre` | kern/arch/mips/mips/dumbvm.c:103-136 | a space that shows a program translates exactly the addresses in the pages its two regions touch and in the stack's pages |
| `VmState.TlbPagesCount` | kern/arch/mips/mips/dumbvm.c:138-154 | the TLB is full exactly when it translates 64 pages |
| `DumbVm.InsertOk` | kern/arch/mips/mips/dumbvm.c:138-149 | a new entry for a page that had none keeps the TLB in agreement with the space and free of duplicates |
| `DumbVm.FlushedOk` | kern/arch/mips/mips/dumbvm.c:181-195 | a flushed TLB agrees with every space, and no page appears twice even among invalid entries |
| `DumbVm.RegionCovers` | kern/arch/mips/mips/dumbvm.c:203-210 | the pages computed for a region cover it if and only if the rounding does not wrap |
| `DumbVm.RegionWraps` | kern/arch/mips/mips/dumbvm.c:203-210 | a size for which the rounding wraps and no page is counted |
| `DumbVm.RegionTouches` | kern/arch/mips/mips/dumbvm.c:203-210 | the pages recorded for a region are exactly those that its addresses touch |
| `DumbVm.DefinedShows` | kern/arch/mips/mips/dumbvm.c:197-234 | two definitions on a new space record both regions where they were asked for |
| `DumbVm.BothRegionsRecorded` | kern/arch/mips/mips/dumbvm.c:197-234 | two regions defined on a new space are both recorded if and only if the first does not begin in page 0; then a third is refused unless the second does |
| `DumbVm.FirstRegionForgotten` | kern/arch/mips/mips/dumbvm.c:197-234 | two definitions of which only the second is recorded |
| `DumbVm.CopyEffect` | kern/arch/mips/mips/dumbvm.c:277-315 | every address of the copy shows what the original showed; every other space shows what it did |
| `DumbVm.AddSpace` | kern/arch/mips/mips/dumbvm.c:236-259 | fresh frames keep all regions of all spaces apart |
| `DumbVm.Machine.VmFault` | kern/arch/mips/mips/dumbvm.c:62-154 | succeeds exactly when the address is in a region and a slot is free; then one entry that was not valid now translates the page and no other changes; otherwise the TLB is unchanged |
| `DumbVm.Machine.AsActivate` | kern/arch/mips/mips/dumbvm.c:181-195 | all entries invalid, each for its own unmapped page |
| `DumbVm.Machine.Switch` | kern/thread/thread.c:419-423 | after a switch the TLB agrees with the space of the thread that runs, if it has one |
| `DumbVm.Machine.Access` | kern/arch/mips/mips/dumbvm.c:62-154 | an access reaches the word its space maps the address to, or fails only for an unmapped address or a full TLB; a store never meets a read-only entry |
| `DumbVm.Machine.UserStore` | kern/arch/mips/mips/dumbvm.c:62-154 | changes one word of one space and nothing else |
| `DumbVm.Machine.UserLoad` | kern/arch/mips/mips/dumbvm.c:62-154 | returns the word the space holds |
| `DumbVm.Machine.AsPrepareLoad` | kern/arch/mips/mips/dumbvm.c:236-259 | frames for the three regions, disjoint and never handed out before; ENOMEM exactly when they do not fit |
| `DumbVm.Machine.Spawn` | kern/arch/mips/mips/dumbvm.c:156-259 | a new program's space shows the two regions it was given, in frames of its own; refused exactly when the frames do not fit |
| `DumbVm.Machine.AsCopy` | kern/arch/mips/mips/dumbvm.c:277-315 | equal contents in disjoint frames; ENOMEM exactly when the frames do not fit, and then no space changed |
| `VfsRun.Run` | kern/fs/vfs/vfspath.c:15-196 | every run of path operations, directory changes, forks and exits, with any answers from the file systems: each reply, each directory, the boot directory and the open files are as the calls determine, every count equals the number of holders, and no reference is left over |
| `VfsRun.Exec` | kern/fs/vfs/vfspath.c:15-196 | one call: its error, and who holds what afterwards, determined by the path, the caller's directory, the boot directory and what the file systems answer about the vnodes and names they are asked for |
| `VfsRun.InMemoryIffHeld` | kern/fs/vfs/vnode.c:72-98 | between calls a vnode is in memory exactly while it is a current directory, the boot directory or open, with a count of exactly those |
| `Vfs.CountsDetermined` | kern/fs/vfs/vnode.c:55-140 | the counts are a function of the holders |
| `Vfs.OpensWithinRefs` | kern/fs/vfs/vnode.c:100-140 | an open count never exceeds the reference count |
| `Vfs.Table.IncRef` | kern/fs/vfs/vnode.c:55-66 | one more reference, for the caller |
| `Vfs.Table.DecRef` | kern/fs/vfs/vnode.c:68-98 | one less; the vnode is reclaimed exactly with its last holder, and then it is not open |
| `Vfs.Table.IncOpen` | kern/fs/vfs/vnode.c:100-111 | the reference in hand becomes that of an open file |
| `Vfs.Table.DecOpen` | kern/fs/vfs/vnode.c:113-140 | and back |
| `Vfs.Table.GetCurDir` | kern/fs/vfs/vfscwd.c:22-36 | a reference to the current directory, or ENOENT |
| `Vfs.Table.SetCurDir` | kern/fs/vfs/vfscwd.c:42-67 | the new directory is held instead of the old one, or nothing changed |
| `Vfs.Table.ClearCurDir` | kern/fs/vfs/vfscwd.c:72-85 | the old directory is released; also what thread_exit does |
| `Vfs.Table.Chdir` | kern/fs/vfs/vfscwd.c:91-104 | the directory looked up replaces the old one, or the error says why not; no reference left in hand on any path |
| `Vfs.Table.Inherit` | kern/thread/thread.c:264-332 | a child holds its parent's directory once more; a failed fork releases it |
| `Vfs.Table.ChangeBootfs` | kern/fs/vfs/vfslookup.c:29-44 | the boot directory's old reference is dropped, the new one kept |
| `Vfs.Table.SetBootfs` | kern/fs/vfs/vfslookup.c:54-87 | the name, cut to 254 characters, is refused for any colon; otherwise it is looked up as a device, and on success boot and caller's directory are that vnode, each holding it, and no other directory changed |
| `Vfs.TrailingColon` | kern/fs/vfs/vfslookup.c:61-71 | a name with a colon at its end is treated like the name without it if and only if it is so long that the colon is cut off |
| `Vfs.TrailingColonExample` | kern/fs/vfs/vfslookup.c:61-71 | lhd0: is refused, lhd0 is not |
| `Vfs.Table.StartOf` | kern/fs/vfs/vfslookup.c:104-201 | one reference to the starting vnode exactly on success; error and vnode are those of the one right cut of the path |
| `Vfs.Table.LookParent` | kern/fs/vfs/vfslookup.c:208-234 | the starting vnode's file system is asked for the rest of the path; a reference to the parent on success, none otherwise; the error of each stage, EINVAL for a bare device |
| `Vfs.Table.Lookup` | kern/fs/vfs/vfslookup.c:236-256 | the same for the vnode itself; the starting vnode when nothing is left to translate |
| `Vfs.Table.Open` | kern/fs/vfs/vfspath.c:15-86 | success leaves one open and its reference; each of the error exits leaves nothing and returns the error of the stage that failed |
| `Vfs.Table.Close` | kern/fs/vfs/vfspath.c:88-108 | one open and its reference less |
| `Vfs.Table.OnParent` | kern/fs/vfs/vfspath.c:110-127 | remove, symlink, mkdir, rmdir: the parent's reference is dropped on every path; the error is that of the lookup or of the operation |
| `Vfs.Table.Rename` | kern/fs/vfs/vfspath.c:129-162 | both parents' references are dropped on every path; errors in the order of the stages, EXDEV across file systems |
| `Vfs.Table.Link` | kern/fs/vfs/vfspath.c:164-196 | both references are dropped on every path; errors in the order of the stages, EXDEV across file systems |
| `Vfs.Table.ReadLink` | kern/fs/vfs/vfspath.c:230-246 | the reference is dropped on every path |
| `VfsPath.GetDevice` | kern/fs/vfs/vfslookup.c:104-201 | where translation starts and what remains, as cut at the first colon or slash with following slashes skipped |
| `VfsPath.CutUnique` | kern/fs/vfs/vfslookup.c:104-201 | only one cut of a path is right |
| `Vfs.AbsolutePath` | kern/fs/vfs/vfslookup.c:104-201 | a path that begins with a slash starts at the boot file system, ENOENT without one; what is left is the path without its leading slashes |
| `Vfs.RootPath` | kern/fs/vfs/vfslookup.c:104-201 | one that begins with a colon starts at the root of the current directory's file system |
| `Vfs.DevicePath` | kern/fs/vfs/vfslookup.c:104-201 | one with a name before its first colon starts at that device |
| `Vfs.RelativePath` | kern/fs/vfs/vfslookup.c:104-201 | any other starts at the current directory and is left whole |
| `Snprintf.Vsnprintf` | lib/libc/snprintf.c:69-112 | for every format and argument list: stores the longest prefix of the full output that fits, terminates it, touches nothing else, and returns the full length |
| `Snprintf.Vprintf` | lib/libc/__printf.c:535-553 | the whole output is the format's meaning, field by field, and the count is its length |
| `PrintfReading.RenderText` | lib/libc/__printf.c:461-476 | text without a percent sign is copied, whatever follows |
| `PrintfReading.RenderField` | lib/libc/__printf.c:461-528 | a field, with any modifiers, is replaced by its text and takes one argument or none; the rest of the format means what it means alone |
| `PrintfReading.PercentSign` | lib/libc/__printf.c:510-528 | two percent signs print one |
| `PrintfReading.Placement` | lib/libc/__printf.c:330-369 | in a field wider than its text: at the left with the fill behind, at the right behind blanks, or prefix first and zeros between |
| `PrintfReading.WidthGiven` | lib/libc/__printf.c:149-206 | the number among the flags is the width, and zeros fill exactly if it begins with a zero |
| `PrintfReading.TextFields` | lib/libc/__printf.c:500-528 | strings, characters and percent signs stand for themselves |
| `Printf.NumbersMean` | lib/libc/__printf.c:213-308 | %u, %o, %x, %p and %d print digits of their base worth the argument, with 0x, 0 or a minus sign as asked for |
| `Printf.Snp.Send` | lib/libc/snprintf.c:44-64 | the buffer holds as much of what was sent as fits and is untouched from there on |
| `Printf.ModWidth` | lib/libc/__printf.c:177-204 | a zero after a nonzero width continues the width, a zero before it asks for zero fill |
| `Printf.Pf.Modifier` | lib/libc/__printf.c:149-206 | the fields stand for the modifiers read so far |
| `Printf.Pf.Convert` | lib/libc/__printf.c:378-432 | the digits written right to left in the 12-byte buffer are the numeral; no 32-bit value in base 8, 10 or 16 leaves the buffer |
| `Printf.Pf.GetNum` | lib/libc/__printf.c:213-276 | sign and magnitude of the argument, the minimum included |
| `Printf.Pf.PrintStuff` | lib/libc/__printf.c:330-369 | blanks before the prefixes, zeros after them, either behind when left-aligned |
| `Printf.Pf.PrintNum` | lib/libc/__printf.c:378-456 | a numeric field as the format means it |
| `Printf.Pf.Send` | lib/libc/__printf.c:461-528 | one format character: what was sent plus the meaning of the rest is unchanged |
| `Numerals.NumeralLength` | lib/libc/__printf.c:46-54 | a numeral in base 8 or more of a number below 8^k has at most k digits |
| `Numerals.LargestOctal` | lib/libc/__printf.c:46-54 | the largest 32-bit value has eleven octal digits, so with the terminator the buffer is exactly full |
| `Numerals.ValueOfNumeral` | lib/libc/__printf.c:400-424 | a decimal numeral stands for its number |
| `Numerals.NumeralStandsFor` | lib/libc/__printf.c:378-432 | a numeral in any base up to 16 has only digits of that base, no leading zero, and stands for its number, by what each character is worth |
| `Atoi.ParseInt` | lib/libc/atoi.c:20-72 | blanks, sign, then the value of the longest digit prefix modulo 2^32, as a signed word |
| `Atoi.AtoiReads` | lib/libc/atoi.c:20-72 | spaces and tabs, a sign or none, digits, anything else: the digits' value modulo 2^32, negated for a minus, as a signed word; 0 without digits |
| `Atoi.RoundTripExactly` | lib/libc/atoi.c:20-72 | atoi of a %d field with any modifiers is the integer printed, if and only if no zeros were filled in behind a number other than zero |
| `Atoi.PlainRoundTrip` | lib/libc/atoi.c:20-72 | atoi of a plain %d is the integer printed, the minimum included |
| `Atoi.ZerosBehindExample` | lib/libc/__printf.c:365-368 | %-05d of 42 reads back as 42000 |
| `Random.AfterIs` | lib/libc/random.c:413-442 | n steps of the sequence y[t] = y[t-deg] + y[t-sep] mod 2^32 hold its words n, n+1, ... |
| `Random.StepIsAdvance` | lib/libc/random.c:413-442 | one call of random is one step of that sequence, and returns its newest word without the low bit |
| `Random.NumbersAre` | lib/libc/random.c:413-442 | the i-th number returned is y[deg+i] without its low bit, where y starts with the words of the ring |
| `Random.SeededNumbers` | lib/libc/random.c:230-247 | number i after srandom(x): for type 0 term i + 1 of x -> 1103515245 x + 12345 modulo 2^31; otherwise y[11 deg + i] without its low bit, where y starts with the seed's words from the separation on |
| `Random.Trinomials` | lib/libc/random.c:122-154 | the degrees and separations 7 and 3, 15 and 1, 31 and 3, 63 and 1, for arrays from 32, 64, 128 and 256 bytes |
| `Random.Generator.SeedAndDraw` | lib/libc/random.c:230-442 | srandom and n calls of random return exactly these numbers |
| `Random.StepsRear` | lib/libc/random.c:427-439 | after n calls the rear pointer has moved n places round the ring |
| `Random.RingStep` | lib/libc/random.c:423-439 | adding the rear word into the front word is one step of that sequence |
| `Random.PointersStayApart` | lib/libc/random.c:427-439 | the pointers stay sep apart and never wrap in the same call |
| `Random.SameArray` | lib/libc/random.c:353-394 | n calls after the position was noted in it, setstate on the array in use keeps the generator if and only if it is of type 0 or n is a multiple of its degree |
| `Random.Generator.SetSame` | lib/libc/random.c:353-394 | the same of the code: n calls of random, then setstate with the array in use |
| `Random.SameArrayExample` | lib/libc/random.c:353-394 | one call of random is enough for that setstate to lose the position |
| `Random.Generator.Next` | lib/libc/random.c:413-442 | one step of the generator, and the number that goes with it; the noted position is left alone |
| `Random.Generator.Draw` | lib/libc/random.c:413-442 | n calls of random return the next n numbers of the generator |
| `Random.Generator.Seed` | lib/libc/random.c:230-247 | the seed itself for type 0; otherwise words from the congruential generator and ten rounds |
| `Random.SeededRear` | lib/libc/random.c:230-247 | seeding leaves the rear pointer at 0 |
| `Random.Generator.InitState` | lib/libc/random.c:281-332 | null below eight bytes; otherwise the largest type that fits, freshly seeded and noted, with the old array saved |
| `Random.Generator.SetState` | lib/libc/random.c:353-394 | refused if the first word names no type; otherwise the generator noted in the new array, and the old array notes the old one |
| `Random.Generator.Excursion` | lib/libc/random.c:281-394 | switching to another array, any sequence of setstate, initstate, srandom and random on other arrays, and back: the sequence goes on exactly where it was |
| `Pseudorand.SchrageIsProduct` | kern/dev/generic/pseudorand.c:20-39 | for every seed in range the step is 16807 * seed mod 2^31 - 1, and in range |
| `Pseudorand.NoOverflow` | kern/dev/generic/pseudorand.c:20-39 | every intermediate fits a signed 32-bit word |
| `Pseudorand.StepThenBack` | kern/dev/generic/pseudorand.c:20-39 | the step has a left inverse on the range |
| `Pseudorand.BackThenStep` | kern/dev/generic/pseudorand.c:20-39 | and a right inverse, so it permutes the range |
| `Pseudorand.IterateIs` | kern/dev/generic/pseudorand.c:20-39 | n steps multiply by 16807^n, and every iterate stays in range |
| `Pseudorand.Softc.Random` | kern/dev/generic/pseudorand.c:20-39 | the seed moves one step; the value returned is from 0 to 2^31 - 3 |

## Left out

- Copies to and from user space in SFS: only kernel buffers, so no EFAULT there. The disk driver's clients do have bad buffers.
- Device errors and retries below SFS; SFS runs on a device that succeeds. The disk driver models errors as leaving the sector alone and the buffer arbitrary.
- SfsRun.Run: truncations that leave bytes past the new end of a file are not issued, since reads after a later extension would find them; what they leave is in `SfsTruncate`.
- SfsFileSystem.Sfs.Rename: demands that the old name is not a hard link to the directory itself, which the source asserts.
- SfsMount.Mksfs: demands that the device holds the superblock, the root inode and the map.
- SfsMount.DoMount: demands a superblock whose block count does not exceed the device, for which the source only prints a warning, and leaves room for the map.
- SFS vnodes are named by inode number in a map; the order of the vnode table is not modelled. No two threads are in SFS at once, since it has no locking.
- Memory exhaustion in SFS, VFS and the thread system, except in `thread_fork`, in the heap itself, and in the queue and array.
- Kheap.Kheap.Kmalloc: stated for requests whose page count and end address do not wrap; PagesCover and StealExact show that these are exactly the requests served correctly.
- Kheap.Kheap.AllocKpages: the same for page counts.
- Kheap.Kheap.AllocPageRef: the in-use words are sequences of 32 booleans, not machine words.
- The heap's optional consistency checks and its statistics printout.
- Threads: stacks, register contexts and interrupt levels; panic and shutdown paths; overflow of a semaphore count; growth of the zombie array, which is not promised to be free of allocation.
- Condition variables (stubs in the source) and `lock_destroy`.
- Console input, the buffer for output before the console is attached, and the locks of user I/O. Unknown status codes of the disk card.
- The in-use bits, queues and counters are modelled sequentially within each region run with interrupts off; the atomicity of those regions is taken as given.
- Segment permissions (the source ignores them), loading of executables, and `as_destroy`, which frees no frames.
- VmRun.Run: programs with a region that is empty, in page 0, on a page of the other or in the stack are not issued; what defining such regions does is in `DumbVm`.
- DumbVm.Machine.VmFault: demands a fault address that no TLB entry translates, which is what the hardware faults on, and no read-only fault, which Machine.Access shows cannot arise.
- VFS device lists, volume names and `vfs_getcwd`; what file systems answer is given with each call. Reclaim is taken to succeed.
- `long long` in printf (switched off in the source) and overflow of a field width. Arguments beyond those the format takes do not matter; fewer are not allowed, as in C.
- The initial table of random.c, which is data; the byte stream of `pseudorand_read`.
- The menu, user programs, emulator file system, bus probing, trap entry and context-switch assembly, and the unfinished assignment code: no settled behaviour, or none to prove.
