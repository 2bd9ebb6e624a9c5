# Proofs about the file system, the thread libraries and the shell parser

Four pieces of stateful C code of this repository are modelled as they are
written, and each is proved to agree with something much simpler.

* **Block file system** (`FileSystem/fs.c` over `FileSystem/disk.c`). The class
  `FileSystem` holds the superblock, inode table, directory, bitmap, descriptors
  and the 12288 blocks; its methods are the calls. A ghost map gives every used
  data-area block one owner, one role and one position (`FsLayout.Owned`). The
  specification is a map from names to byte strings with open handles
  (`FsSpec.Step`), with `read` and `write` past the end as in IEEE Std
  1003.1-2017, System Interfaces, section 3. Each call agrees with the map if and
  only if it is made inside its guard (`FsCode.Do`), and runs of guarded calls,
  unmounting and mounting among them, are runs of the map.
* **Copy-on-write thread-local storage** (`Thread/ThreadLocalStorage/tls.c`).
  The class `Store` holds the doubly linked list of areas and their shared,
  guarded pages; its invariant counts page-table slots over the whole heap. The
  specification is a map from thread ids to private byte arrays.
* **User-level threads** (`Thread/UserlevelThreadingLib/threads.c`). Classes for
  the table of threads, mutexes with their linked wait lists, and barriers; and a
  transition system of a whole process with any number of mutexes and barriers,
  in which the timer may switch at any step. What `pthread_mutex_lock` and
  `pthread_barrier_wait` are for is taken from IEEE Std 1003.1-2017, System
  Interfaces, section 3.
* **Pipeline parser** (`Kernel/SimpleShell/myshell_parser.c`). The line buffer is
  an array of characters cut in place by `Trim` and `StrTok` (ISO C99, section
  7.21.5.8); the result is proved equal to a function on strings, and that
  function is proved to invert printing with any blanks in between.

Files: `Bytes`, `Sets`; `Fs*`, `FileSystem`; `Tls*`; `Threads*`; `Shell*`.
`dafny verify dfyconfig.toml` checks all of them.

## Where the code falls short of its purpose

The code is modelled as it stands, and each of these has its exact condition.

* `fs_write` skips to the next block at every positive offset that is a multiple
  of 1024; past the end of the file, where a truncation below the offset leaves a
  handle, it fills the gap with whatever the blocks there held, and a write of
  nothing makes the file longer. The content is as expected for all buffers of a
  length exactly when nothing is written inside the file, or something is at an
  offset that is no such multiple, with a gap, if any, that held zeros
  (`FsRun.WritePatchesIff`). Write 100 bytes, truncate to 10, write 5 more: bytes
  10 to 99 are the old ones (`FsRun.GapKept`).
* `fs_read` compares unsigned, and so reads on past the end of the file: its reply
  is right exactly when the offset is not past the end or nothing is asked for
  (`FsRun.ReadIff`). Write 100 bytes, truncate to 10, read 5: five old bytes.
* `fs_write` raises the size in the inode before anything can fail and never takes
  that back (`FileSystem.FileSystem.FsWrite`).
* `make_fs` truncates and zeroes the disk's file before it finds the disk in use
  (`FileSystem.FileSystem.MakeFs`).
* `fs_write` returns the length and leaves every block with one owner exactly when
  the start block exists, the end stays below 4 MiB and enough blocks are free
  (`FileSystem.FileSystem.FsWrite`): a first-level block begun while writing is
  not filled with `-1`, so block 0 becomes reachable (`FsWriting.TornNotOwned`).
* `fs_create` needs three free blocks, a name that is not empty, and a slot whose
  inode does not carry the size of an earlier file, as nothing resets it: the new
  file is empty exactly when that size is 0 (`FsRun.CreateSlots`). With two free
  blocks it returns 0 and the file's data block is number 12288, with fewer -1, but
  the name is entered and the free blocks are gone (`FsFiles.CreateFewDisk`).
* `fs_truncate` frees from the descriptor's offset, not from the new length; it
  leaves the volume consistent exactly when `FsFiles.TruncateFits` holds.
* `fs_open` looks names up without asking whether the entry is used, so the empty
  name finds an unused one, and that is the only way to break the directory
  (`FileSystem.FileSystem.FsOpen`).
* `fs_delete` does so as well, and erases whatever the unused entry leads to. With
  the empty name it returns -1 and changes nothing exactly when no entry is unused,
  its block number is none, or the first access that would change something is to
  no block (`FsErase.EraseIff`); over a superblock the first entry of the block
  decides (`FsErase.FirstDecides`). Create a file, delete it, delete the empty name:
  the blocks of the superblock, the directory and the inodes, the first of the bitmap
  and the first of the data are zeroed, and the loop runs past the end of its table
  (`FsErase.CreateDeleteDelete`).
* `fs_close`, `fs_get_filesize`, `fs_lseek` and `fs_truncate` use the descriptor as
  an index before they check it, and the check of `fs_read` and `fs_write` lets
  number 32 pass: exactly these calls are undefined for it.
* `mount_fs` clears 64 descriptors of a table of 32, and a bitmap said to have more
  than three blocks is laid past its end (`FileSystem.FileSystem.MountFs`).
* `umount_fs` does not lower `ref_cnt`: counts are exact after a remount exactly
  when no descriptor was open.
* `tls_destroy` updates neither `head` nor `tail`: the list stays sound exactly
  when the area was not the first, and `tls_clone` keeps the new area exactly when
  the last area has not been destroyed since something was last appended.
* `tls_read` and `tls_write` count bytes in an `int`, while sizes and sums are
  unsigned: they return what private arrays say exactly when the call is refused, or
  the sum does not wrap and is below 2^31 or nothing is accessed
  (`TlsRun.AccessIff`).
* Thread slot 127 can be handed out, but the scheduler looks at it only from slot
  126, and its thread's own next switch reads past the table (`Threads.LastSlot`).
* `pthread_mutex_unlock` clears `locked` while it lets a waiter go: exclusion holds
  over all runs of the form that keeps it set, and over runs as written in which no
  unlock finds a waiter; each unlock that does find one can be continued until two
  threads are inside (`ThreadsTheorems.WrittenBreaks`).
* `pthread_barrier_wait` shares `ret` between rounds: all is well over runs in
  which a round is begun only when all have left the one before; a round begun
  earlier, at a barrier for more than one thread, can be continued to a second
  `-1` and an early release (`ThreadsTheorems.OverlapBreaks`).
* The parser takes an `&` at the end of the line for the background sign even when
  it belongs to a word: printing and parsing round-trips exactly when there is none
  (`ShellPrint.RoundTrip`). A redirect sign before the first word makes the file name
  the command as well (`ShellChars.SignFirst`).

## Model

| member | source | states |
|---|---|---|
| FsBlocks.IntRoundTrip | FileSystem/fs.c:36-42 | every 32-bit `int` comes back from its four bytes, low byte first, negative ones too |
| FsBlocks.TableRoundTrip | FileSystem/fs.c:36-42 | a table of 1024 `int`s written as a block reads back entry by entry |
| FsLayout.OnePlacePerBlock | FileSystem/fs.c:36-42 | in a consistent volume no block has two places: two ways of reaching it are the same file, role and position |
| FsLayout.LayoutIsUnique | FileSystem/fs.c:326-344 | the chain of second-level, first-level and data blocks of a file is determined by the disk: two explanations of a volume agree on it |
| FsLayout.CapacityBound | FileSystem/fs.c:327-344 | by counting distinct owned blocks, no file has more than 12 first-level blocks, so an index into the second-level block stays far below 1024 |
| FsLayout.FileFrame | FileSystem/fs.c:447-482 | a file keeps its chain when its blocks keep their owners and its tables their contents, whatever else changes |
| FsLayout.StoreData | FileSystem/fs.c:449-467 | storing a data block of one file keeps every block owned |
| FsLayout.GrowFile | FileSystem/fs.c:466-482 | linking a free block in as the next data block keeps exact ownership of all files and of the bitmap |
| FsLayout.OpenDir | FileSystem/fs.c:226-235 | opening a descriptor and raising the entry's count keeps counts equal to the open descriptors |
| FsLayout.CloseDir | FileSystem/fs.c:240-250 | closing one and lowering the count keeps them equal, and finds the entry used |
| FsLayout.FreeSlotIs | FileSystem/fs.c:271-283 | the slot that is used for a new file is the first one not used |
| FsLayout.LookupIs | FileSystem/fs.c:226-235 | the lookup finds the first entry of the name, or none |
| FsWriting.StoreBlock | FileSystem/fs.c:466-468 | the full block goes to the disk: the bytes copied so far are those of the file, all others are as before |
| FsWriting.NewBlock | FileSystem/fs.c:470-477 | a new block for the next bytes reads as zeros and is owned by this file alone |
| FsWriting.WriteDone | FileSystem/fs.c:485-489 | when the last block is stored, the file holds the old bytes with the buffer over them, and no other file has changed |
| FsWriting.WriteLands | FileSystem/fs.c:420-489 | where the bytes are after a write, in arithmetic: from the offset on, or at a positive multiple of 1024 from the start of the block after the offset's; every other byte is the old one, zero in new space; the size is the larger of the old one and offset plus length |
| FsWriting.WriteFitsIff | FileSystem/fs.c:420-484 | when a write fits, in arithmetic; at a positive multiple of 1024 and below 4096 bytes, if and only if the block after the offset's exists |
| FsWriting.TornNotOwned | FileSystem/fs.c:446-465 | once a first-level block has been started without filling it with -1, no assignment of owners explains the volume |
| FsFiles.CreateOwned | FileSystem/fs.c:267-305 | three blocks taken for a new file's chain keep exact ownership |
| FsFiles.CreateThree | FileSystem/fs.c:267-305 | with three free blocks the new file is entered and has its chain, whatever size its inode keeps |
| FsFiles.CreateFew | FileSystem/fs.c:267-305 | with fewer the name is entered all the same, the inode keeps its size, and all blocks that were free are taken |
| FsFiles.CreateFewDisk | FileSystem/fs.c:285-305 | and the chain ends at block 12288, which there is not: at the inode, the second-level block or the first-level block, for none, one or two free blocks; no other block changes |
| FsFiles.DeleteDone | FileSystem/fs.c:323-354 | deleting frees and zeroes exactly the file's blocks, all other files keep their bytes |
| FsFiles.CreateThenDelete | FileSystem/fs.c:252-355 | create followed by delete of the same slot restores the disk and the bitmap |
| FsFiles.TruncateOwned | FileSystem/fs.c:547-554 | cutting entries from the kept ones on frees exactly those blocks and keeps ownership |
| FsFiles.TruncateCounts | FileSystem/fs.c:538-554 | in arithmetic, for one first-level block: the blocks up to the offset's are kept, and the new end lies in one of them if and only if the truncation is consistent |
| FsFiles.TruncateLeaves | FileSystem/fs.c:532-558 | the bytes of the blocks kept, the size and the entries of all files after a truncation |
| FsFiles.HoleNotOwned | FileSystem/fs.c:538-554 | cutting entries of a file with more than one first-level block leaves a hole that no assignment of owners explains |
| FsEffects.BlocksOfFile | FileSystem/fs.c:36-42 | a file has one second-level block, its first-level blocks and its data blocks, all marked used |
| FsEffects.CreateLeaves | FileSystem/fs.c:267-305 | a creation enters the name and the inode number, turns three free blocks into used ones and gives 4096 zero bytes |
| FsEffects.WriteLeaves | FileSystem/fs.c:411-490 | the blocks that a write adds to a file come from the free ones, and other files, entries and sizes are as before |
| FsEffects.DeleteLeaves | FileSystem/fs.c:323-354 | a deletion clears the entry and gives back as many free blocks, zeroed, as the file had, and none that was not its own |
| FsEffects.AllBlocks | FileSystem/fs.c:566-576 | no block is lost: in every consistent volume the free blocks and those of the files add up to 12282 |
| FsErase.FileErased | FileSystem/fs.c:326-352 | of a file in use the two loops erase exactly its blocks, whatever the tables of other files hold |
| FsErase.OneBlock | FileSystem/fs.c:329-343 | one round of the outer loop on any block: when it fails before changing anything, and when it changes nothing and goes on |
| FsErase.EraseIff | FileSystem/fs.c:326-344 | erasing what any entry leads to fails with nothing changed if and only if the first access that would change something is to no block |
| FsErase.FirstDecides | FileSystem/fs.c:328-329 | as long as block 0 is not zero, that is decided by the first entry of the second-level block |
| FsErase.StaleErased | FileSystem/fs.c:326-344 | an unused entry whose block has been zeroed leads to the superblock as a table: blocks 0 to 3 and the first data block are zeroed, and the outer loop leaves its table |
| FsErase.CreateDeleteDelete | FileSystem/fs.c:252-355 | so it is whenever a file has been created and deleted and then the empty name is |
| FsPersist.SuperRoundTrip | FileSystem/fs.c:96-98 | the superblock reads back from its block |
| FsPersist.InodesRoundTrip | FileSystem/fs.c:154-156 | the inode table reads back from its bytes |
| FsPersist.DirRoundTrip | FileSystem/fs.c:150-152 | the directory reads back from its bytes, names up to their NUL |
| FsPersist.LoadedPersisted | FileSystem/fs.c:138-216 | writing superblock, directory, inodes and bitmap and reading them back changes no table and no data block |
| FsPersist.RemountKeepsFiles | FileSystem/fs.c:138-216 | a remounted volume has the same owners and every file the same bytes |
| FsPersist.ValidFits | FileSystem/fs.c:186-201 | the tables of a consistent volume always fit their blocks, counts being ints |
| FsPersist.BlankOwned | FileSystem/fs.c:100-130 | the tables that are written to a new disk are consistent, with no file and all data blocks free and zero |
| FsPersist.LoadedByMade | FileSystem/fs.c:138-165 | through a superblock as made, mounting reads just the tables as written |
| FsFormat.ByteAt | FileSystem/fs.c:36-42 | byte x of a file: entry x/4194304 of its second-level block, entry x/4096%1024 of that first-level block, byte x%4096 of that block, entries being four bytes each |
| FsFormat.SuperAt | FileSystem/fs.c:5-12 | the five numbers of block 0 and their places |
| FsFormat.InodeAt | FileSystem/fs.c:14-19 | block 2 holds the block number of inode i at byte 8i and its size at 8i+4 |
| FsFormat.EntryAt | FileSystem/fs.c:21-27 | block 1 holds entry i from byte 28i on: whether it is used, the inode number at 4, the name with its NUL at 8, the count at 24 |
| FsFormat.RestAt | FileSystem/fs.c:158-165 | blocks 3 to 5 hold one byte for each block of the disk, and the data area is as it was |
| FsFormat.MadeDisk | FileSystem/fs.c:74-136 | a new disk has 12288 blocks, no file, and all of the data area zero and marked free |
| FsFormat.MountAt | FileSystem/fs.c:138-172 | what mounting gives, by the numbers in block 0 of any disk |
| FsFormat.LoadedAt | FileSystem/fs.c:147-156 | where mounting finds each inode and each entry on any disk; a name ends at its first NUL |
| FsFormat.LoadedBitmap | FileSystem/fs.c:158-165 | and each entry of the bitmap, which stays as it was where the superblock names too few blocks |
| FsSpec.CreateHolds | FileSystem/fs.c:252-283 | a new slot for an unused name is the map with that name bound to no bytes |
| FsSpec.NotCreated | FileSystem/fs.c:253-265 | a name that is too long or taken, or a full directory, is refused by the map as well |
| FsSpec.DeleteHolds | FileSystem/fs.c:310-321 | emptying a slot that no descriptor names is removing the name |
| FsSpec.WriteHolds | FileSystem/fs.c:411-490 | new bytes and a moved offset are the map's write through that handle |
| FsSpec.TruncateHolds | FileSystem/fs.c:532-536 | a shortened slot is the map's truncation |
| FsSpec.OpenHolds | FileSystem/fs.c:218-238 | the first closed descriptor on the slot is the map's first closed handle on the name |
| FsSpec.CloseHolds | FileSystem/fs.c:240-250 | a closed descriptor is a closed handle |
| FsRun.WritePatches | FileSystem/fs.c:411-490 | where the bytes come out right, the content becomes the old one with the buffer laid over it at the offset, extended if need be |
| FsRun.WritePatchesIff | FileSystem/fs.c:420-428 | for all buffers of a length that is so if and only if: not past the end, the length is 0 or the offset no positive multiple of 1024; past it, also something is written and the gap held zeros |
| FsRun.GapKept | FileSystem/fs.c:428-490 | past the end, the bytes before the offset are the old ones of the blocks, not zeros |
| FsRun.ReadIff | FileSystem/fs.c:378-383 | a read of any length through any descriptor has the map's reply if and only if it is inside its guard: the offset is not past the end, or nothing is asked of an existing block |
| FsRun.WritesIff | FileSystem/fs.c:411-490 | a write through an open descriptor comes out right for every buffer of a length if and only if it is inside its guard |
| FsRun.WriteLevels | FileSystem/fs.c:442-484 | a write that fits gives no file a second first-level block |
| FsRun.OneFirst | FileSystem/fs.c:285-305 | in every state of a guarded run each file has exactly one first-level block |
| FsRun.CreateSlots | FileSystem/fs.c:270-283 | a new file holds as many zeros as the last file of its slot had bytes, so it is empty if and only if that size is 0 |
| FsRun.CallRefines | FileSystem/fs.c:138-558 | each call inside its guard, and unmounting and mounting again, has the map's effect and the map's reply |
| FsRun.RunRefines | FileSystem/fs.c:138-558 | so every run of create, delete, open, close, write, read, seek, truncate and remount is a run of the map with the same replies |
| FsRun.FreshMeans | FileSystem/fs.c:74-172 | a new file system stands for the empty map with all handles closed |
| FsCode.Do | FileSystem/fs.c:138-558 | the code of each call has the map's reply and leaves a volume that stands for the map's result if and only if the call is inside its guard, a write being judged by its own buffer |
| FsCode.RunCalls | FileSystem/fs.c:138-558 | executing a list of calls gives the replies of the map and ends in what the map says |
| FsCode.RunFresh | FileSystem/fs.c:74-558 | so does making a file system, mounting it and then executing the calls, from the empty map |
| FsStored.StoreCareful | FileSystem/fs.c:138-490 | creating, opening, writing, closing, remounting, opening and reading are inside their guards from the start, for every name and all bytes below 4 MiB |
| FsStored.StoreAndFetch | FileSystem/fs.c:74-490 | bytes stored in a file of a new file system are what is read after a remount, for every name and all bytes below 4 MiB |
| FsEdited.EditCareful | FileSystem/fs.c:138-558 | create, open, write, seek, write over, truncate, seek, read, close, delete and open are inside their guards from the start, for every name of 1 to 15 bytes, all bytes below 4 MiB and any place but a positive multiple of 1024 |
| FsEdited.EditReplies | FileSystem/fs.c:138-558 | the replies of the map: what is read are the first bytes with the others laid over them at the place, cut to the length; the deleted name is not found |
| FsEdited.EditRun | FileSystem/fs.c:74-558 | so the code gives these eleven replies on a new file system |
| FileSystem.FileSystem.BlockWrite | FileSystem/disk.c:86-109 | 0 and the block replaced if the disk is active and the index in range, else -1 and nothing changed |
| FileSystem.FileSystem.BlockRead | FileSystem/disk.c:111-134 | the block if the disk is active and the index in range, else -1 and the buffer kept |
| FileSystem.FileSystem.FindEmpty | FileSystem/fs.c:566-576 | takes the first free block at or after the data area, one free block fewer; with none free it returns the number of blocks and changes nothing |
| FileSystem.FileSystem.CopyOut | FileSystem/fs.c:386-405 | the incremental indices address byte `offset + ii` at each iteration; the buffer gets the file's bytes, over block and level borders |
| FileSystem.FileSystem.FsRead | FileSystem/fs.c:357-409 | which bytes and how many, for any descriptor, offset and length; otherwise -1, or undefined if and only if the offset is 4 MiB or more and a first-level block for it exists |
| FileSystem.FileSystem.CopyIn | FileSystem/fs.c:442-484 | if the job fits, the byte loop ends with the buffer laid over the file's bytes and blocks taken as needed; if not, it fails or leaves a volume that no assignment of owners explains |
| FileSystem.FileSystem.FsWrite | FileSystem/fs.c:411-490 | returns n and keeps every block with one owner if and only if the write fits; then the bytes, size and offset are as specified and no other file changes; if it does not fit, the size is raised all the same, below 4 MiB the call returns -1 and keeps the offset, and without a start block it changes no block and returns -1 or is undefined, by the offset |
| FileSystem.FileSystem.FsCreate | FileSystem/fs.c:252-308 | the whole new volume, for any number of free blocks; 0 if and only if the name is new and short, a slot and two blocks are free; with three the file is there; consistent if and only if also the name is not empty and the slot's old size is below a block |
| FileSystem.FileSystem.FsDelete | FileSystem/fs.c:310-355 | -1 and no change for an unknown or open file, else exactly its blocks are freed and zeroed; for the empty name what the stale chain says, harmless if and only if `NothingErased` |
| FileSystem.FileSystem.ReleaseBlocks | FileSystem/fs.c:326-344 | the two loops on any tables are the function `EraseChain` on them |
| FileSystem.FileSystem.MakeFs | FileSystem/fs.c:74-136 | the disk holds just the empty tables over zeroed blocks; over an active disk -1, and its blocks are zeroed all the same |
| FileSystem.FileSystem.MountFs | FileSystem/fs.c:138-172 | on any disk: 0, -1 or past the bitmap as its superblock says; then the tables are those on the disk and no descriptor is open |
| FileSystem.FileSystem.UmountFs | FileSystem/fs.c:174-216 | the disk holds the tables, the data blocks untouched |
| FileSystem.FileSystem.Remount | FileSystem/fs.c:138-216 | every file keeps its bytes; counts stay exact if and only if nothing was open |
| FileSystem.FileSystem.MakeAndMount | FileSystem/fs.c:74-172 | a new file system is consistent, holds no file, and all data blocks are free |
| FileSystem.FileSystem.FreeDescriptor | FileSystem/fs.c:219-224 | the first closed descriptor, -1 if and only if all are open |
| FileSystem.FileSystem.FsOpen | FileSystem/fs.c:218-238 | the first closed descriptor on the named entry at offset 0; the directory is kept if and only if the call fails or the name is not empty |
| FileSystem.FileSystem.FsClose | FileSystem/fs.c:240-250 | closes an open descriptor and lowers its file's count, else -1; undefined outside the table |
| FileSystem.FileSystem.FsGetFilesize | FileSystem/fs.c:492-495 | the size of an open descriptor's file, else -1; undefined outside the table |
| FileSystem.FileSystem.FsLseek | FileSystem/fs.c:526-530 | moves the offset to anywhere up to the end of the file, else -1; undefined outside the table unless the offset is negative |
| FileSystem.FileSystem.CutEntries | FileSystem/fs.c:545-554 | clears exactly the entries from an index on and frees and zeroes their blocks |
| FileSystem.FileSystem.FsTruncate | FileSystem/fs.c:532-558 | sets the size and is consistent if and only if `TruncateFits`; the bytes kept and the blocks freed are exact for every file of one first-level block; of a longer one just the entries of the first level after the offset's are cut |
| TlsPages.PagesCover | Thread/ThreadLocalStorage/tls.c:124-126 | the floor and ceiling page range holds the page of every byte accessed |
| TlsPages.TouchedAt | Thread/ThreadLocalStorage/tls.c:124-126 | and, when anything is accessed, every page of the range holds a byte of it |
| TlsPages.PlaceUnique | Thread/ThreadLocalStorage/tls.c:134-135 | page number and offset determine the byte |
| TlsSlots.SlotsAt | Thread/ThreadLocalStorage/tls.c:236-239 | a page with a positive count is in some slot of some area's table |
| TlsSlots.OnlySlot | Thread/ThreadLocalStorage/tls.c:174-186 | a page counted once is in one slot only |
| TlsSlots.SharersCount | Thread/ThreadLocalStorage/tls.c:236-239 | as no table holds a page twice, the count of a page is the number of areas that hold it |
| TlsSlots.SlotsSwap | Thread/ThreadLocalStorage/tls.c:174-186 | putting a copy into a slot moves one count from the page to the copy and changes no other |
| TlsHeap.CountedNew | Thread/ThreadLocalStorage/tls.c:97-106 | new pages with count 1 keep all counts exact |
| TlsHeap.CountedCopied | Thread/ThreadLocalStorage/tls.c:174-186 | a shared page lowered by one, with its copy in the slot, keeps all counts exact |
| TlsHeap.ShownStored | Thread/ThreadLocalStorage/tls.c:188-189 | a byte stored in a page that one slot holds changes one byte of one thread's view |
| TlsHeap.CopiedNext | Thread/ThreadLocalStorage/tls.c:168-190 | byte after byte, just the pages shared and touched so far have been copied, each once |
| TlsHeap.CopiedMeans | Thread/ThreadLocalStorage/tls.c:168-190 | told by bytes: a page of the caller's gives way, once, if and only if another slot holds it and one of its bytes is written |
| TlsHeap.CountedWithout | Thread/ThreadLocalStorage/tls.c:267-275 | when a table goes, just the pages with no other slot are freed, and the counts of the others are exact |
| TlsHeap.ShownWithout | Thread/ThreadLocalStorage/tls.c:267-275 | no remaining slot refers to a freed page, and all others see the same bytes |
| Tls.Store.constructor | Thread/ThreadLocalStorage/tls.c:30-45 | a store with no area is sound |
| Tls.Store.PageMeans | Thread/ThreadLocalStorage/tls.c:97-106 | in a sound store each page is guarded and in use, and its count is the number of areas that hold it |
| Tls.Store.BytesMean | Thread/ThreadLocalStorage/tls.c:129-140 | and byte x of a thread lies in page x/p of its table at x%p, p being the page size |
| Tls.Store.Search | Thread/ThreadLocalStorage/tls.c:285-300 | the area of the thread if and only if it has one, even when `tail` is stale |
| Tls.Store.FindArea | Thread/ThreadLocalStorage/tls.c:203-223 | the same by a walk over the whole list |
| Tls.Store.SetGuards | Thread/ThreadLocalStorage/tls.c:302-317 | just the pages of the range change their guard |
| Tls.Store.TlsCreate | Thread/ThreadLocalStorage/tls.c:47-111 | a thread without an area gets one of zero bytes, on fresh guarded pages counted once; else -1 and no change |
| Tls.Store.CopyOut | Thread/ThreadLocalStorage/tls.c:129-140 | every byte copied comes from an unguarded page and is the thread's byte |
| Tls.Store.TlsRead | Thread/ThreadLocalStorage/tls.c:114-149 | the caller's bytes, or -1 outside the area, or undefined where the `int` index overflows; a wrapped sum passes the test but copies nothing; all pages are guarded again |
| Tls.Store.CopyPage | Thread/ThreadLocalStorage/tls.c:174-186 | a copy with the same bytes and count 1 in the slot, the shared page one count lower and guarded |
| Tls.Store.CopyIn | Thread/ThreadLocalStorage/tls.c:164-190 | the write loop changes the caller's bytes alone and copies each touched shared page exactly once |
| Tls.Store.TlsWrite | Thread/ThreadLocalStorage/tls.c:152-197 | the caller's entry is spliced, every other thread's is unchanged, counts are exact, no page was copied twice or without need |
| Tls.Store.AppendAtTail | Thread/ThreadLocalStorage/tls.c:226-231 | the list gains the area if `tail` is live and is no longer sound if it has been freed |
| Tls.Store.TlsClone | Thread/ThreadLocalStorage/tls.c:200-243 | the new area shares every page, counted once more; sound if and only if `tail` was live |
| Tls.Store.Unlink | Thread/ThreadLocalStorage/tls.c:260-265 | the rest of the list is linked if the area was not the first, and never if it was |
| Tls.Store.TlsDestroy | Thread/ThreadLocalStorage/tls.c:245-281 | frees exactly the pages of the area that no other slot holds; sound if and only if the area was not the first; `tail` stays live if and only if it was and the area was not the last |
| TlsRun.AccessIff | Thread/ThreadLocalStorage/tls.c:114-197 | a read or write returns what the private arrays say if and only if it is refused, or the sum of offset and length is below 2^32 and either below 2^31 or nothing is accessed, and that is its guard; when it is refused and when undefined |
| TlsRun.NextHolds | Thread/ThreadLocalStorage/tls.c:47-281 | one call on the list of areas is one call on the private arrays |
| TlsRun.AfterHolds | Thread/ThreadLocalStorage/tls.c:47-281 | so is every run of calls by any threads, each inside its guard |
| TlsRun.Do | Thread/ThreadLocalStorage/tls.c:47-281 | the code of each call, inside its guard, gives the reply of the private arrays and the next list |
| TlsRun.RunCalls | Thread/ThreadLocalStorage/tls.c:47-281 | a run of the code gives the replies of private zero-initialised arrays in which clone is a full copy and write changes the caller's only |
| TlsRun.RunNew | Thread/ThreadLocalStorage/tls.c:8-281 | so it is from the start, when no thread has an area, for any page size |
| TlsShared.SharedGuarded | Thread/ThreadLocalStorage/tls.c:47-281 | create, write, clone, write, read by both, destroy and read again are inside their guards from the start, for every area below 2^31 bytes and all writes inside it |
| TlsShared.SharedReplies | Thread/ThreadLocalStorage/tls.c:47-281 | the replies of private arrays, byte by byte: the clone has the first write alone, the first thread both |
| TlsShared.SharedRun | Thread/ThreadLocalStorage/tls.c:8-281 | so the code replies, for any page size, and the thread that has destroyed its area gets -1 |
| Threads.PickUnique | Thread/UserlevelThreadingLib/threads.c:65-84 | the search result is the one hit nearest after the caller in ring order |
| Threads.ScheduleNearest | Thread/UserlevelThreadingLib/threads.c:48-90 | with slot 127 unused, the nearest ready thread after the caller runs, and the process exits if and only if none is ready |
| Threads.LastSlot | Thread/UserlevelThreadingLib/threads.c:67-76 | exactly when the thread in the last slot is chosen; its own next switch then reads past the table |
| Threads.TurnNearer | Thread/UserlevelThreadingLib/threads.c:65-88 | a ready thread that is not chosen is strictly nearer at the next call |
| Threads.BoundedWait | Thread/UserlevelThreadingLib/threads.c:48-90 | a thread ready at each call runs within as many calls as it is slots away, so within 127 |
| Threads.SearchOn | Thread/UserlevelThreadingLib/threads.c:66-84 | one more slot walked over keeps what is known, and brings the next live slot nearer |
| Threads.ThreadTable.Search | Thread/UserlevelThreadingLib/threads.c:63-84 | the loop ends, measured by live slots still to count and the distance to the next live one, and finds the nearest hit or that there is none |
| Threads.ThreadTable.Schedule | Thread/UserlevelThreadingLib/threads.c:48-90 | the table and outcome are those of `Turn`, with one running thread |
| Threads.ThreadTable.Create | Thread/UserlevelThreadingLib/threads.c:120-161 | the lowest free slot from 1 becomes ready, -1 if there is none; the first call enters the caller as thread 0 |
| Threads.ThreadTable.Exit | Thread/UserlevelThreadingLib/threads.c:163-172 | the caller has exited and another thread runs, or the process ends |
| ThreadsSync.Mutex.Append | Thread/UserlevelThreadingLib/threads.c:211-222 | the linked list refines a queue: the thread is last, even if `List_tail` was stale |
| ThreadsSync.Mutex.Lock | Thread/UserlevelThreadingLib/threads.c:244-259 | takes a free mutex at once, else the caller is blocked and last in the queue, and another thread runs; before the first thread is created there is no slot to block in |
| ThreadsSync.Mutex.Unlock | Thread/UserlevelThreadingLib/threads.c:262-275 | the longest waiter becomes ready and leaves the queue, the flag is clear |
| ThreadsSync.Barrier.Arrive | Thread/UserlevelThreadingLib/threads.c:302-325 | the caller is noted and blocked; the last one goes on; a barrier for no thread has no room for a note |
| ThreadsSync.Barrier.Finish | Thread/UserlevelThreadingLib/threads.c:315-330 | unless `ret` is set all noted threads become ready, a fresh round is set up and -1 is due; else 0 |
| ThreadsRun.BasicKept | Thread/UserlevelThreadingLib/threads.c:48-331 | every step keeps one running thread, and queues and notes of threads that exist |
| ThreadsLists.ListedKept | Thread/UserlevelThreadingLib/threads.c:244-331 | every step keeps each list equal to the threads blocked at its place, if rounds do not overlap |
| ThreadsSafety.AwakeStep | Thread/UserlevelThreadingLib/threads.c:244-331 | whom each step wakes inside a call and whom it lets leave: the unlocked queue's first, the threads of the full round, and nobody else |
| ThreadsSafety.ExclusiveKept | Thread/UserlevelThreadingLib/threads.c:244-275 | if a released waiter finds the mutex locked, it is locked exactly when one thread is inside or let go, and never two |
| ThreadsSafety.BlockedMoves | Thread/UserlevelThreadingLib/threads.c:244-275 | by their statuses, at most one thread blocks at a mutex in a step, and comes last there, and at most one wakes, which was first |
| ThreadsSafety.CountedKept | Thread/UserlevelThreadingLib/threads.c:302-331 | each step keeps the balance of arrivals, threads still to leave, and values returned |
| ThreadsTheorems.StepKept | Thread/UserlevelThreadingLib/threads.c:48-331 | a step inside its guard keeps all invariants together |
| ThreadsTheorems.RunKept | Thread/UserlevelThreadingLib/threads.c:48-331 | so does every run |
| ThreadsTheorems.MutualExclusion | Thread/UserlevelThreadingLib/threads.c:244-275 | over all runs with handoff at most one thread is between a returned lock and its unlock, and while a thread waits somebody has the mutex or is about to |
| ThreadsTheorems.WrittenExclusion | Thread/UserlevelThreadingLib/threads.c:262-275 | the same as written, over runs in which no unlock finds a waiter |
| ThreadsTheorems.WrittenBreaks | Thread/UserlevelThreadingLib/threads.c:262-275 | from every reachable state, an unlock as written that finds a waiter has a continuation with two threads inside |
| ThreadsTheorems.BlockedIffWaiting | Thread/UserlevelThreadingLib/threads.c:211-331 | over all runs a thread is blocked if and only if it is on a wait list, on one only, and once |
| ThreadsTheorems.FirstCome | Thread/UserlevelThreadingLib/threads.c:244-275 | over all runs the threads that block at a mutex become ready in the order in which they block, and the others are still blocked there |
| ThreadsTheorems.RoundsTogether | Thread/UserlevelThreadingLib/threads.c:302-331 | over all runs no wait returns before its round is full; when all have left, each round has returned one -1 and all others 0, and the count is 0 |
| ThreadsTheorems.OverlapBreaks | Thread/UserlevelThreadingLib/threads.c:307-327 | a round begun while a thread has yet to leave the last has a continuation with one more -1 and a thread let past a round of one |
| ThreadsTheorems.TickTo | Thread/UserlevelThreadingLib/threads.c:48-90 | the timer alone brings any thread that can run to run, within as many switches as it is slots away |
| ThreadsFair.NearestRuns | Thread/UserlevelThreadingLib/threads.c:48-90 | after each step that switches (timer, exit, a lock that blocks, arriving, going on) the thread that runs is the nearest after the caller of all that can, in arithmetic, and the process ends only if there is none |
| ThreadsFair.SwitchLeaves | Thread/UserlevelThreadingLib/threads.c:244-331 | and where everybody stands then: the caller exited, blocked or ready by its call, those at a full barrier ready, all others as before |
| ThreadsFair.RunsWithin | Thread/UserlevelThreadingLib/threads.c:48-331 | over guarded runs a thread that can run all along comes to run within as many switches as it is slots away |
| ThreadsShown.HandedOver | Thread/UserlevelThreadingLib/threads.c:244-275 | from the start, for any numbers of threads and mutexes: a thread that waits for a mutex has it after the unlock, in a guarded run as written |
| ThreadsShown.Met | Thread/UserlevelThreadingLib/threads.c:302-331 | from the start: two threads meet at a barrier for two, the last returns -1 and the first 0, in a guarded run |
| ThreadsCode.DoLock | Thread/UserlevelThreadingLib/threads.c:244-259 | locking one of many mutexes takes the step of the transition system and leaves the other lists alone |
| ThreadsCode.DoUnlock | Thread/UserlevelThreadingLib/threads.c:262-275 | so does unlocking |
| ThreadsCode.DoArrive | Thread/UserlevelThreadingLib/threads.c:302-325 | so does arriving at one of many barriers, with the value returned |
| ThreadsCode.DoFinish | Thread/UserlevelThreadingLib/threads.c:315-330 | so does going on from it |
| ThreadsCode.RunActs | Thread/UserlevelThreadingLib/threads.c:48-331 | a run of the code on tables and linked lists is the run of the transition system |
| ThreadsCode.RunProcess | Thread/UserlevelThreadingLib/threads.c:92-331 | so it is from the start: mutexes and barriers made, the first thread created, then any guarded steps |
| ShellText.TokensFirst | Kernel/SimpleShell/myshell_parser.c:100-104 | the first token is the maximal run of characters after the leading delimiters, and the others are those of the rest |
| ShellText.TokensFit | Kernel/SimpleShell/myshell_parser.h:16-19 | a string of n characters has at most (n+1)/2 tokens, so the argument arrays are never overrun |
| ShellText.TrimTwice | Kernel/SimpleShell/myshell_parser.c:157-165 | trimming a file name twice is trimming it once |
| ShellBuffer.Trim | Kernel/SimpleShell/myshell_parser.c:61-76 | the string in the buffer is the trimmed one, and nothing outside the old string has changed |
| ShellBuffer.TrimmedAt | Kernel/SimpleShell/myshell_parser.c:65-73 | the cut at the end and the move of what is left give the trimmed string, also for a string of spaces only |
| ShellBuffer.StrTok | Kernel/SimpleShell/myshell_parser.c:81-86 | the first token is cut off in place, and the string from the saved place on has just the others |
| ShellParser.Args | Kernel/SimpleShell/myshell_parser.c:123-130 | the arguments are the words of the string, and there is room for them |
| ShellParser.ParseCmd | Kernel/SimpleShell/myshell_parser.c:78-89 | the places kept are those of the trimmed parts between bars, disjoint and in order |
| ShellParser.ToArg | Kernel/SimpleShell/myshell_parser.c:157-165 | a copy of the string, trimmed |
| ShellParser.StrChr | Kernel/SimpleShell/myshell_parser.c:97-98 | the first occurrence, none if and only if the character is absent |
| ShellParser.CutRedirect | Kernel/SimpleShell/myshell_parser.c:105-121 | words and file name as cut in place, with the name trimmed where it stands |
| ShellParser.ToToken | Kernel/SimpleShell/myshell_parser.c:91-131 | the command that the string stands for; only its own part of the buffer changes |
| ShellParser.PipelineBuild | Kernel/SimpleShell/myshell_parser.c:8-40 | for every line the result is `ParseLine`; lines too long or blank read outside the buffer |
| ShellPrint.WordsTokens | Kernel/SimpleShell/myshell_parser.c:123-128 | words with blanks between them are cut into just these words |
| ShellPrint.RedirectedIs | Kernel/SimpleShell/myshell_parser.c:105-121 | words, a redirect sign, blanks and a name give back the words and the name |
| ShellPrint.CommandIs | Kernel/SimpleShell/myshell_parser.c:91-131 | a written command parses to what is meant, with or without a redirect, at the ends of the line or inside |
| ShellPrint.SegmentsAre | Kernel/SimpleShell/myshell_parser.c:78-89 | cut at the bars and trimmed, the line gives the commands' texts, whatever blanks surround them |
| ShellPrint.LineTrimmed | Kernel/SimpleShell/myshell_parser.c:15-19 | trimming takes just the outer blanks, up to the background sign |
| ShellPrint.RoundTrip | Kernel/SimpleShell/myshell_parser.c:8-40 | with any blanks in between, parsing gives back the pipeline if and only if it is in the background or its text does not end in `&` |
| ShellPrint.PrintParse | Kernel/SimpleShell/myshell_parser.c:8-40 | every printable pipeline that fits the line is parsed back from its printed form |
| ShellChars.EndsIgnored | Kernel/SimpleShell/myshell_parser.c:61-76 | spaces, tabs, newlines, carriage returns, vertical tabs and form feeds at the ends of a line make no difference |
| ShellChars.UndefinedIff | Kernel/SimpleShell/myshell_parser.c:8-19 | a line is not parsed if and only if it has 512 characters or more, or only such |
| ShellChars.RoundTripChars | Kernel/SimpleShell/myshell_parser.c:8-40 | the round trip for words and names given by their characters: a word has none of the six and no bar, at the ends of the line no redirect sign but `>` before a `<`; a name has no bar, and none of the six at its ends |
| ShellChars.PrintChars | Kernel/SimpleShell/myshell_parser.c:8-40 | every pipeline of such words and names that fits the line is parsed back from its printed form if and only if it is in the background or its last word or name does not end in `&` |
| ShellChars.SignFirst | Kernel/SimpleShell/myshell_parser.c:105-121 | a redirect sign before any word: what follows is both the words and the file name |
| ShellChars.Example | Kernel/SimpleShell/myshell_parser.c:8-40 | one line with two commands, both redirects and a background sign |

## Left out

- Host file calls of the block device, `make_disk`, `open_disk` and `close_disk` on real files: the disk is a sequence of blocks with an active flag, and the name of the disk is not looked at.
- `fs_listfiles`, scratch buffers, allocation failures and leaks on error returns: they add only easy claims.
- FileSystem.FileSystem.FsRead: does not model buffers of 2^31 bytes and more; `fs_write` likewise.
- FsCode.Do: says of deleting the empty name only that it agrees with the map inside its guard; outside it the volume may by chance still stand for the map, and `FsDelete` states when it is unchanged.
- FileSystem.FileSystem.FsWrite: does not say what the blocks hold after a write that starts in a block of the file but does not fit, as it runs out of blocks or past 4 MiB; if it returns its length, only that no assignment of owners explains the volume.
- FileSystem.FileSystem.MountFs: the loop that clears descriptors stops at 32, at the end of their table, where the code's runs to 64.
- FsRun.RunRefines: does not cover runs that leave a guard (reads past the end, writes at a positive multiple of 1024, files of 4 MiB and more, too few free blocks); what the calls do there is stated by their methods.
- Files of more than one first-level block: no guarded run makes one (`FsRun.OneFirst`), so what `CopyOut`, `FileErased` and `HoleNotOwned` say of further levels is about volumes made otherwise; a write repaired to fill a new first-level block with -1 is not part of this model.
- Bytes of a directory name after its NUL: names are kept up to the NUL.
- Update in place of the disk, tables, directory, bitmap and descriptors: these are sequences in fields that the methods reassign, and a block buffer is a sequence.
- `mmap`, `mprotect`, the fault handler and the mutex around the copy loops: a page has bytes and a guard, and each call is one step.
- TlsRun.RunCalls: does not cover runs that destroy the first area of the list or clone while `tail` is stale; `TlsDestroy` and `TlsClone` state that exactly these lose the list.
- Page bytes and page tables are sequences in the fields of pages and areas, not arrays; a use of freed memory is only stated as reaching a freed area.
- `setjmp`, `longjmp`, registers, stacks, timers and signals: a switch is a change of the running thread and of statuses, and the timer is a step that may come at any time.
- `pthread_join`: it waits by polling and exits its caller; so slots are never given back.
- `pthread_mutex_init` on a mutex in use, `pthread_mutex_destroy` and `pthread_barrier_destroy`: allocation only.
- Barriers for no thread and locks taken before the first thread is created: stated by the methods, not part of the transition system.
- Threads.ThreadTable.Create: is one step, where the code enters the new slot before it sets its status with the timer running; a switch in between is not modelled.
- ThreadsTheorems.MutualExclusion: does not model an unlock by a thread that is not inside, which POSIX leaves undefined.
- ThreadsTheorems.WrittenBreaks: exhibits one continuation, it does not describe all runs after a contended unlock.
- The list of commands and the argument arrays are sequences; `pipeline_free`, running the pipeline and the prompt are not modelled.
- ShellParser.PipelineBuild: does not say what is read outside the buffer when a line is blank or has 512 characters or more.
- ShellPrint.RoundTrip: does not model blanks other than space, tab and newline between words, nor two redirects in one command, which the parser does not separate.
- The Processes demos, the MIPS lab programs, the 6502 emulator and the SimpleOS boot stub: one instruction, fixed inputs or straight-line code.
