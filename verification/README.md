# LunaOS, verified parts

A Dafny model of the parts of LunaOS where a mistake loses data or memory, with proofs of what they promise:

- **The FAT file system** (`kernel/src/fatfs`): the FAT as an array of entries stored in bytes, allocating and releasing
  clusters, open files as byte arrays with a cursor, directories, long and short names, formatting and mounting.
- **Memory**: the buddy allocator, the page bitmap, four-level page tables, the free-list heap, and the allocator of
  virtual address ranges (`kernel/src/memory`).
- **The scheduler** (`kernel/src/tasking`): queue 0 and how long a job waits in it.
- **Buffered streams** of the C library (`mlibc/options/ansi`).

Every transfer to or from a drive may fail, at any time; a failed write leaves anything in the sector it aimed at. What
is promised after a disk error is stated with each operation. Numbers are unbounded; where the source's 32 or 64 bits
matter (the 4 GiB limit of a file, unsigned tests such as "among the next sectors", sizes that wrap around) the wrapping
is written out. Bit operations by powers of two are written as `/` and `%`; those that are more than that (`|`, `^`,
`v |= v >> k`) are functions on binary digits.

## Main results

- **Files.** Every sequence of `f_read`, `f_write`, `f_lseek`, `f_truncate` and `f_sync` on a file acts on one byte
  array, whatever is cached, dirty or transferred past the cache (`FatFile.File`). What was written is read back
  (`FatFiles.WriteThenRead`).
- **Many files.** Any number of files open on one volume are that many byte arrays: every run of calls on them, however
  interleaved, does to each what its own calls do, and nothing to the others (`FatSession.RunIsApart`). That is so as
  long as each call finds only sectors of their own in the caches of the other files. All calls keep that but
  `f_truncate`, and that one exactly if its cached sector is one of a cluster the file keeps (`SettledStays`,
  `SessionIsApart`); the condition is needed (`FatSession.SettledIff`, `FatStale.StaleCache`). What the other files hold
  on the drive stays in any case, also when a disk error comes up. `FatServe.Perform` is that theorem for the methods of
  the model: a list of calls on any of the files is carried out in order, each gets its answer, and what it has done is
  what was asked, up to the first disk error that puts a file out of use. A write stops short only if the volume has no
  free cluster left or the file cannot be longer, a seek only on a full volume and behind the last byte.
- **What is saved survives.** After `f_sync` the drive is mounted anew with nothing kept in memory, comes to the same
  layout, and the file opened by its directory entry holds what it held (`FatReopen.SyncThenReopen`); no run of calls
  touches the boot record or the partition table (`FatSession.RunKeepsFront`).
- **The FAT.** Every run of `create_chain` and `remove_chain` calls keeps the table a set of chains, and the one exception,
  a FAT12 entry left half-written by a disk error, is characterised exactly (`FatRuns`).
- **Names.** A name of any length goes through `create_name`, `dir_register`, `dir_read` and `get_fileinfo` and comes back
  as it was, trimmed; after any run of stores a directory lists exactly the names stored (`FatReaddir`), from the moment it
  was formatted (`FatWhole.StoreFresh`). A name stored is found by `dir_find` in whatever case it is asked for, and what
  is found has that name or that short name (`FatFind.Lookup`, `FatFind.StoreThenFind`).
- **Formatting.** Whatever drive `f_mkfs` formats is mounted with the layout chosen, with all clusters free and an empty
  root directory; with default options only drives of fewer than 191 sectors are given up (`FatFormat`, `FatMount`).
- **Memory.** The buddy allocator's blocks tile the arena and are completely coalesced, with the free blocks a function of
  those in use (`BuddyTree.Canonical`). Mapping and unmapping change the translation of one page only, no table is kept
  empty, and once nothing is mapped every table page is free again (`Paging.Space.AllGivenBack`).
- **Scheduling.** A job with k jobs ahead of it runs within 52 k ticks, whatever comes and goes (`Turns.RunsWithin`), and
  the linked queue of the source refines the machine this is proved of (`Scheduler.Queue`).

Predicates and functions that recurse on a `countdown` (`Core`, `Ready`, `Tree` and others, each with a lemma `...AfterIs`)
say no more than their innermost definition. The countdown keeps a proof from unfolding them where that is not asked for;
the lemmas that unfold them are not results.

## Findings

Places where the code does not do what one would expect, each with the exact condition:

- A FAT12 entry that lies across two sectors is stored in two steps. A disk error between them leaves a mixture of the old
  and the new value, which may link to a free cluster: exactly on FAT12 volumes with an entry 341 (`FatRuns.TornIff`; the
  empty volume whose hint is 340 is `FatRuns.TornEntry`). For one call the condition is `FatRuns.CreateIff`.
- `f_truncate` leaves its cached sector as it is, also one of a cluster that it frees. If another file then writes there
  and gives the cluster up, and the first takes it back by `f_lseek`, that file has one content in its cache and another on the drive, with nothing
  to write back (`FatStale.StaleCache`, on every volume with clusters of one sector). It cannot happen exactly if the
  cached sector is none or one of a cluster that is kept (`FatSession.TruncateIff`).
- `create_chain` stopped by a disk error after its first step leaves a cluster marked and not linked, and the cached free
  count one too high (`FatAlloc.CountTooHigh`, on every volume of two clusters or more). Whatever the outcome the count is
  right exactly if it is unknown, nothing is to be appended, no cluster is free, or a new chain is begun with a cluster
  whose entry lies in one sector (`FatAlloc.CountIff`).
- `remove_chain` stopped by a disk error half way through a FAT12 entry can leave the cached free count one too low:
  entry 341 with the link to cluster 5 reads as free once its first half is stored (`FatRuns.CountTooLow`, on every FAT12
  volume with such an entry). Whatever the outcome the count is right exactly if it is unknown, nothing is to be removed,
  or no cluster of the chain has an entry across two sectors whose first half holds all of its value
  (`FatRuns.RemoveCountIff`).
- `f_getfree` on FAT16 and FAT32 counts from entry 0, so that a zero in one of the two reserved entries is counted as a
  free cluster (`FatAlloc.GetFree`, `FatAlloc.ReservedCounted`).
- `sync_fs` does not look at the result of writing the free-cluster record. FR_OK means that the record tells count and
  hint, whatever became of that write, exactly if none was due: on FAT12 and FAT16, where the boot record names no record,
  and where neither has changed (`FatEntry.InfoIff`; what else may have changed is `FatEntry.SyncFs`).
- `sync_window` does not look at the result of writing the second FAT. FR_OK means that the FATs agree, whatever became of
  that write, exactly if there is one FAT only, or the window is clean or outside the first FAT (`FatVolume.MirrorIff`).
- `find_volume` passes over a partition whose start cannot be read. It finds the right volume or none, whatever cannot be
  read, exactly if no two partitions with a FAT boot record start at different sectors (`FatMount.FindIff`; on a drive
  with two of them an unreadable first one makes it mount the second, `FatMount.RivalDrive`).
- The buddy allocator's `alignToPowerOfTwo` gives 0 for sizes above 2^63, so that `allocate` then hands out a tiny block;
  its 18-byte header fits every block exactly if the arena has at least 32 bytes (`Buddy.Allocator`).
- The page bitmap is searched for as many pages as it has bytes, not bits: a page is found exactly if one of those is free
  (`PageBitmap.Allocator.NextBlock`), and on a bitmap of one byte with page 1 free none is (`PageBitmap.Overlooked`).
- `pagingVirtualToPhysical` drops the offset in a page of 2 MiB or 1 GiB: the address is right exactly if the walk comes
  to no large page or the offset in it is 0 (`Paging.Space.VirtualToPhysical`; such a page is `Paging.LargePage`).
- An unmapped table entry keeps its old frame number, and mapping again ors the new one into it (`Paging.LinkedAgain`).
- `heapExpand` takes a page for every page of the whole heap, not only for the step it grows by (`Heap.Heap.TakePages`).
- The header of a heap chunk takes 17 bytes, and its sum with the largest sizes wraps around (`ChunkList.GrantedSoundIff`).
- The first heap chunk counts the whole heap as room behind its header. What is granted stays within the heap
  (`Heap.GrantedWithin`), but the header of what is left of a chunk does so exactly if there are 17 bytes between what is
  granted and the end of the heap (`Heap.GrantedHeaders`; an allocation of all the room is `Heap.HeaderBehind`).
- `useRange` of pages that begin a free range leaves that range as long as it was, over the rest
  (`Ranges.UsedSoundIff`), and `allocateRange(0)` gives out an empty range (`Ranges.TakenSoundIff`).
- An idle processor with jobs in line needs one tick more than the bound (`Turns.IdleWaits`).

## Model

| member | source | states |
|---|---|---|
| FatTable.PutEntry | kernel/src/fatfs/ff.cpp:1209-1258 | for each table type: the entry stored is read back masked, and every other entry is as it was, also the FAT12 neighbour that shares a byte |
| FatTable.ReservedBits | kernel/src/fatfs/ff.cpp:1243-1254 | the four bits of a FAT32 slot that are not part of the entry survive a put of any entry |
| FatVolume.Volume.SyncWindow | kernel/src/fatfs/ff.cpp:1025-1043 | writing the window back changes nothing the volume code sees, keeps the second FAT a mirror of the first, and on an error leaves the window dirty |
| FatVolume.MirrorIff | kernel/src/fatfs/ff.cpp:1025-1043 | FR_OK means that the second FAT mirrors the first, whatever became of the transfers, iff there is one FAT only or no dirty sector of the first FAT in the window |
| FatVolume.Volume.MoveWindow | kernel/src/fatfs/ff.cpp:1047-1068 | the window holds the sector asked for as the volume code sees it; nothing else changes, and an error leaves the window where it was or empty |
| FatVolume.Volume.GetFat | kernel/src/fatfs/ff.cpp:1131-1199 | the entry of the array, or all ones for a disk error; 1 for a number out of range; no entry changes |
| FatVolume.Volume.PutFat | kernel/src/fatfs/ff.cpp:1209-1258 | exactly one element of the array is assigned; on a disk error none is, or an entry across two sectors is left half-written; reserved bits and everything behind the FATs stay |
| FatChain.HeadsDisjoint | kernel/src/fatfs/ff.cpp:1494-1585 | in a table that is a set of chains, chains from different first clusters have no cluster in common |
| FatAlloc.AppendChains | kernel/src/fatfs/ff.cpp:1570-1573 | appending a free cluster lengthens the chain that ended at the given cluster by just that one and leaves every other chain |
| FatAlloc.CreateChain | kernel/src/fatfs/ff.cpp:1494-1585 | for every argument, hint and table: the next cluster, or the first free cluster from the one behind the argument or the hint on, appended, with hint and count moved; 0 only if none is free, 1 for a bad argument; after a disk error exactly which tables and counts are possible |
| FatAlloc.CountIff | kernel/src/fatfs/ff.cpp:1568-1582 | the cached count is unknown or exact after every outcome of create_chain iff a condition on table, argument, hint and count holds that a caller can tell beforehand |
| FatAlloc.CountTooHigh | kernel/src/fatfs/ff.cpp:1568-1582 | on every volume of two clusters or more a disk error can leave the count too high |
| FatAlloc.RemoveChain | kernel/src/fatfs/ff.cpp:1399-1485 | exactly the suffix of the chain is free and the cluster before it ends the chain; after a disk error a first part of that has been done; the count has gone up by the clusters freed, whatever the outcome |
| FatAlloc.RemoveElsewhere | kernel/src/fatfs/ff.cpp:1399-1485 | whatever the outcome of remove_chain, no entry but the predecessor's and those to be freed has changed |
| FatAlloc.AppendStoppedCount | kernel/src/fatfs/ff.cpp:1570-1582 | an appending stopped by a disk error that has changed the table at all has taken exactly one free cluster |
| FatAlloc.GetFree | kernel/src/fatfs/ff.cpp:4750-4833 | the exact number of free clusters plus, on FAT16 and FAT32 scans, the zeros among the two reserved entries; the cached count is right afterwards exactly if there are none of those |
| FatAlloc.ReservedCounted | kernel/src/fatfs/ff.cpp:4804-4822 | for every table size there is a table on which the scan counts two clusters too many |
| FatRuns.PutSafeIff | kernel/src/fatfs/ff.cpp:1222-1234 | every outcome of a failing put keeps the table a set of chains iff the entry does not lie across two sectors or its half-written form does |
| FatRuns.CreateIff | kernel/src/fatfs/ff.cpp:1494-1585 | every outcome of create_chain keeps the table a set of chains iff a condition on table, argument and hint holds that a caller can tell beforehand |
| FatRuns.RemoveIff | kernel/src/fatfs/ff.cpp:1399-1485 | the same for remove_chain |
| FatRuns.RemoveCountIff | kernel/src/fatfs/ff.cpp:1424-1456 | the cached count is unknown or exact after every outcome of remove_chain iff a condition on table, argument and count holds that a caller can tell beforehand |
| FatRuns.CountTooLow | kernel/src/fatfs/ff.cpp:1424-1456 | on every FAT12 volume with an entry across the first two sectors a disk error can leave the count too low |
| FatRuns.RunKeeps | kernel/src/fatfs/ff.cpp:1399-1585 | from a table that is a set of chains, every run of create_chain and remove_chain calls, with disk errors wherever the condition holds, meets only such tables |
| FatRuns.TornIff | kernel/src/fatfs/ff.cpp:1222-1234 | the volumes on which a disk error in create_chain, for some table, argument and hint, breaks the table are exactly the FAT12 ones with an entry 341 |
| FatRuns.TornEntry | kernel/src/fatfs/ff.cpp:1222-1234 | on such a volume, empty and with hint 340, it does |
| FatRuns.CreateElsewhere | kernel/src/fatfs/ff.cpp:1494-1585 | whatever create_chain comes back with, no cluster in use but the one stretched has changed its entry |
| FatLayout.LbaInjective | kernel/src/fatfs/ff.cpp:1114-1122 | different sectors of a file lie in different sectors of the drive |
| FatLayout.WriteSectors | kernel/src/fatfs/ff.cpp:4011-4016 | whole sectors written in one go overwrite just those bytes of the file |
| FatSeek.PositionIsWalk | kernel/src/fatfs/ff.cpp:4452-4518 | the cluster and sector of a file's cursor are those found by walking the chain from its start |
| FatFile.File.constructor | kernel/src/fatfs/ff.cpp:3791-3805 | a file just opened holds the bytes of its chain on the drive, with the cursor at 0 |
| FatFile.File.Read | kernel/src/fatfs/ff.cpp:3850-3940 | gives the bytes of the file at the cursor, as many as asked for or as are left, through the cache or past it; contents, FAT and other clusters stay, also on a disk error |
| FatFile.File.Write | kernel/src/fatfs/ff.cpp:3950-4062 | the file is overwritten from the cursor on, fewer bytes only if no cluster is free or the file would reach 4 GiB; only its own and formerly free clusters change; a disk error leaves what lies before the cursor |
| FatFile.File.Seek | kernel/src/fatfs/ff.cpp:4367-4522 | the cursor is at the offset asked for, clipped to the size of a file only read, or at the end of the chain if the drive is full; what the file held stays and it is longer only if sought behind its end |
| FatFile.File.Truncate | kernel/src/fatfs/ff.cpp:4842-4883 | the file ends at the cursor and exactly the clusters it no longer needs are free; a disk error touches neither the bytes before nor any other cluster |
| FatFile.File.Sync | kernel/src/fatfs/ff.cpp:4071-4141 | drive and memory agree, and the directory entry tells first cluster and size; on a disk error which of the file's own sector and the entry may have changed |
| FatFile.File.EntryStays | kernel/src/fatfs/ff.cpp:4071-4141 | whatever is done to a file, the sector with its directory entry does not become one of its own, free, or its cached one, so that f_sync can follow any run |
| FatEntry.SyncFs | kernel/src/fatfs/ff.cpp:1078-1104 | the window is on the drive; no sector changes but the free-cluster record where that is due, which holds count and hint if the drive took it and is due no longer |
| FatEntry.InfoIff | kernel/src/fatfs/ff.cpp:1083-1098 | on volumes of every type FR_OK means that the record, where there is one, tells count and hint, whatever became of the write, iff none was due |
| FatEntry.UpdatedTells | kernel/src/fatfs/ff.cpp:4124-4134 | the entry that f_sync writes reads back the first cluster and the size, for every FAT type |
| FatEntry.UpdatedElsewhere | kernel/src/fatfs/ff.cpp:4124-4134 | no byte outside the entry has changed |
| FatApart.OtherFile | kernel/src/fatfs/ff.cpp:3950-4062 | a file with clusters of its own keeps chain and bytes whatever another one takes or writes |
| FatFiles.OtherStays | kernel/src/fatfs/ff.cpp:3950-4062 | whatever has been done to one file with success, any other open file with a cached sector of its own, or none, stays valid with the same bytes |
| FatFiles.OtherIntact | kernel/src/fatfs/ff.cpp:3950-4062 | and any other open file whatever holds the same bytes, also if it was stopped by a disk error |
| FatSession.StepKeeps | kernel/src/fatfs/ff.cpp:3850-4883 | one call on one of any number of open files does to it what it does to a byte array, stopping short only on a full volume or at the longest a file can be, leaves the bytes and cursors of all others, and all of them fit for use |
| FatSession.RunIsApart | kernel/src/fatfs/ff.cpp:3850-4883 | every run of calls, however interleaved, in which no call finds a foreign sector in the cache of another file, is a run on byte arrays that have nothing to do with each other |
| FatSession.SettledStays | kernel/src/fatfs/ff.cpp:3850-4883 | every call keeps a cached sector of the file's own, but that f_truncate does iff the sector is one of a cluster it keeps |
| FatSession.SettledIff | kernel/src/fatfs/ff.cpp:3917-3930 | an open file is as fit as it was whatever is written to clusters that are not its own iff its cached sector is none or its own |
| FatSession.TruncateIff | kernel/src/fatfs/ff.cpp:4842-4883 | after f_truncate that is so iff the cached sector was none or of a cluster that is kept |
| FatSession.GuardedIsQuiet | kernel/src/fatfs/ff.cpp:3850-4883 | from files just opened no run comes to a foreign sector in a cache if f_truncate is only called on such caches |
| FatSession.SessionIsApart | kernel/src/fatfs/ff.cpp:3850-4883 | so all those runs are runs on separate byte arrays |
| FatSession.RunKeepsFront | kernel/src/fatfs/ff.cpp:3850-4883 | no run changes a sector before the FATs but the free-cluster record |
| FatSession.ReadAmong | kernel/src/fatfs/ff.cpp:3850-3940 | f_read on one of any number of open files is such a call; the others hold the same bytes even on a disk error |
| FatSession.WriteAmong | kernel/src/fatfs/ff.cpp:3950-4062 | the same for f_write |
| FatSession.SeekAmong | kernel/src/fatfs/ff.cpp:4367-4522 | the same for f_lseek |
| FatSession.TruncateAmong | kernel/src/fatfs/ff.cpp:4842-4883 | the same for f_truncate |
| FatSession.SyncAmong | kernel/src/fatfs/ff.cpp:4071-4141 | the same for f_sync, with all files fit for use even on a disk error |
| FatServe.TidyIff | kernel/src/fatfs/ff.cpp:4842-4883 | when the cluster of the cached sector decides whether f_truncate leaves a tidy cache, and that it is looked for among the clusters kept |
| FatServe.Serve | kernel/src/fatfs/ff.cpp:3850-4883 | a call asked for does just that one, on the file asked for, and is denied iff the mode does not allow it, with nothing changed; a disk error puts its file out of use and leaves the others what they held |
| FatServe.AnsweredIsRun | kernel/src/fatfs/ff.cpp:3850-4883 | calls answered one by one are a run in which f_truncate is only called on tidy caches |
| FatServe.Perform | kernel/src/fatfs/ff.cpp:3850-4883 | any list of reads, writes, seeks, truncations and syncs is answered in order, up to a disk error that puts a file out of use; what has been done is the calls asked for, and a run on separate byte arrays |
| FatStale.StaleCache | kernel/src/fatfs/ff.cpp:4842-4883 | a file cut off before its cached cluster is unfit for use once another file has written there; that one gives the cluster up by f_lseek and f_truncate, the first takes it back by f_lseek, and then cache and drive differ with nothing to write back |
| FatFiles.WriteThenRead | kernel/src/fatfs/ff.cpp:3850-4062 | f_write, f_lseek back and f_read give the bytes written |
| FatReopen.MountedIsBooted | kernel/src/fatfs/ff.cpp:3278-3552 | a drive with one volume at most that was mounted as this one has its boot record where mounting looks |
| FatReopen.BootedMounts | kernel/src/fatfs/ff.cpp:3278-3552 | a drive with this boot record at its start or that of its only partition is mounted as this volume |
| FatReopen.Remount | kernel/src/fatfs/ff.cpp:3332-3552 | mounting the drive anew comes to the same layout and contents, and the cached count is right if the record on the drive is |
| FatReopen.SyncThenReopen | kernel/src/fatfs/ff.cpp:4071-4141 | after f_sync the drive is mounted anew, and the file opened by its directory entry holds what it held; there is none only if f_sync reports a disk error or a read of the drive fails |
| FatDir.DirClear | kernel/src/fatfs/ff.cpp:1627-1656 | every sector of the cluster is zero and no other sector changes |
| FatDir.Dir.Sdi | kernel/src/fatfs/ff.cpp:1666-1705 | the directory object is on the entry at the offset; it is refused only for offsets outside the table |
| FatDir.Dir.Next | kernel/src/fatfs/ff.cpp:1714-1765 | one entry on, the same place as by offset; at the end it stops or stretches the table by a zeroed cluster that leaves all other entries |
| FatDir.Dir.StepAndSeek | kernel/src/fatfs/ff.cpp:1666-1765 | stepping to an entry and going to it directly reach the same cluster and sector, or both find it outside |
| FatDir.Dir.Alloc | kernel/src/fatfs/ff.cpp:1775-1806 | the first block of free entries of the length asked for, the table stretched until there is one; no entry in use changes |
| FatLfn.PutLfn | kernel/src/fatfs/ff.cpp:1928-1953 | the entry holds its part of the name, the end mark once and filling behind it, with order and checksum |
| FatLfn.PickedBack | kernel/src/fatfs/ff.cpp:1890-1919 | picking what put_lfn has made gives that part of the name back, and its end with the last part |
| FatSfn.MakeSfn | kernel/src/fatfs/ff.cpp:2854-2929 | the short name loses something exactly for names not in 8.3 format, else it is the name in upper case; a long name is needed exactly for those and where a part mixes the cases |
| FatSfn.CreateName | kernel/src/fatfs/ff.cpp:2801-2929 | the trimmed name at the start of a path with its short name, refused exactly for an illegal character, more than 255 characters, or nothing but spaces and dots |
| FatSfn.SpelledBack | kernel/src/fatfs/ff.cpp:2655-2690 | a name that needs no long name is spelled from its short name and case flags as it was |
| FatSlots.GenNumName | kernel/src/fatfs/ff.cpp:1965-2012 | as much of the body as leaves room, a tilde, at most seven digits of the number and spaces, with the extension kept; a number above 5 is mixed with the long name |
| FatSlots.NumbersApart | kernel/src/fatfs/ff.cpp:1965-2012 | different small numbers give different short names |
| FatSlots.SumSfn | kernel/src/fatfs/ff.cpp:2022-2033 | the loop computes the rotating checksum that ties long-name entries to a short name |
| FatSlots.ReadBlock | kernel/src/fatfs/ff.cpp:2275-2343 | reading from its first entry finds a registered object, with its long name if it has one |
| FatCatalog.ItemReadsBack | kernel/src/fatfs/ff.cpp:2275-2707 | the name of an item is what reading its entries and spelling them gives |
| FatCatalog.ReadNext | kernel/src/fatfs/ff.cpp:2275-2343 | reading on in a directory that holds some items gives the next one, and nothing behind the last |
| FatCatalog.CatalogRegistered | kernel/src/fatfs/ff.cpp:2434-2529 | after dir_register a directory holds the new item besides those it held, in the same order |
| FatNames.FindSfn | kernel/src/fatfs/ff.cpp:2353-2424 | whether an entry before the end of the directory has the short name |
| FatNames.ChooseSfn | kernel/src/fatfs/ff.cpp:2480-2491 | the first numbered name that the directory does not have; refused only if it has all 99 |
| FatNames.Register | kernel/src/fatfs/ff.cpp:2434-2529 | the entries of the item, with its own short name or the first numbered one that no entry had, are in the first run of free entries that is long enough, and nothing else has changed; refused only if all numbered names are taken, or no run is long enough and the directory cannot be stretched |
| FatReaddir.ReadObject | kernel/src/fatfs/ff.cpp:2275-2343 | the loop of dir_read gives what the function on the list of entries gives |
| FatReaddir.GetFileInfo | kernel/src/fatfs/ff.cpp:2586-2707 | the long name if there is a valid one, else the short one with its case put back |
| FatReaddir.ReadDir | kernel/src/fatfs/ff.cpp:4627-4654 | the spelling of the next object, empty at the end |
| FatReaddir.List | kernel/src/fatfs/ff.cpp:4627-4654 | reading a directory until an empty name comes gives the names of its items, all of them and in order |
| FatReaddir.StoreAndRead | kernel/src/fatfs/ff.cpp:2434-2529 | a name stored and read back is the trimmed name given, for every name of 1 to 255 characters; refused only as dir_register does |
| FatReaddir.StoreAll | kernel/src/fatfs/ff.cpp:2434-2529 | after any run of stores a directory lists the names that were there and those stored, each as often as it was stored |
| FatFind.CmpLfn | kernel/src/fatfs/ff.cpp:1854-1882 | the loop of cmp_lfn is the comparison on the characters of the entry |
| FatFind.AllSameIff | kernel/src/fatfs/ff.cpp:1854-1882 | all the parts of a long name compare equal iff the names are the same but for case, whatever lies in the buffer behind the name |
| FatFind.SeekCatalog | kernel/src/fatfs/ff.cpp:2353-2424 | in a directory that holds some items the first one is found whose long name is the same but for case or whose short name is the same, and nothing iff there is none |
| FatFind.DirFind | kernel/src/fatfs/ff.cpp:2353-2424 | the loop of dir_find finds what the function on the list of entries finds |
| FatFind.Lookup | kernel/src/fatfs/ff.cpp:2353-2929 | a path's name is found at such an item, and not found only if no item has that name in any case |
| FatFind.StoreThenFind | kernel/src/fatfs/ff.cpp:2353-2529 | a name stored is found again in whatever case it is asked for; what is found is the first item with the name or its short name, and nothing only if no item has the name |
| FatWhole.StoreFresh | kernel/src/fatfs/ff.cpp:2434-2529 | on a volume just formatted and mounted it lists exactly the names stored |
| FatPlan.ChosenGood | kernel/src/fatfs/ff.cpp:6101-6173 | whatever sizes f_mkfs settles on are of the type their cluster count tells, with room for the FAT, inside the volume |
| FatPlan.DefaultChosen | kernel/src/fatfs/ff.cpp:6101-6173 | with default options sizes are found for every volume of 128 sectors or more |
| FatPlan.ChoosePlan | kernel/src/fatfs/ff.cpp:6101-6173 | the loop of trials comes to the plan of the recursive specification, and ends |
| FatBoot.MakeVbr | kernel/src/fatfs/ff.cpp:6180-6212 | the boot record holds the fields of the plan, whichever type it is |
| FatBoot.VbrReadsBack | kernel/src/fatfs/ff.cpp:3460-3512 | mounting reads the boot record of a plan as the volume of the plan, with the same type and number of clusters |
| FatBoot.PlanIsValid | kernel/src/fatfs/ff.cpp:6131-6146 | the regions of a plan follow one another inside the drive, as all other code relies on |
| FatFormat.MakeMbr | kernel/src/fatfs/ff.cpp:5659-5798 | the sector is marked as a partition table with the first partition behind the first track, and one that takes the whole drive is found there |
| FatFormat.Mkfs | kernel/src/fatfs/ff.cpp:5802-6293 | without a disk error the drive is formatted by the plan for its size; it is given up exactly when there is none |
| FatFormat.DefaultGivesUp | kernel/src/fatfs/ff.cpp:5802-6293 | with default options f_mkfs gives up exactly on drives of fewer than 191 sectors, 63 of which are the first track |
| FatMount.FindVolume | kernel/src/fatfs/ff.cpp:3278-3323 | what is found is what those sectors tell that could be read; without a read error the first sector, or else the first partition, that is a FAT boot record |
| FatMount.FindIff | kernel/src/fatfs/ff.cpp:3278-3323 | whatever cannot be read, the right volume or none is found iff no two partitions with a FAT boot record start at different sectors |
| FatMount.RivalDrive | kernel/src/fatfs/ff.cpp:3314-3322 | a drive with two volumes on which an unreadable first one makes it find the second |
| FatMount.MountVolume | kernel/src/fatfs/ff.cpp:3332-3552 | the layout that the boot record found describes, with window, hint and free count as the drive has them, and whether there is a record of these; without a read error a volume is mounted exactly if the place where it must be describes one |
| FatMount.FormattedMounts | kernel/src/fatfs/ff.cpp:3332-3552 | a formatted drive has its volume where it was put, with the layout of the plan |
| FatMount.FormatAndMount | kernel/src/fatfs/ff.cpp:5802-6293 | a drive that f_mkfs has formatted is mounted with the layout chosen, its FAT a set of chains with all clusters free but the root directory's, and that empty |
| BuddyMath.AlignToPowerOfTwo | kernel/src/memory/buddy_allocator.cpp:20-32 | for every 64-bit number the least power of two not below it, and 0 for 0 and above 2^63 |
| BuddyMath.FindOrder | kernel/src/memory/buddy_allocator.cpp:5-18 | the logarithm of the size, for a least block of one byte |
| BuddyMath.FlipHalf | kernel/src/memory/buddy_allocator.cpp:103-120 | the two halves of an aligned block are found from each other by flipping one bit |
| BuddyTree.Covered | kernel/src/memory/buddy_allocator.cpp:55-126 | every byte of the arena lies in a block |
| BuddyTree.Disjoint | kernel/src/memory/buddy_allocator.cpp:55-126 | and in only one |
| BuddyTree.AllReturned | kernel/src/memory/buddy_allocator.cpp:92-126 | with no block in use the arena is one free block |
| BuddyTree.Canonical | kernel/src/memory/buddy_allocator.cpp:92-126 | which blocks are free follows from which are in use |
| Buddy.Allocator.constructor | kernel/src/memory/buddy_allocator.cpp:34-53 | the whole arena is one free block, and headers fit exactly if it has at least 32 bytes |
| Buddy.Allocator.Allocate | kernel/src/memory/buddy_allocator.cpp:55-90 | one new block of the least order that holds bytes and header, carved out of the smallest free block that can be, and 0 exactly if there is none; the order is right exactly up to 2^63 |
| Buddy.Allocator.Deallocate | kernel/src/memory/buddy_allocator.cpp:92-126 | just that block is in use no longer, everything is coalesced again, and other addresses are left alone |
| Buddy.Allocator.HeadersFit | kernel/src/memory/buddy_allocator.cpp:67-90 | no free block is too small for its header |
| PageBitmap.Bitmap.Set | kernel/src/utils/Bitmap.cpp:30-48 | adds the index to the set or takes it out, and nothing else |
| PageBitmap.Overlooked | kernel/src/memory/bitmap_allocator.cpp:161-174 | with page 1 of eight free and no other, no page among those the search looks at is free |
| PageBitmap.Allocator.Missed | kernel/src/memory/bitmap_allocator.cpp:161-174 | on that bitmap the search comes back with 0, as if no page were free |
| PageBitmap.Allocator.AllocatePage | kernel/src/memory/bitmap_allocator.cpp:117-123 | the least free page among those searched, free no longer, with the memory counts moved; 0 and no change if there is none |
| PageBitmap.Allocator.FreePage | kernel/src/memory/bitmap_allocator.cpp:143-159 | just that page is free, and counted |
| PageTree.WalkReplaced | kernel/src/memory/paging.cpp:11-161 | replacing a table entry changes the walks that come to it and no others |
| PageTree.OnlyRoot | kernel/src/memory/paging.cpp:197-273 | in a tree without empty or unreached tables and with no page mapped, only the root is left |
| Paging.Space.Map | kernel/src/memory/paging.cpp:11-161 | the page is mapped to the frame if it was not or overriding is asked for, no other translation changes, no page is lost, and no table is left empty |
| Paging.Space.MapMemory | kernel/src/memory/paging.cpp:170-180 | the same for a stretch of pages, around the end of the address space if need be |
| Paging.Space.Unmap | kernel/src/memory/paging.cpp:197-273 | the page is mapped no longer and no other is affected; exactly the tables that have become empty are given back, once |
| Paging.Space.AllGivenBack | kernel/src/memory/paging.cpp:197-273 | once no page is mapped, every page taken for a table is free again |
| Paging.Space.VirtualToPhysical | kernel/src/memory/paging.cpp:318-349 | the address that the processor comes to, less the offset in a large page; 0 if there is none; right iff that offset is 0 |
| Paging.HardwareWalks | kernel/src/memory/paging.cpp:318-349 | without large pages it is the frame that the tables translate the page to, and the offset in it |
| Paging.LargePage | kernel/src/memory/paging.cpp:332-342 | a page of 2 MiB whose second byte has another address |
| Paging.LinkedAgain | kernel/src/memory/paging.cpp:30-45 | an entry that was unmapped leads to its new frame iff the bits of the old frame number are among those of the new |
| ChunkList.GrantedSoundIff | kernel/src/memory/freelist_allocator.cpp:13-39 | a split keeps the chunks in order and apart iff the sum of size and header does not wrap around |
| ChunkList.GrantedIs | kernel/src/memory/freelist_allocator.cpp:13-39 | an allocation takes a header off the bytes held and adds just the chunk granted to those in use |
| ChunkList.ReleasedIs | kernel/src/memory/freelist_allocator.cpp:41-71 | freeing loses no byte held and takes just that chunk off those in use |
| FreeList.Allocator.Allocate | kernel/src/memory/freelist_allocator.cpp:13-39 | the linked headers are those of the list with the first large enough free chunk split |
| FreeList.Allocator.MergeChunks | kernel/src/memory/freelist_allocator.cpp:56-71 | the loop over the linked headers joins all free neighbours |
| FreeList.Allocator.Free | kernel/src/memory/freelist_allocator.cpp:41-54 | the chunk is free and joined with its neighbours; nothing happens for one that is free |
| FreeList.Allocator.Expand | kernel/src/memory/freelist_allocator.cpp:73-88 | the room is in a free chunk at the end, joined with one that was there |
| Heap.GrantedWithin | kernel/src/memory/freelist_allocator.cpp:13-39 | an allocation keeps all chunks in use, with their headers, within the heap |
| Heap.GrantedHeaders | kernel/src/memory/freelist_allocator.cpp:23-30 | it keeps the headers of all chunks within the heap iff there is room for one behind what is granted |
| Heap.HeaderBehind | kernel/src/memory/freelist_allocator.cpp:5-30 | an allocation of all the room there is puts a header behind the end of the heap |
| Heap.Heap.Allocate | kernel/src/memory/heap.cpp:42-70 | one chunk of just that size, within the heap, is added to those in use, and it fails only if none is large enough and the heap is at its limit or pages are out |
| Heap.Heap.Expand | kernel/src/memory/heap.cpp:72-108 | grows by one step iff that stays within the limit and there is a page for every page of the whole heap |
| Heap.Heap.Free | kernel/src/memory/heap.cpp:110-116 | the chunk is off those in use and its size off the bytes counted; bytes held, headers and heap size always add up |
| Ranges.TakenSoundIff | kernel/src/memory/virtual_address_range_allocator.cpp:61-103 | an allocation keeps the tiling iff it asks for at least one page |
| Ranges.UsedSoundIff | kernel/src/memory/virtual_address_range_allocator.cpp:170-226 | using given pages keeps the tiling and adds just these iff they are some, do not begin the free range they are in, and do not wrap around |
| Ranges.MergedIs | kernel/src/memory/virtual_address_range_allocator.cpp:105-136 | joining keeps the tiling and the ranges in use and leaves no two free neighbours |
| RangeAllocator.Allocator.MergeAll | kernel/src/memory/virtual_address_range_allocator.cpp:105-136 | the loop over the linked headers joins all free neighbours that continue each other |
| RangeAllocator.Allocator.AllocateRange | kernel/src/memory/virtual_address_range_allocator.cpp:61-103 | first fit on the linked headers: just those pages are in use besides those that were, exactly if they are some, and it fails exactly if no free range has enough |
| RangeAllocator.Allocator.FreeRange | kernel/src/memory/virtual_address_range_allocator.cpp:138-163 | just that range is in use no longer; nothing happens for any other base |
| RangeAllocator.Allocator.UseRange | kernel/src/memory/virtual_address_range_allocator.cpp:170-226 | it fails exactly if no free range holds the pages with room behind; else just those are in use besides those that were, exactly if they are some, do not begin that range and do not wrap around |
| Turns.TurnLasts | kernel/src/tasking/scheduler.cpp:42-129 | a turn ends after 1 to 52 ticks, at the tick that the time used and the boost tell |
| Turns.NoStarvation | kernel/src/tasking/scheduler.cpp:42-129 | whatever jobs come and die, a job in line runs before its wait is over |
| Turns.RunsWithin | kernel/src/tasking/scheduler.cpp:42-129 | with the processor busy, a job with k jobs ahead of it runs within 52 k ticks |
| Turns.IdleWaits | kernel/src/tasking/scheduler.cpp:58-129 | with the processor idle the bound of 52 k ticks does not hold |
| Scheduler.Queue.Tick | kernel/src/interrupts/requests.cpp:17-21 | timer and switch on the linked queue are the tick of the machine |
| Scheduler.Queue.Time | kernel/src/tasking/scheduler.cpp:42-54 | time passes for the running job alone, and a boost starts everyone's time again |
| Scheduler.Queue.Schedule | kernel/src/tasking/scheduler.cpp:58-129 | the running job while its turn lasts, then the first in line, with the links kept |
| Scheduler.Queue.Switch | kernel/src/tasking/tasking.cpp:235-257 | one job runs and it is the first in line |
| Scheduler.Queue.Exit | kernel/src/tasking/scheduler.cpp:58-129 | the death of the running thread is that of the machine |
| Scheduler.Queue.NewJob | kernel/src/tasking/scheduler.cpp:196-208 | a new job is last in line and changes nothing else |
| Scheduler.Queue.RemoveJob | kernel/src/tasking/scheduler.cpp:154-175 | just that job is out of the doubly linked list |
| Scheduler.Queue.AddJob | kernel/src/tasking/scheduler.cpp:177-194 | the job is behind the last one in the doubly linked list |
| Scheduler.Queue.PriorityBoost | kernel/src/tasking/scheduler.cpp:131-152 | every job in the queue starts its time again and the links stay |
| Stdio.File.Read | mlibc/options/ansi/generic/file-io.cpp:93-151 | a first part of what the stream has still to give, nothing only at its end, in all three ways of buffering |
| Stdio.File.Write | mlibc/options/ansi/generic/file-io.cpp:153-224 | a first part of the bytes, at least one, is where the stream was; unbuffered it is in the file at once, and a line once it ends |
| Stdio.File.WriteBack | mlibc/options/ansi/generic/file-io.cpp:314-349 | writing the dirty part back changes nothing the caller sees, also when it stops half way |
| Stdio.File.Unget | mlibc/options/ansi/generic/file-io.cpp:226-230 | the byte pushed back is what the stream gives next |
| Stdio.File.Flush | mlibc/options/ansi/generic/file-io.cpp:247-257 | the file holds what the caller sees, at the place the caller sees |
| Stdio.File.Tell | mlibc/options/ansi/generic/file-io.cpp:259-266 | the place the caller sees |
| Stdio.File.Seek | mlibc/options/ansi/generic/file-io.cpp:268-292 | moves to where the caller asked, counted from what the caller sees, or nowhere; contents never change |
| Stdio.File.Purge | mlibc/options/ansi/generic/file-io.cpp:240-245 | the buffer is empty and what was not written back is gone |
| Stdio.File.ReadBytes | mlibc/options/ansi/generic/stdio-stubs.cpp:1160-1205 | all bytes asked for unless an error or the end comes |
| Stdio.File.WriteBytes | mlibc/options/ansi/generic/stdio-stubs.cpp:1210-1260 | all bytes are in the stream unless an error comes |
| Stdio.File.Echo | mlibc/options/ansi/generic/file-io.cpp:93-292 | what is written through the stream is read back through it |

## Left out

- exFAT, sectors of other sizes than 512 bytes, and the configuration without a sector buffer per file.
- `follow_path`, the modes of `f_open`, `f_opendir`, `f_mkdir`, `f_rename`, `f_chmod`, `f_utime`, labels, `f_expand`,
  `f_forward` and the string functions: they add no state of their own.
- `dir_remove` and `f_unlink`: an entry is marked void, which `FatCatalog.IsCatalog` allows for, and its chain removed.
- FatNames.FindSfn: the search that `dir_register` makes, for a short name only; the one for all names is
  `FatFind.DirFind`. Whether a name is there already is looked up before `dir_register` is called, so that
  `FatNames.Register` does not refuse one.
- FatFind.DirFind: the place of the first entry of the object, which only `dir_remove` uses.
- File locks and the mutual exclusion of calls.
- Code pages: characters of names are ASCII, and converting from the code page is a parameter that keeps them.
- FatReaddir.StoreAll: promises nothing of the directory after a disk error; a block of entries may then be incomplete.
- FatFile.File.Truncate: after a disk error the bytes before the cursor and all other clusters are as they were, but the
  table need not be a set of chains any more if FAT12 tore an entry.
- FatFormat.Mkfs: partition schemes other than one partition for the whole drive or none, and GPT; the drive's erase block
  is one sector.
- FatReopen.SyncThenReopen: the drive has no other partition; and the count that mounting reads from the free-cluster
  record is right only if the record was, or the drive took the new one.
- FatServe.Serve: does not call `f_truncate` on a cache that is not tidy, nor if the FAT cannot be read to find out; what
  the call then does to its own file is `FatSession.TruncateAmong`, and what others may do to it `FatSession.TruncateIff`.
- FatFiles.OtherStays: asks for a cached sector of the other file's own, or none; `FatSession.SettledIff` shows that no
  less will do.
- FatStale.StaleCache: the last `f_lseek` is stated of a file that differs only in the bytes of its cache, at which
  `f_lseek` does not look when it comes to the sector it has cached; the file itself is no longer fit for use then.
- FatVolume.Volume.MoveWindow: sectors of the second FAT and the one with the free-cluster record, to which the window is
  never moved on a mounted volume.
- Times are a parameter of `f_sync`.
- Buddy.Allocator.constructor: a least block of one byte, a size that is a power of two and a base aligned to it, as the
  header file asks for.
- Building the page bitmap from the memory map, and memory counts beyond free and used.
- FreeList.Allocator.Allocate: sizes whose sum with the header wraps around; two headers then overlap in memory, and the
  list is broken exactly for those (`ChunkList.GrantedSoundIff`).
- Heap.Heap.Allocate: the same sizes.
- Paging.Space.MapMemory: as `Paging.Space.Map`, for every page.
- Paging.Space.Map: there are three free pages for tables, as the result of `allocatePage` is not looked at; and no table
  has been given back before from an entry on the way, as such an entry is not cleared (`Paging.LinkedAgain` tells when
  that matters).
- Paging.Space.TableEmpty: scans from the first entry; in the source the loop variable has no initial value.
- Mapping large pages, copying the kernel's mappings, switching address spaces, and what the processor caches.
- Heap.Heap.Expand: which frames the pages of the heap are mapped to; how many pages there are to take is a parameter.
- RangeAllocator.Allocator.New: the kernel heap gives ever higher addresses, and takes headers back without reuse.
- RangeAllocator.Allocator.constructor: only the first range added; further ranges are put behind the one they belong
  before.
- The scheduler's queues above priority 0, threads that wait, several processors, processes and their memory.
- Streams that are pipes, changing the way of buffering, and opening and closing. Between reading and writing a stream is
  flushed or moved, as section 7.21.5.3 of ISO C11 asks for.
- Drivers, interrupts, graphics, the shell and the other parts of the C library.
