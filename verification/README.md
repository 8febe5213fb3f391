# rdfs_master: the metadata core, modelled and proved in Dafny

`rdfs_master` is a Linux kernel file system that keeps its metadata in local non-volatile memory and its file data on
remote slaves reached by RDMA. This project models the parts of it that are hand-built, in-place data structures, and
proves that they agree with simple mathematical objects over whole runs. `dafny verify dfyconfig.toml` checks the whole
project.

* **Pages and page tables** (`balloc.c`, `pgtable.c`, `inode.c`, `rdfs.h`). Memory is a map from page addresses to pages
  of 512 words. Free pages are linked through their first words, one list per NUMA region; each inode owns a three-level
  radix tree made of the same pages. A ghost bijection between pages and their uses (free at a height of a list, table,
  block, held) carries conservation. Modules `Machine`, `PageUses`, `PageTakes`, `PageScan`, `PageSlots`,
  `PageTeardown`, `PageContents`, `PageStore`, `PageInit`, `PageLife`, `BatchFree`, `BatchPool`, `RegionLayout`,
  `InodeIds`, `Startup`.
* **Directories and names** (`dir.c`, `namei.c`). `Directory` walks and patches a byte buffer; `DirBytes` gives the
  little-endian image of a record and what it means for records to tile a region; `DirRecords` and `DirRuns` relate the
  records to a finite map and `DirTypes` to file types, `DirPlace` says where an insert goes and exactly when it fails,
  `DirGivesUp` in which sizes it can give up and `DirOverflow` that a merge can overflow; `DirTable` keeps each
  directory of a file system in its own buffer. `NameGraph` is the whole namespace as one map, with link counts and a
  tree in which ".." leads to the root; `Namespace` ties it to the records; `NameOps` has every call as a step and the
  run theorems, `NameEffects` exactly when each call succeeds and what it then does to the names, `VfsRuns` the runs of
  calls that only the VFS has checked, `NameSpec` the namespace without records as the specification of those runs, and
  `Masked` what creation answers; `FileSystem` is the object whose methods take those steps, down to the bytes;
  `MapCalls` follows the mapping counts through every path of every call.
* **Request ids** (`server.c`). `RequestIds` is a state machine whose interleavings are all runs of posters and the
  completion handler over all slaves.
* **Remote placement and input/output** (`memory.c`, `file.c`, part of `pgtable.c`). `Chunks` grants blocks, `Metadata`
  records and looks up placements, `SplitIo` and `RemoteFile` split byte ranges by block, `RemoteMemory` says where in a
  slave's memory the blocks lie, and `LookupIo` runs them on the placements that are looked up.
* **Virtual areas and mapping counts** (`nvmalloc.c`, part of `pgtable.c`). `Areas`, and `AreaSlots` for what they mean
  to the page tables.

`Machine`, `Bytes` and `Finite` hold what several parts share.

Spinlock sections are atomic steps. Words are unbounded naturals; wrap-around is written out where the code depends on
it (the 16-bit record length, the 32-bit cut of inode numbers in directories, the unsigned counts of `rdfs_init_numa`,
the unchecked -1 of the chunk allocator and the remote address of a block that has it). Block and page size are 4096.
Which processor runs, which inode number is free, and which pages or blocks an allocator hands to another component are
parameters.

## What does not hold, and exactly when it does

* A block inserted in an inode that is mapped in the last directory area goes into page-table entry 511 of its table
  unless it is the first block: the range test of `rdfs_pmd_alloc` is made on the block's address plus the area size.
  Such a block is not found again and its pages are not given back. `PageSlots.InsertMeetsLookupIff`,
  `PageLife.RepresentsIffNoneStray` and `PageLife.GapFreeIffNoneStray` give the exact condition, and `PageLife.RunOps`
  the one for a run: pages are lost exactly when the operations truncate an inode that has such a block
  (`PageLife.StrayIsLost` gives such a run). The area is handed out for the first time when all other 16383 are in use
  (`AreaSlots.RunClear`).
* A merge of directory records overflows the 16-bit length when the two lengths add up to 65536 or more.
  `DirRuns.RemoveSizeIff` is the condition, `DirRuns.MergeFits` shows that directories up to 16 pages are safe, and
  `DirRuns.SeventeenPagesOverflow` gives a directory of 17 pages that is not. Such states are reached: a new directory
  grows to 17 pages by inserts (`DirOverflow.OverflowReached`), and from every directory of live records beyond 16 pages
  deletes lead to one that breaks it (`DirOverflow.DeletesBreak`). Deleting the first record doubles its length instead,
  and then the records never fill the directory (`Directory.FirstKilledSize`, `Directory.DeletedTiles`).
* `rdfs_add_link` can give up with `-EINVAL` before it reaches the end of a directory, because each turn of its outer
  loop covers less than a page. There is a directory of n pages that refuses an absent name this way if and only if n is
  at least 15 (`DirGivesUp.GivesUpIff`); for every directory and name the condition is that the first record with space
  lies behind the windows of the turns (`DirPlace.AddLinkExact`).
* `rdfs_create` returns the result of the unmapping: it answers without error if and only if it found an inode
  (`Masked.CreateAnswers`), and in a full directory of 15 pages it does so although the insert failed
  (`Masked.FailedCreateAnswersOk`). `rdfs_make_empty` loses its -EIO in the same way (`Directory.Dir.MakeEmpty`).
* `rdfs_mkdir` unmaps the parent directory without having mapped it when no inode is free (`MapCalls.CallBalancedIff`).
* `rdfs_establish_mapping` counts a mapping up without an address when no area is left (`Areas.AreaTable.Establish`).
  That happens first when an inode asks for its first mapping while as many inodes of its kind have one as there are
  areas, 16384 or 958 (`Areas.AreaTable.Run`).
* `rdfs_new_inode` takes the number off the list before its last steps, and loses it when one of them fails
  (`InodeIds.InodePool.NewInode`). `rdfs_add_link` grows the directory before it looks whether it got the page
  (`Directory.Dir.AddLink`).
* The chunk allocator's -1 is used as the start of a chunk. The first ask without room therefore gets block 2^64 - 1,
  and the asks of that file after it get blocks 0 to 62 of that slave, beginning with one that was granted before
  (`Chunks.AfterExhaustion`, `Chunks.ExhaustionRepeats`). The blocks of a run are in range and distinct if and only if
  there was room at every ask (`Chunks.RunGoodIff`). A transfer of such a block goes to the page before the slave's
  memory, because the address wraps around (`RemoteMemory.GrantInMemoryIff`).
* A write makes its end the size also when it ends before the size. The blocks behind it stay with the file, and a later
  write past them takes new ones (`RemoteFile.RewriteWastes`). The blocks are the least that cover the size exactly when
  no write of a run shrank the size by a whole block (`RemoteFile.RunLeastIff`).
* `rdfs_search_metadata` reads word `k` of the file's own mapping, but all the words of a metadata page share one page:
  a lookup is right exactly when the word it reads is that block's (`Metadata.LookupRightIff`), which for a file that
  makes all placements is exactly for the first 512 blocks (`Metadata.SoleFileRun`). Up to there a read sees the last
  bytes written (`LookupIo.ReadBack`); a write to block 512 arrives in block 0 (`LookupIo.Block512OverwritesBlock0`).
* Request ids are safe exactly when fewer than 64 ids are granted between a request's grant and its return
  (`RequestIds.SafeIffWindow`).
* `rdfs_init_numa` wraps its unsigned inode count around when the percentage asks for no slot at all
  (`RegionLayout.InitNumaFitsIff`). That also happens when the memory ends exactly at the NUMA line, because it is then
  cut into two regions of which one is empty, and the result is not looked at (`Startup.SoundIff`).

## Model

| member | source | states |
|---|---|---|
| PageStore.Store.constructor | rdfs_master/balloc.c:338-376 | both regions are threaded into lists that hold exactly their pages, in address order; every page is free and counts are the list lengths |
| PageInit.ThreadPages | rdfs_master/balloc.c:338-351 | every page of the area links to the next, and nothing else in memory changes |
| PageInit.FreshPoolOk | rdfs_master/balloc.c:338-351 | freshly threaded regions form a sound allocator: pages and uses correspond one to one and each list is on its side of the NUMA line |
| PageInit.FreshOrder | rdfs_master/balloc.c:338-351 | the i-th page of an area is the i-th from the head of its list |
| PageInit.ThreadRegions | rdfs_master/balloc.c:338-376 | both areas are threaded, the second without harm to the first |
| PageStore.Store.FreeBlock | rdfs_master/balloc.c:422-443 | the page goes to the head of the list of its own side; exactly its use ends, and the allocator stays sound |
| PageUses.PushReleases | rdfs_master/balloc.c:438-440 | pushing a page that is in use onto the list of its side keeps lists, counts and the one-to-one correspondence, and ends exactly that use |
| PageUses.PopKeeps | rdfs_master/balloc.c:113-122 | taking the head page off a list keeps the allocator sound and turns that page into a held one |
| PageStore.Store.NewBlock | rdfs_master/balloc.c:87-127 | fails without change when the list is too short; otherwise detaches exactly the first num pages, in order, and the new head is the link of the last one, which is not followed further |
| PageStore.Store.GetZeroedPage | rdfs_master/balloc.c:406-419 | one page of the processor's region, cleared and held; 0 exactly when the region has none |
| Machine.CpuRegionMask | rdfs_master/balloc.c:78-85 | the processors that take pages from region 1 are the bits of the node mask |
| PageStore.Store.TableAlloc | rdfs_master/pgtable.c:61-97 | a cleared page becomes the table under the given entry and nothing else changes its use; it fails exactly when the list is empty; when the entry has a table already, the same pages are free again and every other page keeps use and contents |
| PageStore.Store.InitPgTable | rdfs_master/pgtable.c:131-156 | succeeds exactly when the three lists asked hold enough pages; then exactly one table of each level is taken for the inode; on failure the inode keeps none and the pages found are lost |
| PageTakes.FirstTablesTake | rdfs_master/pgtable.c:139-153 | three cleared pages become the three first tables of an inode in a sound allocator |
| PageStore.Store.TableUnder | rdfs_master/pgtable.c:124-129 | the table under an entry, allocated exactly when it is missing; fails exactly when it is missing and the list is empty |
| PageStore.Store.PmdAlloc | rdfs_master/pgtable.c:110-122 | both branches of the address test: the table in place for directory areas, the indexed table elsewhere; fails exactly when that is missing and the list is empty |
| PageStore.Store.InsertPage | rdfs_master/pgtable.c:158-202 | succeeds exactly when the inode has a top table and the lists hold the pages for the missing tables; then the held page is the block at the slot its address selects, and exactly the missing tables were taken; on failure no block was added |
| PageStore.Store.AddBlock | rdfs_master/inode.c:177-198 | one turn of the allocation loop: succeeds under the same exact condition, and then the page is the inode's next block, zero throughout if it was to be cleared and with the contents it had otherwise |
| PageStore.Store.FillBlocks | rdfs_master/inode.c:175-199 | walking the detached chain visits its pages in order, although inserts take further pages from the same list, and makes them the inode's next blocks, each zero throughout if they were to be cleared and as it was otherwise; succeeds exactly when the lists hold the pages for all missing tables, each counted once |
| PageStore.Store.AllocBlocks | rdfs_master/inode.c:145-206 | the first num pages of the inode's region become its next blocks in order and the rest of the allocator keeps its uses; succeeds exactly when the lists hold first tables, blocks and missing tables together, and takes exactly those; the new blocks are zero throughout if they were to be cleared and hold what they held on the free list otherwise; on failure no file block changes |
| PageStore.Store.StartTables | rdfs_master/inode.c:165-169 | an inode without tables gets its first ones exactly when the lists hold three pages, and goes without otherwise; free pages keep their contents |
| PageContents.OneMorePage | rdfs_master/inode.c:177-198 | adding a page changes the contents of no page that waits or is a block already |
| PageStore.PlentyAlloc | rdfs_master/inode.c:145-206 | three pages and three per block on every list suffice for an allocation, whatever tables exist and whichever processor runs |
| PageTakes.ChainTaken | rdfs_master/inode.c:170-199 | a detached chain that was used up is one step from the list to the uses, with no page left over |
| PageStore.Store.FindDataBlock | rdfs_master/inode.c:54-92 | the entry read through three levels is 0 exactly when the slot has no page, and otherwise that page with the flags of a kernel page |
| PageStore.Store.RmPteRange | rdfs_master/pgtable.c:204-233 | gives back exactly the blocks before the first empty entry, and the table; no list gets shorter |
| PageStore.Store.RmPmdRange | rdfs_master/pgtable.c:236-253 | gives back exactly the subtrees before the first empty entry, and the table |
| PageStore.Store.RmPgTable | rdfs_master/pgtable.c:257-277 | gives back exactly what the nested scans reach; other inodes keep their trees and the contents of their blocks; the inode has no table |
| PageStore.Store.TruncateBlocks | rdfs_master/inode.c:127-129 | dropping the blocks tears the tables down and resets the block count |
| PageSlots.InsertMeetsLookupIff | rdfs_master/pgtable.c:98-129 | block k goes where it is looked up exactly unless the inode is mapped in the last directory area and k is positive |
| PageSlots.LookupSlotNumber | rdfs_master/inode.c:70-72 | the three indices of a block number determine it |
| PageSlots.SlotNumberLookup | rdfs_master/inode.c:70-72 | every slot is looked up by exactly one block number |
| PageScan.ScanIsEverythingIffGapFree | rdfs_master/pgtable.c:204-277 | the teardown scans reach every page of an inode exactly when no table has an empty entry before a used one |
| PageTeardown.TeardownConservesIffGapFree | rdfs_master/pgtable.c:204-277 | a teardown gives every page of the inode back exactly when its tables have no gap |
| PageLife.FilledMore | rdfs_master/inode.c:145-206 | allocations extend the sequence of an inode's pages by exactly the new ones, whatever was there |
| PageLife.RepresentsIffNoneStray | rdfs_master/pgtable.c:98-202 | after any allocations, lookup of k gives the k-th page inserted for every k, exactly when no block but the first was inserted from the last directory area |
| PageLife.GapFreeIffNoneStray | rdfs_master/pgtable.c:98-129 | the tables of an inode have no gap under exactly the same condition |
| PageLife.TakesConserve | rdfs_master/balloc.c:87-127 | pages taken for an inode come off the lists and go nowhere else |
| PageLife.CountsAreSizes | rdfs_master/balloc.c:446-454 | each count is the number of free pages of its side |
| PageLife.SameFreeSameCounts | rdfs_master/balloc.c:446-454 | the same free pages mean the same counts |
| PageLife.RunOps | rdfs_master/pgtable.c:131-277 | over any run of table creation, allocation (with or without tables) and truncation on any inodes, where all calls succeed if every list in use holds 3 pages per creation and 3 + 3n per allocation of n blocks: every inode has the blocks the operations gave it; pages are lost exactly when the operations truncate an inode with a stray block, a condition on the operations alone; otherwise, once no inode has tables, the free pages and counts are those of the start |
| PageLife.NoLastAreaLosesNothing | rdfs_master/pgtable.c:98-129 | a run that allocates nothing from the last directory area loses nothing |
| PageLife.StrayIsLost | rdfs_master/pgtable.c:98-129 | a directory that grows by two blocks in the last directory area and is truncated loses pages |
| BatchFree.OneByOne | rdfs_master/balloc.c:422-443 | frees in turn leave lists, links and counts that are determined by the pages of each side in order |
| BatchFree.FreedUnique | rdfs_master/balloc.c:422-443 | that description leaves no freedom: memory, heads and counts are unique |
| BatchFree.Batcher.constructor | rdfs_master/balloc.c:590-600 | a fresh structure holds no page |
| BatchFree.Batcher.PreFreeBlock | rdfs_master/balloc.c:602-619 | the page joins the chain of its side and the lists are untouched |
| BatchFree.Batcher.FlushPart | rdfs_master/balloc.c:634-643 | one side's chain goes in front of its list |
| BatchFree.Batcher.PreFreeList | rdfs_master/balloc.c:621-645 | the flush leaves exactly the memory, heads and counts of freeing each page in turn |
| BatchFree.Batcher.FreeBatch | rdfs_master/balloc.c:602-645 | any distinct pages, batched and flushed, are as if freed one by one |
| BatchPool.BatchReleases | rdfs_master/balloc.c:602-645 | on a sound allocator a batch leaves a sound allocator in which exactly the uses of the batch ended |
| RegionLayout.InitNumaFitsIff | rdfs_master/balloc.c:353-376 | descriptor, inode area and page area are disjoint, aligned and inside the region exactly when at least two inode slots are asked for and the page area starts inside; then every slot but the reserved one is for an inode and no page before the page area is left out |
| RegionLayout.LargeRegionsFit | rdfs_master/balloc.c:353-376 | every region from 450000 bytes on fits for every percentage below 100 that asks for two slots |
| Startup.SoundIff | rdfs_master/super.c:91-108 | the regions of a new file system are all laid out properly exactly when each of them is large enough for two inode slots and its page area |
| Startup.InodesFit | rdfs_master/super.c:91-108 | the inode areas lie on their sides of the NUMA line, have exactly the slots of the layout, and end before the page areas begin |
| Startup.PagesFit | rdfs_master/super.c:91-108 | the page areas lie on their sides and are all the pages there are |
| Startup.Format | rdfs_master/super.c:91-108 | a sound start yields an allocator with exactly the pages of the page areas free, and inode lists with every slot but the reserved ones |
| InodeIds.NumberOfPhys | rdfs_master/rdfs.h:311-350 | number to address and back, in both NUMA modes |
| InodeIds.PhysOfNumber | rdfs_master/rdfs.h:311-350 | address to number and back, for every slot |
| InodeIds.InodeRegionIsSide | rdfs_master/rdfs.h:238-254 | the side of an inode's address follows from the parity of its number |
| InodeIds.InodePool.constructor | rdfs_master/balloc.c:321-336 | the initial lists hold every slot but the reserved first one, lowest first, and no number is live |
| InodeIds.InodePool.NewInode | rdfs_master/inode.c:485-560 | the head of the list of the region whose turn it is, a number neither live nor reserved, or none exactly when that list is empty; the turn passes on; when a later step fails, the number taken is lost |
| InodeIds.InodePool.FreeInode | rdfs_master/inode.c:322-359 | the number becomes the head of the list of its region and the rest of both lists stays; every number stays reserved, listed or live |
| DirBytes.LeRoundTrip | rdfs_master/rdfs_const.h:127-133 | storing a number in n little-endian bytes and loading it gives it modulo 256 to the n |
| DirBytes.LeByte | rdfs_master/rdfs_const.h:127-133 | byte k of a stored number is its digit of weight 256 to the k |
| DirBytes.FieldsOf | rdfs_master/rdfs_const.h:127-133 | the fields read at a record's offset are the record's |
| DirBytes.HoldsIf | rdfs_master/rdfs_const.h:127-133 | bytes that read as a record's fields are its image |
| DirBytes.TilesAround | rdfs_master/dir.c:283-333 | replacing a stretch of records by others of the same length, writing only inside it, keeps the region tiled |
| DirBytes.TilesMore | rdfs_master/dir.c:262-281 | a record on a page of its own extends the tiling |
| DirBytes.TilingUnique | rdfs_master/dir.c:56-61 | the bytes of a tiled region determine its records |
| Directory.Dir.FindEntry2 | rdfs_master/dir.c:121-160 | returns the offset of the first live record with the name and that of its predecessor; nothing exactly when there is none |
| Directory.Dir.InodeByName | rdfs_master/dir.c:162-176 | the inode the map binds to the name, cut to 32 bits; 0 when it binds none |
| Directory.Dir.Split | rdfs_master/dir.c:285-296 | splitting the slack off a live record leaves a tiled directory with the new record behind it |
| Directory.Dir.Reuse | rdfs_master/dir.c:283-296 | a dead record takes the new name and keeps its length |
| Directory.Dir.Append | rdfs_master/dir.c:262-296 | a new page holds the new record alone |
| Directory.Dir.AddLink | rdfs_master/dir.c:196-303 | the nested scan over bytes decides as the scan over records, with the same error or the same new records, and the buffer stays tiled; when a page is needed and not supplied, nothing but the size changes and the records no longer fill it |
| Directory.Dir.DeleteEntry | rdfs_master/dir.c:306-333 | the predecessor takes the bytes over, which for the first record is the record itself; the buffer stays tiled exactly when there is one before and the sum fits 16 bits |
| Directory.DeletedTiles | rdfs_master/dir.c:306-333 | the same as a property of the bytes and the records, both ways |
| Directory.FirstKilledSize | rdfs_master/dir.c:316-326 | deleting the first record never keeps the total length |
| Directory.Dir.SetLink | rdfs_master/dir.c:185-194 | inode and type of one record change, and nothing else |
| Directory.Dir.MakeEmpty | rdfs_master/dir.c:335-405 | an empty buffer becomes one page with "." and ".."; a used one is left alone; the answer is that of the unmapping in both cases |
| Directory.Dir.DotDot | rdfs_master/dir.c:407-417 | the offset of the second record |
| Directory.Dir.Empty | rdfs_master/dir.c:420-455 | true exactly when nothing but "." and ".." is bound |
| DirRecords.FindFrom | rdfs_master/dir.c:140-151 | the first match at or after a record, or the end |
| DirRecords.FindReadsEntries | rdfs_master/dir.c:121-160 | lookup succeeds exactly on the bound names and reads the map |
| DirRecords.ScanFinds | rdfs_master/dir.c:227-259 | the insert scan stops at the first record that matches or has room, or at the end when there is none |
| DirPlace.HasRoomIff | rdfs_master/dir.c:251-256 | a record has room exactly when it can spare the bytes: all of a dead one, those behind the name of a live one |
| DirPlace.AddLinkExact | rdfs_master/dir.c:196-303 | for every directory and name: the insert gives up exactly when the first record with the name or with space lies behind the windows of all turns, refuses a bound name, fails at the end of a directory of the largest size, and otherwise goes into that record |
| DirPlace.StopsOnce | rdfs_master/dir.c:227-259 | there is exactly one such first record |
| DirPlace.InsertUses | rdfs_master/dir.c:262-296 | an insert uses exactly the bytes of its record, besides a page added at the end; a live record that is split keeps nothing to spare |
| DirPlace.RemoveReturns | rdfs_master/dir.c:306-333 | a delete whose merge fits gives exactly the bytes of its record back |
| DirRecords.SmallDirectoriesNeverGiveUp | rdfs_master/dir.c:225-260 | up to 14 pages the scan reaches the end |
| DirGivesUp.CrowdedGivesUp | rdfs_master/dir.c:225-260 | for every page count from 15 to the largest a full directory in which the insert of an absent name gives up |
| DirGivesUp.GivesUpIff | rdfs_master/dir.c:225-260 | some directory of n pages gives up on an absent name if and only if n is at least 15 |
| DirRecords.InsertEntries | rdfs_master/dir.c:283-296 | an insert of an absent name adds exactly one binding |
| DirRecords.FoundAfterInsert | rdfs_master/dir.c:293-296 | lookup after an insert finds a record with the new inode and type |
| DirRecords.RemoveEntries | rdfs_master/dir.c:306-333 | a delete behind the first record drops exactly one binding |
| DirRecords.RelinkEntries | rdfs_master/dir.c:185-194 | relinking rebinds exactly one name |
| DirTypes.AddTyped | rdfs_master/dir.c:283-296 | after an insert lookup of the new name finds its inode and file type, and lookup of every other name what it found before |
| DirTypes.DeleteTyped | rdfs_master/dir.c:306-333 | after a delete the name is not found, and every other name with its inode and type |
| DirTypes.DeleteSucceedsIff | rdfs_master/dir.c:121-160 | a delete finds its record exactly for the bound names other than the first record's |
| DirTypes.RelinkTyped | rdfs_master/dir.c:185-194 | after relinking the name is found with the new inode and type, and every other name as before |
| DirRuns.EmptyDirOk | rdfs_master/dir.c:379-399 | a new directory tiles one page and binds "." to itself and ".." to the parent |
| DirRuns.InsertSize | rdfs_master/dir.c:262-296 | an insert keeps the total length, or adds one page |
| DirRuns.RemoveSizeIff | rdfs_master/dir.c:321-326 | a delete keeps the total length exactly when the two lengths fit 16 bits |
| DirRuns.MergeFits | rdfs_master/dir.c:321-326 | in a directory of at most 16 pages the lengths of two neighbours behind "." fit, because "." keeps its 16 bytes |
| DirRuns.SeventeenPagesOverflow | rdfs_master/dir.c:321-326 | a directory of 17 pages where a delete breaks the tiling |
| DirOverflow.DeletesBreak | rdfs_master/dir.c:306-333 | from every directory of live records beyond 16 pages some deletes lead to a delete that breaks the tiling |
| DirOverflow.OverflowReached | rdfs_master/dir.c:196-333 | every new directory reaches, by inserts and deletes, a state of 17 pages in which a delete breaks the tiling |
| DirOverflow.ShortNamesFit | rdfs_master/dir.c:225-260 | inserts of two-byte names do not give up within 16 pages |
| DirRuns.AddLinkRefines | rdfs_master/dir.c:196-303 | an insert of an absent name binds it, or fails with EIO or EINVAL and changes nothing; up to 14 pages it binds it; "." and ".." stay in front |
| DirRuns.DeleteRefines | rdfs_master/dir.c:306-333 | a delete of a proper name succeeds exactly when it is bound, and drops exactly it |
| DirRuns.StepRefines | rdfs_master/dir.c:196-333 | each insert or delete changes the map by exactly the binding it names, or not at all |
| DirRuns.RunKeepsDirectory | rdfs_master/dir.c:196-405 | over every run of inserts and deletes within 16 pages the records tile the directory, no merge overflows, and "." and ".." keep their inodes |
| NameGraph.EmptyRefs | rdfs_master/namei.c:345-352 | an empty directory is named by its "." and its parent, and by nothing else |
| NameGraph.LinksMkdir | rdfs_master/namei.c:281-335 | the counts after a directory creation are again the numbers of references |
| NameGraph.LinksRmdir | rdfs_master/namei.c:337-356 | the counts after a directory removal are again the numbers of references |
| NameGraph.LinksMove | rdfs_master/namei.c:406-422 | the counts after a binding moves are again the numbers of references, for files and directories, within one directory or across |
| NameGraph.RenameKeeps | rdfs_master/namei.c:358-433 | a rename keeps link counts and tree, with and without a replaced target |
| NameGraph.RenameEffect | rdfs_master/namei.c:358-433 | a rename binds the new name, drops the old one, turns "..", drops a replaced directory's names, and changes no other key |
| NameGraph.MkdirRooted | rdfs_master/namei.c:281-335 | a new directory reaches the root through "..", and so do the others still |
| NameGraph.RmdirRooted | rdfs_master/namei.c:337-356 | removing an empty directory leaves every other directory below the same ones |
| NameGraph.RenameRooted | rdfs_master/namei.c:358-433 | a rename that does not move a directory below itself leaves every directory below the root |
| Namespace.EmptyIff | rdfs_master/dir.c:420-455 | the emptiness test on records holds exactly for directories without children |
| Namespace.BindOk | rdfs_master/namei.c:203-227 | a new entry for a file keeps directories, counts and names in step |
| Namespace.UnbindOk | rdfs_master/namei.c:229-258 | dropping a file's entry keeps them in step |
| Namespace.MkdirOk | rdfs_master/namei.c:281-335 | creating a directory keeps them in step |
| Namespace.RmdirOk | rdfs_master/namei.c:337-356 | removing an empty directory keeps them in step and leaves it without links |
| Namespace.RenameOk | rdfs_master/namei.c:358-433 | a rename keeps them in step |
| NameOps.CreateOk | rdfs_master/namei.c:73-103 | creation keeps the file system consistent, whether or not the insert succeeds |
| NameOps.LinkOk | rdfs_master/namei.c:203-227 | linking keeps it consistent, whether or not the insert succeeds |
| NameOps.UnlinkOk | rdfs_master/namei.c:229-258 | unlinking keeps it consistent |
| NameOps.MakeDirOk | rdfs_master/namei.c:281-335 | directory creation keeps it consistent, without an inode and with a failing insert too |
| NameOps.RemoveDirOk | rdfs_master/namei.c:337-356 | directory removal keeps it consistent |
| NameOps.MoveOk | rdfs_master/namei.c:358-449 | rename keeps it consistent on every path |
| NameOps.FailureRollsBack | rdfs_master/namei.c:203-449 | every call that fails, or whose insert fails, leaves names, link counts and live directories as they were |
| NameOps.Run | rdfs_master/namei.c:203-449 | every run from a new file system of calls that pass the VFS checks and whose merges fit 16 bits reaches a consistent one |
| NameOps.LinkCountIsRecords | rdfs_master/namei.c:203-449 | in a consistent file system each link count is the number of live records naming the inode in live directories |
| NameOps.RunLinkCounts | rdfs_master/namei.c:203-449 | over every such run each link count is that number |
| VfsRuns.VfsSuffices | rdfs_master/namei.c:203-449 | while live directories have at most 16 pages every call that passes the VFS checks has merges that fit, rename on the directory after its insert included |
| VfsRuns.VfsRunLinkCounts | rdfs_master/namei.c:203-449 | over every run of calls checked by the VFS alone, within 16 pages, every call is taken and each link count is the number of records |
| VfsRuns.RunRooted | rdfs_master/namei.c:203-449 | over every run each directory reaches the root through "..", so there is no cycle |
| Masked.CreateAnswers | rdfs_master/namei.c:73-103 | creation answers without error if and only if an inode was free; the name is bound, and to that inode, if and only if, besides, the insert succeeded |
| Masked.FailedCreateAnswersOk | rdfs_master/namei.c:73-103 | a consistent file system and a call the VFS makes where the insert fails and creation answers without error |
| NameOps.SecondRecord | rdfs_master/dir.c:407-417 | the second record of every directory is "..", and names its parent |
| NameOps.MoveEffect | rdfs_master/namei.c:358-433 | a successful rename binds the new name and drops the old one, makes a moved directory's second record name the new parent, and changes no other binding, also within one directory |
| NameEffects.CreateEffect | rdfs_master/namei.c:73-103 | creation answers ENOSPC exactly when no inode is free; the name is bound exactly when besides the insert succeeds, which up to 14 pages it does; then exactly that name is added, found with the inode and file type, and the inode has one link |
| NameEffects.LinkEffect | rdfs_master/namei.c:203-227 | a link answers what its insert answers; when that succeeds exactly the one name is added, found with the inode and file type, and the inode has one link more; otherwise names and counts stay |
| NameEffects.UnlinkEffect | rdfs_master/namei.c:229-258 | an unlink succeeds exactly when the name is bound, with ENOENT otherwise; then exactly that name goes and the inode has one link less |
| NameEffects.MakeDirEffect | rdfs_master/namei.c:281-335 | making a directory answers ENOSPC without an inode and what its insert answers otherwise; on success exactly the child, "." and ".." are added, naming the new inode twice and the parent, all of directory type; the new directory has two links and the parent one more |
| NameEffects.RemoveDirEffect | rdfs_master/namei.c:337-356 | removing a directory answers ENOTEMPTY exactly when it has children, and succeeds exactly when it has none and the name is bound; then exactly its three names go, it has no records and no links left, and the parent one link less |
| NameEffects.MoveAnswers | rdfs_master/namei.c:358-449 | a rename succeeds exactly when the old name is bound and, over a target, the target is bound and has no children if a directory moves, or, without one, the insert succeeds, which up to 14 pages it does; each error has its own exact condition |
| NameEffects.MoveSays | rdfs_master/namei.c:358-433 | after a rename the new name is found with the inode and file type, a moved directory's ".." with the new parent, and every other name left with the inode and type it had |
| NameSpec.StepIsSpec | rdfs_master/namei.c:73-449 | every call, with every answer of its insert, answers and changes the names as a step of the namespace alone: a map of names without records, offsets or link counts |
| NameSpec.RunIsSpec | rdfs_master/namei.c:73-449 | over every run that the VFS makes, with inserts into directories of at most 14 pages, the names are those of the run of the namespace alone, and so is every answer |
| FileSystem.MountedFs.constructor | rdfs_master/super.c:383-386 | the root names itself twice and has two links, in a buffer that holds its two records |
| FileSystem.MountedFs.Lookup | rdfs_master/namei.c:46-71 | lookup in the bytes gives the inode that the name is bound to, 0 when it is not bound, and refuses a name that is too long |
| FileSystem.MountedFs.Create | rdfs_master/namei.c:73-103 | takes the creation step on the bytes; the result is that of the unmapping |
| FileSystem.MountedFs.Link | rdfs_master/namei.c:203-227 | takes the link step on the bytes, with its rollback, with the answer and the effect on names, types and counts that `NameEffects.LinkEffect` gives |
| FileSystem.MountedFs.Drop | rdfs_master/namei.c:229-258 | the bytes stay those of records exactly when the merge fits; in a proper directory where it does, the call succeeds exactly when the name is bound, drops exactly that binding and keeps the directory and its length; the count goes down exactly on success |
| FileSystem.MountedFs.Unlink | rdfs_master/namei.c:229-258 | takes the unlink step on the bytes, with the answer and the effect on names, types and counts that `NameEffects.UnlinkEffect` gives |
| FileSystem.MountedFs.Mkdir | rdfs_master/namei.c:281-335 | takes the directory-creation step on the bytes, with both rollbacks, with the answer and the effect on names, types and counts that `NameEffects.MakeDirEffect` gives |
| FileSystem.MountedFs.Rmdir | rdfs_master/namei.c:337-356 | takes the directory-removal step on the bytes, with the answer and the effect on names, types and counts that `NameEffects.RemoveDirEffect` gives |
| FileSystem.MountedFs.Rename | rdfs_master/namei.c:358-449 | takes the rename step on the bytes, branch by branch, with the answers of `NameEffects.MoveAnswers` and the effect of `NameOps.MoveEffect` and `NameEffects.MoveSays` |
| FileSystem.MountedFs.Enter | rdfs_master/namei.c:386-413 | enters the new name, over the old target or beside it, with the errors and link counts of each branch |
| FileSystem.MountedFs.Leave | rdfs_master/namei.c:418-426 | deletes the old name and turns ".." of a directory that moved |
| FileSystem.DoAll | rdfs_master/namei.c:73-449 | over every run that the VFS makes from a new file system, within 16 pages: the bytes of every directory are those of the records the run leads to, no two share memory, and every link count is the number of records naming the inode |
| FileSystem.LookAfter | rdfs_master/namei.c:46-449 | after every such run, with inserts into directories of at most 14 pages, lookup in the bytes of any directory gives what the run of the namespace alone binds the name to |
| DirTable.Table.Add | rdfs_master/dir.c:196-303 | an insert changes the one directory and no other |
| DirTable.Table.Delete | rdfs_master/dir.c:306-333 | a deletion changes the one directory and no other, and keeps its bytes those of records exactly when the merge fits |
| MapCalls.CallBalancedIff | rdfs_master/namei.c:73-449 | every call leaves every mapping count as it was, except a directory creation without a free inode, which lowers a positive count of the parent |
| MapCalls.ChangedIsMapped | rdfs_master/namei.c:73-449 | every directory whose records a call changes is among those it maps |
| MapCalls.ReadIsMapped | rdfs_master/namei.c:73-449 | what a call answers and how far it gets depends on no records but those of the directories it maps |
| MapCalls.StageIsAnswer | rdfs_master/namei.c:358-449 | the stage a rename gets to is the one its answer tells |
| RequestIds.WrIdRoundTrip | rdfs_master/server.c:49-50 | the handler reads back slave and id of the work request: twelve bits and 52 bits fill the word |
| RequestIds.DistinctIds | rdfs_master/server.c:146-149 | two requests of a slave that are both out have different ids |
| RequestIds.StepOk | rdfs_master/server.c:43-56 | under a window of at most 64 every step of posters and handler keeps the invariant, failed posts and failed completions included |
| RequestIds.StepSafe | rdfs_master/server.c:146-171 | no request returns before its completion was handled, and no completion clears the bit another request waits for |
| RequestIds.HandledReturns | rdfs_master/server.c:164-171 | a request whose completion was handled can return |
| RequestIds.StepExact | rdfs_master/server.c:43-171 | every step keeps each lock word exact: a bit is clear before its id is first used and between the completion and the return of the newest request of its id, and set otherwise |
| RequestIds.RunExact | rdfs_master/server.c:43-171 | over every interleaving under a window of at most 64 the lock words are exact |
| RequestIds.RunSafe | rdfs_master/server.c:43-171 | every interleaving under such a window is safe |
| RequestIds.GoesOn | rdfs_master/server.c:43-171 | under every window but an empty one there are runs with any number of requests, all of which return |
| RequestIds.WiderIsUnsafe | rdfs_master/server.c:146-171 | under any wider window there is a run in which a completion releases another request, which returns although its own transfer is not done |
| RequestIds.SafeIffWindow | rdfs_master/server.c:43-171 | all runs are safe if and only if the window is at most 64 |
| Chunks.ChunkStore.constructor | rdfs_master/memory.c:44-74 | every slave's list holds its whole chunks in order |
| Chunks.ChunkStore.TakeChunk | rdfs_master/memory.c:94-120 | keeps the list the chunks not yet taken, in order; gives the next of them, or -1 and no change when there is none |
| Chunks.ChunkStore.AllocBlock | rdfs_master/memory.c:176-249 | a block that was never granted, in range exactly when the file or the chosen slave has room |
| Chunks.GrantOk | rdfs_master/memory.c:176-249 | a grant with room is new and in range, and keeps: chunks owned once, each bitmap the low bits, used chunks granted whole and listed once, free counts 64 per chunk plus the rest |
| Chunks.GrantInRangeIff | rdfs_master/memory.c:187-246 | the block id is below the slave's block count exactly when there is room, and 2^64 - 1 otherwise |
| Chunks.RunOk | rdfs_master/memory.c:176-249 | over every interleaving of files while there is room no block is granted twice and all are in range |
| Chunks.RunGoodIff | rdfs_master/memory.c:176-249 | the blocks of a whole run, continued past exhaustion, are in range and distinct if and only if there was room at every ask |
| Chunks.AfterExhaustion | rdfs_master/memory.c:187-246 | from the first ask without room on, the file gets 2^64 - 1 and then the blocks 0, 1, 2 and so on of that slave |
| Chunks.ExhaustionRepeats | rdfs_master/memory.c:187-246 | the ask after one without room gets a block that was granted before |
| Metadata.WordRoundTrip | rdfs_master/rdfs_config.h:28-33 | slave ids below 2^12 and block ids below 2^40 survive the word |
| Metadata.WordLayout | rdfs_master/rdfs_config.h:28-33 | the words of a slave begin at its number times 2 to the 52, and those of its blocks lie 4096 apart |
| Metadata.PlacedOk | rdfs_master/memory.c:295-317 | recording a placement overwrites no earlier word and no file's page |
| Metadata.MetaTable.NewPagePte | rdfs_master/memory.c:297-317 | appends the word to the current page, starting a new one after 512, and maps that page as the file's next |
| Metadata.MetaTable.SearchMetadata | rdfs_master/pgtable.c:366-376 | returns the placement whose word lies at the address read |
| Metadata.LookupReads | rdfs_master/pgtable.c:366-376 | the word that lookup of block k reads is always a written one, and which one |
| Metadata.LookupRightIff | rdfs_master/pgtable.c:366-376 | lookup returns the block's own placement exactly when that word is the block's |
| Metadata.SoleFileRightIff | rdfs_master/pgtable.c:366-376 | for a file that makes all placements, exactly for the first 512 blocks |
| Metadata.SoleFileRun | rdfs_master/memory.c:295-317 | the same for every run of grants to one file, from the chunk lists to the lookup |
| SplitIo.SentOverlays | rdfs_master/server.c:138 | a transfer within one block overlays the file's contents under any injective placement |
| SplitIo.Transfer.SendBlock | rdfs_master/server.c:131-171 | the buffer bytes arrive, in order, at the address of the block and offset, which `RemoteMemory.BlocksTile` fixes, and nothing else changes there |
| SplitIo.Transfer.FetchBlock | rdfs_master/server.c:131-171 | the bytes at the address of the block and offset, which `RemoteMemory.BlocksTile` fixes, arrive in the buffer, and nothing else changes in it |
| RemoteMemory.BlocksFollow | rdfs_master/server.c:138 | block 0 begins where the slave's memory does, bytes of a block follow each other, and each block begins where the one before it ends |
| RemoteMemory.BlocksTile | rdfs_master/server.c:138 | the blocks below the slave's block count tile its memory: exactly their bytes lie in it, and every address of it is exactly one block and offset |
| RemoteMemory.SentInBlock | rdfs_master/server.c:138 | a transfer within a block changes only bytes of that block, each to the byte sent for it |
| RemoteMemory.SentInMemory | rdfs_master/server.c:138 | a transfer of a block below the block count changes nothing outside the slave's memory |
| RemoteMemory.GrantsInMemory | rdfs_master/server.c:138 | over every run of grants with room every byte of every granted block lies in its slave's memory |
| RemoteMemory.GrantInMemoryIff | rdfs_master/server.c:138 | a transfer of a granted block lies in the slave's memory exactly when there was room for the grant; otherwise the 64-bit address is that of the page before |
| SplitIo.Transfer.SendRange | rdfs_master/file.c:237-253 | the split loop writes exactly the range, in order |
| SplitIo.Transfer.FetchRange | rdfs_master/file.c:177-194 | the split loop reads exactly the range, in order |
| SplitIo.Cut | rdfs_master/pgtable.c:401-421 | the pieces of a client's range, one per block touched, each beginning and ending where the block or the range does |
| SplitIo.CutExact | rdfs_master/pgtable.c:401-421 | the pieces are the range, without gap or overlap |
| SplitIo.PiecesRead | rdfs_master/pgtable.c:401-421 | what a client reads through its pieces are the bytes of the file |
| SplitIo.LastByteWins | rdfs_master/file.c:225-253 | after any run of writes each position holds the byte of the last write that covers it |
| RemoteFile.BlocksSuffice | rdfs_master/file.c:212-216 | blocks that cover the size cover the write after the allocation |
| RemoteFile.GrowthLeast | rdfs_master/file.c:212-216 | a write takes no block exactly when the blocks of the size cover it, and otherwise so many that the last one is needed; a least cover of the size becomes a least cover of a write that reaches as far |
| RemoteFile.RunLeastIff | rdfs_master/file.c:212-263 | after a run of writes the blocks are the least that cover the size exactly when no write shrank the size by a whole block |
| RemoteFile.RewriteWastes | rdfs_master/file.c:212-263 | writing block 2, block 0 and block 2 of a new file leaves it with five blocks |
| RemoteFile.File.Write | rdfs_master/file.c:201-263 | a write overlays the contents, becomes the size, and is covered by the blocks; up to the size it takes no block, and blocks that are the least cover of the size stay so when it extends the file |
| RemoteFile.File.Read | rdfs_master/file.c:148-199 | a read returns the bytes up to the size; behind it the length wraps around and nothing is fetched |
| RemoteFile.File.WriteAll | rdfs_master/file.c:201-263 | a run of writes overlays in order and leaves the blocks that the writes alone determine |
| RemoteFile.File.ReadBack | rdfs_master/file.c:148-263 | a read after any run of writes sees the last byte written at each position |
| LookupIo.LookedIsLog | rdfs_master/pgtable.c:366-376 | for a file that makes all placements the first 512 lookups give its blocks, all different |
| LookupIo.LookedDistinctIff | rdfs_master/pgtable.c:366-376 | the blocks looked up are different if and only if there are at most 512; block 512 is looked up as block 0 |
| LookupIo.Block512OverwritesBlock0 | rdfs_master/file.c:237-253 | bytes written to block 512 are read back from block 0 |
| LookupIo.ReadBack | rdfs_master/file.c:148-263 | within 512 blocks a read through lookups after any run of writes through lookups sees the last byte written at each position |
| Areas.RangeApart | rdfs_master/nvmalloc.c:459-515 | different areas of one kind do not overlap |
| Areas.KindsApart | rdfs_master/nvmalloc.c:459-515 | directory and file areas do not meet |
| Areas.AreaTable.constructor | rdfs_master/nvmalloc.c:459-515 | 16384 directory areas and 958 file areas, all free, lowest first |
| Areas.AreaList | rdfs_master/nvmalloc.c:476-510 | the building loop lists each area below the limit once, lowest first |
| Areas.AreaTable.NvMalloc | rdfs_master/nvmalloc.c:51-112 | the first free area of the kind moves to the used list; 0 when there is none |
| Areas.Unuse | rdfs_master/nvmalloc.c:155-197 | the search finds the address wherever it is in the used list and moves it to the free list, or changes nothing |
| Areas.AreaTable.NvFree | rdfs_master/nvmalloc.c:114-212 | the address range picks the kind; an unknown address changes nothing |
| Areas.GiveUndoesTake | rdfs_master/nvmalloc.c:51-212 | giving the area taken last back restores lists, their order and counters |
| Areas.AreaTable.Establish | rdfs_master/pgtable.c:279-334 | counts up and takes the first free area of the kind when there is no address; the invariant is kept exactly when an address or an area is at hand |
| Areas.AreaTable.Destroy | rdfs_master/pgtable.c:336-364 | counts down and gives the area back with the last mapping |
| Areas.NoSharing | rdfs_master/pgtable.c:279-364 | no two inodes share an area |
| Areas.AreaTable.Run | rdfs_master/pgtable.c:279-364 | over every run up to the first call that finds no area, lists partition the areas, counters are lengths, an inode has an address exactly while its count is positive, and counts follow the calls; which call that is, is given exactly by the calls and the counts at the start |
| Areas.UsedSize | rdfs_master/nvmalloc.c:51-212 | as many areas are used as inodes of the kind have a mapping, and used and free ones together are all |
| Areas.IdleAllFree | rdfs_master/nvmalloc.c:114-212 | when no inode has a mapping every area is free again |
| AreaSlots.AreasAreBases | rdfs_master/nvmalloc.c:459-515 | every area handed out is an address from which the page tables can be filled |
| AreaSlots.RunClear | rdfs_master/nvmalloc.c:51-212 | as long as never all 16384 directory areas are in use at once, no inode is mapped in the last of them, so that no block goes astray |

## Left out

- PageStore.Store.AllocBlocks: the result of `rdfs_new_block` is discarded by the code, so a list that is too short is excluded by a precondition.
- PageStore.Store.InsertPage: an inode without a top table is refused; from block 2^18 on the code follows the offset into memory that is not a table.
- PageStore.Store.FindDataBlock: needs the third-level table to exist, because the code's null tests on translated addresses never fail.
- PageStore.Store.RmPteRange: tests the count before the entry, where the code tests the entry first; the branch for blocks on a disk is not modelled.
- BatchFree.Batcher.FreeBatch: the pages of a batch are distinct, as each page is freed once.
- Directory.Dir.AddLink: the zero-length test is a proved impossibility instead of a branch.
- DirTable.Table.Add: the page for a directory that grows is supplied, in the runs over whole file systems.
- NameOps.Run: the VFS checks are guards of each call, among them that the name to be inserted is absent and that a directory is not moved below itself; so is a merge that fits 16 bits, which the VFS does not check and which can fail from 17 pages on.
- FileSystem.MountedFs.Lookup: gives the inode number; reading the inode in, which can report a stale one, is not modelled.
- RemoteMemory.GrantInMemoryIff: the slave's memory ends a page or more before the top of the address space.
- Metadata.MetaTable.NewPagePte: the granted block is a parameter, and block numbers fit 40 bits.
- NameOps.Step: inode numbers are below 2^32 in every call, the width at which lookup and new directories cut them.
- RemoteFile.File.Read: at most the one-page buffer is asked for, into which the code copies any length.
- RemoteFile.File.Write: data shorter than the one-page buffer, and an injective placement for lookup.
- RequestIds.RunSafe: a wait is not interrupted by a fatal signal.
- Chunks.RunOk: chunks are not given back; the code that would do so is marked unused or calls a function of another signature.
- Areas.AreaTable.Establish: the inodes are directories, symbolic links and regular files; the kernel page tables are not modelled.
- Socket services, handshakes, message text, the slave, client and server programs.
- Access control lists and extended attributes, mount options, timestamps, checksums, tracing.
- Disk blocks and their sector pools.
- Symbolic links, device nodes and temporary files, as calls of their own; reading a directory out to user space.
- Open and release counting, and the exact file size after truncation.
- Kernel page-table mirroring, cache and address-translation flushes, DMA mapping, queue-pair setup.
- The free list of page-table entries, whose initialiser is commented out.
- Locks are atomic sections; races that the code allows outside its locks are not modelled.
