# soso, modelled and proved in Dafny

soso is an operating system with its own build and deployment tools. This project models the parts of it that
change stored data step by step, and proves what they keep:

- the FAT16/FAT32 writer of the build tool (`xtask/src/fat32_write.rs`): files of the root directory are written, grown
  in place or moved, overwritten and read; chains are released; long names are encoded and listed; whole trees are copied;
- the allocator that replaces the C library's (`tools/wild-soso/soso_libc_alloc.c`);
- the replay of expert traces (`tools/sim-moe-cache.py`);
- the kernel update of the boot shim (`boot-shim/src/actualiza.rs`) with the decisions of `crates/soso-update-core`;
- the screen dump converter, PPM to PNG (`xtask/src/fb_shot.rs`);
- the registration of boot entries (`boot-shim/src/bootentry.rs`);
- partial `mprotect` (`xtask/src/elf_mmap_rules.rs`).

Code that updates in place is modelled by classes and methods over arrays and mutable fields: a disk image
(`Disk.Image`), a FAT in an array of bytes, a volume on an image (`FatDisk.Volume`), the heap (`Allocator.Heap`), the
EFI system partition (`KernelWrites.Partition`), the firmware's variables (`BootRegister.Firmware`), the CRC register
(`Crc32.Register`) and the region list (`RegionMap.AddressSpace`). Each method is proved against a function or a
predicate of the old and the new state, and the theorems are lemmas about those.

A few large predicates are *folded*: they go through a recursion that does nothing `FOLDS` times, for a constant the
solver does not unroll, so that they are opened only where a lemma says so.

## Modules

| modules | subject |
|---|---|
| `Base`, `Words`, `Utf16`, `DirSlots`, `Disk` | shared types, numbers and text as bytes, directory slots, an image with `copy_bytes` and `write_fill` |
| `FatLayout`, `DirLayout` | a volume, its tables, directories and slots written down from their parts, and what is read of them |
| `FatTable`, `FatVolume`, `FatFiles`, `FatFrame`, `FatSlots`, `FatListing` | the FAT and its chains, the volume, reading and locating files, what a write leaves alone |
| `FatPlan`, `FatGrow`, `FatGrowth` | `grow_root_file` |
| `FatInstall`, `FatWrite`, `FatWritten`, `FatLeak`, `FatRelease` | `write_root_file`, the growth of the root directory, writes that fail, released chains |
| `LongNames`, `LongNameDir` | long names, listing a directory, installing an entry |
| `FatTree`, `FatShown`, `FatCopy`, `FatDisk`, `FatSpace`, `FatCopyTree` | `copy_fat_partition` on the bytes of two images |
| `Memory`, `Allocator` | the heap |
| `MoeCache` | the two cache simulators |
| `KernelWrites`, `KernelUpdate`, `KernelCycle`, `KernelSafety`, `KernelRecovery` | durable writes under power cuts, one boot, what each kind of boot leaves, any number of boots, the way back after a cut |
| `Crc32`, `CrcDivision`, `Zlib`, `Ppm`, `Png` | PPM to PNG (RFC 1950 section 2.2, RFC 1951 section 3.2.4, RFC 2083 sections 3.2, 3.4 and 15) |
| `BootEntry`, `BootRegister`, `BootMailbox` | boot entries (UEFI Specification, sections 3.1.3 and 3.3) and their mailbox |
| `RegionMap` | partial `mprotect` |

## Assumptions

- FAT volumes: the table has no entries beyond the clusters of the volume, there are one or two copies of it, a file that
  is grown is contiguous, the directory bytes after the first slot that starts with 0x00 are zero where a lemma says
  `Tidy`, and the chains that a call follows stay inside the table. Public reference: Microsoft FAT32 File System
  Specification 1.03.
- Kernel update: the 512 bytes of META (one sector) and the mailbox are each written atomically or become unreadable, in
  which case the mailbox reads as idle. Their text form is taken to read back: versions have no line break, and META fits
  its sector. `KernelMeta::parse` itself accepts any text after its first line, so nothing here follows from parsing. A
  torn kernel or slot may hold any bytes. The kernel that is replaced has 1 byte to 64 MiB, which is what the slot holds.
  The hash is any function to 64 hexadecimal digits; where a torn slot could be taken for the backup, no other image of
  its size has its hash.
- Allocator: `mmap` gives a fresh page-aligned zeroed range below 2^63, or fails; a ghost log holds each request and its
  answer, so that a contract can say when memory was refused. Clients write only inside their live
  blocks and pass to `free` and `realloc` only addresses they were given. Each public call is atomic.
- Boot entries: every firmware call succeeds or fails without effect and is kept in a ghost log with its answer; device paths are given bytes; reading a GUID is a
  parameter.

## Model

| member | source | states |
|---|---|---|
| `FatGrow.GrowRootFile` | xtask/src/fat32_write.rs:185-272 | grow_root_file: every refusal, and for success the whole new image, tied to the place chosen |
| `FatGrow.Place` | xtask/src/fat32_write.rs:228-266 | the three branches: extend in place, move to the least free run, or free the own run first and search again; without a place the image is unchanged |
| `FatGrowth.AnswerIsDone` | xtask/src/fat32_write.rs:185-272 | a call that answers with the new size is a growth in the sense of the lemmas below |
| `FatGrowth.GrownReads` | xtask/src/fat32_write.rs:185-272 | the grown file reads as its old bytes followed by zeros up to the new size, in all three branches, also when it slides over itself |
| `FatGrowth.GrownTables` | xtask/src/fat32_write.rs:1077-1099 | both copies of the table are equal, the file is one run ending in an end mark, all other used entries are unchanged |
| `FatGrowth.GrownEntry` | xtask/src/fat32_write.rs:1101-1114 | the entry found under the name has the new cluster and the new size |
| `FatGrowth.OtherEntryKept` | xtask/src/fat32_write.rs:185-272 | every other name is found as before |
| `FatGrowth.OtherClusterKept` | xtask/src/fat32_write.rs:185-272 | a used cluster of another file keeps its link and all its bytes |
| `FatGrowth.OtherChainKept` | xtask/src/fat32_write.rs:185-272 | every chain of such clusters, contiguous or not, in any directory, is followed and read as before |
| `FatPlan.PlanKeeps` | xtask/src/fat32_write.rs:215-266 | whichever place is chosen, the file ends as one run, takes no cluster of another chain and changes no other entry |
| `FatPlan.PlanFrees` | xtask/src/fat32_write.rs:228-290 | a cluster given up and not taken back is free again if and only if it is among the first million of the chain |
| `FatPlan.RefusedIff` | xtask/src/fat32_write.rs:228-266 | growth is refused if and only if no run is free even after giving up the file's own clusters |
| `FatPlan.StaysIff` | xtask/src/fat32_write.rs:228-231 | a file stays at its first cluster if and only if it has data and every further cluster it needs, just behind its own, exists and is free |
| `FatPlan.SlidesDown` | xtask/src/fat32_write.rs:228-266 | the run found after freeing the own one starts strictly below the old first cluster and reaches beyond it |
| `FatTable.SetFat` | xtask/src/fat32_write.rs:1549-1559 | one entry of the table becomes the value, reduced to 16 or 28 bits; no other entry and no reserved bit changes |
| `FatTable.ViewPut` | xtask/src/fat32_write.rs:1539-1559 | reading the table after one entry is written |
| `FatTable.ReservedKept` | xtask/src/fat32_write.rs:1554-1559 | writing one entry keeps the top four bits of every 32-bit word |
| `FatTable.FindRun` | xtask/src/fat32_write.rs:1061-1067 | the least free run of the length asked for, or none when there is none |
| `FatTable.RunIsFree` | xtask/src/fat32_write.rs:1050-1059 | true if and only if every cluster of the run is inside the table and free |
| `FatTable.MarkRun` | xtask/src/fat32_write.rs:1069-1075 | the table with the run chained and ended |
| `FatTable.ExtendChain` | xtask/src/fat32_write.rs:1077-1090 | the table with the run lengthened; nothing for no more clusters |
| `FatTable.ExtendedIsRun` | xtask/src/fat32_write.rs:1077-1090 | the result is one run of the new length and no other entry changes |
| `FatTable.FreeChain` | xtask/src/fat32_write.rs:274-290 | clears the chain from a cluster, whatever it looks like inside the table, at most a million clusters of it |
| `FatTable.FreedRun` | xtask/src/fat32_write.rs:274-290 | on a contiguous file that is its run, up to the step limit |
| `FatTable.RunWalks` | xtask/src/fat32_write.rs:1561-1573 | walking a run visits exactly its clusters in order |
| `FatTable.MarkThenClear` | xtask/src/fat32_write.rs:1561-1573 | marking a free run gives a chain that is walked from end to end, and clearing it restores every entry |
| `FatRelease.LiberarCadena` | xtask/src/fat32_write.rs:485-502 | terminates on every chain that stays inside the table, cycles included; both copies hold the released table |
| `FatRelease.ReleasedIsChain` | xtask/src/fat32_write.rs:485-502 | an entry is cleared if and only if the walk from the first cluster reaches it |
| `FatRelease.MarkThenRelease` | xtask/src/fat32_write.rs:485-502 | releasing a run that was just marked restores the table |
| `FatVolume.ReadVol` | xtask/src/fat32_write.rs:957-1018 | the volume or the refusal; `FatLayout.BootRead` says which, for every sector; an accepted sector gives a consistent geometry |
| `FatLayout.BootRead` | xtask/src/fat32_write.rs:957-1018 | a boot sector given by its fields, written one after the other in the widths of the specification: each refusal, in the order checked, and otherwise the volume with exactly those fields, for every cluster size, FAT16 and FAT32 |
| `FatLayout.EverySector` | xtask/src/fat32_write.rs:957-1018 | every 512 bytes are such a sector, so that nothing read is left out |
| `FatLayout.ShortIff` | xtask/src/fat32_write.rs:957-960 | the image is too short for a boot sector if and only if it ends before byte 512 of the partition |
| `Words.PairWeights` | xtask/src/fat32_write.rs:968-976 | a two-byte number has its low byte first |
| `Words.QuadWeights` | xtask/src/fat32_write.rs:968-976 | a four-byte number has its low half first |
| `FatLayout.WholeRead` | xtask/src/fat32_write.rs:957-1034 | a whole volume written down as its parts (what precedes it, boot sector, reserved sectors, tables, fixed root, clusters): it is accepted, and every table, the root directory and every cluster are read where they were written |
| `DirLayout.TableReads` | xtask/src/fat32_write.rs:1539-1547 | entry by entry, a table written as little-endian words of two or four bytes |
| `DirLayout.ChainEnds` | xtask/src/fat32_write.rs:888-894 | a chain is ended by the last eight values of an entry, and written with the last |
| `DirLayout.WholeHolds` | xtask/src/fat32_write.rs:957-1018 | with one or two tables and no entry beyond the clusters, such a volume meets what the calls ask of an image, and its table is the first one written |
| `DirLayout.SlotReads` | xtask/src/fat32_write.rs:292-319 | a slot given by its fields and attribute bits: the cluster and size read, whether it is free, and for which names it counts as found; labels and parts of long names for none |
| `DirLayout.EntriesWritten` | xtask/src/fat32_write.rs:1590-1600 | the slots written for new files and folders, field by field: archive bit or directory bit and no other |
| `DirLayout.SlotsAreBytes` | xtask/src/fat32_write.rs:826-847 | the slots of a directory are its bytes cut every 32: the fixed area, or the clusters along the chain up to the one that makes it more than 65536 sectors |
| `DirLayout.FileReads` | xtask/src/fat32_write.rs:790-822 | end to end: a file whose slot is the first of the root directory that fits is read as the bytes of the volume from its first cluster on |
| `FatVolume.DirSectorOffsets` | xtask/src/fat32_write.rs:826-847 | the sectors of a directory, from the fixed area or along its chain, up to the limit |
| `FatVolume.FindEntryLoc` | xtask/src/fat32_write.rs:292-319 | the first matching entry before the end mark |
| `FatFiles.ReadRootFile` | xtask/src/fat32_write.rs:790-822 | the file's bytes, or each refusal, among them an entry without a cluster and bytes past the end of the image |
| `FatFiles.LocateInDir` | xtask/src/fat32_write.rs:691-745 | where a file lies on disk, or each refusal, for any path |
| `FatFiles.LocatedIff` | xtask/src/fat32_write.rs:724-744 | a file with data is accepted if and only if following its chain visits consecutive clusters, exactly as many as its size takes, and the last has an end mark |
| `FatFiles.CheckRun` | xtask/src/fat32_write.rs:724-744 | accepts exactly the files whose links step by one to the last cluster needed |
| `FatFiles.LocatedReadsChain` | xtask/src/fat32_write.rs:724-744 | for an accepted file the range that is read or overwritten holds the bytes gathered by following its chain |
| `FatFiles.OverwriteInDir` | xtask/src/fat32_write.rs:599-629 | the file's area becomes the data followed by zeros; data that do not fit change nothing |
| `Disk.Image.CopyBytes` | xtask/src/fat32_write.rs:1451-1475 | equals memmove for every source, destination, length and chunk size |
| `Disk.Image.WriteFill` | xtask/src/fat32_write.rs:1116-1131 | fills exactly the range |
| `FatFrame.WriteFats` | xtask/src/fat32_write.rs:1092-1099 | every copy of the table is written and nothing else |
| `FatFrame.WriteDirentClusterSize` | xtask/src/fat32_write.rs:1101-1114 | only the cluster and size fields of the entry change |
| `FatInstall.ChainLast` | xtask/src/fat32_write.rs:921-930 | the last cluster of a chain |
| `FatInstall.GrowFat32Root` | xtask/src/fat32_write.rs:932-951 | one zeroed cluster is linked at the end of the root's chain; without a free cluster the image is unchanged |
| `FatInstall.AppendedChain` | xtask/src/fat32_write.rs:932-951 | a directory's chain is its old clusters followed by the new one |
| `FatWrite.InstallDirEntry` | xtask/src/fat32_write.rs:1575-1610 | the entry in the first free slot, growing a full FAT32 root once; a full FAT16 root is refused |
| `FatWrite.WriteRootFile` | xtask/src/fat32_write.rs:38-122 | every answer of write_root_file with the image it leaves |
| `FatWritten.AnswerIsMade` | xtask/src/fat32_write.rs:38-122 | a success for a name not there yet is a new file in the sense of the lemmas below |
| `FatWritten.WriteReads` | xtask/src/fat32_write.rs:38-122 | reading the file gives the data if and only if its name does not begin with 0x00 or 0xE5 |
| `FatWritten.OthersListed` | xtask/src/fat32_write.rs:38-122 | for every new name: another name is found as before, or not at all; the latter if and only if the new name begins with 0x00 and a slot before the other entry was free |
| `FatWritten.OtherChainKept` | xtask/src/fat32_write.rs:38-122 | every other chain is followed and read as before |
| `FatWritten.RootGrowsByOne` | xtask/src/fat32_write.rs:932-951 | the root gains at most one cluster, at the end of its chain, and only when no slot was free |
| `FatWritten.WriteAgain` | xtask/src/fat32_write.rs:64-79 | writing the same file again succeeds and changes no byte: no second entry |
| `FatWritten.OverReads` | xtask/src/fat32_write.rs:64-79 | data of the same size written over a file read back |
| `FatWritten.OverElsewhere` | xtask/src/fat32_write.rs:64-79 | and no cluster outside the file's run changes |
| `FatLeak.FailsIff` | xtask/src/fat32_write.rs:38-122 | when a call fails, as a condition on the image before it, if and only if |
| `FatLeak.FailureLeaks` | xtask/src/fat32_write.rs:80-122 | a call fails with the table changed if and only if, before it, the name was new, the data were not empty, a run was free, the root directory was full and could not grow; the run stays marked without a file |
| `FatLeak.FullLeaks` | xtask/src/fat32_write.rs:1575-1610 | on a given FAT16 image with a full root directory every write of a new file that fits fails and changes the table |
| `LongNames.LfnChecksum` | xtask/src/fat32_write.rs:326-332 | the rotating sum of the short name |
| `LongNames.SumRotates` | xtask/src/fat32_write.rs:326-332 | from zero on, the sum is rotated right by one bit on eight bits before each byte is added |
| `DirLayout.PartLayout` | xtask/src/fat32_write.rs:344-374 | a part of a long name byte by byte: number with the mark of the last, five, six and two units, checksum, and zeros between |
| `LongNames.PaddedWith` | xtask/src/fat32_write.rs:344-356 | the units of a name fill whole parts: an end mark and padding behind them, unless they fill their parts exactly |
| `LongNames.EncodeLfn` | xtask/src/fat32_write.rs:344-374 | numbered parts, last first, with end mark and padding only where the units do not fill the slots, for every name whose parts have numbers |
| `LongNames.TakeEncoded` | xtask/src/fat32_write.rs:326-374 | taking the parts written for a name gives its units back |
| `Utf16.LossyIff` | xtask/src/fat32_write.rs:1258-1277 | the conversion to text keeps the units if and only if every surrogate is paired |
| `Utf16.LossyAt` | xtask/src/fat32_write.rs:1258-1277 | unit by unit: exactly a high surrogate without a low one behind it, or a low one without a high one before it, becomes U+FFFD |
| `LongNames.ListedGood` | xtask/src/fat32_write.rs:1205-1277 | every listed name can be listed again, and every listed long name is text that is written as it is |
| `LongNames.LongNameListed` | xtask/src/fat32_write.rs:1205-1277 | the next listing is the old one with exactly the new entry and its long name in its place; the units are the name's own if and only if it has no 0 and no 0xFFFF |
| `LongNames.StaysWellFormed` | xtask/src/fat32_write.rs:1397-1449 | a well-formed directory stays well-formed |
| `LongNameDir.TakeLfn` | xtask/src/fat32_write.rs:1258-1277 | the long name of the pending parts, or none when a checksum differs |
| `LongNames.TakenIff` | xtask/src/fat32_write.rs:1258-1263 | there is a long name if and only if there are parts and all carry the sum of the short name |
| `LongNames.SortedIs` | xtask/src/fat32_write.rs:1264-1264 | the parts are used in the order of their numbers, all of them |
| `LongNames.CleanJoins` | xtask/src/fat32_write.rs:1266-1276 | units count up to the first end mark, padding is dropped wherever it stands |
| `LongNameDir.ListDirEntries` | xtask/src/fat32_write.rs:1205-1256 | the listing of a directory as a function of its slots |
| `DirLayout.ListedSlots` | xtask/src/fat32_write.rs:1219-1253 | a listing has one entry for each slot before the end mark that is in use and is neither part of a long name nor label nor dot entry, in order and under its name |
| `DirLayout.WaitingIs` | xtask/src/fat32_write.rs:1230-1245 | the parts pending at a slot are those in the slots just before it, without a gap |
| `DirLayout.EntryListed` | xtask/src/fat32_write.rs:1222-1253 | a visible slot is listed with the long name that those parts give it |
| `LongNameDir.InstallEntryInDir` | xtask/src/fat32_write.rs:1397-1449 | parts and entry in the first place with room; only slots of that directory change; a failure means that no place has room and changes nothing |
| `LongNameDir.InstalledIsListed` | xtask/src/fat32_write.rs:1397-1449 | the long name round trip: what an installation writes is what the next listing shows, between the same entries as before |
| `LongNameDir.ListedAgain` | xtask/src/fat32_write.rs:826-847 | the directory is listed from the same sectors afterwards |
| `FatShown.StoredShows` | xtask/src/fat32_write.rs:1334-1336 | storing bytes in free clusters leaves every directory and file of the picture as it was |
| `FatShown.StoredFile` | xtask/src/fat32_write.rs:1334-1336 | the bytes stored are shown as a file along the new chain |
| `FatShown.InstalledShows` | xtask/src/fat32_write.rs:1397-1449 | installing an entry changes the slots of one directory in the picture and nothing else |
| `FatShown.PathShown` | xtask/src/fat32_write.rs:1280-1300 | following a path on the bytes of the image gives the directory that the picture has under it |
| `FatDisk.Volume.ListDir` | xtask/src/fat32_write.rs:1205-1256 | the listing of the directory at a path, or none when the path leads nowhere |
| `FatDisk.Volume.ReadIn` | xtask/src/fat32_write.rs:560-574 | the file's bytes; it succeeds if and only if the file is found and accepted as contiguous |
| `FatDisk.Volume.WriteIn` | xtask/src/fat32_write.rs:1302-1344 | on the bytes of the image: the picture gains exactly the new file and its entry; it succeeds if and only if the directory is there without that file, the data are not empty, a free run is long enough and the entry has room |
| `FatDisk.Volume.MkdirIn` | xtask/src/fat32_write.rs:1346-1395 | the picture gains a folder with its two dot entries, or is unchanged when the folder exists; the exact condition of success |
| `FatCopy.LeadsBack` | xtask/src/fat32_write.rs:1378-1386 | from a folder just made, "." stays in it and ".." leads to the directory it was made in |
| `FatSpace.FreeRuns` | xtask/src/fat32_write.rs:1050-1067 | when the free clusters are the last ones, a run is found if and only if they suffice, and starts at the first |
| `FatSpace.EnoughInTurn` | xtask/src/fat32_write.rs:1177-1197 | clusters and slots suffice for two parts of a directory if and only if they do for the first and then for the second |
| `FatCopyTree.CopyDirTree` | xtask/src/fat32_write.rs:1177-1197 | copies one directory and everything below it into the directory of the same path, with the exact condition of success |
| `FatCopyTree.CopyFatPartition` | xtask/src/fat32_write.rs:1160-1175 | on success the destination image shows the source's tree; when the destination's free clusters are its last ones, as on a fresh volume, the call succeeds if and only if every source file is found, contiguous and not empty, the clusters suffice for all files and folders, and every directory has room for its entries; a FAT16 destination is refused untouched |
| `FatCopyTree.CopiedByPath` | xtask/src/fat32_write.rs:1177-1197 | every file of the source is found in the copy under its path with the same bytes and listed with its long name |
| `FatTree.ListedSound` | xtask/src/fat32_write.rs:1205-1256 | what the copy needs of names holds of every tree a volume lists |
| `FatTree.MappedIff` | xtask/src/fat32_write.rs:1183-1192 | the copy has the source's names if and only if no folder has a long name and every KERNEL~1 has one |
| `FatTree.KernelTexts` | xtask/src/fat32_write.rs:321-324 | which file is given which long name, as text |
| `Allocator.Heap.ClassFor` | tools/wild-soso/soso_libc_alloc.c:73-81 | the least size class that holds the request |
| `Allocator.ClassIs` | tools/wild-soso/soso_libc_alloc.c:25-30 | only requests above 64 KiB have no class, and a class above the first wastes less than half |
| `Allocator.Pow2Iff` | tools/wild-soso/soso_libc_alloc.c:165-167 | the alignments accepted are the powers of two |
| `Allocator.Heap.Dedicated` | tools/wild-soso/soso_libc_alloc.c:100-124 | an aligned block in its own mapping; the kernel is asked once, and there is a block if and only if it does not refuse; nothing is asked when the length does not fit in 64 bits |
| `Allocator.Heap.SlabNew` | tools/wild-soso/soso_libc_alloc.c:126-153 | a block of the class with its header written but for the tag: a free one if there is any, else a new one from the slab, else the kernel is asked for a slab; 0 if and only if it refuses; every other block is as before |
| `Allocator.Heap.AllocUnlocked` | tools/wild-soso/soso_libc_alloc.c:155-182 | when a request is granted and from where: with a class, one of the free blocks of that class if there are any, else the slab if it has room, else one question to the kernel for 1 MiB; without, one question for its own mapping unless the length does not fit in 64 bits; 0 if and only if the kernel refuses or the alignment or length is refused; the block is aligned and large enough, and the other live blocks keep place and bytes |
| `Allocator.Heap.FreeUnlocked` | tools/wild-soso/soso_libc_alloc.c:186-209 | the block goes to its bin, or its mapping back to the kernel and nothing else with it; a block already free changes nothing |
| `Allocator.Heap.Malloc` | tools/wild-soso/soso_libc_alloc.c:211-217 | as alloc_unlocked, aligned to 16: in particular a request whose class has a free block gets one, without asking the kernel |
| `Allocator.Heap.Calloc` | tools/wild-soso/soso_libc_alloc.c:219-233 | the product is refused when it does not fit in 64 bits; otherwise granted as malloc, and the bytes are zero |
| `Allocator.Heap.Realloc` | tools/wild-soso/soso_libc_alloc.c:235-265 | keeps the first min(old size, n) bytes; in place whenever the capacity allows; otherwise granted or refused as malloc; on refusal the old block is live and unchanged |
| `Allocator.Heap.Free` | tools/wild-soso/soso_libc_alloc.c:267-271 | as free_unlocked |
| `Allocator.Heap.AlignedAlloc` | tools/wild-soso/soso_libc_alloc.c:273-279 | a block aligned as asked, granted as alloc_unlocked; nothing for an alignment of 16 or more that is not a power of two |
| `Allocator.Heap.PosixMemalign` | tools/wild-soso/soso_libc_alloc.c:283-296 | the exact condition of each error code, the lack of memory as for alloc_unlocked |
| `Allocator.LiveApart` | tools/wild-soso/soso_libc_alloc.c:100-182 | in every reachable heap live blocks with their headers are disjoint and inside mapped memory |
| `Allocator.LiveOrInOneBin` | tools/wild-soso/soso_libc_alloc.c:126-209 | a slab block is live or at exactly one place of exactly one free list, that of its class |
| `Allocator.CarvedForever` | tools/wild-soso/soso_libc_alloc.c:126-265 | through every call a stride once carved stays a slab block at its place and in its class |
| `Allocator.MagicMarksLive` | tools/wild-soso/soso_libc_alloc.c:186-209 | the magic number, sixteen bytes before the block, is set exactly on live blocks; before it stand the size and the capacity |
| `MoeCache.LruSim` | tools/sim-moe-cache.py:30-44 | hits and misses of the ordered cache |
| `MoeCache.LruCacheIsMostRecent` | tools/sim-moe-cache.py:30-44 | the cache is exactly the most recently used keys in recency order |
| `MoeCache.RecencyOrder` | tools/sim-moe-cache.py:30-44 | that order is the order of last uses |
| `MoeCache.HitIffRecent` | tools/sim-moe-cache.py:36-38 | a request hits if and only if fewer than `capacity` other keys came since its last use |
| `MoeCache.LruInclusion` | tools/sim-moe-cache.py:30-44 | a smaller cache is a suffix of a larger one |
| `MoeCache.LruHitsMonotone` | tools/sim-moe-cache.py:30-44 | hits never decrease with capacity |
| `MoeCache.LruCompetitive` | tools/sim-moe-cache.py:30-67 | for every trace and k >= 1, misses of LRU are at most k times those of any demand cache of k keys |
| `MoeCache.BeladySim` | tools/sim-moe-cache.py:47-67 | the simulator's run is such a demand cache, so the bound holds of it as written, whichever key it evicts among equals |
| `MoeCache.FirstToReturn` | tools/sim-moe-cache.py:60-66 | if any cached key comes again, the one given up is the one that comes first |
| `MoeCache.BeladyOptimalIff` | tools/sim-moe-cache.py:47-67 | the simulator as written is never beaten if and only if the capacity is 1 |
| `MoeCache.LruBeatsBelady` | tools/sim-moe-cache.py:58-64 | for every larger capacity, a trace on which LRU misses less |
| `KernelWrites.Partition.WriteSlot` | boot-shim/src/actualiza.rs:236-280 | the slot is made large enough, then the data, then zeros in chunks, for every schedule of errors and cuts |
| `KernelWrites.Partition.WriteKernel` | boot-shim/src/actualiza.rs:282-314 | over the old bytes from the start, then the size if it differs |
| `KernelWrites.SlotPut` | boot-shim/src/actualiza.rs:236-260 | a write that ends leaves the data and zeros in the slot and keeps what lies beyond it; only the slot file can change |
| `KernelWrites.KernelPut` | boot-shim/src/actualiza.rs:282-294 | a write that ends leaves the data; only the kernel file can change |
| `KernelUpdate.Shim.AplicarKernel` | boot-shim/src/actualiza.rs:107-145 | files and outcome of an update for every schedule |
| `KernelUpdate.Shim.RevertirDesdeMeta` | boot-shim/src/actualiza.rs:160-173 | files and outcome of a restore named by META |
| `KernelUpdate.Shim.RevertirKernelLegacy` | boot-shim/src/actualiza.rs:175-188 | files and outcome of a restore without a recorded size |
| `KernelUpdate.Shim.RevertirKernel` | boot-shim/src/actualiza.rs:147-158 | the restore, then the answer in the mailbox |
| `KernelUpdate.Shim.RecuperarInterrumpido` | boot-shim/src/actualiza.rs:93-105 | does nothing unless META asks for a recovery; otherwise the restore |
| `KernelUpdate.Shim.Atender` | boot-shim/src/actualiza.rs:21-77 | one whole boot for every schedule of errors and cuts, with the decisions of after_interrupt |
| `KernelCycle.RecoveryBoot` | boot-shim/src/actualiza.rs:28-32 | a boot that is not cut, with META asking for a recovery: the image is restored and META idle, or nothing changes when the backup fails its hash |
| `KernelCycle.AnnouncingBoot` | boot-shim/src/actualiza.rs:33-40 | a trial whose announcement was lost is announced again and no request is served |
| `KernelCycle.ConfirmingBoot` | boot-shim/src/actualiza.rs:70-74 | a confirmed trial: mailbox and META are idle afterwards, kernel and slot as before |
| `KernelCycle.IdleBoot` | boot-shim/src/actualiza.rs:75-75 | nothing asked for, nothing changed |
| `KernelCycle.RevertingBoot` | boot-shim/src/actualiza.rs:49-61 | a trial not confirmed, or a revert asked for: the image is restored and the mailbox reports the version |
| `KernelCycle.UpdatingBoot` | boot-shim/src/actualiza.rs:62-69 | a request is served if and only if its size is from 1 byte to 64 MiB and the slot begins with an image of that hash: then the new kernel is in place, the old one in the slot, and META and mailbox announce the trial; else nothing changes |
| `KernelCycle.StagedImage` | crates/soso-update-core/src/kernel_apply.rs:17-55 | a request with an image's size and hash, in small or capital digits, is met by every slot that begins with the image |
| `KernelCycle.OtherImage` | crates/soso-update-core/src/kernel_apply.rs:17-55 | and by no slot that begins with an image of another hash |
| `KernelCycle.UpdateConfirmed` | boot-shim/src/actualiza.rs:21-77 | two boots: an update tried and confirmed leaves the new kernel and everything idle |
| `KernelCycle.UpdateTakenBack` | boot-shim/src/actualiza.rs:21-77 | two boots: an update never confirmed leaves the old kernel and reports the version; a third boot changes nothing |
| `KernelCycle.UpdatedAfterConfirmed` | boot-shim/src/actualiza.rs:21-77 | after a confirmation the next request that the slot meets is served, not answered with the old trial |
| `KernelSafety.ApplyNeverLost` | boot-shim/src/actualiza.rs:107-145 | wherever an update is cut, for every kernel up to 64 MiB: the kernel is whole-old, whole-new, or META durably says Applying and the slot holds the old one |
| `KernelSafety.RecoveryStep` | boot-shim/src/actualiza.rs:21-105 | one boot on the way back, cut anywhere, stays on it; when it ends the old kernel is there |
| `KernelSafety.RecoveryAlways` | boot-shim/src/actualiza.rs:93-173 | after any number of cut boots, one that is not cut ends with the old kernel byte for byte |
| `KernelRecovery.CycleStep` | boot-shim/src/actualiza.rs:21-188 | when the request left behind asks for the backup itself, every boot, cut anywhere, keeps what leads back to it |
| `KernelRecovery.CutUpdateRecovers` | boot-shim/src/actualiza.rs:21-188 | after an update that was cut while the kernel was written: any boots, cut or failing anywhere, then one that is not, always end with the old kernel if and only if the request left in the mailbox does not fit the backup, or asks for exactly the backup and that survives the trimming of zeros |
| `KernelSafety.LegacyExact` | boot-shim/src/actualiza.rs:175-188 | without a recorded size the image restored is the image held if and only if its last byte is not zero |
| `KernelSafety.SecondRevert` | boot-shim/src/actualiza.rs:147-188 | a revert cut between META and the mailbox, then an uncut boot: the image survives if and only if its last byte is not zero or it is all zeros |
| `KernelSafety.ZerosLost` | boot-shim/src/actualiza.rs:147-188 | one such run on given bytes |
| `KernelSafety.BootSafe` | boot-shim/src/actualiza.rs:21-188 | every boot that does not start exposed (a revert pending, no backup named by META, the trimmed slot not a whole kernel), cut anywhere, keeps the safety invariant, and one that ends leaves a whole kernel with a digest that was vouched for |
| `KernelSafety.BootEnds` | boot-shim/src/actualiza.rs:21-77 | a boot without errors or cuts runs to its end |
| `KernelSafety.SystemStepSafe` | boot-shim/src/actualiza.rs:79-91 | what the installed system does between boots keeps the invariant |
| `KernelSafety.LifeSafe` | boot-shim/src/actualiza.rs:21-188 | the same over any sequence of boots that do not start exposed and steps of the system |
| `KernelSafety.LifeWhole` | boot-shim/src/actualiza.rs:21-188 | without that condition when no vouched-for kernel ends in a zero byte: after any life an uncut boot leaves a whole kernel |
| `KernelSafety.NeverExposed` | boot-shim/src/actualiza.rs:175-188 | the one bad state needs a vouched-for kernel that ends in a zero byte |
| `KernelSafety.AssumptionsMet` | crates/soso-update-core/src/kernel_meta.rs:88-93 | the assumptions can be met with every kernel that fits the slot |
| `Crc32.Register.Update` | xtask/src/fb_shot.rs:342-350 | the register after the bytes; `CrcDivision.ChecksumIsRemainder` says what that is |
| `CrcDivision.ChecksumIsRemainder` | xtask/src/fb_shot.rs:334-354 | the checksum is the complement, bits reflected, of the remainder of the message polynomial with its first 32 bits inverted, divided by the generator of RFC 2083 section 15 given by its exponents |
| `CrcDivision.PolyIsGenerator` | xtask/src/fb_shot.rs:347-347 | bit 31 - i of the constant is set if and only if i is one of the exponents below 32 |
| `Crc32.ChecksumOfTwo` | xtask/src/fb_shot.rs:298-306 | the register fed with a type and its data gives the checksum of both together |
| `Crc32.ChecksumComposes` | xtask/src/fb_shot.rs:334-354 | the checksum of a concatenation continues from the first part's register |
| `Crc32.BurstDetected` | xtask/src/fb_shot.rs:334-354 | any change confined to four consecutive bytes changes the checksum |
| `Zlib.Adler32` | xtask/src/fb_shot.rs:325-332 | the sums of RFC 1950 modulo 65521, without overflow in 32 bits |
| `Zlib.AdlerIs` | xtask/src/fb_shot.rs:325-332 | the checksum in closed form: one plus all bytes, and the number of bytes plus each byte times its distance from the end, both modulo 65521 |
| `Zlib.ZlibStored` | xtask/src/fb_shot.rs:309-323 | the stream as a function of the data |
| `Zlib.BlocksRead` | xtask/src/fb_shot.rs:309-323 | exactly one block is final, every length is in 1..65535, and the blocks hold the data |
| `Zlib.StreamReadsBack` | xtask/src/fb_shot.rs:309-323 | inflating the stream gives the data if and only if there are any |
| `Zlib.StreamShortest` | xtask/src/fb_shot.rs:309-323 | no shorter stored stream reads back as the data |
| `Ppm.LeerPpm` | xtask/src/fb_shot.rs:266-296 | the image or each refusal, with the arithmetic of 64-bit sizes in a build with overflow checks |
| `Ppm.PastEndIff` | xtask/src/fb_shot.rs:288-294 | the error message underflows if and only if the three fields end at the end of the file and the sizes do not overflow |
| `Ppm.HeaderOnly` | xtask/src/fb_shot.rs:288-294 | as for every screen dump cut after its header |
| `Ppm.ScreenDumpReads` | xtask/src/fb_shot.rs:266-296 | the dump of a screen reads back as its image |
| `Ppm.PpmReads` | xtask/src/fb_shot.rs:266-296 | every file made of P6, three numbers and the pixels reads as its image, with any white space and comments before and between the numbers and anything behind the pixels |
| `Png.WriteChunk` | xtask/src/fb_shot.rs:298-306 | length, type, data and checksum are appended |
| `Png.FileLayout` | xtask/src/fb_shot.rs:253-262 | the whole file: signature, and the chunks IHDR, IDAT and IEND with their data |
| `Zlib.ByteWeights` | xtask/src/fb_shot.rs:254-257 | a four-byte field of the file has its high byte first |
| `Png.RowAt` | xtask/src/fb_shot.rs:246-251 | each row of the image stream is a zero and then the pixels of that row |
| `Png.ChunkReadsBack` | xtask/src/fb_shot.rs:298-306 | a chunk reads back below 2^31 bytes of data, and not its data above |
| `Png.Rows` | xtask/src/fb_shot.rs:250-256 | every row of pixels behind a filter byte of zero |
| `Png.PpmAPng` | xtask/src/fb_shot.rs:242-264 | the file written, or the parser's refusal; it decodes to the image read if and only if that is representable |
| `Png.EncodedLength` | xtask/src/fb_shot.rs:242-323 | the length of the image stream as a number of the width and the height |
| `Png.DecodeEncode` | xtask/src/fb_shot.rs:242-332 | decoding with all its checks gives back width, height and pixels if and only if neither side is zero or above 2^31 - 1 and the length computed from them is below 2^31 |
| `Png.ShortStream` | xtask/src/fb_shot.rs:242-264 | no shorter stored stream decodes to the same image |
| `BootEntry.NumberOfName` | boot-shim/src/bootentry.rs:235-266 | every number is read back from its name |
| `BootEntry.NamesAre` | boot-shim/src/bootentry.rs:263-266 | the variable's name as text: four capital digits in base 16 |
| `BootEntry.CanonicalIff` | boot-shim/src/bootentry.rs:235-242 | a name taken for a number is that number's own name if and only if its digits are capital |
| `BootEntry.Descripcion` | boot-shim/src/bootentry.rs:246-261 | the description in a load option, or none |
| `BootEntry.DescriptionReadsBack` | boot-shim/src/bootentry.rs:118-143 | the description written is read back if and only if it is well-formed text without a zero unit, whatever path and data follow |
| `BootEntry.OptionReads` | boot-shim/src/bootentry.rs:105-134 | a reader of the UEFI layout gets an active entry with that description, path and data if and only if the path has fewer than 65536 bytes and the description no zero unit |
| `BootEntry.OrderReadsBack` | boot-shim/src/bootentry.rs:276-306 | an order reads back from its bytes |
| `BootEntry.PairInOrder` | boot-shim/src/bootentry.rs:276-306 | placing two entries first and last leaves the others between them in their old order |
| `BootRegister.Firmware.HuecoBoot` | boot-shim/src/bootentry.rs:209-232 | the first entry of that description, else the least free number, else the last |
| `BootRegister.Firmware.ColocarEnBootOrder` | boot-shim/src/bootentry.rs:276-306 | only BootOrder changes, to the order with the number first or last; one call to the firmware, with that value |
| `BootRegister.Firmware.Registrar` | boot-shim/src/bootentry.rs:105-155 | every outcome with the variables it leaves and the calls made to the firmware, each with name, value and answer |
| `BootRegister.PairRegistered` | boot-shim/src/bootentry.rs:105-155 | normal first, rescue last, all others in their old order, both options as written, every other variable untouched |
| `BootRegister.SourcePair` | boot-shim/src/bootentry.rs:43-47 | the two descriptions of the source are such a pair: distinct, well-formed text, without zero units |
| `BootRegister.PairAgain` | boot-shim/src/bootentry.rs:105-155 | doing the pair again with the same loader path changes no variable |
| `BootRegister.NumbersDiffer` | boot-shim/src/bootentry.rs:209-232 | both entries get the same number if and only if the variables are crowded, a condition on the state before the pair |
| `BootRegister.CrowdedExists` | boot-shim/src/bootentry.rs:209-232 | such variables exist, with the last number free |
| `BootRegister.RescueOverwrites` | boot-shim/src/bootentry.rs:105-155 | then the rescue option replaces the normal one |
| `BootMailbox.ParsePeticion` | boot-shim/src/bootentry.rs:89-100 | the GUID asked for by a verb, or none |
| `BootMailbox.InstallRead` | boot-shim/src/bootentry.rs:52-100 | a pending request to install is read with the GUID behind the verb, whatever spaces stand around it, idle lines before it, and lines after it that do not ask for provisioning; nothing if the reader does not take it |
| `BootMailbox.ProvisionRead` | boot-shim/src/bootentry.rs:52-100 | the same for a request to provision, which goes first |
| `BootMailbox.AskedLine` | boot-shim/src/bootentry.rs:89-100 | what one line decides: an answer ends the search, a verb hands the rest of the line to the reader, any other line is skipped |
| `BootMailbox.Spaces` | boot-shim/src/bootentry.rs:90-96 | blanks, tabs and line ends are cut from both sides of a line, visible characters of ASCII are not |
| `BootMailbox.InstallText` | boot-shim/src/bootentry.rs:65-85 | the answer to an installation, as text |
| `BootMailbox.MailText` | boot-shim/src/bootentry.rs:322-342 | the file is the header and the answer, cut or filled with line ends to 4096 characters |
| `BootMailbox.AnsweredAsksNothing` | boot-shim/src/bootentry.rs:310-342 | a mailbox that holds an answer asks for neither verb, whatever the answer says |
| `BootMailbox.InstalledIsPair` | boot-shim/src/bootentry.rs:52-84 | a request to install that is served to the end is a pair of registrations |
| `BootMailbox.Shim.Atender` | boot-shim/src/bootentry.rs:52-84 | at most one request is served; exactly what is written to the mailbox, and which calls the firmware gets |
| `RegionMap.AddressSpace.SplitProt` | xtask/src/elf_mmap_rules.rs:11-54 | one call changes the protection of exactly the mapped addresses in its range, keeps the regions apart and adds at most two |
| `RegionMap.Refines` | xtask/src/elf_mmap_rules.rs:11-54 | the list refines the per-address map in one step |
| `RegionMap.RunRefines` | xtask/src/elf_mmap_rules.rs:11-54 | over any calls: coverage and file offset never change, writable is that of the last call covering the address, at most two regions more per call |
| `RegionMap.KeepsAddressesIff` | xtask/src/elf_mmap_rules.rs:11-54 | a region that is cut keeps all its addresses if and only if it ends at or below 2^64 - 1 |

## Findings

Where the code does not do what its documentation or its use suggests, the code is modelled as it is, and the condition
under which it does is proved.

- **The "Belady" replay is not optimal.** tools/sim-moe-cache.py:61 takes the *least* next use, so it evicts the key
  needed soonest. `MoeCache.BeladyOptimalIff`: never beaten if and only if the capacity is 1. `MoeCache.LruBeatsBelady`
  gives the trace for every larger capacity. The header of the script (line 2) promises Belady's algorithm.
- **A second revert can trim a kernel.** A power cut after META has been reset and before the mailbox is answered makes
  the next boot revert without a recorded size, and that path drops trailing zeros. `KernelSafety.SecondRevert`: the
  kernel survives if and only if its last byte is not zero (or it is all zeros). `KernelSafety.ZerosLost` is a run.
- **A cut update can lose the way back if the request left in the mailbox fits the backup**, because the slot then serves
  it again. `KernelRecovery.CutUpdateRecovers` is exact.
- **A failing write can leak clusters.** write_root_file marks the FAT before it looks for a slot.
  `FatLeak.FailureLeaks`: a new, non-empty file for which a run is free, in a root directory that is full and cannot grow
  (FAT16, or no cluster left besides the run). `FatLeak.FullLeaks` gives an image.
- **Names that begin with 0x00 or 0xE5 are lost.** `FatWritten.WriteReads`: the file is written and its entry is a free
  slot to every reader. **A name that begins with 0x00 can hide other files**: put into the slot of a deleted entry it
  ends the directory there. `FatWritten.OthersListed`: another entry is hidden if and only if a slot before it was free.
- **A file without a cluster stops the tool.** Every empty file has first cluster 0; reading one, or writing one of its
  name again without data, takes 2 from it (lines 66-75 and 815-820), which a build with overflow checks does not
  survive. `FatFiles.ReadRootFile` and `FatWrite.WriteRootFile` have it as their own error, `BelowFirst`.
- **Moving a file of more than a million clusters leaks the rest of its old chain.** `FatPlan.PlanFrees`.
- **Folders lose their long names in a copy**, because mkdir_in_dir is given none. `FatTree.MappedIff`.
- **".." of a folder in the root directory names the root's cluster**, where the FAT specification asks for 0.
  `FatCopy.LeadsBack`.
- **A source with an empty file cannot be copied**: write_in_dir refuses empty data, so the copy stops there.
  `FatDisk.Volume.WriteIn`, `FatCopyTree.CopyFatPartition`.
- **Ill-formed long names change**: an unpaired surrogate becomes U+FFFD. `Utf16.LossyIff`.
- **The rescue entry can replace the normal one.** When every number below 0xFFFF is taken, both get 0xFFFF, even if that
  one is free. `BootRegister.NumbersDiffer`, `BootRegister.CrowdedExists`, `BootRegister.RescueOverwrites`.
- **Boot names in small letters parse.** BootOrder and the free number then treat them as the capital name, which is
  another variable. `BootEntry.CanonicalIff`.
- **An image without rows gives a stream without a final block.** `Zlib.StreamReadsBack`, `Png.DecodeEncode`.
- **A PPM header that ends at the end of the file** makes the length in the error message underflow, which panics in a
  build with overflow checks; `Ppm.LeerPpm` has it as its own error, `PastEnd`. `Ppm.PastEndIff`, `Ppm.HeaderOnly`.
- **The last byte of the address space is lost** when a region that ends at 2^64 is cut: the end is a saturating sum.
  `RegionMap.KeepsAddressesIff`.

## Left out

- Concurrency: the allocator's spin lock; each public call is one step.
- Input and output errors of the host files in the FAT writer and the PNG converter: an image is an array of bytes.
- `write_root_file_fill`, `overwrite_in_dir_from`, `read_in_dir_prefix`, `copy_between`, `list_root_files` and the page
  cache hints of the FAT writer: variants of what is modelled.
- `ensure_kernel_lfn`, `delete_named_with_lfn` and `delete_root_file`: deletion by rewriting slots; only the release of
  the chain is modelled.
- The VFS router (`kernel/src/vfs.rs`): packing of inode numbers and lookup in a catalogue.
- Optimality of evicting the key whose next use is furthest, which is not what the simulator does.
- The text forms of META and of the update mailbox: they are values here (see Assumptions).
- The rest of `crates/soso-update-core` (manifests, versions, transactions, downloads).
- SHA-256 itself: a hash is any function to 64 hexadecimal digits, so two images with the same size and hash count as the same.
- UEFI calls, device paths, ESP discovery and the files that provisioning writes.
- UTF-8 in the mailboxes: text is a sequence of characters, and lengths in bytes are those of ASCII text.
- The QEMU session around the screen dump, and the PNG file on disk.
- `load_ok` and `entry_in_exec` of `xtask/src/elf_mmap_rules.rs`: single expressions.
- FatGrow.GrowRootFile: a file whose chain is not contiguous is outside its precondition; the source assumes contiguity without a check.
- FatDisk.Volume.MkdirIn: making a folder in the root of a FAT16 volume is outside its precondition; there the parent's number is taken from an area without clusters, which underflows.
- FatCopyTree.CopyFatPartition: which whole copies succeed is decided for destinations whose free clusters are their last ones; on others only for each single write and folder.
- LongNames.EncodeLfn: a name of more than 255 parts, whose numbering stops a build with overflow checks, is outside its precondition.
- Allocator.Heap.Realloc: an address that was never given out is outside its precondition.
