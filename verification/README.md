# Proofs about GogoBoot

A Dafny model of the parts of GogoBoot that keep data structures on disk, in the heap and across the network, with
proofs about them. `dafny verify dfyconfig.toml` checks everything.

- **FatFs** in the configuration the boot ROM compiles (FAT12, FAT16 and FAT32, 512-byte sectors, long names, UTF-8).
  `Words` and `Layout` hold bytes, words and the volume layout; `Mount` derives the layout from a boot sector.
  `FatTable` is the FAT as packed bytes, `Drive` the disk as sectors, `Volume` the one-sector write-back window and the
  entry access through it. `Chains` says what cluster chains are; `Allocator` holds `remove_chain` and `create_chain`,
  `AllocatorProofs` what they keep over all runs, `FreeSpace` the free count. `FileView` relates sectors to bytes,
  `FileObject` is the open file with its private buffer, `FileOps` the four calls, `FileRuns` their refinement to a byte
  sequence, `TwoFiles` that of interleaved calls on two files. `Wildcard` is the pattern matcher, `Utf8` the name
  encoding, `LongNames` the long-name entries, `DirTable` a directory table as entries in the sectors of its chain, and
  `Directory` the position in it, its readers and `dir_register`.
- **tinyalloc**: `HeapSpec` on values, `Heap` with the linked lists.
- **qsort**: `QuickSort`.
- **TFTP**: `TftpBlocks` for block numbers (RFC 1350 section 2, RFC 7440 section 3), `TftpGet` and `TftpPut` for the
  client, then client, server and network together; `TftpGetRuns` has runs that show where a download falls short.
- **Checksums**: `Checksum` (RFC 1071 section 1, the checksum field of RFC 768, section 3.1 of RFC 791).
- **Loader**: `Loader`, with the bounce buffer and the final copy.
- **Packets**: `NetSpec` on values, `NetResolve` on what becomes of a packet over runs, `NetLists` with the linked queues and the waiting list, `SinkLists` with the list of
  sinks. `Lists` has what all linked lists need of sequences.

Where the code falls short of what is expected of it, the model keeps the code and says when: `mount_volume` accepts
volumes whose sector sums wrap (`Mount.WrappedVolumeIsAccepted`, exact in `Mount.LayoutIff`); `pattern_match` is right
only for patterns with few terms of few question marks (`Wildcard.ExactlyWhenRight`); `f_getfree` is exact only if the
two reserved entries are nonzero (`FreeSpace.ScanExact`); a TFTP download reports success on a full disk
(`TftpGetRuns.ShortWriteUnnoticed`, exact in `TftpGet.SuccessIsWhole`); options acknowledged over queued blocks let the
download queue exceed the window (`TftpGetRuns.QueueOverWindow` and `TftpGetRuns.LateOptionsOverfill`, exact in
`TftpGet.QueueIs`); the window test of the download misses windows or fires early under rollover 1
(`TftpGetRuns.FullWindowMissed` and `TftpGetRuns.WindowFlushedEarly`, exact in `TftpGet.WindowFullUnderRollover1`); a
bounce buffer that grows downwards loses its bytes, against the comment above the move (`Loader.GrownDownIsWrong`,
`Loader.Loader.LoadDescending`; `Loader.Loader.LoadData` keeps them when `paddr` is not below the buffer); and one of 256
KiB or more is copied short (`Loader.CopiedLength`).

## Model

| member | source | states |
|---|---|---|
| Layout.ClusterSectorsDistinct | fatfs/ff.c:1144-1152 | Two clusters never share a sector: cluster number and sector offset are recovered from the sector number. |
| Layout.ClusterSectorInData | fatfs/ff.c:1144-1152 | In a valid layout every sector of every cluster lies in the data area, inside the volume and outside both FATs. |
| Layout.EndMark | fatfs/ff.c:1465 | The all-ones value stored as end mark reads back, at every entry width, as a number above every cluster number; every cluster number survives being stored. |
| Layout.EntryInside | fatfs/ff.c:3545-3557 | Every FAT entry, also the last one of an odd FAT12 count, lies inside the first FAT. |
| Mount.MountVolume | fatfs/ff.c:3507-3557 | A boot sector is refused exactly on the listed conditions; an accepted one gives the one geometry those fields define, FAT12 up to 4085 clusters and FAT32 above 65525, with disjoint FATs, root directory and data area inside the volume exactly when the sector sums fit in 32 bits. |
| Mount.ParseBpb | fatfs/ff.c:3507-3557 | Every boot sector decodes to field values in the ranges that MountVolume needs. |
| Mount.ParsesFields | fatfs/ff.c:3507-3548 | A boot sector put together from its fields, in the order of the FAT specification, is parsed into those fields, whatever stands between them. |
| Mount.LayoutIff | fatfs/ff.c:3512-3557 | For every accepted boot sector: some drive has room for the layout if and only if the sum of sectors up to the last cluster fits in 32 bits; the layout then ends inside the volume. |
| Mount.SumsFitValid | fatfs/ff.c:3540-3557 | A sum that fits makes FATs, root directory and data area disjoint and inside the volume, with room for every FAT entry. |
| Mount.ValidSumsFit | fatfs/ff.c:3540-3557 | The other half: if any layout is valid, no sum on the way to it wrapped. |
| Mount.WrappedVolumeIsAccepted | fatfs/ff.c:3528-3530 | A concrete boot sector that the checks accept although its system area wraps at 32 bits. |
| FatTable.PutReads | fatfs/ff.c:1239-1288 | The entry just stored reads back modulo its width (12, 16 or 28 bits); the top four bits of a FAT32 entry stay as they were. |
| FatTable.PutOther | fatfs/ff.c:1239-1288 | No other entry changes, whatever the width. |
| FatTable.PutNeighbour | fatfs/ff.c:1252-1264 | FAT12: the entry that shares a byte with the one stored keeps its nibble. |
| FatTable.PutUpdatesTable | fatfs/ff.c:1239-1288 | Storing an entry is the update of one element of the abstract table. |
| FatTable.TwelveBitPairs | fatfs/ff.c:1178-1188 | FAT12: two entries are the two halves of one 24-bit little-endian number. |
| Volumes.Volume.SyncWindow | fatfs/ff.c:1055-1070 | Writing the window back changes nothing of the abstract disk; afterwards the disk is the abstract disk, and with two FATs a sector of the first is copied to the second. |
| Volumes.Volume.MoveWindow | fatfs/ff.c:1077-1098 | The window comes to show the sector asked for; the abstract disk (disk overlaid with the window) stays the same. |
| Volumes.Volume.Poke | fatfs/ff.c:1256-1258 | A byte written in the window is written on the abstract disk, and on it alone. |
| Volumes.Volume.StoreInWindow | fatfs/ff.c:2534-2535 | Bytes stored into the window over a sector outside the FATs are stored on the abstract disk; table and mirror are untouched. |
| Volumes.Volume.DirClear | fatfs/ff.c:1658-1687 | The cluster is all zeros on the abstract disk and nothing else changes; the window stays consistent although it is moved by hand. |
| Volumes.Volume.GetFat | fatfs/ff.c:1161-1229 | Reading an entry through the window gives the abstract table at that cluster, 1 outside the table, and changes no byte of the abstract disk; entries straddling two sectors included. |
| Volumes.Volume.GetFat12 | fatfs/ff.c:1178-1188 | The FAT12 branch: two bytes in one or two sectors give the table entry. |
| Volumes.Volume.PutFat | fatfs/ff.c:1239-1288 | Writing an entry through the window is the update of one element of the abstract table and touches nothing outside the FATs; refused outside the table without a change. |
| Volumes.Volume.PutFat12 | fatfs/ff.c:1252-1264 | The FAT12 branch: the two halves written through the window make up the one table update. |
| Volumes.Volume.PutFat32 | fatfs/ff.c:1273-1284 | The FAT32 branch: the top four bits on disk are merged back in. |
| Volumes.Volume.DiskRead | fatfs/ff.c:3957-3966 | A direct read outside the window gives the abstract disk. |
| Volumes.Volume.DiskWrite | fatfs/ff.c:4075-4080 | A direct write outside the window and the FATs is that write on the abstract disk; table and mirror are untouched. |
| Chains.StretchChain | fatfs/ff.c:1524-1609 | In a FAT of disjoint, acyclic, end-marked chains, linking a free cluster behind a tail makes exactly that chain longer and keeps the rest. |
| Chains.NewChain | fatfs/ff.c:1524-1609 | Marking a free cluster as an end adds a one-cluster chain and keeps the rest. |
| Chains.CutChain | fatfs/ff.c:1429-1486 | Ending a chain early and freeing the rest leaves exactly the shorter chain, and all others. |
| Chains.CutElsewhere | fatfs/ff.c:1429-1486 | A chain apart from the one cut stays a chain. |
| Chains.FreeRunOnChain | fatfs/ff.c:1453-1486 | On a chain the freeing loop frees exactly the suffix it starts at. |
| Chains.FreeCountUpdate | fatfs/ff.c:1463-1466 | How one stored entry changes the number of free clusters. |
| Chains.FirstFreeFound | fatfs/ff.c:1588-1599 | What the circular scan stops at is the first free cluster after its starting point. |
| Chains.CircleClosed | fatfs/ff.c:1588-1599 | A scan that comes back to its start without a hit has seen every cluster in use. |
| Chains.ChosenIs | fatfs/ff.c:1574-1600 | The cluster taken: the one behind the tail when it is free, else the first free one above the last allocated cluster, or the lowest free one of all if there is none above it. |
| Allocator.RemoveChain | fatfs/ff.c:1429-1515 | Terminates on every FAT content, cyclic and cross-linked ones included; the new table is the freeing loop run on the old one with the predecessor marked as the end; the free count follows; bad arguments change nothing. |
| Allocator.RemoveRun | fatfs/ff.c:1453-1486 | The freeing loop: each completed turn frees one entry in use, so it ends; table, result and count are those of the specification loop. |
| Allocator.FreeOne | fatfs/ff.c:1454-1466 | One turn of the loop, error exits included. |
| Allocator.CreateChain | fatfs/ff.c:1524-1615 | Following a non-tail changes nothing and returns the link; otherwise the cluster returned was the first free one after the search start and is the only one linked; 0 with a nonzero free count means that no cluster is free; on failure nothing is taken. |
| Allocator.Search | fatfs/ff.c:1574-1600 | The circular scan: finds the first free cluster of the circle, or none when none is free. |
| Allocator.Circle | fatfs/ff.c:1588-1599 | The loop of the scan, with its wrap to cluster 2. |
| Allocator.TakeCluster | fatfs/ff.c:1601-1609 | Linking the cluster found, and the bookkeeping of the last allocation and the free count. |
| AllocatorProofs.CreateKeeps | fatfs/ff.c:1524-1609 | Every successful create_chain keeps the FAT a set of disjoint, acyclic, end-marked chains, one of which has grown by the returned cluster. |
| AllocatorProofs.RemoveIsCut | fatfs/ff.c:1429-1486 | Removing from place k of a chain, with its predecessor, is cutting the chain there. |
| AllocatorProofs.RemoveKeeps | fatfs/ff.c:1429-1486 | Every remove_chain on a chain keeps the FAT well formed: the chain is replaced by its prefix. |
| AllocatorProofs.FreeRunCounts | fatfs/ff.c:1453-1466 | The freeing loop raises the number of free clusters by the entries it frees. |
| AllocatorProofs.RemoveKeepsCount | fatfs/ff.c:1463-1466 | A free count that is invalid or exact stays so through remove_chain. |
| AllocatorProofs.CreateKeepsCount | fatfs/ff.c:1607-1609 | A free count that is invalid or exact stays so through create_chain. |
| AllocatorProofs.StepKeeps | fatfs/ff.c:1429-1615 | One allocation or removal keeps chains well formed and the count invalid or exact. |
| AllocatorProofs.RunKeeps | fatfs/ff.c:1429-1615 | So does every run of them. |
| AllocatorProofs.CreateStep | fatfs/ff.c:1524-1615 | create_chain on a volume, whatever its outcome, is a step of such a run. |
| AllocatorProofs.RemoveStep | fatfs/ff.c:1429-1515 | remove_chain on part of the chain of an object is a step of such a run and reports success. |
| AllocatorProofs.DiskFullIsFull | fatfs/ff.c:1545 | A trusted free count of zero means that no cluster is free. |
| AllocatorProofs.WholeChainIsMember | fatfs/ff.c:1429-1486 | A chain nothing points into, followed from its first cluster, is one of the chains of a well-formed FAT. |
| FreeSpace.GetFree | fatfs/ff.c:4816-4902 | f_getfree: keeps the disk, answers a plausible count as it is, and otherwise counts and stores the zero entries; FAT12 stops at an entry that reads as an error. |
| FreeSpace.Count12 | fatfs/ff.c:4840-4851 | The FAT12 loop counts the free clusters. |
| FreeSpace.CountWords | fatfs/ff.c:4873-4889 | The FAT16 and FAT32 loop over the sectors counts the zero entries of the whole table. |
| FreeSpace.ScanExact | fatfs/ff.c:4873-4889 | That number is the number of free clusters exactly when entries 0 and 1 are nonzero. |
| FileObjects.File.Open | fatfs/ff.c:3855-3868 | A file over a chain apart from the window satisfies the invariant with its pointer at zero. |
| FileObjects.File.Flush | fatfs/ff.c:3983-3986 | Writing the dirty private buffer back changes no byte of the file and nothing outside its chain. |
| FileObjects.File.Load | fatfs/ff.c:3980-3991 | Filling the private buffer keeps the file and makes the buffer agree with it. |
| FileObjects.File.WriteDirect | fatfs/ff.c:4072-4097 | A multi-sector write past the private buffer overwrites exactly its range, the buffered sector included. |
| FileObjects.File.ReadDirect | fatfs/ff.c:3957-3979 | A multi-sector read past the private buffer gives the file, the dirty buffered sector included. |
| FileObjects.File.Grow | fatfs/ff.c:4045-4057 | Following or stretching the chain keeps the old contents as a prefix and all other chains; failure means that the volume is full. |
| FileOps.Read | fatfs/ff.c:3914-4005 | f_read returns the slice of the byte sequence at the pointer, cut at the end of the file, and changes neither file nor FAT. |
| FileOps.Write | fatfs/ff.c:4014-4126 | f_write replaces or extends exactly its range, flips no other byte, and stops short only at the end of the chain of a full volume. |
| FileOps.Seek | fatfs/ff.c:4512-4586 | f_lseek keeps every byte. With write access the pointer goes to the offset asked for, extending the file, and stays short of it only on a full volume; without, it goes to the offset or to the end of the file if that comes first. |
| FileOps.Truncate | fatfs/ff.c:4912-4953 | f_truncate keeps exactly the bytes before the pointer and the clusters that hold them, and frees the rest. |
| FileOps.WriteStep | fatfs/ff.c:4039-4118 | One turn of the write loop: sector boundary, direct run or buffered part. |
| FileOps.ReadStep | fatfs/ff.c:3932-4000 | One turn of the read loop. |
| FileOps.SeekCluster | fatfs/ff.c:4520-4567 | The walk along the chain reaches the cluster of the target, from the old position or from the start. |
| FileOps.TruncateHere | fatfs/ff.c:4920-4949 | Truncation inside the file: chain cut behind the pointer, buffer flushed. |
| FileRuns.Perform | fatfs/ff.c:3914-4953 | Each of the four calls is its meaning on a byte sequence, and leaves every disjoint chain with its links and sectors. |
| FileRuns.PerformAll | fatfs/ff.c:3914-4953 | Every sequence of calls refines operations on a byte sequence: reads return the slice, writes replace or extend their range, truncate keeps the prefix; other files and the FAT mirror are untouched. With a right or unknown free count a write or seek stops short only where no cluster is free. |
| FileRuns.FullIsNoneFree | fatfs/ff.c:1545 | With a right or unknown free count the allocator takes a volume for full exactly when no cluster is free. |
| FileRuns.DisjointSectors | fatfs/ff.c:1144-1152 | Disjoint chains share no sector. |
| FileRuns.ConfinedUntouched | fatfs/ff.c:4014-4126 | What is confined to one chain leaves the files of disjoint chains alone. |
| TwoFiles.PerformBoth | fatfs/ff.c:3914-4953 | Calls on two open files of a volume in any order refine operations on two byte sequences that do not see each other, through one window, one FAT and two private buffers, up to a truncation on a sector boundary before the end. |
| TwoFiles.PerformBeside | fatfs/ff.c:3914-4953 | One call on a file leaves another open file as it was: its chain, its buffer and its bytes. |
| TwoFiles.OtherFile | fatfs/ff.c:3914-4953 | Why: a sector the other file has buffered is one of its own, so no call on the first file makes that buffer stale. |
| Wildcard.PatternMatch | fatfs/ff.c:2793-2837 | Terminates, and returns 1 exactly when the pattern has at most recur wildcard terms and the name matches term by term in the sense of the skip counts; the early exit at the end of the name loses no match. |
| Wildcard.Analyze | fatfs/ff.c:2817-2824 | The wildcard run at the start of a pattern and its skip count. |
| Wildcard.Align | fatfs/ff.c:2811-2832 | The comparison of literal characters and the recursion at the next wildcard. |
| Wildcard.FindMatch | fatfs/ff.c:4740 | The call made by f_findnext, with four wildcard terms allowed. |
| Wildcard.RunMeaning | fatfs/ff.c:2817-2824 | A run of wildcards means as many characters as it has question marks, or at least as many with an asterisk. |
| Wildcard.SmallTermsAreExact | fatfs/ff.c:2793-2837 | With fewer than 256 question marks in each term, the skip counts give the declarative meaning of asterisk and question mark. |
| Wildcard.ExactlyWhenRight | fatfs/ff.c:2793-2837 | The matcher is right for every name if and only if the pattern has at most recur terms, each with fewer than 256 question marks. |
| Utf8.PutUtfWrites | fatfs/ff.c:805-857 | put_utf writes exactly the scalar values (surrogate pairs packed) that fit, in one to four bytes. |
| Utf8.PutUtfIsUtf8 | fatfs/ff.c:805-857 | The bytes written are the sequence of RFC 3629 section 3 for the code point, that of a surrogate pair included. |
| Utf8.DecodeUndoesEncode | fatfs/ff.c:753-857 | tchar2uni gives back the character put_utf wrote and consumes exactly its bytes, whatever follows. |
| Utf8.NameRoundTrip | fatfs/ff.c:753-857 | Decoding undoes encoding on every string of scalar values. |
| Utf8.FileName | fatfs/ff.c:2672-2690 | The name loop of get_fileinfo: the UTF-8 form of the units, or empty when a surrogate is broken or the room is too small. |
| Utf8.OutputIs | fatfs/ff.c:2672-2690 | That form exists exactly when the encoded name fits. |
| Utf8.FileNameRoundTrip | fatfs/ff.c:2672-2690 | A long name handed out by get_fileinfo and parsed again is the same long name, whenever it fits. |
| LongNames.PutLfn | fatfs/ff.c:1959-1984 | One entry of a name: thirteen characters, terminator and filler in their places, order with the last flag, attribute and checksum. |
| LongNames.PickLfn | fatfs/ff.c:1921-1950 | The entry is taken into the name buffer as the specification scan does, rejected ones included. |
| LongNames.PickWhole | fatfs/ff.c:1921-1950 | Picking an entry that belongs to a name puts its characters, and the terminator behind the last, where they belong and nothing else anywhere. |
| LongNames.CmpLfn | fatfs/ff.c:1885-1913 | The comparison of one entry is that of the specification scan. |
| LongNames.CmpWhole | fatfs/ff.c:1885-1913 | One entry of a name compares equal exactly when its characters do up to case, and the name ends with it if the entry is full and last. |
| LongNames.CmpInside | fatfs/ff.c:1896-1910 | The comparison that follows a full entry reads the name buffer at place 247 at most. |
| Directories.SumOf | fatfs/ff.c:2053-2063 | The checksum of a short name, in byte arithmetic. |
| Directories.SumOfReadme | fatfs/ff.c:2053-2063 | The checksum of the short name README.TXT is 0x73. |
| DirTables.SlotsStored | fatfs/ff.c:2547-2556 | Storing 32 bytes at the place of an entry, in its sector and at its offset, replaces that entry of the table and no other. |
| DirTables.SlotsGrown | fatfs/ff.c:1769-1789 | A cluster linked behind the chain and cleared adds csize times 16 zero entries behind those that are there. |
| DirTables.GrowTended | fatfs/ff.c:1769-1789 | It leaves every other chain, every sector outside the table and the FATs, and the mirror of the FAT as they were. |
| Directories.TendedUntouched | fatfs/ff.c:1745-1837 | What leaves everything but a table alone leaves every disjoint chain alone, with its data. |
| Directories.Directory.Sdi | fatfs/ff.c:1697-1734 | dir_sdi puts cluster, sector and window offset at the entry asked for, walking the chain or in the fixed root directory, and fails exactly when the table has no such entry. |
| Directories.Directory.Next | fatfs/ff.c:1745-1794 | dir_next puts cluster, sector and window offset at the following entry, in the same sector, the next sector or the next cluster; at the end it reports so or grows the table by one cluster of zero entries, keeping all else on the volume. |
| Directories.Directory.Stretch | fatfs/ff.c:1769-1789 | The growth: create_chain and dir_clear add a cluster of zero entries to the table, or fail with the volume unchanged. |
| Directories.Directory.Load | fatfs/ff.c:2417-2420 | The bytes the window shows at the current place are the current entry of the table. |
| Directories.Directory.Alloc | fatfs/ff.c:1806-1837 | dir_alloc finds the first contiguous run of free entries, growing the table by zero entries only; failure changes nothing but that growth. |
| Directories.Directory.Register | fatfs/ff.c:2524-2557 | dir_register puts the parts of the name and the short entry on the volume over one contiguous run of free entries; no other entry, no other chain and no other sector changes, and the zero tail is kept. |
| Directories.Directory.SettleShort | fatfs/ff.c:2509-2522 | The loop over numbered short names ends with the first that no entry of the table has, and is denied exactly when all 99 are taken. |
| Directories.Directory.RegisterNumbered | fatfs/ff.c:2506-2557 | So a name registered with a numbered short name has one that no entry had. |
| Directories.Directory.PutParts | fatfs/ff.c:2527-2539 | The loop that stores the parts, last part first. |
| Directories.Directory.Read | fatfs/ff.c:2306-2366 | dir_read stops at the first entry from the current one on that is not deleted, no dot entry, no label and no part of a long name, unless a zero entry comes first, which it reports. The start of the name is known exactly when a complete run of parts with the right checksum stands directly in front of the entry. |
| Directories.ReadIs | fatfs/ff.c:2319-2361 | The same of the specification reader, from every state of a reading under way: the first entry of a listing, its complete run of parts or none, and the end of the table. |
| Directories.Directory.Find | fatfs/ff.c:2384-2452 | dir_find finds the first entry that is wanted: one whose complete run of parts compares equal to the name, or whose short name is the one asked for; it reports that there is none exactly when none comes before a zero entry or the end of the table. |
| Directories.FindIs | fatfs/ff.c:2414-2452 | The same of the specification search, from every state of a search under way. |
| Directories.ReadName | fatfs/ff.c:2319-2361 | A reader that comes to the entries of a long name, in any state and over any leftovers, reads that name and its start. |
| Directories.FindName | fatfs/ff.c:2414-2452 | A search that comes to the entries of a long name finds them exactly if the names are equal up to case or the short names match. |
| Directories.FindByShort | fatfs/ff.c:2414-2452 | A search for a short name alone finds an entry exactly when one in front of the end has that name. |
| Directories.AllAlike | fatfs/ff.c:1885-1913 | All entries of a name compare equal exactly when the two names have equal length and equal characters up to case. |
| Directories.ZeroTailKept | fatfs/ff.c:1806-1837 | Filling a first free run keeps the rule that everything behind the first zero entry is zero. |
| Directories.OthersStay | fatfs/ff.c:2465-2560 | Every other name keeps its entries and nothing in front of it becomes an end mark. |
| Directories.RegisteredIsRead | fatfs/ff.c:2319-2539 | Every name of 1 to 255 units written by dir_register is read back identically by dir_read. |
| Directories.RegisteredIsFound | fatfs/ff.c:2414-2539 | And found by dir_find under every case variant of it. |
| HeapSpec.CompactKeeps | lib/tinyalloc.c:83-111 | Compaction leaves an address-sorted list with no two touching blocks that covers the same addresses. |
| HeapSpec.InsertOrdered | lib/tinyalloc.c:39-66 | A block that shares no address with an ordered free list goes into it in order. |
| HeapSpec.GiveBack | lib/tinyalloc.c:146-149 | Insertion and compaction add exactly the block returned to the free addresses. |
| HeapSpec.AllocKeeps | lib/tinyalloc.c:158-214 | A block handed out is large enough and apart from every block in use, all of which stay; no block is handed out only if none fits and the top cannot move; the heap invariant is kept. |
| HeapSpec.AllocExact | lib/tinyalloc.c:158-214 | The block handed out is the lowest free one that fits or can be moved to the top, else a new one at the top. It has exactly the size asked for, unless it was taken whole because the rest was below the split threshold or no descriptor was left. No block is handed out exactly when there is neither. |
| HeapSpec.AllocFrees | lib/tinyalloc.c:177-192 | The bytes between the request and the end of the block it was cut from are free or above the new top; no other address becomes free or stops being free. |
| HeapSpec.FreeKeepsOk | lib/tinyalloc.c:136-156 | Freeing, also of an unknown address, keeps the heap invariant. |
| HeapSpec.FreeExact | lib/tinyalloc.c:136-156 | ta_free succeeds exactly for the address of a block in use, then takes that block out of use and frees its addresses and no others; otherwise nothing changes. |
| HeapSpec.UsedDistinct | lib/tinyalloc.c:136-156 | Blocks in use have different addresses, so the one freed is the one meant. |
| HeapSpec.RunKeepsOk | lib/tinyalloc.c:136-316 | Every run of ta_alloc, ta_free and ta_realloc keeps the invariant. |
| HeapSpec.ReachableIsOk | lib/tinyalloc.c:114-316 | In every reachable heap free and used blocks tile the area up to top without overlap, the free list is sorted without touching blocks, and the three lists together have all descriptors: ta_check answers true. |
| HeapSpec.AllFreeIsOneBlock | lib/tinyalloc.c:136-156 | In every run from ta_init that leaves nothing in use, one free block covers the whole area up to top if some request was answered, and otherwise the heap is as it was at the start. |
| HeapSpec.StepRaisesTop | lib/tinyalloc.c:136-316 | From the first block handed out on the top stays above the base; before that no call changes the heap. |
| HeapSpec.ReallocMovesBytes | lib/tinyalloc.c:297-316 | ta_realloc: the new block begins with the old bytes, as many as both blocks hold. |
| HeapSpec.ReallocKeepsOthers | lib/tinyalloc.c:297-316 | ta_realloc leaves every other block in use with its place and its bytes. |
| HeapSpec.ReallocExact | lib/tinyalloc.c:297-316 | ta_realloc succeeds exactly when the address is that of a block in use and the request is answered; then only the old block is freed. A failure changes nothing. |
| HeapSpec.AllocAligned | lib/tinyalloc.c:162 | If the heap starts aligned, every block handed out is aligned. |
| HeapSpec.RunAligned | lib/tinyalloc.c:158-214 | Alignment over every run. |
| Heaps.Heap.InsertBlock | lib/tinyalloc.c:39-66 | Relinking the free list is the sorted insertion. |
| Heaps.Heap.ReleaseBlocks | lib/tinyalloc.c:69-81 | The descriptors of a stretch go to the blank list, all of them and nothing else. |
| Heaps.Heap.CompactFree | lib/tinyalloc.c:83-111 | The two nested loops merge runs of touching blocks in place as the specification does, and lose no descriptor. |
| Heaps.Heap.TaFree | lib/tinyalloc.c:136-156 | The linked lists after ta_free are those of the specification. |
| Heaps.Heap.AllocRounded | lib/tinyalloc.c:158-214 | The linked lists after alloc_block are those of the specification: resized top block, split block, whole block or new block, as HeapSpec.AllocExact tells them apart. |
| Heaps.Heap.Alloc | lib/tinyalloc.c:216-222 | ta_alloc with the request rounded up to the alignment. |
| Heaps.Heap.Realloc | lib/tinyalloc.c:297-316 | ta_realloc: lists and memory are those of the specification. |
| Heaps.Heap.Check | lib/tinyalloc.c:281-283 | ta_check counts the three lists; it answers true whenever the invariant holds. |
| Heaps.Heap.constructor | lib/tinyalloc.c:114-134 | ta_init links all descriptors into the blank list. |
| QuickSort.ScanDown | lib/qsort.c:77-78 | The scan without a bound ends at the latest at an element not above the pivot, so it never leaves the range. |
| QuickSort.Turn | lib/qsort.c:75-83 | One turn of the partition loop keeps the split around the pivot and the elements, with the hole moving from i to j and back. |
| QuickSort.Partition | lib/qsort.c:69-84 | Partition rearranges the range: nothing above the pivot on its left, only larger elements on its right. |
| QuickSort.MoveHole | lib/qsort.c:79-82 | Copying an element into the hole moves the hole and keeps the elements. |
| QuickSort.Sort | lib/qsort.c:61-96 | The result is a sorted rearrangement for any total preorder, elements outside the range stay, and calls nest at most log2 of the length deep. |
| QuickSort.HalfDone | lib/qsort.c:85-94 | Sorting one half leaves only the other half to do. |
| QuickSort.QSort | lib/qsort.c:138-152 | qsort sorts the whole array and keeps its elements. |
| TftpBlocks.ExpectedIsSteps | net/tftp.c:68-81 | For both rollover values expected_block_number(n) is n block successors, for every n up to 65535. |
| TftpBlocks.ExpectedIsStepsOnce | net/tftp.c:68-81 | Beyond one turn of the counter it is not: a concrete case. |
| TftpBlocks.ExpectedIsWire | net/tftp.c:68-81 | The expected number is the number carried by the block that many places on in the transfer. |
| TftpBlocks.WireIsSteps | net/tftp.c:68-81 | Block k of a transfer carries the number reached by k successors from 0. |
| TftpBlocks.WireUnique | net/tftp.c:356 | Blocks closer than a turn of the counter are told apart by their numbers. |
| TftpBlocks.HeadIs | net/tftp.c:330-340 | The first k blocks make up a prefix of the file, and all of it exactly when every block is there. |
| TftpBlocks.ShortIsLast | net/tftp.c:363-366 | Only the last block is shorter than the block size. |
| TftpGet.GetClient.ProcessDataPacket | net/tftp.c:345-375 | The client after a DATA packet is that of the specification, and which acknowledgement it sends. |
| TftpGet.GetClient.FlushDataAndAck | net/tftp.c:316-343 | The acknowledgement goes out first, then the queue is written and emptied. |
| TftpGet.GetClient.Timer | net/tftp.c:426-452 | The timer: give up, nothing, request or flush. |
| TftpGet.WriteQueueBytes | net/tftp.c:327-342 | Emptying the queue appends its payloads to the disk in order, as far as the disk has room, unless a write fails. |
| TftpGet.InTurnIsNext | net/tftp.c:356 | A packet not stale by a turn of the counter is accepted exactly if it is the next block. |
| TftpGet.NextBlockTaken | net/tftp.c:345-375 | With rollover 0 the next block is queued; the last of a window or of the file is acknowledged and the queue emptied, and the last of the file ends the transfer, well unless a write failed. |
| TftpGet.OtherBlockIgnored | net/tftp.c:345-375 | With rollover 0 any other block changes nothing. |
| TftpGet.RetransmitsCount | net/tftp.c:345-452 | The count of timers goes back to zero exactly with a block taken and up by one with a timer. |
| TftpGet.SilentServer | net/tftp.c:426-452 | A server that falls silent ends the transfer in failure: 21 timers since the last block taken are answered, the next gives up. |
| TftpGet.WindowFullIs | net/tftp.c:371 | With rollover 0 the window test is exact. |
| TftpGet.WindowFullUnderRollover1 | net/tftp.c:371 | With rollover 1 the test finds a full window exactly while its numbers do not wrap, never when it ends at the wrap, and one block early beyond it. |
| TftpGetRuns.FullWindowMissed | net/tftp.c:371-372 | A run without loss, window 8, in which block 65536 fills a window that is not acknowledged. |
| TftpGetRuns.WindowFlushedEarly | net/tftp.c:371-372 | A run without loss, window 3, in which a window is acknowledged after two blocks. |
| TftpGetRuns.InOrderIs | net/tftp.c:345-375 | Up to block 65535 a run without loss acknowledges every full window. |
| TftpGet.StepKeeps | net/tftp.c:316-452 | Every step of client, server and network keeps the invariant. |
| TftpGet.RunKeeps | net/tftp.c:316-452 | So does every run, under loss, duplication and reordering. |
| TftpGet.DiskIsPrefix | net/tftp.c:316-375 | In every run what is written and what is queued are exactly the first blocks of the file of the server; unless a write failed the disk holds what was written as far as it had room, so disk plus queue are those blocks while there is room. |
| TftpGet.SuccessIsWhole | net/tftp.c:363-366 | A transfer reported as a success has the whole file on disk if and only if the file fits into the room the disk had at the start; otherwise the disk holds as much of it as fits. |
| TftpGetRuns.ShortWriteUnnoticed | net/tftp.c:332-340 | A concrete run on a full disk that ends in success with an empty file: f_write answers FR_OK and its count is not asked for. |
| TftpGet.QueueIs | net/tftp.c:371-372 | With rollover 0 the queue holds the blocks not acknowledged, fewer than a window, and those acknowledged by options since it was last emptied; it is below a window when options are acknowledged over an empty queue only, and empty for a window of one. |
| TftpGetRuns.LateOptionsOverfill | net/tftp.c:307-313 | With a window of two or more blocks, repeated options acknowledgements make the queue grow to any number of blocks short of the whole file: a run for each number. |
| TftpGetRuns.QueueOverWindow | net/tftp.c:307-313 | A concrete case: window 2, three blocks, and a queue longer than the window. |
| TftpPut.PutClient.SendDataPackets | net/tftp.c:185-219 | The DATA packets sent are those of the specification, up to the short one. |
| TftpPut.PutClient.ProcessAckPacket | net/tftp.c:221-254 | The search through the window, the new position, completion or the packets sent next. |
| TftpPut.PutClient.Timer | net/tftp.c:426-452 | The timer while sending. |
| TftpPut.PacketsAre | net/tftp.c:194-216 | The packets sent after block A are the blocks A+1, A+2, ... with their numbers and their slices of the file: as many as asked for, or all that are left. |
| TftpPut.TimerSendsNext | net/tftp.c:441-446 | While the transfer is under way the timer sends the first block not acknowledged. |
| TftpPut.OptionsSendWindow | net/tftp.c:307-313 | Agreeing on options sends every block of the first window, as far as the file goes. |
| TftpPut.AckSendsOn | net/tftp.c:240-253 | The acknowledgement of a whole window is answered with every block of the next one, that of fewer blocks with the next block. |
| TftpPut.RetransmitsCount | net/tftp.c:221-452 | The count of timers goes back to zero exactly with an acknowledgement of a further block and up by one with a timer. |
| TftpPut.SilentServer | net/tftp.c:426-452 | A server that falls silent ends the transfer in failure: 21 timers since the last block acknowledged are answered, the next gives up. |
| TftpPut.SearchIs | net/tftp.c:230-238 | An acknowledgement in the window says how many blocks it covers; one from before it says nothing. |
| TftpPut.StepKeeps | net/tftp.c:185-452 | Every step of client, server and network keeps the invariant. |
| TftpPut.RunKeeps | net/tftp.c:185-452 | So does every run. |
| TftpPut.EveryPacketHonest | net/tftp.c:185-254 | In every run bytes_transferred is the block size times the blocks acknowledged, and every DATA packet of the file, sent or resent, carries the 16-bit number of its block and the slice that block names. |
| TftpPut.SuccessIsDelivered | net/tftp.c:246-249 | Success means that the server has the whole file. |
| TftpPut.CompletesAtLastAck | net/tftp.c:246-249 | The transfer ends well exactly when the short last block, possibly empty, is acknowledged. |
| Checksum.Update | net/ipcsum.c:9-23 | The accumulator loop adds the words, an odd last byte as a high half, and never overflows 32 bits. |
| Checksum.Complete | net/ipcsum.c:25-33 | The fold loop is reduction modulo 65535 with 65535 for zero, unless nothing was added. |
| Checksum.FoldComplement | net/ipcsum.c:25-33 | Adding the complement of a folded sum folds to all ones. |
| Checksum.SumReplace | net/ipcsum.c:9-23 | Replacing one aligned word changes the sum by the difference of the words, for odd lengths too. |
| Checksum.SumIsNumber | net/ipcsum.c:9-23 | Modulo 65535 the sum is the number that the bytes make up in big-endian order, padded with a zero byte if they are odd in number. |
| Checksum.UdpSumIs | net/ipcsum.c:64-74 | What is summed for UDP is the 12-byte pseudo-header of RFC 768 (both addresses, zero, protocol, length) and the datagram behind it. |
| Checksum.ComputeIpv4 | net/ipcsum.c:40-45 | The header then verifies; only the checksum field changes. |
| Checksum.VerifyIpv4 | net/ipcsum.c:47-50 | The verdict is that the sum folds to all ones. |
| Checksum.ComputeIcmp | net/ipcsum.c:52-57 | The ICMP message then verifies, for every length. |
| Checksum.VerifyIcmp | net/ipcsum.c:59-62 | The ICMP verdict is that the bytes the IPv4 length names fold to all ones. |
| Checksum.ComputeUdp | net/ipcsum.c:81-89 | The datagram then verifies with its pseudo-header, and the stored checksum is never zero. |
| Checksum.VerifyUdp | net/ipcsum.c:76-79 | The UDP verdict for any length, with zero meaning no checksum. |
| Checksum.Seal | net/net.c:320-334 | What net_tx seals, net_eth_push accepts; nothing but checksum fields changes. |
| Loader.Loader.Expand | core/loader.c:85-121 | The buffer comes to cover the range, whole longwords below the limit; growing upwards it keeps its bytes. |
| Loader.GrownDownIsWrong | core/loader.c:107-111 | Growing downwards by any amount: where a buffered byte belongs the buffer holds the byte twice that amount further on, or unset bytes. |
| Loader.Loader.LoadData | core/loader.c:123-242 | The memory image then holds the segment, file bytes and zeros, and what it held before, directly loaded memory included, as long as the segment does not start below the buffer; below it, the buffered bytes come from twice the growth further on. |
| Loader.Loader.LoadDescending | core/loader.c:123-242 | A concrete load of two descending segments: the first byte of the first segment is replaced by its ninth. |
| Loader.Scan | core/loader.c:330-355 | The first pass: unsupported headers, lowest and highest address. |
| Loader.Loader.LoadSegments | core/loader.c:387-401 | Segments in ascending order are all in the memory image at the end, exactly when each lies in writable memory and the file has its bytes. |
| Loader.Loader.LoadElf | core/loader.c:330-401 | The executable is moved up by the load address exactly when some segment starts below writable memory, and is loaded exactly when no header is unsupported and, with that offset, every segment lies in RAM and the file has its bytes. |
| Loader.Loader.CopyBounce | kiss/execute.s:18-49 | The copy loop counts longwords in 16 bits; it completes the memory image if the buffer is below 256 KiB. |
| Loader.CopiedLength | kiss/execute.s:44-49 | It copies the whole buffer if and only if the buffer is below 256 KiB. |
| Loader.Loader.LoadAndCopy | core/loader.c:270-401 | Loading and copying together, with the same two conditions, leave every segment in memory, file bytes followed by zeros. |
| NetLists.PacketQueue.AddTail | net/packet.c:63-78 | The packet becomes the last of the queue; head, tail and links stay consistent. |
| NetLists.PacketQueue.PopHead | net/packet.c:90-107 | The first packet is taken, with its link cleared. |
| NetLists.Stack.ResolveAddress | net/arp.c:189-233 | Cache search, new entry, repeated query, failure: as specified, with the query sent through the transmit path. |
| NetLists.Stack.AskQuery | net/arp.c:172-187 | A query is a new packet that goes to the card or the transmit queue and leaves the waiting list alone. |
| NetLists.Stack.ResolverPump | net/net.c:35-67 | The loop over the waiting list with its pointer to a link does to every packet what the specification says, queries sent in between included. |
| NetLists.Stack.Tx | net/net.c:310-352 | net_tx: dropped, sent, queued, or put on the waiting list. |
| NetLists.Stack.Pull | net/net.c:357-361 | The head of the transmit queue is handed over. |
| NetSpec.QueryLeavesWaiting | net/arp.c:172-187 | The re-entry of an ARP query into net_tx never reaches the waiting list or the cache. |
| NetSpec.TransmitKeeps | net/net.c:310-352 | net_tx ends with the packet in exactly one place or freed. |
| NetSpec.PumpKeeps | net/net.c:35-67 | So does the resolver pump for every waiting packet. |
| NetSpec.PushKeeps | net/net.c:207-293 | A received packet ends in one sink queue or freed, and the sinks stay in order. |
| NetSpec.RefusedChangesNothing | net/net.c:213-293 | A packet for another station, with a bad checksum or matched by no sink changes no sink and nothing else, and is freed. |
| NetSpec.AddSinkSorted | net/net.c:113-152 | Adding a sink keeps the list sorted by score and brings in its queue. |
| NetSpec.RemoveSinkSorted | net/net.c:154-176 | Removing a sink keeps the list sorted. |
| SinkLists.SinkList.Add | net/net.c:113-152 | The insertion through the pointer to a link puts the sink where the specification does. |
| SinkLists.SinkList.Remove | net/net.c:154-176 | The removal takes exactly that sink out, with its link cleared, or reports that it is not there. |
| NetSpec.BestMatch | net/net.c:258-281 | The first matching sink has the highest score of all that match. |
| NetSpec.StepSound | net/net.c:35-361 | Every event keeps each live packet in exactly one place and the live count right. |
| NetSpec.RunKeeps | net/net.c:35-361 | So does every run of transmissions, receptions, pumping, learned and expired addresses, callbacks, sinks changed while they are detached, and changes to the list of sinks. |
| NetSpec.ReceivedByBest | net/net.c:258-287 | In every run a received packet that some sink matches goes to the tail of a sink of maximal score, and nothing else changes. |
| NetResolve.TransmitFate | net/net.c:310-352 | net_tx: a packet that may not be sent is freed; one that is for everyone or for a known address goes to the card or the end of the transmit queue; any other waits. |
| NetResolve.PumpFate | net/net.c:35-67 | The pump leaves waiting exactly the packets whose address is still asked for, in order, and queues with their address exactly those for everyone or for a known address, besides queries. |
| NetResolve.VerdictsOfRun | net/arp.c:189-233 | In every run from an empty cache a packet may leave exactly when it is for everyone or its address is known, and is given up only after ten queries, an interval or more apart, without the address being known. |
| NetResolve.RunLogged | net/arp.c:53-233 | In every run each entry without an answer counts the queries that were sent for it, at most ten and an interval or more apart. |

## Left out

- Disk errors: every sector read and write succeeds. Memory allocation for FatFs, the loader and the packet layer succeeds.
- exFAT, file locks, re-entrancy, fast seek, formatting and partitioning, labels, chmod, string functions: not compiled.
- The write-back of FSInfo (`sync_fs`), timestamps and the directory entry of an open file (`f_sync`, `f_close`).
- The validity check of file objects, sticky file errors, path lookup and the open modes of `f_open`.
- Callers' buffers of `f_read` and `f_write` are sequences, and the disk is a sequence of sectors.
- Masking with the cluster size minus one is written as a remainder; `Mount.MountVolume` shows that it is a power of two.
- FileOps.Seek: the bytes of a gap made by seeking past the end are unspecified, as in the code.
- Wildcard.PatternMatch: patterns and names are sequences of decoded characters; `ff_wtoupper` is any function that keeps zero apart from the rest.
- Utf8.DecodeUndoesEncode: says nothing about overlong forms, some of which `tchar2uni` accepts.
- Directories.Directory.Register: the numbered short names that `gen_numname` makes are a parameter; `create_name` and `dir_remove` are not modelled.
- TwoFiles.PerformBoth: stops at a truncation on a sector boundary before the end of a file, after which the private buffer may hold a sector that is then free for the other file.
- `ta_calloc`; requests for no bytes; 32-bit wrap-around of address plus size in tinyalloc.
- QuickSort.Sort: one element type stands for the three element widths.
- Option parsing, request packets and progress reports of TFTP; options are fixed once agreed.
- TftpGet.DiskIsPrefix: assumes that no delivered packet is stale by nearly a turn of the block counter.
- TftpPut.EveryPacketHonest: assumes the same of acknowledgements and DATA packets; a packet beyond the end, sent when options are acknowledged again after completion, is empty.
- TftpGet.GetClient.FlushDataAndAck: the disk is a byte sequence and the number of bytes that still fit, all of them for this file.
- TCP checksums, which the source does not compute. IPv4 options.
- Checksum.ComputeIcmp: requires length fields that stay inside the packet.
- Checksum.VerifyIcmp: IPv4 lengths below 20, for which the byte count wraps and the loop runs through memory, are left out.
- Loader.Loader.LoadData: requires segment addresses that do not wrap at 32 bits.
- The bootinfo record and the command line handed to a kernel, and the 68K instructions of the copy routine other than its loop.
- NetSpec.StepSound: callbacks are any sequence of the events they can cause; interface configuration and routing are fixed while packets wait.
- NetSpec.AddSinkSorted: timers of sinks are left out.
- NetLists.Stack.Tx: checksums are in Checksum, the MAC address is a flag, the address cache a sequence.
- ICMP and DHCP, hardware drivers, interrupts, CLI, environment variables, printf, clock and memory test.
