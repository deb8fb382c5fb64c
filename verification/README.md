# Pocky kernel: a verified model of its stateful core

Pocky is a small x86_64 kernel. This project models the parts of it that keep hard state and proves what they
promise: the FAT32 volume, physical frames and four-level page tables, the heap, the scheduler and process
table, inter-process communication, the text editor's buffer and the wildcard matcher.

`dafny verify dfyconfig.toml` checks everything.

How the model is laid out, bottom up:

- `FatDisk`, `FatChains`, `FatVolume`, `FatDirectory`, `FatDrive`, `FatMount`: a disk of 512-byte sectors; the table as
  a forest of chains with its runs of create, write and delete; the driver's methods over the bytes, tied to both views;
  the one-sector directory as a finite map; all of it together as a map from names to files, with "." and ".." apart;
  and the mounted driver. The layout is that of sections 4 and 6 of the Microsoft FAT File System Specification.
- `Frames`, `PageEntry`, `PageWord`, `Paging`, `SharedMemory`: the frame bitmap as a set; the fields of an entry and
  which bits of the word they are; the tree of tables, which live in frames of that bitmap, as one flat map that is the
  processor's walk over them; and the shared regions that take frames and pages from both.
- `Heap`: the block list as a tiling, its runs, and the linked headers in memory.
- `Scheduler`, `LoadBalance`: one CPU's run queue with the process table, and the balancing of several queues.
- `IpcQueues`, `Editor`, `Wildcard`: one file each.
- `Arithmetic`, `Options`: shared helpers.

Code that works in place is a class whose methods are proved equal to a specification function of the old state;
what the kernel promises over whole runs is then proved about those functions. Where such a function fixes a layout or
a number (sectors on the disk, bytes of a slot, bits of a page entry, the split of a block, a tick, the text after a
key), a law without it says what it must be.

Where a natural promise is false of the code, the code is kept, a failing input is given and the exact condition is
proved:

- A write leaks clusters exactly when it shrinks a file by two clusters or more, because the chain is cut one
  cluster late and the rest is not freed (`FatChains.RunLeaks`, at an input `FatChains.ShrinkingLeaks`).
- A directory entry names the cluster it was created with exactly when that cluster is below 65536, because only 16
  bits of it are stored (`FatDirectory.CreateFile`, at an input `FatDirectory.ClusterLosesHighHalf`).
- The directory lists every live file once, and "." and ".." as itself and its parent, exactly while no creation takes
  one of these names or a cluster from 65536 on, no renaming turns one of them into a file's name or back, and no write
  under "." brings anything but a directory of one sector (`FatDrive.LeadsKeepsSane`, `FatDrive.RunStaysSane`, at inputs
  `FatMount.CreationListsRoot`, `FatMount.RenamedDotListsRoot`, `FatMount.TextOverRoot`).
- The frame counter agrees with the bitmap after initialization exactly when the three reserved ranges do not
  overlap (`Frames.PhysicalMemory.Initialize`, at an input `Frames.OverlapMiscounts`).
- A page address survives a page-table entry exactly below 2^48 (`PageEntry.AddressSurvives`, at an input
  `PageEntry.AddressLost`).
- The heap's used-memory counter comes back after an allocate and a free exactly when the block was split or
  fitted (`Heap.AllocateThenFree`, at an input `Heap.SlackIsLost`); rounding covers a request exactly up to 2^64 - 16
  (`Heap.RoundedCovers`, at an input `Heap.LargestRequestIsLost`).
- A waiting process comes to run exactly when no process of priority nine or more runs or is ready ahead of it,
  because a tick never preempts such a process (`Scheduler.EveryProcessGetsItsTurn`, at an input
  `Scheduler.RaisedProcessStarves`).
- The editor's cursor stays coherent exactly while `l` is not pressed on an empty last line and a save does not
  trim the text to before the cursor (`Editor.KeyKeeps`, `Editor.EveryRun`, at inputs `Editor.WaysOffTrack`); `k` is
  undone by `j` exactly when not from an empty line at the end of the text (`Editor.UpThenDown`, at an input
  `Editor.NoWayDown`).

## Model

| member | source | states |
|---|---|---|
| `FatDisk.InitializeIsSound` | kernel/src/fs/fat32.cpp:97-152 | An accepted boot sector with 512-byte sectors, areas that fit and a table covering the clusters yields FAT copies before the data area and data sectors on the disk |
| `FatDisk.MountedLayout` | kernel/src/fs/fat32.cpp:103-113 | The tables follow the reserved sectors, one after another; cluster 2 starts after them and the root directory's sectors, and clusters lie as many sectors apart as the boot sector says |
| `FatDisk.RejectedExactly` | kernel/src/fs/fat32.cpp:118-152 | With 512-byte sectors a boot sector is refused exactly for a cluster size that is none of 1, 2, 4, ..., 128, no reserved sector, no table, an empty table, or another signature |
| `FatDisk.AreasFit` | kernel/src/fs/fat32.cpp:109-113 | Every sector of every FAT copy lies before the data area, and every sector of every cluster inside it |
| `FatDisk.FatSectorInjective` | kernel/src/fs/fat32.cpp:523-533 | Different (copy, sector) pairs of the FAT are different disk sectors |
| `FatDisk.DataSectorInjective` | kernel/src/fs/fat32.cpp:431-433 | Different (cluster, sector) pairs are different disk sectors |
| `FatDisk.EntrySectorInFat` | kernel/src/fs/fat32.cpp:243-245 | Every cluster's entry lies whole inside one sector of the table, at four bytes per cluster |
| `FatDisk.Le32OfPut` | kernel/src/fs/fat32.cpp:529-530 | A little-endian 32-bit store is read back exactly and touches only its four bytes |
| `FatDisk.ReadsLittleEndian` | kernel/src/fs/fat32.cpp:253 | The four bytes read are the digits of the number to the base 256, the lowest first |
| `FatDisk.EntryOnDisk` | kernel/src/fs/fat32.cpp:243-254 | Entry c is the 28-bit number in the four bytes at byte 4c after the reserved sectors |
| `FatDisk.PutEntryReads` | kernel/src/fs/fat32.cpp:237-255 | After storing v as entry c, entry c reads as v masked to 28 bits and every other entry as before |
| `FatDisk.PutEntryFrame` | kernel/src/fs/fat32.cpp:521-537 | Storing an entry keeps all FAT copies identical and leaves every sector outside the FAT, so every data sector, alone |
| `FatDisk.PutDataFrame` | kernel/src/fs/fat32.cpp:431-437 | Writing a data sector changes that sector of that cluster alone, no entry and no copy |
| `FatChains.ChainAcyclic` | kernel/src/fs/fat32.cpp:440-464 | A well-formed chain never meets a cluster twice |
| `FatChains.ChainUnique` | kernel/src/fs/fat32.cpp:408-416 | The table and the first cluster determine the chain |
| `FatChains.FirstFree` | kernel/src/fs/fat32.cpp:503-514 | The lowest free cluster from 2 on, or 0 when there is none |
| `FatChains.LinkKeepsChain` | kernel/src/fs/fat32.cpp:440-455 | Linking a free cluster after the end of a chain makes a longer chain |
| `FatChains.CutKeepsChain` | kernel/src/fs/fat32.cpp:467-470 | Marking an earlier cluster as the end leaves a chain |
| `FatChains.ExtendKeepsChain` | kernel/src/fs/fat32.cpp:440-455 | Growing, also up to a full disk, keeps a chain a chain |
| `FatChains.ExtendAt` | kernel/src/fs/fat32.cpp:440-455 | Growing takes only free clusters and touches no entry outside the grown chain |
| `FatChains.WriteGrows` | kernel/src/fs/fat32.cpp:422-473 | A write keeps the first cluster, adds only free clusters, changes no entry outside the new chain, and leaves exactly n clusters, or n + 1 when the file was longer |
| `FatChains.StepKeeps` | kernel/src/fs/fat32.cpp:422-519 | Each create, write or delete keeps the forest, leaves all entries of all other files alone, and leaks exactly the clusters it drops |
| `FatChains.RunKeepsForest` | kernel/src/fs/fat32.cpp:422-519 | Every run of creates, writes (failing or not) and deletes keeps live chains in range, ended, acyclic and pairwise disjoint |
| `FatChains.RunLeaks` | kernel/src/fs/fat32.cpp:422-473 | No cluster becomes unreachable in a run if and only if each write needs at least the old chain length minus one clusters |
| `FatChains.ShrinkingLeaks` | kernel/src/fs/fat32.cpp:422-473 | From an empty table, creating a file, writing three clusters and then one leaks the third cluster |
| `FatChains.CreateWriteDelete` | kernel/src/fs/fat32.cpp:728-745 | Create, write of any size and delete give back the very same table |
| `FatVolume.FileSystem.ReadFatEntry` | kernel/src/fs/fat32.cpp:237-255 | The abstract entry, which is the four bytes at byte 4c of the first table without their top four bits |
| `FatVolume.FileSystem.UpdateFatEntry` | kernel/src/fs/fat32.cpp:521-537 | Patching the sector and writing every copy updates exactly one abstract entry and no data |
| `FatVolume.FileSystem.WriteSector` | kernel/src/fs/fat32.cpp:489-501 | One data sector changes, the one i + (c - 2) * per sectors into the data area, and no entry |
| `FatVolume.FileSystem.ReadSector` | kernel/src/fs/fat32.cpp:364-377 | The abstract data sector, which is disk sector i + (c - 2) * per of the data area |
| `FatVolume.FileSystem.AllocateCluster` | kernel/src/fs/fat32.cpp:503-514 | Takes the first free cluster and ends it with 0x0FFFFFF8, or returns 0 and changes nothing |
| `FatVolume.FileSystem.FreeCluster` | kernel/src/fs/fat32.cpp:516-519 | Zeroes that entry; clusters out of range are ignored |
| `FatVolume.FileSystem.FreeFile` | kernel/src/fs/fat32.cpp:873-879 | The free loop terminates and zeroes exactly the chain's entries |
| `FatVolume.FileSystem.WriteCluster` | kernel/src/fs/fat32.cpp:431-438 | Writes the next blocks of the buffer into one cluster until it or the data ends |
| `FatVolume.FileSystem.Advance` | kernel/src/fs/fat32.cpp:440-464 | Follows the link; at the end stops, appends the first free cluster, or fails on a full disk |
| `FatVolume.FileSystem.WriteClusters` | kernel/src/fs/fat32.cpp:428-465 | The interleaved loop of data writes, allocation and linking equals growing the chain and filling it block by block, every other cluster untouched |
| `FatVolume.FileSystem.WriteFile` | kernel/src/fs/fat32.cpp:422-473 | The table and result are those of the chain specification; the file's contents are the data, or on a full disk as many blocks as fit; every other cluster is as before |
| `FatVolume.FileSystem.ReadFile` | kernel/src/fs/fat32.cpp:379-420 | The buffer holds the file's contents, and keeps its old bytes past a shorter file's end; each byte is that of the disk sector where the chain's cluster lies |
| `FatVolume.RoundTrip` | kernel/src/fs/fat32.cpp:379-473 | Whenever the write succeeds, reading as many bytes from the same first cluster returns exactly those bytes |
| `FatVolume.WriteSparesOtherFiles` | kernel/src/fs/fat32.cpp:422-473 | A write to one live file changes no byte of any other |
| `FatVolume.ContentsOfFilled` | kernel/src/fs/fat32.cpp:430-438 | A file whose sectors hold the buffer's blocks has the buffer as its contents |
| `FatVolume.FileSystem.constructor` | kernel/src/fs/fat32.cpp:97-116 | Mounting an image under a mountable boot sector and agreeing FAT copies establishes the table and data views of its bytes, with the first data sector computed from the boot sector |
| `FatVolume.FileSystem.OnDisk` | kernel/src/fs/fat32.cpp:237-255 | In every valid state the table and the data are the bytes at their places on the disk |
| `FatVolume.ContentsAt` | kernel/src/fs/fat32.cpp:389-408 | Byte j of sector i of a file's cluster k is byte (k * per + i) * 512 + j of its contents |
| `FatVolume.FillingByCluster` | kernel/src/fs/fat32.cpp:431-438 | Filling one more cluster of the chain advances the written prefix of the file and touches no other cluster |
| `FatDirectory.NameRoundTrip` | kernel/src/fs/fat32.cpp:1217-1227 | Zero-padded and space-padded names both read back as the name |
| `FatDirectory.MadeSlot` | kernel/src/fs/fat32.cpp:556-569 | A written slot is live and reads back as its name, size and attributes, and the low half of its cluster's number |
| `FatDirectory.LowHalf` | kernel/src/fs/fat32.cpp:564-565 | The stored half is the cluster's number if and only if that is below 65536 |
| `FatDirectory.ClusterLosesHighHalf` | kernel/src/fs/fat32.cpp:564-565 | Cluster 65538 is stored as cluster 2 |
| `FatDirectory.RenamedSlot` | kernel/src/fs/fat32.cpp:1055-1057 | A renamed slot reads back as the new name with everything else kept |
| `FatDirectory.ResizedSlot` | kernel/src/fs/fat32.cpp:1295-1299 | A resized slot keeps name, cluster and attributes |
| `FatDirectory.PutSlotMeans` | kernel/src/fs/fat32.cpp:552-571 | Replacing a slot removes what it held from the map and adds what it holds, keeps names unique and unused slots last |
| `FatDirectory.FindSlot` | kernel/src/fs/fat32.cpp:1209-1233 | The scan finds the slot of a name exactly when the map has it |
| `FatDirectory.FindUnused` | kernel/src/fs/fat32.cpp:624-649 | The first unused or deleted slot, found exactly when there is one |
| `FatDirectory.FindFileInDirectory` | kernel/src/fs/fat32.cpp:1198-1245 | Lookup equals the map's get |
| `FatDirectory.ListedOnDisk` | kernel/src/fs/fat32.cpp:1209-1232 | A slot written by any driver lists its name, its attributes at byte 11, its cluster at bytes 26 and 27 and its size at bytes 28 to 31 |
| `FatDirectory.PassedOver` | kernel/src/fs/fat32.cpp:1209-1215 | Slots that start with 0xE5 or have attributes 0x0F are passed over, and none is read from the first that starts with 0 on |
| `FatDirectory.DirectoryBit` | kernel/src/fs/fat32.cpp:811 | A directory is told by attribute mask 0x10 |
| `FatDirectory.NamesRefused` | kernel/src/fs/fat32.cpp:651-661 | A name is refused exactly if empty, longer than 255 characters or with one of the nine characters, wherever it stands |
| `FatDirectory.WriteDirectoryEntry` | kernel/src/fs/fat32.cpp:547-572 | Insert, with the low half of the cluster's number, failing exactly when no slot is left and then changing nothing |
| `FatDirectory.InsertEntry` | kernel/src/fs/fat32.cpp:728-745 | The part that creating files and directories share: the cluster taken, which is the first free one, or 0 with table and disk as they were |
| `FatDirectory.CreateFile` | kernel/src/fs/fat32.cpp:710-748 | Insert with the first free cluster, which the entry names if and only if it is below 65536; succeeds exactly for a valid new name with a free cluster and a free slot, and every failure leaves table and disk as they were |
| `FatDirectory.UpdateFileSize` | kernel/src/fs/fat32.cpp:1247-1314 | Update of one size, exactly when the name is there |
| `FatDirectory.RenameFile` | kernel/src/fs/fat32.cpp:964-1070 | Rekey within the directory, exactly when the source is there and the new name is valid and free; an existing file refuses, and a name of the directory itself succeeds and changes nothing |
| `FatDirectory.DeleteFile` | kernel/src/fs/fat32.cpp:806-882 | Remove, freeing exactly the file's chain; directories and unknown names change nothing |
| `FatDrive.LeadsKeepsSane` | kernel/src/fs/fat32.cpp:710-882 | An operation keeps the invariant (listed clusters are the heads of a forest of chains apart from the directory and its parent, each listed once; "." and ".." name those two) if and only if a condition known beforehand holds: no "." or truncated cluster in a creation, no renaming between these names and files, no write of anything but one sector of such a directory over the directory |
| `FatDrive.TidyMake` | kernel/src/fs/fat32.cpp:710-748 | A listing with one more entry fits the chains with one more head if and only if the entry names that head and is not "." or ".." |
| `FatDrive.TidyRekey` | kernel/src/fs/fat32.cpp:1030-1070 | A renamed entry leaves the listing fitting if and only if both names are of files, or both "." and ".." of one directory |
| `FatDrive.PutOnDirectory` | kernel/src/fs/fat32.cpp:422-473 | A write under "." keeps the invariant if and only if it is empty, or stays in one cluster and brings a directory for the same chains |
| `FatDrive.OneBindingChanges` | kernel/src/fs/fat32.cpp:422-882 | Create, write, resize, rename and delete each change one binding of the map from names to files; a successful write puts the data at the start of its file |
| `FatDrive.RunStaysSane` | kernel/src/fs/fat32.cpp:422-882 | The invariant holds in every state of a run of these operations if and only if each operation keeps it |
| `FatDrive.UnnamedFileStays` | kernel/src/fs/fat32.cpp:422-882 | A file that no operation of a run names has the same bytes, size and attributes after any number of them |
| `FatDrive.WriteThenResize` | kernel/src/fs/fat32.cpp:1544-1549 | A write and a size update leave the data as the file's first bytes and every other file as it was |
| `FatDrive.FailedWrite` | kernel/src/fs/fat32.cpp:1544-1547 | A write that fails, on a full disk or for want of the name, changes at most the contents of that file |
| `FatMount.DotSectorMeans` | kernel/src/fs/fat32.cpp:204-222 | The sector that formatting writes lists exactly "." and "..", as directories with the low halves of their clusters |
| `FatMount.DotSectorBytes` | kernel/src/fs/fat32.cpp:204-220 | That sector byte by byte |
| `FatMount.NewDirectoryIsSane` | kernel/src/fs/fat32.cpp:789-803 | A directory with such a sector meets the invariant if and only if its cluster and its parent's are below 65536, and holds no file |
| `FatMount.MountIsSane` | kernel/src/fs/fat32.cpp:204-222 | The root that a mount formats meets the invariant, names itself twice and holds no file |
| `FatMount.RunFromMount` | kernel/src/fs/fat32.cpp:175-225 | A run from a freshly mounted volume stays within the invariant if and only if each operation keeps it |
| `FatMount.FormatRoot` | kernel/src/fs/fat32.cpp:197-223 | A root whose first byte is 0 gets the new directory's sector, its names padded with spaces; any other is left, and the table always is |
| `FatMount.CreationListsRoot` | kernel/src/fs/fat32.cpp:564-565 | With every cluster below 65538 in use, a creation lists the root itself as the new file |
| `FatMount.RenamedDotListsRoot` | kernel/src/fs/fat32.cpp:1052-1054 | On every freshly mounted volume, renaming "." lists the root itself as a file |
| `FatMount.TextOverRoot` | kernel/src/shell/shell.cpp:132-134 | Text written to the root, as redirection does, breaks the invariant on every freshly mounted volume |
| `FatMount.Driver.constructor` | kernel/src/fs/fat32.cpp:93-95 | Entering a directory that meets the invariant |
| `FatMount.Driver.Mount` | kernel/src/fs/fat32.cpp:197-224 | A blank root is formatted and the driver starts within the invariant with no file; any other root is taken as it is |
| `FatMount.Driver.Create` | kernel/src/fs/fat32.cpp:710-748 | Is the creation step with its exact success condition, and keeps the invariant exactly when the condition says so |
| `FatMount.Driver.CreateDirectory` | kernel/src/fs/fat32.cpp:750-804 | Is a creation followed by a write of the new directory's sector; both directories then meet the invariant exactly when their clusters are stored whole |
| `FatMount.Driver.Write` | kernel/src/fs/fat32.cpp:422-473 | Is the writing step of a listed name, with success exactly when the clusters suffice; an unlisted one changes nothing |
| `FatMount.Driver.SetSize` | kernel/src/fs/fat32.cpp:1247-1314 | Is the resizing step, exactly when the name is listed |
| `FatMount.Driver.Rename` | kernel/src/fs/fat32.cpp:964-1070 | Is the renaming step with its exact success condition, and keeps the invariant exactly when the condition says so |
| `FatMount.Driver.Delete` | kernel/src/fs/fat32.cpp:806-882 | Is the deleting step, exactly for listed names that are no directories; the chain to free is the one the invariant gives |
| `FatMount.Driver.WriteByName` | kernel/src/fs/fat32.cpp:1544-1551 | Succeeds exactly when the name is listed and the clusters suffice; then the file holds the data and its size and no other changed; a failure changes at most that file's contents |
| `FatMount.Driver.ReadByName` | kernel/src/fs/fat32.cpp:1598-1602 | Reads the named file's bytes, exactly when the name is listed |
| `Frames.OrSetsOneBit` | kernel/src/memory/physical_memory.cpp:64 | Or-ing a one-bit mask into a 32-bit word sets that bit and no other |
| `Frames.AndClearsOneBit` | kernel/src/memory/physical_memory.cpp:89 | And-ing its complement clears that bit and no other |
| `Frames.MaskIsShift` | kernel/src/memory/physical_memory.cpp:28 | The mask of a bit is one shifted by its number |
| `Frames.PhysicalMemory.TestFrame` | kernel/src/memory/physical_memory.cpp:60-63 | The mask test of the word says whether the frame is in use |
| `Frames.PhysicalMemory.MarkUsed` | kernel/src/memory/physical_memory.cpp:64 | The or on the word takes exactly that frame out of the free set |
| `Frames.PhysicalMemory.MarkFree` | kernel/src/memory/physical_memory.cpp:89 | The and on the word puts exactly that frame into the free set |
| `Frames.CountLeft` | kernel/src/memory/physical_memory.cpp:16-47 | The wrapping count after the reservations is the number of frames left, if and only if the ranges do not overlap |
| `Frames.PhysicalMemory.Reserve` | kernel/src/memory/physical_memory.cpp:25-30 | A reserving loop removes exactly its range from the free set and counts it down with wrap-around |
| `Frames.PhysicalMemory.Initialize` | kernel/src/memory/physical_memory.cpp:14-54 | The free set is everything but the three reserved ranges; the counter agrees with it if and only if they do not overlap |
| `Frames.OverlapMiscounts` | kernel/src/memory/physical_memory.cpp:14-54 | Initialized on sixteen megabytes, no frame is free and the counter says 2^64 - 261 |
| `Frames.PhysicalMemory.AllocateFrame` | kernel/src/memory/physical_memory.cpp:56-76 | Returns the lowest free frame and removes exactly it, null exactly when none is free; the fall-through exit is never reached |
| `Frames.PhysicalMemory.FreeFrame` | kernel/src/memory/physical_memory.cpp:78-92 | Adds exactly that frame; addresses outside and double frees change nothing |
| `PageEntry.SetPresentLaw` | kernel/src/memory/virtual_memory.hpp:41-43 | Sets its own field and keeps every other |
| `PageEntry.SetWritableLaw` | kernel/src/memory/virtual_memory.hpp:44-46 | Sets its own field and keeps every other |
| `PageEntry.SetUserLaw` | kernel/src/memory/virtual_memory.hpp:47-49 | Sets its own field and keeps every other |
| `PageEntry.SetAddressLaw` | kernel/src/memory/virtual_memory.hpp:68-76 | The address read back is the page base, cut to 48 bits in a small-page entry and to 52 in a huge one; the flags are kept |
| `PageEntry.LinkedFields` | kernel/src/memory/virtual_memory.cpp:174-177 | The four setters in sequence on a small-page word make a present entry with that address and permission |
| `PageEntry.AddressSurvives` | kernel/src/memory/virtual_memory.hpp:36-39 | A page base is read back unchanged if and only if it is below 2^48 |
| `PageEntry.AddressLost` | kernel/src/memory/virtual_memory.hpp:36-39 | 2^48 itself is read back as 0 |
| `PageWord.FlagsAreBits` | kernel/src/memory/virtual_memory.hpp:9-32 | Present is bit 0, writable bit 1, user bit 2 and huge bit 7 of the word |
| `PageWord.AddressIsBits` | kernel/src/memory/virtual_memory.hpp:36-39 | The address is bits 12 to 47 of the word, or 21 to 51 in a huge entry, and no other bit |
| `PageWord.SetPresentIsBit` | kernel/src/memory/virtual_memory.hpp:41-43 | Writes bit 0 and keeps every other bit |
| `PageWord.SetWritableIsBit` | kernel/src/memory/virtual_memory.hpp:44-46 | Writes bit 1 and keeps every other bit |
| `PageWord.SetUserIsBit` | kernel/src/memory/virtual_memory.hpp:47-49 | Writes bit 2 and keeps every other bit |
| `PageWord.SetAddressIsBits` | kernel/src/memory/virtual_memory.hpp:68-76 | Keeps the low 12 bits, or 21 in a huge entry, and takes every other bit from the address |
| `PageWord.BitsDetermine` | kernel/src/memory/virtual_memory.hpp:7 | Words with equal bits are equal, so these laws say what the whole word is |
| `PageWord.GettersAreMasks` | kernel/src/memory/virtual_memory.hpp:9-17 | On the low four bits the flags are the kernel's masks |
| `PageWord.SettersAreMasks` | kernel/src/memory/virtual_memory.hpp:41-49 | On the low four bits the setters are the kernel's masks, and the bits above stay |
| `PageWord.LinkedWord` | kernel/src/memory/virtual_memory.cpp:204-209 | The four setters store page base + 1, + 2 if writable, with bits 3 to 11 kept |
| `Paging.PathInjective` | kernel/src/memory/virtual_memory.cpp:190-193 | The four 9-bit indices agree if and only if two addresses are on the same page |
| `Paging.CanonicalPage` | kernel/src/memory/virtual_memory.cpp:187-193 | For canonical addresses, being on the same page within 48 bits is having the same page base |
| `Paging.WalkInTree` | kernel/src/memory/virtual_memory.cpp:195-202 | A walk only meets the table that owns its path |
| `Paging.WalkIsTranslate` | kernel/src/memory/virtual_memory.cpp:190-202 | What the tree maps an address to is what the processor's walk over the words in memory finds: indices from bits 39, 30, 21 and 12 on, present in bit 0, writable in bit 1, base in bits 12 to 47 |
| `Paging.VirtualMemory.ProcessorAgrees` | kernel/src/memory/virtual_memory.cpp:185-210 | In every valid state, for every address |
| `Paging.GrowMapsNothing` | kernel/src/memory/virtual_memory.cpp:172-178 | Linking a fresh empty table changes no translation |
| `Paging.LeafSetsOne` | kernel/src/memory/virtual_memory.cpp:204-209 | Rewriting a leaf entry changes one four-index lookup and no other |
| `Paging.LeafTranslates` | kernel/src/memory/virtual_memory.cpp:204-209 | Rewriting a leaf entry changes the translation of its page and of no other address |
| `Paging.VirtualMemory.constructor` | kernel/src/memory/virtual_memory.cpp:159-168 | A fresh top table in one frame: nothing is mapped, no entry is huge, and no other frame is taken |
| `Paging.VirtualMemory.CreatePageTable` | kernel/src/memory/virtual_memory.cpp:159-168 | A table frame comes out of the free set and holds no other table |
| `Paging.VirtualMemory.LinkEntry` | kernel/src/memory/virtual_memory.cpp:174-177 | The four setters on the word in memory store the page base + 1, + 2 if writable, with bits 3 to 11 kept, and write exactly that entry |
| `Paging.RewriteRepresents` | kernel/src/memory/virtual_memory.cpp:204-209 | Rewriting one 64-bit word in memory rewrites one entry of one table |
| `Paging.VirtualMemory.GetNextLevel` | kernel/src/memory/virtual_memory.cpp:180-182 | Without creation: the table one step further along the path, or null |
| `Paging.VirtualMemory.GetOrCreateNextLevel` | kernel/src/memory/virtual_memory.cpp:170-183 | With creation: the existing table, or one new frame linked in, all other walks as before |
| `Paging.VirtualMemory.EnsureTables` | kernel/src/memory/virtual_memory.cpp:195-202 | After the three steps the leaf table exists, using one frame per missing table, no translation changed |
| `Paging.VirtualMemory.MapPage` | kernel/src/memory/virtual_memory.cpp:185-210 | Adds exactly one binding to the flat map, the first mapping winning; no other address changes; the word in the leaf table is present, for the kernel, writable or not, with that page base |
| `Paging.VirtualMemory.UnmapPage` | kernel/src/memory/virtual_memory.cpp:212-230 | Removes exactly one binding; no other address changes |
| `Paging.VirtualMemory.GetPhysicalAddress` | kernel/src/memory/virtual_memory.cpp:232-252 | Returns the bound page base of the flat map, or 0 |
| `SharedMemory.WindowsDisjoint` | kernel/src/core/ipc.cpp:216 | Windows of different ids share no page |
| `SharedMemory.WindowPaths` | kernel/src/core/ipc.cpp:216-221 | A window lies under two leaf tables of one directory, one for each half |
| `SharedMemory.MissingNext` | kernel/src/core/ipc.cpp:219-239 | Along a window only the first page and the 512th can need new tables |
| `SharedMemory.BindPage` | kernel/src/core/ipc.cpp:222-238 | Mapping a fresh frame extends the record of backed pages by that page alone |
| `SharedMemory.UnbindPage` | kernel/src/core/ipc.cpp:227-231 | Freeing and unmapping drops that page alone |
| `SharedMemory.Regions.BackPage` | kernel/src/core/ipc.cpp:221-238 | One page gets a frame, or nothing changes when none is left; free, table and data frames together stay the same set |
| `SharedMemory.Regions.ReleasePage` | kernel/src/core/ipc.cpp:226-231 | One page gives its frame back; the same conservation |
| `SharedMemory.Regions.BackAll` | kernel/src/core/ipc.cpp:219-239 | All pages are backed if and only if the free frames cover the pages and the tables missing for them; otherwise none is |
| `SharedMemory.Regions.ReleaseAll` | kernel/src/core/ipc.cpp:263-271 | Exactly the pages of the range are unbacked |
| `SharedMemory.Regions.CreateSharedMemory` | kernel/src/core/ipc.cpp:203-248 | A new region of whole pages in its own window, if and only if the size is allowed and the free frames cover its pages and missing tables; a failure leaves pages and regions as they were and costs only frames of tables built |
| `SharedMemory.Regions.DestroySharedMemory` | kernel/src/core/ipc.cpp:250-286 | Succeeds exactly for a known id, and then removes that region and exactly its pages, returning their frames |
| `SharedMemory.CreateThenDestroy` | kernel/src/core/ipc.cpp:203-286 | Create then destroy, or a failed create, leaves every page and region as before, and the free frames minus only table frames |
| `SharedMemory.Regions.RegionIsMapped` | kernel/src/core/ipc.cpp:216-239 | Behind every page of every region, from 0x700000000000 on and 4 MB for each id, the processor finds a writable frame used for nothing else |
| `SharedMemory.StartUp` | kernel/src/core/kernel.cpp:56-74 | On the kernel's 64 MB the frames, an empty address space and the regions are set up, with 12026 frames left before the kernel's own mappings |
| `SharedMemory.FirstRegion` | kernel/src/core/ipc.cpp:203-248 | The first shared memory after that is created for every size from 1 to 4 MB, and for no other |
| `Heap.RoundedCovers` | kernel/src/memory/heap.cpp:52 | Rounding never shrinks a request, if and only if it is at most 2^64 - 16, and then adds less than 16 |
| `Heap.LargestRequestIsLost` | kernel/src/memory/heap.cpp:52 | 2^64 - 1 is rounded to 0 |
| `Heap.TilesApart` | kernel/src/memory/heap.cpp:33-47 | Blocks of a tiling, headers and payloads, lie apart and inside the heap |
| `Heap.FindFree` | kernel/src/memory/heap.cpp:24-31 | The first free block large enough, or none |
| `Heap.AllocatedExactly` | kernel/src/memory/heap.cpp:33-47 | A block with 56 bytes or more to spare is split, the rest past a 24-byte header staying free; any other is handed out whole; every other block stays |
| `Heap.AllocateKeepsTiles` | kernel/src/memory/heap.cpp:33-59 | Splitting or taking a block keeps the tiling |
| `Heap.AllocateKeepsCoalesced` | kernel/src/memory/heap.cpp:33-59 | and leaves no two free neighbours |
| `Heap.MergeKeepsTiles` | kernel/src/memory/heap.cpp:77-88 | The merge pass keeps the tiling |
| `Heap.MergeCoalesces` | kernel/src/memory/heap.cpp:77-88 | One merge pass over any list leaves no two free neighbours |
| `Heap.MergeOnePair` | kernel/src/memory/heap.cpp:77-88 | On a list coalesced but for one pair the pass joins exactly that pair |
| `Heap.FreeUndoesAllocate` | kernel/src/memory/heap.cpp:49-106 | Freeing what was just allocated restores the block list exactly |
| `Heap.RunKeepsGood` | kernel/src/memory/heap.cpp:49-106 | Every run keeps an address-ordered coalesced tiling, and the counter equal to headers plus live sizes minus accumulated slack |
| `Heap.RunFromFresh` | kernel/src/memory/heap.cpp:14-106 | From a fresh heap, after any run, every payload is inside the heap, payloads are pairwise apart and apart from every header, and no neighbours are both free |
| `Heap.MergeKeepsBlocks` | kernel/src/memory/heap.cpp:77-88 | The merge pass keeps every live block unchanged and makes no other |
| `Heap.AllocateKeepsBlocks` | kernel/src/memory/heap.cpp:33-59 | An allocation adds the block it carves and keeps every live one unchanged |
| `Heap.FreeKeepsBlocks` | kernel/src/memory/heap.cpp:90-106 | A free removes its block and keeps every other live one unchanged |
| `Heap.RunServes` | kernel/src/memory/heap.cpp:49-106 | Over every run the pointers held are exactly the payloads of the live blocks, and each block has the rounded size asked for and less than 56 bytes more |
| `Heap.HeldMemoryIsApart` | kernel/src/memory/heap.cpp:14-106 | From a fresh heap, after any run, the memory of each pointer held, as long as asked for, lies inside the heap, and apart from that of every other |
| `Heap.RunAllocates` | kernel/src/memory/heap.cpp:49-75 | From a fresh heap, after any run, a request gets a pointer nobody holds exactly when some free block has its rounded size |
| `Heap.TwoRequests` | kernel/src/memory/heap.cpp:33-75 | On a fresh 16 MB heap two requests of 16 bytes get pointers 40 bytes apart and the rest stays free |
| `Heap.AllocateThenFree` | kernel/src/memory/heap.cpp:33-106 | Allocate then free restores the list; the counter comes back if and only if the block was split or fitted exactly |
| `Heap.SlackIsLost` | kernel/src/memory/heap.cpp:33-106 | On a fresh heap of one 32-byte block, allocating 16 bytes and freeing them leaves the counter 16 short |
| `Heap.HeapAllocator.constructor` | kernel/src/memory/heap.cpp:14-22 | One free block over the whole heap |
| `Heap.HeapAllocator.FindFreeBlock` | kernel/src/memory/heap.cpp:24-31 | First fit along the links |
| `Heap.HeapAllocator.Allocate` | kernel/src/memory/heap.cpp:49-75 | The run's allocation step on the linked headers; a pointer exactly when some free block has the rounded size, 24 bytes past that block, which is split if 56 bytes or more are to spare |
| `Heap.HeapAllocator.TakeBlock` | kernel/src/memory/heap.cpp:33-59 | Split, mark and count on the headers in memory; the block handed out has less than 56 bytes to spare and the rest stays free |
| `Heap.HeapAllocator.MergeFreeBlocks` | kernel/src/memory/heap.cpp:77-88 | The pointer loop computes the merge pass and takes one header off the counter per join |
| `Heap.HeapAllocator.Free` | kernel/src/memory/heap.cpp:90-106 | The run's free step on the linked headers |
| `Scheduler.FirstReady` | kernel/src/core/scheduler.cpp:173-185 | The first step of the rotation that meets a ready process, all earlier ones meeting none |
| `Scheduler.ScanFindsReady` | kernel/src/core/scheduler.cpp:166-188 | The scan returns null if and only if nothing in the queue is ready |
| `Scheduler.ScheduleBringsNearer` | kernel/src/core/scheduler.cpp:99-121 | With a clear way, each rescheduling runs a waiting process or lowers its cyclic distance |
| `Scheduler.TickBringsNearer` | kernel/src/core/scheduler.cpp:137-164 | With a clear way, each tick runs a waiting process or lowers five times its distance plus the slice left |
| `Scheduler.EveryReadyProcessRuns` | kernel/src/core/scheduler.cpp:137-188 | Bounded waiting: a ready process of a queue of n, with no process of priority nine or more running or ready ahead of it, becomes current within 5n ticks |
| `Scheduler.BlockedNeverRuns` | kernel/src/core/scheduler.cpp:151 | Otherwise no number of ticks makes it current |
| `Scheduler.EveryProcessGetsItsTurn` | kernel/src/core/scheduler.cpp:137-188 | In every state reachable from boot in which another process runs, ticks alone bring a process to run if and only if neither the running process nor a ready one ahead of it has priority nine or more, and then within 5n ticks |
| `Scheduler.RaisedProcessStarves` | kernel/src/core/scheduler.cpp:137-164 | With two processes and the second running at priority nine, the first stays ready and after any number of ticks has not run |
| `Scheduler.CreateKeeps` | kernel/src/core/process.cpp:40-74 | Creation keeps the invariant of table and queue |
| `Scheduler.TerminateKeeps` | kernel/src/core/process.cpp:76-118 | Termination keeps it and removes exactly that process |
| `Scheduler.ScheduleKeeps` | kernel/src/core/scheduler.cpp:99-121 | Scheduling keeps it, leaves some process running if any is queued, and keeps the current one exactly when nothing is ready |
| `Scheduler.TickKeeps` | kernel/src/core/scheduler.cpp:137-164 | A tick keeps it |
| `Scheduler.TickOnce` | kernel/src/core/scheduler.cpp:137-164 | The same of the tick step |
| `Scheduler.IdleTicks` | kernel/src/core/scheduler.cpp:138-140 | Any number of ticks without interrupts leaves everything as it was |
| `Scheduler.StepAccounts` | kernel/src/core/scheduler.cpp:137-164 | Of the processes that stay, each operation charges one tick exactly to the one running at a tick with interrupts, and changes priorities only as set, up to ten |
| `Scheduler.RunAccounts` | kernel/src/core/scheduler.cpp:137-164 | Over every run a process is charged exactly for the ticks that found it running with interrupts |
| `Scheduler.RemovalKeepsPlace` | kernel/src/core/scheduler.cpp:64-90 | When a process leaves the queue the index stays on its process, or steps back if its own left |
| `Scheduler.TerminateOnce` | kernel/src/core/process.cpp:76-118 | One process leaves the queue; the others keep priority and runtime |
| `Scheduler.RemovalKeepsMirror` | kernel/src/core/scheduler.cpp:64-90 | Removing a process from the queue and from the list keeps one the reverse of the other |
| `Scheduler.RunFromBoot` | kernel/src/core/process.cpp:40-118 | After any run at most one process is Running and it is the current one; the queue is the process list reversed, without duplicates; current is queued; the index is in range |
| `Scheduler.Machine.SelectNextProcess` | kernel/src/core/scheduler.cpp:166-188 | The rotating loop terminates and finds the first ready process after the index, or null exactly when nothing is ready |
| `Scheduler.Machine.ScheduleOnCpu` | kernel/src/core/scheduler.cpp:99-121 | Equals the scheduling step and keeps the invariant |
| `Scheduler.Machine.TickOnCpu` | kernel/src/core/scheduler.cpp:137-164 | Nothing happens without interrupts or a current process; otherwise that process alone is charged one tick, keeps the CPU at priority nine or while more than one tick is left, and loses it to the next ready process, with five ticks, at the last; the invariant is kept |
| `Scheduler.Machine.AddProcess` | kernel/src/core/scheduler.cpp:56-61 | Queues a process once |
| `Scheduler.Machine.RemoveProcess` | kernel/src/core/scheduler.cpp:64-90 | Equals the removal step, index and current adjusted |
| `Scheduler.ShiftedOut` | kernel/src/core/scheduler.cpp:75-79 | The shifting loop removes exactly one position |
| `Scheduler.Machine.SwitchToProcess` | kernel/src/core/process.cpp:281-301 | Equals the switch step; after a switch the new process is running and the old one is not |
| `Scheduler.Machine.CreateProcess` | kernel/src/core/process.cpp:40-74 | Equals the creation step, returns the new pid, which joins the queue's end ready and with priority five, and keeps the invariant |
| `Scheduler.Machine.SetProcessPriority` | kernel/src/core/scheduler.cpp:213-222 | Sets one process's priority, at most ten, and nothing else |
| `Scheduler.Machine.TerminateProcess` | kernel/src/core/process.cpp:76-118 | Equals the termination step, keeps the invariant and the others' priority and runtime |
| `LoadBalance.MovedAreFirst` | kernel/src/core/scheduler.cpp:308-319 | Exactly min(limit, number of migratable processes) move, and they are the first ones in order |
| `LoadBalance.OthersKeepOrder` | kernel/src/core/scheduler.cpp:308-319 | The processes that stay keep their order |
| `LoadBalance.SplitLosesNothing` | kernel/src/core/scheduler.cpp:308-319 | Moved and kept processes together are the queue |
| `LoadBalance.DrainKeepsIndex` | kernel/src/core/scheduler.cpp:264-265 | The index stays in range and on its process unless that process may move |
| `LoadBalance.LongestIsFirst` | kernel/src/core/scheduler.cpp:285-297 | The queue chosen is the first longest |
| `LoadBalance.ShortestIsFirst` | kernel/src/core/scheduler.cpp:285-297 | The queue chosen is the first shortest |
| `LoadBalance.RoundIsExact` | kernel/src/core/scheduler.cpp:279-320 | A round moves exactly min(half the gap, number of migratable processes) from the first longest to the first shortest queue, the others and the order of the rest unchanged |
| `LoadBalance.RoundConserves` | kernel/src/core/scheduler.cpp:279-320 | Every process is queued as often as before |
| `LoadBalance.PinnedStay` | kernel/src/core/scheduler.cpp:239-252 | A running process, or one of priority eight or more, is in the same queue as often after any number of rounds |
| `LoadBalance.RoundMoves` | kernel/src/core/scheduler.cpp:279-320 | A round changes something exactly if lengths differ by two or more and some process of the first longest queue is neither running nor of priority eight or more |
| `LoadBalance.RoundLowers` | kernel/src/core/scheduler.cpp:279-320 | A round lowers the sum of squared lengths, or changes nothing, exactly in a quiet state |
| `LoadBalance.RoundKeepsIndices` | kernel/src/core/scheduler.cpp:264-265 | Every queue's index stays in range and on a process that may not move |
| `LoadBalance.RoundsSettle` | kernel/src/core/scheduler.cpp:279-320 | Repeated rounds reach lengths within one of each other, or a first longest queue with nothing to move |
| `LoadBalance.RoundsConserve` | kernel/src/core/scheduler.cpp:279-320 | No number of rounds loses or duplicates a process |
| `LoadBalance.Balancer.MigrateProcess` | kernel/src/core/scheduler.cpp:254-277 | Moves the first occurrence, index adjusted |
| `LoadBalance.Balancer.Extremes` | kernel/src/core/scheduler.cpp:280-297 | The two scans find the first longest and first shortest queue |
| `LoadBalance.Balancer.MoveSome` | kernel/src/core/scheduler.cpp:308-319 | The loop with its wrapping decrement terminates and moves exactly the specified processes |
| `LoadBalance.Balancer.LoadBalance` | kernel/src/core/scheduler.cpp:279-320 | Equals the round, also with no queue, where the gap wraps to 1 |
| `IpcQueues.RunKeeps` | kernel/src/core/ipc.cpp:134-201 | In every run live names stay distinct and no queue exceeds 64 messages of 1024 bytes |
| `IpcQueues.Fifo` | kernel/src/core/ipc.cpp:36-98 | Received followed by pending equals pending before followed by accepted, over every run that does not destroy the queue |
| `IpcQueues.OpenFindsLive` | kernel/src/core/ipc.cpp:170-177 | Open returns an id exactly when that id is a live queue of that name |
| `IpcQueues.CreateThenOpen` | kernel/src/core/ipc.cpp:134-177 | Create fails exactly on a live name; otherwise it takes the lowest free id, opening the name gives that id, other names open as before, and destroying it leaves the same live queues |
| `IpcQueues.DestroyedIsGone` | kernel/src/core/ipc.cpp:157-168 | A destroyed queue is not live whatever was pending, opens under no name, takes and gives no message; every other queue is as it was |
| `IpcQueues.MessageQueue.SendMessage` | kernel/src/core/ipc.cpp:36-66 | Appends exactly when fewer than 64 messages are queued and this one has at most 1024 bytes |
| `IpcQueues.MessageQueue.ReceiveMessage` | kernel/src/core/ipc.cpp:86-97 | Takes the oldest message and shifts the rest |
| `IpcQueues.IpcManager.OpenMessageQueue` | kernel/src/core/ipc.cpp:170-177 | Equals the lookup by name |
| `IpcQueues.IpcManager.CreateMessageQueue` | kernel/src/core/ipc.cpp:134-155 | Equals the creation step; the next id stays the table's length plus one |
| `IpcQueues.IpcManager.DestroyMessageQueue` | kernel/src/core/ipc.cpp:157-168 | Equals the destruction step, exactly for live ids; the id is then not live |
| `IpcQueues.IpcManager.SendMessage` | kernel/src/core/ipc.cpp:179-189 | Accepted exactly by a live queue with fewer than 64 messages and for at most 1024 bytes; it comes last, and no other queue changes |
| `IpcQueues.IpcManager.ReceiveMessage` | kernel/src/core/ipc.cpp:191-201 | The oldest message of a live queue, or none; no other queue changes |
| `Editor.CursorInjective` | kernel/src/shell/editor.cpp:65-86 | Row and column determine the position |
| `Editor.StartOfRow` | kernel/src/shell/editor.cpp:46-63 | The row of a position starts its column before it |
| `Editor.GoesTo` | kernel/src/shell/editor.cpp:65-86 | Going to a row that is found and a column within it lands exactly there |
| `Editor.OwnRowMissing` | kernel/src/shell/editor.cpp:46-63 | The cursor's row is not found exactly on an empty last line; otherwise a column below its length is on a character of the line |
| `Editor.SaveKeeps` | kernel/src/shell/editor.cpp:138-166 | A save keeps the cursor coherent if and only if it does not trim to before it |
| `Editor.InsertKeeps` | kernel/src/shell/editor.cpp:379-404 | Inserting a character or newline keeps the cursor coherent |
| `Editor.EraseKeeps` | kernel/src/shell/editor.cpp:344-377 | Backspace, over a newline or not, keeps it coherent |
| `Editor.LinesDeletedKeeps` | kernel/src/shell/editor.cpp:413-463 | Deleting the selected rows keeps it coherent |
| `Editor.SelectedRange` | kernel/src/shell/editor.cpp:419-443 | For a selection of existing rows the range deleted is from the start of the first to the end of the last |
| `Editor.KeyKeeps` | kernel/src/shell/editor.cpp:241-500 | One keypress keeps cursor and selection coherent if and only if it is not one of the two derailing ones |
| `Editor.EveryRun` | kernel/src/shell/editor.cpp:241-500 | Over any keypresses the cursor is coherent in every state if and only if none derails |
| `Editor.KeyObeys` | kernel/src/shell/editor.cpp:241-500 | The keypress step by key and mode, said of the text and cursor before and after |
| `Editor.KeyMoves` | kernel/src/shell/editor.cpp:292-336 | From a right cursor, `h` and `l` move by one within the line, `j` and `k` to the next and previous row if there is one, at the same column or the end of a shorter line |
| `Editor.DeletesRows` | kernel/src/shell/editor.cpp:413-463 | In visual mode `s` takes out exactly the characters of the selected rows but for the newline that ends the last |
| `Editor.TypeThenErase` | kernel/src/shell/editor.cpp:344-404 | Typing a character or newline and backspace restore text and cursor |
| `Editor.DownThenUp` | kernel/src/shell/editor.cpp:306-336 | `j` then `k` comes back where the column fits |
| `Editor.UpThenDown` | kernel/src/shell/editor.cpp:306-336 | `k` then `j` comes back where the column fits, if and only if not from an empty line at the end of the text |
| `Editor.NoWayDown` | kernel/src/shell/editor.cpp:306-336 | From the second row of a single newline, `k` and `j` end on the first |
| `Editor.WaysOffTrack` | kernel/src/shell/editor.cpp:299-304 | From an empty text, `l` leaves the text; and a newline typed, escape and a save leave a stale row |
| `Editor.MemMove` | kernel/src/lib/lib.cpp:52-69 | Overlapping moves in both directions give the old block at its new place |
| `Editor.TextEditor.constructor` | kernel/src/shell/editor.cpp:99-124 | An opened editor shows the text with the cursor at its start |
| `Editor.TextEditor.GetLineLength` | kernel/src/shell/editor.cpp:46-63 | The length of a row, or the largest size_t when it starts at the end of the text |
| `Editor.TextEditor.UpdateCursorPos` | kernel/src/shell/editor.cpp:65-86 | The first position with the cursor's row and column, or the end |
| `Editor.TextEditor.InsertAtCursor` | kernel/src/shell/editor.cpp:379-404 | Equals sequence insertion at the cursor: the text before it, the character, the text after it |
| `Editor.TextEditor.DeleteChar` | kernel/src/shell/editor.cpp:739-745 | Equals sequence deletion at the cursor |
| `Editor.TextEditor.Backspace` | kernel/src/shell/editor.cpp:344-377 | Equals sequence deletion before the cursor, column recomputed after a newline |
| `Editor.TextEditor.Save` | kernel/src/shell/editor.cpp:138-166 | Trims trailing newlines, and on success clamps the position |
| `Editor.TextEditor.Close` | kernel/src/shell/editor.cpp:168-192 | Empties the text and resets the cursor |
| `Editor.TextEditor.SelectionStart` | kernel/src/shell/editor.cpp:419-432 | The start of the first selected row, or of the last line when there is no such row |
| `Editor.TextEditor.SelectionEnd` | kernel/src/shell/editor.cpp:434-443 | The end of the row as many rows on as are selected |
| `Editor.TextEditor.DeleteLines` | kernel/src/shell/editor.cpp:413-459 | Equals deletion of the selected rows but the last newline, whatever the selection |
| `Editor.TextEditor.ProcessKeypress` | kernel/src/shell/editor.cpp:241-500 | Equals the keypress step in every state whose position is in the text; key by key, typing inserts one character, backspace takes out the one before the cursor, `s` the one under it or the selected rows, a save trailing newlines, and every other key keeps the text; `h`, `l`, `j`, `k`, `J`, `K` move as they should from a right cursor |
| `Wildcard.MatchesIsStands` | kernel/src/lib/lib.cpp:197-219 | Character-wise matching equals: the string is the pattern with each star replaced by some string |
| `Wildcard.OnlyStarsMatchEmpty` | kernel/src/lib/lib.cpp:216-218 | The empty string matches exactly the patterns made of stars |
| `Wildcard.EmptyMatchIsCovered` | kernel/src/lib/lib.cpp:205-209 | Skipping the empty suffix loses no match |
| `Wildcard.MatchFrom` | kernel/src/lib/lib.cpp:200-218 | Loops and recursion terminate and decide character-wise matching |
| `Wildcard.MatchSomeSuffix` | kernel/src/lib/lib.cpp:205-209 | The inner loop decides whether any suffix, the empty one included, matches |
| `Wildcard.MatchWildcard` | kernel/src/lib/lib.cpp:197-219 | True exactly when both pointers are set and the string is the pattern with its stars replaced |

## Left out

- Hardware: ATA transfers and their errors, context switches, interrupt controllers and SMP bring-up. The disk is a
  sequence of sectors whose transfers succeed, a context switch does nothing, and the interrupt flag is a parameter.
- User interface: terminal, pager, prompt, shell commands, printf, and the editor's screen position and rendering.
- FatDisk.InitializeIsSound: states when a mount is sound, not what an unsound one does; copies are spaced by the
  32-bit table size while the data area is placed by either size, so it requires them to agree.
- FatVolume.FileSystem.WriteFile: whole sectors are written, so it requires the buffer's memory to reach the next
  multiple of 512, which the source reads without asking.
- FatDirectory.CreateFile: names of more than 11 characters would take long-name slots, whose backward offsets can
  land on existing ones; names with a trailing space, a first byte 0xE5 or attributes 0x0F cannot be stored either.
- FatDirectory.RenameFile: moving into another directory, and renames across directories.
- FatDirectory.DeleteFile: requires the entry's cluster to start a well-formed chain that leaves the directory out;
  `FatMount.Driver.Delete` does not, as its invariant has that chain.
- FatMount.Driver.WriteByName: requires the write to keep the invariant; after text is written over the directory itself
  (`FatMount.Driver.Write` says what that leaves) the size update that follows is not modelled.
- FatMount.Driver.Mount: requires a root that is not blank to meet the invariant; `FatMount.FormatRoot` covers every
  root.
- FatDrive: one directory at a time; a subdirectory is a file whose bytes are its sector, and the files in other
  directories are not part of the map.
- Directories of more than one sector: the free-slot scan returns an offset within a sector and the write always uses
  the first sector. Paths with directories, recursive deletion and `cd`: they look parents up relative to the current
  directory or depend on a `snprintf` that ignores its arguments.
- Paging.VirtualMemory.MapPage: requires a frame for every table it has to build; with none left the source writes
  through a null table. Addresses over the huge-page mappings of the low 16 MB are excluded, as `get_next_level` does
  not tell a huge entry from a table.
- Paging.VirtualMemory.CreatePageTable: the zeroing loop is a fresh table of zero words. Bit masks on 64-bit words are
  written with division and remainder.
- Paging.VirtualMemory.constructor: an empty address space; the kernel's own mappings made at start are not built.
- Frames.PhysicalMemory.Initialize: requires memory of at least the 16 MB it reserves and no more than the bitmap
  covers; below that the source indexes outside the bitmap.
- SharedMemory.Regions.CreateSharedMemory: requires frames for page tables while any frame is left, and ids whose
  window is in the lower half of the address space; zeroing, the attached processes, attach and detach are left out.
- Heap: frames are assumed available, as allocation takes arbitrary frames and freeing returns frames at the block's
  own addresses. Heap.HeapAllocator.Free requires a live pointer or null.
- Scheduler: one run queue and the round-robin policy; waiting and wake-ups, the priority policy, `last_run`, and the
  load-balance counter of `tick` are left out, as are 32-bit overflow of process ids and `create_process` when frames
  run out (its cleanup runs before the stack is recorded). A terminated process leaves the table before instead of
  after the rescheduling that follows.
- LoadBalance: processes do not change state between rounds, and vectors are shorter than the largest size_t.
- IpcQueues.MessageQueue.ReceiveMessage: receives without waiting. Waiters, wake-ups and 32-bit overflow of ids are
  left out.
- Editor.TextEditor.ProcessKeypress: covers states whose position is in the text; past it the source moves memory
  beyond the buffer.
- Process memory, fork, exec, ELF loading, the dynamic linker and system calls.
