# Verification of the Lons OS kernel's storage and memory managers

This project models the parts of the kernel in which a mistake corrupts data: the FAT32 driver down to the bytes on
disk, the RAM filesystem and the descriptor layer over both, the physical page allocator, the four-level page tables,
and the kernel heap down to the bytes of its headers. Each is an imperative model in the form of the C code (classes
with the same fields, loops and branches), proved against specifications over plain values, about which further lemmas
are proved. `dafny verify dfyconfig.toml` checks everything.

| part | files |
|---|---|
| FAT32: disk, table, chains, chain bytes | `FatVolume`, `FatTable`, `FatChains`, `FatFile` |
| FAT32: entries, names, directory tree, node cache | `FatEntries`, `FatNames`, `FatLongNames`, `FatTree`, `FatNodes`, `FatScan`, `FatStore`, `FatRoom` |
| FAT32: operations and runs of them | `FatFileOps`, `FatDriver`, `FatDirs`, `FatCreate`, `FatUnlink`, `FatRuns`, `FatLoss`, `FatOverfull` |
| RAM files, descriptors, paths | `Ramfs`, `FileSpec`, `FileMachine`, `Vfs`, `VfsPath` |
| page allocator and page tables | `Pmm`, `PageTables` |
| kernel heap | `HeapLayout`, `HeapMemory`, `HeapSteps`, `HeapBlocks`, `KernelHeap` |

How the FAT32 model hangs together. A disk is a sequence of 512-byte sectors. `Volume.Fat()` and `Data()` are
the 28-bit table and the cluster contents that the sectors encode, and `Untouched()` is everything else on the disk, the
reserved upper bits included. A ghost `Ledger` names the
live chains; `Owned` is the allocation invariant (chains acyclic, disjoint, inside the table, ended; the entries in use
are exactly theirs and the reserved ones). A ghost `Tree` holds the bytes of every chain by its first cluster;
`TreeSound` says that every entry a scan would show is the only one to refer to its chain, and agrees with it.
`CacheSound` ties the driver's nodes to the entries they stand for. `Driver.Valid()` is all of that at once, and every
operation keeps it, whatever the names and however full the directories, out-of-space outcomes included.

Three kinds of nodes stand for an entry less firmly than that, and the invariants know them. A name whose entry no scan
shows goes into a *wild* slot: the driver lists the node, but no entry can be relied on there, since with a first byte
0xE5 the slot counts as free and is filled again, so that two nodes write to one entry. A node made in a directory that
lists 128 children already is *not listed*. When such a directory goes, since it lists nothing any more, the node is
left *without an entry*. Chains of such nodes are known to the node alone; no two nodes ever have the same chain.

`LeakFree` says that every chain but the root's has an entry that a scan shows; it is separate from `Valid()` because a
volume may be mounted with chains that are already lost, and because the driver does lose some (see Findings).

Assumptions. Sectors can always be read and written. The FAT32 driver's nodes can always be allocated (`kzalloc` in
`make_node` succeeds), so that a NULL from `fat32_create` means what `Create` says. The volume mounted is well formed:
chains as above, directories that end once, long-name entries whose characters fit the 256-byte name buffer.

## Model

| member | source | states |
|---|---|---|
| FatVolume.EntryWritten | kernel/fat32.c:110-122 | Writing four bytes at the computed sector and offset changes that one table entry (its 28 bits and its upper 4) and nothing else on the disk: no other entry, no cluster's data, and no byte outside both. |
| FatVolume.SectorWritten | kernel/fat32.c:70-85 | Writing bytes into one sector of a cluster changes exactly those bytes of that cluster; the table and everything else on the disk is untouched. |
| FatTable.Volume.FatGet | kernel/fat32.c:94-105 | The 28-bit value of the entry, found through the 32-bit offset arithmetic. |
| FatTable.Volume.FatSet | kernel/fat32.c:110-122 | One entry gets the value; the upper 4 bits of every entry, all other entries, all data, and everything outside table and clusters (boot sector, second table and the like) stay, as they do in every other operation (`Untouched`). |
| FatTable.Volume.FatAlloc | kernel/fat32.c:128-141 | The lowest free cluster, marked as a chain's end and zero-filled, nothing else changed; 0 exactly when none is free. |
| FatTable.Volume.FatFreeChain | kernel/fat32.c:146-152 | On every table whose links stay inside it, cyclic ones included, the loop ends, frees exactly the clusters reachable from its argument, and changes no other entry, no upper bits and no data. |
| FatTable.HopCycles | kernel/fat32.c:146-152 | Once a cluster comes round again nothing new is ever reached; this is why freeing may stop at an entry it freed itself. |
| FatTable.WalkDoneFreesAll | kernel/fat32.c:146-152 | A walk that is over has freed everything reachable. |
| FatTable.Volume.FatAppend | kernel/fat32.c:500-507 | Allocates and links a cluster behind another; 0 exactly when none is free, and then nothing changed. |
| FatChains.ChainReachable | kernel/fat32.c:146-152 | What can be reached from the head of a live chain is that chain. |
| FatChains.NewChainOwned | kernel/fat32.c:470-475 | Taking a free cluster as a new chain keeps the allocation invariant. |
| FatChains.ExtendChainOwned | kernel/fat32.c:500-507 | Appending a free cluster to a chain keeps the allocation invariant. |
| FatChains.DropChainOwned | kernel/fat32.c:708-710 | Freeing what is reachable from a chain's head keeps the allocation invariant without that chain: nothing leaks, nothing is freed twice. |
| FatChains.ChainBytesSplice | kernel/fat32.c:514-540 | Writing inside the k-th cluster is writing at the matching offset of the whole chain. |
| FatFile.WriteChain | kernel/fat32.c:488-550 | The chain's bytes become the old ones overwritten at the offset, zero-filled up to it; every other chain keeps its bytes; as many bytes go in as lie below the chain's end, which moves out as long as a cluster is free and no further than the new end needs. |
| FatFile.ReadChain | kernel/fat32.c:403-451 | Exactly the requested slice of the chain's bytes. |
| FatStore.OffsetRecovered | kernel/fat32.c:346-349 | The entry offset a node keeps wraps around in 32 bits, and its remainder by the cluster size is still the entry's place. |
| FatEntries.FieldBytes | kernel/fat32.h:63-77 | The first cluster is read from bytes 26, 27, 20 and 21, lowest first, and the size from bytes 28 to 31. |
| FatEntries.AttrBits | kernel/fat32.c:325-344 | Bit 4 of the attributes marks directories and bit 3 the volume's label, whatever the other bits are. |
| FatEntries.EditsAreLocal | kernel/fat32.c:470-572 | Setting an entry's first cluster or size, or marking it deleted, changes no byte of another field; a new entry is zero outside its name, attributes and first cluster. |
| FatStore.EditFirst | kernel/fat32.c:475-485 | Rewriting two 16-bit fields through the sector buffer sets that entry's first cluster in the tree and changes nothing else. |
| FatNodes.FirstUnique | kernel/fat32.c:255-278 | No two nodes in the cache have the same chain, whatever their names, and whether or not they are listed or still have an entry. |
| FatRoom.RoomKept | kernel/fat32.c:488-550 | Steps that make one chain longer leave the number of its clusters and the free ones together as it was. |
| FatRoom.RoomDecides | kernel/fat32.c:488-550 | Hence the number of bytes that go in is what lies below the end of the chain's own and the free clusters, given that it stops growing only when none is free. |
| FatDriver.Driver.Read | kernel/fat32.c:403-451 | For every offset and count the matching slice of the file's content; an error for directories. |
| FatDriver.Driver.Write | kernel/fat32.c:457-572 | The number of bytes accepted is the smaller of the number given and what lies between the offset and the end of the file's own and the free clusters; if the offset is not below that end the write is refused. The clusters then hold the old bytes, zero-filled to the offset and overwritten by the bytes accepted, and that is the file's new content exactly when the new end is below 2^32 and the gap in the chain was zero; all other files keep their bytes; only this file's chain grows, by no more than needed; a chain is lost exactly if the file's first cluster goes into an entry that no scan shows or that another node uses; every directory that agreed with a scan still does. |
| FatFileOps.ContentWritten | kernel/fat32.c:552-571 | A write into the chain is the plain overwrite of the file if and only if the new end fits in 32 bits and the gap is zero. |
| FatFileOps.TailKept | kernel/fat32.c:552-571 | A file whose chain is zero beyond its end stays so; hence gaps in files this driver wrote always read as zero. |
| FatFileOps.OtherContents | kernel/fat32.c:457-572 | Writing to one file leaves every other file's content as it was. |
| FatNames.MakeName | kernel/fat32.c:196-218 | The two fields are the parts around the last dot, in capitals, cut and padded with spaces. |
| FatNames.ParseName | kernel/fat32.c:164-190 | The trimmed parts in lower case, joined by a dot if there is an extension. |
| FatNames.MadeThenParsed | kernel/fat32.c:164-218 | Making and parsing a name gives its lower-case form if and only if it is an 8.3 name. |
| FatNames.ParsedThenMade | kernel/fat32.c:164-218 | Parsing and making gives the entry's name back if and only if that is canonical. |
| FatLongNames.LfnToAscii | kernel/fat32.c:224-244 | The three loops put the entry's characters up to the first that stops the name, and a zero byte after them, in their place of the buffer and touch nothing else. |
| FatLongNames.EncoderEncodes | kernel/fat32.c:224-244 | Every name of 1 to 255 characters has a sequence of entries that encodes it. |
| FatLongNames.LongNameRebuilt | kernel/fat32.c:315-336 | Met in stored order, the entries of a name rebuild exactly that name, zero-terminated, whatever was pending before; lengths that are multiples of 13 and length 255 included. |
| FatScan.ScanFindsLongName | kernel/fat32.c:305-336 | A directory scan finds the entry behind the stored long-name entries of a name, with exactly that name. |
| FatScan.ScanFinds | kernel/fat32.c:305-366 | Nothing that shows is missed by stopping at the first unused entry. |
| FatScan.TrackedAfterStep | kernel/fat32.c:614-665 | Steps that only add unused entries to loaded directories leave every directory's agreement with the disk. |
| FatDirs.Load | kernel/fat32.c:285-367 | On first use a directory's children become the first 128 entries a scan finds, in order and with their names; every node made shows its entry's kind and first cluster, and the entry's size in both places where a node keeps it; other directories and all entries on disk stay, and directories that agreed with a scan still do. |
| FatDirs.Lookup | kernel/fat32.c:373-382 | The first child with that name; NULL exactly if there is none; nodes made on the way show what their entries say, sizes included. |
| FatDirs.LoadedComplete | kernel/fat32.c:351-362 | After loading, every entry of the directory has its node among the children if and only if there are at most 128. |
| FatDirs.LoadedTracked | kernel/fat32.c:285-367 | Loading a directory of at most 128 entries without long names makes its children agree with the disk. |
| FatDirs.FreshScanAgrees | kernel/fat32.c:285-367 | A complete cache with matching names and sizes, in a directory without hidden entries of the driver's, shows the same set of name, kind, first cluster, and both copies of the size as scanning the directory afresh. |
| FatCreate.FindSlot | kernel/fat32.c:614-665 | The first free entry of the directory, which grows by one zeroed cluster if and only if it has none; fails only when no cluster is free, changing nothing. |
| FatCreate.DotsRead | kernel/fat32.c:589-612 | A new directory's cluster holds an entry of a single dot for the directory itself, one of two dots for its parent, both padded with spaces, and zero bytes behind them. |
| FatCreate.DotsHidden | kernel/fat32.c:589-612 | A new directory's first cluster, with its two dot entries, is well formed and a scan finds nothing in it. |
| FatCreate.MadeEntryShows | kernel/fat32.c:623-634 | The entry written for a name shows up in a scan if and only if nothing comes before the name's last dot, or what does starts neither with a dot nor with 0xE5. |
| FatCreate.DottedNames | kernel/fat32.c:623-634 | So ".foo" is shown and ".a.b" is not. |
| FatCreate.NameComesBack | kernel/fat32.c:586-587 | The cached name equals the name a scan gives the new entry if and only if it is a lower-case 8.3 name. |
| FatCreate.Abandon | kernel/fat32.c:667-670 | A new directory that finds no slot is undone: the tree and the chains are those from before the call, and at most one cluster is free. |
| FatCreate.Create | kernel/fat32.c:579-682 | For every name and every directory: the new node, and exactly one new entry on disk, the one made for the name, in the first free slot; or NULL for a non-directory, a name taken, or fewer free clusters than a new directory and a full parent need, and then nothing changed; otherwise no other child had the name, and exactly those clusters are taken from the free ones. A new directory's cluster holds its two dot entries, for itself and its parent, and zeros. Every other entry and every file's bytes stay; the chains gained are exactly the new directory's and the parent's own growth; the parent lists the node if and only if it had room; a chain is lost if and only if this made a directory whose entry is hidden; directories that agreed with a scan still do, a new one at once, and the parent if and only if it lists the node, the entry shows, and the name comes back. |
| FatCreate.CreatedUntracked | kernel/fat32.c:614-682 | An entry that is hidden, reads back differently, or belongs to an unlisted node ends the parent's agreement with a scan. |
| FatUnlink.RemoveChild | kernel/fat32.c:712-720 | The shifting loop removes exactly that child and keeps the order of the others. |
| FatUnlink.Unlink | kernel/fat32.c:688-727 | Refused exactly for directories that have children, which for one not loaded yet means that a scan finds something in it; otherwise the tree is the old one without this entry and this chain, the node is gone from its parent, nodes whose entries were in the chain have none any more, other files keep their bytes, other directories still agree with a scan, and no chain is lost exactly if neither the entry nor any left in the freed chain refers to another one. |
| FatUnlink.UnlinkLeakFree | kernel/fat32.c:688-727 | In a tree without lost chains, unlinking loses none if and only if neither the entry nor any entry in the chain that goes refers to another chain. |
| FatUnlink.FirmLosesNone | kernel/fat32.c:688-727 | For an entry that shows it is only the chain that counts: that no entry in it refers to a chain. |
| FatUnlink.EmptyHoldsNone | kernel/fat32.c:693-696 | That is so for every file, and for every directory without children whose cache is complete. |
| FatRuns.Step | kernel/fat32.c:403-727 | One operation of a client keeps the whole invariant and every file's bytes but its own, keeps every directory's agreement with the disk unless it adds an entry that does not read back, keeps the two copies of every size in step, loses no chain under the conditions of a run, returns the slice read, the exact number of bytes written, the first child of the name, the node made, or the cause of a refused unlink, and says why a creation came to nothing. |
| FatRuns.Run | kernel/fat32.c:285-727 | Over every run of reads, writes, lookups, creations with any names in any directories, and unlinks, out-of-space runs included: no byte outside the table's entries and the clusters is ever written, nor any reserved bit; the allocation invariant and the tree invariants are kept; the two copies of every size stay in step; every file known with zero bytes beyond its end reads as its own writes left it, whatever else was read, written, made or unlinked in between; and if at the start no chain was lost and every directory either had all its entries in the cache or showed at most 128, that is so at the end, provided creations were preceded by `childcount` and made entries that show. |
| FatRuns.MountedLossless | kernel/fat32.c:767-770 | For a volume just mounted without lost chains that starting condition says that every directory of the tree shows at most 128 entries. |
| FatRuns.RunThenList | kernel/fat32.c:285-727 | After any run, a directory that agreed with a scan before, was not unlinked, and got only entries with lower-case 8.3 names that show, while it had room, lists exactly what scanning its bytes afresh finds. |
| FatLoss.OverfullStrands | kernel/fat32.c:351-362 | Entries beyond the first 128 have no node once the directory is loaded. |
| FatLoss.LoseChain | kernel/fat32.c:688-727 | Unlinking the listed children of a directory with more than 128 files and then the directory succeeds and leaves a chain allocated that nothing refers to. |
| FatOverfull.OverfullIsSound | kernel/fat32.c:351-362 | There is a well-formed tree without lost chains in which a directory has 129 files of one cluster each. |
| FatOverfull.MountAndLose | kernel/fat32.c:688-770 | Mounting a volume that holds this tree, loading its root, and unlinking the listed files and then the directory loses a chain. |
| FatLoss.HideDirectory | kernel/fat32.c:579-682 | Creating a directory ".a.b" on a volume without lost chains loses its cluster, every time it succeeds. |
| FatLoss.SlotReused | kernel/fat32.c:620-645 | The slot that an entry marked deleted at birth went into is where the next entry goes. |
| FatLoss.ShareEntry | kernel/fat32.c:620-645 | So a file whose name starts with 0xE5 and the file made after it have one entry on disk. |
| Ramfs.RamFile.Read | kernel/ramfs.c:123-134 | The matching slice of the content for every offset and count. |
| Ramfs.RamFile.Write | kernel/ramfs.c:141-176 | Complete or refused, the latter exactly past 512 KiB or without a buffer; the content is overwritten with zero-filled gaps, across growth of the buffer, whose new size is exact. |
| Ramfs.RamWriteIsOverwrite | kernel/ramfs.c:141-176 | A write is the plain overwrite if and only if it has bytes or does not start past the end. |
| Ramfs.GrownCapacity | kernel/ramfs.c:150-154 | The capacity after the smallest number of doublings, at least one, that makes room for the write, cut at the limit. |
| FileMachine.ChunksConcatenate | kernel/vfs.c:150-156 | Reads of any positive sizes until one delivers nothing deliver the content from the starting position on. |
| Vfs.Descriptors.AllocFd | kernel/vfs.c:75-78 | The lowest free descriptor from 3 on; -1 exactly when all are used. |
| Vfs.Descriptors.Open | kernel/vfs.c:131-139 | One free descriptor at the start of the file, or at its end for appending; no other changes. |
| Vfs.Descriptors.OpenTruncated | kernel/vfs.c:131-139 | Opening with VFS_O_TRUNC sets the size shown to 0 and nothing else: the file keeps its bytes. |
| Vfs.Descriptors.Rewrite | kernel/vfs.c:119-165 | Opening so, writing from the start, and closing leaves exactly the bytes written if and only if the file was not longer before; the size shown is that of the bytes written. |
| Vfs.Descriptors.LoadedFatFile | kernel/fat32.c:255-278 | A FAT file that loading its directory has found is as long as its entry and its node say, and is in good order if and only if the bytes beyond its end are zero. |
| Vfs.Descriptors.OpenFound | kernel/vfs.c:119-139 | Looking a file on disk up and opening it gives a free descriptor at the start or the end of what is on disk, in good order if tails on the volume are zero; or the cause: no such name, a directory, or no free descriptor. |
| Vfs.Descriptors.Read | kernel/vfs.c:150-156 | The slice of the content at the position, which is the abstract file's result on either filesystem; the position moves by the bytes delivered, other descriptors stay. |
| Vfs.Descriptors.Write | kernel/vfs.c:159-165 | The number of bytes accepted: all if the end is within 512 KiB and the RAM file has or gets its buffer, or fits into the FAT file's own and the free clusters; else what a FAT file still holds, and nothing on a RAM file. The position moves by that number. Within 32 bits the content is overwritten by the bytes accepted, with the node's two sizes in step; a write of nothing moves the end of a RAM file only. All other FAT files in good order stay so, with the bytes they had. |
| Vfs.Descriptors.Seek | kernel/vfs.c:168-179 | The new position for each origin, not below 0; a bad origin changes nothing. |
| Vfs.Descriptors.Run | kernel/vfs.c:150-179 | A run of calls returns what the abstract file returns, up to the first write that is cut short, which fills a FAT file up to its limit and leaves a RAM file alone; one is cut short if and only if some write ends beyond the file's limit, which no call of the run changes, or a RAM buffer is not granted. |
| Vfs.Descriptors.RunBoth | kernel/vfs.c:150-179 | The same calls on a RAM file and a FAT file with equal content and position return the same results and leave equal states if all writes end within 512 KiB and within the room of the FAT file; with all buffers granted, only then. |
| Vfs.Descriptors.RunFresh | kernel/vfs.c:119-179 | So do the same calls on a RAM file and a FAT file that were just created and opened: both return what an empty abstract file returns. That they cannot be created and opened means that the name is taken, the parent is no directory, it is full and no cluster is free, or there are not two free descriptors. |
| VfsPath.NextComp | kernel/vfs.c:24-31 | The next component after any slashes, whole or cut at 63 bytes, and where it ends; at the end of the path the buffer is left as it was. |
| VfsPath.Namespace.Resolve | kernel/vfs.c:33-61 | For every path: the steps for its components one after another, mounts included, and one step more with what the component buffer still holds if the path has no components, ends in "." or "..", or has a slash at its end. An absolute path in normal form leads where looking its components up leads, and a mere name to the child of the current directory; what is mounted on either takes its place. |
| VfsPath.Namespace.ResolveParent | kernel/vfs.c:63-73 | The directory that the part before the last slash leads to, or the root or the current directory itself, and what is behind that slash, cut at 63 bytes. |
| VfsPath.Namespace.Mkdir | kernel/vfs.c:182-192 | Every error code exactly in its case, without change; otherwise the new directory is added to that parent, and its absolute path in normal form leads to it, unless it was made in the root while something is mounted there. |
| VfsPath.DotsAtEnd | kernel/vfs.c:43-51 | A path that ends in ".." leads where it should if and only if that is the root, or outside the tree. |
| VfsPath.SlashAtEnd | kernel/vfs.c:52-58 | A path that ends in a name and a slash leads where it should if and only if that is nowhere. |
| VfsPath.OnlySlashes | kernel/vfs.c:39-47 | A path of slashes only leads to the root if and only if the buffer was empty or held "." or "..". |
| VfsPath.LeadAstray | kernel/vfs.c:33-61 | An input for each of the three on a small tree. |
| VfsPath.Namespace.GetCwd | kernel/vfs.c:235-251 | The last 16 names on the way from the root, a slash before each, cut where the buffer ends and never behind a slash; a single slash if that leaves nothing. |
| VfsPath.Namespace.CwdRoundTrip | kernel/vfs.c:235-251 | Resolving the path that getcwd spells leads back to the current directory. |
| VfsPath.Namespace.Create | kernel/ramfs.c:87-118 | A node that its parent finds under its name, with no children and nothing mounted, last among its siblings, in a tree that stays a tree; refused for a name taken, a full directory, or no memory. |
| VfsPath.LookupGrown | kernel/ramfs.c:87-118 | After a creation the new name leads to the new node and all other names lead where they led. |
| VfsPath.Namespace.Unlink | kernel/ramfs.c:183-212 | Refused exactly for directories with children, changing nothing; otherwise exactly this node is gone, from its parent's children too, and the tree stays a tree. |
| VfsPath.LookupPruned | kernel/ramfs.c:183-212 | After a removal the name leads nowhere and all other names lead where they led. |
| Pmm.PageAllocator.Init | kernel/pmm.c:84-201 | The free frames are exactly those of usable regions that hold no byte of the bitmap itself. |
| Pmm.FreeAfterInit | kernel/pmm.c:84-201 | These are all frames inside usable regions that share no byte with the bitmap. |
| Pmm.PageAllocator.AllocPage | kernel/pmm.c:212-222 | The lowest free frame leaves the free set, and the count follows; 0 without change when the set is empty. |
| Pmm.PageAllocator.FreePage | kernel/pmm.c:230-234 | The frame joins the free set; the cached count stays right if and only if it was in use. |
| Pmm.PageAllocator.Run | kernel/pmm.c:212-234 | Over every run of a client that gives back what it got, the bitmap and the grants are those of the set machine: the lowest free frame each time, none exactly when nothing is free. |
| Pmm.RunConserves | kernel/pmm.c:212-234 | Over every run no frame is free and held at once, and none appears or is lost. |
| Pmm.NotGrantedTwice | kernel/pmm.c:212-234 | A frame is not handed out again before it was given back. |
| Pmm.BitmapNeverHandedOut | kernel/pmm.c:182-201 | No run after initialisation hands out a frame with a byte of the bitmap in it. |
| PageTables.IndicesOfAddress | kernel/vmm.c:32-36 | The four shifted and masked indices are the base-512 digits of the page number. |
| PageTables.NoSharing | kernel/vmm.c:23-30 | No table is shared: two entries that lead to one table are one entry. |
| PageTables.TablesAllowWriting | kernel/vmm.c:32-34 | No table entry ever forbids writing: whether a page may be written is left to its last-level entry. |
| PageTables.AddressSpace.GetOrCreateTable | kernel/vmm.c:23-30 | The next table on the path, created if absent; no page's mapping or permission changes, nor any frame that is no table; 0 exactly when a frame is needed and none is free. |
| PageTables.AddressSpace.MapPage | kernel/vmm.c:32-50 | Succeeds exactly if there are frames for the missing tables; then this page and no other is remapped, to this frame with exactly these flags; it may be written on all four levels if and only if the flags say so, and accessed by the user if and only if they say so and the tables that were there already let the user through; the frames used are exactly the missing tables, and of all memory only frames that are tables then change. |
| PageTables.AddressSpace.UserPageNextToKernels | kernel/vmm.c:32-50 | A user page mapped below a table that was made for a kernel page is out of the user's reach. |
| PageTables.AddressSpace.UnmapPage | kernel/vmm.c:52-68 | This page is unmapped and every other page keeps its mapping and permissions; of all memory only tables change. |
| PageTables.AddressSpace.VirtToPhys | kernel/vmm.c:70-88 | The frame's address plus the page offset for a mapped address, 0 for every other. |
| PageTables.AddressSpace.Init | kernel/vmm.c:94-136 | Succeeds if and only if every page is then mapped as boot means it to be, for the kernel to read and write; otherwise memory ran out. Of all memory only the tables made change. |
| PageTables.BootIsKernelData | kernel/vmm.c:107-136 | After boot every mapped page may be written, and none be accessed by the user. |
| PageTables.KernelTranslates | kernel/vmm.c:131-136 | After boot each of the 64 MB from the kernel's virtual base translates to the same offset from its physical base. |
| PageTables.WindowTranslates | kernel/vmm.c:107-117 | After boot each address that shares a frame with a region of the memory map is found at its offset in the big window, unless that page belongs to the kernel's. |
| PageTables.NothingElseMapped | kernel/vmm.c:94-136 | A page in neither window is not mapped. |
| PageTables.AddressSpace.MapHeap | kernel/heap.c:154-161 | The heap's pages get distinct frames that were free and are no tables; succeeds if and only if all of them are mapped in order, for the kernel to read and write, and every other page as before; of all memory only tables change. |
| HeapMemory.DecodeEncode | kernel/heap.h:45-51 | A packed header of five little-endian fields reads back as it was written. |
| HeapMemory.HeaderFields | kernel/heap.h:45-51 | The five packed fields lie at bytes 0, 8, 9, 13 and 21 of a header. |
| HeapSteps.HeadersJoined | kernel/heap.c:114-140 | The three header writes of a join turn the headers of a block list into those of the list with the two blocks joined, links included. |
| HeapSteps.HeadersSplit | kernel/heap.c:79-98 | The three header writes of a split turn them into those of the list with the block cut. |
| HeapBlocks.DataWritten | kernel/heap.c:209-213 | Bytes written inside a live block leave every header and all other live data as they were. |
| HeapBlocks.LiveDisjoint | kernel/heap.c:179-203 | Two live allocations never overlap; a header lies between them. |
| HeapLayout.MallocKeeps | kernel/heap.c:179-203 | Allocating keeps the heap tiled and coalesced and makes one more block live. |
| HeapLayout.FreeKeeps | kernel/heap.c:219-235 | Freeing keeps it tiled and coalesced and makes one block less live. |
| HeapLayout.MallocUses | kernel/heap.c:179-203 | Allocating puts exactly the size of the block handed out in use. |
| HeapLayout.FreeReturns | kernel/heap.c:219-235 | Freeing takes exactly the block's size out of use. |
| HeapLayout.MallocThenFree | kernel/heap.c:179-235 | Allocating and at once freeing restores the block list. |
| HeapLayout.Quiescence | kernel/heap.c:219-235 | Freeing everything, in any order, ends with one free block spanning the heap. |
| KernelHeap.Heap.NothingLeft | kernel/heap.c:219-235 | When no allocation is live the heap is one free block spanning it. |
| KernelHeap.Heap.FreeAll | kernel/heap.c:219-235 | Freeing live allocations in any order takes away exactly them; freeing all ends with one free block spanning the heap. |
| KernelHeap.Heap.Balanced | kernel/heap.c:267-279 | Bytes in use, free bytes and 29 bytes for each block make up the heap. |
| HeapLayout.NothingFits | kernel/heap.c:179-203 | A request is refused if and only if no run of adjacent free blocks has room for it. |
| HeapLayout.RoundedCovers | kernel/heap.c:179-184 | Rounding gives a multiple of 16 that covers the request if and only if that is not within 15 of 2^64; there it wraps to 0. |
| KernelHeap.Heap.SplitBlock | kernel/heap.c:79-98 | Splits exactly if the rest is worth a block; live data stays. |
| KernelHeap.Heap.Coalesce | kernel/heap.c:114-140 | The freed block and its free neighbours become one; live data stays; where the freed block's header was, none of a live block is left. |
| KernelHeap.Heap.KMalloc | kernel/heap.c:179-203 | First fit on the bytes of memory: a new allocation of at least the rounded size, disjoint from all others, whose bytes stay; NULL and no change exactly if nothing fits or the size is 0; what is handed out is smaller than the request if and only if that is within 15 of 2^64. |
| KernelHeap.Heap.KZalloc | kernel/heap.c:209-213 | The same, with the bytes asked for zero. |
| KernelHeap.Heap.KFree | kernel/heap.c:219-235 | Exactly this allocation goes and all others keep their bytes; it halts if and only if the pointer is no live allocation; and afterwards nothing in front of the pointer looks like a live header. |
| KernelHeap.Heap.FreeTwice | kernel/heap.c:219-235 | A second release of the same pointer halts, whatever the block was joined with. |
| KernelHeap.Heap.KRealloc | kernel/heap.c:241-261 | A block that is large enough stays, untouched. Otherwise the request fails, changing nothing, if and only if first fit finds no block; else the first fit gets the data, the old block is freed, and all other allocations keep their bytes. A size of 0 frees, and a NULL pointer allocates. |
| KernelHeap.Heap.GetUsed | kernel/heap.c:267-272 | The sum of the live blocks' sizes. |
| KernelHeap.Heap.GetFree | kernel/heap.c:274-279 | The sum of the free blocks' sizes. |

## Findings

Where the code does not do what one would expect, the contract says exactly when it does.

| what fails | source | when | where it is stated |
|---|---|---|---|
| A FAT32 write is not the plain overwrite | kernel/fat32.c:552-571 | if and only if the new end reaches 2^32, or the chain holds other bytes than zero between the old end and the offset | `FatFileOps.ContentWritten` |
| A RAM file grows by a write of no bytes | kernel/ramfs.c:141-176 | if and only if it starts past the end; the FAT32 driver ignores such a write | `Ramfs.RamWriteIsOverwrite` |
| Opening with VFS_O_TRUNC does not shorten a file | kernel/vfs.c:136 | always; rewriting it then leaves just what was written if and only if the file was not longer before | `Vfs.Descriptors.OpenTruncated`, `Vfs.Descriptors.Rewrite` |
| Unlinking a directory loses chains | kernel/fat32.c:688-727 | if and only if an entry left in it refers to one; over runs whose creations are checked and show, this takes a directory of more than 128 entries | `FatUnlink.UnlinkLeakFree`, `FatRuns.Run`, with a run that does it in `FatOverfull.MountAndLose` |
| Creating loses a chain | kernel/fat32.c:589-634 | if and only if it makes a directory whose entry no scan shows, such as ".a.b" | `FatCreate.Create`, `FatLoss.HideDirectory` |
| Writing loses a chain | kernel/fat32.c:470-485 | if and only if the file gets its first cluster and its entry is hidden or has another node's chain | `FatDriver.Driver.Write` |
| Two files have one entry on disk | kernel/fat32.c:622-645 | after a name that starts with 0xE5, for the next file made there | `FatLoss.ShareEntry` |
| A directory's children are not what a scan finds | kernel/fat32.c:351-362 | after loading, if and only if it has more than 128 entries; after a creation, if and only if the directory was full, the entry is hidden, or its name does not come back | `FatDirs.LoadedComplete`, `FatCreate.Create` |
| The name in the cache is not the one a remount shows | kernel/fat32.c:586-587 | if and only if it is no lower-case 8.3 name | `FatCreate.NameComesBack` |
| A new entry is invisible to the driver that wrote it | kernel/fat32.c:623-634 | if and only if something comes before the name's last dot that starts with a dot or with 0xE5 (".a.b", not ".foo") | `FatCreate.MadeEntryShows`, `FatCreate.DottedNames` |
| A path that ends in ".." goes up once more | kernel/vfs.c:43-51 | unless it has led to the root, or nowhere in the tree | `VfsPath.DotsAtEnd` |
| A path of slashes only looks a leftover component up | kernel/vfs.c:33-61 | if and only if the buffer holds a name from an earlier use of that stack space | `VfsPath.OnlySlashes` |
| A path that ends in a name and a slash looks the name up twice | kernel/vfs.c:52-58 | always; it then leads elsewhere unless it led nowhere | `VfsPath.SlashAtEnd` |
| A directory made in the root is not found there | kernel/vfs.c:63-73 | if and only if something is mounted on the root, which `vfs_resolve` follows and `resolve_parent` does not | `VfsPath.Namespace.Mkdir` |
| `kmalloc` hands out less than was asked for | kernel/heap.c:179-184 | if and only if the request is within 15 of 2^64 and any block is free: it rounds to 0, and the block has at most 93 bytes | `KernelHeap.Heap.KMalloc`, `HeapLayout.RoundedCovers` |
| The page allocator's count is wrong after a release | kernel/pmm.c:230-234 | if and only if the frame was free already | `Pmm.PageAllocator.FreePage` |
| A page mapped for the user cannot be accessed by the user | kernel/vmm.c:23-30 | if and only if a table on its path was there before and was made for kernel pages only | `PageTables.AddressSpace.MapPage`, `PageTables.AddressSpace.UserPageNextToKernels` |
| Frame 0, if it is usable, is handed out as NULL | kernel/pmm.c:212-222 | when it is the lowest free one | `Pmm.PageAllocator.AllocPage` |

## Left out

- FatDriver.Driver.Write: the directory of the node is still in the cache, which a client that holds a node of an unlinked directory must see to; the code would edit an entry in a freed cluster.
- FatCreate.CreateNew: node allocation succeeds; in the code a failed one returns NULL with the entry already on disk.
- FatDirs.Load: node allocation succeeds here too; in the code an entry whose node cannot be allocated is skipped.
- FatLongNames.LfnToAscii: requires that the entry's characters fit the buffer, as well-formed entries do; other entries are not modelled.
- FatUnlink.Unlink: the directory of the node is still in the cache, as for writes; nodes are named by numbers that are not reused while held; descriptors that still refer to an unlinked node, and unlinking the current directory, are not modelled.
- FatDriver.Driver.constructor: a volume that is already well formed; parsing the boot sector (kernel/fat32.c:741-765) is left out.
- FatRuns.Run: offset plus length of a write stays below 2^64, as buffers in memory do, and names hold no zero byte, as C strings do.
- Vfs.Descriptors.Open: resolving the path and creating the file are separate here (`Namespace.Resolve`, `Namespace.ResolveParent`, `Create`); VFS_O_TRUNC is `OpenTruncated`; the other flags, which nothing reads, are left out.
- Vfs.Descriptors.OpenFound: the tails of all files on the volume are zero, as this driver leaves them; other drivers need not.
- Vfs.Descriptors.Run: writes are not empty and end below 2^32, and positions stay below 2^63, where the two filesystems agree.
- VfsPath.Namespace.Create: names that a path component can be; other names would never be found again.
- VfsPath.Namespace.Unlink: not the root, which the caller refuses, nor the current directory.
- VfsPath.Namespace.Mkdir: paths shorter than the buffer of 256 bytes, a last component that can be a name, and mounts of nodes that are there.
- VfsPath.Namespace.CwdRoundTrip: for at most 16 levels, names that were not cut, room in the buffer, and nothing mounted on the way.
- KernelHeap.Heap.KFree: bytes in front of a pointer that was never handed out do not look like a live header; such forged headers are not modelled.
- KernelHeap.Heap.KZalloc: requests that round up without wrapping; `KMalloc` covers the others, for which the code would go on to write past the block it got.
- KernelHeap.Heap.KRealloc: the same.
- PageTables.AddressSpace.MapPage: physical addresses are page-aligned and below 2^52, and flags leave the address bits alone, as every caller has it; the bit operations are written as arithmetic on their disjoint fields.
- PageTables.AddressSpace.Init: loading CR3, `invlpg` and the window through which the kernel reaches physical memory are left out; tables are indexed by frame.
- Pmm.PageAllocator.Init: usable regions of the memory map are page-aligned and do not overlap, and none ends within a page of 2^64, as the boot protocol promises.
- Sector transfer itself (`ata.c`) and its errors: transfers always succeed.
- The second copy of the table and the FSInfo sector, which the driver does not maintain.
- `vfs_mount` itself, which sets two pointers: a node may have anything mounted on it here.
- `readdir`, `childcount` and `stat`, which read what `Load`, `Lookup` and the nodes already give.
- Scheduler, interrupts, console, GUI and shell.
