# The kernel's file system, network queue, paging, loader, scheduler and PCI walk in Dafny

This project models the parts of the kernel with the most state and proves what they are for.

* **FAT32 driver and file system calls.** `Volume` has the disk as a sequence of sectors and shows that it
  refines a table of entries and a sequence of clusters, all copies of the table being identical. `Chains` and
  `ClusterOps` add who owns which cluster, `Contents` and `FileIo` bytes at positions inside chains, `Names`,
  `Slots`, `Directory` and `Listing` the 32-byte slots, `Catalog` and `ObjectStore` the map from slots to byte strings,
  `Nodes` the map from the names of every directory to documents and folders, and `FileSystem` and `Syscalls` the
  operations that a user sees, as updates of that map. `Boot` and `Format` show that a
  formatted disk satisfies the invariant that every operation keeps. `RoundTrip` and `TwoFiles` hold client programs
  with the end-to-end results, `Capacity` the clusters they take, `Paths` the current directory and its printed path.
* **ARP table and pending packets.** `Net` keeps the table, the queue and a log of sent frames, with a ledger of
  accepted packets that makes "exactly once" a statement about every run. `Checksum` is the Internet checksum.
* **Paging and program loading.** `Paging` has directory, pointer table and page tables as bytes in a 4 GiB
  memory next to everything else; `Loader` reads an ELF file through the file system and maps it; `Elf` has
  the file format on its own and says what becomes of a file in it.
* **Scheduler.** `Scheduler` has the tasks as a linked ring, the choice of the next task, and fairness over runs.
* **PCI.** `Pci` has the mutually recursive bus walk over an arbitrary configuration space.

Objects that the kernel changes in place are classes (`Vol`, `File`, `Fs`, `Kernel`, `Cwd`, `Stack`, `Pager`, `Task`,
`Tasks`, `Walk`); their ghost fields hold the abstract state, and lemmas about that state carry the proofs.
`dafny verify dfyconfig.toml` checks everything.

## Results about the code as it is

Several properties one would expect hold only under a condition; the condition is proved to be exact.

* A read request whose end wraps at 2^32 is clamped wrongly and reads past the file (`FileIo.ReadCountExact`, `FileIo.ReadPastEnd`).
* A name of 12 characters, the longest 8.3 name, is cut when the path is recorded; going up from below then fails, or follows
  the cut name into whatever it names (`Paths.FullNamesLost`, `Paths.FullNameStrands`, `Paths.Cwd.Chdir`).
* Directory listing reports entries behind a deleted slot more than once (`Listing.OnceIffDense`, `Listing.GapRepeats`).
* Printing a name and reading it back is the identity exactly for canonical names (`Names.DisplayRoundTrip`).
* Formatting makes the tables at least three times as long as the clusters need (`Format.TablesOversized`).
* `ip_init` leaves the counter of waiting packets alone (`Net.Stack.Init`).
* The start-up loop that should map everything from 0xC0000000 on maps only from 0xF0000000 on and overwrites page 0 (`Paging.MapIdentity`).
* A segment that starts inside a page may get a page too few, and its data may run over its block (`Loader.CoveredIffFits`,
  `Loader.StraddlingLost`, `Loader.InsideIffFits`).
* `task_schedule` never returns exactly when nobody can run (`Scheduler.Tasks.Schedule`, `Scheduler.WalkForever`).
* Every write clears the top four bits of the raw entry, where Microsoft's FAT32 File System Specification 1.03 asks to preserve
  them; they are kept exactly when they were 0 (`Volume.Vol.WriteFat`, `Volume.TopBitsKept`, `Volume.TopBitLost`).
* A directory made under a name that exists may come to stand before the older entry (`Nodes.EnteredFolder`,
  `Nodes.DeletedSlotHides`); the recorded path survives all the same (`Paths.SysMkdir`).
* A write of no bytes at the end of a full cluster takes a cluster if there is one (`FileIo.Write`, `Capacity.AskedStep`).
* Once sixteen names are recorded, the path is never right after entering one more directory (`Paths.Cwd.Chdir`, `Paths.DownAndUp`).

## Model

| member | source | states |
|---|---|---|
| `Volume.Vol.ReadFat` | src/fs/fat32.c:18-31 | on a disk that refines a table, the sector-and-offset read returns the table's entry, and the bad-cluster mark outside the counted clusters |
| `Volume.Vol.WriteFat` | src/fs/fat32.c:34-57 | changes exactly one entry of the abstract table (its low 28 bits), leaves every data cluster alone and keeps all on-disk copies of the table identical; in every copy the raw 32-bit word becomes the low 28 bits of the value, so its top four bits are kept if and only if they were 0; refuses exactly the cluster numbers out of range |
| `Volume.PatchedMirrored` | src/fs/fat32.c:41-54 | patching the same sector of every copy keeps the copies identical, sector by sector |
| `Volume.PatchedEntry` | src/fs/fat32.c:34-57 | after the patch every entry but the written one reads as before, also the 127 others in its sector |
| `Volume.TopBitsKept` | src/fs/fat32.c:34-57 | after a write the reserved top four bits of the raw entry, in any copy, are what they were if and only if the raw entry was below 0x10000000 |
| `Volume.TopBitLost` | src/fs/fat32.c:34-57 | writing an end mark over the raw entry 0x80000000 stores 0x0FFFFFFF and clears its top bit |
| `Volume.ClusterLbaBounds` | src/fs/fat32.c:90-96 | the sectors of a counted cluster lie behind the tables and inside the volume |
| `Volume.ClusterLbaDisjoint` | src/fs/fat32.c:90-96 | different clusters have disjoint sectors |
| `Volume.Vol.ReadCluster` | src/fs/fat32.c:100-110 | returns the abstract bytes of the cluster, or fails exactly out of range |
| `Volume.Vol.WriteCluster` | src/fs/fat32.c:113-123 | replaces the bytes of one cluster and of no other, without touching the tables |
| `Volume.ClusterWritten` | src/fs/fat32.c:113-123 | writing the sectors of one cluster refines replacing it in the abstract data |
| `ClusterOps.AllocCluster` | src/fs/fat32.c:60-79 | for any hint: returns 0 exactly when no cluster is free, otherwise the first cluster with entry 0 from the hint on, or from cluster 2 for a hint outside the table, wrapping around at its end, now an end of chain, with no other entry changed |
| `ClusterOps.FirstIsNext` | src/fs/fat32.c:60-79 | nearest in cyclic distance from where the search starts is the same as: no free entry on the way from the hint |
| `ClusterOps.FreeClusterChain` | src/fs/fat32.c:81-88 | terminates on every table, cyclic or cross-linked, with the table of `FreeFrom` |
| `Chains.FreesExactlyReachable` | src/fs/fat32.c:81-88 | on every table, an entry is freed exactly when its cluster can be reached from the start, and no other entry changes |
| `Chains.FreeChainExact` | src/fs/fat32.c:81-88 | on a proper chain, freeing from its k-th cluster frees exactly the tail |
| `Chains.ChainAcyclic` | src/fs/fat32.c:81-88 | a chain that ends in an end mark never visits a cluster twice |
| `Chains.OwnedDisjoint` | src/fs/fat32.c:60-88 | the ownership invariant means: live chains share no cluster, do not repeat one, stay in range and hold no free one |
| `Chains.OwnedNew` | src/fs/fat32.c:60-79 | allocating a free cluster as a new chain keeps the ownership invariant |
| `Chains.OwnedAppend` | src/fs/fat32.c:553-562 | linking a freshly allocated cluster behind a chain keeps the ownership invariant |
| `Chains.OwnedFree` | src/fs/fat32.c:81-88 | freeing one chain keeps the ownership invariant of all others |
| `ClusterOps.FreeIsTheRest` | src/fs/fat32.c:60-88 | free clusters are exactly those that belong to no live chain and were never lost; live chains partition the rest |
| `FileIo.Seek` | src/fs/fat32.c:607-629 | sets the position modulo 2^32 to the offset from 0 for whence 0, from the position for 1 and from the size for 2; fails, leaving it, exactly for a closed handle or another whence |
| `FileIo.ReadCountExact` | src/fs/fat32.c:495-535 | a read delivers min(size, file size - position) bytes if and only if the clamp's sum does not wrap, the position is past the end, or the chain has no slack |
| `FileIo.ReadPastEnd` | src/fs/fat32.c:502 | a concrete wrapped request that reads past the end of the file into the slack |
| `FileIo.Read` | src/fs/fat32.c:495-535 | clamped request, walk to the position and copy loop together return the slice of the chain's bytes at the position, and advance by its length |
| `FileIo.ReadClusters` | src/fs/fat32.c:512-532 | the copy loop delivers the wanted bytes or as many as the chain still holds, whichever is less |
| `FileIo.NextCluster` | src/fs/fat32.c:591-600 | follows the chain or extends it by one cluster; gives up only when nothing is free |
| `FileIo.Write` | src/fs/fat32.c:538-604 | at the level of chains: the body becomes the old one (grown where needed) with the written bytes spliced in at the position; the chain becomes exactly as long as the write reaches, or stays if it was longer; short only when no cluster is left and the chain is used up to the last byte; all other clusters keep their bytes |
| `FileIo.WriteClusters` | src/fs/fat32.c:567-601 | the copy loop's invariant: after each block, the body is the old one with the bytes so far spliced in, the chain has grown to the block's cluster and no further, and only this chain's clusters changed |
| `FileIo.StretchedLast` | src/fs/fat32.c:567-601 | when the last block went to the k-th cluster, k + 1 is the number of clusters the write asks for |
| `FileIo.PutBlock` | src/fs/fat32.c:568-580 | a block is fetched, overlaid and stored so that the bytes around the chunk survive, although a stale buffer is used when the chunk covers the cluster |
| `Names.ToShortName` | src/fs/fat32.c:136-166 | the search for the last dot and the two copy loops give, byte by byte, eight bytes of the part before the last dot and three of the part behind it, in upper case, padded with 0x20; no other 11 bytes fit that description |
| `Names.ShortNameIgnoresCase` | src/fs/fat32.c:136-166 | names that differ in letter case only, each pair of bytes being equal or a letter of 0x61 to 0x7A and the byte 32 below it, have the same 11 bytes |
| `Names.ShortNameTells` | src/fs/fat32.c:136-166 | names of at most eight and three characters without spaces have the same 11 bytes if and only if they differ in letter case only |
| `Names.ShortNameMeans` | src/fs/fat32.c:136-166 | the description of the 11 bytes by the name's bytes is met, and met by nothing else; none of them is a lower-case letter |
| `Names.DisplayName` | src/fs/fat32.c:706-715 | the printed name is the trimmed stem, with a dot and the trimmed extension if there is one |
| `Names.DisplayRoundTrip` | src/fs/fat32.c:136-166 | the printed form of 11 bytes maps back to them if and only if they are canonical (no lower case, no blank inside a part, no dot in the extension, and none in the stem without one) |
| `Slots.FindIsFirst` | src/fs/fat32.c:169-210 | under the zero-tail invariant, lookup returns an index if and only if it is the first live slot with that name, and -1 if and only if there is none |
| `Slots.DeletedNameNotFound` | src/fs/fat32.c:188-196 | a name whose first byte is the deleted mark, or 0, is never found, in any directory |
| `Slots.SlotFields` | src/fs/fat32.c:188-256 | where the 32 bytes of a slot have the first cluster (bytes 26, 27, 20, 21, lowest first) and the size (28 to 31) |
| `Slots.MakeSlotBytes` | src/fs/fat32.c:230-236 | a new slot has name, attribute and first cluster in it and zeros everywhere else |
| `Slots.SetRefBytes` | src/fs/fat32.c:476-492 | recording first cluster and size leaves every other byte of the slot alone |
| `Slots.FindAfterCreate` | src/fs/fat32.c:214-256 | filling the first vacant slot keeps the zero tail; lookup of the new name finds it unless an earlier match exists, and every other lookup is unchanged |
| `Slots.RoomyFinds` | src/fs/fat32.c:240-249 | a directory grown by a zeroed cluster has a vacant slot and keeps the zero tail and all lookups |
| `Slots.FindAfterSetRef` | src/fs/fat32.c:476-492 | rewriting first cluster and size in a slot changes no lookup |
| `Slots.FindAfterDelete` | src/fs/fat32.c:657-677 | marking a slot deleted keeps the zero tail and every lookup that did not lead to it, and no lookup leads to it any more |
| `Slots.FilledVacancy` | src/fs/fat32.c:214-256 | filling the first vacant slot leaves another one if and only if it was not the last |
| `Slots.GrownVacancy` | src/fs/fat32.c:240-249 | a directory that had to grow for an entry has room for the next |
| `Directory.FindEntry` | src/fs/fat32.c:169-210 | the scan over clusters and slots returns the slot that lookup on the directory's bytes names, and where it is stored |
| `Directory.CreateEntry` | src/fs/fat32.c:214-256 | enters the slot at the first vacant place, growing the directory by one zeroed cluster if it is full; fails, changing nothing, exactly when it is full and no cluster is free |
| `Directory.GrowDirectory` | src/fs/fat32.c:240-249 | the directory's bytes become the old ones followed by a cluster of zeros; fails, changing nothing, exactly when no cluster is free |
| `Catalog.WriteKeeps` | src/fs/fat32.c:538-604 | a write through a handle, also one that gives the file its first cluster, keeps the catalogue invariant |
| `Catalog.TruncateKeeps` | src/fs/fat32.c:435-441 | dropping the chain of a file opened with truncation keeps the invariant, though the slot on disk is still the old one |
| `Catalog.CloseKeeps` | src/fs/fat32.c:476-492 | recording the handle's cluster and size makes slot and file agree again and keeps the invariant |
| `Catalog.UnlinkKeeps` | src/fs/fat32.c:657-677 | removing an unopened file's slot and chain keeps the invariant |
| `Catalog.CreateKeeps` | src/fs/fat32.c:214-256 | entering a new name for a new chain, also into a grown directory, keeps the invariant |
| `Catalog.DirKeeps` | src/fs/fat32.c:639-654 | a freshly zeroed chain named by a directory slot joins the known directories |
| `FileSystem.Fs.Read` | src/fs/fat32.c:495-535 | delivers the bytes of the chain at the position, as many as the clamp says whether or not it wraps; that is the at most `size` bytes of the contents whenever position + size stays below 2^32 or the position is past the end |
| `FileSystem.Fs.Write` | src/fs/fat32.c:538-604 | contents become old[..p] + data[..n] + old[p+n..], n is short only when no cluster is free, the chain takes exactly the clusters that p + n reaches, and every other file and directory keeps chain and bytes; fails exactly for an empty file on a full disk |
| `FileSystem.OverwrittenExact` | src/fs/fat32.c:538-604 | for p <= size the new contents are exactly old[..p] + data + old[p+n..]; only behind a gap are bytes left open |
| `FileSystem.Fs.Open` | src/fs/fat32.c:418-473 | by the bits of the flag byte: a name that is found always opens, keeping its contents if `flags / 8` is even and emptied if it is odd; a name that is not found fails exactly if `flags / 4` is even or there is no room, which changes neither catalogue nor table, and is an empty file otherwise; the position is the size if `flags / 16` is odd and 0 if it is even; the handle speaks for the named slot |
| `FileSystem.OpenedContents` | src/fs/fat32.c:418-473 | what an open does to contents: the opened file keeps them or is emptied, every other file keeps them |
| `FileSystem.Fs.Close` | src/fs/fat32.c:476-492 | the slot on disk takes over the handle's first cluster and size; every file and every lookup stays |
| `FileSystem.Fs.Unlink` | src/fs/fat32.c:657-677 | succeeds exactly when the name is found; the slot is marked deleted, its chain and only its chain is given up |
| `FileSystem.Fs.Mkdir` | src/fs/fat32.c:639-654 | fails, changing nothing, exactly when there is no room; otherwise one more slot names one more, empty, directory and all files keep their contents |
| `Nodes.OpenedNodes` | src/fs/fat32.c:418-473 | the map from names to documents and folders, over all directories: a successful open updates it at the opened name only, to the empty document for a new or truncated file and to what it was otherwise; every other file, name and lookup is unchanged, and every name that led to a directory still does |
| `Nodes.WrittenNodes` | src/fs/fat32.c:538-604 | a write updates the map at the names that lead to the written slot, to its new contents, and nowhere else |
| `Nodes.WrittenOnly` | src/fs/fat32.c:538-604 | the one name that led to the slot is all that a write changes for a user |
| `Nodes.RecordedNodes` | src/fs/fat32.c:476-492 | closing changes the map at no name |
| `Nodes.ErasedNodes` | src/fs/fat32.c:657-677 | unlinking updates the map at the unlinked name only; the name then stands for what the next slot of that name stood for, and for nothing if and only if no second slot had it |
| `Nodes.EnteredFolder` | src/fs/fat32.c:639-654 | mkdir updates the map at the new name only: it stands for a new folder if no slot of that name stands before the first vacant one, and for what it was otherwise; names that led to directories all still do if and only if the new slot does not come to stand before a directory's slot of the same name |
| `Nodes.DeletedSlotHides` | src/fs/fat32.c:639-654 | a directory whose first slot is deleted and whose second names a directory: a second mkdir of that name hides it |
| `Nodes.EnteredFind` | src/fs/fat32.c:214-256 | lookup of the entered name, whether or not a slot had it: the new slot if there was none or the first vacant one stands before it, the old one otherwise |
| `Nodes.ErasedFind` | src/fs/fat32.c:657-677 | after its slot is deleted a name is found no more if and only if no other live slot has it |
| `Nodes.LeadsFromNodes` | src/fs/fat32.c:874-881 | where the map changed at one name only, all names that led to directories still do if and only if that name led to none or stands for the same |
| `FileSystem.Fs.constructor` | src/fs/fat32.c:372-415 | a mounted volume with consistent directories, whatever they hold, satisfies the invariant with no file open |
| `Syscalls.Kernel.AllocFd` | src/user/syscall.c:38-46 | the least unused descriptor, or -1 exactly when all 16 are used |
| `Syscalls.Kernel.Open` | src/user/syscall.c:387-403 | keeps the run invariant; returns a descriptor that speaks for the named file, or -1 exactly when the table is full or the open fails, and then leaves catalogue, table of descriptors and free set as they were; by the bits of the flag byte as in `FileSystem.Fs.Open`; on success the map from names to contents is updated at that name and all other files are untouched |
| `Syscalls.Kernel.Close` | src/user/syscall.c:174-184 | keeps the run invariant; the descriptor becomes unused, no file, no lookup and no name's meaning changes |
| `Syscalls.Kernel.Read` | src/user/syscall.c:186-197 | keeps the run invariant; delivers the bytes of the descriptor's file at its position, -1 exactly for a descriptor not in use |
| `Syscalls.Kernel.Write` | src/user/syscall.c:199-210 | keeps the run invariant; overwrites the descriptor's file, with the map updated at its name only and exactly the clusters taken that the write reaches, and every other slot keeps reference and contents; directories keep their bytes, and every name keeps leading to its file or directory; short only when no cluster is left and the chain is used up |
| `Syscalls.Kernel.Seek` | src/user/syscall.c:212-223 | keeps the run invariant; moves only the position, from the base that whence 0, 1 or 2 names, of its descriptor |
| `Syscalls.Kernel.Unlink` | src/user/syscall.c:225-230 | keeps the run invariant: no descriptor in use loses its file; the map is updated at that name only, which then stands for what the next slot of that name stood for, for nothing exactly when there is none; all other files keep their contents |
| `Syscalls.Kernel.Mkdir` | src/user/syscall.c:232-237 | keeps the run invariant; the map is updated at that name only, which stands for the new, empty directory unless an older slot of the name stands before it; all names that led to directories still do exactly when the new slot hides no directory of the same name; all files keep their contents |
| `Syscalls.SpokenOpen` | src/user/syscall.c:38-52 | opening pairs one more descriptor with one more slot, one to one |
| `RoundTrip.Save` | src/fs/fat32.c:418-604 | open with create and truncate, any sequence of writes and close succeed exactly when a descriptor is free and the free clusters, with those of the overwritten file, cover the data and a full directory's growth; then the name stands for the concatenated chunks, the descriptors are as before, and the free clusters left and whether the directory is full are those reckoned from the state before; successful or not, every other file keeps its bytes and every other name, in every directory, its meaning |
| `RoundTrip.Fill` | src/fs/fat32.c:476-604 | writing the chunks to a file just opened and closing it succeeds exactly within the budget, and leaves what the budget says |
| `RoundTrip.SaveThenLoad` | src/fs/fat32.c:136-166 | end to end: exactly when there is room, reopening under the same name in any letter case and reading from the start returns the saved bytes; every other file and name is untouched |
| `RoundTrip.Append` | src/fs/fat32.c:418-604 | opening an existing file with flags 0x14 (create and append), writing a chunk and closing: the name then stands for the old contents followed by the chunk; every other file and name is untouched; fails only without a descriptor or a free cluster |
| `RoundTrip.SaveThenUnlink` | src/fs/fat32.c:657-677 | conservation: exactly when there is room, create or overwrite, write, close and unlink succeed and give back every cluster, the old contents' included, except those that lengthened the directory; afterwards the name stands for nothing exactly when at most one slot had it before; successful or not, every other file and name is untouched |
| `RoundTrip.Conserved` | src/fs/fat32.c:214-256 | the free set before and after, computed from the chains that came and went |
| `RoundTrip.Put` | src/fs/fat32.c:538-604 | one write appends its chunk, or leaves no cluster free and a chain too short for it; no other file or name changes |
| `TwoFiles.SaveTwoThenLoad` | src/fs/fat32.c:418-604 | saving one file, saving another under a different short name and loading the first: both saves succeed exactly when a descriptor is free and there is room, reckoned in the state before the first; then the load returns the first file's bytes, both names stand for what was saved, and every other name for what it stood for, also when a save runs out of room |
| `TwoFiles.SaveBeside` | src/fs/fat32.c:418-604 | a second save succeeds exactly when there is room; whether it does or not, the name of a file stored before stands for its bytes |
| `TwoFiles.SecondBudget` | src/fs/fat32.c:418-604 | what the second save can draw on is what was reckoned before the first |
| `Capacity.Balance` | src/fs/fat32.c:60-88 | what the new chain and the directory take is exactly what the free clusters and the given-up chain provide |
| `Capacity.TooShort` | src/fs/fat32.c:591-600 | a chain used up before the data ended has fewer clusters than the data takes |
| `Capacity.Accounts` | src/fs/fat32.c:538-604 | from the balance of clusters and the length of the new chain: the save succeeded exactly when it could be afforded, and how many clusters are left |
| `Capacity.AskedStep` | src/fs/fat32.c:538-600 | the clusters that a sequence of writes asks for, write by write; a write of nothing at the end of a full cluster asks for one more |
| `Format.FormatDisk` | src/fs/fat32.c:265-369 | for every size with room for the root whose cluster numbers stay below the marks: the boot record and the information sector have every field of the standard at its place, tables of (total - 32) / 264 + 1 sectors; mounting what was written gives a sound volume with only cluster 2 in use, an empty root and identical tables |
| `Format.Mount` | src/fs/fat32.c:372-415 | succeeds exactly for 512-byte sectors, a readable information sector and a root of at least 2, and reads the geometry back from the record |
| `Format.GeometrySane` | src/fs/fat32.c:265-415 | the computed tables cover every counted cluster, and tables and clusters fit the volume, for every such size |
| `Format.AddressableFits` | src/fs/fat32.c:265-415 | every disk that 28-bit sector addresses reach has cluster numbers below the marks |
| `Format.BootSectorIs` | src/fs/fat32.c:268-304 | the boot record field by field: geometry, media byte, maker, label, type and end mark, zeros elsewhere |
| `Format.InfoSectorIs` | src/fs/fat32.c:311-324 | the information sector field by field: three signatures, free count unknown, next cluster 3 |
| `Format.TablesOversized` | src/fs/fat32.c:288 | for every disk the tables have at least three times the entries that the clusters need |
| `Format.FormattedRefines` | src/fs/fat32.c:326-365 | the sectors written by format refine the table in which clusters 0 to 2 are marked and all others are free |
| `Format.FormattedOwned` | src/fs/fat32.c:326-355 | in that table the root is the only chain and exactly the clusters from 3 on are free |
| `Boot.Start` | src/fs/fat32.c:265-415 | formatting any large enough disk establishes the invariants that every system call keeps, of files, descriptors and path: one empty directory, cluster 2, which is the root and the current one, and an empty path that leads there |
| `Boot.InvariantMeans` | src/fs/fat32.c:60-88 | the run invariant spelled out: the chain of a live slot is in range, linked, end-marked, acyclic, free of free entries, disjoint from every other slot's and long enough for the recorded size |
| `Listing.ReadDir` | src/fs/fat32.c:679-731 | from any cluster whose scan ends: at index k returns the first live slot at or after slot k and k + 1 modulo 2^32, or fails exactly when there is none |
| `Listing.ListDir` | src/fs/fat32.c:733-753 | the listing loop ends and shows exactly what calls with successive indices report |
| `Listing.AllReported` | src/fs/fat32.c:679-731 | calls with successive indices report every live slot, at the call with its own index |
| `Listing.ReportedOrdered` | src/fs/fat32.c:679-731 | only live slots are reported, in slot order, and the sequence of calls ends |
| `Listing.OnceIffDense` | src/fs/fat32.c:679-731 | every slot is reported exactly once if and only if no gap lies before a live slot |
| `Listing.GapRepeats` | src/fs/fat32.c:679-731 | the slot behind a deleted or long-name slot is reported twice |
| `Paths.Cwd.Chdir` | src/fs/fat32.c:847-889 | enters exactly existing directories; a right path stays right if and only if nothing was entered, or fewer than sixteen names were recorded and what is kept of the name is still a name of the same entry, a test on the string; with sixteen names recorded it is never right after entering; going up leads to where the remaining names lead, or fails and stays, with the last name already dropped, exactly when they lead nowhere |
| `Paths.Cwd.GetCurrentPath` | src/fs/fat32.c:810-845 | the printed path is a slash and the joined names, and -1 exactly when it does not fit the buffer |
| `Paths.DownAndUp` | src/fs/fat32.c:847-889 | entering a directory under any name and going up leads to where the recorded path leads, so it is the identity whenever the path was right; with sixteen names recorded it drops one and ends in another directory than it started from |
| `Paths.FullNamesLost` | src/fs/fat32.c:883-887 | of all names in the eight-dot-three form, exactly those of twelve characters are no longer names of their entry once recorded |
| `Paths.FullNameStrands` | src/fs/fat32.c:854-872 | on every volume without an entry of the cut name: entering a directory with a twelve-character name, then a subdirectory, then going up fails, drops a name and stays in the subdirectory |
| `Paths.Cwd.Up` | src/fs/fat32.c:854-872 | the walk from the root over the remaining names, through whatever clusters they lead to, files included; the invariant survives exactly when it ends in a known directory |
| `Paths.NamesApart` | src/fs/fat32.c:874-881 | two names of one directory never lead to one directory |
| `Paths.NoRevisit` | src/fs/fat32.c:854-872 | where no slot names the root, a path through directories never meets a directory twice |
| `Paths.NotInItself` | src/fs/fat32.c:874-881 | no directory on the path holds a name for itself |
| `Paths.TroddenKept` | src/fs/fat32.c:854-872 | a path through directories leads where it led after anything that changes what names lead to only in the directory it ends in |
| `Paths.CallKeepsPath` | src/user/syscall.c:174-237 | after a system call that may change what names of the current directory lead to, but nothing else in the tree, as open, close, write, unlink and mkdir of any name do, the path invariant holds and the recorded path is right if it was |
| `Paths.SysChdir` | src/user/syscall.c:252-257 | chdir disturbs no descriptor, moves as the file system call does, keeps the run invariant exactly when it ends in a known directory, and both invariants with a right path exactly when the path stays right |
| `Paths.SysMkdir` | src/user/syscall.c:232-237 | mkdir of any name, also one that exists, keeps both invariants and a path that is right, with the effect of the call itself |
| `Chains.TrailExists` | src/fs/fat32.c:169-210 | where no cluster is lost, a scan from any cluster, free, in a file or in a directory, ends |
| `Checksum.Checksum` | src/drivers/net/ip.c:37-47 | both loops end, and the result is the complement of the 16-bit value congruent to the word sum modulo 65535 |
| `Checksum.ChecksumVerifies` | src/drivers/net/ip.c:94-95 | with the checksum stored in a zeroed aligned field, the recomputed checksum is 0 (section 1 of RFC 1071) |
| `Checksum.ChecksumPadded` | src/drivers/net/ip.c:44 | a last odd byte counts as if a zero byte followed it |
| `Checksum.ChecksumByteOrder` | src/drivers/net/icmp.c:20-27 | swapping the bytes of every word swaps the bytes of the result (section 2 of RFC 1071) |
| `Net.DatagramVerifies` | src/drivers/net/ip.c:82-96 | every datagram's header verifies (section 3.1 of RFC 791) |
| `Net.DatagramFields` | src/drivers/net/ip.c:82-96 | every datagram field by field: version and length, zero identification and fragment fields, time to live 64, protocol, source at byte 12, destination at byte 16, payload, and a header that verifies (section 3.1 of RFC 791) |
| `Net.Stack.Lookup` | src/drivers/net/arp.c:44-62 | finds an address exactly when a valid entry for it exists, with that entry's hardware address |
| `Net.Stack.AddEntry` | src/drivers/net/arp.c:64-118 | keeps at most one entry per address; everything queued for the address, and nothing else, leaves the queue in order, sent to the learned hardware address, and nothing else is sent: the early return for a known address is right because nothing can be waiting |
| `Net.Stack.ProcessQueue` | src/drivers/net/ip.c:54-80 | sends exactly the packets waiting for the resolved address, in queue order and to its hardware address, keeping the count of waiting ones |
| `Net.Stack.Release` | src/drivers/net/ip.c:60-77 | sends one waiting packet, in a datagram with all its fields, as the direct path would, to the given hardware address, and moves it from waiting to sent in the books |
| `Net.Stack.Tx` | src/drivers/net/ip.c:82-124 | sends at once, in a datagram with all fields of the packet, when the address is known, otherwise queues and broadcasts a question for the address, drops exactly when the queue is full; keeps the cross-module invariant |
| `Net.Stack.Rx` | src/drivers/net/arp.c:141-170 | learns the sender of every request and reply, sends what waited for it to its hardware address, then answers requests for our address with all fields of a reply to the asker, and sends nothing else (RFC 826, Packet Reception) |
| `Net.Stack.Init` | src/drivers/net/ip.c:49-52 | reinitialisation stores the address in both modules, empties table and queue, and keeps the invariant if and only if nothing was waiting, because the counter is not reset |
| `Net.Run` | src/drivers/net/ip.c:54-124 | over every run of sends, messages and learned addresses: every IP frame sent carries an accepted packet, field by field; each event has its exact effect on the moment it meets, hardware destinations included, the packets accepted are those of this run's sends answered with 0 or 1, and each accepted packet is waiting or was sent but not both; one entry per address, no waiting packet with a resolved address, the counter right |
| `Net.Stack.Handle` | src/drivers/net/ip.c:54-124 | one event leads from one moment to the next: code, table, queue, addresses learned and the frames appended to the log, all of them and to which hardware address |
| `Net.Converse` | src/drivers/net/arp.c:120-170 | two machines: the question of one, received by the other, is answered with exactly the message that, received by the first, resolves the address and sends what waited for it; both tables then hold the other's hardware address |
| `Net.ExactlyOnce` | src/drivers/net/ip.c:54-124 | a packet that left the queue stands in the log at one place of its own, byte for byte as the direct path would have sent it and to a hardware address that was learned for its destination |
| `Net.EchoVerifies` | src/drivers/net/icmp.c:29-43 | every echo request field by field: type 8, code 0, identifier 1, its number, and it verifies |
| `Net.Echo.Ping` | src/drivers/net/icmp.c:29-43 | hands, in a datagram with all its fields if it goes out at once, exactly the next numbered echo request to the network layer and keeps its invariant |
| `Scheduler.Tasks.Schedule` | src/kernel/scheduler.c:6-24 | where some task runs, or sleeps and its wake-up tick has come, the call ends; the task picked is the first in ring order that runs, or, where none does, the first that sleeps with its tick come; every sleeper with its tick come that stands before the first running task runs afterwards, and no other task changes |
| `Scheduler.WalkForever` | src/kernel/scheduler.c:6-24 | when nobody is running or due, the walk changes nothing and never meets a running task, however long it goes on |
| `Scheduler.WokenIsFair` | src/kernel/scheduler.c:6-24 | zombies stay dead, no sleeper is woken before its time, nobody loses the running state |
| `Scheduler.CanRunIs` | src/kernel/scheduler.c:12-17 | the walk's search finds somebody if and only if some task runs, or sleeps with its wake-up tick come |
| `Scheduler.BoundedSleep` | src/kernel/scheduler.c:6-24 | over every run of calls without insertions, a task at ring distance d that sleeps although its tick has come is woken by one of the next d + 1 calls |
| `Scheduler.Nap` | src/kernel/task.c:65-70 | a task that sleeps for some ticks runs again after at most as many scheduling calls, at or after that tick, as there are tasks |
| `Scheduler.BoundedBypass` | src/kernel/scheduler.c:6-24 | over every run of calls without insertions, a task that stays ready at ring distance d is picked by one of the next d + 1 calls |
| `Scheduler.ScheduledTurns` | src/kernel/scheduler.c:6-24 | each call is a step of such a run: the ring turns to the picked task |
| `Scheduler.Tasks.Create` | src/kernel/task.c:27-49 | inserts a task with a number of its own behind the head and keeps the ring a ring |
| `Scheduler.Tasks.Exit` | src/kernel/task.c:58-63 | the current task becomes a zombie and another one is scheduled |
| `Scheduler.Tasks.Sleep` | src/kernel/task.c:65-70 | the current task sleeps until the given tick and another one is scheduled |
| `Scheduler.Tasks.Kill` | src/kernel/task.c:76-89 | kills exactly the task with that number and returns 0, returns -1 exactly when there is none; a task that kills itself is scheduled away from and does not return |
| `Scheduler.Tasks.constructor` | src/kernel/task.c:16-25 | the kernel task alone is a valid ring |
| `Paging.Pager.Alloc` | src/kernel/memory.c:28-34 | the block is aligned and lies between the old and the new heap pointer, so it is disjoint from every earlier block |
| `Paging.AlignUpIs` | src/mm/kmalloc.c:6-8 | the least multiple of 4096 not below the address, within 4095 of it |
| `Paging.TableInstalled` | src/cpu/paging.c:83-89 | hooking up a cleared table in a block of its own changes no translation and keeps directory and pointer table in agreement |
| `Paging.EntryStored` | src/cpu/paging.c:91 | storing one entry changes the translation of that page and of no other, because no two tables overlap |
| `Paging.PageEntry` | src/cpu/paging.c:91 | the stored word, a bitwise or, is frame address plus flags while the flags stay below 4096; larger ones reach into the frame number |
| `Paging.OrAdds` | src/cpu/paging.c:91 | the bitwise or of words of any width is the sum where their bits do not meet |
| `Paging.Pager.MapPage` | src/cpu/paging.c:79-94 | for any flags, the page map gains exactly one entry, directory and tables agree, no memory outside the paging structures changes, and memory is taken exactly when a table is missing |
| `Paging.Pager.UnmapPage` | src/cpu/paging.c:96-104 | the page becomes unmapped and no other page changes |
| `Paging.Pager.GetPhysical` | src/cpu/paging.c:106-117 | the page map's frame with the offset, 0 exactly as for an absent page |
| `Paging.HardwareAgrees` | src/cpu/paging.c:79-117 | the processor's walk over directory and table (section 4.3 of Intel SDM volume 3A) translates as the page map says and faults exactly on absent pages |
| `Paging.Perform` | src/cpu/paging.c:79-117 | after any run of map and unmap, of any length, every page has its most recent mapping; memory is taken once for each missing table the run touches, so at most 1024 times |
| `Paging.MapIdentity` | src/cpu/paging.c:21-51 | start-up maps an address to itself exactly below 0x80000000 and from 0xF0000000 on, nothing else, with a page table for exactly these; the stores for the missing tables overwrite page 0, and only it, outside the paging structures |
| `Paging.Pager.constructor` | src/cpu/paging.c:11-19 | an empty context maps nothing |
| `Loader.LoadSegment` | src/kernel/exec.c:52-77 | the segment's pages are mapped present, writable and for the user, and translate to its file bytes with zeros around them, every other page is as before, nothing allocated earlier changes, also when the data runs over the block, and memory is taken for the block and the missing tables only |
| `Loader.FillBlock` | src/kernel/exec.c:52-70 | block and overrun, byte by byte: data that does not fit the block lands in memory not allocated yet |
| `Loader.InsideIffFits` | src/kernel/exec.c:66-70 | the read stays inside its block if and only if the data, behind its offset in the first page, fits the counted pages |
| `Loader.LoadElf` | src/kernel/exec.c:13-82 | from a file on the volume to memory: fails exactly for a missing file, a wrong header or a cut-off program header; otherwise each page has the image of the last segment covering it; files, what names stand for, open handles and the directories they rely on stay as they were |
| `Loader.ImageFidelity` | src/kernel/exec.c:38-78 | for page-disjoint segments that fit their pages, byte k of a segment, on a present and writable user page, translates to file[offset + k], or to 0 past the file data |
| `Elf.LoadProgram` | src/kernel/exec.c:13-82 | for a file written by the format's own encoder, file header at 0 and program header i at phoff + i * phentsize: loading succeeds, gives the header's entry point, and byte k of every loadable segment that starts on a page and shares none with a later one is file[offset + k], or 0 behind filesz, at vaddr + k |
| `Elf.ParsesBack` | src/kernel/exec.c:41-50 | reading an encoded program header gives back kind, offset, virtual address, file size and memory size |
| `Elf.HeaderParses` | src/kernel/exec.c:20-36 | an encoded file header is accepted and entry, phoff, phentsize and phnum are read back |
| `Elf.AcceptedIff` | src/kernel/exec.c:27-34 | a header is accepted if and only if its 52 bytes are there, the first five are 7F 45 4C 46 01 and bytes 18 and 19 are 3 and 0 |
| `Elf.ImageInMemory` | src/kernel/exec.c:38-78 | the page-by-page image of the loaded segments puts every byte that the encoded headers name in its place |
| `Loader.CoveredIffFits` | src/kernel/exec.c:52-77 | all bytes of a segment are mapped if and only if the offset in its first page does not push its end past the counted pages |
| `Loader.AlignedFits` | src/kernel/exec.c:52 | page-aligned segments always fit |
| `Loader.StraddlingLost` | src/kernel/exec.c:52-77 | after loading a two-byte segment across a page boundary, its second byte translates as before, unmapped if it was |
| `Loader.Exec` | src/kernel/exec.c:84-118 | the program's image together with a zeroed stack at every address from 0xBFFFC000 to 0xBFFFFFFF, with files, names and handles as `Loader.LoadElf` leaves them |
| `Loader.KernelExec` | src/kernel/exec.c:84-118 | exec keeps the run invariant: every descriptor in use stays open on its file |
| `Pci.Walk.Enumerate` | src/drivers/pci/pci.c:96-116 | for every configuration space, cyclic ones included, the records are those of the depth-first walk over the roots, in its order and cut off at 256: all reachable functions or a full table, and nothing but reachable functions in it, with the registers that the bytes of their configuration space say; when the buses form a tree no function is recorded twice, and when it fits all are recorded |
| `Pci.Walk.EnumerateBus` | src/drivers/pci/pci.c:50-66 | adds the functions present on the bus in device and function order, each followed by those behind it; nothing of the bus is added from behind its own bridges |
| `Pci.Walk.CheckFunction` | src/drivers/pci/pci.c:68-94 | adds the function and then, in order, what lies behind it; the recursion is bounded by the free records; what is added lies behind bridges also added, and all of it is |
| `Pci.ConfigMeans` | src/drivers/pci/pci.c:21-29 | for a function with given configuration bytes: it answers unless bytes 0 and 1 are 0xFF, it is a bridge if and only if bytes 11 and 10 are 6 and 4, leading to the bus in byte 25, the device has more functions if and only if byte 14 is 0x80 or more, and its record has maker, device, class, interrupt and base addresses from their bytes |
| `Pci.RecordsTruthful` | src/drivers/pci/pci.c:74-88 | every record says what the configuration bytes of its function say |
| `Pci.NothingBehindYet` | src/drivers/pci/pci.c:90-93 | in a tree, nothing of the bus behind a bridge is recorded before the bridge is |
| `Pci.FullIsAll` | src/drivers/pci/pci.c:72 | a full table without repetitions leaves out no function that fits |

## Left out

- Disk errors, ATA port access and time-outs: sectors are read and written reliably.
- Directory.FindEntry: requires that the scan from the start cluster leaves the table; on a cycle without the name or a never-used slot the driver does not return. `Chains.TrailExists` shows that no scan meets a cycle where no cluster is lost.
- Listing.ReadDir: the same condition.
- Format.GeometrySane: the same bound on cluster numbers as `Format.FormatDisk`.
- Format.FormattedRefines: the same bound.
- Boot.Start: the same bound.
- Format.FormatDisk: requires that no cluster number reaches the marks for bad clusters and ends of chains, as on every disk the driver can address (`Format.AddressableFits`).
- Crash consistency: many return codes are ignored by the driver, so it decides nothing there.
- Listing.ListDir: requires a root of fewer than 2^32 slots, beyond which the index wraps and the listing starts over.
- Long file names, rename, rmdir and stat: unused or absent.
- Access modes of open: the driver does not enforce them, so nothing is claimed.
- FileSystem.Fs.Open: requires that the named slot is a file that no handle speaks for; with two handles on one slot the later close overwrites what the earlier one recorded, and attributes are not checked, so a directory would be opened as a file.
- FileSystem.Fs.Unlink: requires an unopened file, because unlinking a directory gives up its chain and loses its children, and an open handle would go on using freed clusters.
- FileSystem.Fs.Write: requires position + size below 2^32; behind a gap, when the position lies past the end, the bytes in between are left open, because the driver does not clear them.
- FileIo.Write: requires position + size below 2^32, as `FileSystem.Fs.Write` does; beyond, the position wraps while the chain grows on.
- FileIo.WriteClusters: the same bound.
- Syscalls.Kernel.Write: the same bound.
- Syscalls.Kernel.Unlink: an unopened file, as `FileSystem.Fs.Unlink`.
- Syscalls.Kernel.Mkdir: names that do not begin with the byte 0xE5, as `Syscalls.Kernel.Open`.
- FileSystem.Fs.Mkdir: names that do not begin with the byte 0xE5; does not state that names are unique, because the driver does not check for an existing name.
- Paths.SysMkdir: names that do not begin with the byte 0xE5, as `FileSystem.Fs.Mkdir`.
- Syscalls.Kernel.Open: created names must not begin with the byte 0xE5; `Slots.DeletedNameNotFound` shows that such an entry is never found again.
- Format.Mount: requires a boot record with a cluster size other than 0, by which the driver divides unchecked.
- The conversion of sizes of 2^31 bytes and more to a signed return value.
- Paths.Cwd.Chdir: where clusters are lost, a scan through one of them may not end; no operation loses any.
- Printing functions, the terminal, and the system calls that do not concern files.
- Network hardware, Ethernet framing and echo replies: a frame handed to the driver is appended to a log. Messages shorter than an ARP packet and payloads above 1400 bytes are excluded by the callers.
- kfree and its list: kmalloc never draws from it.
- Paging.Pager.MapPage: the heap has room for the table if one is missing; kmalloc itself never fails.
- Separate address spaces: all tasks share one context.
- Paging.MapIdentity: the kernel's own accesses to tables and blocks are modelled as accesses to physical memory, which is what they are while the pages they lie in are mapped to themselves; nothing keeps a program from being linked over them.
- Loader.LoadSegment: requires that the segment's pages do not pass the end of the address space and its data not the end of memory.
- Loader.KernelExec: the same conditions as `Loader.Exec`.
- Loader.Exec: the same conditions as `Loader.LoadElf`, and room for the stack.
- Elf.LoadProgram: the same conditions as `Loader.LoadElf`.
- Names.ShortNameTells: longer names and names with spaces, or with a dot at the end, share their 11 bytes with others.
- Scheduler.Nap: somebody can run when the task goes to sleep, and the tick sum does not wrap.
- RoundTrip.Append: an existing file that nobody has open, as `Syscalls.Kernel.Open`; the contents stay below 2^32 bytes.
- Loader.LoadElf: requires that the pages of each segment do not pass the end of the address space and its data not the end of memory, that the file ends 32 bytes below 4 GiB and that the heap has room; the loader checks none of this.
- Context switches, interrupts and the jump to user mode: a switch sets the current task.
- Scheduler.Tasks.Create: task numbers do not wrap, and allocation of the stack is not modelled.
- Scheduler.Tasks.Sleep: times are in ticks, although the parameter is named in milliseconds; the sum wraps at 32 bits as in the code.
- PCI drivers and writes to the configuration space: the space is a fixed function during the walk.
