# BFS in Dafny

A model of BFS, an encrypted, integrity-checked file system over a cluster of block devices, with
proofs about it. `dafny verify dfyconfig.toml` checks everything.

**File system core.** Two levels. The *flat* level (`Volume.dfy`) sees every file as its bytes or its
directory's slots and the bytes they are read from, together with the super-block counters, the inode bitmap and the open-file table;
its operations take the branches of the source and end in success, an error to the client
(`Refused`) or a server error (`Fatal`, the run ends). On it stand the theorems: what every request
does to the path-to-inode map and to what each path shows (`Namespace.dfy` to `RenameOps.dfy`,
`Views.dfy`), exactly when it succeeds (`Outcomes.dfy`), what every run from a formatted volume keeps
and exactly which requests break it (`Invariants.dfy`, `DirWrites.dfy`, `Runs.dfy`, `Dots.dfy`,
`Tree.dfy`, `Accounting.dfy`, `NewVolumes.dfy`).
The *block* level (`Blocks.dfy`, `Lookup.dfy`, `FileIo.dfy`, class `BfsHandle` in `Handle.dfy`) has
inodes with direct and indirect blocks, data blocks of bytes that directories decode (`Raw.dfy`), and
the loops of the source. Each of its methods is proved to give the reply and leave the volume that
the flat operation gives. `Image.dfy` goes down to a disk of nothing but bytes, on which writing a bit,
an inode, a dentry or an indirect list is one update of the block level; `Format.dfy` and
`Formatting.dfy` have mkfs on such a disk.

**Integrity tree** (`Merkle.dfy`): in-place path updates and the early-exit check, over a digest type
and an injective hash.

**Cluster and remote devices** (`Cluster.dfy`, `Remote.dfy`, `RemoteRuns.dfy`, `Wire.dfy`): address
map, write-back cache with arbitrary eviction, batches, the sequence-numbered protocol over a
transport that may replay and reflect packets.

**Records, framing, client** (`Codec.dfy`, `Framing.dfy`, `SharedMutex.dfy`, `WriteBack.dfy`).

What the model fixes: caches off in the core (`cache_enabled() == false`), one mounted run, access
checks always granted, path names that are bytes without NUL (`Paths.PlainPath`), little-endian
integers. Encryption opens exactly under the sequence number it sealed with; the hash is injective.
Blocks never written read as zeros, as formatting leaves them.

Where the code does not do what its comments or a first reading promise, the exact condition is
proved, and an input at which it fails is given:

- bfs_write does not look at the kind of the file: through the handle of a directory it overwrites
  dentries. All invariants of all runs hold if and only if the dentries every such write leaves fit
  (`DirWrites.WriteSoundIff`, `Runs.RunSoundIff`; `Examples.ZeroedRoot` is one that breaks them,
  `Examples.RootWrittenBack` one that does not).
- Names beginning with "//" can be created but never resolve (`CreateOps.CreateResolves`,
  `Examples.DoubleSlash`).
- rename removes the source before it looks at the target; a refused rename can lose a file
  (`RenameOps.RenameLosesIff`, `RenameOps.RenameLosesExample`). It replaces a directory that
  still has names in it, whose inodes then have no path (`Tree.RenameTreeIff`, `Tree.SubtreeLost`),
  and it does not look at the target's open handles (`HandleOps.RenameHandledIff`,
  `Examples.RenameOverOpen`).
- A write past the largest file returns early: the size is not updated (`HandleOps.WriteSplicesIff`,
  `Examples.WritePastLargest`), and blocks it gave a directory can be lost (`DirWrites.PastLargest`).
- The last allocation the counters allow hands out an id past the last block
  (`Accounting.IdOnDevice`, `Accounting.IdPastEnd`).
- A partly filled indirect list keeps its indirect block when the file is deleted
  (`Removal.FreedExact`, `Examples.LeakyDirectory`).
- dealloc_ino loads one bitmap block only and indexes past it for numbers from 32768 on, which is
  undefined in the source and the end of the run in the model (`Removal.DeallocSound`,
  `Examples.FarUnlink`).
- A get or put of a block out of range is acknowledged (`Remote.RemoteDevice.GetBlock`,
  `Remote.RemoteDevice.PutBlock`).
- Flush collection does not end if a dirty chunk starts past the end of the file, as a truncate or a
  short write can leave it (`WriteBack.EndsIff`, `WriteBack.Strand`, `WriteBack.StrandedForever`).
- Chunks are marked dirty by the length of a write alone; across a chunk boundary the last one can be
  missed, and the flush does not send its bytes (`WriteBack.MarkedAllIff`, `WriteBack.Straddle`).
- A packet opens again after 2^32 requests, and not before (`RemoteRuns.FirstServedAgain`,
  `RemoteRuns.FirstStaysShut`).
- An empty message is taken for a closed connection at both ends (`Framing.Pipe.SendMessage`,
  `Framing.Pipe.RecvMessage`; `Framing.SendNothing`, `Framing.RecvNothing`).

## Model

| member | source | states |
|---|---|---|
| `Directory.AllSeen` | src/bfs_fs/bfs_core.cpp:1126-1235 | as many live slots seen as the directory has, if and only if no later slot is live: the early stop misses nothing |
| `Directory.EntriesCount` | src/bfs_fs/bfs_core.cpp:1126-1235 | a full scan yields every live slot, nothing else, and as many entries as live slots |
| `Directory.EntriesAt` | src/bfs_fs/bfs_core.cpp:1126-1235 | a listing is in slot order |
| `Directory.FindInsert` | src/bfs_fs/bfs_core.cpp:1246-1481 | inserting a name leaves the search for every other name at the same slot |
| `Lookup.CheckEachDentry` | src/bfs_fs/bfs_core.cpp:1126-1235 | scan of one block, for all three uses: by name it finds the first hit of the whole directory or rules the block out; a listing grows by exactly the live slots; an empty slot found is the first; "all searched" is reported only when nothing live remains |
| `Lookup.CheckDirectBlks` | src/bfs_fs/bfs_core.cpp:877-977 | finds the name's first slot, with its block and index, or proves it absent, or has seen exactly the direct blocks and knows that more live slots exist |
| `Lookup.CheckIndirectBlks` | src/bfs_fs/bfs_core.cpp:996-1105 | completes the search or listing over the indirect blocks; called only when the indirect block exists |
| `Lookup.WalkFails` | src/bfs_fs/bfs_core.cpp:1739-1867 | a walk that fails at one component fails in the same way as a whole |
| `Lookup.Locate` | src/bfs_fs/bfs_core.cpp:1739-1867 | the forward loop over path components returns the result of the recursive walk of the flat tree (found, missing, not a directory, corrupt) and where on disk the dentry lies |
| `Lookup.Readdir` | src/bfs_fs/bfs_core.cpp:2342-2377 | the entries of the directory in slot order, exactly the live ones |
| `Namespace.ResolveChanged` | src/bfs_fs/bfs_core.cpp:1739-1867 | if one directory entry p changes to a value with nothing below it, p resolves to that value, paths below p to nothing, all other paths as before |
| `CreateOps.CreateResolves` | src/bfs_fs/bfs_core.cpp:3065-3164 | create adds exactly one path to the namespace: p (if it does not start with "//") resolves to the new inode, every other path as before |
| `Examples.DoubleSlash` | src/bfs_fs/bfs_core.cpp:3065-3164 | create "//a" on a formatted volume succeeds and "//a" does not resolve |
| `CreateOps.MkdirResolves` | src/bfs_fs/bfs_core.cpp:2391-2500 | the same for mkdir |
| `RemoveOps.UnlinkResolves` | src/bfs_fs/bfs_core.cpp:2630-2734 | unlink removes exactly p from the path-to-inode map |
| `RemoveOps.RmdirResolves` | src/bfs_fs/bfs_core.cpp:2511-2619 | rmdir removes exactly p from the map |
| `RenameOps.RenameResolves` | src/bfs_fs/bfs_core.cpp:2745-3015 | rename moves the source inode to the target path, drops the source and whatever was below a replaced target, keeps all other paths; renaming onto itself changes nothing |
| `RenameOps.RenameLosesIff` | src/bfs_fs/bfs_core.cpp:2745-3015 | a refused rename has removed the source's name exactly when the source was fit to move and the target path leads through a regular file |
| `RenameOps.RenameLosesExample` | src/bfs_fs/bfs_core.cpp:2745-3015 | renaming /a to /b/c where /b is a regular file is refused and /a is gone |
| `Views.CreateView` | src/bfs_fs/bfs_core.cpp:3065-3164 | after create, p shows an empty file and every other path shows the folder or bytes it showed |
| `Views.MkdirView` | src/bfs_fs/bfs_core.cpp:2391-2500 | after mkdir, p shows a folder and every other path what it showed |
| `Views.UnlinkView` | src/bfs_fs/bfs_core.cpp:2630-2734 | after unlink, p (a file) shows nothing and every other path what it showed |
| `Views.RmdirView` | src/bfs_fs/bfs_core.cpp:2511-2619 | after rmdir, p (a folder) shows nothing and every other path what it showed |
| `Views.RenameView` | src/bfs_fs/bfs_core.cpp:2745-3015 | after rename, the target shows the source's bytes, the source and everything below a replaced target show nothing, every other path what it showed |
| `Views.OpenView` | src/bfs_fs/bfs_core.cpp:3231-3290 | opening changes nothing any path shows |
| `Views.ReleaseView` | src/bfs_fs/bfs_core.cpp:3849-3896 | releasing changes nothing any path shows |
| `Views.WriteView` | src/bfs_fs/bfs_core.cpp:3489-3792 | a write shows at the paths of that file, as the splice, and at no other path |
| `Views.OnePath` | src/bfs_fs/bfs_core.cpp:1246-1481 | no file has two paths |
| `Outcomes.CreateIff` | src/bfs_fs/bfs_core.cpp:3065-3164 | exactly when create succeeds and exactly when it is refused; everything else is a server error |
| `Outcomes.MkdirIff` | src/bfs_fs/bfs_core.cpp:2391-2500 | the same for mkdir |
| `Outcomes.RenameIff` | src/bfs_fs/bfs_core.cpp:2745-3015 | exactly when rename succeeds, in terms of the volume before it: a movable source, and a target that can be replaced or entered, counting the slot the source leaves |
| `Outcomes.RenameRefusedIff` | src/bfs_fs/bfs_core.cpp:2745-3015 | exactly when rename is refused, from the volume before: a source that is too long, below a regular file, or missing or a directory in a directory that is there; or a movable source and a target below another regular file |
| `Outcomes.OpenIff` | src/bfs_fs/bfs_core.cpp:3231-3290 | the same for open and opendir |
| `Growth.AllocInoSound` | src/bfs_fs/bfs_core.cpp:672-724 | alloc_ino returns the smallest unused number, never reserved, never past the table, never the inconsistency error; bitmap and counter agree again afterwards |
| `Growth.AddDentryEnters` | src/bfs_fs/bfs_core.cpp:1246-1481 | add_dentry keeps the directory well formed: names distinct, link count equal to live slots, blocks a prefix, new ids fresh and on a device |
| `Growth.GrownIds` | src/bfs_fs/bfs_core.cpp:1355-1481 | the ids of an inode grown block by block, in closed form: data blocks in order, the indirect block just before the first block it lists |
| `Growth.PreallocGrows` | src/bfs_fs/bfs_core.cpp:3017-3055 | the blocks set aside by create are those that growing to the largest size would give |
| `CreateOps.CreateSound` | src/bfs_fs/bfs_core.cpp:3065-3164 | create keeps every structural invariant; a refusal changes nothing |
| `CreateOps.CreateHandled` | src/bfs_fs/bfs_core.cpp:3065-3164 | create hands out a new handle and keeps reference counts equal to handle counts |
| `CreateOps.MkdirSound` | src/bfs_fs/bfs_core.cpp:2391-2500 | mkdir keeps every structural invariant; a refusal changes nothing |
| `Removal.FreedExact` | src/bfs_fs/bfs_core.cpp:782-836 | the blocks given back by delete_inode_iblks are all blocks held, less one when the indirect list is only partly filled |
| `Examples.LeakyDirectory` | src/bfs_fs/bfs_core.cpp:782-836 | a directory grown to thirteen blocks holds fourteen and gives back thirteen |
| `Removal.DeallocSound` | src/bfs_fs/bfs_core.cpp:732-772 | dealloc_ino stays within the one bitmap block it loads exactly for numbers below that block's bits; for those, but not the root, it succeeds and keeps the invariants |
| `Examples.FarUnlink` | src/bfs_fs/bfs_core.cpp:732-772 | in a sound volume whose file has inode number 32768, unlinking it does not come through |
| `RemoveOps.UnlinkSound` | src/bfs_fs/bfs_core.cpp:2630-2734 | unlink succeeds exactly when p names a closed regular file with a number in reach, and is refused exactly when p is too long, names nothing, or names a directory or an open file; invariants kept |
| `RemoveOps.RmdirSound` | src/bfs_fs/bfs_core.cpp:2511-2619 | rmdir succeeds exactly when p names a closed, empty directory other than the root with a number in reach, and is refused exactly when p is too long, names nothing, or names a file, a directory with entries or an open one; invariants kept |
| `RemoveOps.UnlinkHandled` | src/bfs_fs/bfs_core.cpp:2630-2734 | unlink never frees an inode that a handle names |
| `RemoveOps.RmdirHandled` | src/bfs_fs/bfs_core.cpp:2511-2619 | rmdir never frees an inode that a handle names |
| `RenameOps.RenameSound` | src/bfs_fs/bfs_core.cpp:2745-3015 | rename keeps every structural invariant, refused or not |
| `HandleOps.RenameHandledIff` | src/bfs_fs/bfs_core.cpp:2745-3015 | after a successful rename the handle table is exact if and only if the replaced target was not open |
| `Examples.RenameOverOpen` | src/bfs_fs/bfs_core.cpp:2745-3015 | create /a, create /b, rename /a to /b: the table is no longer exact |
| `HandleOps.OpenHandled` | src/bfs_fs/bfs_core.cpp:3231-3290 | open adds one handle and one reference |
| `HandleOps.ReleaseHandled` | src/bfs_fs/bfs_core.cpp:3849-3896 | release succeeds exactly for handles in the table, and takes one reference away |
| `HandleOps.WriteSplicesIff` | src/bfs_fs/bfs_core.cpp:3489-3792 | the flat write, which `FileIo.WriteBytes` computes block by block, leaves the spliced bytes with zero-filled gap and counts all data as written if and only if it ends within the largest file; the size never shrinks |
| `HandleOps.WriteIff` | src/bfs_fs/bfs_core.cpp:3489-3792 | a write to a regular file goes through exactly when the block of every byte it puts down, the zeros before off included, is on a device |
| `HandleOps.WritePast` | src/bfs_fs/bfs_core.cpp:3658-3665 | past the largest file: the bytes within the old size are put down and the size stays |
| `Examples.WritePastLargest` | src/bfs_fs/bfs_core.cpp:3658-3665 | one byte written just past the largest file counts as none and is not there |
| `HandleOps.ReadBack` | src/bfs_fs/bfs_core.cpp:3301-3477 | at the flat level (`FileIo.WriteBytes` and `FileIo.ReadBytes` refine it): reading where one has just written returns the data written |
| `HandleOps.ReadExact` | src/bfs_fs/bfs_core.cpp:3301-3477 | a read gives the smaller of what was asked for and what is left, and its j-th byte is the byte off + j of the file |
| `HandleOps.WriteSound` | src/bfs_fs/bfs_core.cpp:3489-3792 | a write to a regular file changes the bytes of that file and no other file, name or counter |
| `DirWrites.WriteSoundIff` | src/bfs_fs/bfs_core.cpp:3489-3792 | a write keeps every structural invariant if and only if it goes to a regular file or the dentries it leaves in the directory fit: dots first, as many live as the link count, distinct names, inodes that exist and nothing else names; within the largest file and past it |
| `DirWrites.SameBytes` | src/bfs_fs/bfs_core.cpp:3489-3792 | bytes that are there already leave every dentry as it was, so writing a directory's own bytes back is harmless |
| `DirWrites.UnsizedIff` | src/bfs_fs/bfs_core.cpp:3489-3792 | of the recorded size alone: no directory has one until a write within the largest file puts something down through its handle, whatever it spells |
| `DirWrites.HoleBreaks` | src/bfs_fs/bfs_core.cpp:3567-3583 | through the handle of a directory without a size, every write that starts beyond byte 8 blanks "." and breaks the directory, whatever the data |
| `DirWrites.SlotsAfter` | src/bfs_fs/bfs_core.cpp:3489-3792 | which dentries a write through the handle of a directory leaves: records inside the bytes put down are the ones they spell, records clear of them stay, slots of new blocks are blank |
| `DirWrites.WriteCount` | src/bfs_fs/bfs_core.cpp:3489-3792 | through a handle of either kind, the count is the length of the data within the largest file, and past it the distance to its end in 64 bits |
| `DirWrites.PastLargest` | src/bfs_fs/bfs_core.cpp:3658-3665 | a write past the largest file through the handle of a directory uses up every block the directory could still get; they are lost unless it has an indirect list |
| `DirWrites.ReadsBack` | src/bfs_fs/bfs_core.cpp:3301-3477 | through a handle of either kind, reading where one has just written returns the data written |
| `Examples.ZeroedRoot` | src/bfs_fs/bfs_core.cpp:3489-3792 | on a formatted volume, opendir "/" and 4096 zero bytes written at 0: "." and ".." are gone, no slot is live while the link count is 2 |
| `Examples.RootWrittenBack` | src/bfs_fs/bfs_core.cpp:3489-3792 | there, writing the root's own bytes back changes nothing but its recorded size, and the volume stays sound |
| `Runs.ApplySoundIff` | src/bfs_fs/bfs_core.cpp:656-3896 | one request keeps the volume sound if and only if it is not a write that fails `Runs.Tame` |
| `Runs.RunSoundIff` | src/bfs_fs/bfs_core.cpp:656-3896 | in every run from a sound volume, every state is sound (search completeness, unique block ownership, unique names, bitmap conservation) if and only if every write is tame |
| `Runs.RunInvIff` | src/bfs_fs/bfs_core.cpp:656-3896 | in every run, in every state reference counts equal handle counts (root one more), no handle names a freed inode and the table is bounded, if and only if every write is tame and no rename replaces an open file |
| `Dots.RunDottedIff` | src/bfs_fs/bfs_core.cpp:2391-3015 | in every state of a run the volume is sound, each directory's "." is itself and its ".." is the directory that holds its entry, if and only if every write is tame and leaves the dots |
| `Dots.FormattedDotted` | src/bfs_fs/bfs_core.cpp:2063-2084 | every run of a formatted volume starts that way |
| `Tree.RunTreeIff` | src/bfs_fs/bfs_core.cpp:656-3896 | in every state of a run the volume is sound and every inode but the root is reached by a path, if and only if every write is tame and leaves every inode one, no name with two slashes in front was entered, no rename lost its source, and none replaced a directory that still had names in it |
| `Tree.ReachedOnce` | src/bfs_fs/bfs_core.cpp:1739-1867 | that path is the only one |
| `Tree.RenameTreeIff` | src/bfs_fs/bfs_core.cpp:2745-3015 | which renames leave every inode a path, from the state before |
| `Tree.FormattedTree` | src/bfs_fs/bfs_core.cpp:1937-2101 | every run of a formatted volume starts with every inode reached |
| `Tree.SubtreeLost` | src/bfs_fs/bfs_core.cpp:2745-3015 | renaming /a to /d where /d/x exists succeeds, and the inode of /d/x stays without a path |
| `Accounting.RunCounts` | src/bfs_fs/bfs_core.cpp:4202-4248 | over every run from any volume: free count = free count before - ids handed out + blocks of the inodes removed |
| `Accounting.FormattedRuns` | src/bfs_fs/bfs_core.cpp:4202-4248 | from mkfs on, in every run: free = data blocks - allocations + frees; and all invariants in every state if and only if every write is tame and every rename polite |
| `Accounting.IdOnDevice` | src/bfs_fs/bfs_core.cpp:4202-4214 | after any run from a formatted volume the next id is on a device exactly while the ids handed out plus one are below the number of data blocks, which is when the free count exceeds the blocks ever given back by two |
| `Accounting.IdPastEnd` | src/bfs_fs/bfs_core.cpp:4202-4214 | with one data block the first id handed out is past the last block |
| `Accounting.CreateUnlink` | src/bfs_fs/bfs_core.cpp:3065-3164 | create, release, unlink gives back every block but the at most two the parent gained, and restores every path, the inode count and the table |
| `Accounting.HandleAdvances` | src/bfs_fs/bfs_core.cpp:656-663 | a handle handed out is the counter's value, and the counter only moves forward |
| `Accounting.HandlesNew` | src/bfs_fs/bfs_core.cpp:656-663 | no handle is handed out twice in any run, even past the 32-bit wrap |
| `Blocks.NodesUpdate` | src/bfs_fs/bfs_core.cpp:1678-1728 | a change confined to one inode and its own blocks is an update of that file's flat view and of nothing else |
| `Blocks.SlotsRead` | src/bfs_fs/bfs_core.h:83 | the dentries of a directory are what the bytes of its blocks decode to |
| `Raw.DentryKept` | src/bfs_fs/bfs_core.cpp:4761-4804 | a dentry with a NUL-free name that fits is read back from its record |
| `Raw.PutSlot` | src/bfs_fs/bfs_core.cpp:1303-1330 | a record written is the dentry read back from its slot, and all other slots of the directory stay |
| `Image.BitStored` | src/bfs_utils/bfs_util.cpp:309-356 | on a disk of bytes, setting or clearing a bit is the update of the bitmap at that number |
| `Image.InodeStored` | src/bfs_fs/bfs_core.cpp:1678-1728 | writing an inode record is the update of the inode table at that number, and a record with number 0 takes it out |
| `Image.DentryStored` | src/bfs_fs/bfs_core.cpp:1303-1330 | writing a dentry record into a block is the update of that data block, read as dentries: one slot replaced |
| `Image.ListStored` | src/bfs_fs/bfs_core.cpp:1420-1440 | writing an indirect block is the update of that list |
| `Blocks.SlotWritten` | src/bfs_fs/bfs_core.cpp:1246-1344 | writing one dentry slot on disk is one slot update of the flat directory |
| `Blocks.GrowWritten` | src/bfs_fs/bfs_core.cpp:1246-1481 | adding a block (direct, listed, or with the indirect block) appends its slots to the flat directory |
| `Handle.Mount` | src/bfs_fs/bfs_core.cpp:2142-2213 | reads the superblock from its block and the root from the disk; fails exactly when the volume is not formatted or an assertion does not hold; else the object represents the mounted volume |
| `Handle.FormatAndMount` | src/bfs_fs/bfs_core.cpp:1937-2213 | mkfs and mount give the new volume with every invariant |
| `Handle.BfsHandle.AllocBlk` | src/bfs_fs/bfs_core.cpp:4202-4214 | next id and counters, 0 when none is left |
| `Handle.BfsHandle.DeallocBlk` | src/bfs_fs/bfs_core.cpp:4224-4248 | one more free block, refused for reserved ids and a full count |
| `Handle.BfsHandle.AllocIno` | src/bfs_fs/bfs_core.cpp:672-724 | the nested bitmap loops refine the flat allocator |
| `Handle.BfsHandle.DeleteInodeIblks` | src/bfs_fs/bfs_core.cpp:782-836 | the loops give back exactly the blocks the flat definition counts, failing exactly when the count would overflow |
| `Handle.BfsHandle.DeallocIno` | src/bfs_fs/bfs_core.cpp:732-772 | refines the flat deallocation |
| `Handle.BfsHandle.AddDentryToDirectBlks` | src/bfs_fs/bfs_core.cpp:1246-1344 | the block loop refines the flat insertion, or reports that the direct blocks are full |
| `Handle.BfsHandle.AddDentryToIndirectBlks` | src/bfs_fs/bfs_core.cpp:1355-1481 | refines the flat insertion for full direct blocks, allocating the indirect block when needed |
| `Handle.BfsHandle.PreallocBlks` | src/bfs_fs/bfs_core.cpp:3017-3055 | 525 consecutive ids, placed in the inode and its indirect block; fails exactly when too few are left or the indirect block is off the devices |
| `Handle.BfsHandle.Create` | src/bfs_fs/bfs_core.cpp:3065-3164 | block-level create: same reply and same volume as the flat operation, and the volume stays sound |
| `Handle.BfsHandle.Mkdir` | src/bfs_fs/bfs_core.cpp:2391-2500 | block-level mkdir, likewise |
| `Handle.BfsHandle.Unlink` | src/bfs_fs/bfs_core.cpp:2630-2734 | block-level unlink, likewise |
| `Handle.BfsHandle.Rmdir` | src/bfs_fs/bfs_core.cpp:2511-2619 | block-level rmdir, likewise |
| `Handle.BfsHandle.Rename` | src/bfs_fs/bfs_core.cpp:2745-3015 | block-level rename, likewise |
| `Handle.BfsHandle.Open` | src/bfs_fs/bfs_core.cpp:3231-3290 | block-level open (and opendir, lines 2281-2333), likewise |
| `Handle.BfsHandle.Release` | src/bfs_fs/bfs_core.cpp:3849-3896 | block-level release, likewise |
| `Handle.BfsHandle.Readdir` | src/bfs_fs/bfs_core.cpp:2342-2377 | every live entry once, as many as the link count |
| `Handle.BfsHandle.Read` | src/bfs_fs/bfs_core.cpp:3301-3477 | through a handle of either kind, the bytes of the flat file, clipped at its size |
| `Handle.BfsHandle.Write` | src/bfs_fs/bfs_core.cpp:3489-3792 | through a handle of either kind, the reply and the volume of the flat write, which is sound exactly when the write was tame |
| `FileIo.ReadBytes` | src/bfs_fs/bfs_core.cpp:3355-3476 | the read loop returns exactly the slice, clipped at end of file and at the last allocated block |
| `FileIo.ClaimBlk` | src/bfs_fs/bfs_core.cpp:3601-3702 | the block to be written, allocated first if needed, with the indirect block created on its first use |
| `Handle.WriteFile` | src/bfs_fs/bfs_core.cpp:3489-3792 | the blocks, counters and inode of one file of either kind after a write are those of the flat write; it fails exactly when the flat write does |
| `FileIo.WriteBytes` | src/bfs_fs/bfs_core.cpp:3544-3791 | the write loop, allocating as it goes, on an inode of any kind: the payload over the bytes its blocks held, zeros in new blocks, ids handed out in order, other files' blocks untouched; the splice, with the size never shrinking, when it ends within the largest file; past it the inode is not stored; it fails exactly when a block written is off the devices or too few are left |
| `Format.Partition` | src/bfs_fs/bfs_core.h:47-75 | every block lies in exactly one layout region, the last of them as large as NUM_DATA_BLOCKS |
| `Format.InodePlaces` | src/bfs_fs/bfs_core.h:75-83 | every inode number has its bit and its record inside the regions, records do not overlap |
| `Format.MetaPlaces` | src/bfs_utils/bfs_common.h:26-27 | the IV and MAC of every block have a place inside the metadata region, within one block, and apart from those of every other block |
| `Format.WrittenOnce` | src/bfs_fs/bfs_core.cpp:1937-2101 | the order of writes hits every block outside the metadata region once and none inside |
| `Format.SuperKept` | src/bfs_fs/bfs_core.cpp:4076-4194 | the superblock mkfs serializes is read back with its counters |
| `Format.SuperSays` | src/bfs_fs/bfs_core.cpp:1937-1975 | what the superblock fields say of the layout: blocks, data blocks, free blocks, inodes, clear bits, first free data block |
| `Format.Formatted` | src/bfs_fs/bfs_core.cpp:1937-2101 | what mkfs leaves is mounted as the new volume: every invariant holds, only "/" resolves, mount's assertions pass |
| `Formatting.Mkfs` | src/bfs_fs/bfs_core.cpp:1937-2101 | the blocks are written in that order, and the bytes they hold, superblock, bitmap, the records of all reserved inodes, dots, represent the formatted disk |
| `Formatting.TableRecords` | src/bfs_fs/bfs_core.cpp:1975-2030 | the first block of the inode table holds the records of the reserved numbers and nothing else |
| `NewVolumes.NewInv` | src/bfs_fs/bfs_core.cpp:1937-2101 | the new volume satisfies every invariant |
| `Merkle.PathLength` | src/bfs_fs/bfs_core.cpp:549-603 | the walk from a leaf visits exactly `height` ancestors and ends at index 0 |
| `Merkle.RehashFrame` | src/bfs_fs/bfs_core.cpp:549-603 | nodes that are no ancestor of the leaf keep their value |
| `Merkle.WriteKeeps` | src/bfs_fs/bfs_core.cpp:549-603 | after a leaf update a node equals the hash of its children exactly when it is an ancestor of the leaf or did so before |
| `Merkle.EarlyCheck` | src/bfs_fs/bfs_core.cpp:195-304 | checking the parent accepts exactly when recomputing to the root would, exactly when the MAC is the stored one |
| `Merkle.CheckKeeps` | src/bfs_fs/bfs_core.cpp:195-304 | an accepted check leaves all hash values as they were |
| `Merkle.RehashRoot` | src/bfs_fs/bfs_core.cpp:549-603 | recomputing values up the path gives the root that updating the tree gives |
| `Merkle.RootBinds` | src/bfs_fs/bfs_fs_layer.cpp:380-418 | two well-formed trees with equal roots are equal |
| `Merkle.RunKeeps` | src/bfs_fs/bfs_core.cpp:549-603 | over any run of writes from any tree, exactly which nodes are well hashed |
| `Merkle.ReadsFresh` | src/bfs_fs/bfs_core.cpp:195-304 | a block written during a run is accepted exactly with the MAC written last |
| `Merkle.MountBindsIff` | src/bfs_fs/bfs_fs_layer.cpp:221-319 | the root built from the blocks' MACs is the saved one if and only if every block has the MAC it had when the root was saved |
| `Merkle.MerkleTree.constructor` | src/bfs_fs/bfs_fs_layer.cpp:221-319 | hashes in memory are kept, all others are computed last to first from the MACs, or zero in the initial call |
| `Merkle.InitMerkleTree` | src/bfs_fs/bfs_fs_layer.cpp:221-319 | with nothing in memory: the initial call takes any disk; any other succeeds if and only if every block has the MAC it had in the tree whose root was saved, and the tree is then that tree |
| `Merkle.MerkleTree.WriteBlk` | src/bfs_fs/bfs_core.cpp:549-603 | the in-place loop equals the path update |
| `Merkle.MerkleTree.CheckBlk` | src/bfs_fs/bfs_core.cpp:195-304 | accepts by the parent comparison, restores both nodes on a mismatch |
| `Cluster.AddrDefined` | src/bfs_blk/bfsVertBlockCluster.cpp:722-743 | exactly the addresses below the total are mapped, each back to itself |
| `Cluster.AddrOnto` | src/bfs_blk/bfsVertBlockCluster.cpp:722-743 | every block of every device has an address, so the map is a bijection |
| `Cluster.AddDevice` | src/bfs_blk/bfsVertBlockCluster.cpp:686-713 | a new device keeps all old mappings and appends its blocks |
| `Cluster.VertBlockCluster.AddBlockDevice` | src/bfs_blk/bfsVertBlockCluster.cpp:686-713 | all blocks keep their numbers and values, cached or not; the new device's blocks follow |
| `Cluster.GetPhyBlockAddr` | src/bfs_blk/bfsVertBlockCluster.cpp:722-743 | the loop computes the map, failing exactly outside it |
| `Cluster.EvictKeeps` | src/bfs_blk/bfsVertBlockCluster.cpp:759-774 | flushing any cached block to its own place and dropping it loses nothing |
| `Cluster.VertBlockCluster.InsertCache` | src/bfs_utils/bfs_cache.cpp:152-334 | the cache stays within its capacity and returns the block to flush, whichever is evicted |
| `Cluster.VertBlockCluster.ReadBlock` | src/bfs_blk/bfsVertBlockCluster.cpp:55-236 | returns the current value of the block for every cache state and eviction, and changes no block |
| `Cluster.VertBlockCluster.WriteBlock` | src/bfs_blk/bfsVertBlockCluster.cpp:281-417 | changes exactly one block; with the cache on the block is dirty there, and the device has the new value exactly when the write is synchronous, else the one before |
| `Cluster.BatchIsOneByOne` | src/bfs_blk/bfsVertBlockCluster.cpp:506-530 | a batch equals its blocks written one by one in any order |
| `Cluster.WriteBlocks` | src/bfs_blk/bfsVertBlockCluster.cpp:506-530 | the batch grouped by device overlays exactly its blocks, or fails before touching any device |
| `Cluster.ReadBlocks` | src/bfs_blk/bfsVertBlockCluster.cpp:460-497 | the blocks asked for, one request to each device, each copied from where its address lies; fails before any request when one is unmapped |
| `Remote.CheckManifest` | src/bfs_device/bfsRemoteDevice.cpp:694-709 | the manifest loop accepts exactly the permutations of the ids asked for |
| `Remote.ExchangeRefines` | src/bfs_device/bfsNetworkDevice.cpp:571-745 | one request and its reply perform one operation on a plain array of blocks, and the reply passes the requester's checks with that operation's answer |
| `Remote.ServedIff` | src/bfs_device/bfsNetworkDevice.cpp:571-745 | of all packets there can be, the device serves exactly those sealed under the number expected that ask for its topology or for something it can do, and does that to its blocks |
| `Remote.AcceptedIff` | src/bfs_device/bfsRemoteDevice.cpp:358-840 | a reply is taken exactly when it acknowledges the same command about the same blocks, with data, and from the device asked, where data was asked for |
| `Remote.StoredLast` | src/bfs_device/bfsNetworkDevice.cpp:690-712 | after a batch put a block holds the data of the last pair that names it |
| `Remote.StoredNone` | src/bfs_device/bfsNetworkDevice.cpp:690-712 | a block no pair names keeps its data |
| `Remote.PutsGets` | src/bfs_device/bfsNetworkDevice.cpp:640-712 | a batch get after a batch put of distinct blocks returns the pairs put |
| `Remote.PutGet` | src/bfs_device/bfsDeviceStorage.cpp:75-131 | a get returns the data of the last put of that block |
| `Remote.NetworkDevice.Process` | src/bfs_device/bfsNetworkDevice.cpp:571-745 | the device serves a packet as specified, or gives it up without changing a block |
| `Remote.RemoteDevice.constructor` | src/bfs_device/bfsRemoteDevice.cpp:87-166 | the topology exchange leaves both ends in step |
| `Remote.RemoteDevice.Submit` | src/bfs_device/bfsRemoteDevice.cpp:205-230 | one exchange over a transport that does not fail keeps the counters in step |
| `Remote.RemoteDevice.GetBlock` | src/bfs_device/bfsRemoteDevice.cpp:358-476 | the block's data; out of range the request succeeds without data |
| `Remote.RemoteDevice.PutBlock` | src/bfs_device/bfsRemoteDevice.cpp:486-603 | stores the block; out of range it succeeds and stores nothing |
| `Remote.RemoteDevice.GetBlocks` | src/bfs_device/bfsRemoteDevice.cpp:613-724 | all blocks of the batch |
| `Remote.RemoteDevice.PutBlocks` | src/bfs_device/bfsRemoteDevice.cpp:734-840 | stores the batch in order, all or nothing: a block ends up with the last data given for it |
| `RemoteRuns.DeviceTakes` | src/bfs_device/bfsNetworkDevice.cpp:598-606 | of all packets ever carried, replayed or reflected, the device takes only the request it has not served |
| `RemoteRuns.RunKeeps` | src/bfs_device/bfsRemoteDevice.cpp:205-603 | in every run of fewer than 2^32 requests, with any replays: counters differ by at most the message in flight, requests are served once and in order, every accepted answer is the plain array's |
| `RemoteRuns.HonestRun` | src/bfs_device/bfsRemoteDevice.cpp:205-603 | however many requests, the run without replays performs and answers them all |
| `RemoteRuns.FirstStaysShut` | src/bfs_device/bfsDeviceLayer.cpp:422-464 | below 2^32 served requests the first one is not served again |
| `RemoteRuns.FirstServedAgain` | src/bfs_device/bfsDeviceLayer.cpp:422-464 | the bound is exact: the honest run of 2^32 puts from a fresh link keeps everything, and there the first packet, replayed, is performed again and the array is no longer the one asked for |
| `Wire.HeaderRoundTrip` | src/bfs_device/bfsDeviceLayer.cpp:330-464 | unmarshal undoes marshal; truncated or extended packets are turned down |
| `Wire.ParsedIs` | src/bfs_device/bfsDeviceLayer.cpp:422-464 | whatever parses is what marshalling its fields gives, but for the acknowledgement, where every byte but 0 is true |
| `Wire.HeaderByte` | src/bfs_device/bfsDeviceLayer.cpp:330-407 | every byte of a header |
| `Wire.Buffer.Marshal` | src/bfs_device/bfsDeviceLayer.cpp:330-407 | the pushes build that header |
| `Wire.Buffer.Unmarshal` | src/bfs_device/bfsDeviceLayer.cpp:422-464 | the pops parse that header |
| `Codec.LeRoundTrip` | src/bfs_fs/bfs_core.cpp:4076-4194 | an integer survives its field exactly when it fits |
| `Codec.LeByte` | src/bfs_fs/bfs_core.cpp:4076-4194 | byte k of a field is digit k in base 256, low byte first |
| `Codec.RecordRoundTrip` | src/bfs_fs/bfs_core.cpp:4538-4636 | deserialize undoes serialize for superblock, inode and indirect block |
| `Codec.RecordOnto` | src/bfs_fs/bfs_core.cpp:4538-4636 | serialize undoes deserialize: every record is the encoding of its fields |
| `Codec.FieldAt` | src/bfs_fs/bfs_core.cpp:4538-4579 | each field lies right after those before it |
| `Codec.RecordSizes` | src/bfs_fs/bfs_core.cpp:4076-4129 | the records fit the space set aside for them |
| `Codec.DentryRoundTrip` | src/bfs_fs/bfs_core.cpp:4761-4804 | a dentry survives exactly when its number fits and its name has no NUL |
| `Codec.DentryByte` | src/bfs_fs/bfs_core.cpp:4761-4776 | every byte of a dentry record: the number, low byte first, the name, zeros |
| `Codec.InodeSlots` | src/bfs_fs/bfs_core.cpp:1696-1702 | writing an inode slot changes that slot's decoded record and no other |
| `Codec.DentrySlots` | src/bfs_fs/bfs_core.h:83 | the same for dentry slots |
| `Codec.Serialize` | src/bfs_fs/bfs_core.cpp:4538-4579 | field by field in place: the record's bytes at its place, all other bytes as they were |
| `Codec.Deserialize` | src/bfs_fs/bfs_core.cpp:4590-4636 | the fields of the record |
| `Codec.SerializeDentry` | src/bfs_fs/bfs_core.cpp:4761-4776 | the dentry's bytes at its place, all other bytes as they were |
| `Framing.Delivered` | src/bfs_comms/bfsNetworkConnection.cpp:412-478 | however the transport splits the stream, the receiver has exactly the messages whose frames have arrived, in order, with their boundaries |
| `Framing.BeByte` | src/bfs_comms/bfsNetworkConnection.cpp:412-440 | the length goes out high byte first |
| `Framing.Pipe.SendBytes` | src/bfs_comms/bfs_rawnet.cpp:269-298 | the length when all bytes are out, whatever each write accepts; 0 or -1 after a proper prefix when the socket closes or fails |
| `Framing.Pipe.ReadBytes` | src/bfs_comms/bfs_rawnet.cpp:310-340 | the length with exactly the bytes asked for, whatever each read returns; 0 or -1 after fewer when the socket closes or fails |
| `Framing.Pipe.SendMessage` | src/bfs_comms/bfsNetworkConnection.cpp:412-440 | a prefix of the frame is appended; the result is 0, and the connection given up, if and only if the prefix is proper or the message is empty |
| `Framing.SendNothing` | src/bfs_comms/bfsNetworkConnection.cpp:344-368 | the empty message: result 0, the connection is given up, and taken for closed when the whole frame went out |
| `Framing.Pipe.RecvMessage` | src/bfs_comms/bfsNetworkConnection.cpp:450-478 | a prefix of the frame is taken off the stream, all of it exactly when the message comes out; the result is 0 if and only if it is proper or the message is empty |
| `Framing.RecvNothing` | src/bfs_comms/bfsNetworkConnection.cpp:377-402 | the frame of an empty message, taken off whole, is taken for a closed connection |
| `SharedMutex.NextInv` | src/bfs_client/bfs_client.cpp:44-80 | every locked step keeps: writer alone, count exact, a thread asleep only while a writer is inside or, to write, while anybody is |
| `SharedMutex.Excludes` | src/bfs_client/bfs_client.cpp:44-80 | for any number of threads and any interleaving, a writer excludes all others and reader_count_ counts the readers inside |
| `SharedMutex.Admits` | src/bfs_client/bfs_client.cpp:46-69 | at its test a reader goes in exactly when no writer is inside, a writer exactly when nobody is, and otherwise waits |
| `SharedMutex.Leaves` | src/bfs_client/bfs_client.cpp:54-75 | a thread that leaves is outside, those inside with it stay, and once nobody is inside nobody is asleep |
| `SharedMutex.ManyReaders` | src/bfs_client/bfs_client.cpp:46-59 | for every n, n readers can be inside together |
| `WriteBack.EndsIff` | src/bfs_client/bfs_client.cpp:1157-1225 | flush collection ends if and only if no dirty chunk starts past the end of the local file |
| `WriteBack.Strand` | src/bfs_client/bfs_client.cpp:2425-2438 | two chunks written and the file cut to nothing: a dirty chunk past the end |
| `WriteBack.StrandedForever` | src/bfs_client/bfs_client.cpp:1157-1225 | flushing in that state never ends |
| `WriteBack.MarkedAllIff` | src/bfs_client/bfs_client.cpp:1061-1076 | the chunks a write marks hold all its bytes if and only if it is empty or its offset within a chunk and the offset of its last byte counted from a chunk boundary together stay below a chunk; so always when it starts a chunk |
| `WriteBack.MarksCount` | src/bfs_client/bfs_client.cpp:1061-1076 | the number of chunks marked is the least that holds the bytes written |
| `WriteBack.Straddle` | src/bfs_client/bfs_client.cpp:1061-1076 | two bytes across a chunk boundary: the second one's chunk is not marked and a flush does not list it |
| `WriteBack.WriteBackCache.CachedWrite` | src/bfs_client/bfs_client.cpp:1050-1076 | as many chunks as the length fills become dirty from the first one on, each counted once; the handle stays flushable, and after a short write exactly when the last chunk marked starts within the file; a failed write changes nothing |
| `WriteBack.WriteBackCache.Truncate` | src/bfs_client/bfs_client.cpp:2425-2438 | the counter stays exact; the handle is flushable exactly when no dirty chunk starts past the new end |
| `WriteBack.WriteBackCache.Collect` | src/bfs_client/bfs_client.cpp:1157-1225 | on a flushable handle: ends, empties the handle's set, lists it in increasing order, lowers the counter by its size |

## Left out

- Access-control checks, chmod, getattr, fsync, FUSE glue and the wire format of client requests.
- Dentry and inode caches in the core, and the integrity tree together with the block cache: a cache
  hit skips the tree update.
- Cryptography, keys, enclave calls, configuration, logging: encryption and hashing are abstract.
- What the security-metadata blocks hold (IVs and MACs on disk; `Format.MetaPlaces` has where they lie),
  and saving the root hash.
- Runs that go on after a server error or a rejected integrity check.
- Lookups after a write that is not tame: the flat lookup goes through all slots of a directory, where
  the source stops at the link count; the two agree on every sound volume (`Directory.AllSeen`), and
  no theorem but the block accounting speaks of later states.
- A dentry record without any NUL, which only such a write can leave: the model reads its 255 bytes,
  the source reads on.
- Cached synchronous writes to remote devices, where the request reuses the block's own buffer.
- The client's send loop after collection, forced flushes with a threshold, and truncation on the
  server.
- Image.InodeStored: one record at a time; that whole requests take the bytes of one disk to those of
  the next is not stated.
- Tree.RunTreeIff: for a write through the handle of a directory the condition is that the dentries it
  leaves lead to every inode.
- Framing.Delivered: for messages that are not empty, since an empty one ends the connection.
- FileIo.ReadBytes: reads the indirect block on every turn where the source keeps it; the block does
  not change during the call.
- Merkle.MerkleTree.constructor: MACs are a function of the block number; reading them can fail in the
  source.
- Cluster.WriteBlocks: modelled on the devices' contents as a value, with the cache off.
- Cluster.ReadBlocks: modelled on the devices' contents as a value, with the cache off.
- Remote.ExchangeRefines: a batch naming a block out of range is given up; the source would read or
  write through a null address there.
- SharedMutex.Excludes: safety and the absence of missed wake-ups; fairness is not claimed.
- WriteBack.WriteBackCache.CachedWrite: a failed write returns with the lock held in the source; the
  lock is not part of this class.
