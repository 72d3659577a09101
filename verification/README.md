# A verified model of the Glenda kernel

Glenda is a RISC-V teaching kernel. This project models its three stateful subsystems in Dafny and proves what they keep
over whole runs: the file system, memory management, and the life cycle of processes. Nothing here runs the kernel.

`dafny verify dfyconfig.toml` checks everything.

## How it is built

Code that changes things in place is a class or a method with loops: the buffer cache, the inode layer, the page tables,
the mmap lists, the scheduler, the file-system calls. What a method does is stated against functions and predicates over
plain values, and the invariants are proved about those. Whole-run statements are either methods that run any sequence of
operations (`FileRuns.Run`, `Directory.RunOn`, `CallRuns.Run`, `UserCopy.CopyThenStore`, `Mmap.Space.RunCalls`) or
inductions over sequences of steps (`PageAllocator.Safe`, `Processes.EveryRun`).

Panics are states to be shown unreachable. The exceptions are genuine exhaustion (no free frame, block, inode, inode slot,
buffer or process slot): there a method ends with an outcome whose contract says that the resource really is used up.
Branches of the code that the invariants rule out are left out of the methods: a stale bit in the scheduler's bitmap, a
leaf among the inner page tables, a short read of a directory entry, an empty piece in `munmap`, a failing `map` in
`map_pages`.

**File system.** `IntrusiveList` and `BufferCache` are the 32-buffer write-through cache on its two intrusive lists.
`DiskFormat` is the byte layout of blocks, bitmaps and inodes. `FileTree` says which block belongs to which place of
which inode, `FileBytes` what bytes a file has. `FileSystem` is the code of bitmap.rs and inode.rs, and `FileRuns` any
sequence of its operations, against a finite map of files and a table of references. `Names`, `Directory` and `Paths` are
entries, directories as finite maps, and path resolution. `Links` and `OpenFiles` are link counts, file objects and
descriptors as values. `DiskTree` says which tree of directories a disk stands for and which references an inode table
counts, and what each inode operation does to both. `Namespace` says what the file-system calls do to that tree, the file
objects and the descriptors, and `FileKernel` is their code on top of the inode layer. `FileCalls` and `SystemCalls` join
files and user memory in `fs_read` and `fs_write`. `CallRuns` is any sequence of calls of several processes. `NameLaws`
and `CallLaws` say what calls mean to each other, in terms of paths, descriptors, replies and bytes. `Mkfs` is the image
that the build tool writes, as the kernel reads it.

**Memory.** `Sv39` is addresses and page-table entries (section 4.4 of the RISC-V Privileged Architecture, version
20211203). `PageTree` and `PageTable` are walk, map, unmap and lookup over an unshared tree of tables, `PageDestroy` and
`PageCopy` the two traversals, `UserCopy` the copies to and from user memory. A frame is used either as a table of 512
entries or as a page of bytes. `RegionSeq`, `RegionList` and `Mmap` are mmap and munmap. `PageAllocator` is the
reference-counted allocator with any number of harts taking its steps in any order. `EntryBits`, `TranslationLaws`,
`MappedMemory` and `AllocatorLaws` say what these mean for single bits, for single addresses, for the memory a process
gets from mmap, and for a page that is allocated and freed.

**Processes.** `Processes` is the state machine over the 64 slots with its history of exits and waits. `Scheduler` is the
code with its bitmap, each method of which takes exactly one step of that machine. `ProcessLaws` says what sequences of
steps come to. `Bits` is the bit arithmetic.

## What the code turned out to do

- A hit on the active list in `get` adds no reference. The file-system code never reads a block it holds, which is why
  reference counts stay 0 or 1.
- Index entry 11 of an inode is never used, although a comment speaks of two single-indirect entries. The model follows
  the code.
- `dentry_create` with an empty name, or one that starts with NUL, reports success and adds no binding.
- A write of no bytes behind the end of a file through `inode_write_data` extends the file; through `fs_write` it does not.
- `map` that fails leaves the pages before the bad one mapped.
- `PageTable::copy` drops user pages that lie outside the user pool and shares executable non-user pages, also when they
  lie in the user pool; destroying the copy then frees them under the source, or twice. `PageCopy.CopyRestores` gives the
  exact condition under which copy and destroy cancel out, and `PageCopy.SharedFrame` a memory where they do not.
- `mmap` returns the start of the merged region when it merges with its predecessor (`MappedMemory.MapAndStore` has the
  exact condition), and after NoMem leaves the new pages mapped. After a split `munmap` leaves its `prev` pointer one node behind; the loop ends there, so it does no harm.
- A zombie that is handed to init by its exiting parent does not wake init (`Processes.InitMissesOrphan`). That is the
  only way to miss an ended child (`Processes.StepMisses`).
- `open` with `O_TRUNC` sets the size to 0 and keeps blocks and bytes, so a later write behind the end can bring old bytes
  back (`DiskTree.TruncateThenWrite`).
- `open` that finds no free file object keeps its reference to the inode for good.
- `fs_read` that faults has moved the file offset by the chunks it completed.

## Model

| member | source | states |
|---|---|---|
| `IntrusiveList.UnlinkedOwn` | kernel/src/fs/buffer/lru.rs:73-97 | Unlinking a node by prev/next surgery leaves the list exactly without that node and still consistently linked in both directions. |
| `IntrusiveList.PushedOwn` | kernel/src/fs/buffer/lru.rs:100-136 | Linking a detached node in front of a list gives exactly that list with the node in front. |
| `IntrusiveList.MovedToFront` | kernel/src/fs/buffer/lru.rs:119-136 | Moving a node from one list to the front of the other keeps both acyclic, disjoint and together covering all nodes. |
| `IntrusiveList.MovedBack` | kernel/src/fs/buffer/lru.rs:100-117 | The same for the move from the inactive to the active list. |
| `IntrusiveList.ChainLinked` | kernel/src/fs/buffer/lru.rs:206-227 | The initial links form one inactive list of all nodes in index order and an empty active list. |
| `BufferCache.FirstMatchAlone` | kernel/src/fs/buffer/lru.rs:163-174 | Although all 32 buffers start with key (0, 0), the first match of an inactive-list search is the only valid copy of its block or there is no valid copy at all: never-used buffers form a suffix and cannot shadow one. |
| `BufferCache.LruVictim` | kernel/src/fs/buffer/lru.rs:138-148 | The tail of the inactive list is a never-used buffer if there is one, otherwise the buffer released longest ago. |
| `BufferCache.WriteCoherent` | kernel/src/fs/buffer/mod.rs:129-140 | Writing a held buffer through keeps at most one valid buffer per block and every idle valid buffer equal to the disk. |
| `BufferCache.Cache.constructor` | kernel/src/fs/buffer/lru.rs:206-227 | A fresh cache satisfies the invariant over any disk image and no buffer is held. |
| `BufferCache.Cache.RemoveNode` | kernel/src/fs/buffer/lru.rs:73-97 | The in-place relinking is the specified unlinking, with the right list head moved. |
| `BufferCache.Cache.FindActive` | kernel/src/fs/buffer/lru.rs:150-161 | The search terminates and finds a held buffer for the key exactly when there is one. |
| `BufferCache.Cache.FindInactive` | kernel/src/fs/buffer/lru.rs:163-174 | The search terminates and returns the first idle buffer with the key, or none. |
| `BufferCache.Cache.GetLru` | kernel/src/fs/buffer/lru.rs:138-148 | The walk to the tail terminates and returns the last node of the inactive list. |
| `BufferCache.Cache.RecycleLru` | kernel/src/fs/buffer/lru.rs:190-203 | Recycling evicts a never-used buffer if one is inactive, otherwise the one released longest ago, and keeps the invariant. |
| `BufferCache.Cache.Get` | kernel/src/fs/buffer/mod.rs:83-106 | A held block is returned as it is, without a further reference; any other block gets a buffer of its own, valid only with the disk's bytes. |
| `BufferCache.Cache.Read` | kernel/src/fs/buffer/mod.rs:108-127 | A block that nobody holds is handed out with exactly the disk's current contents; the disk and all other held buffers are unchanged. |
| `BufferCache.Cache.Write` | kernel/src/fs/buffer/mod.rs:129-140 | Exactly the held buffer's block on disk becomes its bytes. |
| `BufferCache.Cache.Release` | kernel/src/fs/buffer/mod.rs:142-153 | A written-back buffer leaves the held set as the most recently released one, the reference count cannot underflow and cache coherence is kept. |
| `DiskFormat.RoundTrip32` | kernel/src/fs/inode.rs:109-171 | Little-endian 32-bit words read back as written. |
| `DiskFormat.PutEntryGet` | kernel/src/fs/inode.rs:109-171 | Storing an entry of an index block changes that entry and no other. |
| `DiskFormat.SetBitAt` | kernel/src/fs/bitmap.rs:17-53 | Setting a bit of a bitmap block changes that bit and no other. |
| `DiskFormat.ClearBitAt` | kernel/src/fs/bitmap.rs:58-85 | Clearing a bit of a bitmap block changes that bit and no other. |
| `DiskFormat.InodeRoundTrip` | kernel/src/fs/inode.rs:235-257 | Decoding the 64-byte on-disk form of an inode gives back the inode. |
| `DiskFormat.StoreInodeGet` | kernel/src/fs/inode.rs:235-257 | Storing an inode into its block changes that inode and no other inode of the block. |
| `FileTree.AllocKeeps` | kernel/src/fs/bitmap.rs:8-56 | Marking a free block keeps all index trees owned and disjoint; the block is in no tree and no file changes. |
| `FileTree.LinkRoot` | kernel/src/fs/inode.rs:79-137 | Storing a fresh block as a root entry adds one place to this inode's tree and keeps all trees pairwise disjoint and all files' bytes. |
| `FileTree.LinkEntry` | kernel/src/fs/inode.rs:109-171 | The same for an entry of a single- or double-indirect block. |
| `FileTree.WriteLeaf` | kernel/src/fs/inode.rs:391-414 | Overwriting a data block changes the bytes of one logical block of one file and nothing else. |
| `FileTree.DeletedKeeps` | kernel/src/fs/inode.rs:303-329 | Deleting an inode clears exactly its own tree's bits: the other trees stay marked and disjoint and the other files keep their bytes. |
| `FileTree.CreatedKeeps` | kernel/src/fs/inode.rs:423-446 | A new inode owns no block, so the trees stay disjoint and the new file is all holes. |
| `FileTree.FreeStep` | kernel/src/fs/inode.rs:177-227 | Freeing the block at the next place of the tree clears its bit, which is still set, so the already-free panic is unreachable. |
| `FileTree.FreeDone` | kernel/src/fs/inode.rs:177-227 | After the last place exactly the bits of the tree are cleared. |
| `FileBytes.ChunkBytes` | kernel/src/fs/inode.rs:344-374 | Within one logical block, file bytes are a slice of its block or zeros for a hole. |
| `FileBytes.WriteRefines` | kernel/src/fs/inode.rs:380-421 | A write overwrites exactly [off, off+len) of the byte sequence, zero-fills a gap past the old end where only zeros are stored there, and leaves every other file as it was. |
| `FileBytes.GapExact` | kernel/src/fs/inode.rs:380-421 | A write is an overwrite with zero-filled gap if and only if the gap holds zeros; after a truncation it need not. |
| `FileBytes.DeleteRefines` | kernel/src/fs/inode.rs:303-329 | Deleting an inode leaves every other file's byte sequence as it was. |
| `FileBytes.CreateRefines` | kernel/src/fs/inode.rs:423-446 | The new file is empty with a zero tail and every other file is as it was. |
| `FileSystem.FirstClear` | kernel/src/fs/bitmap.rs:17-53 | The nested byte-and-bit scan returns the lowest clear bit of the block, or none if all are set. |
| `FileSystem.Fs.constructor` | kernel/src/fs/inode.rs:229-232 | On a consistent image the empty inode cache satisfies the whole file-system invariant. |
| `FileSystem.Fs.BitmapAlloc` | kernel/src/fs/bitmap.rs:8-56 | Returns an unmarked data block and marks exactly it, zeroed on disk, or finds that all are marked; no block already held is read. |
| `FileSystem.Fs.BitmapFree` | kernel/src/fs/bitmap.rs:58-85 | Unmarks exactly a marked block; neither the out-of-range nor the already-free panic can occur. |
| `FileSystem.Fs.InodeStore` | kernel/src/fs/inode.rs:235-257 | Stores exactly this inode into its slot on disk. |
| `FileSystem.Fs.InodeLoad` | kernel/src/fs/inode.rs:235-257 | Loads the inode's disk copy and changes nothing else. |
| `FileSystem.Fs.LocateOrAddBlock` | kernel/src/fs/inode.rs:79-175 | For every logical block in range, finds or adds the block at its place in the direct, single- or double-indirect tree, keeping all files; at most two buffers are held. |
| `FileSystem.Fs.ReadData` | kernel/src/fs/inode.rs:331-378 | Returns exactly the file's bytes in [off, off+len) up to the end of file, holes as zeros, and changes nothing. |
| `FileSystem.Fs.WriteData` | kernel/src/fs/inode.rs:380-421 | Writes exactly the given bytes at the offset, with the size raised where needed, or the disk is full; the block index is never out of range. |
| `FileSystem.Fs.FreeTable` | kernel/src/fs/inode.rs:186-226 | Frees every block below one index block and the block itself, exactly once, without reading a held block. |
| `FileSystem.Fs.FreeDataBlocks` | kernel/src/fs/inode.rs:177-227 | Frees exactly the blocks of the inode's tree with at most three buffers held. |
| `FileSystem.Fs.InodeAlloc` | kernel/src/fs/inode.rs:464-496 | Marks an unused inode number, or finds that all are in use. |
| `FileSystem.Fs.InodeFree` | kernel/src/fs/inode.rs:498-516 | Unmarks exactly a live inode. |
| `FileSystem.Fs.InodeDup` | kernel/src/fs/inode.rs:297-301 | Adds one reference. |
| `FileSystem.Fs.InodePut` | kernel/src/fs/inode.rs:303-329 | Drops a reference; exactly the last one to an inode without links deletes it and frees exactly its tree; at most three buffers are held at any moment and none afterwards. |
| `FileSystem.Fs.InodeGet` | kernel/src/fs/inode.rs:260-295 | A cached inode gets one more reference, another is loaded into a free slot; one slot per inode is kept. |
| `FileSystem.Fs.InodeCreate` | kernel/src/fs/inode.rs:423-446 | A live inode with one link, size 0 and an empty tree in a free slot, or inodes or slots are exhausted. |
| `FileSystem.Fs.SetNlink` | kernel/src/syscall/fs.rs:277-278 | Storing a new link count changes that field of that inode; all bytes, blocks and other inodes are as before. |
| `FileSystem.Fs.Truncate` | kernel/src/syscall/fs.rs:54-58 | Storing size 0 changes that field of that inode; its blocks stay where they are, and all bytes and other inodes are as before. |
| `FileRuns.Perform` | kernel/src/fs/inode.rs:260-446 | From any consistent state each operation makes exactly its step on the map of live inodes to kind, link count and bytes and on the table of references, with the reply that step says; it fails only if inodes, inode slots or blocks are used up. |
| `FileRuns.Run` | kernel/src/fs/inode.rs:79-446 | Over every sequence of create, get, put, relink, read and write: trees stay marked and disjoint, files, references and replies follow the operations step by step, at most three buffers are ever held and none between operations; a run ends early only at an operation that is out of inodes, slots or blocks. |
| `Directory.AddEntry` | kernel/src/fs/dentry.rs:43-92 | Writing a used entry with a new name into a hole or behind the end adds one binding to the directory's map. |
| `Directory.RemoveEntry` | kernel/src/fs/dentry.rs:94-133 | Zeroing an entry removes one binding. |
| `Directory.NameMatches` | kernel/src/fs/dentry.rs:20-31 | The byte loop compares the stored name with the given name cut or zero-padded to 60 bytes. |
| `Directory.DentrySearch` | kernel/src/fs/dentry.rs:7-41 | Search is lookup in the finite map the directory stands for. |
| `Directory.DentryCreate` | kernel/src/fs/dentry.rs:43-92 | Fails exactly if the key is bound; otherwise adds one binding, whether it reuses a hole or appends, or none for a name that starts with NUL; every other file, all kinds, link counts, blocks, references and zero tails are kept, and the directory stays without holes. |
| `Directory.DentryDelete` | kernel/src/fs/dentry.rs:94-133 | Removes exactly the binding of the key and returns its inode number, or finds none; keeps the same as creating does. |
| `Directory.DenseBound` | kernel/src/fs/dentry.rs:43-92 | A file without holes is no longer than the data area, so directory offsets cannot overflow. |
| `Directory.RunOn` | kernel/src/fs/dentry.rs:7-133 | Over any sequence of searches, creations and deletions on one directory, replies and contents are those of the finite map, up to the point where the disk is full. |
| `DiskTree.DirStep` | kernel/src/fs/dentry.rs:43-133 | New directory entries are a change of one node of the tree that the disk stands for; no live file loses a block and no data file a byte. |
| `DiskTree.NlinkStep` | kernel/src/syscall/fs.rs:277-278 | A stored link count is a change of one node's link count. |
| `DiskTree.TruncStep` | kernel/src/syscall/fs.rs:54-58 | Truncating a data file leaves the tree as it is, the file empty and all other files intact. |
| `DiskTree.TruncateThenWrite` | kernel/src/syscall/fs.rs:54-58 | A write after a truncation zero-fills up to its offset if and only if the file held only zeros there before the truncation: otherwise old bytes come back. |
| `DiskTree.WriteStep` | kernel/src/syscall/fs.rs:117-143 | Writing a file that is no directory leaves the tree as it is and all other files intact. |
| `DiskTree.CreateStep` | kernel/src/fs/inode.rs:423-446 | A created inode is one new node without entries. |
| `DiskTree.DeleteStep` | kernel/src/fs/inode.rs:303-329 | A deleted inode is one node less; its blocks are free afterwards, nothing is allocated and every other file is intact. |
| `DiskTree.GetShows` | kernel/src/fs/inode.rs:260-295 | The references that the inode table counts grow by one for exactly this inode, and references in kernel hands stay in their slots. |
| `DiskTree.PutShows` | kernel/src/fs/inode.rs:303-329 | They drop by one for exactly this inode; tree and disk change exactly if it was the last and no entry names the inode. |
| `Paths.GetElement` | kernel/src/fs/path.rs:4-25 | The two scanning loops return the next component and the position behind it. |
| `Paths.SplitJoin` | kernel/src/fs/path.rs:4-25 | Joining any non-empty, slash-free components and splitting the path again gives back the components. |
| `Paths.SlashJoins` | kernel/src/fs/path.rs:4-25 | Two paths with a slash between them have the components of the first and then those of the second. |
| `Namespace.AbsolutePath` | kernel/src/fs/path.rs:28-32 | A path that starts with a slash leads to the same place from every working directory, namely where the rest leads from the root; the empty path leads to the working directory; the same for the parent. |
| `Namespace.NamePath` | kernel/src/fs/path.rs:27-61 | A name without slashes is looked up in the working directory, which is its parent. |
| `Namespace.PathInParts` | kernel/src/fs/path.rs:27-126 | A path of two parts leads where the second part leads from where the first leads, or nowhere if the first leads nowhere; the same for the parent and the last name. |
| `Namespace.PathByParent` | kernel/src/fs/path.rs:71-126 | A path leads to what its parent has under the last name. |
| `Paths.ResolveParent` | kernel/src/fs/path.rs:27-126 | Resolving a path with at least one component equals resolving its parent and then one search, for names of any length. |
| `Paths.ResolveLive` | kernel/src/fs/path.rs:27-61 | Without dangling entries, resolution from a live inode ends in a live inode. |
| `FileKernel.Kernel.PathToInode` | kernel/src/fs/path.rs:27-69 | Computes the resolution over the directories on disk, terminates on the path position, adds exactly one inode reference on success and none on failure, and changes nothing on disk; a panic means that no inode slot is free. |
| `FileKernel.Kernel.PathToParent` | kernel/src/fs/path.rs:71-126 | Computes the resolution of all but the last component and leaves that one in the name buffer; one reference on success, none on failure. |
| `Namespace.FillName` | kernel/src/fs/path.rs:93-99 | The two copy loops leave the name cut or zero-filled to 60 bytes. |
| `Namespace.BufferedName` | kernel/src/syscall/fs.rs:19-26 | The name taken back from the buffer up to its first NUL names the same directory entry as the component, also beyond 60 bytes. |
| `Links.LinkedOk` | kernel/src/syscall/fs.rs:276-278 | Entering a data file under a further name with its link count raised keeps every link count equal to the number of entries naming the file and every entry on a live inode. |
| `Links.UnlinkedOk` | kernel/src/syscall/fs.rs:312-314 | Removing an entry with the link count lowered keeps the same; the count was positive. |
| `Links.CreatedOk` | kernel/src/syscall/fs.rs:31-36 | A new inode under a new name keeps the same. |
| `Links.DeletedOk` | kernel/src/fs/inode.rs:303-329 | An inode without links is a data file that no entry names; removing it leaves no dangling entry. |
| `OpenFiles.PutOk` | kernel/src/fs/inode.rs:303-329 | Dropping a reference, and with the last one an unlinked inode, keeps references equal to open files plus references in kernel hands, and everything referenced live. |
| `OpenFiles.OpenedOk` | kernel/src/syscall/fs.rs:60-65 | The reference to the inode passes from the call to the new file object. |
| `OpenFiles.ClosedOk` | kernel/src/fs/file.rs:66-91 | The reference of a file object whose last descriptor goes passes back to kernel code. |
| `OpenFiles.GainOk` | kernel/src/syscall/fs.rs:67-73 | A further descriptor with the count raised keeps every file's count equal to the number of descriptor slots that hold it. |
| `OpenFiles.LoseOk` | kernel/src/syscall/fs.rs:79-85 | A cleared descriptor with the count lowered keeps the same. |
| `OpenFiles.FdOpen` | kernel/src/fs/file.rs:66-91 | A file object in a descriptor has a positive count, so the already-free panic is unreachable. |
| `NameLaws.PathKept` | kernel/src/fs/path.rs:27-126 | Where a change of the tree keeps every entry, every path that led somewhere leads to the same place. |
| `NameLaws.OpenNames` | kernel/src/syscall/fs.rs:15-47 | An open that succeeds has the file that the path names afterwards; it creates one exactly if the path named nothing; every path that led somewhere still leads there. |
| `NameLaws.OpenMisses` | kernel/src/syscall/fs.rs:15-47 | Otherwise nothing changes: the path names nothing and, with creation, has no name or no parent. |
| `NameLaws.MkdirNames` | kernel/src/syscall/fs.rs:220-243 | mkdir succeeds exactly where the name is free in a directory; then the path leads to a new empty directory with two links. |
| `NameLaws.LinkNames` | kernel/src/syscall/fs.rs:260-288 | link succeeds exactly for a data file, a name free in a directory and a count with room; then the new path leads to the file, and unlink of it gives back exactly the tree of before. |
| `NameLaws.UnlinkNames` | kernel/src/syscall/fs.rs:290-321 | unlink succeeds exactly on a path to a data file; then the path leads nowhere, every other entry is found as before, and the file is gone exactly if that was its last name and nobody has it open or holds it. |
| `Mkfs.PutInodeRead` | xtask/src/main.rs:243-257 | What mkfs stores as an inode the kernel reads as that inode, and no other inode of the block changes. |
| `Mkfs.MarkedBelow` | xtask/src/main.rs:207-239 | The bits that mkfs sets one by one are the bits that the kernel tests. |
| `Mkfs.PutDentrySlot` | xtask/src/main.rs:280-286 | What mkfs stores as a directory entry is the padded name and the little-endian number; other entries of the block stay. |
| `Mkfs.IndirectAt` | xtask/src/main.rs:305-322 | The index block that mkfs fills holds, as the kernel reads it, the numbers of the blocks behind the tenth. |
| `Mkfs.ImageTrees` | xtask/src/main.rs:207-273 | In the image with files every block in use is marked and used once. |
| `Mkfs.ImageDir` | xtask/src/main.rs:278-292 | The root directory reads as the finite map of its five names. |
| `Mkfs.ImageElf` | xtask/src/main.rs:305-322 | The program of any contents that fits reads back byte for byte, also through the index block. |
| `Mkfs.ImageStarts` | xtask/src/main.rs:116-325 | The image is one that all calls can start from, with that tree, those link counts and those files. |
| `Namespace.BlankImage` | xtask/src/main.rs:137-187 | The image written by default, with nothing but the superblock filled in, is consistent and holds no inode, for every layout. |
| `Namespace.FirstImage` | kernel/src/fs/inode.rs:423-446 | Creating the root directory in such an image gives one from which all the calls can start. |
| `FileKernel.Kernel.constructor` | kernel/src/fs/inode.rs:229-232 | Any consistent image whose live inodes all have links, with processes that have no open files, satisfies the invariant that all calls keep. |
| `FileKernel.Kernel.CreateInode` | kernel/src/syscall/fs.rs:31-36 | A new inode entered under a new name, with one reference to it, or inodes, slots or blocks are used up. |
| `FileKernel.Kernel.IPut` | kernel/src/fs/inode.rs:303-329 | Deletes the inode exactly if this was the last reference and no entry names it; then exactly its blocks become free and every other file is intact. |
| `FileKernel.Kernel.FileClose` | kernel/src/fs/file.rs:66-91 | Lowers the count; inode and blocks go exactly if no file object has it open any more, nothing names it and nothing else holds it; cannot panic. |
| `FileKernel.Kernel.Open` | kernel/src/syscall/fs.rs:10-77 | Opens or creates the target in the lowest free descriptor with a free file object; with truncation a data file is empty afterwards; a failed call changes no descriptor and no count and keeps its reference only when no file object is free; a panic means that inodes, slots or blocks are used up. |
| `FileKernel.Kernel.Close` | kernel/src/syscall/fs.rs:79-85 | Clears exactly this descriptor; succeeds exactly on an open one; frees the blocks of a file whose last reference this was and of no other. |
| `FileKernel.Kernel.Dup` | kernel/src/syscall/fs.rs:167-191 | The lowest free descriptor holds the same file object; otherwise nothing changes. |
| `FileKernel.Kernel.Link` | kernel/src/syscall/fs.rs:260-288 | Outcome and resulting tree as a function of the tree on disk: one further entry and one further link, or no change; no file loses a block or byte and no reference is left over. |
| `FileKernel.Kernel.Unlink` | kernel/src/syscall/fs.rs:290-321 | Outcome and resulting tree as a function of the tree on disk: the entry and one link go, and the file with its blocks only if nothing names, opens or holds it; no reference is left over. |
| `FileKernel.Kernel.Mkdir` | kernel/src/syscall/fs.rs:220-243 | Outcome and resulting tree as a function of the tree on disk: an empty directory with two links under the new name, or no change; no reference is left over. |
| `FileKernel.Kernel.Chdir` | kernel/src/syscall/fs.rs:245-258 | The working directory changes exactly when the path resolves to a directory. |
| `FileKernel.Kernel.ForkFiles` | kernel/src/proc/process.rs:236-244 | The child's descriptors equal the parent's, and every file's count is again the number of slots that hold it. |
| `FileKernel.Kernel.ExitFiles` | kernel/src/proc/process.rs:190-196 | All descriptors of the process are closed, those of others unchanged, and every file that is named, open or held survives unchanged. |
| `FileCalls.WriteTwice` | kernel/src/syscall/fs.rs:130-140 | Two writes, one behind the other, have the effect on the disk of one write of both pieces. |
| `FileCalls.ReceivedFile` | kernel/src/syscall/fs.rs:117-143 | What the chunk loop wrote is an overwrite of the file's bytes if and only if a gap behind its end holds zeros; other files are as they were. |
| `FileCalls.ReadBack` | kernel/src/syscall/fs.rs:87-143 | Reading the range just written gives back what was written. |
| `FileCalls.FsRead` | kernel/src/syscall/fs.rs:96-114 | The 512-byte chunk loop equals one copy of the file's slice into user memory, with the offset moved by what was read; a fault ends it as it would end one copy. |
| `FileCalls.FsWrite` | kernel/src/syscall/fs.rs:126-142 | The chunk loop equals one write of the user's bytes at the offset; a fault leaves exactly the chunks in front of the faulting one written. |
| `SystemCalls.Read` | kernel/src/syscall/fs.rs:87-115 | By descriptor: fails without effect on a free descriptor or a file not open for reading; otherwise one copy of the file's slice from the stored offset, which moves; the inode's extra reference is returned and nothing else changes. |
| `SystemCalls.Write` | kernel/src/syscall/fs.rs:117-143 | By descriptor: fails without effect on a free descriptor or a file not open for writing; otherwise one write of the user's bytes at the stored offset, which moves; tree, references and all other files are kept. |
| `CallRuns.OpenIsLive` | kernel/src/fs/file.rs:66-91 | The inode of an open file is live on disk, however many names it has lost. |
| `CallRuns.KeptWhileOpen` | kernel/src/fs/file.rs:66-91 | Over any stretch of any run during which an inode is open it keeps its kind and every block of its tree, and its bytes if it is a file that no call writes to or truncates. |
| `CallRuns.RunSafe` | kernel/src/syscall/fs.rs:10-321 | In particular every block of an open file stays allocated: an unlinked file's blocks are freed only at or after its last close. |
| `CallRuns.Run` | kernel/src/syscall/fs.rs:10-321 | Over every sequence of open, close, dup, link, unlink, mkdir, chdir, fork, exit, read and write of several processes, each call makes its step on disk, tree, file objects, descriptors and user memory; link counts, references and descriptor counts stay exact and open files stay safe; a run ends early only for want of blocks, inodes or slots, or at a call that leaves what is modelled. |
| `CallLaws.OpenThenRead` | kernel/src/syscall/fs.rs:60-114 | A read through the descriptor that open just returned delivers the bytes from the start of the file the path names, and is refused without effect if and only if the file was opened for writing only. |
| `CallLaws.OpenThenWrite` | kernel/src/syscall/fs.rs:60-143 | A write through it goes to the start of that file, and is refused without effect if and only if the file was opened for reading only. |
| `CallLaws.WrittenIsRead` | kernel/src/syscall/fs.rs:10-143 | In any run: what a process writes through a path it opened is what any process later reads through a path to the same file, if the file stays open and nobody else writes to it or truncates it in between. |
| `CallLaws.FdsInUse` | kernel/src/fs/file.rs:66-91 | In every state of a run the descriptors hold file objects of the table that are in use. |
| `CallLaws.CloseCloses` | kernel/src/syscall/fs.rs:79-85 | A close succeeds exactly on a descriptor in use, which then refuses reads and writes; every other descriptor of every process shows the same file, offset and rights. |
| `CallLaws.NothingToRead` | kernel/src/syscall/fs.rs:87-143 | Reads and writes of a descriptor without a file are refused without effect. |
| `CallLaws.DupShares` | kernel/src/syscall/fs.rs:167-191 | A duplicate is the lowest free descriptor and shares the file object; all other descriptors are as before. |
| `CallLaws.SharedOffset` | kernel/src/syscall/fs.rs:87-115 | A read through one of two descriptors of a file object moves the offset that the other one shows. |
| `CallLaws.ForkShares` | kernel/src/proc/process.rs:236-244 | A child has its parent's descriptors on the same file objects and its working directory; nobody else's change. |
| `CallLaws.ExitCloses` | kernel/src/proc/process.rs:190-196 | An exited process has no descriptor left; those of all others show the same file, offset and rights. |
| `CallLaws.OpenKeepsOthers` | kernel/src/syscall/fs.rs:10-77 | An open uses a descriptor that was free; all others are as before, and all of them if it fails. |
| `CallLaws.OpenTruncates` | kernel/src/syscall/fs.rs:54-58 | After an open with truncation the data file reads as empty. |
| `CallLaws.ChdirThenPath` | kernel/src/syscall/fs.rs:245-258 | After chdir a relative path leads where it led behind the path of the new working directory. |
| `CallLaws.MkdirThenChdir` | kernel/src/syscall/fs.rs:220-258 | A directory just made can be entered by its path. |
| `CallLaws.LinkThenOpen` | kernel/src/syscall/fs.rs:260-288 | After link the new path, which led nowhere, leads to the file that the old path still leads to. |
| `Sv39.PackUnpack` | kernel/src/mem/pte.rs:18-62 | Address and flags unpack from a page-table entry as they were packed. |
| `EntryBits.EntryLayout` | kernel/src/mem/pte.rs:59-62 | Bit by bit: bits 0 to 9 of an entry are the flags, bits 10 to 53 are bits 12 to 55 of the address, the rest is 0. |
| `EntryBits.UnpackLayout` | kernel/src/mem/pte.rs:33-57 | Bit by bit, which bit of an entry each bit of its address and of its flags is. |
| `EntryBits.TestedBits` | kernel/src/mem/pte.rs:5-49 | The tests for V, R, W, X and U look at bits 0 to 4, and a leaf has R, W or X. |
| `EntryBits.SumGrants` | kernel/src/mem/pte.rs:5-12 | For every set of flag constants, the tests on their sum hold exactly for the constants in the set. |
| `PageTable.SlotOfInjective` | kernel/src/mem/addr.rs:34-36 | Distinct pages have distinct slots. |
| `PageTree.SetSlot` | kernel/src/mem/pagetable.rs:83-118 | Storing into one slot changes that slot and no other entry of the tree, because tables are not shared. |
| `PageTree.AddTable` | kernel/src/mem/pagetable.rs:44-53 | Linking a fresh zeroed table keeps the tables an unshared tree and changes no translation. |
| `PageTable.Memory.Walk` | kernel/src/mem/pagetable.rs:23-57 | Finds the slot of every address below 2^38, allocating missing tables only if asked to, and changes no existing translation. |
| `PageTable.Memory.Lookup` | kernel/src/mem/pagetable.rs:59-81 | Finds the slot exactly when the tables on the way exist. |
| `PageTable.Memory.Map` | kernel/src/mem/pagetable.rs:83-118 | Succeeds exactly when every page is below 2^38 and free or already has that frame; then sets exactly its range; a failed call stops at the first bad page with the pages before it set. |
| `PageTable.Memory.Unmap` | kernel/src/mem/pagetable.rs:120-151 | Succeeds exactly when every page is mapped; then clears exactly its range and frees exactly its frames if asked to; a failed call stops at the first unmapped page. |
| `TranslationLaws.MapTranslates` | kernel/src/mem/pagetable.rs:83-118 | After a map every address of the range translates to its physical counterpart, byte for byte, with the flags asked for. |
| `TranslationLaws.MapKeeps` | kernel/src/mem/pagetable.rs:83-118 | Addresses of pages without an address in the range translate as before. |
| `TranslationLaws.MapFits` | kernel/src/mem/pagetable.rs:83-118 | A page is accepted exactly if it lies below VA_MAX and is free or translates to the same place. |
| `TranslationLaws.UnmapTranslates` | kernel/src/mem/pagetable.rs:120-151 | After an unmap no address of a page that the range touches translates, and all others translate as before. |
| `PageTable.Memory.AllocPage` | kernel/src/mem/pmem.rs:161-178 | A zeroed page of the pool that was in no use, or the pool is empty. |
| `PageTable.Memory.FreePage` | kernel/src/mem/pmem.rs:233-241 | Returns an allocated page to the pool its address lies in. |
| `PageDestroy.LeafStep` | kernel/src/mem/pagetable.rs:254-261 | Freeing the user frame of the next leaf frees a frame that is still allocated. |
| `PageDestroy.NodeStep` | kernel/src/mem/pagetable.rs:262-272 | Freeing the next table frees a table all of whose entries are done, exactly once. |
| `PageDestroy.DestroyLevel` | kernel/src/mem/pagetable.rs:247-274 | The recursion terminates and handles exactly the places below its table, each once. |
| `PageDestroy.Destroy` | kernel/src/mem/pagetable.rs:246-277 | Frees every user-pool leaf frame and every table but the root exactly once, no kernel-pool leaf, and leaves the root empty. |
| `PageCopy.Copy` | kernel/src/mem/pagetable.rs:284-360 | A snapshot: the source is unchanged. By the bits U and X of each valid entry and the pool of its frame: a user page of the user pool and a plain kernel page of the kernel pool get a fresh frame of that pool with the same flags and bytes, distinct from all others; executable kernel pages keep their frame; everything else is unmapped. |
| `PageCopy.ActBits` | kernel/src/mem/pagetable.rs:326-352 | Which entries are duplicated, into which pool, and which are shared, by bits 3 and 4 of the entry and the pool of its frame. |
| `PageCopy.CopyLeaf` | kernel/src/mem/pagetable.rs:284-360 | Exactly which user-pool frames the copy refers to. |
| `PageCopy.CopyThenDestroy` | kernel/src/mem/pagetable.rs:246-360 | What copying and then destroying the copy leaves allocated: the user-pool pages of before without those the copy shared, and no table but the copy's root more. |
| `PageCopy.CopyRestores` | kernel/src/mem/pagetable.rs:246-360 | The copy can be destroyed without a double free and destroying it restores the user pool, if and only if the source has no user-pool frame in an executable kernel page. |
| `PageCopy.SharedFrame` | kernel/src/mem/pagetable.rs:284-360 | A concrete memory where the source has such a frame, allocated or not: the copy exists, and destroying it would free a page of the source or free a page twice. |
| `PageCopy.CopyAndDestroy` | kernel/src/mem/pagetable.rs:246-360 | Copy followed by destroy of the copy restores the user pool's free count, or a pool is empty. |
| `UserCopy.FaultBits` | kernel/src/mem/uvm.rs:20-80 | NotMapped exactly for an entry with bit 0 clear, NoPerm exactly for one with bit 0 set and bit 4 or the bit of the access, 1 for reading and 2 for writing, clear. |
| `UserCopy.CopyIn` | kernel/src/mem/uvm.rs:20-49 | All bytes as the page table shows them, or the fault of the first bad byte. |
| `UserCopy.CopyOut` | kernel/src/mem/uvm.rs:51-80 | Exactly the bytes of the range become the source's, or everything before the page of the first faulting byte. |
| `UserCopy.CopyInStr` | kernel/src/mem/uvm.rs:82-119 | The bytes up to and including the first NUL, or the first fault, or TooLong when neither comes within the buffer. |
| `UserCopy.CopyApart` | kernel/src/mem/pagetable.rs:284-360 | After a copy no user frame of one table is a user frame of the other. |
| `UserCopy.NoInterference` | kernel/src/mem/uvm.rs:20-80 | A copyout through one table does not change what copyin returns through the other. |
| `UserCopy.NoInterferenceStr` | kernel/src/mem/uvm.rs:51-119 | The same for the string copy. |
| `UserCopy.SnapshotRead` | kernel/src/mem/pagetable.rs:284-360 | Right after the copy, whatever could be read through the source reads the same through the copy. |
| `UserCopy.CopyBacked` | kernel/src/mem/pagetable.rs:284-360 | After a copy the user pages of both tables are allocated. |
| `UserCopy.CopyThenStore` | kernel/src/mem/pagetable.rs:284-360 | Copy and then any sequence of copyout through either table: the copy starts as a snapshot, each store does what copyout does, and over any stretch of stores nothing that copyin or copyin_str returns through the other table changes. |
| `RegionList.InitLists` | kernel/src/mem/mmap.rs:67-79 | All 256 nodes start in the free list. |
| `RegionList.InsertNode` | kernel/src/mem/mmap.rs:82-102 | Taking a node and linking it at a position inserts exactly that region and conserves the nodes. |
| `RegionList.RemoveNode` | kernel/src/mem/mmap.rs:105-120 | Unlinking a region and returning its node removes exactly that region and conserves the nodes. |
| `RegionSeq.FreeIff` | kernel/src/mem/uvm.rs:278-288 | The two neighbour checks accept exactly the intervals that are free. |
| `RegionSeq.InsertedCanon` | kernel/src/mem/uvm.rs:290-353 | Inserting with merging keeps regions sorted, non-empty, in the window and never touching. |
| `RegionSeq.InsertedPages` | kernel/src/mem/uvm.rs:290-353 | It adds exactly the requested pages. |
| `RegionSeq.CutCanon` | kernel/src/mem/uvm.rs:384-440 | Cutting a range with trimming and splitting keeps regions canonical. |
| `RegionSeq.CutPages` | kernel/src/mem/uvm.rs:384-440 | It removes exactly the pages of the range. |
| `RegionSeq.CanonUnique` | kernel/src/mem/uvm.rs:223-443 | The region list is determined by its set of pages. |
| `RegionSeq.InsertThenCut` | kernel/src/mem/uvm.rs:223-443 | Unmapping what was just mapped gives back the regions, whatever was merged. |
| `Mmap.MapPages` | kernel/src/mem/uvm.rs:207-221 | Maps exactly the range to fresh zero pages with user read/write flags; its map calls cannot fail. |
| `Mmap.Space.constructor` | kernel/src/mem/mmap.rs:67-79 | An unmapped window with no region satisfies the invariant. |
| `Mmap.Space.FirstFit` | kernel/src/mem/uvm.rs:241-264 | Complete first fit: the lowest run of enough free pages, or there is no such run anywhere in the window. |
| `Mmap.Space.Place` | kernel/src/mem/uvm.rs:232-288 | OutOfRange exactly for a zero length, overlap, misalignment or an out-of-window range, or when no run exists for an open address. |
| `Mmap.Space.Link` | kernel/src/mem/uvm.rs:290-353 | The four merge cases give the specified list, conserve nodes and return the start of the merged region. |
| `Mmap.Space.Mmap` | kernel/src/mem/uvm.rs:223-355 | Exact error conditions; success maps exactly the run to fresh zero pages, keeps list and page table in agreement, and returns the start of the region that holds the run. |
| `Mmap.Space.CutNode` | kernel/src/mem/uvm.rs:400-434 | Removal, front trim, back trim and split give the specified list and conserve nodes; fails exactly when a split finds the warehouse empty. |
| `Mmap.Space.Munmap` | kernel/src/mem/uvm.rs:357-443 | Unmaps exactly the regions' pages in its range, frees exactly their frames and leaves the list without them; MapFailed is unreachable; NoMem exactly for a split with an empty warehouse. |
| `Mmap.Space.RunCalls` | kernel/src/mem/uvm.rs:207-443 | Over any run of calls each mmap is refused or adds exactly its run of fresh pages at the place first fit or the caller says, each munmap cuts exactly its range; after every call the list is canonical, agrees with the page table and conserves nodes; a run stops early only at an empty pool or at a call that needs a node of an empty warehouse. |
| `MappedMemory.NewZeros` | kernel/src/mem/uvm.rs:20-49 | Any range of memory that mmap just made reads as zeros. |
| `MappedMemory.NewStore` | kernel/src/mem/uvm.rs:51-80 | A copyout of any bytes into such memory succeeds, and copyin then returns these bytes. |
| `MappedMemory.MapAndStore` | kernel/src/mem/uvm.rs:223-355 | mmap of any length, then a store anywhere in the length asked for: zeros before, the stored bytes after; the address returned is that of the new memory if and only if the page in front of it was in no region. |
| `MappedMemory.MapAndUnmap` | kernel/src/mem/uvm.rs:223-443 | mmap and then munmap of the same memory: the second call cannot fail for want of a node, and regions, translations and pages are as before both. |
| `MappedMemory.UnmapFaults` | kernel/src/mem/uvm.rs:357-443 | After munmap every address of its range in the window faults as not mapped; a page of the window without an address in the range maps as before, to a frame with the same bytes. |
| `PageAllocator.StepKeeps` | kernel/src/mem/pmem.rs:161-203 | Every step of every hart, interleaved in any way, keeps each page in exactly one place with the count that place calls for. |
| `PageAllocator.PopKeeps` | kernel/src/mem/pmem.rs:161-169 | Popping under the lock moves exactly one page from its list into the hart's hands. |
| `PageAllocator.CountKeeps` | kernel/src/mem/pmem.rs:171-175 | The count found after a pop is 0, so the corruption panic is unreachable, as are those of pa_to_index. |
| `PageAllocator.DropKeeps` | kernel/src/mem/pmem.rs:180-193 | The count found when an owner frees is 1, so neither the double-free nor the bounds panic is reachable. |
| `PageAllocator.PushKeeps` | kernel/src/mem/pmem.rs:195-203 | Pushing under the lock returns the page to the list of its region. |
| `PageAllocator.Safe` | kernel/src/mem/pmem.rs:161-203 | Over every run of any number of harts: no panic, each page in exactly one of free list, in flight, owned; allocable is the list length and the number of pages neither owned nor in flight. |
| `PageAllocator.InitRegion` | kernel/src/mem/pmem.rs:130-153 | The loop links exactly the whole pages between the bounds and counts them. |
| `PageAllocator.Initialize` | kernel/src/mem/pmem.rs:35-73 | The split into two regions loses and duplicates no whole page, and the allocator starts in order. |
| `AllocatorLaws.AllocateNone` | kernel/src/mem/pmem.rs:161-169 | Allocating from a region without available pages ends at once and changes nothing. |
| `AllocatorLaws.AllocateThenFree` | kernel/src/mem/pmem.rs:161-203 | Allocating hands out an available page of the region asked for, cleared, and nothing else changes hands; freeing that page gives back exactly the state of before, free list and counts included. |
| `Processes.StepKeeps` | kernel/src/proc/scheduler.rs:14-213 | Every step keeps: at most one Running slot, recorded parents alive, pids distinct, nobody but slot 0 asleep in wait with an ended child. |
| `Processes.ExitKeeps` | kernel/src/proc/process.rs:158-199 | Waking the parent first and handing children to slot 0 is enough to keep that. |
| `Processes.WaitKeeps` | kernel/src/proc/scheduler.rs:113-169 | Going to sleep in wait cannot miss a child that has ended. |
| `Processes.ForkKeeps` | kernel/src/proc/process.rs:543-574 | The new process takes an unused slot that is nobody's parent, with a fresh pid. |
| `Processes.StepHist` | kernel/src/proc/scheduler.rs:113-169 | Every step keeps the record: each collected status is that of an exited process, collected once, by one entitled to it, and none is lost. |
| `Processes.EveryRun` | kernel/src/proc/scheduler.rs:51-213 | Over every run from boot in which slot 0 never exits: each status is returned at most once, only to the process that forked the child or to init after that one exited; none is lost; parents are alive; nobody but init sleeps in wait with an ended child, and init only with one that another, exited process forked; at most one slot is Running. |
| `Processes.StepMisses` | kernel/src/proc/process.rs:164-188 | A step makes a sleeping parent miss an ended child if and only if it is the exit of a process, not init's child, that hands an ended child to init asleep in wait. |
| `Processes.InitMissesOrphan` | kernel/src/proc/process.rs:164-188 | Init is a true exception: a reachable state in which it sleeps in wait with a zombie child that was handed to it. |
| `ProcessLaws.YieldRuns` | kernel/src/proc/scheduler.rs:74-103 | Yield and the switch back leave the table as it was but for the slot, which is Runnable; the next pick runs a Runnable slot no higher than it. |
| `ProcessLaws.SleepSleeps` | kernel/src/proc/scheduler.rs:171-194 | Sleep and the switch back leave the slot asleep on the channel and nothing else changed. |
| `ProcessLaws.AsleepUntilWoken` | kernel/src/proc/scheduler.rs:171-213 | Over every run without a wakeup of its channel a sleeper stays asleep on it. |
| `ProcessLaws.WakeWakes` | kernel/src/proc/scheduler.rs:196-213 | A wakeup makes Runnable exactly the sleepers on its channel. |
| `ProcessLaws.ForkForks` | kernel/src/proc/process.rs:543-574 | Fork fills one unused slot with a Runnable child of the caller, whose pid no slot in use has. |
| `ProcessLaws.ForkThenWait` | kernel/src/proc/scheduler.rs:113-169 | After a fork, a wait without an ended child sleeps. |
| `ProcessLaws.WaitAlone` | kernel/src/proc/scheduler.rs:113-169 | A wait without children changes nothing. |
| `ProcessLaws.ExitWakesParent` | kernel/src/proc/process.rs:158-199 | Exit and the switch back leave a zombie with the status, make its parent Runnable if that waits, hand its children to slot 0 and change no other slot's state. |
| `ProcessLaws.WaitCollects` | kernel/src/proc/scheduler.rs:113-169 | A wait with an ended child returns the status of one and frees its slot; nothing else changes. |
| `Scheduler.MarkOk` | kernel/src/proc/runnable_queue.rs:19-35 | Setting or clearing one bit keeps bit i set exactly when slot i is Runnable. |
| `Scheduler.LowestBit` | kernel/src/proc/runnable_queue.rs:41-52 | The trailing-zeros pick is the lowest Runnable slot of a linear scan. |
| `Scheduler.Scheduler.constructor` | kernel/src/proc/process.rs:539-541 | The machine after boot. |
| `Scheduler.Scheduler.FindRunnable` | kernel/src/proc/runnable_queue.rs:41-52 | Returns what a linear scan for the lowest Runnable slot returns. |
| `Scheduler.Scheduler.PickNext` | kernel/src/proc/scheduler.rs:14-50 | Takes exactly the pick step; the stale-bit branch is unreachable. |
| `Scheduler.Scheduler.SwitchedBack` | kernel/src/proc/scheduler.rs:51-62 | Takes exactly the switch-back step: Dying becomes Zombie, Runnable stays marked. |
| `Scheduler.Scheduler.YieldProc` | kernel/src/proc/scheduler.rs:74-103 | Takes exactly the yield step and keeps the bitmap exact. |
| `Scheduler.Scheduler.SleepOn` | kernel/src/proc/scheduler.rs:171-194 | Takes exactly the sleep step and keeps the bitmap exact. |
| `Scheduler.Scheduler.Wakeup` | kernel/src/proc/scheduler.rs:196-213 | Makes Runnable exactly the processes that sleep on the channel and keeps the bitmap exact. |
| `Scheduler.Scheduler.ExitProc` | kernel/src/proc/process.rs:158-188 | Takes exactly the exit step: parent woken, children handed to slot 0, Dying with the given status. |
| `Scheduler.Scheduler.WaitOnce` | kernel/src/proc/scheduler.rs:113-163 | Takes exactly the wait step: the status of the lowest zombie child, or sleep if there are only live children, or none. |
| `Scheduler.Scheduler.ForkProc` | kernel/src/proc/process.rs:543-574 | Takes exactly the fork step with the lowest unused slot, or all slots are in use. |

## Left out

- VirtIO, UART, PLIC, CLINT, SBI, DTB and printk code: device I/O; the disk is a sequence of blocks that a read or write of a block sees at once.
- Assembly, trap entry and return, `switch_context`, CSRs and the interrupt flag: a context switch is a step boundary, and critical sections are single steps.
- Locks and their progress: `sleep` and `wait` call `find_proc_index`, which takes the table lock they already hold; each is modelled as the single critical section it is meant to be, and nothing is said about progress.
- Concurrency outside the page allocator: the file system, page tables, mmap and the process table are modelled for one hart, which is how the kernel runs them.
- Scheduler fairness: the lowest Runnable slot always wins, so none holds.
- kernel/src/fs/buffer_list.rs: not part of the build.
- UTF-8 decoding of the console, ELF loading, and the raw test system calls that bypass the invariants.
- `brk`, heap and stack growth, `lseek`, `fstat` and directory listing: they would only add easy members.
- FileRuns.Run: no truncation among its operations; after one, bytes behind the end of a file can reappear in a later gap, and FileBytes.GapExact says exactly when.
- 32-bit and 64-bit overflow: an inode-level read or write needs off + len at most 2^32 - 4096, and explicit mmap addresses must not wrap; a read or write by descriptor beyond that ends with the outcome `Outside`.
- A final parent that is not a directory in create, link, unlink and mkdir, and a link count beyond 65535: the code checks neither; the calls end with the outcome `Outside`, whose exact condition is part of their results.
- Paths with NUL bytes: the system calls read paths as NUL-terminated strings.
- fork's copy of the address space without the mmap list, and the release of only the first mmap node at process exit: the mmap statements are for one process between forks.
- PageTable.Memory.Map: flags must contain R, W or X, as those of all callers do; without them the entry would be taken for a table.
- PageTable.Memory.AllocPage: the single-hart view of the allocator; the reference counts and the interleaving are in PageAllocator.
- BufferCache.Cache.Release: the client must have written its bytes back, as all callers in the kernel do.
- Mmap.Space.Mmap: after NoMem the new pages stay mapped without a region, as in the code, so the agreement of list and page table is not claimed for that outcome; the same holds for Mmap.Space.Munmap after NoMem.
- PageCopy.CopyAndDestroy: for sources without shared user-pool frames, which PageCopy.CopyRestores shows to be the exact condition.
- The superblock's bytes: its numbers are given to the file system, and block 0 of the mkfs image is not modelled.
- Mkfs.ImageStarts: for programs of at most 996 blocks; a larger one is written beyond the data area.
- The rest of xtask, user programs and the kernel's own tests.
