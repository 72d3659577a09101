/**
  `fs_read` and `fs_write` by descriptor (kernel/src/syscall/fs.rs): the descriptor's file object, its flags and its
  offset, the inode's reference for the length of the call, and the copy between file and user memory.
*/
module SystemCalls {
  import opened Base
  import opened Sv39
  import opened PageTree
  import opened PageTable
  import opened FileTree
  import opened FileSystem
  import opened DiskTree
  import opened Namespace
  import opened FileKernel
  import OpenFiles
  import Links
  import Paths
  import FileBytes
  import FileCalls
  import UserCopy
  import BufferCache

  /** The address space that the calls copy from and to. */
  ghost predicate UserReady(m: Memory, root: nat)
    reads m
  {
    m.Valid() && TreeInv(m.tables, root) && UserCopy.Backed(m.tables, m.pages, root)
  }

  // ----- read and write by descriptor

  /** The file object of a descriptor. */
  function FileOf(procs: seq<OpenFiles.Proc>, p: nat, fd: nat): Option<nat>
    requires p < |procs|
  {
    if fd < |procs[p].fds| then procs[p].fds[fd] else None
  }

  function WithOff(files: seq<OpenFiles.File>, f: nat, off: nat): seq<OpenFiles.File>
    requires f < |files|
  {
    files[f := files[f].(off := off)]
  }

  /** The inode of an open file is live and referenced. */
  lemma OpenRef(t: Paths.Tree, refs: map<nat, nat>, files: seq<OpenFiles.File>, held: multiset<nat>, f: nat)
    requires OpenFiles.RefsOk(t, refs, files, held) && f < |files| && files[f].refcnt > 0
    ensures files[f].inum in t && OpenFiles.RefOf(refs, files[f].inum) > 0
    ensures files[f].writable ==> !t[files[f].inum].dir
  {
    var i := files[f].inum;
    assert f in OpenFiles.OpenOf(files, i);
    hide OpenFiles.OpenOf;
    assert OpenFiles.RefOf(refs, i) == |OpenFiles.OpenOf(files, i)| + held[i];
  }

  /** A new offset concerns neither references nor descriptors. */
  lemma OffOk(t: Paths.Tree, refs: map<nat, nat>, files: seq<OpenFiles.File>, held: multiset<nat>,
              procs: seq<OpenFiles.Proc>, f: nat, off: nat)
    requires OpenFiles.RefsOk(t, refs, files, held) && OpenFiles.FdsOk(files, procs) && f < |files|
    ensures OpenFiles.RefsOk(t, refs, WithOff(files, f, off), held) && OpenFiles.FdsOk(WithOff(files, f, off), procs)
  {
    OpenFiles.RecountOk(t, refs, files, WithOff(files, f, off), held);
    hide OpenFiles.RefsOk, OpenFiles.SlotsOf;
  }

  /** Only the offset of file object `f` changed. */
  ghost predicate OffMoved(files: seq<OpenFiles.File>, gs: seq<OpenFiles.File>, f: nat) {
    f < |files| == |gs| && gs == WithOff(files, f, gs[f].off)
  }

  /** What a read through file object `f` does: one copy of the file's bytes from its offset on, which moves by them. */
  ghost predicate ReadDone(sb: SuperBlock, d: Disk, files: seq<OpenFiles.File>, gs: seq<OpenFiles.File>,
                           t: Tables, pg: Pages, pg': Pages, root: nat, f: nat, dst: nat, len: nat, r: Reply<nat>) {
    && OffMoved(files, gs, f)
    && var (off, n) := (files[f].off, files[f].inum);
       if r.Done? then FileCalls.Sends(sb, d, n, off, len, t, pg, pg', root, dst, UserCopy.Ok(r.value), gs[f].off)
       else r.Failed? && exists e ::
         FileCalls.Sends(sb, d, n, off, len, t, pg, pg', root, dst, UserCopy.Err(e), gs[f].off)
  }

  /** The inode's part of a read: get it, copy, put it. */
  method ReadFile(k: Kernel, f: nat, m: Memory, root: nat, dst: nat, len: nat)
    returns (c: UserCopy.CopyResult<nat>, off: nat)
    requires k.Valid() && UserReady(m, root) && dst + len < ADDRESS_SPACE
    requires f < |k.files| && k.files[f].refcnt > 0 && FileCalls.Fits(k.files[f].off, len)
    modifies k`tree, k`refs, k`held, k.fs, k.fs.cache, m`pages
    ensures k.tree == old(k.tree) && k.held == old(k.held) && k.fs.cache.disk == old(k.fs.cache.disk)
    ensures FileCalls.Sends(k.fs.sb, k.fs.cache.disk, old(k.files)[f].inum, old(k.files)[f].off, len,
                            m.tables, old(m.pages), m.pages, root, dst, c, off)
    ensures k.Valid() && UserReady(m, root)
  {
    hide Shows, FsInv, BufferCache.CacheInv, MemInv, TreeInv, Links.TreeOk, OpenFiles.RefsOk, OpenFiles.FdsOk, CwdsOk;
    hide Stay, Intact;
    hide UserCopy.Backed, FileCalls.Sends, NoFreeSlot, OpenFiles.AfterPut;
    var x := k.files[f];
    OpenRef(k.tree, k.refs, k.files, k.held, f);
    var s := k.IGet(x.inum);
    SlotKind(k.fs.sb, k.fs.cache.disk, k.fs.inodes, k.tree, k.refs, s.value, x.inum);
    OpenFiles.HeldTwice(k.tree, old(k.refs), k.refs, k.files, old(k.held), k.held, x.inum);
    c, off := FileCalls.FsRead(k.fs, m, root, s.value, x.off, dst, len);
    UserKept(k.fs.sb, k.fs.cache.disk, x.inum, x.off, len, m.tables, old(m.pages), m.pages, root, dst, c, off);
    k.IPut(s.value, x.inum);
    assert k.held == old(k.held);
  }

  /** What a read by descriptor does. */
  ghost predicate ReadBy(sb: SuperBlock, d: Disk, procs: seq<OpenFiles.Proc>, files: seq<OpenFiles.File>,
                         gs: seq<OpenFiles.File>, t: Tables, pg: Pages, pg': Pages,
                         p: nat, fd: nat, root: nat, dst: nat, len: nat, r: Reply<nat>)
    requires p < |procs|
  {
    var f := FileOf(procs, p, fd);
    if f.None? || f.value >= |files| || !files[f.value].readable then r.Failed? && gs == files && pg' == pg
    else if !FileCalls.Fits(files[f.value].off, len) then r.Outside? && gs == files && pg' == pg
    else ReadDone(sb, d, files, gs, t, pg, pg', root, f.value, dst, len, r)
  }

  /** `fs_read` */
  method Read(k: Kernel, p: nat, fd: nat, m: Memory, root: nat, dst: nat, len: nat) returns (r: Reply<nat>)
    requires k.Valid() && p < |k.procs| && UserReady(m, root) && dst + len < ADDRESS_SPACE
    modifies k`files, k`tree, k`refs, k`held, k.fs, k.fs.cache, m`pages
    ensures k.tree == old(k.tree) && k.held == old(k.held) && k.fs.cache.disk == old(k.fs.cache.disk)
    ensures ReadBy(k.fs.sb, k.fs.cache.disk, old(k.procs), old(k.files), k.files, m.tables, old(m.pages), m.pages,
                   p, fd, root, dst, len, r)
    ensures k.Valid() && UserReady(m, root)
  {
    hide Shows, FsInv, BufferCache.CacheInv, MemInv, TreeInv, Links.TreeOk, OpenFiles.RefsOk, OpenFiles.FdsOk, CwdsOk;
    hide UserCopy.Backed, FileCalls.Sends;
    FdsLength(k.files, k.procs, p);
    if fd >= OpenFiles.NOFILE || k.procs[p].fds[fd].None? { return Reply.Failed; }
    OpenFiles.FdOpen(k.files, k.procs, p, fd);
    var f := k.procs[p].fds[fd].value;
    if !k.files[f].readable { return Reply.Failed; }
    if !FileCalls.Fits(k.files[f].off, len) { return Outside; }
    var c, off := ReadFile(k, f, m, root, dst, len);
    OffOk(k.tree, k.refs, k.files, k.held, k.procs, f, off);
    k.files := WithOff(k.files, f, off);
    r := if c.Ok? then Reply.Done(c.value) else Reply.Failed;
  }

  lemma UserKept(sb: SuperBlock, d: Disk, n: nat, off: nat, len: nat, t: Tables, pg: Pages, pg': Pages,
                 root: nat, dst: nat, r: UserCopy.CopyResult<nat>, off': nat)
    requires UserCopy.Backed(t, pg, root) && FileCalls.Sends(sb, d, n, off, len, t, pg, pg', root, dst, r, off')
    ensures UserCopy.Backed(t, pg', root)
  {
    hide UserCopy.Backed, UserCopy.CopyOutResult;
    var w := Slice(FileBytes.File(sb, d, n), off, len);
    UserCopy.OutWrote(t, pg, pg', root, dst, w, if r.Ok? then UserCopy.Ok(()) else UserCopy.Err(r.error));
    UserCopy.BackedStays(t, pg, pg', root, root);
  }

  /** What a write through file object `f` does: one write of the user's bytes at its offset, which moves by them. */
  ghost predicate WriteDone(sb: SuperBlock, d: Disk, e: Disk, files: seq<OpenFiles.File>, gs: seq<OpenFiles.File>,
                            t: Tables, pg: Pages, root: nat, f: nat, src: nat, len: nat, r: Reply<nat>,
                              data: seq<byte>) {
    && OffMoved(files, gs, f)
    && var (off, n) := (files[f].off, files[f].inum);
       if r.Done?
         then FileCalls.Takes(sb, d, e, n, off, len, t, pg, root, src, FileCalls.Sent(r.value), gs[f].off, data)
       else
         && r.Failed?
         && exists x :: FileCalls.Takes(sb, d, e, n, off, len, t, pg, root, src, FileCalls.Faulted(x), gs[f].off, data)
  }

  /** Writing to a file that is no directory leaves the tree and all other files alone. */
  lemma TakesShows(sb: SuperBlock, d: Disk, e: Disk, a: seq<Inode>, b: seq<Inode>, tree: Paths.Tree, refs: map<nat,
                   nat>, s: nat, n: nat, off: nat, len: nat, t: Tables, pg: Pages, root: nat, src: nat,
                   r: FileCalls.Outcome, off': nat, data: seq<byte>, h: multiset<nat>)
    requires Shows(sb, d, a, tree, refs) && FsInv(sb, e, b) && DiskTree.At(a, s, n) && n in tree && !tree[n].dir
    requires |b| == |a| && b == a[s := a[s].(disk := b[s].disk)]
    requires FileCalls.Takes(sb, d, e, n, off, len, t, pg, root, src, r, off', data)
    ensures Shows(sb, e, b, tree, refs) && Still(sb, d, e, {n}) && DiskTree.At(b, s, n)
  {
    hide Shows, Still, FileBytes.WriteResult, UserCopy.ReadOk, FileCalls.FaultInChunk;
    SlotShows(sb, d, a, tree, refs, s, n);
    if data == [] {
      WroteNothing(sb, d, a, b, tree, refs, s);
      StillSelf(sb, d);
      StillMore(sb, d, d, {}, {n});
    } else {
      WriteShows(sb, d, e, a, b, tree, refs, s, n, off, data, h);
    }
  }

  lemma WroteNothing(sb: SuperBlock, d: Disk, a: seq<Inode>, b: seq<Inode>, tree: Paths.Tree, refs: map<nat, nat>,
                     s: nat)
    requires Shows(sb, d, a, tree, refs) && FsInv(sb, d, b) && s < |a| == |b| && b == a[s := a[s].(disk := b[s].disk)]
    ensures Shows(sb, d, b, tree, refs)
  {
    hide FsInv, Dirs, TreeOf, RefsOf;
    RefsKept(a, s, b[s].disk, multiset{});
  }

  /** The inode's part of a write: get it, write, put it. */
  method WriteFile(k: Kernel, f: nat, m: Memory, root: nat, src: nat, len: nat)
    returns (c: FileCalls.Outcome, off: nat, ghost data: seq<byte>)
    requires k.Valid() && UserReady(m, root) && src + len < ADDRESS_SPACE
    requires f < |k.files| && k.files[f].refcnt > 0 && k.files[f].writable && FileCalls.Fits(k.files[f].off, len)
    modifies k`tree, k`refs, k`held, k.fs, k.fs.cache
    ensures c.Panicked? ==> Exhausted(k.fs.sb, k.fs.cache.disk, k.fs.inodes)
    ensures !c.Panicked? ==>
      && k.tree == old(k.tree) && k.held == old(k.held)
      && Still(k.fs.sb, old(k.fs.cache.disk), k.fs.cache.disk, {old(k.files)[f].inum})
      && FileCalls.Takes(k.fs.sb, old(k.fs.cache.disk), k.fs.cache.disk, old(k.files)[f].inum, old(k.files)[f].off, len,
                         m.tables, m.pages, root, src, c, off, data)
    ensures !c.Panicked? ==> k.Valid()
  {
    hide Shows, FsInv, BufferCache.CacheInv, MemInv, TreeInv, Links.TreeOk, OpenFiles.RefsOk, OpenFiles.FdsOk, CwdsOk;
    hide Stay, Intact;
    hide UserCopy.Backed, FileCalls.Takes, NoFreeSlot, OpenFiles.AfterPut, Still, Full, Exhausted;
    var x := k.files[f];
    OpenRef(k.tree, k.refs, k.files, k.held, f);
    var s := k.IGet(x.inum);
    SlotKind(k.fs.sb, k.fs.cache.disk, k.fs.inodes, k.tree, k.refs, s.value, x.inum);
    OpenFiles.HeldTwice(k.tree, old(k.refs), k.refs, k.files, old(k.held), k.held, x.inum);
    ghost var a := k.fs.inodes;
    c, off, data := FileCalls.FsWrite(k.fs, m, root, s.value, x.off, src, len);
    if c.Panicked? {
      FullStop(k.fs.sb, k.fs.cache.disk, k.fs.inodes);
      return;
    }
    TakesShows(k.fs.sb, old(k.fs.cache.disk), k.fs.cache.disk, a, k.fs.inodes, k.tree, k.refs, s.value, x.inum, x.off,
               len, m.tables, m.pages, root, src, c, off, data, k.held);
    k.IPut(s.value, x.inum);
    assert k.held == old(k.held);
  }

  /** What a write by descriptor does. */
  ghost predicate WriteBy(sb: SuperBlock, d: Disk, e: Disk, procs: seq<OpenFiles.Proc>, files: seq<OpenFiles.File>,
                          gs: seq<OpenFiles.File>, t: Tables, pg: Pages,
                          p: nat, fd: nat, root: nat, src: nat, len: nat, r: Reply<nat>, data: seq<byte>)
    requires p < |procs|
  {
    var f := FileOf(procs, p, fd);
    if f.None? || f.value >= |files| || !files[f.value].writable then r.Failed? && gs == files && e == d
    else if !FileCalls.Fits(files[f.value].off, len) then r.Outside? && gs == files && e == d
    else WriteDone(sb, d, e, files, gs, t, pg, root, f.value, src, len, r, data)
  }

  /** The inode that a write by descriptor may change. */
  ghost function WriteSet(procs: seq<OpenFiles.Proc>, files: seq<OpenFiles.File>, p: nat, fd: nat): set<nat>
    requires p < |procs|
  {
    var f := FileOf(procs, p, fd);
    if f.Some? && f.value < |files| && files[f.value].writable then {files[f.value].inum} else {}
  }

  /** `fs_write` */
  method Write(k: Kernel, p: nat, fd: nat, m: Memory, root: nat, src: nat, len: nat)
    returns (r: Reply<nat>, ghost data: seq<byte>)
    requires k.Valid() && p < |k.procs| && UserReady(m, root) && src + len < ADDRESS_SPACE
    modifies k`files, k`tree, k`refs, k`held, k.fs, k.fs.cache
    ensures r.Panicked? ==> Exhausted(k.fs.sb, k.fs.cache.disk, k.fs.inodes)
    ensures !r.Panicked? ==>
      && k.tree == old(k.tree) && k.held == old(k.held)
      && Still(k.fs.sb, old(k.fs.cache.disk), k.fs.cache.disk, WriteSet(old(k.procs), old(k.files), p, fd))
      && WriteBy(k.fs.sb, old(k.fs.cache.disk), k.fs.cache.disk, old(k.procs), old(k.files), k.files, m.tables, m.pages,
                 p, fd, root, src, len, r, data)
    ensures !r.Panicked? ==> k.Valid()
  {
    hide Shows, FsInv, BufferCache.CacheInv, MemInv, TreeInv, Links.TreeOk, OpenFiles.RefsOk, OpenFiles.FdsOk, CwdsOk;
    hide UserCopy.Backed, FileCalls.Takes, Still, Exhausted;
    data := [];
    FdsLength(k.files, k.procs, p);
    InTable(k.fs.sb, k.fs.cache.disk, k.fs.inodes, k.tree, k.refs);
    StillSelf(k.fs.sb, k.fs.cache.disk);
    StillMore(k.fs.sb, k.fs.cache.disk, k.fs.cache.disk, {}, WriteSet(k.procs, k.files, p, fd));
    if fd >= OpenFiles.NOFILE || k.procs[p].fds[fd].None? { return Reply.Failed, data; }
    OpenFiles.FdOpen(k.files, k.procs, p, fd);
    var f := k.procs[p].fds[fd].value;
    if !k.files[f].writable { return Reply.Failed, data; }
    if !FileCalls.Fits(k.files[f].off, len) { return Outside, data; }
    var c, off;
    c, off, data := WriteFile(k, f, m, root, src, len);
    if c.Panicked? { return Reply.Panicked, data; }
    OffOk(k.tree, k.refs, k.files, k.held, k.procs, f, off);
    k.files := WithOff(k.files, f, off);
    r := if c.Sent? then Reply.Done(c.n) else Reply.Failed;
    if c.Faulted? {
      assert FileCalls.Takes(k.fs.sb, old(k.fs.cache.disk), k.fs.cache.disk, old(k.files)[f].inum, old(k.files)[f].off,
                             len, m.tables, m.pages, root, src, FileCalls.Faulted(c.error), k.files[f].off, data);
    }
  }
}
