/**
  The file-system calls (kernel/src/syscall/fs.rs) with path resolution (path.rs) and file objects (file.rs), on top of
  the inode layer.  The tree of directories and the reference counts are what disk and inode table stand for.
*/
module FileKernel {
  import opened Base
  import opened Names
  import opened Paths
  import opened Links
  import opened OpenFiles
  import opened DiskFormat
  import opened FileSystem
  import opened Directory
  import opened DiskTree
  import opened Namespace
  import FileTree
  import FileBytes
  import BufferCache

  class Kernel {
    const fs: Fs
    var files: seq<File>
    var procs: seq<Proc>
    ghost var tree: Tree
    ghost var refs: map<nat, nat>
    ghost var held: multiset<nat>

    /** The disk stands for `tree`, the inode table for `refs`, and at most three buffers were ever held at once. */
    ghost predicate Wf()
      reads this, fs, fs.cache
    {
      fs.Valid() && fs.cache.peak <= 3 && Shows(fs.sb, fs.cache.disk, fs.inodes, tree, refs)
    }

    ghost predicate Valid()
      reads this, fs, fs.cache
    {
      Wf() && TreeOk(tree) && RefsOk(tree, refs, files, held) && FdsOk(files, procs) && CwdsOk(tree, procs)
    }

    /** Any consistent image without unreferenced leftovers, with `n` processes that have no open files. */
    constructor (fs: Fs, n: nat)
      requires fs.Valid() && fs.cache.peak <= 3 && forall s :: 0 <= s < |fs.inodes| ==> fs.inodes[s].refcnt == 0
      requires Dirs(fs.sb, fs.cache.disk) && TreeOk(TreeOf(fs.sb, fs.cache.disk))
      requires forall i :: i in TreeOf(fs.sb, fs.cache.disk) ==> TreeOf(fs.sb, fs.cache.disk)[i].nlink > 0
      ensures Valid() && this.fs == fs && held == multiset{} && |procs| == n
    {
      hide TreeOf, Dirs, FsInv, BufferCache.CacheInv, TreeOk, RefsOk, FdsOk, CwdsOk, Shows, BootFiles, BootProcs;
      this.fs := fs;
      files := BootFiles();
      procs := BootProcs(n);
      tree := TreeOf(fs.sb, fs.cache.disk);
      refs := map[];
      held := multiset{};
      new;
      BootShows(fs.sb, fs.cache.disk, fs.inodes);
      BootRefs(tree);
      BootFds(tree, n);
    }

    /** `inode_get` */
    method IGet(i: nat) returns (r: Option<nat>)
      requires Wf() && RefsOk(tree, refs, files, held) && i in tree
      modifies this`refs, this`held, fs, fs.cache
      ensures Wf() && fs.cache.disk == old(fs.cache.disk)
      ensures r.None? ==> NoFreeSlot(fs.inodes) && RefOf(old(refs), i) == 0
      ensures r.Some? ==>
        && RefsOk(tree, refs, files, held) && held == old(held) + multiset{i}
        && At(fs.inodes, r.value, i) && Stay(old(fs.inodes), fs.inodes, old(held))
    {
      hide Shows, FsInv, FileTree.Trees, Icache, BufferCache.CacheInv, RefsOk, NotCached, FileTree.Live;
      hide FileTree.InodeAt;
      GetReady(fs.sb, fs.cache.disk, fs.inodes, tree, refs, i);
      r := fs.InodeGet(i);
      GetDone(fs.sb, fs.cache.disk, fs.inodes);
      if r.None? { return; }
      GetShows(fs.sb, fs.cache.disk, old(fs.inodes), fs.inodes, tree, refs, r.value, i, held);
      GetOk(tree, refs, RefsOf(fs.inodes), files, held, i);
      refs, held := RefsOf(fs.inodes), held + multiset{i};
    }

    /** `inode_put`: deletes the inode and frees its blocks with its last reference if no entry names it. */
    method IPut(s: nat, ghost i: nat)
      requires Wf() && TreeOk(tree) && RefsOk(tree, refs, files, held) && At(fs.inodes, s, i) && i in held
      modifies this`tree, this`refs, this`held, fs, fs.cache
      ensures Wf() && TreeOk(tree) && RefsOk(tree, refs, files, held) && held == old(held) - multiset{i}
      ensures i in old(tree) && tree == AfterPut(old(tree), old(refs), i)
      ensures Stay(old(fs.inodes), fs.inodes, held) && Released(fs.sb, old(fs.cache.disk), fs.cache.disk)
      ensures old(tree)[i].nlink > 0 || RefOf(old(refs), i) > 1 ==> fs.cache.disk == old(fs.cache.disk)
    {
      hide Shows, FsInv, BufferCache.CacheInv, RefsOk, TreeOk, FileTree.Deleted, Stay, Released, RefsOf, AfterPut;
      hide TreeOf;
      PutReady(fs.sb, fs.cache.disk, fs.inodes, tree, refs, files, held, s, i);
      fs.InodePut(s);
      PutKeeps(fs.sb, old(fs.cache.disk), fs.cache.disk, old(fs.inodes), fs.inodes, tree, refs, files, held, s, i);
      tree, refs, held := AfterPut(tree, refs, i), RefsOf(fs.inodes), held - multiset{i};
    }

    /** Putting an inode that some entry names. */
    method PutNamed(s: nat, ghost i: nat)
      requires Wf() && TreeOk(tree) && RefsOk(tree, refs, files, held) && At(fs.inodes, s, i) && i in held
      requires Named(tree, i)
      modifies this`tree, this`refs, this`held, fs, fs.cache
      ensures Wf() && RefsOk(tree, refs, files, held) && tree == old(tree) && held == old(held) - multiset{i}
      ensures fs.cache.disk == old(fs.cache.disk) && Stay(old(fs.inodes), fs.inodes, held)
    {
      hide Shows, FsInv, BufferCache.CacheInv, RefsOk, TreeOk, AfterPut, Released;
      NamedStays(tree, refs, i);
      IPut(s, i);
    }

    /** Moving from one directory of a path to the next. */
    method Advance(s: nat, to: nat, ghost from: nat, ghost base: multiset<nat>) returns (r: Option<nat>)
      requires Wf() && TreeOk(tree) && RefsOk(tree, refs, files, held) && Named(tree, from) && to in tree
      requires held == base + multiset{from} && At(fs.inodes, s, from)
      modifies this`tree, this`refs, this`held, fs, fs.cache
      ensures Wf() && tree == old(tree) && fs.cache.disk == old(fs.cache.disk)
      ensures r.None? ==> NoFreeSlot(fs.inodes)
      ensures r.Some? ==>
        && RefsOk(tree, refs, files, held) && held == base + multiset{to}
        && At(fs.inodes, r.value, to) && Stay(old(fs.inodes), fs.inodes, base)
    {
      hide Shows, FsInv, BufferCache.CacheInv, RefsOk, TreeOk, NoFreeSlot;
      r := IGet(to);
      if r.None? { return; }
      ghost var mid := fs.inodes;
      PutNamed(s, from);
      StayTrans(old(fs.inodes), mid, fs.inodes, old(held), held, base);
    }

    /** The check for a directory and `dentry_search` in it. */
    method Lookup(s: nat, ghost d: nat, name: seq<byte>) returns (r: Option<nat>)
      requires Wf() && At(fs.inodes, s, d)
      modifies fs, fs.cache
      ensures Wf() && fs.cache.disk == old(fs.cache.disk) && fs.inodes == old(fs.inodes)
      ensures d in tree && r == Search(tree, d, name)
    {
      hide Shows, FsInv, BufferCache.CacheInv, DirAt, Key, FileTree.InodeAt, FileTree.Live, IsDir;
      SlotShows(fs.sb, fs.cache.disk, fs.inodes, tree, refs, s, d);
      if fs.inodes[s].disk.kind != TYPE_DIR { return None; }
      r := DentrySearch(fs, s, name);
    }

    /** One component of a path: on to the inode it names, in exchange for the reference to the directory. */
    method Follow(s: nat, name: seq<byte>, ghost d: nat, ghost base: multiset<nat>)
      returns (r: Reply<nat>, ghost i: nat)
      requires Wf() && TreeOk(tree) && RefsOk(tree, refs, files, held) && Named(tree, d)
      requires held == base + multiset{d} && At(fs.inodes, s, d)
      modifies this`tree, this`refs, this`held, fs, fs.cache
      ensures !r.Outside? && Wf() && tree == old(tree) && fs.cache.disk == old(fs.cache.disk)
      ensures r.Panicked? ==> NoFreeSlot(fs.inodes)
      ensures !r.Panicked? ==> RefsOk(tree, refs, files, held) && Stay(old(fs.inodes), fs.inodes, base)
      ensures r.Failed? ==> Search(tree, d, name).None? && held == base
      ensures r.Done? ==>
        && Search(tree, d, name) == Some(i) && Named(tree, i) && At(fs.inodes, r.value, i) && held == base + multiset{i}
    {
      hide Shows, FsInv, BufferCache.CacheInv, RefsOk, TreeOk, Search, Named, NoFreeSlot;
      i := 0;
      var next := Lookup(s, d, name);
      if next.None? {
        PutNamed(s, d);
        return Failed, i;
      }
      SearchNamed(tree, d, name);
      i := next.value;
      var n := Advance(s, next.value, d, base);
      if n.None? { return Panicked, i; }
      return Done(n.value), i;
    }

    /** `path_to_inode_at`: resolution, with one reference more exactly on success. */
    method PathToInode(p: nat, path: seq<byte>) returns (r: Reply<nat>, ghost i: nat)
      requires Valid() && p < |procs|
      modifies this`tree, this`refs, this`held, fs, fs.cache
      ensures r.Failed? ==> PathTo(old(tree), old(procs)[p].cwd, path).None? && held == old(held)
      ensures r.Done? ==> PathTo(old(tree), old(procs)[p].cwd, path) == Some(i) && Named(tree, i)
      ensures r.Done? ==> At(fs.inodes, r.value, i) && held == old(held) + multiset{i}
      ensures !r.Outside? && (r.Panicked? ==> Wf() && NoFreeSlot(fs.inodes))
      ensures !r.Panicked? ==> Valid() && tree == old(tree) && fs.cache.disk == old(fs.cache.disk)
      ensures !r.Panicked? ==> Stay(old(fs.inodes), fs.inodes, old(held))
    {
      hide Shows, FsInv, BufferCache.CacheInv, RefsOk, TreeOk, FdsOk, CwdsOk, Search, Resolve, Components, Element;
      hide Named, NoFreeSlot;
      StartNamed(tree, procs, p, path);
      i := StartOf(path, procs[p].cwd);
      ghost var start := i;
      var s := IGet(if path != [] && path[0] == SLASH then ROOT_INODE else procs[p].cwd);
      if s.None? { return Panicked, i; }
      var slot, pos := s.value, 0;
      while true
        invariant pos <= |path| && Valid() && tree == old(tree) && fs.cache.disk == old(fs.cache.disk)
        invariant At(fs.inodes, slot, i) && Named(tree, i) && held == old(held) + multiset{i}
        invariant Stay(old(fs.inodes), fs.inodes, old(held))
        invariant Resolve(tree, start, Components(path, 0)) == Resolve(tree, i, Components(path, pos))
        decreases |path| - pos
      {
        var e := GetElement(path, pos);
        if e.None? {
          EndOfPath(tree, i, path, pos);
          return Done(slot), i;
        }
        ResolveStep(tree, i, path, pos);
        pos := e.value.1;
        ghost var was := fs.inodes;
        r, i := Follow(slot, e.value.0, i, old(held));
        if r.Panicked? { return; }
        StayTrans(old(fs.inodes), was, fs.inodes, old(held), old(held), old(held));
        if r.Failed? { return; }
        slot := r.value;
      }
    }

    /**
      `path_to_parent_inode_at`: resolution of all but the last component, which is left in the name buffer.  Without
      any component it yields the start and leaves the buffer as it was.
    */
    method PathToParent(p: nat, path: seq<byte>, buf: seq<byte>) returns (r: Reply<nat>, name: seq<byte>, ghost i: nat)
      requires Valid() && p < |procs| && |buf| == MAXLEN_FILENAME
      modifies this`tree, this`refs, this`held, fs, fs.cache
      ensures r.Failed? ==> NoParent(old(tree), old(procs)[p].cwd, path) && held == old(held)
      ensures r.Done? ==> FoundParent(old(tree), old(procs)[p].cwd, path, buf, i, name) && Named(tree, i)
      ensures r.Done? ==> At(fs.inodes, r.value, i) && held == old(held) + multiset{i}
      ensures !r.Outside? && (r.Panicked? ==> Wf() && NoFreeSlot(fs.inodes))
      ensures !r.Panicked? ==> Valid() && tree == old(tree) && fs.cache.disk == old(fs.cache.disk)
      ensures !r.Panicked? ==> Stay(old(fs.inodes), fs.inodes, old(held))
    {
      hide Shows, FsInv, BufferCache.CacheInv, RefsOk, TreeOk, FdsOk, CwdsOk, Search, Resolve, Components, Element;
      hide Front, OnTheWay;
      hide Named, NoFreeSlot;
      name := buf;
      StartNamed(tree, procs, p, path);
      i := StartOf(path, procs[p].cwd);
      ghost var start := i;
      var s := IGet(if path != [] && path[0] == SLASH then ROOT_INODE else procs[p].cwd);
      if s.None? { return Panicked, buf, i; }
      var slot := s.value;
      var e := GetElement(path, 0);
      SplitPath(path, 0);
      if e.None? { return Done(slot), buf, i; }
      var last, pos := e.value.0, e.value.1;
      ghost var cs := Components(path, 0);
      ParentStart(tree, start, cs);
      while true
        invariant pos <= |path| && Valid() && tree == old(tree) && fs.cache.disk == old(fs.cache.disk)
        invariant At(fs.inodes, slot, i) && Named(tree, i) && held == old(held) + multiset{i}
        invariant Stay(old(fs.inodes), fs.inodes, old(held))
        invariant OnTheWay(tree, start, cs, i, last, Components(path, pos))
        decreases |path| - pos
      {
        var ahead := GetElement(path, pos);
        SplitPath(path, pos);
        if ahead.None? {
          ParentFound(tree, start, cs, i, last);
          name := FillName(last, buf);
          return Done(slot), name, i;
        }
        ParentStep(tree, start, cs, i, last, ahead.value.0, Components(path, ahead.value.1));
        ghost var was := fs.inodes;
        r, i := Follow(slot, last, i, old(held));
        if r.Panicked? { return; }
        StayTrans(old(fs.inodes), was, fs.inodes, old(held), old(held), old(held));
        if r.Failed? { return; }
        slot, last, pos := r.value, ahead.value.0, ahead.value.1;
      }
    }

    /** Parent resolution as the calls use it, with the last component taken from the name buffer. */
    method ParentAndName(p: nat, path: seq<byte>) returns (r: Reply<nat>, name: seq<byte>, ghost d: nat)
      requires Valid() && p < |procs| && NoNul(path)
      modifies this`tree, this`refs, this`held, fs, fs.cache
      ensures r.Failed? ==> NoParent(old(tree), old(procs)[p].cwd, path) && held == old(held)
      ensures r.Done? ==>
        ParentTo(old(tree), old(procs)[p].cwd, path) == Some(d) && Named(tree, d) && GivenName(path, name)
      ensures r.Done? ==> At(fs.inodes, r.value, d) && held == old(held) + multiset{d}
      ensures !r.Outside? && (r.Panicked? ==> Wf() && NoFreeSlot(fs.inodes))
      ensures !r.Panicked? ==> Valid() && tree == old(tree) && fs.cache.disk == old(fs.cache.disk)
      ensures !r.Panicked? ==> Stay(old(fs.inodes), fs.inodes, old(held))
    {
      hide Shows, FsInv, BufferCache.CacheInv, RefsOk, TreeOk, FdsOk, CwdsOk, ParentTo, NoFreeSlot, Named, Zeroed;
      hide GivenName;
      var buf := Zeroed();
      r, name, d := PathToParent(p, path, buf);
      if !r.Done? { return; }
      var n := NameLen(name);
      TakenName(path, name, n);
      name := name[..n];
    }

    /** `dentry_create`: a new entry of a directory. */
    method Enter(sd: nat, target: nat, name: seq<byte>, ghost d: nat) returns (ok: bool)
      requires Wf() && At(fs.inodes, sd, d) && d in tree && tree[d].dir && name != [] && name[0] != 0
      requires Key(name) !in tree[d].entries && target < fs.sb.ninodes
      modifies this`tree, fs, fs.cache
      ensures fs.Valid() && (!ok ==> Full(fs.sb, fs.cache.disk))
      ensures ok ==> Wf() && tree == WithEntry(old(tree), d, Key(name), target)
      ensures ok ==> Calm(fs.sb, old(fs.cache.disk), old(fs.inodes), fs.cache.disk, fs.inodes, held, {})
    {
      hide Shows, FsInv, BufferCache.CacheInv, Key, DirBecomes, DirAt, DirMap, Calm, Full;
      DirShows(fs.sb, fs.cache.disk, fs.inodes, tree, refs, sd, d);
      KeyStart(name);
      var c;
      c, ok := DentryCreate(fs, sd, target, name);
      if !ok { return; }
      ghost var m := tree[d].entries[Key(name) := target];
      EntryShows(fs.sb, old(fs.cache.disk), fs.cache.disk, old(fs.inodes), fs.inodes, tree, refs, sd, d, m, held);
      tree := WithEntry(tree, d, Key(name), target);
    }

    /** A new link count. */
    method Relink(s: nat, nlink: u16, ghost i: nat)
      requires Wf() && At(fs.inodes, s, i)
      modifies this`tree, fs, fs.cache
      ensures Wf() && i in old(tree) && tree == WithNlink(old(tree), i, nlink)
      ensures Calm(fs.sb, old(fs.cache.disk), old(fs.inodes), fs.cache.disk, fs.inodes, held, {})
    {
      hide Shows, FsInv, BufferCache.CacheInv, FileTree.InodeAt, FileTree.Live, Calm, MetaSet, IsDir, DirAt;
      SlotShows(fs.sb, fs.cache.disk, fs.inodes, tree, refs, s, i);
      fs.SetNlink(s, nlink);
      NlinkShows(fs.sb, old(fs.cache.disk), fs.cache.disk, old(fs.inodes), fs.inodes, tree, refs, s, i, nlink, held);
      tree := WithNlink(tree, i, nlink);
    }

    /** `inode_create`: a new inode with one link, and one reference to it. */
    method Make(kind: u16) returns (r: Option<nat>, ghost n: nat)
      requires Wf() && RefsOk(tree, refs, files, held)
      modifies this`tree, this`refs, this`held, fs, fs.cache
      ensures r.None? ==> Exhausted(fs.sb, fs.cache.disk, fs.inodes)
      ensures r.Some? ==>
        && Wf() && RefsOk(tree, refs, files, held) && n !in old(tree) && n < fs.sb.ninodes
        && tree == old(tree)[n := INode(kind == TYPE_DIR, 1, map[])]
        && held == old(held) + multiset{n} && At(fs.inodes, r.value, n)
        && Calm(fs.sb, old(fs.cache.disk), old(fs.inodes), fs.cache.disk, fs.inodes, old(held), {})
    {
      hide Shows, FsInv, BufferCache.CacheInv, RefsOk, FileTree.InodeAt, FileTree.Live, Calm, FileTree.Created;
      hide NoFreeInode, NoFreeSlot, Counts, RefsOf;
      n := 0;
      InTable(fs.sb, fs.cache.disk, fs.inodes, tree, refs);
      r := fs.InodeCreate(kind, 0, 0);
      if r.None? { return; }
      n := fs.inodes[r.value].inum;
      CreateShows(fs.sb, old(fs.cache.disk), fs.cache.disk, old(fs.inodes), fs.inodes, tree, refs, r.value, kind, held);
      MadeOk(tree, refs, RefsOf(fs.inodes), files, held, n, INode(kind == TYPE_DIR, 1, map[]));
      tree := tree[n := INode(kind == TYPE_DIR, 1, map[])];
      refs, held := RefsOf(fs.inodes), held + multiset{n};
    }

    /** A new inode as `open` and `mkdir` make it; a directory starts with two links. */
    method MakeNew(kind: u16) returns (r: Option<nat>, ghost n: nat)
      requires Wf() && RefsOk(tree, refs, files, held)
      modifies this`tree, this`refs, this`held, fs, fs.cache
      ensures r.None? ==> Exhausted(fs.sb, fs.cache.disk, fs.inodes)
      ensures r.Some? ==>
        && Wf() && RefsOk(tree, refs, files, held) && n !in old(tree) && n < fs.sb.ninodes
        && tree == old(tree)[n := NewNode(kind)]
        && held == old(held) + multiset{n} && At(fs.inodes, r.value, n)
        && Calm(fs.sb, old(fs.cache.disk), old(fs.inodes), fs.cache.disk, fs.inodes, old(held), {})
    {
      hide Shows, FsInv, BufferCache.CacheInv, RefsOk, Calm, Exhausted;
      r, n := Make(kind);
      if r.None? || kind != TYPE_DIR { return; }
      ghost var t, d, a := tree, fs.cache.disk, fs.inodes;
      Relink(r.value, 2, n);
      CalmAt(fs.sb, d, a, fs.cache.disk, fs.inodes, held, {}, r.value, n);
      CalmTrans(fs.sb, old(fs.cache.disk), old(fs.inodes), d, a, fs.cache.disk, fs.inodes, old(held), held, {}, {}, {});
      NewLinks(t, refs, files, held, n, 2);
    }

    /** A new inode under a new name, with one reference to it. */
    method CreateInode(sd: nat, name: seq<byte>, kind: u16, ghost d: nat) returns (r: Option<nat>, ghost n: nat)
      requires Valid() && At(fs.inodes, sd, d) && d in held && d in tree && tree[d].dir
      requires name != [] && name[0] != 0 && Key(name) !in tree[d].entries
      modifies this`tree, this`refs, this`held, fs, fs.cache
      ensures r.None? ==> Exhausted(fs.sb, fs.cache.disk, fs.inodes)
      ensures r.Some? ==>
        && Valid() && n !in old(tree) && tree == Created(old(tree), d, Key(name), n, NewNode(kind))
        && Named(tree, n) && tree[n].dir == (kind == TYPE_DIR) && held == old(held) + multiset{n}
        && At(fs.inodes, r.value, n)
        && Calm(fs.sb, old(fs.cache.disk), old(fs.inodes), fs.cache.disk, fs.inodes, old(held), {})
      ensures r.Some? ==> forall i :: Named(old(tree), i) ==> Named(tree, i)
    {
      hide Shows, FsInv, BufferCache.CacheInv, RefsOk, TreeOk, FdsOk, CwdsOk, Calm, Exhausted, Full, Key, Created;
      hide NewNode, Named;
      r, n := MakeNew(kind);
      if r.None? { return; }
      ghost var e, b := fs.cache.disk, fs.inodes;
      CalmAt(fs.sb, old(fs.cache.disk), old(fs.inodes), e, b, old(held), {}, sd, d);
      var ok := Enter(sd, fs.inodes[r.value].inum, name, d);
      if !ok {
        FullStop(fs.sb, fs.cache.disk, fs.inodes);
        return None, n;
      }
      CalmAt(fs.sb, e, b, fs.cache.disk, fs.inodes, held, {}, r.value, n);
      CalmTrans(fs.sb, old(fs.cache.disk), old(fs.inodes), e, b, fs.cache.disk, fs.inodes, old(held), held, {}, {}, {});
      CreatedKeeps(old(tree), tree, refs, files, procs, held, d, Key(name), n, kind);
    }

    /** The end of `file_close`: get the inode again and put it twice. */
    method PutFile(i: nat)
      requires Wf() && TreeOk(tree) && RefsOk(tree, refs, files, held) && i in held
      modifies this`tree, this`refs, this`held, fs, fs.cache
      ensures Wf() && TreeOk(tree) && RefsOk(tree, refs, files, held) && held == old(held) - multiset{i}
      ensures i in old(tree) && tree == AfterClose(old(tree), files, held, i)
      ensures Released(fs.sb, old(fs.cache.disk), fs.cache.disk)
      ensures old(tree)[i].nlink > 0 ==> fs.cache.disk == old(fs.cache.disk)
    {
      hide Shows, FsInv, BufferCache.CacheInv, RefsOk, TreeOk, OpenOf, Released, Stay, NoFreeSlot, AfterPut, AfterClose;
      HeldLive(tree, refs, files, held, i);
      var s := IGet(i);
      HeldTwice(tree, old(refs), refs, files, old(held), held, i);
      ghost var b := fs.inodes;
      IPut(s.value, i);
      assert held == old(held);
      StillAt(b, fs.inodes, held, s.value, i);
      PutIsClose(tree, refs, files, held, i);
      IPut(s.value, i);
    }

    /** `file_close`: with the last descriptor the file's reference goes back, and with it perhaps the inode. */
    method FileClose(f: nat)
      requires Wf() && TreeOk(tree) && RefsOk(tree, refs, files, held)
      requires f < |files| && files[f].refcnt > 0 && files[f].isInode
      modifies this`tree, this`refs, this`files, this`held, fs, fs.cache
      ensures Wf() && TreeOk(tree) && RefsOk(tree, refs, files, held) && held == old(held)
      ensures files == old(files)[f := DropFile(old(files)[f])]
      ensures tree == AfterClose(old(tree), files, held, old(files)[f].inum)
      ensures Released(fs.sb, old(fs.cache.disk), fs.cache.disk)
      ensures Named(old(tree), old(files)[f].inum) ==> fs.cache.disk == old(fs.cache.disk)
    {
      hide Shows, FsInv, BufferCache.CacheInv, RefsOk, TreeOk, OpenOf, AfterClose, Released;
      var x := files[f];
      InTable(fs.sb, fs.cache.disk, fs.inodes, tree, refs);
      ReleasedSelf(fs.sb, fs.cache.disk);
      if x.refcnt > 1 {
        RecountOk(tree, refs, files, files[f := x.(refcnt := x.refcnt - 1)], held);
        files := files[f := x.(refcnt := x.refcnt - 1)];
        StillOpen(tree, files, held, f);
        return;
      }
      ClosedOk(tree, refs, files, held, f, x.(refcnt := 0, isInode := false));
      files := files[f := x.(refcnt := 0, isInode := false)];
      held := held + multiset{x.inum};
      PutFile(x.inum);
    }

    /** `fs_close` */
    method Close(p: nat, fd: nat) returns (ok: bool)
      requires Valid() && p < |procs|
      modifies this`tree, this`refs, this`files, this`procs, this`held, fs, fs.cache
      ensures ok <==> fd < |old(procs)[p].fds| && old(procs)[p].fds[fd].Some?
      ensures !ok ==>
        tree == old(tree) && files == old(files) && procs == old(procs) && fs.cache.disk == old(fs.cache.disk)
      ensures ok ==> Closed(old(tree), old(files), old(procs), tree, files, procs, held, p, fd)
      ensures Valid() && held == old(held) && Released(fs.sb, old(fs.cache.disk), fs.cache.disk)
    {
      hide Shows, FsInv, BufferCache.CacheInv, RefsOk, TreeOk, FdsOk, OpenOf, CwdsOk, AfterClose, Released;
      FdsLength(files, procs, p);
      InTable(fs.sb, fs.cache.disk, fs.inodes, tree, refs);
      ReleasedSelf(fs.sb, fs.cache.disk);
      if fd >= NOFILE || procs[p].fds[fd].None? { return false; }
      var f := procs[p].fds[fd].value;
      FdOpen(files, procs, p, fd);
      LoseOk(files, procs, p, fd, DropFile(files[f]));
      FileClose(f);
      CwdsClose(old(tree), files, held, procs, p, fd, old(files)[f].inum);
      procs := SetFd(procs, p, fd, None);
      return true;
    }

    /** The first file object that is not in use. */
    method FindFile() returns (r: Option<nat>)
      ensures r.Some? ==> r.value < |files| && files[r.value].refcnt == 0
      ensures forall f :: 0 <= f < (if r.Some? then r.value else |files|) ==> files[f].refcnt > 0
    {
      var f := 0;
      while f < |files|
        invariant 0 <= f <= |files| && forall g :: 0 <= g < f ==> files[g].refcnt > 0
      {
        if files[f].refcnt == 0 { return Some(f); }
        f := f + 1;
      }
      return None;
    }

    /** The lowest free descriptor of a process. */
    method FindFd(p: nat) returns (r: Option<nat>)
      requires p < |procs|
      ensures r == FirstFree(procs[p].fds, 0)
    {
      var d := 0;
      while d < |procs[p].fds|
        invariant 0 <= d <= |procs[p].fds| && FirstFree(procs[p].fds, 0) == FirstFree(procs[p].fds, d)
      {
        if procs[p].fds[d].None? { return Some(d); }
        d := d + 1;
      }
      return None;
    }

    /** The inode of an entry, in exchange for the reference to the directory. */
    method Exchange(sd: nat, to: nat, ghost d: nat, ghost base: multiset<nat>) returns (r: Option<nat>)
      requires Valid() && Named(tree, d) && to in tree && held == base + multiset{d} && At(fs.inodes, sd, d)
      modifies this`tree, this`refs, this`held, fs, fs.cache
      ensures tree == old(tree) && (r.None? ==> Exhausted(fs.sb, fs.cache.disk, fs.inodes))
      ensures r.Some? ==>
        && held == base + multiset{to} && At(fs.inodes, r.value, to)
        && Calm(fs.sb, old(fs.cache.disk), old(fs.inodes), fs.cache.disk, fs.inodes, base, {})
      ensures r.Some? ==> Valid()
    {
      hide Shows, FsInv, BufferCache.CacheInv, RefsOk, TreeOk, FdsOk, CwdsOk, Calm, Exhausted, Stay, Named, NoFreeSlot;
      InTable(fs.sb, fs.cache.disk, fs.inodes, tree, refs);
      PutNamed(sd, d);
      assert held == base;
      ghost var b := fs.inodes;
      r := IGet(to);
      if r.None? {
        SlotStop(fs.sb, fs.cache.disk, fs.inodes, tree, refs);
        return;
      }
      StayTrans(old(fs.inodes), b, fs.inodes, base, base, base);
      CalmStay(fs.sb, fs.cache.disk, old(fs.inodes), fs.inodes, base);
    }

    /** A new data file under a new name, in exchange for the reference to the directory. */
    method CreateFile(sd: nat, name: seq<byte>, ghost d: nat, ghost base: multiset<nat>)
      returns (r: Option<nat>, ghost n: nat)
      requires Valid() && Named(tree, d) && tree[d].dir && held == base + multiset{d} && At(fs.inodes, sd, d)
      requires name != [] && name[0] != 0 && Key(name) !in tree[d].entries
      modifies this`tree, this`refs, this`held, fs, fs.cache
      ensures r.None? ==> Exhausted(fs.sb, fs.cache.disk, fs.inodes)
      ensures r.Some? ==>
        && Named(tree, n) && held == base + multiset{n} && At(fs.inodes, r.value, n)
        && n !in old(tree) && tree == Created(old(tree), d, Key(name), n, NewNode(TYPE_DATA))
        && Calm(fs.sb, old(fs.cache.disk), old(fs.inodes), fs.cache.disk, fs.inodes, base, {})
      ensures r.Some? ==> Valid()
    {
      hide Shows, FsInv, BufferCache.CacheInv, RefsOk, TreeOk, FdsOk, CwdsOk, Key, Created, Calm, Exhausted, NewNode;
      hide Stay, At, Named;
      NamedIn(tree, d);
      r, n := CreateInode(sd, name, TYPE_DATA, d);
      if r.None? { return; }
      ghost var e, b := fs.cache.disk, fs.inodes;
      CalmAt(fs.sb, old(fs.cache.disk), old(fs.inodes), e, b, old(held), {}, sd, d);
      assert held == base + multiset{n} + multiset{d};
      PutNamed(sd, d);
      assert held == base + multiset{n};
      StillAt(b, fs.inodes, held, r.value, n);
      InTable(fs.sb, fs.cache.disk, fs.inodes, tree, refs);
      CalmStay(fs.sb, e, b, fs.inodes, held);
      CalmLess(fs.sb, old(fs.cache.disk), old(fs.inodes), e, b, base, old(held), {});
      CalmTrans(fs.sb, old(fs.cache.disk), old(fs.inodes), e, b, fs.cache.disk, fs.inodes, base, held, {}, {}, {});
    }

    /** The entry of that name, or a new data file under it, in exchange for the reference to the directory. */
    method FindOrCreate(sd: nat, name: seq<byte>, ghost d: nat, ghost base: multiset<nat>)
      returns (r: Reply<nat>, ghost i: nat)
      requires Valid() && Named(tree, d) && tree[d].dir && held == base + multiset{d} && At(fs.inodes, sd, d)
      requires name != [] && name[0] != 0
      modifies this`tree, this`refs, this`held, fs, fs.cache
      ensures r.Done? || r.Panicked?
      ensures r.Panicked? ==> Exhausted(fs.sb, fs.cache.disk, fs.inodes)
      ensures r.Done? ==>
        && Named(tree, i) && held == base + multiset{i} && At(fs.inodes, r.value, i)
        && (if Search(old(tree), d, name).Some? then Search(old(tree), d, name) == Some(i) && tree == old(tree)
            else i !in old(tree) && tree == Created(old(tree), d, Key(name), i, NewNode(TYPE_DATA)))
        && Calm(fs.sb, old(fs.cache.disk), old(fs.inodes), fs.cache.disk, fs.inodes, base, {})
      ensures r.Done? ==> Valid()
    {
      hide Shows, FsInv, BufferCache.CacheInv, RefsOk, TreeOk, FdsOk, CwdsOk, Search, Key, Created, Calm, Exhausted;
      hide NewNode, At;
      i := 0;
      var found := Lookup(sd, d, name);
      SearchNamed(tree, d, name);
      var s;
      if found.Some? {
        i := found.value;
        s := Exchange(sd, found.value, d, base);
      } else {
        s, i := CreateFile(sd, name, d, base);
      }
      r := if s.None? then Panicked else Done(s.value);
    }

    /** The creating branch of `open`. */
    method OpenOrCreate(p: nat, path: seq<byte>) returns (r: Reply<nat>, ghost i: nat)
      requires Valid() && p < |procs| && NoNul(path)
      modifies this`tree, this`refs, this`held, fs, fs.cache
      ensures r.Panicked? ==> Exhausted(fs.sb, fs.cache.disk, fs.inodes)
      ensures !r.Panicked? ==>
        Targets(old(tree), old(procs)[p].cwd, path, true, tree, Outcome(r), if r.Done? then i else 0)
      ensures r.Done? ==> Named(tree, i) && held == old(held) + multiset{i} && At(fs.inodes, r.value, i)
      ensures r.Failed? ==> held == old(held) && fs.cache.disk == old(fs.cache.disk)
      ensures r.Done? ==> Calm(fs.sb, old(fs.cache.disk), old(fs.inodes), fs.cache.disk, fs.inodes, old(held), {})
      ensures r.Done? || r.Failed? ==> Valid()
    {
      hide Shows, FsInv, BufferCache.CacheInv, RefsOk, TreeOk, FdsOk, CwdsOk, Search, Key, Created, Calm, Exhausted;
      hide NewNode, At;
      hide ParentTo, Stay, Components, Named, NoFreeSlot, LastOf;
      var name;
      ghost var d;
      r, name, d := ParentAndName(p, path);
      i := 0;
      if r.Panicked? { SlotStop(fs.sb, fs.cache.disk, fs.inodes, tree, refs); }
      if !r.Done? { return; }
      var sd := r.value;
      SlotKind(fs.sb, fs.cache.disk, fs.inodes, tree, refs, sd, d);
      if name == [] {
        PutNamed(sd, d);
        return Failed, i;
      }
      if fs.inodes[sd].disk.kind != TYPE_DIR { return Outside, i; }
      SearchByKey(tree, d, name, LastOf(path));
      ghost var e, b := fs.cache.disk, fs.inodes;
      InTable(fs.sb, e, b, tree, refs);
      CalmStay(fs.sb, e, old(fs.inodes), b, old(held));
      r, i := FindOrCreate(sd, name, d, old(held));
      if r.Done? {
        CalmTrans(fs.sb, e, old(fs.inodes), e, b, fs.cache.disk, fs.inodes, old(held), old(held), {}, {}, {});
      }
    }

    /** The inode that `open` works on, created if asked for and missing; one reference to it is added. */
    method OpenInode(p: nat, path: seq<byte>, creat: bool) returns (r: Reply<nat>, ghost i: nat)
      requires Valid() && p < |procs| && NoNul(path)
      modifies this`tree, this`refs, this`held, fs, fs.cache
      ensures r.Panicked? ==> Exhausted(fs.sb, fs.cache.disk, fs.inodes)
      ensures !r.Panicked? ==>
        Targets(old(tree), old(procs)[p].cwd, path, creat, tree, Outcome(r), if r.Done? then i else 0)
      ensures r.Done? ==> Named(tree, i) && held == old(held) + multiset{i} && At(fs.inodes, r.value, i)
      ensures r.Failed? ==> held == old(held) && fs.cache.disk == old(fs.cache.disk)
      ensures r.Done? ==> Calm(fs.sb, old(fs.cache.disk), old(fs.inodes), fs.cache.disk, fs.inodes, old(held), {})
      ensures r.Done? || r.Failed? ==> Valid()
    {
      hide Shows, FsInv, BufferCache.CacheInv, RefsOk, TreeOk, FdsOk, CwdsOk, Calm, Exhausted, At, Stay, PathTo;
      hide Named, NoFreeSlot;
      if creat {
        r, i := OpenOrCreate(p, path);
      } else {
        r, i := PathToInode(p, path);
        if r.Panicked? {
          SlotStop(fs.sb, fs.cache.disk, fs.inodes, tree, refs);
        } else {
          InTable(fs.sb, fs.cache.disk, fs.inodes, tree, refs);
          CalmStay(fs.sb, fs.cache.disk, old(fs.inodes), fs.inodes, old(held));
        }
      }
    }

    /** Cutting a data file to size 0, if asked for. */
    method Cut(s: nat, trunc: bool, ghost i: nat)
      requires Wf() && At(fs.inodes, s, i)
      modifies fs, fs.cache
      ensures At(fs.inodes, s, i) && fs.inodes[s].disk.kind == old(fs.inodes)[s].disk.kind
      ensures Still(fs.sb, old(fs.cache.disk), fs.cache.disk, CutSet(trunc, Some(i)))
      ensures trunc && fs.inodes[s].disk.kind == TYPE_DATA ==> IsEmpty(fs.sb, fs.cache.disk, i)
      ensures Wf()
    {
      hide Shows, FsInv, BufferCache.CacheInv, FileTree.Live, Still, MetaSet, IsDir, DirAt, FileTree.InodeAt;
      hide FileBytes.File;
      SlotShows(fs.sb, fs.cache.disk, fs.inodes, tree, refs, s, i);
      StillSelf(fs.sb, fs.cache.disk);
      StillMore(fs.sb, fs.cache.disk, fs.cache.disk, {}, CutSet(trunc, Some(i)));
      if trunc && fs.inodes[s].disk.kind == TYPE_DATA {
        fs.Truncate(s);
        TruncShows(fs.sb, old(fs.cache.disk), fs.cache.disk, old(fs.inodes), fs.inodes, tree, refs, s, i, held);
      }
    }

    /** The descriptor for a new file object; without a free one the object is closed again. */
    method Attach(p: nat, f: nat, ghost was: seq<File>, ghost x: File) returns (r: Option<nat>)
      requires Wf() && TreeOk(tree) && RefsOk(tree, refs, files, held) && FdsOk(was, procs) && CwdsOk(tree, procs)
      requires p < |procs| && f < |was| && was[f].refcnt == 0 && files == was[f := x]
      requires x.refcnt == 1 && x.isInode && Named(tree, x.inum)
      modifies this`tree, this`refs, this`files, this`procs, this`held, fs, fs.cache
      ensures tree == old(tree) && held == old(held) && r == FirstFree(old(procs)[p].fds, 0)
      ensures r.Some? ==>
        r.value < |old(procs)[p].fds| && files == was[f := x] && procs == SetFd(old(procs), p, r.value, Some(f))
      ensures r.None? ==> procs == old(procs) && SameCounts(was, files)
      ensures Valid() && fs.cache.disk == old(fs.cache.disk)
    {
      hide Shows, FsInv, BufferCache.CacheInv, RefsOk, TreeOk, FdsOk, CwdsOk, OpenOf, FirstFree, AfterClose, Released;
      FdsLength(was, procs, p);
      FreeFd(procs[p].fds);
      r := FindFd(p);
      if r.Some? {
        GainOk(was, procs, p, r.value, f, x);
        CwdsSame(tree, procs, p, r.value, Some(f));
        procs := SetFd(procs, p, r.value, Some(f));
      } else {
        IdleFileOk(was, procs, f, DropFile(x));
        NamedClose(tree, was[f := DropFile(x)], held, x.inum);
        assert was[f := x][f := DropFile(x)] == was[f := DropFile(x)];
        FileClose(f);
      }
    }

    /** A file object and a descriptor for inode `i`, whose reference it takes over. */
    method Allot(p: nat, i: nat, mode: nat) returns (r: Option<nat>, ghost f: nat)
      requires Valid() && p < |procs| && Named(tree, i) && i in held && mode < 4 && !(tree[i].dir && mode != 0)
      modifies this`tree, this`refs, this`files, this`procs, this`held, fs, fs.cache
      ensures tree == old(tree) && Installed(old(files), old(procs), files, procs, p, i, tree[i].dir, mode, r, f)
      ensures held == if NoFree(old(files)) then old(held) else old(held) - multiset{i}
      ensures Valid() && fs.cache.disk == old(fs.cache.disk)
    {
      hide Shows, FsInv, BufferCache.CacheInv, RefsOk, TreeOk, FdsOk, CwdsOk, OpenOf, FirstFree;
      f := 0;
      FdsLength(files, procs, p);
      var a := FindFile();
      if a.None? { return None, 0; }
      f := a.value;
      var x := File(1, true, mode != 1, mode != 0, 0, i);
      OpenedOk(tree, refs, files, held, a.value, x);
      files := files[a.value := x];
      held := held - multiset{i};
      r := Attach(p, a.value, old(files), x);
    }

    /** The second half of `open`, with a reference to inode `i` in hand. */
    method Install(p: nat, s: nat, mode: nat, trunc: bool, ghost i: nat) returns (r: Option<nat>, ghost f: nat)
      requires Valid() && p < |procs| && Named(tree, i) && At(fs.inodes, s, i) && i in held && mode < 4
      modifies this`tree, this`refs, this`files, this`procs, this`held, fs, fs.cache
      ensures tree == old(tree) && Installed(old(files), old(procs), files, procs, p, i, tree[i].dir, mode, r, f)
      ensures held == if Leaks(old(files), tree[i].dir, mode) then old(held) else old(held) - multiset{i}
      ensures Still(fs.sb, old(fs.cache.disk), fs.cache.disk, CutSet(trunc, Some(i)))
      ensures r.Some? && trunc && old(fs.inodes)[s].disk.kind == TYPE_DATA ==> IsEmpty(fs.sb, fs.cache.disk, i)
      ensures Valid()
    {
      hide Shows, FsInv, BufferCache.CacheInv, RefsOk, TreeOk, FdsOk, CwdsOk, Installed, Still, Stay, IsEmpty, NoFree;
      hide CutSet;
      SlotKind(fs.sb, fs.cache.disk, fs.inodes, tree, refs, s, i);
      if fs.inodes[s].disk.kind == TYPE_DIR && mode != 0 {
        InTable(fs.sb, fs.cache.disk, fs.inodes, tree, refs);
        StillSelf(fs.sb, fs.cache.disk);
        StillMore(fs.sb, fs.cache.disk, fs.cache.disk, {}, CutSet(trunc, Some(i)));
        NotInstalled(files, procs, p, i, mode);
        PutNamed(s, i);
        return None, 0;
      }
      Cut(s, trunc, i);
      r, f := Allot(p, fs.inodes[s].inum, mode);
    }

    /**
      `open`: a new file object on the target inode in the lowest free descriptor; with truncation a data file is cut to
      size 0.  A failed call leaves descriptors and reference counts alone, except that the reference to the inode is
      lost if no file object is free.
    */
    method Open(p: nat, path: seq<byte>, creat: bool, trunc: bool, mode: nat)
      returns (r: Reply<nat>, ghost target: Option<nat>, ghost f: nat)
      requires Valid() && p < |procs| && NoNul(path) && mode < 4
      modifies this`tree, this`refs, this`files, this`procs, this`held, fs, fs.cache
      ensures r.Panicked? ==> Exhausted(fs.sb, fs.cache.disk, fs.inodes)
      ensures !r.Panicked? ==>
        Opened(old(tree), old(files), old(procs), old(held), tree, files, procs, held, p, path, creat, mode, r, target,
               f)
      ensures r.Done? || r.Failed? ==> Still(fs.sb, old(fs.cache.disk), fs.cache.disk, CutSet(trunc, target))
      ensures r.Done? && trunc && target.Some? && IsPlain(fs.sb, fs.cache.disk, target.value) ==>
        IsEmpty(fs.sb, fs.cache.disk, target.value)
      ensures r.Done? || r.Failed? ==> Valid()
    {
      hide Shows, FsInv, BufferCache.CacheInv, RefsOk, TreeOk, FdsOk, CwdsOk, Targets, Installed, Exhausted, Still;
      hide IsEmpty, IsPlain;
      hide Calm, Leaks;
      f, target := 0, None;
      ghost var d := fs.cache.disk;
      InTable(fs.sb, d, fs.inodes, tree, refs);
      StillSelf(fs.sb, d);
      var s;
      ghost var i;
      s, i := OpenInode(p, path, creat);
      if !s.Done? { return s, target, f; }
      target := Some(i);
      ghost var e := fs.cache.disk;
      StillOf(fs.sb, d, old(fs.inodes), e, fs.inodes, old(held), {});
      assert old(held) + multiset{i} - multiset{i} == old(held);
      r, f := OpenAt(p, s.value, mode, trunc, i, d);
    }

    /** `open` once it has its inode: `d` is the disk that the call found. */
    method OpenAt(p: nat, s: nat, mode: nat, trunc: bool, ghost i: nat, ghost d: FileTree.Disk)
      returns (r: Reply<nat>, ghost f: nat)
      requires Valid() && p < |procs| && Named(tree, i) && At(fs.inodes, s, i) && i in held && mode < 4
      requires Still(fs.sb, d, fs.cache.disk, {})
      modifies this`tree, this`refs, this`files, this`procs, this`held, fs, fs.cache
      ensures r.Done? || r.Failed?
      ensures tree == old(tree)
      ensures Installed(old(files), old(procs), files, procs, p, i, tree[i].dir, mode,
                        if r.Done? then Some(r.value) else None, f)
      ensures held == if Leaks(old(files), tree[i].dir, mode) then old(held) else old(held) - multiset{i}
      ensures Still(fs.sb, d, fs.cache.disk, CutSet(trunc, Some(i)))
      ensures r.Done? && trunc && IsPlain(fs.sb, fs.cache.disk, i) ==> IsEmpty(fs.sb, fs.cache.disk, i)
      ensures Valid()
    {
      hide Shows, FsInv, BufferCache.CacheInv, RefsOk, TreeOk, FdsOk, CwdsOk, Installed, Still, IsEmpty, IsPlain, Leaks;
      SlotPlain(fs.sb, fs.cache.disk, fs.inodes, tree, refs, s, i);
      var fd;
      fd, f := Install(p, s, mode, trunc, i);
      StillTrans(fs.sb, d, old(fs.cache.disk), fs.cache.disk, {}, CutSet(trunc, Some(i)), CutSet(trunc, Some(i)));
      PlainKept(fs.sb, old(fs.cache.disk), fs.cache.disk, CutSet(trunc, Some(i)), i);
      r := if fd.Some? then Done(fd.value) else Failed;
    }

    /** `fs_dup`: a further descriptor of the same file object. */
    method Dup(p: nat, fd: nat) returns (r: Option<nat>)
      requires Valid() && p < |procs|
      modifies this`files, this`procs
      ensures r.None? <==>
        fd >= |old(procs)[p].fds| || old(procs)[p].fds[fd].None? || FirstFree(old(procs)[p].fds, 0).None?
      ensures r.None? ==> files == old(files) && procs == old(procs)
      ensures r.Some? ==>
        r == FirstFree(old(procs)[p].fds, 0) && procs == SetFd(old(procs), p, r.value, old(procs)[p].fds[fd])
      ensures r.Some? ==> MoreShared(old(files), files, old(procs)[p].fds[fd].value)
      ensures Valid()
    {
      hide Shows, FsInv, BufferCache.CacheInv, RefsOk, TreeOk, FdsOk, CwdsOk, FirstFree;
      FdsLength(files, procs, p);
      if fd >= NOFILE || procs[p].fds[fd].None? { return None; }
      FdOpen(files, procs, p, fd);
      var f := procs[p].fds[fd].value;
      var x := files[f].(refcnt := files[f].refcnt + 1);
      RecountOk(tree, refs, files, files[f := x], held);
      files := files[f := x];
      FreeFd(procs[p].fds);
      r := FindFd(p);
      if r.Some? {
        GainOk(old(files), procs, p, r.value, f, x);
        CwdsSame(tree, procs, p, r.value, Some(f));
        procs := SetFd(procs, p, r.value, Some(f));
      } else {
        files := files[f := files[f].(refcnt := files[f].refcnt - 1)];
        assert files == old(files);
      }
    }

    /** Putting two named inodes. */
    method PutBoth(x: nat, y: nat, ghost a: nat, ghost b: nat)
      requires Wf() && TreeOk(tree) && RefsOk(tree, refs, files, held) && Named(tree, a) && Named(tree, b)
      requires a in held && b in held - multiset{a} && At(fs.inodes, x, a) && At(fs.inodes, y, b)
      modifies this`tree, this`refs, this`held, fs, fs.cache
      ensures tree == old(tree) && held == old(held) - multiset{a} - multiset{b} && fs.cache.disk == old(fs.cache.disk)
      ensures Wf() && RefsOk(tree, refs, files, held)
    {
      hide Shows, FsInv, BufferCache.CacheInv, RefsOk, TreeOk, Stay;
      PutNamed(x, a);
      StillAt(old(fs.inodes), fs.inodes, held, y, b);
      PutNamed(y, b);
    }

    /** The tree part of `fs_link`. */
    method AddLink(sd: nat, s: nat, name: seq<byte>, ghost d: nat, ghost i: nat) returns (ok: bool)
      requires Valid() && At(fs.inodes, sd, d) && At(fs.inodes, s, i) && i in held && d in tree && tree[d].dir
      requires i in tree && !tree[i].dir && tree[i].nlink < 0xFFFF
      requires name != [] && name[0] != 0 && Key(name) !in tree[d].entries
      modifies this`tree, fs, fs.cache
      ensures !ok ==> Exhausted(fs.sb, fs.cache.disk, fs.inodes)
      ensures ok ==>
        && tree == Linked(old(tree), d, Key(name), i) && (forall j :: Named(old(tree), j) ==> Named(tree, j))
        && Calm(fs.sb, old(fs.cache.disk), old(fs.inodes), fs.cache.disk, fs.inodes, held, {})
      ensures ok ==> Valid()
    {
      hide Shows, FsInv, BufferCache.CacheInv, RefsOk, TreeOk, FdsOk, CwdsOk, Calm, Exhausted, Full, Key;
      SlotKind(fs.sb, fs.cache.disk, fs.inodes, tree, refs, s, i);
      ok := Enter(sd, fs.inodes[s].inum, name, d);
      if !ok {
        FullStop(fs.sb, fs.cache.disk, fs.inodes);
        return;
      }
      ghost var e, b := fs.cache.disk, fs.inodes;
      CalmAt(fs.sb, old(fs.cache.disk), old(fs.inodes), e, b, held, {}, s, i);
      SlotKind(fs.sb, fs.cache.disk, fs.inodes, tree, refs, s, i);
      Relink(s, fs.inodes[s].disk.nlink + 1, i);
      CalmTrans(fs.sb, old(fs.cache.disk), old(fs.inodes), e, b, fs.cache.disk, fs.inodes, held, held, {}, {}, {});
      LinkedKeeps(old(tree), refs, files, procs, held, d, Key(name), i);
    }

    /** The end of `fs_link`, with references to the file and to the directory in hand. */
    method LinkIn(sd: nat, s: nat, name: seq<byte>, ghost d: nat, ghost i: nat, ghost base: multiset<nat>)
      returns (r: Reply<()>)
      requires Valid() && At(fs.inodes, sd, d) && At(fs.inodes, s, i) && held == base + multiset{i} + multiset{d}
      requires Named(tree, d) && Named(tree, i) && !tree[i].dir && (name != [] ==> name[0] != 0)
      modifies this`tree, this`refs, this`held, fs, fs.cache
      ensures r.Panicked? ==> Exhausted(fs.sb, fs.cache.disk, fs.inodes)
      ensures !r.Panicked? ==> (r, tree) == LinkedIn(old(tree), d, name, i)
      ensures r.Done? || r.Failed? ==> held == base && Still(fs.sb, old(fs.cache.disk), fs.cache.disk, {})
      ensures r.Done? || r.Failed? ==> Valid()
    {
      hide Shows, FsInv, BufferCache.CacheInv, RefsOk, TreeOk, FdsOk, CwdsOk, Calm, Still, Exhausted, Key, Search;
      hide Linked;
      InTable(fs.sb, fs.cache.disk, fs.inodes, tree, refs);
      StillSelf(fs.sb, fs.cache.disk);
      SlotKind(fs.sb, fs.cache.disk, fs.inodes, tree, refs, sd, d);
      SlotKind(fs.sb, fs.cache.disk, fs.inodes, tree, refs, s, i);
      assert held - multiset{d} - multiset{i} == base;
      if name == [] {
        PutBoth(sd, s, d, i);
        return Failed;
      }
      if fs.inodes[sd].disk.kind != TYPE_DIR { return Outside; }
      var found := Lookup(sd, d, name);
      SearchNamed(tree, d, name);
      if found.Some? {
        PutBoth(sd, s, d, i);
        return Failed;
      }
      if fs.inodes[s].disk.nlink == 0xFFFF { return Outside; }
      var ok := AddLink(sd, s, name, d, i);
      if !ok { return Panicked; }
      StillOf(fs.sb, old(fs.cache.disk), old(fs.inodes), fs.cache.disk, fs.inodes, held, {});
      CalmAt(fs.sb, old(fs.cache.disk), old(fs.inodes), fs.cache.disk, fs.inodes, held, {}, sd, d);
      CalmAt(fs.sb, old(fs.cache.disk), old(fs.inodes), fs.cache.disk, fs.inodes, held, {}, s, i);
      PutBoth(sd, s, d, i);
      return Done(());
    }

    /** `fs_link`: a further name for a data file, counted in its link count. */
    method Link(p: nat, path: seq<byte>, newPath: seq<byte>) returns (r: Reply<()>)
      requires Valid() && p < |procs| && NoNul(newPath)
      modifies this`tree, this`refs, this`held, fs, fs.cache
      ensures r.Panicked? ==> Exhausted(fs.sb, fs.cache.disk, fs.inodes)
      ensures !r.Panicked? ==>
        (r, tree) == LinkResult(old(tree), PathTo(old(tree), old(procs)[p].cwd, path), old(procs)[p].cwd, newPath)
      ensures r.Done? || r.Failed? ==> held == old(held) && Still(fs.sb, old(fs.cache.disk), fs.cache.disk, {})
      ensures r.Done? || r.Failed? ==> Valid()
    {
      hide Shows, FsInv, BufferCache.CacheInv, RefsOk, TreeOk, FdsOk, CwdsOk, Still, Exhausted, PathTo, NoFreeSlot;
      hide LinkedTo, Stay;
      InTable(fs.sb, fs.cache.disk, fs.inodes, tree, refs);
      StillSelf(fs.sb, fs.cache.disk);
      var s;
      ghost var i;
      s, i := PathToInode(p, path);
      if s.Panicked? { SlotStop(fs.sb, fs.cache.disk, fs.inodes, tree, refs); }
      if !s.Done? { return if s.Failed? then Failed else Panicked; }
      SlotKind(fs.sb, fs.cache.disk, fs.inodes, tree, refs, s.value, i);
      if fs.inodes[s.value].disk.kind == TYPE_DIR {
        PutNamed(s.value, i);
        assert held == old(held);
        return Failed;
      }
      r := LinkTo(p, s.value, newPath, i, old(held));
    }

    /** The rest of `fs_link`, with a reference to the file in hand. */
    method LinkTo(p: nat, s: nat, newPath: seq<byte>, ghost i: nat, ghost base: multiset<nat>) returns (r: Reply<()>)
      requires Valid() && p < |procs| && NoNul(newPath) && Named(tree, i) && !tree[i].dir && At(fs.inodes, s, i)
      requires held == base + multiset{i}
      modifies this`tree, this`refs, this`held, fs, fs.cache
      ensures r.Panicked? ==> Exhausted(fs.sb, fs.cache.disk, fs.inodes)
      ensures !r.Panicked? ==> (r, tree) == LinkedTo(old(tree), i, old(procs)[p].cwd, newPath)
      ensures r.Done? || r.Failed? ==> held == base && Still(fs.sb, old(fs.cache.disk), fs.cache.disk, {})
      ensures r.Done? || r.Failed? ==> Valid()
    {
      hide Shows, FsInv, BufferCache.CacheInv, RefsOk, TreeOk, FdsOk, CwdsOk, Still, Exhausted, ParentTo, NoFreeSlot;
      hide LinkedIn, Stay;
      hide Components, LastOf, Key;
      InTable(fs.sb, fs.cache.disk, fs.inodes, tree, refs);
      StillSelf(fs.sb, fs.cache.disk);
      var q, name;
      ghost var d;
      q, name, d := ParentAndName(p, newPath);
      if q.Panicked? {
        SlotStop(fs.sb, fs.cache.disk, fs.inodes, tree, refs);
        return Panicked;
      }
      StillAt(old(fs.inodes), fs.inodes, old(held), s, i);
      if q.Failed? {
        PutNamed(s, i);
        assert held == base;
        return Failed;
      }
      LinkedByKey(tree, d, name, LastOf(newPath), i);
      r := LinkIn(q.value, s, name, d, i, base);
    }

    /** `dentry_delete`: an entry of a directory goes. */
    method Leave(sd: nat, name: seq<byte>, ghost d: nat) returns (ok: bool)
      requires Wf() && At(fs.inodes, sd, d) && d in tree && tree[d].dir && Key(name) in tree[d].entries
      modifies this`tree, fs, fs.cache
      ensures fs.Valid() && (!ok ==> Full(fs.sb, fs.cache.disk))
      ensures ok ==> Wf() && tree == WithoutEntry(old(tree), d, Key(name))
      ensures ok ==> Calm(fs.sb, old(fs.cache.disk), old(fs.inodes), fs.cache.disk, fs.inodes, held, {})
    {
      hide Shows, FsInv, BufferCache.CacheInv, Key, DirBecomes, DirAt, DirMap, Calm, Full;
      DirShows(fs.sb, fs.cache.disk, fs.inodes, tree, refs, sd, d);
      var c;
      c, ok := DentryDelete(fs, sd, name);
      if !ok { return; }
      ghost var m := tree[d].entries - {Key(name)};
      EntryShows(fs.sb, old(fs.cache.disk), fs.cache.disk, old(fs.inodes), fs.inodes, tree, refs, sd, d, m, held);
      tree := WithoutEntry(tree, d, Key(name));
    }

    /** The entry goes and the link count drops. */
    method DropLink(sd: nat, s: nat, name: seq<byte>, ghost d: nat, ghost i: nat) returns (ok: bool)
      requires Valid() && At(fs.inodes, sd, d) && At(fs.inodes, s, i) && d in tree && tree[d].dir && i in held
      requires Key(name) in tree[d].entries && tree[d].entries[Key(name)] == i && i in tree && !tree[i].dir
      requires tree[i].nlink > 0
      modifies this`tree, fs, fs.cache
      ensures !ok ==> Exhausted(fs.sb, fs.cache.disk, fs.inodes)
      ensures ok ==>
        && tree == Unlinked(old(tree), d, Key(name))
        && Calm(fs.sb, old(fs.cache.disk), old(fs.inodes), fs.cache.disk, fs.inodes, held, {})
      ensures ok ==> Valid()
    {
      hide Shows, FsInv, BufferCache.CacheInv, RefsOk, TreeOk, FdsOk, CwdsOk, Calm, Exhausted, Full, Key;
      ok := Leave(sd, name, d);
      if !ok {
        FullStop(fs.sb, fs.cache.disk, fs.inodes);
        return;
      }
      ghost var e, b := fs.cache.disk, fs.inodes;
      CalmAt(fs.sb, old(fs.cache.disk), old(fs.inodes), e, b, held, {}, s, i);
      SlotKind(fs.sb, fs.cache.disk, fs.inodes, tree, refs, s, i);
      Relink(s, fs.inodes[s].disk.nlink - 1, i);
      CalmTrans(fs.sb, old(fs.cache.disk), old(fs.inodes), e, b, fs.cache.disk, fs.inodes, held, held, {}, {}, {});
      UnlinkedKeeps(old(tree), refs, files, procs, held, d, Key(name), i);
    }

    /** The last steps of `fs_unlink`, with references to the file and to the directory in hand. */
    method UnlinkIn(sd: nat, s: nat, name: seq<byte>, ghost d: nat, ghost i: nat, ghost base: multiset<nat>)
      returns (ok: bool)
      requires Valid() && At(fs.inodes, sd, d) && At(fs.inodes, s, i) && d in tree && tree[d].dir
      requires Key(name) in tree[d].entries && tree[d].entries[Key(name)] == i && i in tree && !tree[i].dir
      requires tree[i].nlink > 0
      requires held == base + multiset{d} + multiset{i}
      modifies this`tree, this`refs, this`held, fs, fs.cache
      ensures !ok ==> Exhausted(fs.sb, fs.cache.disk, fs.inodes)
      ensures ok ==> held == base && tree == AfterClose(Unlinked(old(tree), d, Key(name)), files, base, i)
      ensures ok ==> Dropped(fs.sb, old(fs.cache.disk), fs.cache.disk)
      ensures ok ==> Valid()
    {
      hide Shows, FsInv, BufferCache.CacheInv, RefsOk, TreeOk, FdsOk, CwdsOk, Calm, Exhausted, Key, Unlinked;
      hide AfterPut, AfterClose, Released, Dropped;
      hide Stay, OpenOf;
      assert i != d;
      ok := DropLink(sd, s, name, d, i);
      if !ok { return; }
      ghost var t, e, b := tree, fs.cache.disk, fs.inodes;
      CalmAt(fs.sb, old(fs.cache.disk), old(fs.inodes), e, b, held, {}, s, i);
      CalmAt(fs.sb, old(fs.cache.disk), old(fs.inodes), e, b, held, {}, sd, d);
      StillOf(fs.sb, old(fs.cache.disk), old(fs.inodes), e, b, held, {});
      UnlinkPut(t, refs, files, procs, held, old(tree), d, Key(name), i);
      IPut(s, i);
      assert held == base + multiset{d};
      HeldOther(t, files, base, d, i);
      StillAt(b, fs.inodes, held, sd, d);
      DroppedAfter(fs.sb, old(fs.cache.disk), e, fs.cache.disk);
      PutNamed(sd, d);
      assert held == base;
    }

    /**
      `fs_unlink`: the entry goes and the link count drops; the file itself goes, and its blocks become free, only if
      nothing names, opens or holds it any more.
    */
    method Unlink(p: nat, path: seq<byte>) returns (r: Reply<()>)
      requires Valid() && p < |procs| && NoNul(path)
      modifies this`tree, this`refs, this`held, fs, fs.cache
      ensures r.Panicked? ==> Exhausted(fs.sb, fs.cache.disk, fs.inodes)
      ensures !r.Panicked? ==> (r, tree) == UnlinkResult(old(tree), files, old(held), old(procs)[p].cwd, path)
      ensures r.Done? || r.Failed? ==> held == old(held) && Dropped(fs.sb, old(fs.cache.disk), fs.cache.disk)
      ensures r.Done? || r.Failed? ==> Valid()
    {
      hide Shows, FsInv, BufferCache.CacheInv, RefsOk, TreeOk, FdsOk, CwdsOk, Exhausted, ParentTo, NoFreeSlot, Stay;
      hide Components, LastOf, Key, Dropped, UnlinkedIn;
      InTable(fs.sb, fs.cache.disk, fs.inodes, tree, refs);
      DroppedSelf(fs.sb, fs.cache.disk);
      var q, name;
      ghost var d;
      q, name, d := ParentAndName(p, path);
      if q.Panicked? { SlotStop(fs.sb, fs.cache.disk, fs.inodes, tree, refs); }
      if !q.Done? { return if q.Failed? then Failed else Panicked; }
      UnlinkedByKey(tree, files, old(held), d, name, LastOf(path));
      r := UnlinkName(q.value, name, d, old(held));
    }

    /** `fs_unlink` with a reference to the directory in hand. */
    method UnlinkName(sd: nat, name: seq<byte>, ghost d: nat, ghost base: multiset<nat>) returns (r: Reply<()>)
      requires Valid() && Named(tree, d) && At(fs.inodes, sd, d) && held == base + multiset{d}
      modifies this`tree, this`refs, this`held, fs, fs.cache
      ensures r.Panicked? ==> Exhausted(fs.sb, fs.cache.disk, fs.inodes)
      ensures !r.Panicked? ==> (r, tree) == UnlinkedIn(old(tree), files, base, d, name)
      ensures r.Done? || r.Failed? ==> held == base && Dropped(fs.sb, old(fs.cache.disk), fs.cache.disk)
      ensures r.Done? || r.Failed? ==> Valid()
    {
      hide Shows, FsInv, BufferCache.CacheInv, RefsOk, TreeOk, FdsOk, CwdsOk, Exhausted, Key, Stay, AfterClose;
      hide Unlinked, Dropped;
      hide UnlinkedIn, Search;
      InTable(fs.sb, fs.cache.disk, fs.inodes, tree, refs);
      DroppedSelf(fs.sb, fs.cache.disk);
      SlotKind(fs.sb, fs.cache.disk, fs.inodes, tree, refs, sd, d);
      UnlinkCases(tree, files, base, d, name);
      if name != [] && fs.inodes[sd].disk.kind != TYPE_DIR { return Outside; }
      var found := None;
      if name != [] { found := Lookup(sd, d, name); }
      if found.None? {
        PutNamed(sd, d);
        assert held == base;
        return Failed;
      }
      r := UnlinkFound(sd, found.value, name, d, base);
    }

    /** `fs_unlink` of an entry for inode `i`. */
    method UnlinkFound(sd: nat, i: nat, name: seq<byte>, ghost d: nat, ghost base: multiset<nat>) returns (r: Reply<()>)
      requires Valid() && Named(tree, d) && tree[d].dir && At(fs.inodes, sd, d) && held == base + multiset{d}
      requires Key(name) in tree[d].entries && tree[d].entries[Key(name)] == i && Named(tree, i)
      modifies this`tree, this`refs, this`held, fs, fs.cache
      ensures !r.Outside? && (r.Panicked? ==> Exhausted(fs.sb, fs.cache.disk, fs.inodes))
      ensures r.Failed? ==> old(tree)[i].dir && tree == old(tree)
      ensures r.Done? ==>
        r == Done(()) && !old(tree)[i].dir && tree == AfterClose(Unlinked(old(tree), d, Key(name)), files, base, i)
      ensures !r.Panicked? ==> held == base && Dropped(fs.sb, old(fs.cache.disk), fs.cache.disk)
      ensures !r.Panicked? ==> Valid()
    {
      hide Shows, FsInv, BufferCache.CacheInv, RefsOk, TreeOk, FdsOk, CwdsOk, Exhausted, NoFreeSlot, Key, Stay;
      hide AfterClose, Unlinked;
      hide Dropped;
      InTable(fs.sb, fs.cache.disk, fs.inodes, tree, refs);
      DroppedSelf(fs.sb, fs.cache.disk);
      var s := IGet(i);
      if s.None? {
        SlotStop(fs.sb, fs.cache.disk, fs.inodes, tree, refs);
        return Panicked;
      }
      StillAt(old(fs.inodes), fs.inodes, old(held), sd, d);
      SlotKind(fs.sb, fs.cache.disk, fs.inodes, tree, refs, s.value, i);
      if fs.inodes[s.value].disk.kind == TYPE_DIR {
        PutBoth(s.value, sd, i, d);
        assert held == base;
        return Failed;
      }
      var ok := UnlinkIn(sd, s.value, name, d, i, base);
      r := if ok then Done(()) else Panicked;
    }

    /** `fs_mkdir` */
    method Mkdir(p: nat, path: seq<byte>) returns (r: Reply<()>, ghost n: nat)
      requires Valid() && p < |procs| && NoNul(path)
      modifies this`tree, this`refs, this`held, fs, fs.cache
      ensures r.Panicked? ==> Exhausted(fs.sb, fs.cache.disk, fs.inodes)
      ensures !r.Panicked? ==>
        (r, tree) == MkdirResult(old(tree), old(procs)[p].cwd, path, n) && (r.Done? ==> n !in old(tree))
      ensures r.Done? || r.Failed? ==> held == old(held) && Still(fs.sb, old(fs.cache.disk), fs.cache.disk, {})
      ensures r.Done? || r.Failed? ==> Valid()
    {
      hide Shows, FsInv, BufferCache.CacheInv, RefsOk, TreeOk, FdsOk, CwdsOk, Exhausted, ParentTo, NoFreeSlot, Stay;
      hide Components, LastOf, Key, Still, MadeIn;
      n := 0;
      InTable(fs.sb, fs.cache.disk, fs.inodes, tree, refs);
      StillSelf(fs.sb, fs.cache.disk);
      var q, name;
      ghost var d;
      q, name, d := ParentAndName(p, path);
      if q.Panicked? { SlotStop(fs.sb, fs.cache.disk, fs.inodes, tree, refs); }
      if !q.Done? { return if q.Failed? then Failed else Panicked, n; }
      r, n := MkdirName(q.value, name, d, old(held));
      MadeByKey(old(tree), d, name, LastOf(path), n);
    }

    /** `fs_mkdir` with a reference to the directory in hand. */
    method MkdirName(sd: nat, name: seq<byte>, ghost d: nat, ghost base: multiset<nat>)
      returns (r: Reply<()>, ghost n: nat)
      requires Valid() && Named(tree, d) && At(fs.inodes, sd, d) && held == base + multiset{d}
      requires name != [] ==> name[0] != 0
      modifies this`tree, this`refs, this`held, fs, fs.cache
      ensures r.Panicked? ==> Exhausted(fs.sb, fs.cache.disk, fs.inodes)
      ensures !r.Panicked? ==> (r, tree) == MadeIn(old(tree), d, name, n) && (r.Done? ==> n !in old(tree))
      ensures r.Done? || r.Failed? ==> held == base && Still(fs.sb, old(fs.cache.disk), fs.cache.disk, {})
      ensures r.Done? || r.Failed? ==> Valid()
    {
      hide Shows, FsInv, BufferCache.CacheInv, RefsOk, TreeOk, FdsOk, CwdsOk, Exhausted, Search, Key, Stay, Created;
      hide Still, NewNode;
      n := 0;
      InTable(fs.sb, fs.cache.disk, fs.inodes, tree, refs);
      StillSelf(fs.sb, fs.cache.disk);
      SlotKind(fs.sb, fs.cache.disk, fs.inodes, tree, refs, sd, d);
      if name != [] && fs.inodes[sd].disk.kind != TYPE_DIR { return Outside, n; }
      var found := None;
      if name != [] { found := Lookup(sd, d, name); }
      SearchNamed(tree, d, name);
      if name == [] || found.Some? {
        PutNamed(sd, d);
        assert held == base;
        return Failed, n;
      }
      var ok;
      ok, n := MakeDir(sd, name, d, base);
      r := if ok then Done(()) else Panicked;
    }

    /** The new directory. */
    method MakeDir(sd: nat, name: seq<byte>, ghost d: nat, ghost base: multiset<nat>) returns (ok: bool, ghost n: nat)
      requires Valid() && Named(tree, d) && tree[d].dir && At(fs.inodes, sd, d) && held == base + multiset{d}
      requires name != [] && name[0] != 0 && Key(name) !in tree[d].entries
      modifies this`tree, this`refs, this`held, fs, fs.cache
      ensures !ok ==> Exhausted(fs.sb, fs.cache.disk, fs.inodes)
      ensures ok ==> n !in old(tree) && tree == Created(old(tree), d, Key(name), n, NewNode(TYPE_DIR))
      ensures ok ==> held == base && Still(fs.sb, old(fs.cache.disk), fs.cache.disk, {})
      ensures ok ==> Valid()
    {
      hide Shows, FsInv, BufferCache.CacheInv, RefsOk, TreeOk, FdsOk, CwdsOk, Exhausted, Key, Created, Still, NewNode;
      hide Calm;
      var s;
      s, n := CreateInode(sd, name, TYPE_DIR, d);
      if s.None? { return false, n; }
      StillOf(fs.sb, old(fs.cache.disk), old(fs.inodes), fs.cache.disk, fs.inodes, old(held), {});
      CalmAt(fs.sb, old(fs.cache.disk), old(fs.inodes), fs.cache.disk, fs.inodes, old(held), {}, sd, d);
      assert held == base + multiset{d} + multiset{n};
      PutBoth(s.value, sd, n, d);
      assert held == base;
      ok := true;
    }

    /** `fs_chdir` */
    method Chdir(p: nat, path: seq<byte>) returns (r: Reply<()>)
      requires Valid() && p < |procs|
      modifies this`tree, this`refs, this`procs, this`held, fs, fs.cache
      ensures !r.Outside? && (r.Panicked? ==> Exhausted(fs.sb, fs.cache.disk, fs.inodes))
      ensures !r.Panicked? ==>
        var i := PathTo(old(tree), old(procs)[p].cwd, path);
        && (r.Done? <==> i.Some? && i.value in old(tree) && old(tree)[i.value].dir)
        && procs == if r.Done? then old(procs)[p := old(procs)[p].(cwd := i.value)] else old(procs)
      ensures !r.Panicked? ==> tree == old(tree) && held == old(held) && fs.cache.disk == old(fs.cache.disk)
      ensures !r.Panicked? ==> Valid()
    {
      hide Shows, FsInv, BufferCache.CacheInv, RefsOk, TreeOk, FdsOk, CwdsOk, PathTo, Exhausted, NoFreeSlot, Stay;
      var s;
      ghost var i;
      s, i := PathToInode(p, path);
      if s.Panicked? { SlotStop(fs.sb, fs.cache.disk, fs.inodes, tree, refs); }
      if !s.Done? { return if s.Failed? then Failed else Panicked; }
      SlotKind(fs.sb, fs.cache.disk, fs.inodes, tree, refs, s.value, i);
      if fs.inodes[s.value].disk.kind != TYPE_DIR {
        PutNamed(s.value, i);
        assert held == old(held);
        return Failed;
      }
      CwdChange(tree, files, procs, p, i);
      procs := procs[p := procs[p].(cwd := fs.inodes[s.value].inum)];
      PutNamed(s.value, i);
      assert held == old(held);
      return Done(());
    }

    /** The file-table part of `fork`: the child's descriptors hold the same file objects. */
    method ForkFiles(p: nat, child: nat)
      requires Valid() && p < |procs| && child < |procs| && p != child
      requires forall d :: 0 <= d < |procs[child].fds| ==> procs[child].fds[d].None?
      modifies this`files, this`procs
      ensures procs == old(procs)[child := old(procs)[p]]
      ensures |files| == |old(files)|
      ensures forall f :: 0 <= f < |files| ==> files[f].(refcnt := 0) == old(files)[f].(refcnt := 0)
      ensures Valid()
    {
      hide Shows, FsInv, BufferCache.CacheInv, RefsOk, TreeOk, FdsOk, CwdsOk;
      FdsLength(files, procs, p);
      FdsLength(files, procs, child);
      CwdChange(tree, files, procs, child, procs[p].cwd) by { CwdOf(tree, procs, p); }
      procs := procs[child := procs[child].(cwd := procs[p].cwd)];
      var d := 0;
      while d < NOFILE
        invariant 0 <= d <= NOFILE && |procs| == |old(procs)| && Valid()
        invariant |procs[child].fds| == NOFILE && procs[child].cwd == old(procs)[p].cwd
        invariant forall q :: 0 <= q < |procs| && q != child ==> procs[q] == old(procs)[q]
        invariant forall k :: 0 <= k < NOFILE ==> procs[child].fds[k] == if k < d then old(procs)[p].fds[k] else None
        invariant |files| == |old(files)|
        invariant forall f :: 0 <= f < |files| ==> files[f].(refcnt := 0) == old(files)[f].(refcnt := 0)
      {
        if procs[p].fds[d].Some? {
          CopyFd(p, child, d);
        }
        d := d + 1;
      }
      assert procs[child].fds == old(procs)[p].fds;
      assert procs == old(procs)[child := old(procs)[p]];
    }

    /** One more descriptor of an open file, in another process. */
    method CopyFd(p: nat, child: nat, d: nat)
      requires Valid() && p < |procs| && child < |procs| && d < |procs[p].fds| && d < |procs[child].fds|
      requires procs[p].fds[d].Some? && procs[child].fds[d].None?
      modifies this`files, this`procs
      ensures procs == SetFd(old(procs), child, d, old(procs)[p].fds[d])
      ensures |files| == |old(files)|
      ensures forall f :: 0 <= f < |files| ==> files[f].(refcnt := 0) == old(files)[f].(refcnt := 0)
      ensures Valid()
    {
      hide Shows, FsInv, BufferCache.CacheInv, RefsOk, TreeOk, FdsOk, CwdsOk;
      FdsLength(files, procs, p);
      FdOpen(files, procs, p, d);
      var f := procs[p].fds[d].value;
      var x := files[f].(refcnt := files[f].refcnt + 1);
      RecountOk(tree, refs, files, files[f := x], held);
      GainOk(files, procs, child, d, f, x);
      CwdsSame(tree, procs, child, d, Some(f));
      files := files[f := x];
      procs := SetFd(procs, child, d, Some(f));
    }

    /** The file-table part of `exit`: every descriptor is closed; files that are named, open or held stay. */
    method ExitFiles(p: nat)
      requires Valid() && p < |procs|
      modifies this`tree, this`refs, this`files, this`procs, this`held, fs, fs.cache
      ensures held == old(held) && |procs| == |old(procs)|
      ensures forall q :: 0 <= q < |procs| && q != p ==> procs[q] == old(procs)[q]
      ensures procs[p].cwd == old(procs)[p].cwd && forall d :: 0 <= d < |procs[p].fds| ==> procs[p].fds[d].None?
      ensures Survives(old(tree), tree, files, held) && Released(fs.sb, old(fs.cache.disk), fs.cache.disk)
      ensures SameObjects(old(files), files)
      ensures Valid()
    {
      hide Shows, FsInv, BufferCache.CacheInv, RefsOk, TreeOk, FdsOk, CwdsOk, OpenOf, AfterClose, Survives, Released;
      hide Closed;
      FdsLength(files, procs, p);
      SurvivesSelf(tree, files, held);
      InTable(fs.sb, fs.cache.disk, fs.inodes, tree, refs);
      ReleasedSelf(fs.sb, fs.cache.disk);
      var d := 0;
      while d < NOFILE
        invariant 0 <= d <= NOFILE && |procs| == |old(procs)| && Valid() && held == old(held)
        invariant |procs[p].fds| == NOFILE
        invariant forall q :: 0 <= q < |procs| && q != p ==> procs[q] == old(procs)[q]
        invariant procs[p].cwd == old(procs)[p].cwd && forall k :: 0 <= k < d ==> procs[p].fds[k].None?
        invariant Survives(old(tree), tree, files, held) && Released(fs.sb, old(fs.cache.disk), fs.cache.disk)
        invariant SameObjects(old(files), files)
      {
        if procs[p].fds[d].Some? {
          ghost var t, fs0, ps, e := tree, files, procs, fs.cache.disk;
          var ok := Close(p, d);
          ClosedSurvives(old(tree), t, fs0, ps, tree, files, procs, held, p, d);
          ReleasedTrans(fs.sb, old(fs.cache.disk), e, fs.cache.disk);
        }
        d := d + 1;
      }
    }
  }
}
