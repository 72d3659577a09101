/**
  Runs of file-system calls of several processes on one file system.  Every call takes disk, tree, file objects and
  descriptors one step; and while a file is open, its blocks stay allocated and in place, and its bytes change only by
  writes to it and by opening it with truncation.
*/
module CallRuns {
  import opened Base
  import opened Sv39
  import opened PageTree
  import opened FileTree
  import opened FileSystem
  import opened DiskTree
  import opened Namespace
  import opened FileKernel
  import opened SystemCalls
  import PageTable
  import OpenFiles
  import Links
  import Paths
  import FileBytes
  import FileCalls
  import UserCopy
  import BufferCache

  datatype Call =
    | Open(p: nat, path: seq<byte>, creat: bool, trunc: bool, mode: nat)
    | Close(p: nat, fd: nat)
    | Dup(p: nat, fd: nat)
    | Link(p: nat, path: seq<byte>, newPath: seq<byte>)
    | Unlink(p: nat, path: seq<byte>)
    | Mkdir(p: nat, path: seq<byte>)
    | Chdir(p: nat, path: seq<byte>)
    | Fork(p: nat, child: nat)
    | Exit(p: nat)
    | ReadCall(p: nat, fd: nat, dst: nat, len: nat)
    | WriteCall(p: nat, fd: nat, src: nat, len: nat)

  /** Paths come without NUL bytes, and addresses do not overflow. */
  ghost predicate CallOk(c: Call, n: nat) {
    && c.p < n
    && match c
       case Open(_, path, _, _, mode) => NoNul(path) && mode < 4
       case Link(_, path, newPath) => NoNul(path) && NoNul(newPath)
       case Unlink(_, path) => NoNul(path)
       case Mkdir(_, path) => NoNul(path)
       case Fork(p, child) => child < n && child != p
       case ReadCall(_, _, dst, len) => dst + len < ADDRESS_SPACE
       case WriteCall(_, _, src, len) => src + len < ADDRESS_SPACE
       case _ => true
  }

  /** The system between two calls. */
  datatype Snap = Snap(d: Disk, inodes: seq<Inode>, tree: Paths.Tree, refs: map<nat, nat>,
                       files: seq<OpenFiles.File>, procs: seq<OpenFiles.Proc>, held: multiset<nat>,
                       pages: PageTable.Pages)

  ghost predicate SnapOk(sb: SuperBlock, s: Snap) {
    && Shows(sb, s.d, s.inodes, s.tree, s.refs) && Links.TreeOk(s.tree)
    && OpenFiles.RefsOk(s.tree, s.refs, s.files, s.held)
    && OpenFiles.FdsOk(s.files, s.procs) && CwdsOk(s.tree, s.procs)
  }

  /** A call that changes no file object, descriptor, held reference or user page. */
  ghost predicate TablesKept(s: Snap, t: Snap) {
    t.files == s.files && t.procs == s.procs && t.held == s.held && t.pages == s.pages
  }

  /** A call that does not touch the file system. */
  ghost predicate DiskKept(s: Snap, t: Snap) {
    t.d == s.d && t.tree == s.tree && t.held == s.held && t.pages == s.pages
  }

  ghost predicate OpenStep(sb: SuperBlock, s: Snap, t: Snap, c: Call, r: Reply<nat>, x: set<nat>, target: Option<nat>,
                           f: nat)
    requires c.Open? && c.p < |s.procs|
  {
    && Opened(s.tree, s.files, s.procs, s.held, t.tree, t.files, t.procs, t.held, c.p, c.path, c.creat, c.mode, r,
              target, f)
    && x == CutSet(c.trunc, target) && Still(sb, s.d, t.d, x) && t.pages == s.pages
    && (r.Done? && c.trunc && target.Some? && IsPlain(sb, t.d, target.value) ==> IsEmpty(sb, t.d, target.value))
  }

  ghost predicate CloseStep(sb: SuperBlock, s: Snap, t: Snap, p: nat, fd: nat, r: Reply<nat>)
    requires p < |s.procs|
  {
    && Released(sb, s.d, t.d) && t.held == s.held && t.pages == s.pages
    && if FileOf(s.procs, p, fd).None? then r.Failed? && t.d == s.d && t.tree == s.tree && TablesKept(s, t)
       else r.Done? && Closed(s.tree, s.files, s.procs, t.tree, t.files, t.procs, s.held, p, fd)
  }

  ghost predicate DupStep(s: Snap, t: Snap, p: nat, fd: nat, r: Reply<nat>)
    requires p < |s.procs|
  {
    && DiskKept(s, t)
    && var f, free := FileOf(s.procs, p, fd), FirstFree(s.procs[p].fds, 0);
       if f.None? || free.None? then r.Failed? && TablesKept(s, t)
       else
         && r == Done(free.value) && MoreShared(s.files, t.files, f.value)
         && t.procs == OpenFiles.SetFd(s.procs, p, free.value, f)
  }

  /** The descriptors of process `p` are all free. */
  predicate NoFds(procs: seq<OpenFiles.Proc>, p: nat)
    requires p < |procs|
  {
    forall d :: 0 <= d < |procs[p].fds| ==> procs[p].fds[d].None?
  }

  ghost predicate ExitStep(sb: SuperBlock, s: Snap, t: Snap, p: nat)
    requires p < |s.procs|
  {
    && Released(sb, s.d, t.d) && t.held == s.held && t.pages == s.pages
    && Survives(s.tree, t.tree, t.files, t.held) && SameObjects(s.files, t.files)
    && |t.procs| == |s.procs| && (forall q :: 0 <= q < |s.procs| && q != p ==> t.procs[q] == s.procs[q])
    && t.procs[p].cwd == s.procs[p].cwd && NoFds(t.procs, p)
  }

  /** The step from `s` to `t` that a call makes, its reply, and the inodes `x` whose bytes it may change. */
  ghost predicate CallStep(sb: SuperBlock, tb: Tables, root: nat, c: Call, r: Reply<nat>, s: Snap, t: Snap, x: set<nat>)
    requires c.p < |s.procs|
  {
    var cwd := s.procs[c.p].cwd;
    && (r.Done? || r.Failed?) && (!c.Open? && !c.WriteCall? ==> x == {})
    && match c
       case Open(_, _, _, _, _) => exists target, f :: OpenStep(sb, s, t, c, r, x, target, f)
       case Close(p, fd) => CloseStep(sb, s, t, p, fd, r)
       case Dup(p, fd) => DupStep(s, t, p, fd, r)
       case Link(_, path, newPath) =>
         && TablesKept(s, t) && Still(sb, s.d, t.d, {})
         && (Outcome(r), t.tree) == LinkResult(s.tree, PathTo(s.tree, cwd, path), cwd, newPath)
       case Unlink(_, path) =>
         && TablesKept(s, t) && Dropped(sb, s.d, t.d)
         && (Outcome(r), t.tree) == UnlinkResult(s.tree, s.files, s.held, cwd, path)
       case Mkdir(_, path) =>
         && TablesKept(s, t) && Still(sb, s.d, t.d, {})
         && exists n: nat :: MkdirStep(s.tree, t.tree, cwd, path, Outcome(r), n)
       case Chdir(p, path) =>
         && DiskKept(s, t) && t.files == s.files
         && var i := PathTo(s.tree, cwd, path);
            && (r.Done? <==> i.Some? && i.value in s.tree && s.tree[i.value].dir)
            && t.procs == if r.Done? then s.procs[p := s.procs[p].(cwd := i.value)] else s.procs
       case Fork(p, child) =>
         && r.Done? && DiskKept(s, t) && child < |s.procs| && t.procs == s.procs[child := s.procs[p]]
         && |t.files| == |s.files|
         && forall f :: 0 <= f < |s.files| ==> t.files[f].(refcnt := 0) == s.files[f].(refcnt := 0)
       case Exit(p) => r.Done? && ExitStep(sb, s, t, p)
       case ReadCall(p, fd, dst, len) =>
         && t.d == s.d && t.tree == s.tree && t.held == s.held && t.procs == s.procs
         && ReadBy(sb, s.d, s.procs, s.files, t.files, tb, s.pages, t.pages, p, fd, root, dst, len, r)
       case WriteCall(p, fd, src, len) =>
         && t.tree == s.tree && t.held == s.held && t.procs == s.procs && t.pages == s.pages
         && x == WriteSet(s.procs, s.files, p, fd) && Still(sb, s.d, t.d, x)
         && exists data :: WriteBy(sb, s.d, t.d, s.procs, s.files, t.files, tb, s.pages, p, fd, root, src, len, r, data)
  }

  ghost predicate MkdirStep(t: Paths.Tree, u: Paths.Tree, cwd: nat, path: seq<byte>, r: Reply<()>, n: nat) {
    (r, u) == MkdirResult(t, cwd, path, n) && (r.Done? ==> n !in t)
  }

  /** When a call leaves what is modelled. */
  ghost predicate CallOutside(s: Snap, c: Call)
    requires c.p < |s.procs|
  {
    var cwd := s.procs[c.p].cwd;
    match c
    case Open(_, path, creat, _, _) => Targets(s.tree, cwd, path, creat, s.tree, Outside, 0)
    case Link(_, path, newPath) => LinkResult(s.tree, PathTo(s.tree, cwd, path), cwd, newPath).0.Outside?
    case Unlink(_, path) => UnlinkResult(s.tree, s.files, s.held, cwd, path).0.Outside?
    case Mkdir(_, path) => MkdirResult(s.tree, cwd, path, 0).0.Outside?
    case Fork(_, child) => child < |s.procs| && !NoFds(s.procs, child)
    case ReadCall(p, fd, _, len) => TooFar(s, p, fd, len)
    case WriteCall(p, fd, _, len) => TooFar(s, p, fd, len)
    case _ => false
  }

  ghost predicate TooFar(s: Snap, p: nat, fd: nat, len: nat)
    requires p < |s.procs|
  {
    var f := FileOf(s.procs, p, fd);
    f.Some? && f.value < |s.files| && !FileCalls.Fits(s.files[f.value].off, len)
  }

  // ----- the calls

  ghost function Now(k: Kernel, m: PageTable.Memory): Snap
    reads k, k.fs, k.fs.cache, m
  {
    Snap(k.fs.cache.disk, k.fs.inodes, k.tree, k.refs, k.files, k.procs, k.held, m.pages)
  }

  /** A reply without a value of interest. */
  function Plain(r: Reply<()>): Reply<nat> {
    match r
    case Done(_) => Done(0)
    case Failed => Failed
    case Panicked => Panicked
    case Outside => Outside
  }

  lemma PlainOutcome(r: Reply<()>)
    ensures Outcome(Plain(r)) == r
  {
    if r.Done? { assert r.value == (); }
  }

  method DoOpen(k: Kernel, m: PageTable.Memory, root: nat, c: Call) returns (r: Reply<nat>, ghost x: set<nat>)
    requires k.Valid() && UserReady(m, root) && CallOk(c, |k.procs|) && c.Open?
    modifies k, k.fs, k.fs.cache, m`pages
    ensures r.Panicked? ==> Exhausted(k.fs.sb, k.fs.cache.disk, k.fs.inodes)
    ensures r.Outside? ==> CallOutside(old(Now(k, m)), c)
    ensures r.Done? || r.Failed? ==> CallStep(k.fs.sb, m.tables, root, c, r, old(Now(k, m)), Now(k, m), x)
    ensures r.Done? || r.Failed? ==> k.Valid() && UserReady(m, root)
  {
    hide Shows, FsInv, BufferCache.CacheInv, PageTable.MemInv, TreeInv, Links.TreeOk, OpenFiles.RefsOk;
    hide OpenFiles.FdsOk, CwdsOk;
    hide UserCopy.Backed, Exhausted, Still, Intact, Opened, Targets, IsPlain, IsEmpty;
    x := {};
    var Open(p, path, creat, trunc, mode) := c;
    ghost var target, f;
    r, target, f := k.Open(p, path, creat, trunc, mode);
    x := CutSet(trunc, target);
    if r.Done? || r.Failed? { assert OpenStep(k.fs.sb, old(Now(k, m)), Now(k, m), c, r, x, target, f); }
    if r.Outside? { OpenOutside(old(Now(k, m)), k.tree, k.files, k.procs, k.held, c, target, f); }
  }

  method DoClose(k: Kernel, m: PageTable.Memory, root: nat, c: Call) returns (r: Reply<nat>, ghost x: set<nat>)
    requires k.Valid() && UserReady(m, root) && CallOk(c, |k.procs|) && (c.Close? || c.Dup?)
    modifies k, k.fs, k.fs.cache, m`pages
    ensures r.Panicked? ==> Exhausted(k.fs.sb, k.fs.cache.disk, k.fs.inodes)
    ensures r.Outside? ==> CallOutside(old(Now(k, m)), c)
    ensures r.Done? || r.Failed? ==> CallStep(k.fs.sb, m.tables, root, c, r, old(Now(k, m)), Now(k, m), x)
    ensures r.Done? || r.Failed? ==> k.Valid() && UserReady(m, root)
  {
    hide Shows, FsInv, BufferCache.CacheInv, PageTable.MemInv, TreeInv, Links.TreeOk, OpenFiles.RefsOk;
    hide OpenFiles.FdsOk, CwdsOk;
    hide UserCopy.Backed, Exhausted, Still, Released, Closed, FirstFree, MoreShared;
    x := {};
    if c.Close? {
      var ok := k.Close(c.p, c.fd);
      r := if ok then Done(0) else Failed;
    } else {
      var d := k.Dup(c.p, c.fd);
      r := if d.Some? then Done(d.value) else Failed;
    }
  }

  method DoLink(k: Kernel, m: PageTable.Memory, root: nat, c: Call) returns (r: Reply<nat>, ghost x: set<nat>)
    requires k.Valid() && UserReady(m, root) && CallOk(c, |k.procs|) && c.Link?
    modifies k, k.fs, k.fs.cache, m`pages
    ensures r.Panicked? ==> Exhausted(k.fs.sb, k.fs.cache.disk, k.fs.inodes)
    ensures r.Outside? ==> CallOutside(old(Now(k, m)), c)
    ensures r.Done? || r.Failed? ==> CallStep(k.fs.sb, m.tables, root, c, r, old(Now(k, m)), Now(k, m), x)
    ensures r.Done? || r.Failed? ==> k.Valid() && UserReady(m, root)
  {
    hide Shows, FsInv, BufferCache.CacheInv, PageTable.MemInv, TreeInv, Links.TreeOk, OpenFiles.RefsOk;
    hide OpenFiles.FdsOk, CwdsOk;
    hide UserCopy.Backed, Exhausted, Still, Intact, LinkResult, PathTo;
    x := {};
    var Link(p, path, newPath) := c;
    var q := k.Link(p, path, newPath);
    PlainOutcome(q);
    r := Plain(q);
  }

  method DoUnlink(k: Kernel, m: PageTable.Memory, root: nat, c: Call) returns (r: Reply<nat>, ghost x: set<nat>)
    requires k.Valid() && UserReady(m, root) && CallOk(c, |k.procs|) && c.Unlink?
    modifies k, k.fs, k.fs.cache, m`pages
    ensures r.Panicked? ==> Exhausted(k.fs.sb, k.fs.cache.disk, k.fs.inodes)
    ensures r.Outside? ==> CallOutside(old(Now(k, m)), c)
    ensures r.Done? || r.Failed? ==> CallStep(k.fs.sb, m.tables, root, c, r, old(Now(k, m)), Now(k, m), x)
    ensures r.Done? || r.Failed? ==> k.Valid() && UserReady(m, root)
  {
    hide Shows, FsInv, BufferCache.CacheInv, PageTable.MemInv, TreeInv, Links.TreeOk, OpenFiles.RefsOk;
    hide OpenFiles.FdsOk, CwdsOk;
    hide UserCopy.Backed, Exhausted, Still, Dropped, UnlinkResult;
    x := {};
    var Unlink(p, path) := c;
    var q := k.Unlink(p, path);
    PlainOutcome(q);
    r := Plain(q);
  }

  method DoMkdir(k: Kernel, m: PageTable.Memory, root: nat, c: Call) returns (r: Reply<nat>, ghost x: set<nat>)
    requires k.Valid() && UserReady(m, root) && CallOk(c, |k.procs|) && c.Mkdir?
    modifies k, k.fs, k.fs.cache, m`pages
    ensures r.Panicked? ==> Exhausted(k.fs.sb, k.fs.cache.disk, k.fs.inodes)
    ensures r.Outside? ==> CallOutside(old(Now(k, m)), c)
    ensures r.Done? || r.Failed? ==> CallStep(k.fs.sb, m.tables, root, c, r, old(Now(k, m)), Now(k, m), x)
    ensures r.Done? || r.Failed? ==> k.Valid() && UserReady(m, root)
  {
    hide Shows, FsInv, BufferCache.CacheInv, PageTable.MemInv, TreeInv, Links.TreeOk, OpenFiles.RefsOk;
    hide OpenFiles.FdsOk, CwdsOk;
    hide UserCopy.Backed, Exhausted, Still, Intact, MkdirResult;
    x := {};
    var Mkdir(p, path) := c;
    var q;
    ghost var n;
    q, n := k.Mkdir(p, path);
    PlainOutcome(q);
    r := Plain(q);
    MkdirOutside(old(k.tree), old(k.procs)[p].cwd, path, n);
    if q.Done? || q.Failed? { assert MkdirStep(old(k.tree), k.tree, old(k.procs)[p].cwd, path, q, n); }
  }

  method DoChdir(k: Kernel, m: PageTable.Memory, root: nat, c: Call) returns (r: Reply<nat>, ghost x: set<nat>)
    requires k.Valid() && UserReady(m, root) && CallOk(c, |k.procs|) && c.Chdir?
    modifies k, k.fs, k.fs.cache, m`pages
    ensures r.Panicked? ==> Exhausted(k.fs.sb, k.fs.cache.disk, k.fs.inodes)
    ensures r.Outside? ==> CallOutside(old(Now(k, m)), c)
    ensures r.Done? || r.Failed? ==> CallStep(k.fs.sb, m.tables, root, c, r, old(Now(k, m)), Now(k, m), x)
    ensures r.Done? || r.Failed? ==> k.Valid() && UserReady(m, root)
  {
    hide Shows, FsInv, BufferCache.CacheInv, PageTable.MemInv, TreeInv, Links.TreeOk, OpenFiles.RefsOk;
    hide OpenFiles.FdsOk, CwdsOk;
    hide UserCopy.Backed, Exhausted, Still, Intact, PathTo;
    x := {};
    var Chdir(p, path) := c;
    var q := k.Chdir(p, path);
    r := Plain(q);
  }

  method DoProcess(k: Kernel, m: PageTable.Memory, root: nat, c: Call) returns (r: Reply<nat>, ghost x: set<nat>)
    requires k.Valid() && UserReady(m, root) && CallOk(c, |k.procs|) && (c.Fork? || c.Exit?)
    modifies k, k.fs, k.fs.cache, m`pages
    ensures r.Panicked? ==> Exhausted(k.fs.sb, k.fs.cache.disk, k.fs.inodes)
    ensures r.Outside? ==> CallOutside(old(Now(k, m)), c)
    ensures r.Done? || r.Failed? ==> CallStep(k.fs.sb, m.tables, root, c, r, old(Now(k, m)), Now(k, m), x)
    ensures r.Done? || r.Failed? ==> k.Valid() && UserReady(m, root)
  {
    hide Shows, FsInv, BufferCache.CacheInv, PageTable.MemInv, TreeInv, Links.TreeOk, OpenFiles.RefsOk;
    hide OpenFiles.FdsOk, CwdsOk;
    hide UserCopy.Backed, Exhausted, Still, Released, Survives;
    x := {};
    r := Done(0);
    if c.Fork? {
      if !NoFds(k.procs, c.child) { return Outside, x; }
      k.ForkFiles(c.p, c.child);
    } else {
      k.ExitFiles(c.p);
    }
  }

  method DoRead(k: Kernel, m: PageTable.Memory, root: nat, c: Call) returns (r: Reply<nat>, ghost x: set<nat>)
    requires k.Valid() && UserReady(m, root) && CallOk(c, |k.procs|) && c.ReadCall?
    modifies k, k.fs, k.fs.cache, m`pages
    ensures r.Panicked? ==> Exhausted(k.fs.sb, k.fs.cache.disk, k.fs.inodes)
    ensures r.Outside? ==> CallOutside(old(Now(k, m)), c)
    ensures r.Done? || r.Failed? ==> CallStep(k.fs.sb, m.tables, root, c, r, old(Now(k, m)), Now(k, m), x)
    ensures r.Done? || r.Failed? ==> k.Valid() && UserReady(m, root)
  {
    hide Shows, FsInv, BufferCache.CacheInv, PageTable.MemInv, TreeInv, Links.TreeOk, OpenFiles.RefsOk;
    hide OpenFiles.FdsOk, CwdsOk;
    hide UserCopy.Backed, Exhausted, Still, Intact, FileCalls.Sends;
    x := {};
    var ReadCall(p, fd, dst, len) := c;
    r := SystemCalls.Read(k, p, fd, m, root, dst, len);
  }

  method DoWrite(k: Kernel, m: PageTable.Memory, root: nat, c: Call) returns (r: Reply<nat>, ghost x: set<nat>)
    requires k.Valid() && UserReady(m, root) && CallOk(c, |k.procs|) && c.WriteCall?
    modifies k, k.fs, k.fs.cache, m`pages
    ensures r.Panicked? ==> Exhausted(k.fs.sb, k.fs.cache.disk, k.fs.inodes)
    ensures r.Outside? ==> CallOutside(old(Now(k, m)), c)
    ensures r.Done? || r.Failed? ==> CallStep(k.fs.sb, m.tables, root, c, r, old(Now(k, m)), Now(k, m), x)
    ensures r.Done? || r.Failed? ==> k.Valid() && UserReady(m, root)
  {
    hide Shows, FsInv, BufferCache.CacheInv, PageTable.MemInv, TreeInv, Links.TreeOk, OpenFiles.RefsOk;
    hide OpenFiles.FdsOk, CwdsOk;
    hide UserCopy.Backed, Exhausted, Still, Intact, FileCalls.Takes;
    x := {};
    var WriteCall(p, fd, src, len) := c;
    ghost var data;
    r, data := SystemCalls.Write(k, p, fd, m, root, src, len);
    x := WriteSet(old(k.procs), old(k.files), p, fd);
    if r.Done? || r.Failed? {
      assert WriteBy(k.fs.sb, old(k.fs.cache.disk), k.fs.cache.disk, old(k.procs), old(k.files), k.files, m.tables,
                     m.pages, p, fd, root, src, len, r, data);
    }
  }

  lemma OpenOutside(s: Snap, u: Paths.Tree, fs: seq<OpenFiles.File>, ps: seq<OpenFiles.Proc>, h: multiset<nat>,
                    c: Call, target: Option<nat>, f: nat)
    requires c.Open? && c.p < |s.procs|
    requires Opened(s.tree, s.files, s.procs, s.held, u, fs, ps, h, c.p, c.path, c.creat, c.mode, Outside, target, f)
    ensures CallOutside(s, c)
  {
  }

  /** Whether `mkdir` leaves what is modelled does not depend on the new number. */
  lemma MkdirOutside(t: Paths.Tree, cwd: nat, path: seq<byte>, n: nat)
    ensures MkdirResult(t, cwd, path, n).0 == MkdirResult(t, cwd, path, 0).0
  {
  }

  method Perform(k: Kernel, m: PageTable.Memory, root: nat, c: Call) returns (r: Reply<nat>, ghost x: set<nat>)
    requires k.Valid() && UserReady(m, root) && CallOk(c, |k.procs|)
    modifies k, k.fs, k.fs.cache, m`pages
    ensures r.Panicked? ==> Exhausted(k.fs.sb, k.fs.cache.disk, k.fs.inodes)
    ensures r.Outside? ==> CallOutside(old(Now(k, m)), c)
    ensures r.Done? || r.Failed? ==> CallStep(k.fs.sb, m.tables, root, c, r, old(Now(k, m)), Now(k, m), x)
    ensures r.Done? || r.Failed? ==> k.Valid() && UserReady(m, root)
  {
    hide Shows, FsInv, BufferCache.CacheInv, PageTable.MemInv, TreeInv, Links.TreeOk, OpenFiles.RefsOk;
    hide OpenFiles.FdsOk, CwdsOk;
    hide UserCopy.Backed, Exhausted, CallStep, CallOutside;
    match c
    case Open(_, _, _, _, _) => r, x := DoOpen(k, m, root, c);
    case Link(_, _, _) => r, x := DoLink(k, m, root, c);
    case Unlink(_, _) => r, x := DoUnlink(k, m, root, c);
    case Mkdir(_, _) => r, x := DoMkdir(k, m, root, c);
    case Chdir(_, _) => r, x := DoChdir(k, m, root, c);
    case ReadCall(_, _, _, _) => r, x := DoRead(k, m, root, c);
    case WriteCall(_, _, _, _) => r, x := DoWrite(k, m, root, c);
    case Fork(_, _) => r, x := DoProcess(k, m, root, c);
    case Exit(_) => r, x := DoProcess(k, m, root, c);
    case Close(_, _) => r, x := DoClose(k, m, root, c);
    case Dup(_, _) => r, x := DoClose(k, m, root, c);
  }

  lemma ProcsKept(sb: SuperBlock, tb: Tables, root: nat, c: Call, r: Reply<nat>, s: Snap, t: Snap, x: set<nat>)
    requires CallOk(c, |s.procs|) && CallStep(sb, tb, root, c, r, s, t, x)
    ensures |t.procs| == |s.procs|
  {
    hide Still, Intact, Freed, Released, Dropped, LinkResult, UnlinkResult, PathTo, Survives, ReadDone, WriteDone;
    hide IsPlain, IsEmpty, Targets, MkdirStep;
    if c.Open? {
      var target, f :| OpenStep(sb, s, t, c, r, x, target, f);
      hide FirstFree;
    }
  }

  // ----- what stays while a file is open

  lemma StepIntact(sb: SuperBlock, tb: Tables, root: nat, c: Call, r: Reply<nat>, s: Snap, t: Snap, x: set<nat>)
    requires c.p < |s.procs| && CallStep(sb, tb, root, c, r, s, t, x) && Layout(sb, |s.d|)
    ensures Intact(sb, s.d, t.d, x)
  {
    hide Intact, Freed, Live, Marked, LinkResult, UnlinkResult, PathTo, Survives, ReadDone, WriteDone, IsPlain;
    hide IsEmpty, Opened, MkdirStep, Closed;
    IntactSelf(sb, s.d);
    if c.Open? {
      var target, f :| OpenStep(sb, s, t, c, r, x, target, f);
    }
    if c.WriteCall? && t.d == s.d { assert Still(sb, s.d, t.d, x); }
  }

  /** Some file object is open on inode `n`. */
  ghost predicate IsOpen(s: Snap, n: nat) {
    exists f :: 0 <= f < |s.files| && s.files[f].refcnt > 0 && s.files[f].inum == n
  }

  lemma OpenIsLive(sb: SuperBlock, s: Snap, n: nat)
    requires SnapOk(sb, s) && IsOpen(s, n)
    ensures Trees(sb, s.d) && Layout(sb, |s.d|) && Live(sb, s.d, n) && n < sb.ninodes
  {
    var f :| 0 <= f < |s.files| && s.files[f].refcnt > 0 && s.files[f].inum == n;
    OpenRef(s.tree, s.refs, s.files, s.held, f);
    InTable(sb, s.d, s.inodes, s.tree, s.refs);
  }

  /** The states, replies and possible edits of the calls made so far. */
  ghost predicate Trace(sb: SuperBlock, tb: Tables, root: nat, calls: seq<Call>, replies: seq<Reply<nat>>,
                        snaps: seq<Snap>, edits: seq<set<nat>>) {
    && |snaps| == |replies| + 1 && |edits| == |replies| <= |calls|
    && (forall k :: 0 <= k < |snaps| ==> SnapOk(sb, snaps[k]))
    && forall k :: 0 <= k < |replies| ==>
         calls[k].p < |snaps[k].procs| && CallStep(sb, tb, root, calls[k], replies[k], snaps[k], snaps[k + 1], edits[k])
  }

  ghost predicate OpenDuring(snaps: seq<Snap>, n: nat, i: nat, j: nat)
    requires i <= j < |snaps|
  {
    forall k :: i <= k <= j ==> IsOpen(snaps[k], n)
  }

  ghost predicate Unedited(edits: seq<set<nat>>, n: nat, i: nat, j: nat)
    requires i <= j <= |edits|
  {
    forall k :: i <= k < j ==> n !in edits[k]
  }

  lemma {:induction false} KeptWhileOpen(sb: SuperBlock, tb: Tables, root: nat, calls: seq<Call>,
                                         replies: seq<Reply<nat>>,
                                         snaps: seq<Snap>, edits: seq<set<nat>>, n: nat, i: nat, j: nat)
    requires Trace(sb, tb, root, calls, replies, snaps, edits) && i <= j < |snaps| && OpenDuring(snaps, n, i, j)
    ensures Layout(sb, |snaps[i].d|) && |snaps[j].d| == |snaps[i].d| && n < sb.ninodes
    ensures KeptNode(sb, snaps[i].d, snaps[j].d, n)
    ensures Unedited(edits, n, i, j) ==> KeptFile(sb, snaps[i].d, snaps[j].d, n)
    decreases j - i
  {
    hide CallStep, SnapOk, T, InodeAt, FileBytes.File, Live, IsOpen, Trees;
    OpenIsLive(sb, snaps[i], n);
    if i < j {
      KeptWhileOpen(sb, tb, root, calls, replies, snaps, edits, n, i, j - 1);
      OpenIsLive(sb, snaps[j - 1], n);
      OpenIsLive(sb, snaps[j], n);
      StepIntact(sb, tb, root, calls[j - 1], replies[j - 1], snaps[j - 1], snaps[j], edits[j - 1]);
    }
  }

  /** Every block of inode `n`'s tree stays in it, and is marked as used. */
  ghost predicate BlocksKept(sb: SuperBlock, d: Disk, e: Disk, n: nat) {
    && Layout(sb, |d|) && |e| == |d| && n < sb.ninodes
    && forall c :: FileTree.InTree(sb, d, n, c) ==> FileTree.InTree(sb, e, n, c) && Marked(sb, e, c)
  }

  lemma KeptBlocks(sb: SuperBlock, d: Disk, e: Disk, n: nat)
    requires Layout(sb, |d|) && |e| == |d| && n < sb.ninodes && Trees(sb, e) && Live(sb, e, n) && KeptNode(sb, d, e, n)
    ensures BlocksKept(sb, d, e, n)
  {
    hide T, InodeAt, Marked, TreesDisjoint;
    forall c | FileTree.InTree(sb, d, n, c) ensures FileTree.InTree(sb, e, n, c) && Marked(sb, e, c) {
      var p :| ValidPos(p) && T(sb, d, n, p) == c && c != 0;
      assert T(sb, e, n, p) == c;
    }
  }

  /**
    Over any stretch of a run during which inode `n` is open: its blocks stay allocated and in its tree, and unless a
    call writes to it or truncates it, a file that is no directory keeps its bytes.
  */
  ghost predicate OpenSafe(sb: SuperBlock, snaps: seq<Snap>, edits: seq<set<nat>>, n: nat, i: nat, j: nat)
    requires i <= j < |snaps| && j <= |edits|
  {
    OpenDuring(snaps, n, i, j) ==>
      && BlocksKept(sb, snaps[i].d, snaps[j].d, n)
      && (Unedited(edits, n, i, j) ==> KeptFile(sb, snaps[i].d, snaps[j].d, n))
  }

  lemma RunSafe(sb: SuperBlock, tb: Tables, root: nat, calls: seq<Call>, replies: seq<Reply<nat>>,
                snaps: seq<Snap>, edits: seq<set<nat>>, n: nat, i: nat, j: nat)
    requires Trace(sb, tb, root, calls, replies, snaps, edits) && i <= j < |snaps|
    ensures OpenSafe(sb, snaps, edits, n, i, j)
  {
    if OpenDuring(snaps, n, i, j) {
      KeptWhileOpen(sb, tb, root, calls, replies, snaps, edits, n, i, j);
      hide CallStep, SnapOk, T, InodeAt, FileBytes.File, Live, IsOpen, Trees, KeptNode, KeptFile, BlocksKept;
      OpenIsLive(sb, snaps[j], n);
      KeptBlocks(sb, snaps[i].d, snaps[j].d, n);
    }
  }

  /**
    Any run of calls of the processes, each making its step, up to the first that finds blocks, inodes or inode slots
    exhausted or that leaves what is modelled; throughout, open files are safe.
  */
  method Run(k: Kernel, m: PageTable.Memory, root: nat, calls: seq<Call>)
    returns (replies: seq<Reply<nat>>, stop: Reply<nat>, ghost snaps: seq<Snap>, ghost edits: seq<set<nat>>)
    requires k.Valid() && UserReady(m, root) && forall i :: 0 <= i < |calls| ==> CallOk(calls[i], |k.procs|)
    modifies k, k.fs, k.fs.cache, m`pages
    ensures Trace(k.fs.sb, m.tables, root, calls, replies, snaps, edits) && snaps[0] == old(Now(k, m))
    ensures forall n: nat, i: nat, j: nat :: i <= j < |snaps| ==> OpenSafe(k.fs.sb, snaps, edits, n, i, j)
    ensures |replies| == |calls| ==> k.Valid() && snaps[|replies|] == Now(k, m)
    ensures |replies| < |calls| ==>
      || (stop.Panicked? && Exhausted(k.fs.sb, k.fs.cache.disk, k.fs.inodes))
      || (&& stop.Outside? && calls[|replies|].p < |snaps[|replies|].procs|
          && CallOutside(snaps[|replies|], calls[|replies|]))
  {
    hide Shows, FsInv, BufferCache.CacheInv, PageTable.MemInv, TreeInv, Links.TreeOk, OpenFiles.RefsOk;
    hide OpenFiles.FdsOk, CwdsOk;
    hide UserCopy.Backed, Exhausted, CallStep, CallOutside, CallOk, OpenSafe;
    replies, snaps, edits, stop := [], [Now(k, m)], [], Done(0);
    while |replies| < |calls|
      invariant |replies| <= |calls| && k.Valid() && UserReady(m, root) && |k.procs| == |old(k.procs)|
      invariant Trace(k.fs.sb, m.tables, root, calls, replies, snaps, edits)
      invariant snaps[0] == old(Now(k, m)) && snaps[|replies|] == Now(k, m)
      decreases |calls| - |replies|
    {
      ghost var s := Now(k, m);
      ghost var c := calls[|replies|];
      CallBound(c, |k.procs|);
      ghost var x;
      stop, x := Perform(k, m, root, calls[|replies|]);
      if stop.Panicked? || stop.Outside? { break; }
      ProcsKept(k.fs.sb, m.tables, root, c, stop, s, Now(k, m), x);
      TraceMore(k.fs.sb, m.tables, root, calls, replies, snaps, edits, stop, Now(k, m), x);
      replies, snaps, edits := replies + [stop], snaps + [Now(k, m)], edits + [x];
    }
    forall n: nat, i: nat, j: nat | i <= j < |snaps| ensures OpenSafe(k.fs.sb, snaps, edits, n, i, j) {
      RunSafe(k.fs.sb, m.tables, root, calls, replies, snaps, edits, n, i, j);
    }
  }

  lemma CallBound(c: Call, n: nat)
    requires CallOk(c, n)
    ensures c.p < n
  {
  }

  lemma TraceMore(sb: SuperBlock, tb: Tables, root: nat, calls: seq<Call>, replies: seq<Reply<nat>>,
                  snaps: seq<Snap>, edits: seq<set<nat>>, r: Reply<nat>, t: Snap, x: set<nat>)
    requires Trace(sb, tb, root, calls, replies, snaps, edits) && |replies| < |calls| && SnapOk(sb, t)
    requires calls[|replies|].p < |snaps[|replies|].procs|
    requires CallStep(sb, tb, root, calls[|replies|], r, snaps[|replies|], t, x)
    ensures Trace(sb, tb, root, calls, replies + [r], snaps + [t], edits + [x])
  {
    hide CallStep, SnapOk;
    var rs, ss, es := replies + [r], snaps + [t], edits + [x];
    forall k | 0 <= k < |rs|
      ensures calls[k].p < |ss[k].procs| && CallStep(sb, tb, root, calls[k], rs[k], ss[k], ss[k + 1], es[k])
    {
      if k < |replies| { assert CallStep(sb, tb, root, calls[k], replies[k], snaps[k], snaps[k + 1], edits[k]); }
    }
  }
}
