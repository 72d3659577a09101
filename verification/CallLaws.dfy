/**
  What consecutive calls of a run have to do with each other, in terms of paths, descriptors, replies and bytes only.
*/
module CallLaws {
  import opened Base
  import opened PageTree
  import opened FileTree
  import opened FileSystem
  import opened DiskTree
  import opened Namespace
  import opened SystemCalls
  import opened CallRuns
  import OpenFiles
  import Links
  import Paths
  import NameLaws
  import FileBytes
  import FileCalls
  import UserCopy

  /** A call that was refused and changed nothing. */
  ghost predicate Refused(s: Snap, t: Snap, r: Reply<nat>) {
    && r.Failed? && t.d == s.d && t.tree == s.tree && t.held == s.held && t.procs == s.procs && t.files == s.files
    && t.pages == s.pages
  }

  /** A read that copies `w` to user memory at `dst`, or as much of it as that memory takes. */
  ghost predicate Delivers(tb: Tables, s: Snap, t: Snap, root: nat, dst: nat, w: seq<byte>, r: Reply<nat>) {
    if r.Done? then r.value == |w| && UserCopy.CopyOutResult(tb, s.pages, t.pages, root, dst, w, UserCopy.Ok(()))
    else r.Failed? && exists e :: UserCopy.CopyOutResult(tb, s.pages, t.pages, root, dst, w, UserCopy.Err(e))
  }

  /** A write of `data`, the user's bytes from `src` on, at offset `off` of inode `n`: all of them or up to a fault. */
  ghost predicate Accepts(sb: SuperBlock, tb: Tables, s: Snap, t: Snap, root: nat, src: nat, len: nat, n: nat, off: nat,
                          r: Reply<nat>, data: seq<byte>) {
    && UserCopy.ReadOk(tb, s.pages, root, src, data) && FileCalls.Received(sb, s.d, t.d, n, off, data)
    && if r.Done? then r.value == |data| == len
       else r.Failed? && exists e :: FileCalls.FaultInChunk(tb, root, src, len, |data|, e)
  }

  /** What an `open` that succeeded set up. */
  lemma OpenGives(sb: SuperBlock, tb: Tables, root: nat, c: Call, r: Reply<nat>, s: Snap, t: Snap, x: set<nat>)
    returns (i: nat, f: nat)
    requires c.Open? && c.p < |s.procs| && CallStep(sb, tb, root, c, r, s, t, x) && r.Done?
    ensures |t.procs| == |s.procs| && t.procs[c.p].cwd == s.procs[c.p].cwd
    ensures PathTo(t.tree, t.procs[c.p].cwd, c.path) == Some(i)
    ensures FileOf(t.procs, c.p, r.value) == Some(f) && f < |t.files|
    ensures var y := t.files[f]; y.inum == i && y.off == 0 && y.readable == (c.mode != 1) && y.writable == (c.mode != 0)
  {
    var target, g :| OpenStep(sb, s, t, c, r, x, target, g);
    assert Opened(s.tree, s.files, s.procs, s.held, t.tree, t.files, t.procs, t.held, c.p, c.path, c.creat, c.mode, r,
                  target, g);
    i, f := target.value, g;
    assert Outcome(Done(())) == Done(());
    NameLaws.OpenNames(s.tree, s.procs[c.p].cwd, c.path, c.creat, t.tree, i);
  }

  /**
    Reading from a descriptor right after `open` returned it: the bytes from the start of the file that the path names,
    exactly unless the file was opened for writing only.
  */
  lemma OpenThenRead(sb: SuperBlock, tb: Tables, root: nat, c: Call, r: Reply<nat>, s: Snap, t: Snap, x: set<nat>,
                     dst: nat, len: nat, q: Reply<nat>, u: Snap, y: set<nat>)
    requires c.Open? && c.p < |s.procs| && CallStep(sb, tb, root, c, r, s, t, x) && r.Done? && c.p < |t.procs|
    requires CallStep(sb, tb, root, ReadCall(c.p, r.value, dst, len), q, t, u, y)
    ensures var i := PathTo(t.tree, t.procs[c.p].cwd, c.path);
      if c.mode == 1 then Refused(t, u, q)
      else
        && i.Some? && Layout(sb, |t.d|) && i.value < sb.ninodes && u.d == t.d
        && Delivers(tb, t, u, root, dst, Slice(FileBytes.File(sb, t.d, i.value), 0, len), q)
  {
    hide CallStep, PathTo, FileBytes.File, UserCopy.CopyOutResult;
    var i, f := OpenGives(sb, tb, root, c, r, s, t, x);
    ReadStep(sb, tb, root, c.p, r.value, dst, len, q, t, u, y);
  }

  /** Only the offset of file object `f` moved, to `off`. */
  ghost predicate MovedTo(s: Snap, t: Snap, f: nat, off: nat) {
    f < |s.files| && t.files == s.files[f := s.files[f].(off := off)] && t.procs == s.procs && t.tree == s.tree
  }

  /** What a read by descriptor is, in terms of the descriptor's file object. */
  lemma ReadStep(sb: SuperBlock, tb: Tables, root: nat, p: nat, fd: nat, dst: nat, len: nat, q: Reply<nat>, s: Snap,
                 t: Snap, y: set<nat>)
    requires p < |s.procs| && CallStep(sb, tb, root, ReadCall(p, fd, dst, len), q, s, t, y)
    ensures var f := FileOf(s.procs, p, fd);
      if f.None? || f.value >= |s.files| || !s.files[f.value].readable then Refused(s, t, q)
      else var o := s.files[f.value];
        && Layout(sb, |s.d|) && o.inum < sb.ninodes && t.d == s.d
        && Delivers(tb, s, t, root, dst, Slice(FileBytes.File(sb, s.d, o.inum), o.off, len), q)
        && (q.Done? ==> MovedTo(s, t, f.value, o.off + q.value))
  {
    hide FileBytes.File, UserCopy.CopyOutResult, Slice;
  }

  /** What a write by descriptor is, in terms of the descriptor's file object. */
  lemma WriteStep(sb: SuperBlock, tb: Tables, root: nat, p: nat, fd: nat, src: nat, len: nat, q: Reply<nat>, s: Snap,
                  t: Snap, y: set<nat>) returns (data: seq<byte>)
    requires p < |s.procs| && CallStep(sb, tb, root, WriteCall(p, fd, src, len), q, s, t, y)
    ensures var f := FileOf(s.procs, p, fd);
      if f.None? || f.value >= |s.files| || !s.files[f.value].writable then Refused(s, t, q)
      else var o := s.files[f.value];
        && Accepts(sb, tb, s, t, root, src, len, o.inum, o.off, q, data)
        && (q.Done? ==> MovedTo(s, t, f.value, o.off + q.value))
  {
    hide UserCopy.ReadOk, FileCalls.Received, FileCalls.FaultInChunk, Still;
    data :| WriteBy(sb, s.d, t.d, s.procs, s.files, t.files, tb, s.pages, p, fd, root, src, len, q, data);
  }

  /** Writing to a descriptor right after `open` returned it: at the start of the file that the path names. */
  lemma OpenThenWrite(sb: SuperBlock, tb: Tables, root: nat, c: Call, r: Reply<nat>, s: Snap, t: Snap, x: set<nat>,
                      src: nat, len: nat, q: Reply<nat>, u: Snap, y: set<nat>) returns (data: seq<byte>)
    requires c.Open? && c.p < |s.procs| && CallStep(sb, tb, root, c, r, s, t, x) && r.Done? && c.p < |t.procs|
    requires CallStep(sb, tb, root, WriteCall(c.p, r.value, src, len), q, t, u, y)
    ensures var i := PathTo(t.tree, t.procs[c.p].cwd, c.path);
      if c.mode == 0 then Refused(t, u, q)
      else i.Some? && Accepts(sb, tb, t, u, root, src, len, i.value, 0, q, data)
  {
    hide CallStep, PathTo, Accepts;
    var i, f := OpenGives(sb, tb, root, c, r, s, t, x);
    data := WriteStep(sb, tb, root, c.p, r.value, src, len, q, t, u, y);
  }

  // ----- what is written is read

  lemma SameFile(sb: SuperBlock, d: Disk, e: Disk, n: nat)
    requires Layout(sb, |d|) && |e| == |d| && n < sb.ninodes && KeptFile(sb, d, e, n) && !IsDir(sb, d, n)
    ensures FileBytes.File(sb, e, n) == FileBytes.File(sb, d, n)
  {
  }

  /** The start of a file after a write at offset 0. */
  lemma WrittenStart(sb: SuperBlock, d: Disk, e: Disk, n: nat, data: seq<byte>)
    requires Layout(sb, |d|) && Live(sb, d, n) && n < sb.ninodes && FileCalls.Received(sb, d, e, n, 0, data)
    ensures |e| == |d| && Slice(FileBytes.File(sb, e, n), 0, |data|) == data
  {
    FileCalls.ReceivedFile(sb, d, e, n, 0, data);
    assert FileBytes.GapZero(sb, d, n, 0);
    if data != [] {
      FileCalls.ReadBack(FileBytes.File(sb, d, n), 0, data);
    }
    hide FileBytes.File, FileBytes.GapZero, FileBytes.Overwrite, FileCalls.Received;
  }

  /** A file that can be written is open and no directory. */
  lemma WritableFile(sb: SuperBlock, s: Snap, p: nat, fd: nat, f: nat)
    requires SnapOk(sb, s) && p < |s.procs| && FileOf(s.procs, p, fd) == Some(f) && f < |s.files| && s.files[f].writable
    ensures var n := s.files[f].inum; Layout(sb, |s.d|) && n < sb.ninodes && Live(sb, s.d, n) && !IsDir(sb, s.d, n)
  {
    hide Shows, OpenFiles.RefsOk, CwdsOk;
    OpenFiles.FdOpen(s.files, s.procs, p, fd);
    OpenRef(s.tree, s.refs, s.files, s.held, f);
    NodeKind(sb, s.d, s.inodes, s.tree, s.refs, s.files[f].inum);
  }

  lemma NodeKind(sb: SuperBlock, d: Disk, inodes: seq<Inode>, tree: Paths.Tree, refs: map<nat, nat>, n: nat)
    requires Shows(sb, d, inodes, tree, refs) && n in tree
    ensures Layout(sb, |d|) && n < sb.ninodes && Live(sb, d, n) && tree[n].dir == IsDir(sb, d, n)
  {
    hide FsInv, Live, FileBytes.File;
    TreeAt(sb, d, n);
  }

  /** Calls `k` and `k + 1` open a path and write through it, and all of it is written. */
  ghost predicate WritesAt(calls: seq<Call>, replies: seq<Reply<nat>>, k: nat) {
    && k + 1 < |replies| <= |calls| && calls[k].Open? && calls[k].mode != 0 && replies[k].Done?
    && calls[k + 1].WriteCall? && calls[k + 1].p == calls[k].p && calls[k + 1].fd == replies[k].value
    && replies[k + 1].Done?
  }

  /** Calls `m` and `m + 1` open a path and read through it. */
  ghost predicate ReadsAt(calls: seq<Call>, replies: seq<Reply<nat>>, m: nat) {
    && m + 1 < |replies| <= |calls| && calls[m].Open? && calls[m].mode != 1 && replies[m].Done?
    && calls[m + 1].ReadCall? && calls[m + 1].p == calls[m].p && calls[m + 1].fd == replies[m].value
  }

  /** In state `s` the path of call `c` names inode `n`. */
  ghost predicate Names(s: Snap, c: Call, n: nat) {
    c.Open? && c.p < |s.procs| && PathTo(s.tree, s.procs[c.p].cwd, c.path) == Some(n)
  }

  /** The write of calls `k` and `k + 1` to inode `n`. */
  lemma WriteAt(sb: SuperBlock, tb: Tables, root: nat, calls: seq<Call>, replies: seq<Reply<nat>>,
                snaps: seq<Snap>, edits: seq<set<nat>>, k: nat, n: nat) returns (data: seq<byte>)
    requires Trace(sb, tb, root, calls, replies, snaps, edits) && WritesAt(calls, replies, k)
    requires Names(snaps[k + 1], calls[k], n)
    ensures |data| == calls[k + 1].len && UserCopy.ReadOk(tb, snaps[k + 1].pages, root, calls[k + 1].src, data)
    ensures var d := snaps[k + 2].d; Layout(sb, |d|) && n < sb.ninodes && !IsDir(sb, d, n)
                                     && Slice(FileBytes.File(sb, d, n), 0, |data|) == data
  {
    hide CallStep, SnapOk, PathTo, Live, IsDir, FileBytes.File, FileCalls.Received, UserCopy.ReadOk, Slice;
    var s, t, u, c, w := snaps[k], snaps[k + 1], snaps[k + 2], calls[k], calls[k + 1];
    var i, f := OpenGives(sb, tb, root, c, replies[k], s, t, edits[k]);
    assert i == n;
    data := WriteStep(sb, tb, root, w.p, w.fd, w.src, w.len, replies[k + 1], t, u, edits[k + 1]);
    WritableFile(sb, t, c.p, w.fd, f);
    WritableFile(sb, u, c.p, w.fd, f);
    WrittenStart(sb, t.d, u.d, n, data);
  }

  /**
    In any run: a process opens a path and writes.  Later, with the file open all the while and no other write to it or
    truncation in between, some process opens a path to the same file and reads as much.  It gets what was written.
  */
  lemma WrittenIsRead(sb: SuperBlock, tb: Tables, root: nat, calls: seq<Call>, replies: seq<Reply<nat>>,
                      snaps: seq<Snap>, edits: seq<set<nat>>, k: nat, m: nat, n: nat) returns (data: seq<byte>)
    requires Trace(sb, tb, root, calls, replies, snaps, edits) && k + 1 < m
    requires WritesAt(calls, replies, k) && ReadsAt(calls, replies, m) && calls[m + 1].len == calls[k + 1].len
    requires Names(snaps[k + 1], calls[k], n) && Names(snaps[m + 1], calls[m], n)
    requires OpenDuring(snaps, n, k + 2, m + 1) && Unedited(edits, n, k + 2, m + 1)
    ensures |data| == calls[k + 1].len && UserCopy.ReadOk(tb, snaps[k + 1].pages, root, calls[k + 1].src, data)
    ensures Delivers(tb, snaps[m + 1], snaps[m + 2], root, calls[m + 1].dst, data, replies[m + 1])
  {
    hide SnapOk, PathTo, Live, IsDir, FileBytes.File, UserCopy.ReadOk, Slice, KeptNode, KeptFile, IsOpen, Delivers;
    hide CallStep, Layout;
    data := WriteAt(sb, tb, root, calls, replies, snaps, edits, k, n);
    KeptWhileOpen(sb, tb, root, calls, replies, snaps, edits, n, k + 2, m + 1);
    SameFile(sb, snaps[k + 2].d, snaps[m + 1].d, n);
    var r := calls[m + 1];
    assert CallStep(sb, tb, root, calls[m + 1], replies[m + 1], snaps[m + 1], snaps[m + 2], edits[m + 1]);
    assert r == ReadCall(calls[m].p, replies[m].value, r.dst, r.len);
    OpenThenRead(sb, tb, root, calls[m], replies[m], snaps[m], snaps[m + 1], edits[m], r.dst, r.len, replies[m + 1],
                 snaps[m + 2], edits[m + 1]);
  }

  // ----- descriptors

  /** What process `p` has at descriptor `fd`: inode, offset and what it may do with it. */
  ghost function View(s: Snap, p: nat, fd: nat): Option<(nat, nat, bool, bool)> {
    if p < |s.procs| && FileOf(s.procs, p, fd).Some? && FileOf(s.procs, p, fd).value < |s.files| then
      var o := s.files[FileOf(s.procs, p, fd).value];
      Some((o.inum, o.off, o.readable, o.writable))
    else None
  }

  /** Descriptors hold file objects of the table that are in use. */
  ghost predicate InUse(s: Snap) {
    forall p, fd :: 0 <= p < |s.procs| && 0 <= fd < |s.procs[p].fds| && s.procs[p].fds[fd].Some? ==>
      s.procs[p].fds[fd].value < |s.files| && s.files[s.procs[p].fds[fd].value].refcnt > 0
  }

  lemma FdsInUse(sb: SuperBlock, s: Snap)
    requires SnapOk(sb, s)
    ensures InUse(s)
  {
    hide Shows, Links.TreeOk, OpenFiles.RefsOk, CwdsOk;
    forall p: nat, fd: nat | p < |s.procs| && fd < |s.procs[p].fds| && s.procs[p].fds[fd].Some?
      ensures s.procs[p].fds[fd].value < |s.files| && s.files[s.procs[p].fds[fd].value].refcnt > 0
    {
      OpenFiles.FdOpen(s.files, s.procs, p, fd);
    }
  }

  /** All descriptors but `fd` of process `p` are as they were. */
  ghost predicate OthersKept(s: Snap, t: Snap, p: nat, fd: nat) {
    forall q: nat, g: nat :: q != p || g != fd ==> View(t, q, g) == View(s, q, g)
  }

  /** A closed descriptor refuses reads and writes; every other descriptor of every process is as it was. */
  lemma CloseCloses(sb: SuperBlock, tb: Tables, root: nat, p: nat, fd: nat, r: Reply<nat>, s: Snap, t: Snap,
                    x: set<nat>)
    requires InUse(s) && p < |s.procs| && CallStep(sb, tb, root, Close(p, fd), r, s, t, x)
    ensures r.Done? <==> View(s, p, fd).Some?
    ensures View(t, p, fd).None? && OthersKept(s, t, p, fd)
  {
    assert CloseStep(sb, s, t, p, fd, r);
    hide CallStep, Released, AfterClose;
  }

  lemma NothingToRead(sb: SuperBlock, tb: Tables, root: nat, p: nat, fd: nat, a: nat, len: nat, s: Snap, t: Snap,
                      r: Reply<nat>, x: set<nat>)
    requires p < |s.procs| && View(s, p, fd).None?
    ensures CallStep(sb, tb, root, ReadCall(p, fd, a, len), r, s, t, x) ==> Refused(s, t, r)
    ensures CallStep(sb, tb, root, WriteCall(p, fd, a, len), r, s, t, x) ==> Refused(s, t, r)
  {
    hide CallStep;
    if CallStep(sb, tb, root, ReadCall(p, fd, a, len), r, s, t, x) {
      ReadStep(sb, tb, root, p, fd, a, len, r, s, t, x);
    }
    if CallStep(sb, tb, root, WriteCall(p, fd, a, len), r, s, t, x) {
      var _ := WriteStep(sb, tb, root, p, fd, a, len, r, s, t, x);
    }
  }

  /** A duplicate goes to a descriptor that was free, with all lower ones in use, and shares the file object. */
  lemma DupShares(sb: SuperBlock, tb: Tables, root: nat, p: nat, fd: nat, r: Reply<nat>, s: Snap, t: Snap, x: set<nat>)
    requires InUse(s) && p < |s.procs| && CallStep(sb, tb, root, Dup(p, fd), r, s, t, x) && r.Done?
    ensures View(s, p, r.value).None? && forall g: nat :: g < r.value ==> View(s, p, g).Some?
    ensures |t.procs| == |s.procs| && FileOf(t.procs, p, r.value) == FileOf(t.procs, p, fd) && View(t, p, fd).Some?
    ensures OthersKept(s, t, p, r.value)
  {
    assert DupStep(s, t, p, fd, r);
    hide CallStep, FirstFree;
  }

  /** Reads through two descriptors of one file object: the second goes on where the first ended. */
  lemma SharedOffset(sb: SuperBlock, tb: Tables, root: nat, p: nat, fd: nat, dst: nat, len: nat, r: Reply<nat>, s: Snap,
                     t: Snap, x: set<nat>, q: nat, g: nat)
    requires p < |s.procs| && q < |s.procs| && FileOf(s.procs, q, g) == FileOf(s.procs, p, fd)
    requires CallStep(sb, tb, root, ReadCall(p, fd, dst, len), r, s, t, x) && r.Done?
    ensures View(s, p, fd).Some? && View(t, q, g).Some?
    ensures var (n, off, _, _) := View(s, p, fd).value;
      && View(t, q, g).value.0 == n && View(t, q, g).value.1 == off + r.value
      && Layout(sb, |s.d|) && n < sb.ninodes
      && Delivers(tb, s, t, root, dst, Slice(FileBytes.File(sb, s.d, n), off, len), r)
  {
    hide CallStep, FileBytes.File, Slice, Delivers;
    ReadStep(sb, tb, root, p, fd, dst, len, r, s, t, x);
    assert Refused(s, t, r) ==> !r.Done?;
  }

  /** A forked child has its parent's descriptors, on the same file objects; nobody else's change. */
  lemma ForkShares(sb: SuperBlock, tb: Tables, root: nat, p: nat, child: nat, r: Reply<nat>, s: Snap, t: Snap,
                   x: set<nat>)
    requires p < |s.procs| && CallStep(sb, tb, root, Fork(p, child), r, s, t, x)
    ensures r.Done? && child < |t.procs| == |s.procs| && t.procs[child].cwd == s.procs[p].cwd
    ensures forall g: nat :: FileOf(t.procs, child, g) == FileOf(s.procs, p, g) && View(t, child, g) == View(s, p, g)
    ensures forall q: nat, g: nat :: q != child ==> View(t, q, g) == View(s, q, g)
  {
    forall f | 0 <= f < |s.files|
      ensures t.files[f].inum == s.files[f].inum && t.files[f].off == s.files[f].off
      ensures t.files[f].readable == s.files[f].readable && t.files[f].writable == s.files[f].writable
    {
      assert t.files[f].(refcnt := 0) == s.files[f].(refcnt := 0);
    }
  }

  /** An exited process has no descriptor left; those of all others are as they were. */
  lemma ExitCloses(sb: SuperBlock, tb: Tables, root: nat, p: nat, r: Reply<nat>, s: Snap, t: Snap, x: set<nat>)
    requires p < |s.procs| && CallStep(sb, tb, root, Exit(p), r, s, t, x)
    ensures r.Done? && (forall g: nat :: View(t, p, g).None?)
    ensures forall q: nat, g: nat :: q != p ==> View(t, q, g) == View(s, q, g)
  {
    assert ExitStep(sb, s, t, p);
    forall f | 0 <= f < |s.files|
      ensures t.files[f].inum == s.files[f].inum && t.files[f].off == s.files[f].off
      ensures t.files[f].readable == s.files[f].readable && t.files[f].writable == s.files[f].writable
    {
      assert t.files[f].(refcnt := 0, isInode := true) == s.files[f].(refcnt := 0, isInode := true);
    }
    hide CallStep, Released, Survives;
  }

  /** An `open`, successful or not, leaves all other descriptors as they were. */
  lemma OpenKeepsOthers(sb: SuperBlock, tb: Tables, root: nat, c: Call, r: Reply<nat>, s: Snap, t: Snap, x: set<nat>)
    requires InUse(s) && c.Open? && c.p < |s.procs| && CallStep(sb, tb, root, c, r, s, t, x)
    ensures r.Done? ==> View(s, c.p, r.value).None? && View(t, c.p, r.value).Some? && OthersKept(s, t, c.p, r.value)
    ensures r.Failed? ==> forall q: nat, g: nat :: View(t, q, g) == View(s, q, g)
  {
    var target, f :| OpenStep(sb, s, t, c, r, x, target, f);
    hide CallStep, Targets, Still, IsPlain, IsEmpty, CutSet, Leaks, FirstFree;
  }

  // ----- names

  /** An `open` with truncation leaves a data file that reads as empty. */
  lemma OpenTruncates(sb: SuperBlock, tb: Tables, root: nat, c: Call, r: Reply<nat>, s: Snap, t: Snap, x: set<nat>,
                      n: nat)
    requires c.Open? && c.trunc && c.p < |s.procs| && CallStep(sb, tb, root, c, r, s, t, x) && r.Done?
    requires Names(t, c, n) && IsPlain(sb, t.d, n)
    ensures n < sb.ninodes && FileBytes.File(sb, t.d, n) == []
  {
    hide IsPlain, FileBytes.File, PathTo, Still, CutSet;
    var target, f :| OpenStep(sb, s, t, c, r, x, target, f);
    assert Outcome(Done(())) == Done(());
    NameLaws.OpenNames(s.tree, s.procs[c.p].cwd, c.path, c.creat, t.tree, target.value);
    hide Opened;
    assert t.procs[c.p].cwd == s.procs[c.p].cwd by { OpenKeepsCwd(sb, tb, root, c, r, s, t, x); }
  }

  lemma OpenKeepsCwd(sb: SuperBlock, tb: Tables, root: nat, c: Call, r: Reply<nat>, s: Snap, t: Snap, x: set<nat>)
    requires c.Open? && c.p < |s.procs| && CallStep(sb, tb, root, c, r, s, t, x) && r.Done?
    ensures |t.procs| == |s.procs| && t.procs[c.p].cwd == s.procs[c.p].cwd
  {
    hide CallStep;
    var _, _ := OpenGives(sb, tb, root, c, r, s, t, x);
  }

  /** After `chdir` a relative path means what it meant behind the new working directory's path. */
  lemma ChdirThenPath(sb: SuperBlock, tb: Tables, root: nat, p: nat, path: seq<byte>, r: Reply<nat>, s: Snap, t: Snap,
                      x: set<nat>, b: seq<byte>)
    requires p < |s.procs| && CallStep(sb, tb, root, Chdir(p, path), r, s, t, x) && path != [] && Relative(b)
    ensures |t.procs| == |s.procs| && t.tree == s.tree
    ensures r.Done? ==>
      PathTo(t.tree, t.procs[p].cwd, b) == PathTo(s.tree, s.procs[p].cwd, path + [Paths.SLASH] + b)
    ensures !r.Done? ==> t.procs == s.procs
  {
    PathInParts(s.tree, s.procs[p].cwd, path, b);
    hide PathTo;
  }

  /** A directory that was just made can be entered by its path. */
  lemma MkdirThenChdir(sb: SuperBlock, tb: Tables, root: nat, p: nat, path: seq<byte>, r: Reply<nat>, s: Snap, t: Snap,
                       x: set<nat>, q: Reply<nat>, u: Snap, y: set<nat>)
    requires p < |s.procs| && CallStep(sb, tb, root, Mkdir(p, path), r, s, t, x) && r.Done?
    requires CallStep(sb, tb, root, Chdir(p, path), q, t, u, y)
    ensures q.Done? && Some(u.procs[p].cwd) == PathTo(t.tree, s.procs[p].cwd, path) && u.procs[p].cwd !in s.tree
  {
    hide PathTo, MkdirResult;
    var n: nat :| MkdirStep(s.tree, t.tree, s.procs[p].cwd, path, Outcome(r), n);
    NameLaws.MkdirNames(s.tree, s.procs[p].cwd, path, n);
  }

  /** After `link` the new path opens the old file, as the old path still does. */
  lemma LinkThenOpen(sb: SuperBlock, tb: Tables, root: nat, p: nat, path: seq<byte>, newPath: seq<byte>, r: Reply<nat>,
                     s: Snap, t: Snap, x: set<nat>)
    requires Links.TreeOk(s.tree) && CwdsOk(s.tree, s.procs)
    requires p < |s.procs| && CallStep(sb, tb, root, Link(p, path, newPath), r, s, t, x) && r.Done?
    ensures var cwd := s.procs[p].cwd;
      && t.procs == s.procs && PathTo(s.tree, cwd, newPath).None? && PathTo(s.tree, cwd, path).Some?
      && PathTo(t.tree, cwd, newPath) == PathTo(t.tree, cwd, path) == PathTo(s.tree, cwd, path)
  {
    var cwd := s.procs[p].cwd;
    var i := PathTo(s.tree, cwd, path);
    NameLaws.PathNamed(s.tree, s.procs, p, path);
    assert i.Some? && LinkResult(s.tree, i, cwd, newPath).0.Done?;
    hide CallStep, Links.TreeOk, CwdsOk, PathTo, LinkResult, UnlinkResult, Named;
    NameLaws.LinkNames(s.tree, i.value, cwd, newPath, [], multiset{});
    NameLaws.PathKept(s.tree, t.tree, cwd, path);
  }
}
