/**
  Reference counts of inodes and open files (kernel/src/fs/file.rs, inode.rs): an inode is referenced by each open file
  and by each reference in the hands of kernel code; a file by each descriptor slot that holds it.
*/
module OpenFiles {
  import opened Base
  import opened Paths
  import opened Links

  const NFILE := 128
  const NOFILE := 32

  datatype File = File(refcnt: nat, isInode: bool, readable: bool, writable: bool, off: nat, inum: nat)

  /** A process's descriptors and working directory. */
  datatype Proc = Proc(fds: seq<Option<nat>>, cwd: nat)

  // ----- references to inodes

  /** The open files on inode `i`. */
  ghost function OpenOf(files: seq<File>, i: nat): set<nat> {
    set f | 0 <= f < |files| && files[f].refcnt > 0 && files[f].inum == i
  }

  function RefOf(refs: map<nat, nat>, i: nat): nat { if i in refs then refs[i] else 0 }

  /** Directories are not open for writing. */
  ghost predicate WritersOk(t: Tree, files: seq<File>) {
    forall f :: 0 <= f < |files| && files[f].refcnt > 0 && files[f].writable ==>
      files[f].inum in t && !t[files[f].inum].dir
  }

  /**
    References are those of open files and of kernel code (`held`); whatever is referenced is live; a live inode has a
    link or a reference; and no directory is open for writing.
  */
  ghost predicate RefsOk(t: Tree, refs: map<nat, nat>, files: seq<File>, held: multiset<nat>) {
    && WritersOk(t, files)
    && (forall i :: RefOf(refs, i) == |OpenOf(files, i)| + held[i])
    && (forall i :: RefOf(refs, i) > 0 ==> i in t)
    && (forall i :: i in t ==> t[i].nlink > 0 || RefOf(refs, i) > 0)
  }

  /** Inode `i` has `c` references now, all others as many as before. */
  ghost predicate Counts(refs: map<nat, nat>, r: map<nat, nat>, i: nat, c: nat) {
    RefOf(r, i) == c && forall j :: j != i ==> RefOf(r, j) == RefOf(refs, j)
  }

  lemma GetOk(t: Tree, refs: map<nat, nat>, r: map<nat, nat>, files: seq<File>, held: multiset<nat>, i: nat)
    requires RefsOk(t, refs, files, held) && i in t && Counts(refs, r, i, RefOf(refs, i) + 1)
    ensures RefsOk(t, r, files, held + multiset{i})
  {
    var h := held + multiset{i};
    forall j ensures RefOf(r, j) == |OpenOf(files, j)| + h[j] {
      assert RefOf(refs, j) == |OpenOf(files, j)| + held[j];
    }
    hide OpenOf;
  }

  /** One more reference to an inode that had one: putting it deletes nothing. */
  lemma HeldTwice(t: Tree, refs: map<nat, nat>, r: map<nat, nat>, files: seq<File>, held: multiset<nat>,
                  h: multiset<nat>, i: nat)
    requires RefsOk(t, refs, files, held) && RefsOk(t, r, files, h) && h == held + multiset{i} && RefOf(refs, i) > 0
    ensures i in t && RefOf(r, i) > 1 && AfterPut(t, r, i) == t
  {
    hide OpenOf;
    assert RefOf(refs, i) == |OpenOf(files, i)| + held[i];
    assert RefOf(r, i) == |OpenOf(files, i)| + h[i];
  }

  /** The tree after `inode_put` of inode `i`: gone if this was the last reference and there is no link. */
  ghost function AfterPut(t: Tree, refs: map<nat, nat>, i: nat): Tree
    requires i in t
  {
    if RefOf(refs, i) == 1 && t[i].nlink == 0 then t - {i} else t
  }

  lemma PutOk(t: Tree, refs: map<nat, nat>, r: map<nat, nat>, files: seq<File>, held: multiset<nat>, i: nat)
    requires RefsOk(t, refs, files, held) && i in held && Counts(refs, r, i, RefOf(refs, i) - 1)
    ensures i in t && RefsOk(AfterPut(t, refs, i), r, files, held - multiset{i})
  {
    assert RefOf(refs, i) == |OpenOf(files, i)| + held[i];
    var h, u := held - multiset{i}, AfterPut(t, refs, i);
    forall f | 0 <= f < |files| && files[f].refcnt > 0 && files[f].inum == i ensures RefOf(refs, i) > 1 {
      assert f in OpenOf(files, i);
    }
    forall j ensures RefOf(r, j) == |OpenOf(files, j)| + h[j] {
      assert RefOf(refs, j) == |OpenOf(files, j)| + held[j];
    }
    hide OpenOf;
  }

  /** Changes of the tree that lose no inode and leave no unreferenced inode without links. */
  lemma RetreeOk(t: Tree, u: Tree, refs: map<nat, nat>, files: seq<File>, held: multiset<nat>)
    requires RefsOk(t, refs, files, held) && KindsKept(t, u)
    requires forall i :: i in u ==> u[i].nlink > 0 || RefOf(refs, i) > 0
    ensures RefsOk(u, refs, files, held)
  {
    hide OpenOf;
  }

  /** A held reference becomes that of a newly opened file. */
  lemma OpenedOk(t: Tree, refs: map<nat, nat>, files: seq<File>, held: multiset<nat>, f: nat, x: File)
    requires RefsOk(t, refs, files, held) && f < |files| && files[f].refcnt == 0 && x.refcnt > 0 && x.inum in held
    requires x.writable ==> x.inum in t && !t[x.inum].dir
    ensures RefsOk(t, refs, files[f := x], held - multiset{x.inum})
  {
    var fs, h := files[f := x], held - multiset{x.inum};
    forall j ensures |OpenOf(fs, j)| + h[j] == |OpenOf(files, j)| + held[j] { OpenOfSet(files, f, x, j); }
    hide OpenOf;
  }

  /** The reference of a closed file falls to kernel code. */
  lemma ClosedOk(t: Tree, refs: map<nat, nat>, files: seq<File>, held: multiset<nat>, f: nat, x: File)
    requires RefsOk(t, refs, files, held) && f < |files| && files[f].refcnt > 0 && x.refcnt == 0
    ensures RefsOk(t, refs, files[f := x], held + multiset{files[f].inum})
  {
    var fs, h := files[f := x], held + multiset{files[f].inum};
    forall j ensures |OpenOf(fs, j)| + h[j] == |OpenOf(files, j)| + held[j] {
      OpenOfSet(fs, f, files[f], j);
      assert fs[f := files[f]] == files;
    }
    hide OpenOf;
  }

  lemma OpenOfSet(files: seq<File>, f: nat, x: File, j: nat)
    requires f < |files| && files[f].refcnt == 0 && x.refcnt > 0
    ensures |OpenOf(files[f := x], j)| == |OpenOf(files, j)| + if j == x.inum then 1 else 0
  {
    var a, b := OpenOf(files, j), OpenOf(files[f := x], j);
    if j == x.inum { assert b == a + {f}; } else { assert b == a; }
  }

  /** Further descriptors of an open file are not further references to its inode. */
  lemma RecountOk(t: Tree, refs: map<nat, nat>, files: seq<File>, fs: seq<File>, held: multiset<nat>)
    requires RefsOk(t, refs, files, held) && |fs| == |files|
    requires forall f :: 0 <= f < |files| ==>
               && fs[f].inum == files[f].inum && fs[f].writable == files[f].writable
               && (fs[f].refcnt > 0 <==> files[f].refcnt > 0)
    ensures RefsOk(t, refs, fs, held)
  {
    forall j ensures OpenOf(fs, j) == OpenOf(files, j) {}
    hide OpenOf;
  }

  // ----- descriptors

  /** The descriptor slots that hold file `f`. */
  ghost function SlotsOf(procs: seq<Proc>, f: nat): set<(nat, nat)> {
    set p, d | 0 <= p < |procs| && 0 <= d < |procs[p].fds| && procs[p].fds[d] == Some(f) :: (p, d)
  }

  ghost predicate FdsOk(files: seq<File>, procs: seq<Proc>) {
    && |files| == NFILE
    && (forall p :: 0 <= p < |procs| ==> |procs[p].fds| == NOFILE)
    && (forall p, d :: 0 <= p < |procs| && 0 <= d < |procs[p].fds| && procs[p].fds[d].Some? ==>
      procs[p].fds[d].value < NFILE)
    && (forall f: nat :: f < NFILE ==>
      files[f].refcnt == |SlotsOf(procs, f)| && (files[f].refcnt > 0 ==> files[f].isInode))
  }

  function SetFd(procs: seq<Proc>, p: nat, d: nat, v: Option<nat>): (r: seq<Proc>)
    requires p < |procs| && d < |procs[p].fds|
    ensures |r| == |procs|
  {
    procs[p := procs[p].(fds := procs[p].fds[d := v])]
  }

  lemma SlotAt(procs: seq<Proc>, f: nat, x: (nat, nat))
    ensures x in SlotsOf(procs, f) <==> x.0 < |procs| && x.1 < |procs[x.0].fds| && procs[x.0].fds[x.1] == Some(f)
  {
  }

  lemma SlotsGain(procs: seq<Proc>, p: nat, d: nat, f: nat, g: nat)
    requires p < |procs| && d < |procs[p].fds| && procs[p].fds[d].None?
    ensures |SlotsOf(SetFd(procs, p, d, Some(f)), g)| == |SlotsOf(procs, g)| + if g == f then 1 else 0
  {
    hide SlotsOf;
    var qs := SetFd(procs, p, d, Some(f));
    var a, b := SlotsOf(procs, g), SlotsOf(qs, g);
    forall x: (nat, nat) ensures x in b <==> x in a || (g == f && x == (p, d)) {
      SlotAt(procs, g, x);
      SlotAt(qs, g, x);
    }
    SlotAt(procs, g, (p, d));
    if g == f {
      assert b == a + {(p, d)};
    } else {
      assert b == a;
    }
  }

  lemma SlotsLose(procs: seq<Proc>, p: nat, d: nat, g: nat)
    requires p < |procs| && d < |procs[p].fds| && procs[p].fds[d].Some?
    ensures |SlotsOf(SetFd(procs, p, d, None), g)| == |SlotsOf(procs, g)| - if Some(g) == procs[p].fds[d] then 1 else 0
    ensures Some(g) == procs[p].fds[d] ==> |SlotsOf(procs, g)| > 0
  {
    var qs := SetFd(procs, p, d, None);
    SlotsGain(qs, p, d, procs[p].fds[d].value, g);
    assert SetFd(qs, p, d, procs[p].fds[d]) == procs by {
      assert qs[p].fds[d := procs[p].fds[d]] == procs[p].fds;
    }
  }

  /** One more descriptor for file `f`, whose count went up with it. */
  lemma GainOk(files: seq<File>, procs: seq<Proc>, p: nat, d: nat, f: nat, x: File)
    requires FdsOk(files, procs) && p < |procs| && d < NOFILE && procs[p].fds[d].None? && f < NFILE
    requires x.refcnt == files[f].refcnt + 1 && x.isInode
    ensures FdsOk(files[f := x], SetFd(procs, p, d, Some(f)))
  {
    forall g: nat ensures |SlotsOf(SetFd(procs, p, d, Some(f)), g)| == |SlotsOf(procs, g)| + if g == f then 1 else 0 {
      SlotsGain(procs, p, d, f, g);
    }
    hide SlotsOf;
  }

  /** One descriptor less for the file it held, whose count went down with it. */
  lemma LoseOk(files: seq<File>, procs: seq<Proc>, p: nat, d: nat, x: File)
    requires FdsOk(files, procs) && p < |procs| && d < NOFILE && procs[p].fds[d].Some?
    requires x.refcnt == files[procs[p].fds[d].value].refcnt - 1 && (x.refcnt > 0 ==> x.isInode)
    ensures FdsOk(files[procs[p].fds[d].value := x], SetFd(procs, p, d, None))
  {
    forall g: nat
      ensures |SlotsOf(SetFd(procs, p, d, None), g)| == |SlotsOf(procs, g)| - if Some(g) == procs[p].fds[d] then 1
        else 0
    {
      SlotsLose(procs, p, d, g);
    }
    hide SlotsOf;
  }

  /** A descriptor's file is open, so that neither closing nor duplicating it can panic. */
  lemma FdOpen(files: seq<File>, procs: seq<Proc>, p: nat, d: nat)
    requires FdsOk(files, procs) && p < |procs| && d < NOFILE && procs[p].fds[d].Some?
    ensures procs[p].fds[d].value < |files| && files[procs[p].fds[d].value].refcnt > 0
    ensures files[procs[p].fds[d].value].isInode
  {
    SlotsLose(procs, p, d, procs[p].fds[d].value);
    hide SlotsOf;
  }

  /** A file without descriptors may be refilled as long as it stays without references. */
  lemma IdleFileOk(files: seq<File>, procs: seq<Proc>, f: nat, x: File)
    requires FdsOk(files, procs) && f < |files| && files[f].refcnt == 0 && x.refcnt == 0
    ensures FdsOk(files[f := x], procs)
  {
    hide SlotsOf;
  }
}
