/**
  What disk and inode table mean to the file-system calls: the tree of directories that the live inodes stand for, the
  references that the inode table counts, and which files an operation leaves intact.
*/
module DiskTree {
  import opened Base
  import opened Paths
  import opened DiskFormat
  import opened FileTree
  import opened FileBytes
  import opened FileSystem
  import opened Directory
  import Links
  import OpenFiles

  const TYPE_DIR: u16 := 1
  const TYPE_DATA: u16 := 2

  // ----- the tree

  ghost predicate IsDir(sb: SuperBlock, d: Disk, n: nat)
    requires Layout(sb, |d|) && n < sb.ninodes
  {
    InodeAt(sb, d, n).kind == TYPE_DIR
  }

  /** A directory's file is an array of entries without holes. */
  ghost predicate DirOk(sb: SuperBlock, d: Disk, n: nat)
    requires Layout(sb, |d|) && n < sb.ninodes
  {
    IsDir(sb, d, n) ==> DirFile(File(sb, d, n)) && Dense(sb, d, n)
  }

  ghost predicate Dirs(sb: SuperBlock, d: Disk) {
    Layout(sb, |d|) && forall n: nat :: Live(sb, d, n) ==> DirOk(sb, d, n)
  }

  ghost function NodeOf(sb: SuperBlock, d: Disk, n: nat): INode
    requires Layout(sb, |d|) && n < sb.ninodes && DirOk(sb, d, n)
  {
    INode(IsDir(sb, d, n), InodeAt(sb, d, n).nlink, if IsDir(sb, d, n) then Dir(File(sb, d, n)) else map[])
  }

  /** The live inodes, with kind, link count and, for directories, the finite map of their entries. */
  ghost function TreeOf(sb: SuperBlock, d: Disk): Tree
    requires Dirs(sb, d)
  {
    map n: nat | n < sb.ninodes && Live(sb, d, n) :: NodeOf(sb, d, n)
  }

  lemma TreeAt(sb: SuperBlock, d: Disk, n: nat)
    requires Dirs(sb, d)
    ensures n in TreeOf(sb, d) <==> Live(sb, d, n)
    ensures Live(sb, d, n) ==> n < sb.ninodes && DirOk(sb, d, n) && TreeOf(sb, d)[n] == NodeOf(sb, d, n)
  {
  }

  /** Nothing that the tree shows of inode `n` changed. */
  ghost predicate SameNode(sb: SuperBlock, d: Disk, e: Disk, n: nat)
    requires Layout(sb, |d|) && |e| == |d| && n < sb.ninodes
  {
    && File(sb, e, n) == File(sb, d, n) && (Dense(sb, d, n) ==> Dense(sb, e, n))
    && InodeAt(sb, e, n).kind == InodeAt(sb, d, n).kind && InodeAt(sb, e, n).nlink == InodeAt(sb, d, n).nlink
  }

  /** A change of one inode is a change of one node. */
  lemma OneNode(sb: SuperBlock, d: Disk, e: Disk, n: nat)
    requires Dirs(sb, d) && |e| == |d| && n < sb.ninodes && (Live(sb, e, n) ==> DirOk(sb, e, n))
    requires forall m: nat :: m != n ==> Live(sb, e, m) == Live(sb, d, m)
    requires forall m: nat :: m != n && Live(sb, d, m) ==> SameNode(sb, d, e, m)
    ensures Dirs(sb, e)
    ensures TreeOf(sb, e) == if Live(sb, e, n) then TreeOf(sb, d)[n := NodeOf(sb, e, n)] else TreeOf(sb, d) - {n}
  {
    hide Live, InodeAt, File, Dir, DirFile, Dense;
    forall m: nat | Live(sb, d, m) ensures m < sb.ninodes { LiveBound(sb, d, m); }
    forall m: nat | Live(sb, e, m) ensures m < sb.ninodes { LiveBound(sb, e, m); }
    forall m: nat | m != n && Live(sb, d, m) ensures DirOk(sb, e, m) && NodeOf(sb, e, m) == NodeOf(sb, d, m) {
      assert DirOk(sb, d, m) && SameNode(sb, d, e, m);
    }
    forall m: nat | Live(sb, e, m) ensures DirOk(sb, e, m) { assert m == n || Live(sb, d, m); }
    hide SameNode, DirOk, NodeOf;
  }

  lemma LiveBound(sb: SuperBlock, d: Disk, n: nat)
    requires Layout(sb, |d|) && Live(sb, d, n)
    ensures n < sb.ninodes
  {
  }

  /** A file keeps its density where no block is lost and its size stays. */
  lemma DenseKept(sb: SuperBlock, d: Disk, e: Disk, n: nat)
    requires Layout(sb, |d|) && |e| == |d| && PlacesKept(sb, d, e) && Live(sb, d, n)
    requires InodeAt(sb, e, n).size == InodeAt(sb, d, n).size && Dense(sb, d, n)
    ensures Dense(sb, e, n)
  {
    hide T, InodeAt, LeafPos;
  }

  lemma SizeOfFile(sb: SuperBlock, d: Disk, n: nat)
    requires Layout(sb, |d|) && n < sb.ninodes
    ensures |File(sb, d, n)| == InodeAt(sb, d, n).size
  {
  }

  // ----- what stays intact

  /** Inode `n` keeps its kind and every block of its tree. */
  ghost predicate KeptNode(sb: SuperBlock, d: Disk, e: Disk, n: nat)
    requires Layout(sb, |d|) && |e| == |d| && n < sb.ninodes
  {
    && InodeAt(sb, e, n).kind == InodeAt(sb, d, n).kind
    && forall p :: ValidPos(p) && T(sb, d, n, p) != 0 ==> T(sb, e, n, p) == T(sb, d, n, p)
  }

  /**
    Every inode that is live on both sides keeps its kind and its blocks, and a file that is neither a directory nor
    among `edited` keeps its bytes.
  */
  ghost predicate Intact(sb: SuperBlock, d: Disk, e: Disk, edited: set<nat>) {
    && Layout(sb, |d|) && |e| == |d|
    && forall n: nat :: Live(sb, d, n) && Live(sb, e, n) ==>
         KeptNode(sb, d, e, n) && (n !in edited ==> KeptFile(sb, d, e, n))
  }

  /** A file that is no directory keeps its bytes. */
  ghost predicate KeptFile(sb: SuperBlock, d: Disk, e: Disk, n: nat)
    requires Layout(sb, |d|) && |e| == |d| && n < sb.ninodes
  {
    !IsDir(sb, d, n) ==> File(sb, e, n) == File(sb, d, n)
  }

  lemma IntactSelf(sb: SuperBlock, d: Disk)
    requires Layout(sb, |d|)
    ensures Intact(sb, d, d, {})
  {
  }

  lemma IntactTrans(sb: SuperBlock, d: Disk, e: Disk, f: Disk, a: set<nat>, b: set<nat>, c: set<nat>)
    requires Intact(sb, d, e, a) && Intact(sb, e, f, b) && c == a + b
    requires forall n: nat :: Live(sb, d, n) && Live(sb, f, n) ==> Live(sb, e, n)
    ensures Intact(sb, d, f, c)
  {
    hide T, InodeAt, File, Live;
    forall n: nat | Live(sb, d, n) && Live(sb, f, n)
      ensures n < sb.ninodes && KeptNode(sb, d, f, n) && (n !in c ==> KeptFile(sb, d, f, n))
    {
      LiveBound(sb, d, n);
    }
  }

  /** The blocks of every inode that went are free afterwards. */
  ghost predicate Freed(sb: SuperBlock, d: Disk, e: Disk) {
    && Layout(sb, |d|) && |e| == |d|
    && forall n: nat, c :: Live(sb, d, n) && !Live(sb, e, n) && InTree(sb, d, n, c) ==> !Marked(sb, e, c)
  }

  /** Nothing but deletions: other files are intact, the blocks of deleted inodes are free, and none is allocated. */
  ghost predicate Released(sb: SuperBlock, d: Disk, e: Disk) {
    && Intact(sb, d, e, {}) && Freed(sb, d, e)
    && (forall n: nat :: Live(sb, e, n) ==> Live(sb, d, n)) && (forall c :: Marked(sb, e, c) ==> Marked(sb, d, c))
  }

  lemma ReleasedSelf(sb: SuperBlock, d: Disk)
    requires Layout(sb, |d|)
    ensures Released(sb, d, d)
  {
  }

  lemma KeptInTree(sb: SuperBlock, d: Disk, e: Disk, n: nat, c: nat)
    requires Layout(sb, |d|) && |e| == |d| && n < sb.ninodes && KeptNode(sb, d, e, n) && InTree(sb, d, n, c)
    ensures InTree(sb, e, n, c)
  {
    hide T, InodeAt;
    var p :| ValidPos(p) && T(sb, d, n, p) == c;
    assert T(sb, e, n, p) == c;
  }

  lemma ReleasedTrans(sb: SuperBlock, d: Disk, e: Disk, f: Disk)
    requires Released(sb, d, e) && Released(sb, e, f)
    ensures Released(sb, d, f)
  {
    IntactTrans(sb, d, e, f, {}, {}, {});
    hide Live, Marked, KeptNode, KeptFile, InTree;
    forall n: nat, c | Live(sb, d, n) && !Live(sb, f, n) && InTree(sb, d, n, c) ensures !Marked(sb, f, c) {
      LiveBound(sb, d, n);
      if Live(sb, e, n) { KeptInTree(sb, d, e, n, c); }
    }
  }

  lemma KeptIn(sb: SuperBlock, d: Disk, e: Disk, n: nat)
    requires Layout(sb, |d|) && |e| == |d| && PlacesKept(sb, d, e) && Live(sb, d, n)
    requires InodeAt(sb, e, n).kind == InodeAt(sb, d, n).kind
    ensures KeptNode(sb, d, e, n)
  {
    hide T, InodeAt;
  }

  // ----- the steps

  /** New entries in directory `n`. */
  lemma DirStep(sb: SuperBlock, d: Disk, e: Disk, n: nat, m: map<seq<byte>, nat>)
    requires Dirs(sb, d) && Live(sb, d, n) && IsDir(sb, d, n) && DirBecomes(sb, d, e, n, m)
    ensures Dirs(sb, e) && n in TreeOf(sb, d) && TreeOf(sb, e) == TreeOf(sb, d)[n := TreeOf(sb, d)[n].(entries := m)]
    ensures Intact(sb, d, e, {})
  {
    assert DirOk(sb, d, n);
    hide T, InodeAt, File, Dir, DirFile, Dense, Tails, Live, PlacesKept;
    forall k: nat | Live(sb, d, k)
      ensures k < sb.ninodes && KeptNode(sb, d, e, k) && (k != n ==> SameNode(sb, d, e, k))
    {
      LiveBound(sb, d, k);
      KeptIn(sb, d, e, k);
      SizeOfFile(sb, d, k);
      SizeOfFile(sb, e, k);
      if k != n && Dense(sb, d, k) { DenseKept(sb, d, e, k); }
    }
    hide KeptNode;
    OneNode(sb, d, e, n);
  }

  /** A new link count for inode `n`. */
  lemma NlinkStep(sb: SuperBlock, d: Disk, e: Disk, n: nat, nlink: u16)
    requires Dirs(sb, d) && Live(sb, d, n) && MetaSet(sb, d, e, n, InodeAt(sb, d, n).(nlink := nlink))
    ensures Dirs(sb, e) && n in TreeOf(sb, d) && TreeOf(sb, e) == Links.WithNlink(TreeOf(sb, d), n, nlink)
    ensures Intact(sb, d, e, {})
  {
    assert DirOk(sb, d, n);
    hide T, InodeAt, FileByte, File, Dir, DirFile, Dense, Live, PlacesKept;
    forall k: nat | Live(sb, d, k)
      ensures k < sb.ninodes && KeptNode(sb, d, e, k) && File(sb, e, k) == File(sb, d, k)
      ensures Dense(sb, d, k) ==> Dense(sb, e, k)
      ensures k != n ==> SameNode(sb, d, e, k)
    {
      LiveBound(sb, d, k);
      KeptIn(sb, d, e, k);
      SameFile(sb, d, e, k);
      if Dense(sb, d, k) { DenseKept(sb, d, e, k); }
    }
    hide KeptNode;
    OneNode(sb, d, e, n);
  }

  /** A file that is no directory is cut to size 0. */
  lemma TruncStep(sb: SuperBlock, d: Disk, e: Disk, n: nat)
    requires Dirs(sb, d) && Live(sb, d, n) && !IsDir(sb, d, n) && MetaSet(sb, d, e, n, InodeAt(sb, d, n).(size := 0))
    ensures Dirs(sb, e) && TreeOf(sb, e) == TreeOf(sb, d)
    ensures Intact(sb, d, e, {n}) && File(sb, e, n) == []
  {
    SizeOfFile(sb, e, n);
    hide T, InodeAt, FileByte, File, Dir, DirFile, Dense, Live, PlacesKept;
    forall k: nat | Live(sb, d, k)
      ensures k < sb.ninodes && KeptNode(sb, d, e, k) && (k != n ==> SameNode(sb, d, e, k))
    {
      LiveBound(sb, d, k);
      KeptIn(sb, d, e, k);
      if k != n {
        SameFile(sb, d, e, k);
        if Dense(sb, d, k) { DenseKept(sb, d, e, k); }
      }
    }
    hide KeptNode;
    OneNode(sb, d, e, n);
    TreeAt(sb, d, n);
    assert TreeOf(sb, d)[n := NodeOf(sb, e, n)] == TreeOf(sb, d);
  }

  /** Writing at `off` after a truncation: bytes of before come back below `off` unless they were zeros. */
  lemma TruncateThenWrite(sb: SuperBlock, d: Disk, e: Disk, f: Disk, n: nat, off: nat, src: seq<byte>)
    requires Layout(sb, |d|) && Live(sb, d, n) && MetaSet(sb, d, e, n, InodeAt(sb, d, n).(size := 0))
    requires WriteResult(sb, e, f, n, off, src)
    ensures File(sb, f, n) == Overwrite([], off, src) <==>
      forall o :: 0 <= o < off && o < MAX_BYTES ==> FileByte(sb, d, n, o) == 0
  {
    SizeOfFile(sb, e, n);
    assert File(sb, e, n) == [];
    hide File, Overwrite, FileByte, InodeAt, T;
    GapExact(sb, e, f, n, off, src);
    assert InodeAt(sb, e, n).size == 0;
    forall o | 0 <= o < MAX_BYTES ensures FileByte(sb, e, n, o) == FileByte(sb, d, n, o) {}
  }

  /** A file that is no directory is written. */
  lemma WriteStep(sb: SuperBlock, d: Disk, e: Disk, n: nat, off: nat, src: seq<byte>)
    requires Dirs(sb, d) && Live(sb, d, n) && !IsDir(sb, d, n) && WriteResult(sb, d, e, n, off, src)
    ensures Dirs(sb, e) && TreeOf(sb, e) == TreeOf(sb, d) && Intact(sb, d, e, {n})
  {
    hide T, InodeAt, FileByte, File, Dir, DirFile, Dense, Live, PlacesKept;
    forall k: nat | Live(sb, d, k)
      ensures k < sb.ninodes && KeptNode(sb, d, e, k) && (k != n ==> SameNode(sb, d, e, k))
    {
      LiveBound(sb, d, k);
      KeptIn(sb, d, e, k);
      if k != n {
        SameFile(sb, d, e, k);
        if Dense(sb, d, k) { DenseKept(sb, d, e, k); }
      }
    }
    hide KeptNode;
    OneNode(sb, d, e, n);
    TreeAt(sb, d, n);
    assert TreeOf(sb, d)[n := NodeOf(sb, e, n)] == TreeOf(sb, d);
  }

  lemma EmptyDir()
    ensures DirFile([]) && Dir([]) == map[]
  {
  }

  /** A new inode: an empty file or an empty directory, with one link. */
  lemma CreateStep(sb: SuperBlock, d: Disk, e: Disk, n: nat, kind: u16)
    requires Trees(sb, d) && Dirs(sb, d) && !Live(sb, d, n) && Created(sb, d, e, n)
    requires var ino := InodeAt(sb, e, n); ino.kind == kind && ino.nlink == 1 && ino.size == 0
    ensures Dirs(sb, e) && TreeOf(sb, e) == TreeOf(sb, d)[n := INode(kind == TYPE_DIR, 1, map[])]
    ensures n !in TreeOf(sb, d) && Intact(sb, d, e, {})
  {
    assert Live(sb, e, n) && Dense(sb, e, n) && n < sb.ninodes;
    CreatedKeeps(sb, d, e, n);
    CreateRefines(sb, d, e, n);
    EmptyDir();
    assert forall k: nat :: k != n ==> Live(sb, e, k) == Live(sb, d, k);
    hide Trees, T, InodeAt, FileByte, File, Dir, DirFile, Dense, Live, PlacesKept;
    forall k: nat | Live(sb, d, k) ensures k < sb.ninodes && KeptNode(sb, d, e, k) && SameNode(sb, d, e, k) {
      LiveBound(sb, d, k);
      KeptIn(sb, d, e, k);
      if Dense(sb, d, k) { DenseKept(sb, d, e, k); }
    }
    hide KeptNode, SameNode;
    OneNode(sb, d, e, n);
    TreeAt(sb, d, n);
  }

  /** An inode is deleted. */
  lemma DeleteStep(sb: SuperBlock, d: Disk, e: Disk, n: nat)
    requires Trees(sb, d) && Dirs(sb, d) && Live(sb, d, n) && Deleted(sb, d, e, n)
    ensures Dirs(sb, e) && TreeOf(sb, e) == TreeOf(sb, d) - {n} && Released(sb, d, e)
  {
    DeletedKeeps(sb, d, e, n);
    DeleteRefines(sb, d, e, n);
    assert Freed(sb, d, e);
    hide Trees, Marked, InTree, InodeAt, FileByte, File, Dir, DirFile, T, LeafPos, Live;
    forall k: nat | Live(sb, e, k) ensures k < sb.ninodes && KeptNode(sb, d, e, k) && SameNode(sb, d, e, k) {
      LiveBound(sb, e, k);
    }
    hide KeptNode, SameNode, Dense;
    OneNode(sb, d, e, n);
  }

  // ----- references

  /** Slot `s` of the inode table holds references to inode `n`. */
  ghost predicate At(inodes: seq<Inode>, s: nat, n: nat) {
    s < |inodes| && inodes[s].refcnt > 0 && inodes[s].inum == n
  }

  ghost predicate OneSlot(inodes: seq<Inode>) {
    forall s, t, n :: At(inodes, s, n) && At(inodes, t, n) ==> s == t
  }

  /** How often each inode is referenced. */
  ghost function RefsOf(inodes: seq<Inode>): map<nat, nat>
    requires OneSlot(inodes)
  {
    map s | 0 <= s < |inodes| && At(inodes, s, inodes[s].inum) :: inodes[s].inum := inodes[s].refcnt
  }

  lemma RefsAt(inodes: seq<Inode>, s: nat, n: nat)
    requires OneSlot(inodes) && At(inodes, s, n)
    ensures OpenFiles.RefOf(RefsOf(inodes), n) == inodes[s].refcnt
  {
  }

  lemma RefsNone(inodes: seq<Inode>, n: nat)
    requires OneSlot(inodes)
    ensures OpenFiles.RefOf(RefsOf(inodes), n) == 0 <==> NotCached(inodes, n)
    ensures !NotCached(inodes, n) ==> exists s: nat :: At(inodes, s, n)
  {
    if !NotCached(inodes, n) {
      var s :| 0 <= s < |inodes| && inodes[s].refcnt > 0 && inodes[s].inum == n;
      assert At(inodes, s, n);
      RefsAt(inodes, s, n);
    }
  }

  lemma IcacheOneSlot(sb: SuperBlock, d: Disk, inodes: seq<Inode>)
    requires FsInv(sb, d, inodes)
    ensures OneSlot(inodes) && |inodes| == N_INODE && Layout(sb, |d|)
  {
    hide TreesMarked, TreesDisjoint, InodeAt, Live;
  }

  /** References to inodes that `h` holds stay in their slots. */
  ghost predicate Stay(a: seq<Inode>, b: seq<Inode>, h: multiset<nat>) {
    forall s, n :: At(a, s, n) && n in h ==> At(b, s, n)
  }

  lemma StayTrans(a: seq<Inode>, b: seq<Inode>, c: seq<Inode>, h: multiset<nat>, k: multiset<nat>, g: multiset<nat>)
    requires Stay(a, b, h) && Stay(b, c, k) && g <= h && g <= k
    ensures Stay(a, c, g)
  {
    hide At;
    forall n | n in g ensures n in h && n in k {}
  }

  /** No inode is deleted, and files are left intact but for `edited` ones. */
  ghost predicate Still(sb: SuperBlock, d: Disk, e: Disk, edited: set<nat>) {
    Intact(sb, d, e, edited) && forall n :: Live(sb, d, n) ==> Live(sb, e, n)
  }

  lemma StillSelf(sb: SuperBlock, d: Disk)
    requires Layout(sb, |d|)
    ensures Still(sb, d, d, {})
  {
    IntactSelf(sb, d);
  }

  lemma StillTrans(sb: SuperBlock, d: Disk, e: Disk, f: Disk, x: set<nat>, y: set<nat>, z: set<nat>)
    requires Still(sb, d, e, x) && Still(sb, e, f, y) && z == x + y
    ensures Still(sb, d, f, z)
  {
    assert Layout(sb, |d|) && Layout(sb, |e|) && |d| == |e| == |f|;
    assert forall n :: Live(sb, d, n) ==> Live(sb, f, n);
    hide Intact, Live;
    IntactTrans(sb, d, e, f, x, y, z);
  }

  lemma StillMore(sb: SuperBlock, d: Disk, e: Disk, x: set<nat>, y: set<nat>)
    requires Still(sb, d, e, x) && x <= y
    ensures Still(sb, d, e, y)
  {
    hide Live, KeptNode, KeptFile;
  }

  /** Deletions after a step without any. */
  lemma StillFreed(sb: SuperBlock, d: Disk, e: Disk, f: Disk)
    requires Still(sb, d, e, {}) && Released(sb, e, f)
    ensures Intact(sb, d, f, {}) && Freed(sb, d, f)
  {
    IntactTrans(sb, d, e, f, {}, {}, {});
    hide Live, Marked, KeptNode, KeptFile, InTree;
    forall n: nat, c | Live(sb, d, n) && !Live(sb, f, n) && InTree(sb, d, n, c) ensures !Marked(sb, f, c) {
      LiveBound(sb, d, n);
      KeptInTree(sb, d, e, n, c);
    }
  }

  /** A step of that kind that also keeps the slots that `h` refers to. */
  ghost predicate Calm(sb: SuperBlock, d: Disk, a: seq<Inode>, e: Disk, b: seq<Inode>, h: multiset<nat>,
                       edited: set<nat>) {
    Still(sb, d, e, edited) && Stay(a, b, h)
  }

  lemma CalmStay(sb: SuperBlock, d: Disk, a: seq<Inode>, b: seq<Inode>, h: multiset<nat>)
    requires Layout(sb, |d|) && Stay(a, b, h)
    ensures Calm(sb, d, a, d, b, h, {})
  {
    hide Stay, Still;
    StillSelf(sb, d);
  }

  lemma CalmTrans(sb: SuperBlock, d: Disk, a: seq<Inode>, e: Disk, b: seq<Inode>, f: Disk, c: seq<Inode>,
                  h: multiset<nat>, k: multiset<nat>, x: set<nat>, y: set<nat>, z: set<nat>)
    requires Calm(sb, d, a, e, b, h, x) && Calm(sb, e, b, f, c, k, y) && h <= k && z == x + y
    ensures Calm(sb, d, a, f, c, h, z)
  {
    hide Stay, Still;
    StayTrans(a, b, c, h, k, h);
    StillTrans(sb, d, e, f, x, y, z);
  }

  lemma StillOf(sb: SuperBlock, d: Disk, a: seq<Inode>, e: Disk, b: seq<Inode>, h: multiset<nat>, x: set<nat>)
    requires Calm(sb, d, a, e, b, h, x)
    ensures Still(sb, d, e, x)
  {
  }

  lemma CalmLess(sb: SuperBlock, d: Disk, a: seq<Inode>, e: Disk, b: seq<Inode>, h: multiset<nat>, k: multiset<nat>,
                 x: set<nat>)
    requires Calm(sb, d, a, e, b, k, x) && h <= k
    ensures Calm(sb, d, a, e, b, h, x)
  {
    hide Still, At;
    forall n | n in h ensures n in k {}
  }

  lemma CalmAt(sb: SuperBlock, d: Disk, a: seq<Inode>, e: Disk, b: seq<Inode>, h: multiset<nat>, x: set<nat>, s: nat,
               n: nat)
    requires Calm(sb, d, a, e, b, h, x) && At(a, s, n) && n in h
    ensures At(b, s, n)
  {
    hide Still;
  }

  /** A slot that keeps its inode, or that held no reference, or not one of `h`. */
  lemma StaySet(a: seq<Inode>, s: nat, x: Inode, h: multiset<nat>)
    requires s < |a| && (a[s].refcnt > 0 && a[s].inum in h ==> x.refcnt > 0 && x.inum == a[s].inum)
    ensures Stay(a, a[s := x], h)
  {
  }

  /** A slot that was vacant or held inode `n` now has `x.refcnt` references to it. */
  lemma RefsSet(a: seq<Inode>, s: nat, x: Inode, n: nat)
    requires OneSlot(a) && s < |a| && OneSlot(a[s := x])
    requires At(a, s, n) || (a[s].refcnt == 0 && NotCached(a, n))
    requires x.refcnt > 0 ==> x.inum == n
    ensures OpenFiles.Counts(RefsOf(a), RefsOf(a[s := x]), n, x.refcnt)
  {
    var b := a[s := x];
    assert x.refcnt > 0 ==> At(b, s, n);
    forall j | j != n ensures OpenFiles.RefOf(RefsOf(b), j) == OpenFiles.RefOf(RefsOf(a), j) {
      SlotElsewhere(a, s, x, n, j);
    }
    if x.refcnt > 0 {
      RefsAt(b, s, n);
    } else {
      RefsNone(b, n);
      forall t: nat | At(b, t, n) ensures false { assert At(a, t, n); }
      assert NotCached(b, n) by {
        forall t: nat | t < |b| && b[t].refcnt > 0 ensures b[t].inum != n { assert !At(b, t, n); }
      }
    }
  }

  lemma SlotElsewhere(a: seq<Inode>, s: nat, x: Inode, n: nat, j: nat)
    requires OneSlot(a) && s < |a| && OneSlot(a[s := x]) && j != n
    requires (a[s].refcnt > 0 ==> a[s].inum == n) && (x.refcnt > 0 ==> x.inum == n)
    ensures OpenFiles.RefOf(RefsOf(a[s := x]), j) == OpenFiles.RefOf(RefsOf(a), j)
  {
    var b := a[s := x];
    hide RefsOf;
    RefsNone(a, j);
    RefsNone(b, j);
    forall t: nat ensures At(a, t, j) <==> At(b, t, j) {}
    if t: nat :| At(a, t, j) {
      RefsAt(a, t, j);
      RefsAt(b, t, j);
    }
  }

  /** A change of a slot's copy of the inode changes no reference. */
  lemma RefsKept(a: seq<Inode>, s: nat, x: InodeDisk, h: multiset<nat>)
    requires OneSlot(a) && s < |a|
    ensures var b := a[s := a[s].(disk := x)]; OneSlot(b) && RefsOf(b) == RefsOf(a) && Stay(a, b, h)
  {
    var b := a[s := a[s].(disk := x)];
    forall t, n ensures At(b, t, n) == At(a, t, n) {}
    hide At;
    forall n ensures OpenFiles.RefOf(RefsOf(b), n) == OpenFiles.RefOf(RefsOf(a), n) {}
  }

  // ----- disk and inode table against tree and references

  /** The disk stands for `tree`, the inode table for `refs`. */
  ghost predicate Shows(sb: SuperBlock, d: Disk, inodes: seq<Inode>, tree: Tree, refs: map<nat, nat>) {
    && FsInv(sb, d, inodes) && Dirs(sb, d) && tree == TreeOf(sb, d)
    && OneSlot(inodes) && refs == RefsOf(inodes)
  }

  /** What a referenced slot says about its inode. */
  lemma SlotShows(sb: SuperBlock, d: Disk, inodes: seq<Inode>, tree: Tree, refs: map<nat, nat>, s: nat, n: nat)
    requires Shows(sb, d, inodes, tree, refs) && At(inodes, s, n)
    ensures s < N_INODE == |inodes| && Layout(sb, |d|) && Live(sb, d, n) && n < sb.ninodes
    ensures n in tree && OpenFiles.RefOf(refs, n) == inodes[s].refcnt && inodes[s].disk == InodeAt(sb, d, n)
    ensures tree[n].dir == (inodes[s].disk.kind == TYPE_DIR) == IsDir(sb, d, n) && tree[n].nlink == inodes[s].disk.nlink
    ensures tree[n].dir ==> DirAt(sb, d, n) && DirMap(sb, d, n) == tree[n].entries
  {
    FsInvFacts(sb, d, inodes, s);
    TreeAt(sb, d, n);
    RefsAt(inodes, s, n);
    hide Trees, RefsOf, TreeOf, InodeAt, File, Dir, DirFile, Dense, Live;
    if tree[n].dir { DirReady(sb, d, n); }
  }

  /** A directory's slot is fit for the directory operations, which see the entries of the tree. */
  lemma DirShows(sb: SuperBlock, d: Disk, inodes: seq<Inode>, tree: Tree, refs: map<nat, nat>, s: nat, n: nat)
    requires Shows(sb, d, inodes, tree, refs) && At(inodes, s, n) && n in tree && tree[n].dir
    ensures s < N_INODE && inodes[s].refcnt > 0 && inodes[s].inum == n
    ensures DirAt(sb, d, n) && DirMap(sb, d, n) == tree[n].entries
  {
    hide Shows, DirAt, DirMap, InodeAt, Live;
    SlotShows(sb, d, inodes, tree, refs, s, n);
  }

  lemma GetShows(sb: SuperBlock, d: Disk, a: seq<Inode>, b: seq<Inode>, tree: Tree, refs: map<nat, nat>,
                 s: nat, n: nat, h: multiset<nat>)
    requires Shows(sb, d, a, tree, refs) && FsInv(sb, d, b) && s < |a| && b == a[s := b[s]]
    requires if NotCached(a, n) then a[s].refcnt == 0 && b[s].refcnt == 1 && b[s].inum == n
             else At(a, s, n) && b[s] == a[s].(refcnt := a[s].refcnt + 1)
    ensures OneSlot(b) && Shows(sb, d, b, tree, RefsOf(b)) && At(b, s, n) && Stay(a, b, h)
    ensures OpenFiles.Counts(refs, RefsOf(b), n, OpenFiles.RefOf(refs, n) + 1)
  {
    IcacheOneSlot(sb, d, b);
    assert At(b, s, n) && (a[s].refcnt > 0 ==> At(a, s, n));
    hide FsInv, Dirs, TreeOf, RefsOf, OneSlot, Stay, NotCached;
    StaySet(a, s, b[s], h);
    RefsSet(a, s, b[s], n);
    RefsNone(a, n);
    if !NotCached(a, n) { RefsAt(a, s, n); }
  }

  lemma PutShows(sb: SuperBlock, d: Disk, e: Disk, a: seq<Inode>, b: seq<Inode>, tree: Tree, refs: map<nat, nat>,
                 s: nat, n: nat, h: multiset<nat>)
    requires Shows(sb, d, a, tree, refs) && FsInv(sb, e, b) && At(a, s, n) && b == a[s := b[s]]
    requires a[s].refcnt > 1 || a[s].disk.nlink > 0 ==> e == d && b[s] == a[s].(refcnt := a[s].refcnt - 1)
    requires a[s].refcnt == 1 && a[s].disk.nlink == 0 ==> Deleted(sb, d, e, n) && b[s].refcnt == 0
    requires n in h ==> a[s].refcnt > 1
    ensures n in tree && OneSlot(b) && Shows(sb, e, b, OpenFiles.AfterPut(tree, refs, n), RefsOf(b)) && Stay(a, b, h)
    ensures OpenFiles.RefOf(refs, n) > 0 && OpenFiles.Counts(refs, RefsOf(b), n, OpenFiles.RefOf(refs, n) - 1)
    ensures Released(sb, d, e) && (tree[n].nlink > 0 || OpenFiles.RefOf(refs, n) > 1 ==> e == d)
  {
    SlotShows(sb, d, a, tree, refs, s, n);
    IcacheOneSlot(sb, e, b);
    FsInvFacts(sb, d, a, s);
    if a[s].refcnt == 1 && a[s].disk.nlink == 0 { DeleteStep(sb, d, e, n); } else { ReleasedSelf(sb, d); }
    StaySet(a, s, b[s], h);
    hide FsInv, Dirs, TreeOf, Released, Deleted, InodeAt, DirAt, IsDir, Live, Trees, RefsOf, OneSlot, Stay;
    RefsSet(a, s, b[s], n);
  }

  /** The entries of a directory became `m`. */
  lemma EntryShows(sb: SuperBlock, d: Disk, e: Disk, a: seq<Inode>, b: seq<Inode>, tree: Tree, refs: map<nat, nat>,
                   s: nat, n: nat, m: map<seq<byte>, nat>, h: multiset<nat>)
    requires Shows(sb, d, a, tree, refs) && FsInv(sb, e, b) && At(a, s, n) && n in tree && tree[n].dir
    requires s < |b| && b == a[s := a[s].(disk := b[s].disk)] && DirBecomes(sb, d, e, n, m)
    ensures Shows(sb, e, b, tree[n := tree[n].(entries := m)], refs) && Calm(sb, d, a, e, b, h, {})
  {
    SlotShows(sb, d, a, tree, refs, s, n);
    assert SameLive(sb, d, e);
    hide FsInv, DirBecomes, InodeAt, Live, RefsOf;
    DirStep(sb, d, e, n, m);
    RefsKept(a, s, b[s].disk, h);
  }

  lemma NlinkShows(sb: SuperBlock, d: Disk, e: Disk, a: seq<Inode>, b: seq<Inode>, tree: Tree, refs: map<nat, nat>,
                   s: nat, n: nat, nlink: u16, h: multiset<nat>)
    requires Shows(sb, d, a, tree, refs) && FsInv(sb, e, b) && At(a, s, n)
    requires b == a[s := a[s].(disk := a[s].disk.(nlink := nlink))] && MetaSet(sb, d, e, n, b[s].disk)
    ensures n in tree && Shows(sb, e, b, Links.WithNlink(tree, n, nlink), refs) && Calm(sb, d, a, e, b, h, {})
  {
    SlotShows(sb, d, a, tree, refs, s, n);
    assert SameLive(sb, d, e);
    hide FsInv, MetaSet, InodeAt, Live, RefsOf;
    NlinkStep(sb, d, e, n, nlink);
    RefsKept(a, s, b[s].disk, h);
  }

  lemma TruncShows(sb: SuperBlock, d: Disk, e: Disk, a: seq<Inode>, b: seq<Inode>, tree: Tree, refs: map<nat, nat>,
                   s: nat, n: nat, h: multiset<nat>)
    requires Shows(sb, d, a, tree, refs) && FsInv(sb, e, b) && At(a, s, n) && a[s].disk.kind != TYPE_DIR
    requires b == a[s := a[s].(disk := a[s].disk.(size := 0))] && MetaSet(sb, d, e, n, b[s].disk)
    ensures Shows(sb, e, b, tree, refs) && Calm(sb, d, a, e, b, h, {n})
    ensures Layout(sb, |e|) && n < sb.ninodes && File(sb, e, n) == []
  {
    SlotShows(sb, d, a, tree, refs, s, n);
    assert SameLive(sb, d, e);
    hide FsInv, MetaSet, InodeAt, Live, RefsOf, File;
    TruncStep(sb, d, e, n);
    RefsKept(a, s, b[s].disk, h);
  }

  lemma WriteShows(sb: SuperBlock, d: Disk, e: Disk, a: seq<Inode>, b: seq<Inode>, tree: Tree, refs: map<nat, nat>,
                   s: nat, n: nat, off: nat, src: seq<byte>, h: multiset<nat>)
    requires Shows(sb, d, a, tree, refs) && FsInv(sb, e, b) && At(a, s, n) && a[s].disk.kind != TYPE_DIR
    requires s < |b| && b == a[s := a[s].(disk := b[s].disk)] && WriteResult(sb, d, e, n, off, src)
    ensures Shows(sb, e, b, tree, refs) && Calm(sb, d, a, e, b, h, {n})
  {
    SlotShows(sb, d, a, tree, refs, s, n);
    assert SameLive(sb, d, e);
    hide FsInv, WriteResult, InodeAt, Live, RefsOf, File;
    WriteStep(sb, d, e, n, off, src);
    RefsKept(a, s, b[s].disk, h);
  }

  lemma CreateShows(sb: SuperBlock, d: Disk, e: Disk, a: seq<Inode>, b: seq<Inode>, tree: Tree, refs: map<nat, nat>,
                    s: nat, kind: u16, h: multiset<nat>)
    requires Shows(sb, d, a, tree, refs) && FsInv(sb, e, b) && s < |a| && a[s].refcnt == 0
    requires b == a[s := b[s]] && b[s].refcnt == 1
    requires b[s].disk.kind == kind && b[s].disk.nlink == 1 && b[s].disk.size == 0
    requires Layout(sb, |d|) && !Live(sb, d, b[s].inum) && FileTree.Created(sb, d, e, b[s].inum)
    ensures var n := b[s].inum;
      && n !in tree && n < sb.ninodes && OneSlot(b) && At(b, s, n) && Calm(sb, d, a, e, b, h, {})
      && Shows(sb, e, b, tree[n := INode(kind == TYPE_DIR, 1, map[])], RefsOf(b))
      && OpenFiles.RefOf(refs, n) == 0 && OpenFiles.Counts(refs, RefsOf(b), n, 1)
  {
    var n := b[s].inum;
    IcacheOneSlot(sb, e, b);
    FsInvFacts(sb, e, b, s);
    assert Trees(sb, d);
    assert forall m :: Live(sb, d, m) ==> Live(sb, e, m);
    assert NotCached(a, n) by {
      forall t: nat | t < |a| && a[t].refcnt > 0 ensures a[t].inum != n { FsInvFacts(sb, d, a, t); }
    }
    hide FsInv, FileTree.Created, InodeAt, Live, Trees;
    CreateStep(sb, d, e, n, kind);
    StaySet(a, s, b[s], h);
    hide Dirs, TreeOf, Intact, RefsOf, OneSlot, Stay;
    RefsSet(a, s, b[s], n);
    RefsNone(a, n);
  }

  /** What `inode_get` needs of a live inode. */
  lemma GetReady(sb: SuperBlock, d: Disk, inodes: seq<Inode>, tree: Tree, refs: map<nat, nat>, n: nat)
    requires Shows(sb, d, inodes, tree, refs) && n in tree
    ensures Layout(sb, |d|) && Trees(sb, d) && Icache(sb, d, inodes) && |inodes| == N_INODE && Live(sb, d, n)
    ensures OpenFiles.RefOf(refs, n) == 0 <==> NotCached(inodes, n)
  {
    TreeAt(sb, d, n);
    RefsNone(inodes, n);
    hide Trees, InodeAt, TreeOf, RefsOf;
  }

  lemma GetDone(sb: SuperBlock, d: Disk, inodes: seq<Inode>)
    requires Layout(sb, |d|) && Trees(sb, d) && Icache(sb, d, inodes)
    ensures FsInv(sb, d, inodes)
  {
  }

  /** The reasons for which a call may end in a kernel panic: no free block, inode or slot of the inode table. */
  ghost predicate Exhausted(sb: SuperBlock, d: Disk, inodes: seq<Inode>) {
    Layout(sb, |d|) && (Full(sb, d) || NoFreeInode(sb, d) || NoFreeSlot(inodes))
  }
}
