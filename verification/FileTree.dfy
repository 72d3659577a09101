/**
  The shape of the file system on disk: the superblock's layout, the two bitmaps, and the index tree of every inode.
  All functions here are over the blocks of a disk; kernel/src/fs/inode.rs and bitmap.rs are modelled on top of them.
*/
module FileTree {
  import opened Base
  import opened DiskFormat

  type Disk = seq<Block>

  datatype SuperBlock = SuperBlock(nblocks: nat, ninodes: nat, inode_start: nat, bmap_start: nat)

  const INODE_INDEX_1 := 10
  const INODE_INDEX_2 := 12
  const MAX_LBN := INODE_INDEX_1 + NINDIRECT + NINDIRECT * NINDIRECT
  const MAX_BYTES := MAX_LBN * BLOCK_SIZE

  /** Superblock, inode bitmap, inode table, block bitmap and data area follow each other without overlap. */
  ghost predicate Layout(sb: SuperBlock, n: nat) {
    && 2 <= sb.inode_start
    && sb.ninodes <= 8 * BLOCK_SIZE && sb.nblocks <= 8 * BLOCK_SIZE
    && sb.inode_start + (sb.ninodes + INODES_PER_BLOCK - 1) / INODES_PER_BLOCK <= sb.bmap_start
    && sb.bmap_start + 1 + sb.nblocks <= n <= U32
  }

  function DataStart(sb: SuperBlock): nat { sb.bmap_start + 1 }

  predicate IsData(sb: SuperBlock, b: nat) {
    DataStart(sb) <= b < DataStart(sb) + sb.nblocks
  }

  /** The data bitmap has block `b`'s bit set. */
  ghost predicate Marked(sb: SuperBlock, d: Disk, b: nat)
    requires Layout(sb, |d|)
  {
    IsData(sb, b) && BitAt(d[sb.bmap_start], b - DataStart(sb))
  }

  /** The inode bitmap has inode `n`'s bit set. */
  predicate Live(sb: SuperBlock, d: Disk, n: nat)
    requires Layout(sb, |d|)
  {
    n < sb.ninodes && BitAt(d[sb.inode_start - 1], n)
  }

  function InodeBlock(sb: SuperBlock, n: nat): nat {
    sb.inode_start + n / INODES_PER_BLOCK
  }

  ghost function InodeAt(sb: SuperBlock, d: Disk, n: nat): (ino: InodeDisk)
    requires Layout(sb, |d|) && n < sb.ninodes
    ensures WellFormed(ino)
  {
    InodeIn(d[InodeBlock(sb, n)], n % INODES_PER_BLOCK)
  }

  // ----- index trees

  /** A place in an index tree that can hold a block number. */
  datatype Pos =
    | Direct(i: nat)
    | Single
    | SingleLeaf(k: nat)
    | Double
    | Mid(i: nat)
    | Leaf(i: nat, j: nat)

  predicate ValidPos(p: Pos) {
    match p
    case Direct(i) => i < INODE_INDEX_1
    case Single => true
    case SingleLeaf(k) => k < NINDIRECT
    case Double => true
    case Mid(i) => i < NINDIRECT
    case Leaf(i, j) => i < NINDIRECT && j < NINDIRECT
  }

  /** Whether the block at `p` holds file bytes (and not further block numbers). */
  predicate IsLeaf(p: Pos) { p.Direct? || p.SingleLeaf? || p.Leaf? }

  /** Entry `k` of the index block `b`, or 0 where there is no such block. */
  ghost function Sub(d: Disk, b: nat, k: nat): (v: nat)
    requires k < NINDIRECT
    ensures v < U32
  {
    if 0 < b < |d| then Entry(d[b], k) else 0
  }

  /** The block number stored at place `p` of the tree with root entries `ix`; 0 means none. */
  ghost function At(d: Disk, ix: seq<u32>, p: Pos): (v: nat)
    requires |ix| == NINDEX && ValidPos(p)
    ensures v < U32
  {
    match p
    case Direct(i) => ix[i]
    case Single => ix[INODE_INDEX_1]
    case SingleLeaf(k) => Sub(d, ix[INODE_INDEX_1], k)
    case Double => ix[INODE_INDEX_2]
    case Mid(i) => Sub(d, ix[INODE_INDEX_2], i)
    case Leaf(i, j) => Sub(d, Sub(d, ix[INODE_INDEX_2], i), j)
  }

  /** The block number that inode `n` stores at `p`. */
  ghost function T(sb: SuperBlock, d: Disk, n: nat, p: Pos): (v: nat)
    requires Layout(sb, |d|) && n < sb.ninodes && ValidPos(p)
    ensures v < U32
  {
    At(d, InodeAt(sb, d, n).index, p)
  }

  /** The place of logical block `lbn`. */
  function LeafPos(lbn: nat): (p: Pos)
    requires lbn < MAX_LBN
    ensures ValidPos(p) && IsLeaf(p)
  {
    if lbn < INODE_INDEX_1 then Direct(lbn)
    else if lbn < INODE_INDEX_1 + NINDIRECT then SingleLeaf(lbn - INODE_INDEX_1)
    else var m := lbn - INODE_INDEX_1 - NINDIRECT; Leaf(m / NINDIRECT, m % NINDIRECT)
  }

  lemma LeafPosInjective(a: nat, b: nat)
    requires a < MAX_LBN && b < MAX_LBN && LeafPos(a) == LeafPos(b)
    ensures a == b
  {
  }

  // ----- the file system's invariant

  /** Every block in a live tree is marked in the bitmap. */
  ghost predicate TreesMarked(sb: SuperBlock, d: Disk)
    requires Layout(sb, |d|)
  {
    forall n, p :: Live(sb, d, n) && ValidPos(p) && T(sb, d, n, p) != 0 ==> Marked(sb, d, T(sb, d, n, p))
  }

  /** No block number occurs twice, in one live tree or in two. */
  ghost predicate TreesDisjoint(sb: SuperBlock, d: Disk)
    requires Layout(sb, |d|)
  {
    forall n, p, m, q ::
      (Live(sb, d, n) && ValidPos(p) && Live(sb, d, m) && ValidPos(q)
       && T(sb, d, n, p) != 0 && T(sb, d, n, p) == T(sb, d, m, q)) ==> n == m && p == q
  }

  ghost predicate Trees(sb: SuperBlock, d: Disk) {
    Layout(sb, |d|) && TreesMarked(sb, d) && TreesDisjoint(sb, d)
  }

  /** Byte `off` of inode `n`; a hole reads as zero. */
  ghost function FileByte(sb: SuperBlock, d: Disk, n: nat, off: nat): (v: byte)
    requires Layout(sb, |d|) && n < sb.ninodes && off < MAX_BYTES
  {
    var b := T(sb, d, n, LeafPos(off / BLOCK_SIZE));
    if 0 < b < |d| then d[b][off % BLOCK_SIZE] else 0
  }

  /** The fields of an inode that are not block numbers. */
  ghost predicate SameMeta(a: InodeDisk, b: InodeDisk) {
    a.kind == b.kind && a.major == b.major && a.minor == b.minor && a.nlink == b.nlink && a.size == b.size
  }

  ghost predicate SameLive(sb: SuperBlock, d: Disk, d': Disk)
    requires Layout(sb, |d|) && |d'| == |d|
  {
    forall n :: Live(sb, d', n) == Live(sb, d, n)
  }

  ghost predicate SameMetas(sb: SuperBlock, d: Disk, d': Disk)
    requires Layout(sb, |d|) && |d'| == |d|
  {
    forall n :: Live(sb, d, n) ==> SameMeta(InodeAt(sb, d, n), InodeAt(sb, d', n))
  }

  ghost predicate SameBytes(sb: SuperBlock, d: Disk, d': Disk)
    requires Layout(sb, |d|) && |d'| == |d|
  {
    forall n, off :: Live(sb, d, n) && 0 <= off < MAX_BYTES ==> FileByte(sb, d', n, off) == FileByte(sb, d, n, off)
  }

  /** No live tree loses or moves a block. */
  ghost predicate PlacesKept(sb: SuperBlock, d: Disk, d': Disk)
    requires Layout(sb, |d|) && |d'| == |d|
  {
    forall n, p :: Live(sb, d, n) && ValidPos(p) && T(sb, d, n, p) != 0 ==> T(sb, d', n, p) == T(sb, d, n, p)
  }

  /** The two disks hold the same files: same live inodes, same attributes, same bytes, and no block lost. */
  ghost predicate SameFiles(sb: SuperBlock, d: Disk, d': Disk) {
    && Layout(sb, |d|) && |d'| == |d| && SameLive(sb, d, d')
    && SameMetas(sb, d, d') && SameBytes(sb, d, d') && PlacesKept(sb, d, d')
  }

  lemma PlacesKeptTrans(sb: SuperBlock, d: Disk, e: Disk, f: Disk)
    requires Layout(sb, |d|) && |d| == |e| == |f| && SameLive(sb, d, e) && PlacesKept(sb, d, e) && PlacesKept(sb, e, f)
    ensures PlacesKept(sb, d, f)
  {
    hide T;
    forall n, p | Live(sb, d, n) && ValidPos(p) && T(sb, d, n, p) != 0 ensures T(sb, f, n, p) == T(sb, d, n, p) {
      assert Live(sb, e, n) && T(sb, e, n, p) == T(sb, d, n, p);
    }
  }

  lemma SameFilesTrans(sb: SuperBlock, d: Disk, e: Disk, f: Disk)
    requires SameFiles(sb, d, e) && SameFiles(sb, e, f)
    ensures SameFiles(sb, d, f)
  {
    forall n, off | Live(sb, d, n) && 0 <= off < MAX_BYTES
      ensures FileByte(sb, f, n, off) == FileByte(sb, d, n, off)
    {
      assert Live(sb, e, n);
      assert FileByte(sb, e, n, off) == FileByte(sb, d, n, off);
    }
    PlacesKeptTrans(sb, d, e, f);
  }

  // ----- what one block update does to the trees

  /** A tree depends only on its root entries and its index blocks. */
  lemma SameAt(d: Disk, d': Disk, ix: seq<u32>, p: Pos)
    requires |ix| == NINDEX && ValidPos(p) && |d'| == |d|
    requires forall q :: ValidPos(q) && !IsLeaf(q) && 0 < At(d, ix, q) < |d| ==> d'[At(d, ix, q)] == d[At(d, ix, q)]
    ensures At(d', ix, p) == At(d, ix, p)
  {
    match p
    case SingleLeaf(k) => assert At(d, ix, Single) == ix[INODE_INDEX_1];
    case Mid(i) => assert At(d, ix, Double) == ix[INODE_INDEX_2];
    case Leaf(i, j) =>
      assert At(d, ix, Double) == ix[INODE_INDEX_2];
      assert At(d, ix, Mid(i)) == Sub(d, ix[INODE_INDEX_2], i);
    case _ =>
  }

  /** Block `c` is neither the inode bitmap nor part of the inode table. */
  predicate Outside(sb: SuperBlock, c: nat) {
    c < sb.inode_start - 1 || sb.bmap_start <= c
  }

  lemma InodeBlockRange(sb: SuperBlock, n: nat)
    requires n < sb.ninodes && sb.inode_start + (sb.ninodes + INODES_PER_BLOCK - 1) / INODES_PER_BLOCK <= sb.bmap_start
    ensures sb.inode_start <= InodeBlock(sb, n) < sb.bmap_start
  {
  }

  /** Updating a block that is no index block of inode `n` leaves the tree of `n` as it was. */
  lemma Untouched(sb: SuperBlock, d: Disk, c: nat, x: Block, n: nat, p: Pos)
    requires Layout(sb, |d|) && n < sb.ninodes && ValidPos(p) && c < |d| && Outside(sb, c)
    requires forall q :: ValidPos(q) && !IsLeaf(q) ==> T(sb, d, n, q) != c
    ensures InodeAt(sb, d[c := x], n) == InodeAt(sb, d, n)
    ensures T(sb, d[c := x], n, p) == T(sb, d, n, p)
  {
    InodeBlockRange(sb, n);
    var ix := InodeAt(sb, d, n).index;
    forall q | ValidPos(q) && !IsLeaf(q) && 0 < At(d, ix, q) < |d|
      ensures d[c := x][At(d, ix, q)] == d[At(d, ix, q)]
    {
      assert T(sb, d, n, q) != c;
    }
    SameAt(d, d[c := x], ix, p);
  }

  /** Updating a block outside every live tree (or the block bitmap itself) changes no file. */
  lemma UntouchedFiles(sb: SuperBlock, d: Disk, c: nat, x: Block)
    requires Trees(sb, d) && c < |d| && Outside(sb, c) && c > 0
    requires forall n, p :: Live(sb, d, n) && ValidPos(p) ==> T(sb, d, n, p) != c
    ensures forall n, p :: Live(sb, d, n) && ValidPos(p) ==> T(sb, d[c := x], n, p) == T(sb, d, n, p)
    ensures SameFiles(sb, d, d[c := x])
  {
    var e := d[c := x];
    forall n, p | Live(sb, d, n) && ValidPos(p)
      ensures T(sb, e, n, p) == T(sb, d, n, p) && InodeAt(sb, e, n) == InodeAt(sb, d, n)
    {
      Untouched(sb, d, c, x, n, p);
    }
    forall n, off | Live(sb, d, n) && 0 <= off < MAX_BYTES
      ensures FileByte(sb, e, n, off) == FileByte(sb, d, n, off) && InodeAt(sb, e, n) == InodeAt(sb, d, n)
    {
      Untouched(sb, d, c, x, n, LeafPos(off / BLOCK_SIZE));
    }
  }

  /** Trees survive when the same numbers stay in place and stay marked. */
  lemma TreesCarry(sb: SuperBlock, d: Disk, e: Disk)
    requires Trees(sb, d) && |e| == |d| && SameLive(sb, d, e)
    requires forall n, p :: Live(sb, d, n) && ValidPos(p) ==> T(sb, e, n, p) == T(sb, d, n, p)
    requires forall n, p :: Live(sb, d, n) && ValidPos(p) && T(sb, d, n, p) != 0 ==> Marked(sb, e, T(sb, d, n, p))
    ensures Trees(sb, e)
  {
  }

  // ----- allocating a block

  /** `b` is marked, zero-filled, and in no live tree. */
  ghost predicate Fresh(sb: SuperBlock, d: Disk, b: nat) {
    && Layout(sb, |d|) && Marked(sb, d, b) && d[b] == ZeroBlock()
    && forall n, p :: Live(sb, d, n) && ValidPos(p) ==> T(sb, d, n, p) != b
  }

  /** The disk after `bitmap::alloc` handed out `b`. */
  ghost function Allocated(sb: SuperBlock, d: Disk, b: nat): (e: Disk)
    requires Layout(sb, |d|) && IsData(sb, b)
    ensures |e| == |d|
  {
    d[sb.bmap_start := SetBit(d[sb.bmap_start], b - DataStart(sb))][b := ZeroBlock()]
  }

  /** In a live tree there are only data blocks. */
  lemma TreeBlocksAreData(sb: SuperBlock, d: Disk, n: nat, p: Pos)
    requires Trees(sb, d) && Live(sb, d, n) && ValidPos(p)
    ensures T(sb, d, n, p) == 0 || (IsData(sb, T(sb, d, n, p)) && Marked(sb, d, T(sb, d, n, p)))
  {
  }

  lemma MarkedAfterSet(sb: SuperBlock, d: Disk, b: nat, c: nat)
    requires Layout(sb, |d|) && IsData(sb, b)
    ensures Marked(sb, d[sb.bmap_start := SetBit(d[sb.bmap_start], b - DataStart(sb))], c)
            == (c == b || Marked(sb, d, c))
  {
    if IsData(sb, c) {
      SetBitAt(d[sb.bmap_start], b - DataStart(sb), c - DataStart(sb));
    }
  }

  /** Changing the block bitmap alone changes no file and no tree. */
  lemma BitmapUpdate(sb: SuperBlock, d: Disk, x: Block)
    requires Trees(sb, d)
    ensures SameFiles(sb, d, d[sb.bmap_start := x])
    ensures forall n, p :: Live(sb, d, n) && ValidPos(p) ==> T(sb, d[sb.bmap_start := x], n, p) == T(sb, d, n, p)
  {
    forall n, p | Live(sb, d, n) && ValidPos(p) ensures T(sb, d, n, p) != sb.bmap_start {
      TreeBlocksAreData(sb, d, n, p);
    }
    UntouchedFiles(sb, d, sb.bmap_start, x);
  }

  /** Allocation keeps the trees and the files, marks exactly one more block, and that block is fresh. */
  lemma AllocKeeps(sb: SuperBlock, d: Disk, b: nat)
    requires Trees(sb, d) && IsData(sb, b) && !Marked(sb, d, b)
    ensures var e := Allocated(sb, d, b);
      && Trees(sb, e) && SameFiles(sb, d, e) && Fresh(sb, e, b)
      && (forall c :: Marked(sb, e, c) == (c == b || Marked(sb, d, c)))
      && (forall n, p :: Live(sb, d, n) && ValidPos(p) ==> T(sb, e, n, p) == T(sb, d, n, p))
  {
    var x := SetBit(d[sb.bmap_start], b - DataStart(sb));
    var m := d[sb.bmap_start := x];
    BitmapUpdate(sb, d, x);
    forall c ensures Marked(sb, m, c) == (c == b || Marked(sb, d, c)) { MarkedAfterSet(sb, d, b, c); }
    forall n, p | Live(sb, d, n) && ValidPos(p) ensures T(sb, d, n, p) != b { TreeBlocksAreData(sb, d, n, p); }
    TreesCarry(sb, d, m);
    var e := m[b := ZeroBlock()];
    UntouchedFiles(sb, m, b, ZeroBlock());
    forall c ensures Marked(sb, e, c) == Marked(sb, m, c) {}
    TreesCarry(sb, m, e);
    SameFilesTrans(sb, d, m, e);
  }

  // ----- linking a fresh block into a tree

  /** `e` is `d` with the fresh block `b` put at the empty place `p` of inode `n`. */
  ghost predicate Grown(sb: SuperBlock, d: Disk, e: Disk, n: nat, p: Pos, b: nat) {
    && Layout(sb, |d|) && |e| == |d| && ValidPos(p) && b < |d|
    && SameLive(sb, d, e) && SameMetas(sb, d, e) && e[b] == ZeroBlock()
    && (forall c :: Marked(sb, e, c) == Marked(sb, d, c))
    && (forall m, q :: Live(sb, d, m) && ValidPos(q) ==>
          T(sb, e, m, q) == if m == n && q == p then b else T(sb, d, m, q))
    && (forall m, q :: Live(sb, d, m) && ValidPos(q) && IsLeaf(q) && 0 < T(sb, d, m, q) < |d| ==>
          e[T(sb, d, m, q)] == d[T(sb, d, m, q)])
  }

  /** Growing a tree keeps ownership: the fresh block was in no tree. */
  lemma GrownTrees(sb: SuperBlock, d: Disk, e: Disk, n: nat, p: Pos, b: nat)
    requires Trees(sb, d) && Fresh(sb, d, b) && Grown(sb, d, e, n, p, b) && Live(sb, d, n) && T(sb, d, n, p) == 0
    ensures Trees(sb, e) && PlacesKept(sb, d, e)
  {
    hide T, InodeAt;
  }

  lemma GrownByte(sb: SuperBlock, d: Disk, e: Disk, n: nat, p: Pos, b: nat, m: nat, off: nat)
    requires Fresh(sb, d, b) && Grown(sb, d, e, n, p, b) && Live(sb, d, n) && T(sb, d, n, p) == 0
    requires Live(sb, d, m) && off < MAX_BYTES
    ensures FileByte(sb, e, m, off) == FileByte(sb, d, m, off)
  {
    hide T, InodeAt, LeafPos;
    var q := LeafPos(off / BLOCK_SIZE);
    assert T(sb, e, m, q) == if m == n && q == p then b else T(sb, d, m, q);
  }

  /** Growing a tree changes no file: the new block reads as the hole it fills. */
  lemma GrownKeeps(sb: SuperBlock, d: Disk, e: Disk, n: nat, p: Pos, b: nat)
    requires Trees(sb, d) && Fresh(sb, d, b) && Grown(sb, d, e, n, p, b) && Live(sb, d, n) && T(sb, d, n, p) == 0
    ensures Trees(sb, e) && SameFiles(sb, d, e)
  {
    GrownTrees(sb, d, e, n, p, b);
    hide T, FileByte, InodeAt, Trees;
    forall m, off | Live(sb, d, m) && 0 <= off < MAX_BYTES
      ensures FileByte(sb, e, m, off) == FileByte(sb, d, m, off)
    {
      GrownByte(sb, d, e, n, p, b, m, off);
    }
  }

  /** The disk after `inode_rw` stored `ino` as inode `n`. */
  ghost function Stored(sb: SuperBlock, d: Disk, n: nat, ino: InodeDisk): (e: Disk)
    requires Layout(sb, |d|) && n < sb.ninodes && WellFormed(ino)
    ensures |e| == |d|
  {
    d[InodeBlock(sb, n) := StoreInode(d[InodeBlock(sb, n)], n % INODES_PER_BLOCK, ino)]
  }

  lemma StoredInode(sb: SuperBlock, d: Disk, n: nat, ino: InodeDisk, m: nat)
    requires Layout(sb, |d|) && n < sb.ninodes && m < sb.ninodes && WellFormed(ino)
    ensures InodeAt(sb, Stored(sb, d, n, ino), m) == if m == n then ino else InodeAt(sb, d, m)
  {
    if InodeBlock(sb, m) == InodeBlock(sb, n) {
      StoreInodeGet(d[InodeBlock(sb, n)], n % INODES_PER_BLOCK, ino, m % INODES_PER_BLOCK);
    }
  }

  /** Storing an inode touches neither bitmap and no data block. */
  lemma StoredElsewhere(sb: SuperBlock, d: Disk, n: nat, ino: InodeDisk)
    requires Layout(sb, |d|) && n < sb.ninodes && WellFormed(ino)
    ensures var e := Stored(sb, d, n, ino);
      && SameLive(sb, d, e)
      && (forall c :: Marked(sb, e, c) == Marked(sb, d, c))
      && (forall c :: 0 <= c < |d| && Outside(sb, c) ==> e[c] == d[c])
  {
    InodeBlockRange(sb, n);
  }

  /** The place of root entry `i`. */
  function RootPos(i: nat): (p: Pos)
    requires i < INODE_INDEX_1 || i == INODE_INDEX_1 || i == INODE_INDEX_2
    ensures ValidPos(p)
  {
    if i < INODE_INDEX_1 then Direct(i) else if i == INODE_INDEX_1 then Single else Double
  }

  /** A tree whose blocks are all data blocks reads the same after an inode was stored. */
  lemma SameAtOutside(sb: SuperBlock, d: Disk, e: Disk, n: nat, p: Pos)
    requires Trees(sb, d) && |e| == |d| && Live(sb, d, n) && ValidPos(p)
    requires forall c :: 0 <= c < |d| && Outside(sb, c) ==> e[c] == d[c]
    ensures At(e, InodeAt(sb, d, n).index, p) == T(sb, d, n, p)
  {
    var ix := InodeAt(sb, d, n).index;
    forall q | ValidPos(q) && 0 < At(d, ix, q) < |d| ensures e[At(d, ix, q)] == d[At(d, ix, q)] {
      TreeBlocksAreData(sb, d, n, q);
      assert T(sb, d, n, q) == At(d, ix, q);
    }
    SameAt(d, e, ix, p);
  }

  /** Below an empty root entry a zero-filled block adds nothing. */
  lemma RootAdded(d: Disk, ix: seq<u32>, i: nat, b: nat, p: Pos)
    requires |ix| == NINDEX && ValidPos(p) && 0 < b < |d| && b < U32 && d[b] == ZeroBlock()
    requires i < INODE_INDEX_1 || i == INODE_INDEX_1 || i == INODE_INDEX_2
    requires ix[i] == 0
    ensures At(d, ix[i := b], p) == if p == RootPos(i) then b else At(d, ix, p)
  {
    match p
    case SingleLeaf(k) => ZeroEntry(k);
    case Mid(k) => ZeroEntry(k);
    case Leaf(k, j) => ZeroEntry(k);
    case _ =>
  }

  /** A fresh block becomes a root entry. */
  lemma LinkRoot(sb: SuperBlock, d: Disk, n: nat, i: nat, b: nat)
    requires Trees(sb, d) && Fresh(sb, d, b) && Live(sb, d, n)
    requires i < INODE_INDEX_1 || i == INODE_INDEX_1 || i == INODE_INDEX_2
    requires InodeAt(sb, d, n).index[i] == 0
    ensures var ino := InodeAt(sb, d, n);
      var e := Stored(sb, d, n, ino.(index := ino.index[i := b]));
      && Grown(sb, d, e, n, RootPos(i), b) && T(sb, d, n, RootPos(i)) == 0
  {
    var ino := InodeAt(sb, d, n);
    var ino' := ino.(index := ino.index[i := b]);
    var e := Stored(sb, d, n, ino');
    StoredElsewhere(sb, d, n, ino');
    forall m, q | Live(sb, d, m) && ValidPos(q)
      ensures T(sb, e, m, q) == if m == n && q == RootPos(i) then b else T(sb, d, m, q)
      ensures SameMeta(InodeAt(sb, d, m), InodeAt(sb, e, m))
    {
      StoredInode(sb, d, n, ino', m);
      SameAtOutside(sb, d, e, m, q);
      if m == n { RootAdded(e, ino.index, i, b, q); }
    }
    forall m | Live(sb, d, m) ensures SameMeta(InodeAt(sb, d, m), InodeAt(sb, e, m)) {
      StoredInode(sb, d, n, ino', m);
    }
    forall m, q | Live(sb, d, m) && ValidPos(q) && IsLeaf(q) && 0 < T(sb, d, m, q) < |d|
      ensures e[T(sb, d, m, q)] == d[T(sb, d, m, q)]
    {
      TreeBlocksAreData(sb, d, m, q);
    }
  }

  /** The place of entry `k` of the index block at place `p`. */
  function Child(p: Pos, k: nat): (c: Pos)
    requires !IsLeaf(p)
  {
    match p
    case Single => SingleLeaf(k)
    case Double => Mid(k)
    case Mid(i) => Leaf(i, k)
  }

  lemma ChildAt(d: Disk, ix: seq<u32>, p: Pos, k: nat)
    requires |ix| == NINDEX && ValidPos(p) && !IsLeaf(p) && k < NINDIRECT
    ensures ValidPos(Child(p, k)) && At(d, ix, Child(p, k)) == Sub(d, At(d, ix, p), k)
  {
  }

  lemma EntryAdded(d: Disk, ix: seq<u32>, pp: Pos, k: nat, b: nat, p: Pos)
    requires |ix| == NINDEX && ValidPos(p) && ValidPos(pp) && !IsLeaf(pp) && k < NINDIRECT
    requires 0 < b < |d| && b < U32 && d[b] == ZeroBlock() && b != At(d, ix, pp) && 0 < At(d, ix, pp) < |d|
    requires At(d, ix, Child(pp, k)) == 0
    requires forall q :: ValidPos(q) && q != pp ==> At(d, ix, q) != At(d, ix, pp)
    ensures var pb := At(d, ix, pp);
      At(d[pb := PutEntry(d[pb], k, b)], ix, p) == if p == Child(pp, k) then b else At(d, ix, p)
  {
    var pb := At(d, ix, pp);
    ChildAt(d, ix, pp, k);
    match p
    case SingleLeaf(j) => PutEntryGet(d[pb], k, b, j); assert At(d, ix, Single) == ix[INODE_INDEX_1];
    case Mid(j) => PutEntryGet(d[pb], k, b, j); assert At(d, ix, Double) == ix[INODE_INDEX_2];
    case Leaf(l, j) =>
      PutEntryGet(d[pb], k, b, l);
      PutEntryGet(d[pb], k, b, j);
      ZeroEntry(j);
      assert At(d, ix, Double) == ix[INODE_INDEX_2];
      assert At(d, ix, Mid(l)) == Sub(d, ix[INODE_INDEX_2], l);
    case _ =>
  }

  /** A fresh block becomes an entry of an index block. */
  lemma LinkEntry(sb: SuperBlock, d: Disk, n: nat, pp: Pos, k: nat, b: nat)
    requires Trees(sb, d) && Fresh(sb, d, b) && Live(sb, d, n)
    requires ValidPos(pp) && !IsLeaf(pp) && k < NINDIRECT && T(sb, d, n, pp) != 0
    requires T(sb, d, n, Child(pp, k)) == 0
    ensures var pb := T(sb, d, n, pp);
      pb < |d| && Grown(sb, d, d[pb := PutEntry(d[pb], k, b)], n, Child(pp, k), b)
  {
    var ix := InodeAt(sb, d, n).index;
    var pb := T(sb, d, n, pp);
    TreeBlocksAreData(sb, d, n, pp);
    var e := d[pb := PutEntry(d[pb], k, b)];
    forall m, q | Live(sb, d, m) && ValidPos(q)
      ensures InodeAt(sb, e, m) == InodeAt(sb, d, m)
      ensures T(sb, e, m, q) == if m == n && q == Child(pp, k) then b else T(sb, d, m, q)
    {
      InodeBlockRange(sb, m);
      if m == n {
        forall r | ValidPos(r) && r != pp ensures At(d, ix, r) != At(d, ix, pp) {
          assert T(sb, d, n, r) == At(d, ix, r);
        }
        EntryAdded(d, ix, pp, k, b, q);
      } else {
        Untouched(sb, d, pb, PutEntry(d[pb], k, b), m, q);
      }
    }
    forall m | Live(sb, d, m) ensures SameMeta(InodeAt(sb, d, m), InodeAt(sb, e, m)) {
      InodeBlockRange(sb, m);
    }
  }

  // ----- writing file bytes

  /** Rewriting a leaf block of `n` changes the bytes of that logical block and of no other block or file. */
  lemma WriteLeaf(sb: SuperBlock, d: Disk, n: nat, lbn: nat, x: Block)
    requires Trees(sb, d) && Live(sb, d, n) && lbn < MAX_LBN && T(sb, d, n, LeafPos(lbn)) != 0
    ensures var c := T(sb, d, n, LeafPos(lbn));
      && c < |d|
      && var e := d[c := x];
      && Trees(sb, e) && SameLive(sb, d, e) && PlacesKept(sb, d, e)
      && (forall m :: Live(sb, d, m) ==> InodeAt(sb, e, m) == InodeAt(sb, d, m))
      && (forall m, off :: Live(sb, d, m) && 0 <= off < MAX_BYTES ==>
            FileByte(sb, e, m, off) ==
              if m == n && off / BLOCK_SIZE == lbn then x[off % BLOCK_SIZE] else FileByte(sb, d, m, off))
  {
    var c := T(sb, d, n, LeafPos(lbn));
    TreeBlocksAreData(sb, d, n, LeafPos(lbn));
    var e := d[c := x];
    forall m, q | Live(sb, d, m) && ValidPos(q)
      ensures T(sb, e, m, q) == T(sb, d, m, q) && InodeAt(sb, e, m) == InodeAt(sb, d, m)
    {
      Untouched(sb, d, c, x, m, q);
    }
    TreesCarry(sb, d, e);
    forall m, off | Live(sb, d, m) && 0 <= off < MAX_BYTES
      ensures InodeAt(sb, e, m) == InodeAt(sb, d, m)
      ensures FileByte(sb, e, m, off) ==
        if m == n && off / BLOCK_SIZE == lbn then x[off % BLOCK_SIZE] else FileByte(sb, d, m, off)
    {
      WriteLeafByte(sb, d, n, lbn, x, m, off);
    }
    forall m | Live(sb, d, m) ensures InodeAt(sb, e, m) == InodeAt(sb, d, m) {
      InodeBlockRange(sb, m);
    }
  }

  lemma WriteLeafByte(sb: SuperBlock, d: Disk, n: nat, lbn: nat, x: Block, m: nat, off: nat)
    requires Trees(sb, d) && Live(sb, d, n) && lbn < MAX_LBN && 0 < T(sb, d, n, LeafPos(lbn)) < |d|
    requires Live(sb, d, m) && off < MAX_BYTES
    ensures FileByte(sb, d[T(sb, d, n, LeafPos(lbn)) := x], m, off) ==
        if m == n && off / BLOCK_SIZE == lbn then x[off % BLOCK_SIZE] else FileByte(sb, d, m, off)
  {
    TreeBlocksAreData(sb, d, n, LeafPos(lbn));
    var c := T(sb, d, n, LeafPos(lbn));
    Untouched(sb, d, c, x, m, LeafPos(off / BLOCK_SIZE));
    if LeafPos(off / BLOCK_SIZE) == LeafPos(lbn) { LeafPosInjective(off / BLOCK_SIZE, lbn); }
  }

  // ----- storing attributes, creating and deleting inodes

  /** Storing new attributes with the same index changes no tree and no byte. */
  lemma StoreMeta(sb: SuperBlock, d: Disk, n: nat, ino: InodeDisk)
    requires Trees(sb, d) && Live(sb, d, n) && WellFormed(ino) && ino.index == InodeAt(sb, d, n).index
    ensures var e := Stored(sb, d, n, ino);
      && Trees(sb, e) && SameLive(sb, d, e) && SameBytes(sb, d, e) && PlacesKept(sb, d, e)
      && (forall m :: Live(sb, d, m) ==> InodeAt(sb, e, m) == if m == n then ino else InodeAt(sb, d, m))
  {
    var e := Stored(sb, d, n, ino);
    StoredElsewhere(sb, d, n, ino);
    forall m, q | Live(sb, d, m) && ValidPos(q) ensures T(sb, e, m, q) == T(sb, d, m, q) {
      StoredInode(sb, d, n, ino, m);
      SameAtOutside(sb, d, e, m, q);
    }
    TreesCarry(sb, d, e);
    forall m, off | Live(sb, d, m) && 0 <= off < MAX_BYTES ensures FileByte(sb, e, m, off) == FileByte(sb, d, m, off) {
      TreeBlocksAreData(sb, d, m, LeafPos(off / BLOCK_SIZE));
    }
    forall m | Live(sb, d, m) ensures InodeAt(sb, e, m) == if m == n then ino else InodeAt(sb, d, m) {
      StoredInode(sb, d, n, ino, m);
    }
  }

  /** Block `c` is in the tree of inode `n`. */
  ghost predicate InTree(sb: SuperBlock, d: Disk, n: nat, c: nat)
    requires Layout(sb, |d|) && n < sb.ninodes
  {
    c != 0 && exists p :: ValidPos(p) && T(sb, d, n, p) == c
  }

  /** `e` is `d` without inode `n`: its tree is unmarked, all other inodes and all data blocks are as before. */
  ghost predicate Deleted(sb: SuperBlock, d: Disk, e: Disk, n: nat) {
    && Layout(sb, |d|) && |e| == |d| && n < sb.ninodes
    && (forall m :: Live(sb, e, m) == (Live(sb, d, m) && m != n))
    && (forall m :: Live(sb, d, m) && m != n ==> InodeAt(sb, e, m) == InodeAt(sb, d, m))
    && (forall c: nat :: IsData(sb, c) ==> e[c] == d[c])
    && (forall c :: Marked(sb, e, c) == (Marked(sb, d, c) && !InTree(sb, d, n, c)))
  }

  /** Deleting an inode keeps the other trees owned and the other files as they were. */
  lemma DeletedKeeps(sb: SuperBlock, d: Disk, e: Disk, n: nat)
    requires Trees(sb, d) && Live(sb, d, n) && Deleted(sb, d, e, n)
    ensures Trees(sb, e)
    ensures forall m, q :: Live(sb, e, m) && ValidPos(q) ==> T(sb, e, m, q) == T(sb, d, m, q)
    ensures forall m, off :: Live(sb, e, m) && 0 <= off < MAX_BYTES ==>
              FileByte(sb, e, m, off) == FileByte(sb, d, m, off)
  {
    forall m, q | Live(sb, e, m) && ValidPos(q)
      ensures T(sb, e, m, q) == T(sb, d, m, q)
      ensures T(sb, d, m, q) != 0 ==> Marked(sb, e, T(sb, d, m, q)) && e[T(sb, d, m, q)] == d[T(sb, d, m, q)]
    {
      DataKept(sb, d, e, m, q);
      TreeBlocksAreData(sb, d, m, q);
    }
    forall m, off | Live(sb, e, m) && 0 <= off < MAX_BYTES
      ensures FileByte(sb, e, m, off) == FileByte(sb, d, m, off)
    {
      DataKept(sb, d, e, m, LeafPos(off / BLOCK_SIZE));
      TreeBlocksAreData(sb, d, m, LeafPos(off / BLOCK_SIZE));
    }
  }

  /** A live tree whose inode and data blocks are kept reads the same. */
  lemma DataKept(sb: SuperBlock, d: Disk, e: Disk, m: nat, q: Pos)
    requires Trees(sb, d) && |e| == |d| && Live(sb, d, m) && ValidPos(q)
    requires forall c: nat :: IsData(sb, c) ==> e[c] == d[c]
    requires InodeAt(sb, e, m) == InodeAt(sb, d, m)
    ensures T(sb, e, m, q) == T(sb, d, m, q)
  {
    var ix := InodeAt(sb, d, m).index;
    forall r | ValidPos(r) && 0 < At(d, ix, r) < |d| ensures e[At(d, ix, r)] == d[At(d, ix, r)] {
      TreeBlocksAreData(sb, d, m, r);
      assert T(sb, d, m, r) == At(d, ix, r);
    }
    SameAt(d, e, ix, q);
  }

  /** `e` is `d` with the new inode `n`, which is empty; nothing else differs. */
  ghost predicate Created(sb: SuperBlock, d: Disk, e: Disk, n: nat) {
    && Layout(sb, |d|) && |e| == |d| && n < sb.ninodes
    && (forall m :: Live(sb, e, m) == (Live(sb, d, m) || m == n))
    && (forall m :: Live(sb, d, m) ==> InodeAt(sb, e, m) == InodeAt(sb, d, m))
    && (forall c :: sb.bmap_start <= c < |d| ==> e[c] == d[c])
    && InodeAt(sb, e, n).index == seq(NINDEX, _ => 0)
  }

  /** Creating an inode keeps the trees owned and the other files as they were; the new one is all holes. */
  lemma CreatedKeeps(sb: SuperBlock, d: Disk, e: Disk, n: nat)
    requires Trees(sb, d) && !Live(sb, d, n) && Created(sb, d, e, n)
    ensures Trees(sb, e) && PlacesKept(sb, d, e)
    ensures forall m, off :: Live(sb, d, m) && 0 <= off < MAX_BYTES ==>
              FileByte(sb, e, m, off) == FileByte(sb, d, m, off)
    ensures forall off :: 0 <= off < MAX_BYTES ==> FileByte(sb, e, n, off) == 0
  {
    forall m, q | Live(sb, e, m) && ValidPos(q)
      ensures T(sb, e, m, q) == if m == n then 0 else T(sb, d, m, q)
      ensures m != n && T(sb, d, m, q) != 0 ==> Marked(sb, e, T(sb, d, m, q))
    {
      if m != n {
        DataKept(sb, d, e, m, q);
        TreeBlocksAreData(sb, d, m, q);
      }
    }
    forall m, off | Live(sb, d, m) && 0 <= off < MAX_BYTES
      ensures FileByte(sb, e, m, off) == FileByte(sb, d, m, off)
    {
      DataKept(sb, d, e, m, LeafPos(off / BLOCK_SIZE));
      TreeBlocksAreData(sb, d, m, LeafPos(off / BLOCK_SIZE));
    }
  }

  // ----- the order in which free_data_blocks visits a tree

  const SINGLE_RANK := INODE_INDEX_1 + NINDIRECT
  const DOUBLE_RANK := SINGLE_RANK + 1 + NINDIRECT * (NINDIRECT + 1)

  function Rank(p: Pos): int {
    match p
    case Direct(i) => i
    case SingleLeaf(k) => INODE_INDEX_1 + k
    case Single => SINGLE_RANK
    case Leaf(i, j) => SINGLE_RANK + 1 + i * (NINDIRECT + 1) + j
    case Mid(i) => SINGLE_RANK + 1 + i * (NINDIRECT + 1) + NINDIRECT
    case Double => DOUBLE_RANK
  }

  lemma RankInjective(p: Pos, q: Pos)
    requires ValidPos(p) && ValidPos(q) && Rank(p) == Rank(q)
    ensures p == q
  {
  }

  lemma RankBound(p: Pos)
    requires ValidPos(p)
    ensures Rank(p) <= DOUBLE_RANK
  {
  }

  /** Block `c` is visited before rank `r`. */
  ghost predicate Visited(sb: SuperBlock, d: Disk, n: nat, r: int, c: nat)
    requires Layout(sb, |d|) && n < sb.ninodes
  {
    c != 0 && exists p :: ValidPos(p) && Rank(p) < r && T(sb, d, n, p) == c
  }

  /** The disk while the tree of `n` (as it is on `d0`) is being unmarked: ranks below `r` are done. */
  ghost predicate Freeing(sb: SuperBlock, d0: Disk, d: Disk, n: nat, r: int) {
    && Layout(sb, |d0|) && |d| == |d0| && n < sb.ninodes
    && (forall c :: 0 <= c < |d0| && c != sb.bmap_start ==> d[c] == d0[c])
    && (forall c :: Marked(sb, d, c) == (Marked(sb, d0, c) && !Visited(sb, d0, n, r, c)))
  }

  /** The next block to visit is still marked, so freeing it cannot panic; afterwards its rank is done. */
  lemma FreeStep(sb: SuperBlock, d0: Disk, d: Disk, n: nat, p: Pos)
    requires Trees(sb, d0) && Live(sb, d0, n) && ValidPos(p) && Freeing(sb, d0, d, n, Rank(p))
    ensures var b := T(sb, d0, n, p);
      if b == 0 then Freeing(sb, d0, d, n, Rank(p) + 1)
      else Marked(sb, d, b) && Freeing(sb, d0, Unmarked(sb, d, b), n, Rank(p) + 1)
  {
    var b := T(sb, d0, n, p);
    TreeBlocksAreData(sb, d0, n, p);
    VisitedStep(sb, d0, n, p);
    if b != 0 {
      assert !Visited(sb, d0, n, Rank(p), b) by {
        if q :| ValidPos(q) && Rank(q) < Rank(p) && T(sb, d0, n, q) == b { assert false; }
      }
      forall c ensures Marked(sb, Unmarked(sb, d, b), c) == (c != b && Marked(sb, d, c)) {
        MarkedAfterClear(sb, d, b, c);
      }
    }
  }

  lemma VisitedStep(sb: SuperBlock, d: Disk, n: nat, p: Pos)
    requires Layout(sb, |d|) && n < sb.ninodes && ValidPos(p)
    ensures forall c :: Visited(sb, d, n, Rank(p) + 1, c) ==
              (Visited(sb, d, n, Rank(p), c) || (c != 0 && c == T(sb, d, n, p)))
  {
    hide T, Rank;
    forall c
      ensures Visited(sb, d, n, Rank(p) + 1, c) == (Visited(sb, d, n, Rank(p), c) || (c != 0 && c == T(sb, d, n, p)))
    {
      if Visited(sb, d, n, Rank(p) + 1, c) {
        var q :| ValidPos(q) && Rank(q) < Rank(p) + 1 && T(sb, d, n, q) == c;
        if Rank(q) == Rank(p) { RankInjective(p, q); }
      }
      if c != 0 && c == T(sb, d, n, p) {
        assert Rank(p) < Rank(p) + 1;
        assert Visited(sb, d, n, Rank(p) + 1, c);
      }
      if Visited(sb, d, n, Rank(p), c) {
        var q :| ValidPos(q) && Rank(q) < Rank(p) && T(sb, d, n, q) == c;
        assert Rank(q) < Rank(p) + 1;
      }
    }
  }

  /** Ranks without blocks can be skipped. */
  lemma FreeSkip(sb: SuperBlock, d0: Disk, d: Disk, n: nat, r: int, r': int)
    requires Freeing(sb, d0, d, n, r) && r <= r'
    requires forall p :: ValidPos(p) && r <= Rank(p) < r' ==> T(sb, d0, n, p) == 0
    ensures Freeing(sb, d0, d, n, r')
  {
  }

  /** Once every rank is done, exactly the tree's blocks are unmarked. */
  lemma FreeDone(sb: SuperBlock, d0: Disk, d: Disk, n: nat)
    requires Freeing(sb, d0, d, n, DOUBLE_RANK + 1)
    ensures forall c :: Marked(sb, d, c) == (Marked(sb, d0, c) && !InTree(sb, d0, n, c))
  {
    forall c ensures Visited(sb, d0, n, DOUBLE_RANK + 1, c) == InTree(sb, d0, n, c) {
      if InTree(sb, d0, n, c) {
        var p :| ValidPos(p) && T(sb, d0, n, p) == c;
        RankBound(p);
      }
    }
  }

  /** The disk after `bitmap::free(b)`. */
  ghost function Unmarked(sb: SuperBlock, d: Disk, b: nat): (e: Disk)
    requires Layout(sb, |d|) && IsData(sb, b)
    ensures |e| == |d|
  {
    d[sb.bmap_start := ClearBit(d[sb.bmap_start], b - DataStart(sb))]
  }

  lemma MarkedAfterClear(sb: SuperBlock, d: Disk, b: nat, c: nat)
    requires Layout(sb, |d|) && IsData(sb, b)
    ensures Marked(sb, Unmarked(sb, d, b), c) == (c != b && Marked(sb, d, c))
  {
    if IsData(sb, c) {
      ClearBitAt(d[sb.bmap_start], b - DataStart(sb), c - DataStart(sb));
    }
  }

  /** The rank at which the visit of the index block at `p` and everything below it starts. */
  function FirstRank(p: Pos): int
    requires !IsLeaf(p)
  {
    match p
    case Single => INODE_INDEX_1
    case Mid(i) => SINGLE_RANK + 1 + i * (NINDIRECT + 1)
    case Double => SINGLE_RANK + 1
  }

  lemma ChildRank(p: Pos, k: nat)
    requires p.Single? || p.Mid?
    ensures Rank(Child(p, k)) == FirstRank(p) + k && Rank(p) == FirstRank(p) + NINDIRECT
  {
  }

  /** An absent index block and everything below it can be skipped. */
  lemma SkipTable(sb: SuperBlock, d0: Disk, d: Disk, n: nat, pp: Pos)
    requires ValidPos(pp) && !IsLeaf(pp) && Freeing(sb, d0, d, n, FirstRank(pp)) && T(sb, d0, n, pp) == 0
    ensures Freeing(sb, d0, d, n, Rank(pp) + 1)
  {
    var ix := InodeAt(sb, d0, n).index;
    forall p | ValidPos(p) && FirstRank(pp) <= Rank(p) < Rank(pp) + 1 ensures T(sb, d0, n, p) == 0 {
      SkippedPlace(pp, p);
      assert At(d0, ix, pp) == 0;
    }
    FreeSkip(sb, d0, d, n, FirstRank(pp), Rank(pp) + 1);
  }

  lemma SkippedPlace(pp: Pos, p: Pos)
    requires ValidPos(pp) && !IsLeaf(pp) && ValidPos(p) && FirstRank(pp) <= Rank(p) <= Rank(pp)
    ensures match pp
      case Single => p.Single? || p.SingleLeaf?
      case Double => p.Double? || p.Mid? || p.Leaf?
      case Mid(i) => p == pp || (p.Leaf? && p.i == i)
  {
  }

  // ----- the inode bitmap

  ghost function WithLive(sb: SuperBlock, d: Disk, n: nat): (e: Disk)
    requires Layout(sb, |d|) && n < sb.ninodes
    ensures |e| == |d|
  {
    d[sb.inode_start - 1 := SetBit(d[sb.inode_start - 1], n)]
  }

  ghost function WithoutLive(sb: SuperBlock, d: Disk, n: nat): (e: Disk)
    requires Layout(sb, |d|) && n < sb.ninodes
    ensures |e| == |d|
  {
    d[sb.inode_start - 1 := ClearBit(d[sb.inode_start - 1], n)]
  }

  /** Flipping one inode bit changes that inode's liveness and no inode, mark or data block. */
  lemma LiveFlipped(sb: SuperBlock, d: Disk, n: nat)
    requires Layout(sb, |d|) && n < sb.ninodes
    ensures forall m :: Live(sb, WithLive(sb, d, n), m) == (Live(sb, d, m) || m == n)
    ensures forall m :: Live(sb, WithoutLive(sb, d, n), m) == (Live(sb, d, m) && m != n)
    ensures forall m: nat :: m < sb.ninodes ==> InodeAt(sb, WithLive(sb, d, n), m) == InodeAt(sb, d, m)
    ensures forall m: nat :: m < sb.ninodes ==> InodeAt(sb, WithoutLive(sb, d, n), m) == InodeAt(sb, d, m)
    ensures forall c :: sb.bmap_start <= c < |d| ==> WithLive(sb, d, n)[c] == d[c] && WithoutLive(sb, d, n)[c] == d[c]
  {
    var x := d[sb.inode_start - 1];
    var y, z := SetBit(x, n), ClearBit(x, n);
    forall m | 0 <= m < sb.ninodes
      ensures BitAt(y, m) == (BitAt(x, m) || m == n) && BitAt(z, m) == (BitAt(x, m) && m != n)
    {
      SetBitAt(x, n, m);
      ClearBitAt(x, n, m);
    }
    forall m: nat | m < sb.ninodes ensures sb.inode_start <= InodeBlock(sb, m) < sb.bmap_start {
      InodeBlockRange(sb, m);
    }
  }

  /** The three updates of a deletion together. */
  lemma DeletedDisk(sb: SuperBlock, d0: Disk, d: Disk, n: nat, ino: InodeDisk)
    requires Freeing(sb, d0, d, n, DOUBLE_RANK + 1) && Live(sb, d0, n) && WellFormed(ino)
    ensures Deleted(sb, d0, Stored(sb, WithoutLive(sb, d, n), n, ino), n)
  {
    var e := WithoutLive(sb, d, n);
    var f := Stored(sb, e, n, ino);
    FreeDone(sb, d0, d, n);
    LiveFlipped(sb, d, n);
    StoredElsewhere(sb, e, n, ino);
    forall m | Live(sb, d0, m) && m != n ensures InodeAt(sb, f, m) == InodeAt(sb, d0, m) {
      StoredInode(sb, e, n, ino, m);
      InodeBlockRange(sb, m);
    }
    forall m ensures Live(sb, d, m) == Live(sb, d0, m) {}
    forall c ensures Marked(sb, e, c) == Marked(sb, d, c) {}
  }

  /** The two updates of a creation together. */
  lemma CreatedDisk(sb: SuperBlock, d: Disk, n: nat, ino: InodeDisk)
    requires Layout(sb, |d|) && n < sb.ninodes && !Live(sb, d, n) && ino.index == seq(NINDEX, _ => 0)
    ensures var f := Stored(sb, WithLive(sb, d, n), n, ino); Created(sb, d, f, n) && InodeAt(sb, f, n) == ino
  {
    var e := WithLive(sb, d, n);
    var f := Stored(sb, e, n, ino);
    LiveFlipped(sb, d, n);
    StoredElsewhere(sb, e, n, ino);
    forall m: nat | m < sb.ninodes ensures InodeAt(sb, f, m) == if m == n then ino else InodeAt(sb, d, m) {
      StoredInode(sb, e, n, ino, m);
    }
  }
}
