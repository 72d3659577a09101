/**
  The block and inode layer of kernel/src/fs: the data bitmap (bitmap.rs) and inodes (inode.rs) over the buffer cache.

  A kernel panic for exhaustion ends an operation with `None`/`false`; its contract then says that the resource really
  was exhausted.  All other panics are shown unreachable.  `cache.peak` records how many buffers are ever held at once.
*/
module FileSystem {
  import opened Base
  import opened Bits
  import opened DiskFormat
  import opened FileTree
  import opened FileBytes
  import opened BufferCache

  const N_INODE := 50

  datatype Inode = Inode(disk: InodeDisk, valid: bool, inum: nat, refcnt: nat)

  datatype Located = Found(block: nat) | Hole | NoSpace

  /** The in-memory copies of referenced inodes are live, unique and equal to the disk's. */
  ghost predicate Icache(sb: SuperBlock, d: Disk, inodes: seq<Inode>)
    requires Layout(sb, |d|)
  {
    && |inodes| == N_INODE
    && (forall s :: 0 <= s < N_INODE && inodes[s].refcnt > 0 ==>
          inodes[s].valid && Live(sb, d, inodes[s].inum) && inodes[s].disk == InodeAt(sb, d, inodes[s].inum))
    && (forall s, t :: 0 <= s < t < N_INODE && inodes[s].refcnt > 0 && inodes[t].refcnt > 0 ==>
          inodes[s].inum != inodes[t].inum)
  }

  /** The outcome of looking for the block at place `p` of inode `n`, on the resulting disk. */
  ghost predicate LocatedAt(sb: SuperBlock, d: Disk, n: nat, p: Pos, grow: bool, r: Located) {
    && Layout(sb, |d|) && n < sb.ninodes && ValidPos(p)
    && match r
       case Found(b) => b != 0 && T(sb, d, n, p) == b
       case Hole => !grow && T(sb, d, n, p) == 0
       case NoSpace => grow && Full(sb, d)
  }

  lemma HoleBelow(sb: SuperBlock, d: Disk, n: nat, pp: Pos, k: nat, grow: bool, r: Located)
    requires ValidPos(pp) && !IsLeaf(pp) && k < NINDIRECT && LocatedAt(sb, d, n, pp, grow, r) && !r.Found?
    ensures LocatedAt(sb, d, n, Child(pp, k), grow, r)
  {
    ChildAt(d, InodeAt(sb, d, n).index, pp, k);
  }

  /** Every block of the data area is in use. */
  ghost predicate Full(sb: SuperBlock, d: Disk)
    requires Layout(sb, |d|)
  {
    forall b :: IsData(sb, b) ==> Marked(sb, d, b)
  }

  /** Every inode is in use. */
  ghost predicate NoFreeInode(sb: SuperBlock, d: Disk)
    requires Layout(sb, |d|)
  {
    forall n: nat :: n < sb.ninodes ==> Live(sb, d, n)
  }

  /** Every slot of the inode table is referenced. */
  ghost predicate NoFreeSlot(inodes: seq<Inode>) {
    forall s :: 0 <= s < |inodes| ==> inodes[s].refcnt > 0
  }

  /** What the file system keeps between operations. */
  ghost predicate FsInv(sb: SuperBlock, d: Disk, inodes: seq<Inode>) {
    Trees(sb, d) && Icache(sb, d, inodes)
  }

  /** The cached copies stay right when no inode changes. */
  lemma IcacheSame(sb: SuperBlock, d: Disk, e: Disk, inodes: seq<Inode>)
    requires Layout(sb, |d|) && |e| == |d| && SameLive(sb, d, e) && Icache(sb, d, inodes)
    requires forall m :: Live(sb, d, m) ==> InodeAt(sb, e, m) == InodeAt(sb, d, m)
    ensures Icache(sb, e, inodes)
  {
  }

  /** Storing a referenced inode and updating its cached copy alike. */
  lemma IcacheStored(sb: SuperBlock, d: Disk, inodes: seq<Inode>, slot: nat, ino: InodeDisk)
    requires Layout(sb, |d|) && Icache(sb, d, inodes) && WellFormed(ino) && slot < N_INODE && inodes[slot].refcnt > 0
    ensures Icache(sb, Stored(sb, d, inodes[slot].inum, ino), inodes[slot := inodes[slot].(disk := ino)])
  {
    var n := inodes[slot].inum;
    StoredElsewhere(sb, d, n, ino);
    forall m: nat | m < sb.ninodes
      ensures InodeAt(sb, Stored(sb, d, n, ino), m) == if m == n then ino else InodeAt(sb, d, m)
    {
      StoredInode(sb, d, n, ino, m);
    }
  }

  lemma FsInvFacts(sb: SuperBlock, d: Disk, inodes: seq<Inode>, slot: nat)
    requires FsInv(sb, d, inodes) && slot < N_INODE && inodes[slot].refcnt > 0
    ensures |inodes| == N_INODE && inodes[slot].inum < sb.ninodes && Live(sb, d, inodes[slot].inum)
    ensures inodes[slot].disk == InodeAt(sb, d, inodes[slot].inum) && WellFormed(inodes[slot].disk)
    ensures SameFiles(sb, d, d) && Trees(sb, d)
  {
  }

  predicate IsRoot(i: nat) {
    i < INODE_INDEX_1 || i == INODE_INDEX_1 || i == INODE_INDEX_2
  }

  /** Allocating block `b` and storing it as root entry `i`. */
  lemma GrowRootStep(sb: SuperBlock, d: Disk, inodes: seq<Inode>, slot: nat, i: nat, b: nat)
    requires FsInv(sb, d, inodes) && slot < N_INODE && inodes[slot].refcnt > 0
    requires IsRoot(i) && inodes[slot].disk.index[i] == 0
    requires IsData(sb, b) && !Marked(sb, d, b)
    ensures var n := inodes[slot].inum;
      var ino := inodes[slot].disk.(index := inodes[slot].disk.index[i := b]);
      && n < sb.ninodes && WellFormed(ino)
      && var f := Stored(sb, Allocated(sb, d, b), n, ino);
      && FsInv(sb, f, inodes[slot := inodes[slot].(disk := ino)]) && SameFiles(sb, d, f)
      && T(sb, f, n, RootPos(i)) == b && InodeAt(sb, f, n) == ino
  {
    var n := inodes[slot].inum;
    var ino := inodes[slot].disk.(index := inodes[slot].disk.index[i := b]);
    var e := Allocated(sb, d, b);
    var f := Stored(sb, e, n, ino);
    AllocKeeps(sb, d, b);
    AllocInodes(sb, d, b);
    IcacheSame(sb, d, e, inodes);
    LinkRoot(sb, e, n, i, b);
    GrownKeeps(sb, e, f, n, RootPos(i), b);
    SameFilesTrans(sb, d, e, f);
    IcacheStored(sb, e, inodes, slot, ino);
    StoredInode(sb, e, n, ino, n);
  }

  /** Allocation leaves the inode table alone. */
  lemma AllocInodes(sb: SuperBlock, d: Disk, b: nat)
    requires Layout(sb, |d|) && IsData(sb, b)
    ensures forall m :: Live(sb, d, m) ==> InodeAt(sb, Allocated(sb, d, b), m) == InodeAt(sb, d, m)
  {
    forall m | Live(sb, d, m) ensures InodeAt(sb, Allocated(sb, d, b), m) == InodeAt(sb, d, m) {
      InodeBlockRange(sb, m);
    }
  }

  /** Allocating block `b` and storing it as entry `k` of the index block at place `pp`. */
  lemma GrowEntryStep(sb: SuperBlock, d: Disk, inodes: seq<Inode>, n: nat, pp: Pos, k: nat, b: nat)
    requires FsInv(sb, d, inodes) && Live(sb, d, n) && ValidPos(pp) && !IsLeaf(pp) && k < NINDIRECT
    requires T(sb, d, n, pp) != 0 && T(sb, d, n, Child(pp, k)) == 0
    requires IsData(sb, b) && !Marked(sb, d, b)
    ensures var pb := T(sb, d, n, pp);
      && pb < |d|
      && var f := Allocated(sb, d, b)[pb := PutEntry(d[pb], k, b)];
      && FsInv(sb, f, inodes) && SameFiles(sb, d, f) && T(sb, f, n, Child(pp, k)) == b
  {
    var pb := T(sb, d, n, pp);
    TreeBlocksAreData(sb, d, n, pp);
    var e := Allocated(sb, d, b);
    AllocKeeps(sb, d, b);
    AllocInodes(sb, d, b);
    IcacheSame(sb, d, e, inodes);
    assert e[pb] == d[pb] && T(sb, e, n, pp) == pb && T(sb, e, n, Child(pp, k)) == 0;
    var f := e[pb := PutEntry(e[pb], k, b)];
    LinkEntry(sb, e, n, pp, k, b);
    GrownKeeps(sb, e, f, n, Child(pp, k), b);
    SameFilesTrans(sb, d, e, f);
    forall m | Live(sb, e, m) ensures InodeAt(sb, f, m) == InodeAt(sb, e, m) { InodeBlockRange(sb, m); }
    IcacheSame(sb, e, f, inodes);
  }

  /** Entry `k` of the block at place `pp` is what the tree has at the child place. */
  lemma EntryIsChild(sb: SuperBlock, d: Disk, n: nat, pp: Pos, k: nat)
    requires Trees(sb, d) && Live(sb, d, n) && ValidPos(pp) && !IsLeaf(pp) && k < NINDIRECT && T(sb, d, n, pp) != 0
    ensures var pb := T(sb, d, n, pp);
      && Marked(sb, d, pb) && ValidPos(Child(pp, k)) && T(sb, d, n, Child(pp, k)) == Entry(d[pb], k)
  {
    TreeBlocksAreData(sb, d, n, pp);
    ChildAt(d, InodeAt(sb, d, n).index, pp, k);
  }

  /** `dst` holds what a read of `len` bytes at `off` must return: the file's bytes, cut at the end of the file. */
  ghost predicate ReadResult(sb: SuperBlock, d: Disk, n: nat, off: nat, len: nat, dst: seq<byte>) {
    && Layout(sb, |d|) && n < sb.ninodes
    && dst == Slice(File(sb, d, n), off, len)
  }

  lemma BytesOfFile(sb: SuperBlock, d: Disk, n: nat, off: nat, end: nat)
    requires Layout(sb, |d|) && n < sb.ninodes && off <= end <= InodeAt(sb, d, n).size
    ensures end <= MAX_BYTES && Bytes(sb, d, n, off, end) == File(sb, d, n)[off..end]
  {
  }

  /** The bytes of one chunk, as read through the located block. */
  ghost predicate IsChunk(sb: SuperBlock, d: Disk, n: nat, a: nat, len: nat, s: seq<byte>) {
    Layout(sb, |d|) && n < sb.ninodes && a + len <= MAX_BYTES && s == Bytes(sb, d, n, a, a + len)
  }

  lemma LocatedChunk(sb: SuperBlock, d: Disk, n: nat, a: nat, len: nat, r: Located)
    requires Trees(sb, d) && Live(sb, d, n) && a < MAX_BYTES && a % BLOCK_SIZE + len <= BLOCK_SIZE
    requires LocatedAt(sb, d, n, LeafPos(a / BLOCK_SIZE), false, r)
    ensures r.Hole? ==> IsChunk(sb, d, n, a, len, seq(len, _ => 0))
    ensures r.Found? ==> r.block < |d| && IsChunk(sb, d, n, a, len, d[r.block][a % BLOCK_SIZE..a % BLOCK_SIZE + len])
    ensures !r.NoSpace?
  {
    ChunkBytes(sb, d, n, a, len);
  }

  /** Where a chunk that starts at `off` stops: at the end of its block or at `end`. */
  function ChunkEnd(off: nat, end: nat): (r: nat)
    requires off < end
    ensures off < r <= end && off % BLOCK_SIZE + (r - off) <= BLOCK_SIZE
  {
    var copyLen := BLOCK_SIZE - off % BLOCK_SIZE;
    if off + copyLen > end then end else off + copyLen
  }

  lemma EmptyChunk(sb: SuperBlock, d: Disk, n: nat, a: nat)
    requires Layout(sb, |d|) && n < sb.ninodes && a <= MAX_BYTES
    ensures IsChunk(sb, d, n, a, 0, [])
  {
  }

  lemma ChunkIsBytes(sb: SuperBlock, d: Disk, n: nat, a: nat, b: nat, s: seq<byte>)
    requires a <= b && IsChunk(sb, d, n, a, b - a, s)
    ensures Layout(sb, |d|) && n < sb.ninodes && b <= MAX_BYTES && s == Bytes(sb, d, n, a, b)
  {
  }

  lemma ChunkAppend(sb: SuperBlock, d: Disk, n: nat, a: nat, b: nat, len: nat, s: seq<byte>, t: seq<byte>)
    requires a <= b && IsChunk(sb, d, n, a, b - a, s) && IsChunk(sb, d, n, b, len, t)
    ensures IsChunk(sb, d, n, a, b - a + len, s + t)
  {
    BytesSplit(sb, d, n, a, b, b + len);
  }

  /** Writing a chunk into its located block. */
  lemma WriteChunkStep(sb: SuperBlock, d: Disk, e: Disk, inodes: seq<Inode>, slot: nat, a: nat, s: seq<byte>,
                       r: Located)
    requires SameFiles(sb, d, e) && FsInv(sb, e, inodes) && slot < N_INODE && inodes[slot].refcnt > 0
    requires a < MAX_BYTES && a % BLOCK_SIZE + |s| <= BLOCK_SIZE && r.Found?
    requires LocatedAt(sb, e, inodes[slot].inum, LeafPos(a / BLOCK_SIZE), true, r)
    ensures r.block < |e|
    ensures var f := e[r.block := Splice(e[r.block], a % BLOCK_SIZE, s)];
      FsInv(sb, f, inodes) && ChunkWritten(sb, d, f, inodes[slot].inum, a, a + |s|, s)
  {
    var n := inodes[slot].inum;
    var f := e[r.block := Splice(e[r.block], a % BLOCK_SIZE, s)];
    WriteChunk(sb, e, n, a, s);
    IcacheSame(sb, e, f, inodes);
    WrittenNothing(sb, d, n, a, s);
    assert s[a - a..a + |s| - a] == s;
    WrittenStep(sb, d, d, e, f, n, a, a, a + |s|, s);
  }

  /** Bytes [off, cur) are written and all attributes are as before. */
  ghost predicate ChunkWritten(sb: SuperBlock, d: Disk, e: Disk, n: nat, off: nat, cur: nat, src: seq<byte>) {
    Written(sb, d, e, n, off, cur, src) && SameMetas(sb, d, e)
  }

  lemma NothingWritten(sb: SuperBlock, d: Disk, n: nat, off: nat, src: seq<byte>)
    requires Layout(sb, |d|) && off <= MAX_BYTES
    ensures ChunkWritten(sb, d, d, n, off, off, src)
  {
  }

  lemma ChunkWrittenStep(sb: SuperBlock, d: Disk, e: Disk, f: Disk, n: nat, off: nat, cur: nat, next: nat,
                         src: seq<byte>)
    requires ChunkWritten(sb, d, e, n, off, cur, src) && cur <= next <= off + |src|
    requires ChunkWritten(sb, e, f, n, cur, next, src[cur - off..next - off])
    ensures ChunkWritten(sb, d, f, n, off, next, src)
  {
    WrittenStep(sb, d, e, e, f, n, off, cur, next, src);
  }

  /** Storing the new size after the last chunk. */
  lemma SizeStep(sb: SuperBlock, d: Disk, e: Disk, inodes: seq<Inode>, slot: nat, off: nat, src: seq<byte>)
    requires FsInv(sb, e, inodes) && slot < N_INODE && inodes[slot].refcnt > 0 && off + |src| < U32
    requires ChunkWritten(sb, d, e, inodes[slot].inum, off, off + |src|, src)
    ensures off + |src| <= inodes[slot].disk.size ==> WriteResult(sb, d, e, inodes[slot].inum, off, src)
    ensures off + |src| > inodes[slot].disk.size ==>
      var n := inodes[slot].inum;
      var ino := inodes[slot].disk.(size := off + |src|);
      && n < sb.ninodes && WellFormed(ino)
      && FsInv(sb, Stored(sb, e, n, ino), inodes[slot := inodes[slot].(disk := ino)])
      && WriteResult(sb, d, Stored(sb, e, n, ino), n, off, src)
  {
    var n := inodes[slot].inum;
    if off + |src| > inodes[slot].disk.size {
      var ino := inodes[slot].disk.(size := off + |src|);
      StoreMeta(sb, e, n, ino);
      IcacheStored(sb, e, inodes, slot, ino);
      PlacesKeptTrans(sb, d, e, Stored(sb, e, n, ino));
      FilledStays(sb, e, Stored(sb, e, n, ino), n, off, off + |src|);
    }
  }

  /** The next place to free, for a block that is really there. */
  lemma FreeNext(sb: SuperBlock, d0: Disk, d: Disk, n: nat, pp: Pos, k: nat)
    requires Trees(sb, d0) && Live(sb, d0, n) && ValidPos(pp) && (pp.Single? || pp.Mid?) && k < NINDIRECT
    requires T(sb, d0, n, pp) != 0 && Freeing(sb, d0, d, n, FirstRank(pp) + k)
    ensures T(sb, d0, n, pp) < |d0|
    ensures var b := Entry(d0[T(sb, d0, n, pp)], k);
      if b == 0 then Freeing(sb, d0, d, n, FirstRank(pp) + k + 1)
      else Marked(sb, d, b) && Freeing(sb, d0, Unmarked(sb, d, b), n, FirstRank(pp) + k + 1)
  {
    EntryIsChild(sb, d0, n, pp, k);
    ChildRank(pp, k);
    FreeStep(sb, d0, d, n, Child(pp, k));
  }

  lemma FreeingKeeps(sb: SuperBlock, d0: Disk, d: Disk, n: nat, r: int, b: nat)
    requires Freeing(sb, d0, d, n, r) && Marked(sb, d0, b)
    ensures Layout(sb, |d|) && |d| == |d0| && b < |d| && d[b] == d0[b] && b != sb.bmap_start
  {
  }

  lemma FreeingLayout(sb: SuperBlock, d0: Disk, d: Disk, n: nat, r: int)
    requires Freeing(sb, d0, d, n, r)
    ensures Layout(sb, |d|) && |d| == |d0|
  {
  }

  /** The root entries once `free_data_blocks` has cleared those below `i`. */
  function ClearedBelow(ix: seq<u32>, i: nat): (r: seq<u32>)
    requires |ix| == NINDEX
    ensures |r| == NINDEX
  {
    seq(NINDEX, k requires 0 <= k < NINDEX => if k < i then 0 else ix[k])
  }

  /** The direct entry `i`. */
  lemma FreeNextDirect(sb: SuperBlock, d0: Disk, d: Disk, n: nat, i: nat)
    requires Trees(sb, d0) && Live(sb, d0, n) && i < INODE_INDEX_1 && Freeing(sb, d0, d, n, i)
    ensures var b := InodeAt(sb, d0, n).index[i];
      if b == 0 then Freeing(sb, d0, d, n, i + 1)
      else Marked(sb, d, b) && Freeing(sb, d0, Unmarked(sb, d, b), n, i + 1)
  {
    FreeStep(sb, d0, d, n, Direct(i));
  }

  lemma FreeingStart(sb: SuperBlock, d0: Disk, n: nat)
    requires Layout(sb, |d0|) && n < sb.ninodes
    ensures Freeing(sb, d0, d0, n, 0)
  {
    hide T;
    forall p | ValidPos(p) ensures Rank(p) >= 0 {}
  }

  lemma MidRanks(i: nat)
    ensures FirstRank(Mid(i + 1)) == Rank(Mid(i)) + 1
    ensures FirstRank(Mid(0)) == FirstRank(Double) && FirstRank(Mid(NINDIRECT)) == DOUBLE_RANK
  {
  }

  /** An inner index block is not the block that points to it, and neither is the bitmap. */
  lemma MidNotDouble(sb: SuperBlock, d: Disk, n: nat, i: nat)
    requires Trees(sb, d) && Live(sb, d, n) && i < NINDIRECT && T(sb, d, n, Mid(i)) != 0
    ensures T(sb, d, n, Mid(i)) != T(sb, d, n, Double)
  {
  }

  /** The root entries that `free_data_blocks` leaves: only the unused entry 11 survives. */
  function Emptied(ix: seq<u32>): (r: seq<u32>)
    requires |ix| == NINDEX
    ensures |r| == NINDEX && forall i :: 0 <= i < NINDEX && IsRoot(i) ==> r[i] == 0
  {
    ClearedBelow(ix, INODE_INDEX_1)[INODE_INDEX_1 := 0][INODE_INDEX_2 := 0]
  }

  /** The root entries are what the tree has at the top. */
  lemma RootEntries(sb: SuperBlock, d: Disk, n: nat)
    requires Layout(sb, |d|) && n < sb.ninodes
    ensures var ix := InodeAt(sb, d, n).index;
      T(sb, d, n, Single) == ix[INODE_INDEX_1] && T(sb, d, n, Double) == ix[INODE_INDEX_2]
    ensures FirstRank(Single) == INODE_INDEX_1 && FirstRank(Double) == Rank(Single) + 1 && Rank(Double) == DOUBLE_RANK
  {
  }

  /** Dropping the last reference to an unlinked inode: the deletion keeps the invariant for all others. */
  lemma DeleteStep(sb: SuperBlock, d0: Disk, d: Disk, inodes: seq<Inode>, slot: nat, ino: InodeDisk, x: Inode)
    requires FsInv(sb, d0, inodes) && slot < N_INODE && inodes[slot].refcnt == 1 && x.refcnt == 0 && WellFormed(ino)
    requires Freeing(sb, d0, d, inodes[slot].inum, DOUBLE_RANK + 1)
    ensures var n := inodes[slot].inum;
      && n < sb.ninodes
      && var f := Stored(sb, WithoutLive(sb, d, n), n, ino);
         FsInv(sb, f, inodes[slot := x]) && Deleted(sb, d0, f, n)
  {
    var n := inodes[slot].inum;
    DeletedDisk(sb, d0, d, n, ino);
    DeletedKeeps(sb, d0, Stored(sb, WithoutLive(sb, d, n), n, ino), n);
  }

  lemma DropStep(sb: SuperBlock, d: Disk, inodes: seq<Inode>, slot: nat)
    requires FsInv(sb, d, inodes) && slot < N_INODE && inodes[slot].refcnt > 0
    ensures FsInv(sb, d, inodes[slot := inodes[slot].(refcnt := inodes[slot].refcnt - 1)])
  {
  }

  lemma FreeingLive(sb: SuperBlock, d0: Disk, d: Disk, n: nat, r: int)
    requires Freeing(sb, d0, d, n, r) && Live(sb, d0, n)
    ensures Layout(sb, |d|) && Live(sb, d, n)
  {
  }

  /** Taking a reference. */
  lemma RefStep(sb: SuperBlock, d: Disk, inodes: seq<Inode>, slot: nat, c: nat)
    requires Layout(sb, |d|) && Icache(sb, d, inodes) && slot < N_INODE && inodes[slot].refcnt > 0
    ensures Icache(sb, d, inodes[slot := inodes[slot].(refcnt := c)])
  {
  }

  /** No cached copy of a referenced inode has number `n`. */
  ghost predicate NotCached(inodes: seq<Inode>, n: nat) {
    forall s :: 0 <= s < |inodes| && inodes[s].refcnt > 0 ==> inodes[s].inum != n
  }

  lemma GetStep(sb: SuperBlock, d: Disk, inodes: seq<Inode>, slot: nat, n: nat)
    requires Layout(sb, |d|) && Icache(sb, d, inodes) && slot < N_INODE && inodes[slot].refcnt == 0
    requires Live(sb, d, n) && NotCached(inodes, n)
    ensures Icache(sb, d, inodes[slot := Inode(InodeAt(sb, d, n), true, n, 1)])
  {
  }

  /** The cached copies stay right when another inode number becomes live. */
  lemma IcacheMoreLive(sb: SuperBlock, d: Disk, inodes: seq<Inode>, n: nat)
    requires Layout(sb, |d|) && Icache(sb, d, inodes) && n < sb.ninodes && !Live(sb, d, n)
    ensures Icache(sb, WithLive(sb, d, n), inodes) && NotCached(inodes, n)
  {
    LiveFlipped(sb, d, n);
  }

  lemma NowLive(sb: SuperBlock, d: Disk, n: nat)
    requires Layout(sb, |d|) && n < sb.ninodes
    ensures Live(sb, WithLive(sb, d, n), n)
  {
    LiveFlipped(sb, d, n);
  }

  lemma IcacheSize(sb: SuperBlock, d: Disk, inodes: seq<Inode>)
    requires Layout(sb, |d|) && Icache(sb, d, inodes)
    ensures |inodes| == N_INODE
  {
  }

  /** Creating inode `n` in a slot that holds nothing else. */
  lemma CreateStep(sb: SuperBlock, d: Disk, inodes: seq<Inode>, slot: nat, n: nat, ino: InodeDisk)
    requires FsInv(sb, d, inodes) && slot < N_INODE && inodes[slot].refcnt == 0
    requires n < sb.ninodes && !Live(sb, d, n) && ino.index == seq(NINDEX, _ => 0)
    ensures var f := Stored(sb, WithLive(sb, d, n), n, ino);
      FsInv(sb, f, inodes[slot := Inode(ino, true, n, 1)]) && Created(sb, d, f, n) && InodeAt(sb, f, n) == ino
  {
    CreatedDisk(sb, d, n, ino);
    CreatedKeeps(sb, d, Stored(sb, WithLive(sb, d, n), n, ino), n);
  }

  /** The nested scan of both bitmap allocators: the lowest clear bit of a block. */
  method FirstClear(data: Block) returns (r: Option<nat>)
    ensures r.Some? ==> r.value < 8 * BLOCK_SIZE && !BitAt(data, r.value)
                        && forall k :: 0 <= k < r.value ==> BitAt(data, k)
    ensures r.None? ==> forall k :: 0 <= k < 8 * BLOCK_SIZE ==> BitAt(data, k)
  {
    for i := 0 to BLOCK_SIZE
      invariant forall k :: 0 <= k < 8 * i ==> BitAt(data, k)
    {
      var x := data[i];
      if x != 0xFF {
        for j := 0 to 8
          invariant forall k :: 0 <= k < j ==> Bit(x, k)
          invariant forall k :: 0 <= k < 8 * i + j ==> BitAt(data, k)
        {
          if !Bit(x, j) {
            return Some(i * 8 + j);
          }
        }
        OnlyFullByte(x);
        assert false;
      } else {
        forall k | 8 * i <= k < 8 * i + 8 ensures BitAt(data, k) { FullByte(x, k % 8); }
      }
    }
    return None;
  }

  class Fs {
    const sb: SuperBlock
    const cache: Cache
    var inodes: seq<Inode>

    /** Start-up on a consistent image: no inode is cached. */
    constructor (sb: SuperBlock, cache: Cache)
      requires cache.Valid() && cache.active == [] && Trees(sb, cache.disk)
      ensures Valid() && this.sb == sb && this.cache == cache
      ensures |inodes| == N_INODE && forall s :: 0 <= s < N_INODE ==> inodes[s].refcnt == 0
    {
      hide CacheInv, TreesMarked, TreesDisjoint;
      this.sb := sb;
      this.cache := cache;
      this.inodes := seq(N_INODE, _ => Inode(InodeDisk(0, 0, 0, 0, 0, seq(NINDEX, _ => 0)), false, 0, 0));
    }

    /** The cache is in order and the disk has the superblock's layout. */
    ghost predicate Ready()
      reads this, cache
    {
      cache.Valid() && Layout(sb, |cache.disk|)
    }

    // ----- bitmap.rs

    /** Blocks a nested bitmap operation will read are not held by the caller. */
    ghost predicate BitmapFreeToRead()
      reads this, cache
      requires Layout(sb, |cache.disk|)
    {
      && !cache.Held(sb.bmap_start)
      && (forall b :: IsData(sb, b) && !Marked(sb, cache.disk, b) ==> !cache.Held(b))
    }

    /** `bitmap::alloc`: the lowest free block, marked and zero-filled; `None` stands for the out-of-blocks panic. */
    method BitmapAlloc() returns (r: Option<nat>)
      requires Ready() && |cache.active| + 2 <= N_BUFFER && BitmapFreeToRead()
      modifies cache
      ensures Ready() && cache.Handles() == old(cache.Handles()) && |cache.active| == |old(cache.active)|
      ensures cache.peak <= Max(old(cache.peak), |cache.active| + 1) && |cache.disk| == |old(cache.disk)|
      ensures r.None? ==> cache.disk == old(cache.disk) && forall b :: IsData(sb, b) ==> Marked(sb, cache.disk, b)
      ensures r.Some? ==> IsData(sb, r.value) && !Marked(sb, old(cache.disk), r.value)
                          && cache.disk == Allocated(sb, old(cache.disk), r.value)
    {
      hide CacheInv, HandlesOf, HeldIn, BitAt, SetBit, ZeroBlock;
      var b := cache.Read(0, sb.bmap_start);
      var data := cache.Data(b);
      var bit := FirstClear(data);
      if bit.None? || bit.value >= sb.nblocks {
        cache.Release(b);
        return None;
      }
      cache.Commit(b, SetBit(data, bit.value));
      assert cache.Handles() == old(cache.Handles());
      var absBlock := DataStart(sb) + bit.value;
      assert IsData(sb, absBlock) && !Marked(sb, old(cache.disk), absBlock);
      var z := cache.Read(0, absBlock);
      cache.Commit(z, ZeroBlock());
      assert cache.Handles() == old(cache.Handles());
      return Some(absBlock);
    }

    /** `bitmap::free` of a marked block. */
    method BitmapFree(block: nat)
      requires Ready() && |cache.active| < N_BUFFER && !cache.Held(sb.bmap_start)
      requires Marked(sb, cache.disk, block)
      modifies cache
      ensures Ready() && cache.Handles() == old(cache.Handles()) && |cache.active| == |old(cache.active)|
      ensures cache.peak <= Max(old(cache.peak), |cache.active| + 1)
      ensures cache.disk == Unmarked(sb, old(cache.disk), block)
    {
      hide CacheInv, HandlesOf, HeldIn, BitAt, ClearBit;
      var bit := block - DataStart(sb);
      var b := cache.Read(0, sb.bmap_start);
      var data := cache.Data(b);
      cache.Commit(b, ClearBit(data, bit));
      assert cache.Handles() == old(cache.Handles());
    }

    // ----- inode.rs: moving inodes between memory and disk

    /** Nothing is held. */
    ghost predicate Idle()
      reads this, cache
    {
      Ready() && cache.active == []
    }

    /** `inode_rw(inode, true)` */
    method InodeStore(slot: nat)
      requires Idle() && slot < |inodes| && inodes[slot].inum < sb.ninodes && WellFormed(inodes[slot].disk)
      modifies cache
      ensures Idle() && cache.peak <= Max(old(cache.peak), 1)
      ensures cache.disk == Stored(sb, old(cache.disk), inodes[slot].inum, inodes[slot].disk)
    {
      hide CacheInv, HandlesOf, EncodeInode, StoreInode;
      var ino := inodes[slot];
      InodeBlockRange(sb, ino.inum);
      NoHandles(cache.buffers);
      var b := cache.Read(0, InodeBlock(sb, ino.inum));
      var data := cache.Data(b);
      cache.Commit(b, StoreInode(data, ino.inum % INODES_PER_BLOCK, ino.disk));
    }

    /** `inode_rw(inode, false)` */
    method InodeLoad(slot: nat)
      requires Idle() && slot < |inodes| && inodes[slot].inum < sb.ninodes
      modifies cache, this`inodes
      ensures Idle() && cache.peak <= Max(old(cache.peak), 1) && cache.disk == old(cache.disk)
      ensures inodes == old(inodes)[slot := old(inodes)[slot].(disk := InodeAt(sb, cache.disk, old(inodes)[slot].inum))]
    {
      hide CacheInv, HandlesOf, DecodeInode, InodeIn;
      var ino := inodes[slot];
      InodeBlockRange(sb, ino.inum);
      NoHandles(cache.buffers);
      var b := cache.Read(0, InodeBlock(sb, ino.inum));
      var data := cache.Data(b);
      inodes := inodes[slot := ino.(disk := InodeIn(data, ino.inum % INODES_PER_BLOCK))];
      cache.Release(b);
    }

    /** The state between file-system operations. */
    ghost predicate Valid()
      reads this, cache
    {
      Idle() && FsInv(sb, cache.disk, inodes)
    }

    // ----- locate_or_add_block

    /** Allocate a block and make it root entry `i` of the inode. */
    method GrowRoot(slot: nat, i: nat) returns (r: Option<nat>)
      requires Valid() && slot < N_INODE && inodes[slot].refcnt > 0
      requires IsRoot(i) && inodes[slot].disk.index[i] == 0
      modifies cache, this`inodes
      ensures Valid() && cache.peak <= Max(old(cache.peak), 1) && SameFiles(sb, old(cache.disk), cache.disk)
      ensures r.None? ==> inodes == old(inodes) && Full(sb, cache.disk)
      ensures r.Some? ==>
        && inodes == old(inodes)[slot := old(inodes)[slot].(disk := InodeAt(sb, cache.disk, old(inodes)[slot].inum))]
        && r.value != 0 && T(sb, cache.disk, inodes[slot].inum, RootPos(i)) == r.value
    {
      hide CacheInv, HandlesOf, HeldIn, FsInv, Trees, SameFiles, T, Allocated, Stored, InodeAt;
      FsInvFacts(sb, cache.disk, inodes, slot);
      NoHandles(cache.buffers);
      r := BitmapAlloc();
      if r.None? { return; }
      GrowRootStep(sb, old(cache.disk), inodes, slot, i, r.value);
      var ino := inodes[slot].disk;
      inodes := inodes[slot := inodes[slot].(disk := ino.(index := ino.index[i := r.value]))];
      InodeStore(slot);
    }

    /** Find entry `k` of the index block `pb` (at place `pp` of the tree), adding a block when `grow` says so. */
    method LocateEntry(slot: nat, pb: nat, ghost pp: Pos, k: nat, grow: bool) returns (r: Located)
      requires Valid() && slot < N_INODE && inodes[slot].refcnt > 0
      requires ValidPos(pp) && !IsLeaf(pp) && k < NINDIRECT
      requires LocatedAt(sb, cache.disk, inodes[slot].inum, pp, grow, Found(pb))
      modifies cache
      ensures Valid() && cache.peak <= Max(old(cache.peak), 2) && SameFiles(sb, old(cache.disk), cache.disk)
      ensures LocatedAt(sb, cache.disk, inodes[slot].inum, Child(pp, k), grow, r)
      ensures !grow || r.NoSpace? ==> cache.disk == old(cache.disk)
    {
      hide CacheInv, HandlesOf, HeldIn, FsInv, Trees, SameFiles, T, Allocated, Stored, InodeAt, Entry, PutEntry, Child;
      FsInvFacts(sb, cache.disk, inodes, slot);
      NoHandles(cache.buffers);
      ghost var d := cache.disk;
      EntryIsChild(sb, d, inodes[slot].inum, pp, k);
      var b := cache.Read(0, pb);
      var data := cache.Data(b);
      var blk := Entry(data, k);
      if blk != 0 {
        cache.Release(b);
        return Found(blk);
      }
      if !grow {
        cache.Release(b);
        return Hole;
      }
      HeldAfterRead(map[], cache.Handles(), b, pb, data);
      var added := BitmapAlloc();
      if added.None? {
        cache.Release(b);
        return NoSpace;
      }
      GrowEntryStep(sb, d, inodes, inodes[slot].inum, pp, k, added.value);
      cache.Commit(b, PutEntry(data, k, added.value));
      return Found(added.value);
    }

    /** Root entry `i` of the inode, added when it is empty and `grow` says so. */
    method LocateRoot(slot: nat, i: nat, grow: bool) returns (r: Located)
      requires Valid() && slot < N_INODE && inodes[slot].refcnt > 0 && IsRoot(i)
      modifies cache, this`inodes
      ensures Valid() && cache.peak <= Max(old(cache.peak), 2) && SameFiles(sb, old(cache.disk), cache.disk)
      ensures inodes == old(inodes)[slot := old(inodes)[slot].(disk := inodes[slot].disk)]
      ensures LocatedAt(sb, cache.disk, inodes[slot].inum, RootPos(i), grow, r)
      ensures !grow ==> cache.disk == old(cache.disk)
    {
      hide CacheInv, HandlesOf, FsInv, Trees, SameFiles, InodeAt;
      FsInvFacts(sb, cache.disk, inodes, slot);
      var blk := inodes[slot].disk.index[i];
      if blk == 0 {
        if !grow { return Hole; }
        var g := GrowRoot(slot, i);
        return if g.None? then NoSpace else Found(g.value);
      }
      return Found(blk);
    }

    /** `locate_or_add_block` */
    method LocateOrAddBlock(slot: nat, lbn: nat, grow: bool) returns (r: Located)
      requires Valid() && slot < N_INODE && inodes[slot].refcnt > 0 && lbn < MAX_LBN
      modifies cache, this`inodes
      ensures Valid() && cache.peak <= Max(old(cache.peak), 2) && SameFiles(sb, old(cache.disk), cache.disk)
      ensures inodes == old(inodes)[slot := old(inodes)[slot].(disk := inodes[slot].disk)]
      ensures LocatedAt(sb, cache.disk, inodes[slot].inum, LeafPos(lbn), grow, r)
      ensures !grow ==> cache.disk == old(cache.disk)
    {
      hide CacheInv, HandlesOf, FsInv, Trees, SameFiles, InodeAt, LocatedAt;
      FsInvFacts(sb, cache.disk, inodes, slot);
      if lbn < INODE_INDEX_1 {
        r := LocateRoot(slot, lbn, grow);
        return;
      }
      var m := lbn - INODE_INDEX_1;
      ghost var d := cache.disk;
      if m < NINDIRECT {
        r := LocateRoot(slot, INODE_INDEX_1, grow);
        ghost var e := cache.disk;
        if !r.Found? {
          HoleBelow(sb, e, inodes[slot].inum, Single, m, grow, r);
          return;
        }
        r := LocateEntry(slot, r.block, Single, m, grow);
        SameFilesTrans(sb, d, e, cache.disk);
        return;
      }
      m := m - NINDIRECT;
      r := LocateRoot(slot, INODE_INDEX_2, grow);
      if !r.Found? {
        HoleBelow(sb, cache.disk, inodes[slot].inum, Double, m / NINDIRECT, grow, r);
        HoleBelow(sb, cache.disk, inodes[slot].inum, Mid(m / NINDIRECT), m % NINDIRECT, grow, r);
        return;
      }
      r := LocateDouble(slot, r.block, m, grow, d);
    }

    /** The two inner levels of a double-indirect block. */
    method LocateDouble(slot: nat, l1: nat, m: nat, grow: bool, ghost d: Disk) returns (r: Located)
      requires Valid() && slot < N_INODE && inodes[slot].refcnt > 0 && m < NINDIRECT * NINDIRECT
      requires LocatedAt(sb, cache.disk, inodes[slot].inum, Double, grow, Found(l1)) && SameFiles(sb, d, cache.disk)
      modifies cache
      ensures Valid() && cache.peak <= Max(old(cache.peak), 2) && SameFiles(sb, d, cache.disk)
      ensures LocatedAt(sb, cache.disk, inodes[slot].inum, Leaf(m / NINDIRECT, m % NINDIRECT), grow, r)
      ensures !grow ==> cache.disk == old(cache.disk)
    {
      hide CacheInv, HandlesOf, FsInv, Trees, SameFiles, InodeAt, LocatedAt;
      FsInvFacts(sb, cache.disk, inodes, slot);
      r := LocateEntry(slot, l1, Double, m / NINDIRECT, grow);
      SameFilesTrans(sb, d, old(cache.disk), cache.disk);
      if !r.Found? {
        HoleBelow(sb, cache.disk, inodes[slot].inum, Mid(m / NINDIRECT), m % NINDIRECT, grow, r);
        return;
      }
      ghost var e := cache.disk;
      r := LocateEntry(slot, r.block, Mid(m / NINDIRECT), m % NINDIRECT, grow);
      SameFilesTrans(sb, d, e, cache.disk);
    }

    // ----- inode_read_data and inode_write_data

    /** One iteration of the read loop: at most one block's worth of bytes. */
    method ReadChunk(slot: nat, off: nat, copyLen: nat) returns (s: seq<byte>)
      requires Valid() && slot < N_INODE && inodes[slot].refcnt > 0
      requires off < MAX_BYTES && off % BLOCK_SIZE + copyLen <= BLOCK_SIZE
      modifies cache, this`inodes
      ensures Valid() && cache.disk == old(cache.disk) && inodes == old(inodes) && cache.peak <= Max(old(cache.peak), 2)
      ensures IsChunk(sb, cache.disk, inodes[slot].inum, off, copyLen, s)
    {
      hide CacheInv, HandlesOf, FsInv, Trees, SameFiles, InodeAt, LocatedAt, IsChunk, LeafPos;
      FsInvFacts(sb, cache.disk, inodes, slot);
      var r := LocateOrAddBlock(slot, off / BLOCK_SIZE, false);
      FsInvFacts(sb, cache.disk, inodes, slot);
      LocatedChunk(sb, cache.disk, inodes[slot].inum, off, copyLen, r);
      NoHandles(cache.buffers);
      if r.Found? {
        var b := cache.Read(0, r.block);
        var data := cache.Data(b);
        s := data[off % BLOCK_SIZE..off % BLOCK_SIZE + copyLen];
        cache.Release(b);
      } else {
        s := seq(copyLen, _ => 0);
      }
    }

    /** `inode_read_data`: returns the bytes that end up in the destination buffer. */
    method ReadData(slot: nat, off: nat, len: nat) returns (dst: seq<byte>)
      requires Valid() && slot < N_INODE && inodes[slot].refcnt > 0 && off + len <= U32 - BLOCK_SIZE
      modifies cache, this`inodes
      ensures Valid() && cache.disk == old(cache.disk) && inodes == old(inodes) && cache.peak <= Max(old(cache.peak), 2)
      ensures ReadResult(sb, cache.disk, inodes[slot].inum, off, len, dst)
    {
      hide CacheInv, HandlesOf, FsInv, Trees, IsChunk;
      FsInvFacts(sb, cache.disk, inodes, slot);
      var size := inodes[slot].disk.size;
      if off >= size {
        return [];
      }
      var end := Min(off + len, size);
      BytesOfFile(sb, cache.disk, inodes[slot].inum, off, off);
      dst := ReadLoop(slot, off, end);
      ChunkIsBytes(sb, cache.disk, inodes[slot].inum, off, end, dst);
      BytesOfFile(sb, cache.disk, inodes[slot].inum, off, end);
    }

    method ReadLoop(slot: nat, off: nat, end: nat) returns (dst: seq<byte>)
      requires Valid() && slot < N_INODE && inodes[slot].refcnt > 0 && off <= end < U32
      modifies cache, this`inodes
      ensures Valid() && cache.disk == old(cache.disk) && inodes == old(inodes) && cache.peak <= Max(old(cache.peak), 2)
      ensures IsChunk(sb, cache.disk, inodes[slot].inum, off, end - off, dst)
    {
      hide CacheInv, HandlesOf, FsInv, Trees, IsChunk, ChunkEnd;
      FsInvFacts(sb, cache.disk, inodes, slot);
      EmptyChunk(sb, cache.disk, inodes[slot].inum, off);
      dst := [];
      var cur := off;
      while cur < end
        invariant off <= cur <= end
        invariant Valid() && cache.disk == old(cache.disk) && inodes == old(inodes)
        invariant cache.peak <= Max(old(cache.peak), 2)
        invariant IsChunk(sb, cache.disk, inodes[slot].inum, off, cur - off, dst)
      {
        var copyLen := ChunkEnd(cur, end) - cur;
        var s := ReadChunk(slot, cur, copyLen);
        ChunkAppend(sb, cache.disk, inodes[slot].inum, off, cur, copyLen, dst, s);
        dst := dst + s;
        cur := cur + copyLen;
      }
    }

    /** One iteration of the write loop; `ok` is false for the out-of-blocks panic. */
    method WriteChunkAt(slot: nat, off: nat, s: seq<byte>) returns (ok: bool)
      requires Valid() && slot < N_INODE && inodes[slot].refcnt > 0
      requires off < MAX_BYTES && off % BLOCK_SIZE + |s| <= BLOCK_SIZE
      modifies cache, this`inodes
      ensures Valid() && cache.peak <= Max(old(cache.peak), 2)
      ensures inodes == old(inodes)[slot := old(inodes)[slot].(disk := inodes[slot].disk)]
      ensures ok ==> ChunkWritten(sb, old(cache.disk), cache.disk, inodes[slot].inum, off, off + |s|, s)
      ensures !ok ==> SameFiles(sb, old(cache.disk), cache.disk) && Full(sb, cache.disk)
    {
      hide CacheInv, HandlesOf, FsInv, Trees, SameFiles, InodeAt, LeafPos, ChunkWritten, Splice;
      FsInvFacts(sb, cache.disk, inodes, slot);
      var r := LocateOrAddBlock(slot, off / BLOCK_SIZE, true);
      if !r.Found? { return false; }
      WriteChunkStep(sb, old(cache.disk), cache.disk, inodes, slot, off, s, r);
      NoHandles(cache.buffers);
      var b := cache.Read(0, r.block);
      var data := cache.Data(b);
      cache.Commit(b, Splice(data, off % BLOCK_SIZE, s));
      return true;
    }

    /** `inode_write_data` of all of `src`; `ok` is false for the out-of-blocks panic. */
    method WriteData(slot: nat, off: nat, src: seq<byte>) returns (ok: bool)
      requires Valid() && slot < N_INODE && inodes[slot].refcnt > 0 && off + |src| <= U32 - BLOCK_SIZE
      modifies cache, this`inodes
      ensures Valid() && cache.peak <= Max(old(cache.peak), 2)
      ensures inodes == old(inodes)[slot := old(inodes)[slot].(disk := inodes[slot].disk)]
      ensures ok ==> WriteResult(sb, old(cache.disk), cache.disk, inodes[slot].inum, off, src)
      ensures !ok ==> Full(sb, cache.disk)
    {
      hide CacheInv, HandlesOf, FsInv, Trees, InodeAt, ChunkWritten, WriteResult, Stored;
      FsInvFacts(sb, cache.disk, inodes, slot);
      ok := WriteLoop(slot, off, src);
      if !ok { return; }
      FsInvFacts(sb, cache.disk, inodes, slot);
      SizeStep(sb, old(cache.disk), cache.disk, inodes, slot, off, src);
      var end := off + |src|;
      if end > inodes[slot].disk.size {
        inodes := inodes[slot := inodes[slot].(disk := inodes[slot].disk.(size := end))];
        InodeStore(slot);
      }
    }

    method WriteLoop(slot: nat, off: nat, src: seq<byte>) returns (ok: bool)
      requires Valid() && slot < N_INODE && inodes[slot].refcnt > 0 && off + |src| < U32
      modifies cache, this`inodes
      ensures Valid() && cache.peak <= Max(old(cache.peak), 2)
      ensures inodes == old(inodes)[slot := old(inodes)[slot].(disk := inodes[slot].disk)]
      ensures ok ==> ChunkWritten(sb, old(cache.disk), cache.disk, inodes[slot].inum, off, off + |src|, src)
      ensures !ok ==> Full(sb, cache.disk)
    {
      hide CacheInv, HandlesOf, FsInv, Trees, SameFiles, InodeAt, ChunkWritten, ChunkEnd;
      FsInvFacts(sb, cache.disk, inodes, slot);
      NothingWritten(sb, cache.disk, inodes[slot].inum, off, src);
      var end := off + |src|;
      var cur := off;
      while cur < end
        invariant off <= cur <= end
        invariant Valid() && cache.peak <= Max(old(cache.peak), 2) && |inodes| == N_INODE
        invariant inodes == old(inodes)[slot := old(inodes)[slot].(disk := inodes[slot].disk)]
        invariant ChunkWritten(sb, old(cache.disk), cache.disk, inodes[slot].inum, off, cur, src)
      {
        var next := ChunkEnd(cur, end);
        ghost var e := cache.disk;
        ok := WriteChunkAt(slot, cur, src[cur - off..next - off]);
        if !ok { return; }
        ChunkWrittenStep(sb, old(cache.disk), e, cache.disk, inodes[slot].inum, off, cur, next, src);
        cur := next;
      }
      return true;
    }

    // ----- free_data_blocks

    /** Free the entries of the index block `b` at place `pp`, then the block itself. */
    method FreeTable(b: nat, ghost pp: Pos, ghost d0: Disk, ghost n: nat)
      requires Ready() && |cache.active| <= 1 && !cache.Held(b) && !cache.Held(sb.bmap_start)
      requires Trees(sb, d0) && Live(sb, d0, n) && ValidPos(pp) && (pp.Single? || pp.Mid?)
      requires b == T(sb, d0, n, pp) != 0 && Freeing(sb, d0, cache.disk, n, FirstRank(pp))
      modifies cache
      ensures Ready() && cache.Handles() == old(cache.Handles()) && |cache.active| == |old(cache.active)|
      ensures cache.peak <= Max(old(cache.peak), |cache.active| + 2)
      ensures Freeing(sb, d0, cache.disk, n, Rank(pp) + 1)
    {
      hide CacheInv, HandlesOf, HeldIn, Trees, Freeing, T, Entry, Unmarked, FirstRank;
      EntryIsChild(sb, d0, n, pp, 0);
      FreeingKeeps(sb, d0, cache.disk, n, FirstRank(pp), b);
      var id := cache.Read(0, b);
      var data := cache.Data(id);
      ghost var held := cache.Handles();
      HeldAfterRead(old(cache.Handles()), held, id, b, data);
      for k := 0 to NINDIRECT
        invariant Ready() && cache.Handles() == held && |cache.active| == |old(cache.active)| + 1
        invariant cache.peak <= Max(old(cache.peak), |old(cache.active)| + 2)
        invariant Freeing(sb, d0, cache.disk, n, FirstRank(pp) + k)
      {
        FreeNext(sb, d0, cache.disk, n, pp, k);
        var blk := Entry(data, k);
        if blk != 0 {
          BitmapFree(blk);
        }
      }
      FreeingKeeps(sb, d0, cache.disk, n, FirstRank(pp) + NINDIRECT, b);
      cache.Release(id);
      ChildRank(pp, 0);
      FreeStep(sb, d0, cache.disk, n, pp);
      assert cache.Handles() == old(cache.Handles());
      BitmapFree(b);
    }

    /** The first loop of `free_data_blocks`: the direct blocks. */
    method FreeDirect(ix: seq<u32>, ghost n: nat) returns (index: seq<u32>)
      requires Idle() && Trees(sb, cache.disk) && Live(sb, cache.disk, n) && ix == InodeAt(sb, cache.disk, n).index
      modifies cache
      ensures Idle() && cache.peak <= Max(old(cache.peak), 1)
      ensures Freeing(sb, old(cache.disk), cache.disk, n, INODE_INDEX_1)
      ensures index == ClearedBelow(ix, INODE_INDEX_1)
    {
      hide CacheInv, HandlesOf, HeldIn, Trees, Freeing, InodeAt, Unmarked;
      ghost var d0 := cache.disk;
      FreeingStart(sb, d0, n);
      index := ix;
      for i := 0 to INODE_INDEX_1
        invariant Idle() && cache.peak <= Max(old(cache.peak), 1)
        invariant Freeing(sb, d0, cache.disk, n, i) && index == ClearedBelow(ix, i)
      {
        FreeNextDirect(sb, d0, cache.disk, n, i);
        NoHandles(cache.buffers);
        if index[i] != 0 {
          BitmapFree(index[i]);
          index := index[i := 0];
        }
      }
    }

    /** The last part of `free_data_blocks`: the double-indirect block. */
    method FreeDouble(l1: nat, ghost d0: Disk, ghost n: nat)
      requires Idle() && Trees(sb, d0) && Live(sb, d0, n)
      requires l1 == T(sb, d0, n, Double) != 0 && Freeing(sb, d0, cache.disk, n, FirstRank(Double))
      modifies cache
      ensures Idle() && cache.peak <= Max(old(cache.peak), 3)
      ensures Freeing(sb, d0, cache.disk, n, DOUBLE_RANK + 1)
    {
      hide CacheInv, HandlesOf, HeldIn, Trees, Freeing, T, Entry, Unmarked, FirstRank;
      EntryIsChild(sb, d0, n, Double, 0);
      FreeingKeeps(sb, d0, cache.disk, n, FirstRank(Double), l1);
      NoHandles(cache.buffers);
      var id := cache.Read(0, l1);
      var data := cache.Data(id);
      ghost var held := cache.Handles();
      HeldAfterRead(map[], held, id, l1, data);
      MidRanks(0);
      for i := 0 to NINDIRECT
        invariant Ready() && cache.Handles() == held && |cache.active| == 1
        invariant cache.peak <= Max(old(cache.peak), 3)
        invariant Freeing(sb, d0, cache.disk, n, FirstRank(Mid(i)))
      {
        EntryIsChild(sb, d0, n, Double, i);
        MidRanks(i);
        var l2 := Entry(data, i);
        if l2 != 0 {
          MidNotDouble(sb, d0, n, i);
          FreeTable(l2, Mid(i), d0, n);
        } else {
          SkipTable(sb, d0, cache.disk, n, Mid(i));
        }
      }
      MidRanks(NINDIRECT);
      FreeingKeeps(sb, d0, cache.disk, n, FirstRank(Mid(NINDIRECT)), l1);
      cache.Release(id);
      FreeStep(sb, d0, cache.disk, n, Double);
      assert |cache.active| == 0 && cache.active == [];
      NoHandles(cache.buffers);
      BitmapFree(l1);
    }

    /** `free_data_blocks`: unmark every block of the inode's tree and empty its root entries. */
    method FreeDataBlocks(slot: nat)
      requires Idle() && Trees(sb, cache.disk) && slot < |inodes|
      requires Live(sb, cache.disk, inodes[slot].inum)
      requires inodes[slot].disk == InodeAt(sb, cache.disk, inodes[slot].inum)
      modifies cache, this`inodes
      ensures Idle() && cache.peak <= Max(old(cache.peak), 3)
      ensures WellFormed(old(inodes)[slot].disk)
      ensures inodes == old(inodes)[slot := old(inodes)[slot].(disk :=
        old(inodes)[slot].disk.(index := Emptied(old(inodes)[slot].disk.index)))]
      ensures Freeing(sb, old(cache.disk), cache.disk, old(inodes)[slot].inum, DOUBLE_RANK + 1)
    {
      hide CacheInv, HandlesOf, HeldIn, Trees, Freeing, T, FirstRank, Rank, InodeAt;
      ghost var d0 := cache.disk;
      ghost var n := inodes[slot].inum;
      var ino := inodes[slot];
      RootEntries(sb, d0, n);
      var index := FreeDirect(ino.disk.index, n);
      FreeingLayout(sb, d0, cache.disk, n, INODE_INDEX_1);
      NoHandles(cache.buffers);
      if index[INODE_INDEX_1] != 0 {
        FreeTable(index[INODE_INDEX_1], Single, d0, n);
        assert cache.active == [];
        index := index[INODE_INDEX_1 := 0];
      } else {
        SkipTable(sb, d0, cache.disk, n, Single);
      }
      if index[INODE_INDEX_2] != 0 {
        FreeDouble(index[INODE_INDEX_2], d0, n);
        index := index[INODE_INDEX_2 := 0];
      } else {
        SkipTable(sb, d0, cache.disk, n, Double);
      }
      assert index == Emptied(ino.disk.index);
      inodes := inodes[slot := ino.(disk := ino.disk.(index := index))];
    }

    // ----- inode numbers and references

    /** `inode::alloc`: the lowest free inode number; `None` stands for the out-of-inodes panic. */
    method InodeAlloc() returns (r: Option<nat>)
      requires Idle()
      modifies cache
      ensures Idle() && cache.peak <= Max(old(cache.peak), 1)
      ensures r.None? ==> cache.disk == old(cache.disk) && NoFreeInode(sb, cache.disk)
      ensures r.Some? ==> r.value < sb.ninodes && !Live(sb, old(cache.disk), r.value)
                          && cache.disk == WithLive(sb, old(cache.disk), r.value)
    {
      hide CacheInv, HandlesOf, BitAt, SetBit;
      NoHandles(cache.buffers);
      var b := cache.Read(0, sb.inode_start - 1);
      var data := cache.Data(b);
      var bit := FirstClear(data);
      if bit.None? || bit.value >= sb.ninodes {
        cache.Release(b);
        return None;
      }
      cache.Commit(b, SetBit(data, bit.value));
      return bit;
    }

    /** `inode::free` of a live inode number. */
    method InodeFree(n: nat)
      requires Idle() && Live(sb, cache.disk, n)
      modifies cache
      ensures Idle() && cache.peak <= Max(old(cache.peak), 1)
      ensures cache.disk == WithoutLive(sb, old(cache.disk), n)
    {
      hide CacheInv, HandlesOf, BitAt, ClearBit;
      NoHandles(cache.buffers);
      var b := cache.Read(0, sb.inode_start - 1);
      var data := cache.Data(b);
      cache.Commit(b, ClearBit(data, n));
    }

    /** `inode_dup` */
    method InodeDup(slot: nat)
      requires Valid() && slot < N_INODE && inodes[slot].refcnt > 0
      modifies this`inodes
      ensures Valid() && inodes == old(inodes)[slot := old(inodes)[slot].(refcnt := old(inodes)[slot].refcnt + 1)]
    {
      hide CacheInv, Trees;
      RefStep(sb, cache.disk, inodes, slot, inodes[slot].refcnt + 1);
      hide Icache;
      inodes := inodes[slot := inodes[slot].(refcnt := inodes[slot].refcnt + 1)];
    }

    /** `inode_put`: drop a reference; the last one to an unlinked inode deletes it, tree and all. */
    method InodePut(slot: nat)
      requires Valid() && slot < N_INODE && inodes[slot].refcnt > 0
      modifies cache, this`inodes
      ensures Valid() && cache.peak <= Max(old(cache.peak), 3)
      ensures old(inodes)[slot].refcnt > 1 || old(inodes)[slot].disk.nlink > 0 ==>
        && cache.disk == old(cache.disk)
        && inodes == old(inodes)[slot := old(inodes)[slot].(refcnt := old(inodes)[slot].refcnt - 1)]
      ensures old(inodes)[slot].refcnt == 1 && old(inodes)[slot].disk.nlink == 0 ==>
        && Deleted(sb, old(cache.disk), cache.disk, old(inodes)[slot].inum)
        && inodes == old(inodes)[slot := inodes[slot]] && inodes[slot].refcnt == 0
    {
      hide CacheInv, HandlesOf, FsInv, Trees, Icache, Freeing, Deleted, InodeAt, Stored, WithoutLive;
      FsInvFacts(sb, cache.disk, inodes, slot);
      ghost var d0 := cache.disk;
      var n := inodes[slot].inum;
      ghost var was := inodes;
      DropStep(sb, cache.disk, inodes, slot);
      inodes := inodes[slot := inodes[slot].(refcnt := inodes[slot].refcnt - 1)];
      if inodes[slot].refcnt == 0 && inodes[slot].disk.nlink == 0 {
        FreeDataBlocks(slot);
        FreeingLive(sb, d0, cache.disk, n, DOUBLE_RANK + 1);
        ghost var d := cache.disk;
        InodeFree(n);
        inodes := inodes[slot := inodes[slot].(disk := inodes[slot].disk.(size := 0, kind := 0))];
        ghost var ino := inodes[slot].disk;
        InodeStore(slot);
        inodes := inodes[slot := inodes[slot].(valid := false, inum := 0)];
        DeleteStep(sb, d0, d, was, slot, ino, inodes[slot]);
        assert inodes == was[slot := inodes[slot]];
      }
    }

    /** `inode_get` of a live inode: the cached copy with one more reference, or a free slot loaded from disk. */
    method InodeGet(n: nat) returns (r: Option<nat>)
      requires Idle() && Icache(sb, cache.disk, inodes) && Live(sb, cache.disk, n)
      modifies cache, this`inodes
      ensures Idle() && cache.peak <= Max(old(cache.peak), 1) && cache.disk == old(cache.disk)
      ensures Icache(sb, cache.disk, inodes)
      ensures r.None? ==> NotCached(inodes, n) && inodes == old(inodes) && NoFreeSlot(inodes)
      ensures r.Some? ==> r.value < N_INODE == |old(inodes)|
      ensures r.Some? && NotCached(old(inodes), n) ==>
        && old(inodes)[r.value].refcnt == 0
        && inodes == old(inodes)[r.value := Inode(InodeAt(sb, cache.disk, n), true, n, 1)]
      ensures r.Some? && !NotCached(old(inodes), n) ==>
        && old(inodes)[r.value].refcnt > 0 && old(inodes)[r.value].inum == n
        && inodes == old(inodes)[r.value := old(inodes)[r.value].(refcnt := old(inodes)[r.value].refcnt + 1)]
    {
      hide CacheInv, HandlesOf, InodeAt;
      for i := 0 to N_INODE
        invariant forall s :: 0 <= s < i ==> !(inodes[s].refcnt > 0 && inodes[s].inum == n && inodes[s].valid)
      {
        if inodes[i].refcnt > 0 && inodes[i].inum == n && inodes[i].valid {
          RefStep(sb, cache.disk, inodes, i, inodes[i].refcnt + 1);
          inodes := inodes[i := inodes[i].(refcnt := inodes[i].refcnt + 1)];
          return Some(i);
        }
      }
      for i := 0 to N_INODE
        invariant forall s :: 0 <= s < i ==> inodes[s].refcnt > 0
      {
        if inodes[i].refcnt == 0 {
          GetStep(sb, cache.disk, inodes, i, n);
          FillSlot(i, n);
          return Some(i);
        }
      }
      return None;
    }

    /** Load inode `n` into the free slot `i`. */
    method FillSlot(i: nat, n: nat)
      requires Idle() && i < |inodes| && n < sb.ninodes
      modifies cache, this`inodes
      ensures Idle() && cache.peak <= Max(old(cache.peak), 1) && cache.disk == old(cache.disk)
      ensures inodes == old(inodes)[i := Inode(InodeAt(sb, cache.disk, n), true, n, 1)]
    {
      hide CacheInv, HandlesOf, InodeAt;
      inodes := inodes[i := inodes[i].(inum := n, valid := false, refcnt := 1)];
      InodeLoad(i);
      inodes := inodes[i := inodes[i].(valid := true)];
    }

    /** `inode_create`: a new empty inode with one link and one reference; `None` stands for its exhaustion panics. */
    method InodeCreate(kind: u16, major: u16, minor: u16) returns (r: Option<nat>)
      requires Valid()
      modifies cache, this`inodes
      ensures cache.peak <= Max(old(cache.peak), 1) && |cache.disk| == |old(cache.disk)|
      ensures r.Some? ==>
        && Valid() && r.value < N_INODE && |old(inodes)| == N_INODE && old(inodes)[r.value].refcnt == 0
        && inodes == old(inodes)[r.value := inodes[r.value]] && inodes[r.value].refcnt == 1
        && inodes[r.value].disk == InodeDisk(kind, major, minor, 1, 0, seq(NINDEX, _ => 0))
        && inodes[r.value].valid && !Live(sb, old(cache.disk), inodes[r.value].inum)
        && Created(sb, old(cache.disk), cache.disk, inodes[r.value].inum)
      ensures r.None? ==> inodes == old(inodes) && (NoFreeInode(sb, old(cache.disk)) || NoFreeSlot(inodes))
      ensures r.None? ==> NoFreeInode(sb, cache.disk) || NoFreeSlot(inodes)
    {
      hide CacheInv, HandlesOf, Trees, Icache, InodeAt, Stored, WithLive, Created;
      var a := InodeAlloc();
      if a.None? { return None; }
      var n := a.value;
      IcacheMoreLive(sb, old(cache.disk), inodes, n);
      NowLive(sb, old(cache.disk), n);
      r := InodeGet(n);
      IcacheSize(sb, cache.disk, inodes);
      if r.None? { return None; }
      var ino := InodeDisk(kind, major, minor, 1, 0, seq(NINDEX, _ => 0));
      CreateStep(sb, old(cache.disk), old(inodes), r.value, n, ino);
      inodes := inodes[r.value := inodes[r.value].(disk := ino)];
      assert inodes == old(inodes)[r.value := Inode(ino, true, n, 1)];
      InodeStore(r.value);
    }

    /** A new link count, stored as `link` and `unlink` do. */
    method SetNlink(slot: nat, nlink: u16)
      requires Valid() && slot < N_INODE && inodes[slot].refcnt > 0
      modifies cache, this`inodes
      ensures Valid() && cache.peak <= Max(old(cache.peak), 1)
      ensures |old(inodes)| == N_INODE
      ensures inodes == old(inodes)[slot := old(inodes)[slot].(disk := old(inodes)[slot].disk.(nlink := nlink))]
      ensures MetaSet(sb, old(cache.disk), cache.disk, old(inodes)[slot].inum, inodes[slot].disk)
    {
      hide CacheInv, HandlesOf, FsInv, Trees, InodeAt, Stored, MetaSet;
      FsInvFacts(sb, cache.disk, inodes, slot);
      MetaStep(sb, cache.disk, inodes, slot, inodes[slot].disk.(nlink := nlink));
      inodes := inodes[slot := inodes[slot].(disk := inodes[slot].disk.(nlink := nlink))];
      InodeStore(slot);
    }

    /** Size 0, stored as `open` with truncation does; the blocks stay where they are. */
    method Truncate(slot: nat)
      requires Valid() && slot < N_INODE && inodes[slot].refcnt > 0
      modifies cache, this`inodes
      ensures Valid() && cache.peak <= Max(old(cache.peak), 1)
      ensures |old(inodes)| == N_INODE
      ensures inodes == old(inodes)[slot := old(inodes)[slot].(disk := old(inodes)[slot].disk.(size := 0))]
      ensures MetaSet(sb, old(cache.disk), cache.disk, old(inodes)[slot].inum, inodes[slot].disk)
    {
      hide CacheInv, HandlesOf, FsInv, Trees, InodeAt, Stored, MetaSet;
      FsInvFacts(sb, cache.disk, inodes, slot);
      MetaStep(sb, cache.disk, inodes, slot, inodes[slot].disk.(size := 0));
      inodes := inodes[slot := inodes[slot].(disk := inodes[slot].disk.(size := 0))];
      InodeStore(slot);
    }
  }

  /** Inode `n` is `ino` on `e`; all other inodes and all bytes and blocks of trees are as on `d`. */
  ghost predicate MetaSet(sb: SuperBlock, d: Disk, e: Disk, n: nat, ino: InodeDisk) {
    && Layout(sb, |d|) && |e| == |d| && SameLive(sb, d, e) && SameBytes(sb, d, e) && PlacesKept(sb, d, e)
    && forall m :: Live(sb, d, m) ==> InodeAt(sb, e, m) == if m == n then ino else InodeAt(sb, d, m)
  }

  lemma MetaStep(sb: SuperBlock, d: Disk, inodes: seq<Inode>, slot: nat, ino: InodeDisk)
    requires FsInv(sb, d, inodes) && slot < N_INODE && inodes[slot].refcnt > 0 && ino.index == inodes[slot].disk.index
    ensures var n := inodes[slot].inum;
      && n < sb.ninodes && WellFormed(ino)
      && FsInv(sb, Stored(sb, d, n, ino), inodes[slot := inodes[slot].(disk := ino)])
      && MetaSet(sb, d, Stored(sb, d, n, ino), n, ino)
  {
    FsInvFacts(sb, d, inodes, slot);
    StoreMeta(sb, d, inodes[slot].inum, ino);
    IcacheStored(sb, d, inodes, slot, ino);
    hide Icache, Trees, InodeAt, Stored, SameBytes;
  }
}
