/**
  Directories (kernel/src/fs/dentry.rs): a directory's file is an array of 64-byte entries that refines a finite map
  from 60-byte names to inode numbers.
*/
module Directory {
  import opened Base
  import opened Names
  import opened DiskFormat
  import opened FileTree
  import opened FileBytes
  import opened FileSystem
  import opened BufferCache

  const DENTRY_SIZE := 64

  ghost function Count(f: seq<byte>): nat { |f| / DENTRY_SIZE }

  /** Entry `i` of a directory file. */
  function EntryBytes(f: seq<byte>, i: nat): (e: seq<byte>)
    requires DENTRY_SIZE * i + DENTRY_SIZE <= |f|
    ensures |e| == DENTRY_SIZE
  {
    f[DENTRY_SIZE * i..DENTRY_SIZE * i + DENTRY_SIZE]
  }

  predicate IsUsed(e: seq<byte>)
    requires |e| == DENTRY_SIZE
  {
    e[0] != 0
  }

  function NameOf(e: seq<byte>): (k: seq<byte>)
    requires |e| == DENTRY_SIZE
    ensures |k| == MAXLEN_FILENAME
  {
    e[..MAXLEN_FILENAME]
  }

  function InumOf(e: seq<byte>): (n: u32)
    requires |e| == DENTRY_SIZE
  {
    Rd32(e, MAXLEN_FILENAME)
  }

  /** Used entry `i` of `f` has name `k`. */
  ghost predicate NamedAt(f: seq<byte>, i: nat, k: seq<byte>) {
    i < Count(f) && IsUsed(EntryBytes(f, i)) && NameOf(EntryBytes(f, i)) == k
  }

  /** A well-formed directory: whole entries, no name twice. */
  ghost predicate DirFile(f: seq<byte>) {
    && |f| % DENTRY_SIZE == 0
    && forall i, j, k :: NamedAt(f, i, k) && NamedAt(f, j, k) ==> i == j
  }

  /** The finite map a directory stands for. */
  ghost function Dir(f: seq<byte>): (m: map<seq<byte>, nat>)
    requires DirFile(f)
  {
    map i | 0 <= i < Count(f) && NamedAt(f, i, NameOf(EntryBytes(f, i)))
      :: NameOf(EntryBytes(f, i)) := InumOf(EntryBytes(f, i))
  }

  lemma DirHas(f: seq<byte>, i: nat, k: seq<byte>)
    requires DirFile(f) && NamedAt(f, i, k)
    ensures k in Dir(f) && Dir(f)[k] == InumOf(EntryBytes(f, i))
  {
  }

  lemma DirFrom(f: seq<byte>, k: seq<byte>) returns (i: nat)
    requires DirFile(f) && k in Dir(f)
    ensures NamedAt(f, i, k)
  {
    i :| NamedAt(f, i, k);
  }

  /** `g` is `f` with entry `i` set to `e`, `i` being an entry of `f` or the one just behind the end. */
  ghost predicate EntrySet(f: seq<byte>, g: seq<byte>, i: nat, e: seq<byte>) {
    && |f| % DENTRY_SIZE == 0 && i <= Count(f) && |e| == DENTRY_SIZE
    && |g| == (if i == Count(f) then |f| + DENTRY_SIZE else |f|)
    && (forall j :: 0 <= j < Count(g) ==> EntryBytes(g, j) == if j == i then e else EntryBytes(f, j))
  }

  /** Writing an entry at its offset sets exactly that entry. */
  lemma OverwriteEntry(f: seq<byte>, i: nat, e: seq<byte>)
    requires |f| % DENTRY_SIZE == 0 && i <= Count(f) && |e| == DENTRY_SIZE
    ensures EntrySet(f, Overwrite(f, DENTRY_SIZE * i, e), i, e)
  {
    var g := Overwrite(f, DENTRY_SIZE * i, e);
    OverwriteAt(f, DENTRY_SIZE * i, e);
    hide Overwrite;
    forall j | 0 <= j < Count(g) ensures EntryBytes(g, j) == if j == i then e else EntryBytes(f, j) {
      if j == i {
        forall x | 0 <= x < DENTRY_SIZE ensures EntryBytes(g, j)[x] == e[x] {}
      } else {
        forall x | 0 <= x < DENTRY_SIZE ensures EntryBytes(g, j)[x] == EntryBytes(f, j)[x] {}
      }
    }
  }

  lemma NamedSet(f: seq<byte>, g: seq<byte>, i: nat, e: seq<byte>, j: nat, k: seq<byte>)
    requires EntrySet(f, g, i, e)
    ensures NamedAt(g, j, k) == if j == i then IsUsed(e) && NameOf(e) == k else NamedAt(f, j, k)
  {
  }

  lemma HoleUnnamed(f: seq<byte>, i: nat, k: seq<byte>)
    requires i < Count(f) ==> !IsUsed(EntryBytes(f, i))
    ensures !NamedAt(f, i, k)
  {
  }

  lemma OneName(f: seq<byte>, i: nat, k: seq<byte>, l: seq<byte>)
    requires NamedAt(f, i, k) && k != l
    ensures !NamedAt(f, i, l)
  {
  }

  lemma UniqueName(f: seq<byte>, i: nat, j: nat, k: seq<byte>)
    requires DirFile(f) && NamedAt(f, i, k) && NamedAt(f, j, k)
    ensures i == j
  {
  }

  /** No name twice, given that the new entry's name is new. */
  lemma StillDirFile(f: seq<byte>, g: seq<byte>, i: nat, e: seq<byte>)
    requires DirFile(f) && EntrySet(f, g, i, e)
    requires IsUsed(e) ==> forall j :: j != i ==> !NamedAt(f, j, NameOf(e))
    ensures DirFile(g)
  {
    forall a, b, k | NamedAt(g, a, k) && NamedAt(g, b, k) ensures a == b {
      NamedSet(f, g, i, e, a, k);
      NamedSet(f, g, i, e, b, k);
    }
  }

  /** Entries other than the one that was set keep their bindings. */
  lemma KeptBinding(f: seq<byte>, g: seq<byte>, i: nat, e: seq<byte>, k: seq<byte>)
    requires DirFile(f) && DirFile(g) && EntrySet(f, g, i, e) && !NamedAt(f, i, k) && (IsUsed(e) ==> NameOf(e) != k)
    ensures k in Dir(f) <==> k in Dir(g)
    ensures k in Dir(f) ==> Dir(g)[k] == Dir(f)[k]
  {
    hide Dir, NamedAt;
    if k in Dir(f) {
      var j := DirFrom(f, k);
      NamedSet(f, g, i, e, j, k);
      DirHas(f, j, k);
      DirHas(g, j, k);
    }
    if k in Dir(g) {
      var j := DirFrom(g, k);
      NamedSet(f, g, i, e, j, k);
      DirHas(f, j, k);
    }
  }

  /** Filling a hole or appending adds one binding; an entry whose name starts with NUL stays a hole. */
  lemma AddEntry(f: seq<byte>, g: seq<byte>, i: nat, e: seq<byte>)
    requires DirFile(f) && EntrySet(f, g, i, e) && (i < Count(f) ==> !IsUsed(EntryBytes(f, i)))
    requires NameOf(e) !in Dir(f)
    ensures DirFile(g)
    ensures Dir(g) == if IsUsed(e) then Dir(f)[NameOf(e) := InumOf(e)] else Dir(f)
  {
    hide Dir, NamedAt, DirFile, EntryBytes;
    assert |e| == DENTRY_SIZE;
    hide EntrySet;
    forall k ensures !NamedAt(f, i, k) { HoleUnnamed(f, i, k); }
    forall j | NamedAt(f, j, NameOf(e)) ensures false { DirHas(f, j, NameOf(e)); }
    StillDirFile(f, g, i, e);
    forall k | !(IsUsed(e) && k == NameOf(e))
      ensures (k in Dir(f) <==> k in Dir(g)) && (k in Dir(f) ==> Dir(g)[k] == Dir(f)[k])
    {
      KeptBinding(f, g, i, e, k);
    }
    if IsUsed(e) {
      NamedSet(f, g, i, e, i, NameOf(e));
      DirHas(g, i, NameOf(e));
    }
  }

  /** Zeroing a used entry removes exactly its binding. */
  lemma RemoveEntry(f: seq<byte>, g: seq<byte>, i: nat, e: seq<byte>, key: seq<byte>)
    requires DirFile(f) && NamedAt(f, i, key) && EntrySet(f, g, i, e) && !IsUsed(e)
    ensures DirFile(g) && Dir(g) == Dir(f) - {key}
  {
    hide Dir, NamedAt, DirFile, EntryBytes;
    assert |e| == DENTRY_SIZE;
    hide EntrySet;
    forall k | k != key ensures !NamedAt(f, i, k) { OneName(f, i, key, k); }
    StillDirFile(f, g, i, e);
    forall k | k != key ensures (k in Dir(f) <==> k in Dir(g)) && (k in Dir(f) ==> Dir(g)[k] == Dir(f)[k]) {
      KeptBinding(f, g, i, e, k);
    }
    assert key !in Dir(g) by {
      if key in Dir(g) {
        var j := DirFrom(g, key);
        NamedSet(f, g, i, e, j, key);
        if j != i { UniqueName(f, i, j, key); }
      }
    }
  }

  /** The byte-by-byte comparison of the search loops: equality with the padded name. */
  method NameMatches(dentryName: seq<byte>, name: seq<byte>) returns (same: bool)
    requires |dentryName| == MAXLEN_FILENAME
    ensures same <==> dentryName == Key(name)
  {
    for i := 0 to MAXLEN_FILENAME
      invariant forall j :: 0 <= j < i ==> dentryName[j] == Key(name)[j]
    {
      if |name| > i {
        if dentryName[i] != name[i] { return false; }
      } else if dentryName[i] != 0 {
        return false;
      }
    }
    return true;
  }

  // ----- the operations, on the directory's inode

  /** Inode `n` is a directory whose file leaves room for one more entry within 32-bit offsets. */
  ghost predicate DirAt(sb: SuperBlock, d: Disk, n: nat) {
    && Layout(sb, |d|) && n < sb.ninodes
    && DirFile(File(sb, d, n)) && |File(sb, d, n)| + DENTRY_SIZE <= U32 - BLOCK_SIZE
  }

  /** The file of inode `n` has no holes. */
  ghost predicate Dense(sb: SuperBlock, d: Disk, n: nat)
    requires Layout(sb, |d|) && n < sb.ninodes
  {
    forall lbn: nat :: lbn < MAX_LBN && lbn * BLOCK_SIZE < InodeAt(sb, d, n).size ==> T(sb, d, n, LeafPos(lbn)) != 0
  }

  /** The block of logical block `lbn`. */
  ghost function LeafBlock(sb: SuperBlock, d: Disk, n: nat, lbn: nat): nat
    requires Layout(sb, |d|) && n < sb.ninodes && lbn < MAX_LBN
  {
    T(sb, d, n, LeafPos(lbn))
  }

  /** The blocks of the first `k` logical blocks. */
  ghost function FirstBlocks(sb: SuperBlock, d: Disk, n: nat, k: nat): set<nat>
    requires Layout(sb, |d|) && n < sb.ninodes && k <= MAX_LBN
  {
    if k == 0 then {} else FirstBlocks(sb, d, n, k - 1) + {LeafBlock(sb, d, n, k - 1)}
  }

  lemma {:induction false} NotInFirst(sb: SuperBlock, d: Disk, n: nat, k: nat, b: nat)
    requires Layout(sb, |d|) && n < sb.ninodes && k <= MAX_LBN
    requires forall j: nat :: j < k ==> LeafBlock(sb, d, n, j) != b
    ensures b !in FirstBlocks(sb, d, n, k)
  {
    hide LeafBlock;
    if k > 0 { NotInFirst(sb, d, n, k - 1, b); }
  }

  lemma LeafBlockApart(sb: SuperBlock, d: Disk, n: nat, j: nat, k: nat)
    requires Trees(sb, d) && Live(sb, d, n) && j < k < MAX_LBN && LeafBlock(sb, d, n, k) != 0
    ensures LeafBlock(sb, d, n, j) != LeafBlock(sb, d, n, k)
  {
    TreeBlocksAreData(sb, d, n, LeafPos(k));
    if LeafPos(j) == LeafPos(k) { LeafPosInjective(j, k); }
    hide LeafPos;
  }

  lemma LeafBlockIsData(sb: SuperBlock, d: Disk, n: nat, k: nat)
    requires Trees(sb, d) && Live(sb, d, n) && k < MAX_LBN && LeafBlock(sb, d, n, k) != 0
    ensures IsData(sb, LeafBlock(sb, d, n, k))
  {
    TreeBlocksAreData(sb, d, n, LeafPos(k));
  }

  /** The first `k` logical blocks lie in the data area and no two of them share a block. */
  ghost predicate Spread(sb: SuperBlock, d: Disk, n: nat, k: nat)
    requires Layout(sb, |d|) && n < sb.ninodes && k <= MAX_LBN
  {
    && (forall j: nat :: j < k ==> IsData(sb, LeafBlock(sb, d, n, j)))
    && (forall i: nat, j: nat :: i < j < k ==> LeafBlock(sb, d, n, i) != LeafBlock(sb, d, n, j))
  }

  lemma SpreadOut(sb: SuperBlock, d: Disk, n: nat, k: nat)
    requires Trees(sb, d) && Live(sb, d, n) && k <= MAX_LBN
    requires forall j: nat :: j < k ==> LeafBlock(sb, d, n, j) != 0
    ensures Spread(sb, d, n, k)
  {
    assert n < sb.ninodes;
    hide LeafBlock, TreesMarked, TreesDisjoint, Live;
    forall j: nat | j < k ensures IsData(sb, LeafBlock(sb, d, n, j)) { LeafBlockIsData(sb, d, n, j); }
    forall i: nat, j: nat | i < j < k ensures LeafBlock(sb, d, n, i) != LeafBlock(sb, d, n, j) {
      LeafBlockApart(sb, d, n, i, j);
    }
  }

  lemma {:induction false} FirstBlocksCount(sb: SuperBlock, d: Disk, n: nat, k: nat)
    requires Layout(sb, |d|) && n < sb.ninodes && k <= MAX_LBN && Spread(sb, d, n, k)
    ensures |FirstBlocks(sb, d, n, k)| == k
    ensures forall b :: b in FirstBlocks(sb, d, n, k) ==> IsData(sb, b)
  {
    hide LeafBlock, IsData;
    if k > 0 {
      FirstBlocksCount(sb, d, n, k - 1);
      NotInFirst(sb, d, n, k - 1, LeafBlock(sb, d, n, k - 1));
    }
  }

  /** The numbers [lo, lo + k). */
  ghost function Range(lo: nat, k: nat): (s: set<nat>)
    ensures |s| == k && forall b: nat :: b in s <==> lo <= b < lo + k
  {
    if k == 0 then {} else Range(lo, k - 1) + {lo + k - 1}
  }

  /** A file without holes fits into the data area, so that offsets in a directory never overflow. */
  lemma DenseBound(sb: SuperBlock, d: Disk, n: nat)
    requires Trees(sb, d) && Live(sb, d, n) && Dense(sb, d, n)
    ensures InodeAt(sb, d, n).size <= sb.nblocks * BLOCK_SIZE
  {
    var size := InodeAt(sb, d, n).size;
    var k := (size + BLOCK_SIZE - 1) / BLOCK_SIZE;
    forall lbn: nat | lbn < k ensures lbn < MAX_LBN && LeafBlock(sb, d, n, lbn) != 0 {
      assert lbn * BLOCK_SIZE < size;
    }
    hide LeafBlock, Trees, FirstBlocks, Dense, Range, Spread;
    SpreadOut(sb, d, n, k);
    FirstBlocksCount(sb, d, n, k);
    var blocks, data := FirstBlocks(sb, d, n, k), Range(DataStart(sb), sb.nblocks);
    assert data == blocks + (data - blocks);
  }

  lemma DirReady(sb: SuperBlock, d: Disk, n: nat)
    requires Trees(sb, d) && Live(sb, d, n) && DirFile(File(sb, d, n)) && Dense(sb, d, n)
    ensures DirAt(sb, d, n)
  {
    DenseBound(sb, d, n);
  }

  /** The map of directory `n`. */
  ghost function DirMap(sb: SuperBlock, d: Disk, n: nat): map<seq<byte>, nat>
    requires DirAt(sb, d, n)
  {
    Dir(File(sb, d, n))
  }

  /** Reading 64 bytes at the offset of entry `i` yields entry `i`. */
  lemma ReadEntry(sb: SuperBlock, d: Disk, n: nat, i: nat, buf: seq<byte>)
    requires DirAt(sb, d, n) && i < Count(File(sb, d, n))
    requires ReadResult(sb, d, n, DENTRY_SIZE * i, DENTRY_SIZE, buf)
    ensures |buf| == DENTRY_SIZE && buf == EntryBytes(File(sb, d, n), i)
  {
  }

  /** Entries below `i` do not carry name `k`. */
  ghost predicate NotBefore(f: seq<byte>, i: nat, k: seq<byte>) {
    forall j :: 0 <= j < i ==> !NamedAt(f, j, k)
  }

  lemma NotBeforeStep(f: seq<byte>, i: nat, k: seq<byte>)
    requires NotBefore(f, i, k) && i < Count(f)
    requires !(IsUsed(EntryBytes(f, i)) && NameOf(EntryBytes(f, i)) == k)
    ensures NotBefore(f, i + 1, k)
  {
  }

  lemma FoundAt(f: seq<byte>, i: nat, k: seq<byte>)
    requires DirFile(f) && i < Count(f) && IsUsed(EntryBytes(f, i)) && NameOf(EntryBytes(f, i)) == k
    ensures NamedAt(f, i, k) && k in Dir(f) && Dir(f)[k] == InumOf(EntryBytes(f, i))
  {
    DirHas(f, i, k);
  }

  lemma NotFound(f: seq<byte>, k: seq<byte>)
    requires DirFile(f) && NotBefore(f, Count(f), k)
    ensures k !in Dir(f)
  {
    if k in Dir(f) {
      var i := DirFrom(f, k);
    }
  }

  /** The loop shared by search and delete: the used entry with the given name. */
  method FindEntry(fs: Fs, slot: nat, name: seq<byte>) returns (r: Option<nat>, inum: nat)
    requires fs.Valid() && slot < N_INODE && fs.inodes[slot].refcnt > 0
    requires DirAt(fs.sb, fs.cache.disk, fs.inodes[slot].inum)
    modifies fs, fs.cache
    ensures fs.Valid() && fs.cache.disk == old(fs.cache.disk) && fs.inodes == old(fs.inodes)
    ensures fs.cache.peak <= Max(old(fs.cache.peak), 2)
    ensures var f := File(fs.sb, fs.cache.disk, fs.inodes[slot].inum);
      if r.None? then Key(name) !in Dir(f)
      else NamedAt(f, r.value, Key(name)) && Key(name) in Dir(f) && Dir(f)[Key(name)] == inum
  {
    hide CacheInv, HandlesOf, FsInv, File, Dir, NamedAt, ReadResult, NotBefore, Key, DirFile, InodeAt;
    FsInvFacts(fs.sb, fs.cache.disk, fs.inodes, slot);
    ghost var n := fs.inodes[slot].inum;
    ghost var f := File(fs.sb, fs.cache.disk, n);
    var size := fs.inodes[slot].disk.size;
    FileSize(fs.sb, fs.cache.disk, n);
    NothingBefore(f, Key(name));
    var off, i := 0, 0;
    while off < size
      invariant fs.Valid() && fs.cache.disk == old(fs.cache.disk) && fs.inodes == old(fs.inodes)
      invariant fs.cache.peak <= Max(old(fs.cache.peak), 2)
      invariant off == DENTRY_SIZE * i <= size && NotBefore(f, i, Key(name))
      decreases size - off
    {
      assert i < Count(f);
      var buf := fs.ReadData(slot, off, DENTRY_SIZE);
      ReadEntry(fs.sb, fs.cache.disk, n, i, buf);
      if IsUsed(buf) {
        var same := NameMatches(NameOf(buf), name);
        if same {
          FoundAt(f, i, Key(name));
          return Some(i), InumOf(buf);
        }
      }
      NotBeforeStep(f, i, Key(name));
      off, i := off + DENTRY_SIZE, i + 1;
    }
    NotFound(f, Key(name));
    return None, 0;
  }

  lemma FileSize(sb: SuperBlock, d: Disk, n: nat)
    requires DirAt(sb, d, n)
    ensures |File(sb, d, n)| == InodeAt(sb, d, n).size && |File(sb, d, n)| % DENTRY_SIZE == 0
  {
  }

  lemma NothingBefore(f: seq<byte>, k: seq<byte>)
    ensures NotBefore(f, 0, k)
  {
  }

  /** `dentry_search`: lookup in the map. */
  method DentrySearch(fs: Fs, slot: nat, name: seq<byte>) returns (r: Option<nat>)
    requires fs.Valid() && slot < N_INODE && fs.inodes[slot].refcnt > 0
    requires DirAt(fs.sb, fs.cache.disk, fs.inodes[slot].inum)
    modifies fs, fs.cache
    ensures fs.Valid() && fs.cache.disk == old(fs.cache.disk) && fs.inodes == old(fs.inodes)
    ensures fs.cache.peak <= Max(old(fs.cache.peak), 2)
    ensures var m := DirMap(fs.sb, fs.cache.disk, fs.inodes[slot].inum);
      r == if Key(name) in m then Some(m[Key(name)]) else None
  {
    hide CacheInv, HandlesOf, FsInv, File, Dir, NamedAt, DirFile, InodeAt;
    var e, inum := FindEntry(fs, slot, name);
    return if e.Some? then Some(inum) else None;
  }

  /** The scan of `dentry_create`: the first hole, or the end of the file. */
  method FindHole(fs: Fs, slot: nat) returns (i: nat)
    requires fs.Valid() && slot < N_INODE && fs.inodes[slot].refcnt > 0
    requires DirAt(fs.sb, fs.cache.disk, fs.inodes[slot].inum)
    modifies fs, fs.cache
    ensures fs.Valid() && fs.cache.disk == old(fs.cache.disk) && fs.inodes == old(fs.inodes)
    ensures fs.cache.peak <= Max(old(fs.cache.peak), 2)
    ensures var f := File(fs.sb, fs.cache.disk, fs.inodes[slot].inum);
      i <= Count(f) && (i < Count(f) ==> !IsUsed(EntryBytes(f, i)))
  {
    hide CacheInv, HandlesOf, FsInv, File, ReadResult, DirFile, InodeAt;
    FsInvFacts(fs.sb, fs.cache.disk, fs.inodes, slot);
    ghost var n := fs.inodes[slot].inum;
    ghost var f := File(fs.sb, fs.cache.disk, n);
    var size := fs.inodes[slot].disk.size;
    FileSize(fs.sb, fs.cache.disk, n);
    var off := 0;
    i := 0;
    while off < size
      invariant fs.Valid() && fs.cache.disk == old(fs.cache.disk) && fs.inodes == old(fs.inodes)
      invariant fs.cache.peak <= Max(old(fs.cache.peak), 2)
      invariant off == DENTRY_SIZE * i <= size
      decreases size - off
    {
      var buf := fs.ReadData(slot, off, DENTRY_SIZE);
      ReadEntry(fs.sb, fs.cache.disk, n, i, buf);
      if buf[0] == 0 {
        return;
      }
      off, i := off + DENTRY_SIZE, i + 1;
    }
  }

  /**
    The directory `n` of `d` stands for `m` on `e`; every other file, all kinds and link counts, all blocks of trees and
    the zero tails are as they were.
  */
  ghost predicate DirBecomes(sb: SuperBlock, d: Disk, e: Disk, n: nat, m: map<seq<byte>, nat>) {
    && Layout(sb, |d|) && |e| == |d| && n < sb.ninodes && SameLive(sb, d, e) && PlacesKept(sb, d, e)
    && DirFile(File(sb, e, n)) && Dir(File(sb, e, n)) == m
    && (forall k :: Live(sb, d, k) && k != n ==> File(sb, e, k) == File(sb, d, k))
    && (forall k :: Live(sb, d, k) ==> SameMetaBut(InodeAt(sb, d, k), InodeAt(sb, e, k), InodeAt(sb, e, k).size))
    && (Tails(sb, d) ==> Tails(sb, e)) && (Dense(sb, d, n) ==> Dense(sb, e, n))
  }

  lemma DirStays(sb: SuperBlock, d: Disk, n: nat)
    requires DirAt(sb, d, n)
    ensures DirBecomes(sb, d, d, n, DirMap(sb, d, n))
  {
  }

  /** Writing an entry leaves no hole: the block it lies in is there afterwards. */
  lemma StillDense(sb: SuperBlock, d: Disk, e: Disk, n: nat, i: nat, x: seq<byte>)
    requires DirAt(sb, d, n) && Live(sb, d, n) && i <= Count(File(sb, d, n)) && |x| == DENTRY_SIZE
    requires WriteResult(sb, d, e, n, DENTRY_SIZE * i, x) && Dense(sb, d, n)
    ensures Dense(sb, e, n)
  {
    FileSize(sb, d, n);
    hide File, DirFile, T, InodeAt, LeafPos;
    var off, size := DENTRY_SIZE * i, InodeAt(sb, d, n).size;
    forall lbn: nat | lbn < MAX_LBN && lbn * BLOCK_SIZE < InodeAt(sb, e, n).size
      ensures T(sb, e, n, LeafPos(lbn)) != 0
    {
      if lbn * BLOCK_SIZE >= size {
        var o := lbn * BLOCK_SIZE;
        assert off <= o < off + DENTRY_SIZE && o / BLOCK_SIZE == lbn;
      }
    }
  }

  /** Writing entry `i` through the file system sets entry `i` of the directory's file. */
  lemma WriteEntry(sb: SuperBlock, d: Disk, e: Disk, n: nat, i: nat, x: seq<byte>)
    requires DirAt(sb, d, n) && Live(sb, d, n) && i <= Count(File(sb, d, n)) && |x| == DENTRY_SIZE
    requires WriteResult(sb, d, e, n, DENTRY_SIZE * i, x)
    ensures |e| == |d| && EntrySet(File(sb, d, n), File(sb, e, n), i, x) && SameLive(sb, d, e) && PlacesKept(sb, d, e)
    ensures forall k :: Live(sb, d, k) && k != n ==> File(sb, e, k) == File(sb, d, k)
    ensures forall k :: Live(sb, d, k) ==> SameMetaBut(InodeAt(sb, d, k), InodeAt(sb, e, k), InodeAt(sb, e, k).size)
    ensures Tails(sb, d) ==> Tails(sb, e)
    ensures Dense(sb, d, n) ==> Dense(sb, e, n)
  {
    hide File, Overwrite, InodeAt, DirFile, T, Tails, Dense;
    if Dense(sb, d, n) { StillDense(sb, d, e, n, i, x); }
    FileSize(sb, d, n);
    WriteRefines(sb, d, e, n, DENTRY_SIZE * i, x);
    OverwriteEntry(File(sb, d, n), i, x);
  }

  lemma CreatedEntry(sb: SuperBlock, d: Disk, e: Disk, n: nat, i: nat, name: seq<byte>, target: u32)
    requires DirAt(sb, d, n) && Live(sb, d, n) && i <= Count(File(sb, d, n))
    requires i < Count(File(sb, d, n)) ==> !IsUsed(EntryBytes(File(sb, d, n), i))
    requires Key(name) !in DirMap(sb, d, n)
    requires WriteResult(sb, d, e, n, DENTRY_SIZE * i, Key(name) + LE32(target))
    ensures var m := DirMap(sb, d, n);
      DirBecomes(sb, d, e, n, if Key(name)[0] != 0 then m[Key(name) := target] else m)
  {
    hide File, Dir, DirFile, EntrySet, WriteResult, LE32, InodeAt, T, Tails;
    var x := Key(name) + LE32(target);
    assert NameOf(x) == Key(name) && x[MAXLEN_FILENAME..] == LE32(target);
    assert x[MAXLEN_FILENAME..MAXLEN_FILENAME + 4] == LE32(target);
    RoundTrip32(target, x, MAXLEN_FILENAME);
    WriteEntry(sb, d, e, n, i, x);
    AddEntry(File(sb, d, n), File(sb, e, n), i, x);
  }

  lemma DeletedEntry(sb: SuperBlock, d: Disk, e: Disk, n: nat, i: nat, name: seq<byte>)
    requires DirAt(sb, d, n) && Live(sb, d, n) && NamedAt(File(sb, d, n), i, Key(name))
    requires WriteResult(sb, d, e, n, DENTRY_SIZE * i, seq(DENTRY_SIZE, _ => 0))
    ensures DirBecomes(sb, d, e, n, DirMap(sb, d, n) - {Key(name)})
  {
    assert i < Count(File(sb, d, n));
    hide File, Dir, DirFile, EntrySet, WriteResult, NamedAt, InodeAt, T, Tails;
    var x := seq(DENTRY_SIZE, _ => 0);
    WriteEntry(sb, d, e, n, i, x);
    RemoveEntry(File(sb, d, n), File(sb, e, n), i, x, Key(name));
  }

  /**
    `dentry_create`: -1 exactly when the name exists; otherwise one new binding, in a hole or appended.  A name whose
    first byte is NUL (the empty name among them) adds nothing.  `ok` is false for the out-of-blocks panic.
  */
  method DentryCreate(fs: Fs, slot: nat, target: u32, name: seq<byte>) returns (r: int, ok: bool)
    requires fs.Valid() && slot < N_INODE && fs.inodes[slot].refcnt > 0
    requires DirAt(fs.sb, fs.cache.disk, fs.inodes[slot].inum)
    modifies fs, fs.cache
    ensures fs.Valid() && fs.cache.peak <= Max(old(fs.cache.peak), 2)
    ensures |old(fs.inodes)| == N_INODE
    ensures fs.inodes == old(fs.inodes)[slot := old(fs.inodes)[slot].(disk := fs.inodes[slot].disk)]
    ensures !ok ==> Full(fs.sb, fs.cache.disk)
    ensures ok ==> var m := old(DirMap(fs.sb, fs.cache.disk, fs.inodes[slot].inum));
      && (r == -1 <==> Key(name) in m) && (r == -1 ==> fs.cache.disk == old(fs.cache.disk))
      && (r != -1 ==> r == 0 && DirBecomes(fs.sb, old(fs.cache.disk), fs.cache.disk, old(fs.inodes)[slot].inum,
                                           if Key(name)[0] != 0 then m[Key(name) := target] else m))
  {
    hide CacheInv, HandlesOf, FsInv, File, Dir, NamedAt, DirFile, InodeAt, Key, DirBecomes, WriteResult, LE32;
    hide EntryBytes;
    hide Dense;
    FsInvFacts(fs.sb, fs.cache.disk, fs.inodes, slot);
    FileSize(fs.sb, fs.cache.disk, fs.inodes[slot].inum);
    var found := DentrySearch(fs, slot, name);
    if found.Some? { return -1, true; }
    var i := FindHole(fs, slot);
    ok := fs.WriteData(slot, DENTRY_SIZE * i, Key(name) + LE32(target));
    if !ok { return -1, false; }
    CreatedEntry(fs.sb, old(fs.cache.disk), fs.cache.disk, old(fs.inodes)[slot].inum, i, name, target);
    return 0, true;
  }

  /** `dentry_delete`: removes the name's binding and returns its inode number, or -1 when there is none. */
  method DentryDelete(fs: Fs, slot: nat, name: seq<byte>) returns (r: Option<nat>, ok: bool)
    requires fs.Valid() && slot < N_INODE && fs.inodes[slot].refcnt > 0
    requires DirAt(fs.sb, fs.cache.disk, fs.inodes[slot].inum)
    modifies fs, fs.cache
    ensures fs.Valid() && fs.cache.peak <= Max(old(fs.cache.peak), 2)
    ensures |old(fs.inodes)| == N_INODE
    ensures fs.inodes == old(fs.inodes)[slot := old(fs.inodes)[slot].(disk := fs.inodes[slot].disk)]
    ensures !ok ==> Full(fs.sb, fs.cache.disk)
    ensures ok ==> var m := old(DirMap(fs.sb, fs.cache.disk, fs.inodes[slot].inum));
      && r == (if Key(name) in m then Some(m[Key(name)]) else None)
      && (r.None? ==> fs.cache.disk == old(fs.cache.disk))
      && (r.Some? ==> DirBecomes(fs.sb, old(fs.cache.disk), fs.cache.disk, old(fs.inodes)[slot].inum, m - {Key(name)}))
  {
    hide CacheInv, HandlesOf, FsInv, File, Dir, DirFile, InodeAt, Key, DirBecomes, WriteResult, EntryBytes;
    FsInvFacts(fs.sb, fs.cache.disk, fs.inodes, slot);
    FileSize(fs.sb, fs.cache.disk, fs.inodes[slot].inum);
    var e, inum := FindEntry(fs, slot, name);
    if e.None? { return None, true; }
    ok := fs.WriteData(slot, DENTRY_SIZE * e.value, seq(DENTRY_SIZE, _ => 0));
    if !ok { return None, false; }
    DeletedEntry(fs.sb, old(fs.cache.disk), fs.cache.disk, old(fs.inodes)[slot].inum, e.value, name);
    return Some(inum), true;
  }

  // ----- runs on one directory

  datatype DirOp = Find(name: seq<byte>) | Add(name: seq<byte>, target: u32) | Remove(name: seq<byte>)

  type DirContents = map<seq<byte>, nat>

  /** What an operation does to the finite map. */
  ghost function AfterOp(m: DirContents, op: DirOp): DirContents {
    match op
    case Find(_) => m
    case Add(name, target) => if Key(name) !in m && Key(name)[0] != 0 then m[Key(name) := target] else m
    case Remove(name) => m - {Key(name)}
  }

  /** What it returns: the number found or removed, or whether the name was free. */
  ghost function ReplyTo(m: DirContents, op: DirOp): Option<nat> {
    match op
    case Find(name) => if Key(name) in m then Some(m[Key(name)]) else None
    case Add(name, _) => if Key(name) in m then None else Some(0)
    case Remove(name) => if Key(name) in m then Some(m[Key(name)]) else None
  }

  /** The slot holds a referenced directory without holes. */
  ghost predicate DirSlot(sb: SuperBlock, d: Disk, inodes: seq<Inode>, slot: nat) {
    && Layout(sb, |d|) && slot < |inodes| && inodes[slot].refcnt > 0 && Live(sb, d, inodes[slot].inum)
    && DirFile(File(sb, d, inodes[slot].inum)) && Dense(sb, d, inodes[slot].inum)
  }

  lemma DirSlotReady(sb: SuperBlock, d: Disk, inodes: seq<Inode>, slot: nat)
    requires FsInv(sb, d, inodes) && DirSlot(sb, d, inodes, slot)
    ensures slot < N_INODE == |inodes| && inodes[slot].refcnt > 0 && DirAt(sb, d, inodes[slot].inum)
    ensures DirMap(sb, d, inodes[slot].inum) == Dir(File(sb, d, inodes[slot].inum))
  {
    hide File, DirFile, Dense, InodeAt;
    DirReady(sb, d, inodes[slot].inum);
  }

  lemma DirSlotKept(sb: SuperBlock, d: Disk, e: Disk, a: seq<Inode>, b: seq<Inode>, slot: nat, m: DirContents)
    requires DirSlot(sb, d, a, slot) && DirBecomes(sb, d, e, a[slot].inum, m)
    requires slot < |b| && b[slot].inum == a[slot].inum && b[slot].refcnt > 0
    ensures DirSlot(sb, e, b, slot) && Dir(File(sb, e, b[slot].inum)) == m
  {
    hide File, DirFile, Dense, InodeAt, T, Tails;
  }

  /** One operation takes the finite map one step and replies as the map says, or the disk is full. */
  method PerformOn(fs: Fs, slot: nat, op: DirOp) returns (ok: bool, r: Option<nat>)
    requires fs.Valid() && DirSlot(fs.sb, fs.cache.disk, fs.inodes, slot)
    modifies fs, fs.cache
    ensures fs.Valid() && fs.cache.peak <= Max(old(fs.cache.peak), 2)
    ensures !ok ==> Full(fs.sb, fs.cache.disk)
    ensures ok ==>
      var m := old(Dir(File(fs.sb, fs.cache.disk, fs.inodes[slot].inum)));
      && DirSlot(fs.sb, fs.cache.disk, fs.inodes, slot) && r == ReplyTo(m, op)
      && Dir(File(fs.sb, fs.cache.disk, fs.inodes[slot].inum)) == AfterOp(m, op)
  {
    hide CacheInv, HandlesOf, FsInv, File, Dir, DirFile, Dense, InodeAt, Key, DirBecomes, DirSlot;
    DirSlotReady(fs.sb, fs.cache.disk, fs.inodes, slot);
    DirStays(fs.sb, fs.cache.disk, fs.inodes[slot].inum);
    ghost var n, m := fs.inodes[slot].inum, Dir(File(fs.sb, fs.cache.disk, fs.inodes[slot].inum));
    match op {
      case Find(name) =>
        r := DentrySearch(fs, slot, name);
        ok := true;
      case Add(name, target) =>
        var c;
        c, ok := DentryCreate(fs, slot, target, name);
        r := if c == -1 then None else Some(0);
        if !ok { return; }
      case Remove(name) =>
        r, ok := DentryDelete(fs, slot, name);
        if !ok { return; }
        assert Key(name) !in m ==> m - {Key(name)} == m;
    }
    DirSlotKept(fs.sb, old(fs.cache.disk), fs.cache.disk, old(fs.inodes), fs.inodes, slot, AfterOp(m, op));
  }

  /**
    Any run of searches, creations and deletions on one directory replies and ends as the finite map does, up to the
    point where the disk is full.
  */
  method RunOn(fs: Fs, slot: nat, ops: seq<DirOp>)
    returns (done: nat, replies: seq<Option<nat>>, ghost maps: seq<DirContents>)
    requires fs.Valid() && DirSlot(fs.sb, fs.cache.disk, fs.inodes, slot)
    modifies fs, fs.cache
    ensures fs.Valid() && fs.cache.peak <= Max(old(fs.cache.peak), 2)
    ensures done <= |ops| && |replies| == done && |maps| == done + 1
    ensures maps[0] == old(Dir(File(fs.sb, fs.cache.disk, fs.inodes[slot].inum)))
    ensures forall k :: 0 <= k < done ==>
      replies[k] == ReplyTo(maps[k], ops[k]) && maps[k + 1] == AfterOp(maps[k], ops[k])
    ensures done < |ops| ==> Full(fs.sb, fs.cache.disk)
    ensures done == |ops| ==>
      && DirSlot(fs.sb, fs.cache.disk, fs.inodes, slot)
      && maps[done] == Dir(File(fs.sb, fs.cache.disk, fs.inodes[slot].inum))
  {
    hide CacheInv, HandlesOf, FsInv, File, Dir, DirFile, Dense, InodeAt, AfterOp, ReplyTo, DirSlot;
    DirSlotReady(fs.sb, fs.cache.disk, fs.inodes, slot);
    done, replies, maps := 0, [], [Dir(File(fs.sb, fs.cache.disk, fs.inodes[slot].inum))];
    while done < |ops|
      invariant done <= |ops| && |replies| == done && |maps| == done + 1
      invariant fs.Valid() && fs.cache.peak <= Max(old(fs.cache.peak), 2)
      invariant DirSlot(fs.sb, fs.cache.disk, fs.inodes, slot)
      invariant slot < |fs.inodes| && fs.inodes[slot].inum < fs.sb.ninodes
      invariant DirFile(File(fs.sb, fs.cache.disk, fs.inodes[slot].inum))
      invariant maps[0] == old(Dir(File(fs.sb, fs.cache.disk, fs.inodes[slot].inum)))
      invariant maps[done] == Dir(File(fs.sb, fs.cache.disk, fs.inodes[slot].inum))
      invariant forall k :: 0 <= k < done ==>
        replies[k] == ReplyTo(maps[k], ops[k]) && maps[k + 1] == AfterOp(maps[k], ops[k])
    {
      var ok, r := PerformOn(fs, slot, ops[done]);
      if !ok { return; }
      DirSlotReady(fs.sb, fs.cache.disk, fs.inodes, slot);
      replies, maps := replies + [r], maps + [Dir(File(fs.sb, fs.cache.disk, fs.inodes[slot].inum))];
      done := done + 1;
    }
  }
}
