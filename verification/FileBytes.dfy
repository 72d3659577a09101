/** A file as a sequence of bytes, over the index tree of its inode. */
module FileBytes {
  import opened Base
  import opened DiskFormat
  import opened FileTree

  /** Bytes [a, b) of inode `n`. */
  ghost function Bytes(sb: SuperBlock, d: Disk, n: nat, a: nat, b: nat): (s: seq<byte>)
    requires Layout(sb, |d|) && n < sb.ninodes && a <= b <= MAX_BYTES
    ensures |s| == b - a
    ensures forall i :: 0 <= i < b - a ==> s[i] == FileByte(sb, d, n, a + i)
  {
    seq<byte>(b - a, i requires 0 <= i < b - a => FileByte(sb, d, n, a + i))
  }

  /** The contents of the file with inode `n`. */
  ghost function File(sb: SuperBlock, d: Disk, n: nat): (s: seq<byte>)
    requires Layout(sb, |d|) && n < sb.ninodes
    ensures |s| == InodeAt(sb, d, n).size
  {
    Bytes(sb, d, n, 0, InodeAt(sb, d, n).size)
  }

  /** Nothing but zeros is stored behind the end of the file. */
  ghost predicate TailZero(sb: SuperBlock, d: Disk, n: nat)
    requires Layout(sb, |d|) && n < sb.ninodes
  {
    forall off :: InodeAt(sb, d, n).size <= off < MAX_BYTES ==> FileByte(sb, d, n, off) == 0
  }

  /** Every live file has a zero tail. */
  ghost predicate Tails(sb: SuperBlock, d: Disk) {
    Layout(sb, |d|) && forall n :: Live(sb, d, n) ==> TailZero(sb, d, n)
  }

  /** `s` with `src` written at `off`; a gap behind the end is filled with zeros. */
  function Overwrite(s: seq<byte>, off: nat, src: seq<byte>): (r: seq<byte>)
  {
    var z := if off + |src| <= |s| then s else s + seq(off + |src| - |s|, _ => 0);
    z[..off] + src + z[off + |src|..]
  }

  lemma ChunkIndex(a: nat, i: nat)
    requires a % BLOCK_SIZE + i < BLOCK_SIZE
    ensures (a + i) / BLOCK_SIZE == a / BLOCK_SIZE && (a + i) % BLOCK_SIZE == a % BLOCK_SIZE + i
  {
  }

  /** Within one logical block, file bytes are a slice of that block or zeros. */
  lemma ChunkBytes(sb: SuperBlock, d: Disk, n: nat, a: nat, len: nat)
    requires Trees(sb, d) && Live(sb, d, n) && a < MAX_BYTES && a % BLOCK_SIZE + len <= BLOCK_SIZE
    ensures a + len <= MAX_BYTES
    ensures var blk := T(sb, d, n, LeafPos(a / BLOCK_SIZE));
      && (blk == 0 ==> Bytes(sb, d, n, a, a + len) == seq(len, _ => 0))
      && (blk != 0 ==> blk < |d| && Bytes(sb, d, n, a, a + len) == d[blk][a % BLOCK_SIZE..a % BLOCK_SIZE + len])
  {
    hide T, LeafPos;
    assert a + len <= MAX_BYTES;
    var blk := T(sb, d, n, LeafPos(a / BLOCK_SIZE));
    TreeBlocksAreData(sb, d, n, LeafPos(a / BLOCK_SIZE));
    var s := Bytes(sb, d, n, a, a + len);
    forall i | 0 <= i < len
      ensures s[i] == if blk == 0 then 0 else d[blk][a % BLOCK_SIZE + i]
    {
      ChunkIndex(a, i);
    }
  }

  lemma BytesSplit(sb: SuperBlock, d: Disk, n: nat, a: nat, b: nat, c: nat)
    requires Layout(sb, |d|) && n < sb.ninodes && a <= b <= c <= MAX_BYTES
    ensures Bytes(sb, d, n, a, c) == Bytes(sb, d, n, a, b) + Bytes(sb, d, n, b, c)
  {
  }

  /** The bytes [off, cur) of inode `n` lie in blocks, not in holes. */
  ghost predicate Filled(sb: SuperBlock, d: Disk, n: nat, off: nat, cur: nat)
    requires Layout(sb, |d|) && n < sb.ninodes && cur <= MAX_BYTES
  {
    forall o :: off <= o < cur ==> T(sb, d, n, LeafPos(o / BLOCK_SIZE)) != 0
  }

  /** `e` is `d` with the bytes of `src` at [off, cur) of inode `n`; no other byte of any file differs. */
  ghost predicate Written(sb: SuperBlock, d: Disk, e: Disk, n: nat, off: nat, cur: nat, src: seq<byte>) {
    && Layout(sb, |d|) && |e| == |d| && off <= cur <= off + |src| && cur <= MAX_BYTES
    && SameLive(sb, d, e) && PlacesKept(sb, d, e) && (Live(sb, d, n) ==> Filled(sb, e, n, off, cur))
    && (forall m, o :: Live(sb, d, m) && 0 <= o < MAX_BYTES ==>
          FileByte(sb, e, m, o) == if m == n && off <= o < cur then src[o - off] else FileByte(sb, d, m, o))
  }

  lemma ChunkFilled(sb: SuperBlock, d: Disk, n: nat, a: nat, len: nat)
    requires Layout(sb, |d|) && n < sb.ninodes && a < MAX_BYTES && a % BLOCK_SIZE + len <= BLOCK_SIZE
    requires a + len <= MAX_BYTES && T(sb, d, n, LeafPos(a / BLOCK_SIZE)) != 0
    ensures Filled(sb, d, n, a, a + len)
  {
    hide T, LeafPos;
    forall o | a <= o < a + len ensures T(sb, d, n, LeafPos(o / BLOCK_SIZE)) != 0 { ChunkIndex(a, o - a); }
  }

  /** One more chunk, written into the block that holds it. */
  lemma WriteChunk(sb: SuperBlock, d: Disk, n: nat, a: nat, s: seq<byte>)
    requires Trees(sb, d) && Live(sb, d, n) && a < MAX_BYTES && a % BLOCK_SIZE + |s| <= BLOCK_SIZE
    requires T(sb, d, n, LeafPos(a / BLOCK_SIZE)) != 0
    ensures var blk := T(sb, d, n, LeafPos(a / BLOCK_SIZE));
      && blk < |d|
      && var e := d[blk := Splice(d[blk], a % BLOCK_SIZE, s)];
      && Trees(sb, e) && Written(sb, d, e, n, a, a + |s|, s)
      && (forall m :: Live(sb, d, m) ==> InodeAt(sb, e, m) == InodeAt(sb, d, m))
  {
    var blk := T(sb, d, n, LeafPos(a / BLOCK_SIZE));
    TreeBlocksAreData(sb, d, n, LeafPos(a / BLOCK_SIZE));
    ChunkBytes(sb, d, n, a, |s|);
    hide FileByte, T, LeafPos, InodeAt, Splice, Trees;
    var x := Splice(d[blk], a % BLOCK_SIZE, s);
    WriteLeaf(sb, d, n, a / BLOCK_SIZE, x);
    var e := d[blk := x];
    ChunkFilled(sb, e, n, a, |s|);
    forall m, o | Live(sb, d, m) && 0 <= o < MAX_BYTES
      ensures FileByte(sb, e, m, o) == if m == n && a <= o < a + |s| then s[o - a] else FileByte(sb, d, m, o)
    {
      if o / BLOCK_SIZE == a / BLOCK_SIZE {
        SpliceByte(sb, d, n, a, s, o);
      } else if a <= o < a + |s| {
        ChunkIndex(a, o - a);
      }
    }
  }

  lemma SpliceByte(sb: SuperBlock, d: Disk, n: nat, a: nat, s: seq<byte>, o: nat)
    requires Layout(sb, |d|) && n < sb.ninodes && a < MAX_BYTES && o < MAX_BYTES
    requires a % BLOCK_SIZE + |s| <= BLOCK_SIZE && o / BLOCK_SIZE == a / BLOCK_SIZE
    requires 0 < T(sb, d, n, LeafPos(a / BLOCK_SIZE)) < |d|
    ensures var blk := T(sb, d, n, LeafPos(a / BLOCK_SIZE));
      Splice(d[blk], a % BLOCK_SIZE, s)[o % BLOCK_SIZE] ==
      if a <= o < a + |s| then s[o - a] else FileByte(sb, d, n, o)
  {
    hide T, LeafPos;
    assert o - a == o % BLOCK_SIZE - a % BLOCK_SIZE;
  }

  lemma WrittenStep(sb: SuperBlock, d: Disk, e: Disk, f: Disk, g: Disk, n: nat, off: nat, cur: nat, next: nat,
                    src: seq<byte>)
    requires Written(sb, d, e, n, off, cur, src) && SameFiles(sb, e, f) && cur <= next <= off + |src|
    requires Written(sb, f, g, n, cur, next, src[cur - off..next - off])
    ensures Written(sb, d, g, n, off, next, src)
  {
    forall m, o | Live(sb, d, m) && 0 <= o < MAX_BYTES
      ensures FileByte(sb, g, m, o) == if m == n && off <= o < next then src[o - off] else FileByte(sb, d, m, o)
    {
      assert Live(sb, e, m) && Live(sb, f, m);
      assert FileByte(sb, f, m, o) == FileByte(sb, e, m, o);
    }
    PlacesKeptTrans(sb, d, e, f);
    PlacesKeptTrans(sb, d, f, g);
    if Live(sb, d, n) {
      FilledStays(sb, e, f, n, off, cur);
      FilledStays(sb, f, g, n, off, cur);
    }
  }

  lemma FilledStays(sb: SuperBlock, d: Disk, e: Disk, n: nat, off: nat, cur: nat)
    requires Layout(sb, |d|) && |e| == |d| && PlacesKept(sb, d, e) && Live(sb, d, n) && cur <= MAX_BYTES
    requires Filled(sb, d, n, off, cur)
    ensures Filled(sb, e, n, off, cur)
  {
    hide T, LeafPos;
  }

  lemma OverwriteAt(s: seq<byte>, off: nat, src: seq<byte>)
    ensures |Overwrite(s, off, src)| == if off + |src| <= |s| then |s| else off + |src|
    ensures forall i :: 0 <= i < |Overwrite(s, off, src)| ==>
              Overwrite(s, off, src)[i] == if off <= i < off + |src| then src[i - off] else if i < |s| then s[i] else 0
  {
  }

  /** Between the end of the file and `off` only zeros are stored. */
  ghost predicate GapZero(sb: SuperBlock, d: Disk, n: nat, off: nat)
    requires Layout(sb, |d|) && n < sb.ninodes
  {
    forall o :: InodeAt(sb, d, n).size <= o < off && o < MAX_BYTES ==> FileByte(sb, d, n, o) == 0
  }

  /** A write that also set the size is `Overwrite` on the file; a gap must hold zeros. */
  lemma WrittenFile(sb: SuperBlock, d: Disk, e: Disk, n: nat, off: nat, src: seq<byte>)
    requires Written(sb, d, e, n, off, off + |src|, src) && Live(sb, d, n)
    requires GapZero(sb, d, n, off)
    requires var size := InodeAt(sb, d, n).size;
      InodeAt(sb, e, n).size == if off + |src| > size then off + |src| else size
    ensures File(sb, e, n) == Overwrite(File(sb, d, n), off, src)
    ensures TailZero(sb, d, n) ==> TailZero(sb, e, n)
  {
    hide FileByte, InodeAt, Overwrite;
    var f, g := File(sb, d, n), File(sb, e, n);
    OverwriteAt(f, off, src);
    forall i | 0 <= i < |g| ensures g[i] == Overwrite(f, off, src)[i] {
      assert g[i] == FileByte(sb, e, n, i);
      if i < |f| { assert f[i] == FileByte(sb, d, n, i); }
    }
  }

  /** A file whose attributes and bytes are untouched is the same sequence. */
  lemma SameFile(sb: SuperBlock, d: Disk, e: Disk, m: nat)
    requires Layout(sb, |d|) && |e| == |d| && m < sb.ninodes && InodeAt(sb, e, m).size == InodeAt(sb, d, m).size
    requires forall o :: 0 <= o < MAX_BYTES ==> FileByte(sb, e, m, o) == FileByte(sb, d, m, o)
    ensures File(sb, e, m) == File(sb, d, m) && (TailZero(sb, d, m) ==> TailZero(sb, e, m))
  {
    hide FileByte, InodeAt;
    forall i | 0 <= i < |File(sb, d, m)| ensures File(sb, e, m)[i] == File(sb, d, m)[i] {
      assert File(sb, e, m)[i] == FileByte(sb, e, m, i);
    }
  }

  lemma WrittenNothing(sb: SuperBlock, d: Disk, n: nat, off: nat, src: seq<byte>)
    requires Layout(sb, |d|) && off <= MAX_BYTES
    ensures Written(sb, d, d, n, off, off, src)
  {
  }

  ghost predicate SameMetaBut(a: InodeDisk, b: InodeDisk, size: nat) {
    a.kind == b.kind && a.major == b.major && a.minor == b.minor && a.nlink == b.nlink && b.size == size
  }

  /** What `inode_write_data` does to the disk: the bytes, and the size where the write goes past the end. */
  ghost predicate WriteResult(sb: SuperBlock, d: Disk, e: Disk, n: nat, off: nat, src: seq<byte>) {
    && Written(sb, d, e, n, off, off + |src|, src)
    && (forall m :: Live(sb, d, m) ==>
          var size := InodeAt(sb, d, m).size;
          SameMetaBut(InodeAt(sb, d, m), InodeAt(sb, e, m),
                      if m == n && off + |src| > size then off + |src| else size))
  }

  /**
    A write refines the byte sequence: it overwrites exactly [off, off + |src|), fills a gap behind the old end with
    zeros, and leaves every other file as it was.
  */
  lemma WriteRefines(sb: SuperBlock, d: Disk, e: Disk, n: nat, off: nat, src: seq<byte>)
    requires WriteResult(sb, d, e, n, off, src) && Live(sb, d, n)
    requires GapZero(sb, d, n, off)
    ensures File(sb, e, n) == Overwrite(File(sb, d, n), off, src)
    ensures forall m :: Live(sb, d, m) && m != n ==> File(sb, e, m) == File(sb, d, m)
    ensures Tails(sb, d) ==> Tails(sb, e)
  {
    hide FileByte, InodeAt, File, TailZero;
    WrittenFile(sb, d, e, n, off, src);
    forall m | Live(sb, d, m) && m != n
      ensures File(sb, e, m) == File(sb, d, m) && (TailZero(sb, d, m) ==> TailZero(sb, e, m))
    {
      SameFile(sb, d, e, m);
    }
  }

  /** A write is `Overwrite` exactly when the gap it leaves, if any, holds zeros. */
  lemma GapExact(sb: SuperBlock, d: Disk, e: Disk, n: nat, off: nat, src: seq<byte>)
    requires WriteResult(sb, d, e, n, off, src) && Live(sb, d, n)
    ensures File(sb, e, n) == Overwrite(File(sb, d, n), off, src) <==> GapZero(sb, d, n, off)
  {
    hide FileByte, InodeAt, Overwrite, T;
    if GapZero(sb, d, n, off) {
      WrittenFile(sb, d, e, n, off, src);
    } else {
      var o :| InodeAt(sb, d, n).size <= o < off && o < MAX_BYTES && FileByte(sb, d, n, o) != 0;
      OverwriteAt(File(sb, d, n), off, src);
      assert File(sb, e, n)[o] == FileByte(sb, e, n, o);
    }
  }

  /** Deleting an inode leaves all other files as they were. */
  lemma DeleteRefines(sb: SuperBlock, d: Disk, e: Disk, n: nat)
    requires Trees(sb, d) && Live(sb, d, n) && Deleted(sb, d, e, n)
    ensures forall m :: Live(sb, e, m) ==> File(sb, e, m) == File(sb, d, m)
    ensures Tails(sb, d) ==> Tails(sb, e)
  {
    DeletedKeeps(sb, d, e, n);
    hide FileByte, InodeAt, File, TailZero;
    forall m | Live(sb, e, m) ensures File(sb, e, m) == File(sb, d, m) && (TailZero(sb, d, m) ==> TailZero(sb, e, m)) {
      SameFile(sb, d, e, m);
    }
  }

  /** Creating an inode leaves all other files as they were; the new file is empty with a zero tail. */
  lemma CreateRefines(sb: SuperBlock, d: Disk, e: Disk, n: nat)
    requires Trees(sb, d) && !Live(sb, d, n) && Created(sb, d, e, n) && InodeAt(sb, e, n).size == 0
    ensures forall m :: Live(sb, d, m) ==> File(sb, e, m) == File(sb, d, m)
    ensures File(sb, e, n) == []
    ensures Tails(sb, d) ==> Tails(sb, e)
  {
    CreatedKeeps(sb, d, e, n);
    assert TailZero(sb, e, n);
    hide FileByte, InodeAt, File, TailZero;
    forall m | Live(sb, d, m) ensures File(sb, e, m) == File(sb, d, m) && (TailZero(sb, d, m) ==> TailZero(sb, e, m)) {
      SameFile(sb, d, e, m);
    }
  }
}
