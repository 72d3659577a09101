/**
  The disk image with files that the build tool writes (xtask/src/main.rs), as the kernel reads it: the two programs
  agree on block numbers, bitmaps, inodes, directory entries and index blocks.
*/
module Mkfs {
  import opened Base
  import opened Bits
  import opened Names
  import opened Paths
  import opened Links
  import opened DiskFormat
  import opened FileTree
  import opened FileBytes
  import opened Directory
  import opened DiskTree

  const N_INODES := 200
  const N_DATA_BLOCKS := 1000
  const INODE_START := 2
  const BMAP_START := 6
  const TOTAL := 1007

  const SB := SuperBlock(N_DATA_BLOCKS, N_INODES, INODE_START, BMAP_START)

  // ----- little-endian numbers

  /** `to_le_bytes` of a number of `n` bytes: the lowest byte first. */
  function ToLe(v: nat, n: nat): (s: seq<byte>)
    ensures |s| == n
  {
    if n == 0 then [] else [v % 256] + ToLe(v / 256, n - 1)
  }

  lemma Le16(v: u16)
    ensures ToLe(v, 2) == LE16(v)
  {
    assert ToLe(v / 256, 1) == [v / 256 % 256] + ToLe(v / 256 / 256, 0);
  }

  lemma Le32(v: u32)
    ensures ToLe(v, 4) == LE32(v)
  {
    var a := v / 256;
    var b := a / 256;
    assert b == v / 65536 && b / 256 == v / 16777216;
    assert ToLe(b / 256, 1) == [b / 256 % 256] + ToLe(b / 256 / 256, 0);
    assert ToLe(b, 2) == [b % 256] + ToLe(b / 256, 1);
    assert ToLe(a, 3) == [a % 256] + ToLe(b, 2);
  }

  lemma Reads16(v: u16, s: seq<byte>, o: nat)
    requires o + 2 <= |s| && s[o..o + 2] == ToLe(v, 2)
    ensures Rd16(s, o) == v
  {
    Le16(v);
    RoundTrip16(v, s, o);
  }

  lemma Reads32(v: u32, s: seq<byte>, o: nat)
    requires o + 4 <= |s| && s[o..o + 4] == ToLe(v, 4)
    ensures Rd32(s, o) == v
  {
    Le32(v);
    RoundTrip32(v, s, o);
  }

  // ----- inodes

  /** The 64 bytes of slot `k` of a block of inodes or directory entries. */
  function Slot(b: Block, k: nat): (s: seq<byte>)
    requires k < 64
    ensures |s| == 64
  {
    b[k * 64..k * 64 + 64]
  }

  /** The stores of `put_inode` into an inode block; entries behind `ix` are 0. */
  function PutInode(buf: Block, slot: nat, kind: u16, major: u16, minor: u16, nlink: u16, size: u32, ix: seq<u32>)
    : (r: Block)
    requires slot < 64
  {
    PutIndices(PutHeader(buf, slot * 64, kind, major, minor, nlink, size), slot * 64, ix, 0)
  }

  function IndexOf(ix: seq<u32>, i: nat): u32 { if i < |ix| then ix[i] else 0 }

  /** All root entries of an inode that is given the first ones. */
  function Padded(ix: seq<u32>): (r: seq<u32>)
    ensures |r| == NINDEX && forall i :: 0 <= i < NINDEX ==> r[i] == IndexOf(ix, i)
  {
    seq(NINDEX, i requires 0 <= i < NINDEX => IndexOf(ix, i))
  }

  function PutIndices(buf: Block, base: nat, ix: seq<u32>, i: nat): (r: Block)
    requires base + 64 <= BLOCK_SIZE && i <= NINDEX
    decreases NINDEX - i
  {
    if i == NINDEX then buf
    else PutIndices(Splice(buf, base + 12 + i * 4, ToLe(IndexOf(ix, i), 4)), base, ix, i + 1)
  }

  /** Bytes outside of the entries still to come stay. */
  lemma {:induction false} PutIndicesKeep(buf: Block, base: nat, ix: seq<u32>, i: nat, o: nat)
    requires base + 64 <= BLOCK_SIZE && i <= NINDEX && o < BLOCK_SIZE && (o < base + 12 + i * 4 || base + 64 <= o)
    ensures PutIndices(buf, base, ix, i)[o] == buf[o]
    decreases NINDEX - i
  {
    if i < NINDEX {
      PutIndicesKeep(Splice(buf, base + 12 + i * 4, ToLe(IndexOf(ix, i), 4)), base, ix, i + 1, o);
    }
  }

  /** Byte `m` of entry `j`. */
  lemma {:induction false} PutIndicesAt(buf: Block, base: nat, ix: seq<u32>, i: nat, j: nat, m: nat)
    requires base + 64 <= BLOCK_SIZE && i <= j < NINDEX && m < 4
    ensures PutIndices(buf, base, ix, i)[base + 12 + j * 4 + m] == ToLe(IndexOf(ix, j), 4)[m]
    decreases NINDEX - i
  {
    hide ToLe, IndexOf, PutIndices, Splice;
    PutIndicesStep(buf, base, ix, i);
    var next := Splice(buf, base + 12 + i * 4, ToLe(IndexOf(ix, i), 4));
    if i == j {
      var o := base + 12 + i * 4;
      assert next[o + m] == ToLe(IndexOf(ix, i), 4)[m];
      PutIndicesKeep(next, base, ix, i + 1, o + m);
    } else {
      PutIndicesAt(next, base, ix, i + 1, j, m);
    }
  }

  lemma PutIndicesStep(buf: Block, base: nat, ix: seq<u32>, i: nat)
    requires base + 64 <= BLOCK_SIZE && i < NINDEX
    ensures PutIndices(buf, base, ix, i) ==
      PutIndices(Splice(buf, base + 12 + i * 4, ToLe(IndexOf(ix, i), 4)), base, ix, i + 1)
  {
  }

  /** The block with the header stored and the entries still to come. */
  function PutHeader(buf: Block, base: nat, kind: u16, major: u16, minor: u16, nlink: u16, size: u32): (r: Block)
    requires base + 64 <= BLOCK_SIZE
  {
    PutFive(buf, base, ToLe(kind, 2), ToLe(major, 2), ToLe(minor, 2), ToLe(nlink, 2), ToLe(size, 4))
  }

  function PutFive(buf: Block, base: nat, a: seq<byte>, b: seq<byte>, c: seq<byte>, d: seq<byte>, e: seq<byte>)
    : (r: Block)
    requires base + 64 <= BLOCK_SIZE && |a| == |b| == |c| == |d| == 2 && |e| == 4
  {
    Splice(Splice(Splice(Splice(Splice(buf, base, a), base + 2, b), base + 4, c), base + 6, d), base + 8, e)
  }

  lemma PutHeaderKeeps(buf: Block, base: nat, kind: u16, major: u16, minor: u16, nlink: u16, size: u32, o: nat)
    requires base + 64 <= BLOCK_SIZE && o < BLOCK_SIZE && (o < base || base + 12 <= o)
    ensures PutHeader(buf, base, kind, major, minor, nlink, size)[o] == buf[o]
  {
    hide ToLe;
  }

  lemma OtherSlot(buf: Block, slot: nat, kind: u16, major: u16, minor: u16, nlink: u16, size: u32, ix: seq<u32>, k: nat)
    requires slot < 64 && k < 64 && k != slot
    ensures Slot(PutInode(buf, slot, kind, major, minor, nlink, size, ix), k) == Slot(buf, k)
  {
    hide PutHeader, PutIndices;
    var base := slot * 64;
    var h := PutHeader(buf, base, kind, major, minor, nlink, size);
    var r := PutInode(buf, slot, kind, major, minor, nlink, size, ix);
    forall o | 0 <= o < 64 ensures Slot(r, k)[o] == Slot(buf, k)[o] {
      assert k * 64 + o < base || base + 64 <= k * 64 + o;
      PutIndicesKeep(h, base, ix, 0, k * 64 + o);
      PutHeaderKeeps(buf, base, kind, major, minor, nlink, size, k * 64 + o);
    }
  }

  lemma OwnSlot(buf: Block, slot: nat, kind: u16, major: u16, minor: u16, nlink: u16, size: u32, ix: seq<u32>,
                s: seq<byte>)
    requires slot < 64 && s == Slot(PutInode(buf, slot, kind, major, minor, nlink, size, ix), slot)
    ensures Rd16(s, 0) == kind && Rd16(s, 2) == major && Rd16(s, 4) == minor && Rd16(s, 6) == nlink
    ensures Rd32(s, 8) == size
  {
    hide ToLe, PutFive, PutIndices, Rd16, Rd32;
    var base := slot * 64;
    var h := PutHeader(buf, base, kind, major, minor, nlink, size);
    forall o | 0 <= o < 12 ensures s[o] == h[base + o] { PutIndicesKeep(h, base, ix, 0, base + o); }
    HeaderBytes(buf, base, ToLe(kind, 2), ToLe(major, 2), ToLe(minor, 2), ToLe(nlink, 2), ToLe(size, 4), s);
    HeaderReads(kind, major, minor, nlink, size, s);
  }

  lemma OwnIndex(buf: Block, slot: nat, kind: u16, major: u16, minor: u16, nlink: u16, size: u32, ix: seq<u32>,
                 s: seq<byte>, i: nat)
    requires slot < 64 && s == Slot(PutInode(buf, slot, kind, major, minor, nlink, size, ix), slot) && i < NINDEX
    ensures Rd32(s, 12 + 4 * i) == IndexOf(ix, i)
  {
    hide ToLe, PutHeader, PutIndices, Rd32, IndexOf;
    var base := slot * 64;
    var h := PutHeader(buf, base, kind, major, minor, nlink, size);
    forall m | 0 <= m < 4 ensures s[12 + 4 * i + m] == ToLe(IndexOf(ix, i), 4)[m] {
      PutIndicesAt(h, base, ix, 0, i, m);
    }
    assert s[12 + 4 * i..12 + 4 * i + 4] == ToLe(IndexOf(ix, i), 4);
    Reads32(IndexOf(ix, i), s, 12 + 4 * i);
  }

  lemma InodeSlot(b: Block, k: nat)
    requires k < 64
    ensures InodeIn(b, k) == DecodeInode(Slot(b, k))
  {
  }

  /** What the kernel reads from the slot, and from the others. */
  lemma PutInodeRead(buf: Block, slot: nat, kind: u16, major: u16, minor: u16, nlink: u16, size: u32, ix: seq<u32>,
                     k: nat)
    requires slot < 64 && k < 64
    ensures InodeIn(PutInode(buf, slot, kind, major, minor, nlink, size, ix), k) == if k != slot then InodeIn(buf, k)
      else InodeDisk(kind, major, minor, nlink, size, Padded(ix))
  {
    hide PutInode, InodeIn, DecodeInode, Slot, Rd16, Rd32;
    var r := PutInode(buf, slot, kind, major, minor, nlink, size, ix);
    InodeSlot(r, k);
    InodeSlot(buf, k);
    if k != slot {
      OtherSlot(buf, slot, kind, major, minor, nlink, size, ix, k);
    } else {
      OwnSlot(buf, slot, kind, major, minor, nlink, size, ix, Slot(r, k));
      forall i: nat | i < NINDEX ensures Rd32(Slot(r, k), 12 + 4 * i) == IndexOf(ix, i) {
        OwnIndex(buf, slot, kind, major, minor, nlink, size, ix, Slot(r, k), i);
      }
      DecodeFields(Slot(r, k), kind, major, minor, nlink, size, ix);
    }
  }

  lemma HeaderBytes(buf: Block, base: nat, a: seq<byte>, b: seq<byte>, c: seq<byte>, d: seq<byte>, e: seq<byte>,
                    s: seq<byte>)
    requires base + 64 <= BLOCK_SIZE && |s| == 64 && |a| == |b| == |c| == |d| == 2 && |e| == 4
    requires forall o :: 0 <= o < 12 ==> s[o] == PutFive(buf, base, a, b, c, d, e)[base + o]
    ensures s[0..2] == a && s[2..4] == b && s[4..6] == c && s[6..8] == d && s[8..12] == e
  {
    hide Splice;
    forall o | 0 <= o < 2
      ensures s[o] == a[o] && s[2 + o] == b[o] && s[4 + o] == c[o] && s[6 + o] == d[o]
    {
    }
    forall o | 0 <= o < 4 ensures s[8 + o] == e[o] {}
  }

  lemma HeaderReads(kind: u16, major: u16, minor: u16, nlink: u16, size: u32, s: seq<byte>)
    requires |s| == 64 && s[0..2] == ToLe(kind, 2) && s[2..4] == ToLe(major, 2) && s[4..6] == ToLe(minor, 2)
    requires s[6..8] == ToLe(nlink, 2) && s[8..12] == ToLe(size, 4)
    ensures Rd16(s, 0) == kind && Rd16(s, 2) == major && Rd16(s, 4) == minor && Rd16(s, 6) == nlink
    ensures Rd32(s, 8) == size
  {
    hide ToLe, Rd16, Rd32;
    Reads16(kind, s, 0);
    Reads16(major, s, 2);
    Reads16(minor, s, 4);
    Reads16(nlink, s, 6);
    Reads32(size, s, 8);
  }

  lemma DecodeFields(s: seq<byte>, kind: u16, major: u16, minor: u16, nlink: u16, size: u32, ix: seq<u32>)
    requires |s| == 64 && Rd16(s, 0) == kind && Rd16(s, 2) == major && Rd16(s, 4) == minor && Rd16(s, 6) == nlink
    requires Rd32(s, 8) == size && forall i: nat :: i < NINDEX ==> Rd32(s, 12 + 4 * i) == IndexOf(ix, i)
    ensures DecodeInode(s) ==
      InodeDisk(kind, major, minor, nlink, size, Padded(ix))
  {
    hide Rd16, Rd32;
    var ino := DecodeInode(s);
    assert ino.index == Padded(ix);
  }

  // ----- bitmaps

  /** A bitmap block with the first `n` bits set, one after the other. */
  function MarkBelow(n: nat): (b: Block)
    requires n <= 8 * BLOCK_SIZE
  {
    if n == 0 then ZeroBlock() else WithMark(MarkBelow(n - 1), n - 1)
  }

  /** The bit of number `i` set: `1 << i % 8` in byte `i / 8`. */
  function WithMark(b: Block, i: nat): (r: Block)
    requires i < 8 * BLOCK_SIZE
  {
    ByteWidth(b[i / 8], i % 8);
    b[i / 8 := WithBit(b[i / 8], i % 8)]
  }

  lemma MarkIsBit(b: Block, i: nat, j: nat)
    requires i < 8 * BLOCK_SIZE && j < 8 * BLOCK_SIZE
    ensures BitAt(WithMark(b, i), j) == (i == j || BitAt(b, j))
  {
    hide WithBit, Bit;
    WithBitAt(b[i / 8], i % 8, j % 8);
  }

  lemma {:induction false} MarkedBelow(n: nat, j: nat)
    requires n <= 8 * BLOCK_SIZE && j < 8 * BLOCK_SIZE
    ensures BitAt(MarkBelow(n), j) <==> j < n
  {
    if n == 0 {
      ZeroBit(j % 8);
    } else {
      MarkedBelow(n - 1, j);
      MarkIsBit(MarkBelow(n - 1), n - 1, j);
    }
  }

  // ----- directory entries

  /** The stores of `put_dentry` into a directory block. */
  function PutDentry(buf: Block, slot: nat, name: seq<byte>, inum: u32): (r: Block)
    requires slot < 64
  {
    var cut := if |name| < MAXLEN_FILENAME then name else name[..MAXLEN_FILENAME];
    Splice(Splice(buf, slot * 64, cut), slot * 64 + MAXLEN_FILENAME, ToLe(inum, 4))
  }

  lemma PutDentrySlot(buf: Block, slot: nat, name: seq<byte>, inum: u32, k: nat)
    requires slot < 64 && k < 64 && forall o :: 0 <= o < 64 ==> Slot(buf, slot)[o] == 0
    ensures Slot(PutDentry(buf, slot, name, inum), k) == if k == slot then Key(name) + ToLe(inum, 4) else Slot(buf, k)
  {
    hide ToLe;
    var r, e := PutDentry(buf, slot, name, inum), Key(name) + ToLe(inum, 4);
    if k == slot {
      forall o | 0 <= o < 64 ensures Slot(r, k)[o] == e[o] {
        assert Slot(buf, slot)[o] == buf[slot * 64 + o];
      }
    } else {
      forall o | 0 <= o < 64 ensures Slot(r, k)[o] == Slot(buf, k)[o] {}
    }
  }

  function Ascii(s: string): (r: seq<byte>)
    requires forall i :: 0 <= i < |s| ==> s[i] < 128 as char
    ensures |r| == |s|
  {
    seq(|s|, i requires 0 <= i < |s| => s[i] as int)
  }

  /** The names in the root directory and what they lead to. */
  const ENTRIES: seq<(seq<byte>, u32)> :=
    [(Ascii("."), 0), (Ascii(".."), 0), (Ascii("ABCD.txt"), 1), (Ascii("abcd.txt"), 2), (Ascii("hello"), 3)]

  function DirBlock(n: nat): (b: Block)
    requires n <= |ENTRIES|
  {
    if n == 0 then ZeroBlock() else PutDentry(DirBlock(n - 1), n - 1, ENTRIES[n - 1].0, ENTRIES[n - 1].1)
  }

  lemma {:induction false} DirBlockSlot(n: nat, k: nat)
    requires n <= |ENTRIES| && k < 64
    ensures k < n ==> Slot(DirBlock(n), k) == Key(ENTRIES[k].0) + ToLe(ENTRIES[k].1, 4)
    ensures k >= n ==> forall o :: 0 <= o < 64 ==> Slot(DirBlock(n), k)[o] == 0
  {
    hide Key, ToLe, PutDentry;
    if n > 0 {
      DirBlockSlot(n - 1, n - 1);
      DirBlockSlot(n - 1, k);
      PutDentrySlot(DirBlock(n - 1), n - 1, ENTRIES[n - 1].0, ENTRIES[n - 1].1, k);
    }
  }

  // ----- the image

  /** The blocks that the program for the first process takes. */
  function ElfBlocks(elf: seq<byte>): nat { (|elf| + BLOCK_SIZE - 1) / BLOCK_SIZE }

  function ElfBlock(elf: seq<byte>, i: nat): (b: Block)
    requires i < ElfBlocks(elf)
  {
    Splice(ZeroBlock(), 0, elf[i * BLOCK_SIZE..Min(i * BLOCK_SIZE + BLOCK_SIZE, |elf|)])
  }

  /** The index block for the blocks behind the tenth. */
  function Indirect(n: nat): (b: Block)
    requires n <= NINDIRECT
  {
    if n == 0 then ZeroBlock() else Splice(Indirect(n - 1), 4 * (n - 1), ToLe(20 + n - 1, 4))
  }

  lemma SplicedEntry(b: Block, k: nat, v: u32)
    requires k < NINDIRECT
    ensures Splice(b, 4 * k, ToLe(v, 4)) == PutEntry(b, k, v)
  {
    hide Splice;
    Le32(v);
  }

  lemma {:induction false} IndirectAt(n: nat, k: nat)
    requires n <= NINDIRECT && k < NINDIRECT
    ensures Entry(Indirect(n), k) == if k < n then 20 + k else 0
  {
    hide Entry, PutEntry, Splice, ToLe;
    if n == 0 {
      ZeroEntry(k);
    } else {
      IndirectAt(n - 1, k);
      SplicedEntry(Indirect(n - 1), n - 1, 20 + n - 1);
      PutEntryGet(Indirect(n - 1), n - 1, 20 + n - 1, k);
    }
  }

  function ElfIndex(eb: nat): (ix: seq<u32>)
    requires eb <= 996
  {
    seq(Min(eb, 10), i => 10 + i) + if eb > 10 then [10 + eb] else []
  }

  function InodeBlock0(elf: seq<byte>): (b: Block)
    requires ElfBlocks(elf) <= 996
  {
    var a := PutInode(ZeroBlock(), 0, 1, 0, 0, 1, 5 * 64, [7]);
    var b := PutInode(a, 1, 2, 0, 0, 1, BLOCK_SIZE, [8]);
    var c := PutInode(b, 2, 2, 0, 0, 1, BLOCK_SIZE, [9]);
    PutInode(c, 3, 2, 0, 0, 1, |elf|, ElfIndex(ElfBlocks(elf)))
  }

  /** The letters of the alphabet, over and over. */
  function Letters(first: byte): (b: Block)
    requires first < 200
  {
    seq(BLOCK_SIZE, i requires 0 <= i < BLOCK_SIZE => first + i % 26)
  }

  function BlockOf(elf: seq<byte>, b: nat): Block
    requires ElfBlocks(elf) <= 996
  {
    var eb := ElfBlocks(elf);
    if b == 1 then MarkBelow(4)
    else if b == INODE_START then InodeBlock0(elf)
    else if b == BMAP_START then MarkBelow(if eb > 10 then 5 + eb else 4 + eb)
    else if b == 7 then DirBlock(|ENTRIES|)
    else if b == 8 then Letters(65)
    else if b == 9 then Letters(97)
    else if 10 <= b < 10 + eb then ElfBlock(elf, b - 10)
    else if b == 10 + eb && eb > 10 then Indirect(eb - 10)
    else ZeroBlock()
  }

  /** The image with files, for a program of any contents that fits; block 0, the superblock, is not modelled. */
  ghost function Image(elf: seq<byte>): (d: Disk)
    requires ElfBlocks(elf) <= 996
    ensures |d| == TOTAL && forall b :: 0 <= b < TOTAL ==> d[b] == BlockOf(elf, b)
  {
    seq(TOTAL, b requires 0 <= b < TOTAL => BlockOf(elf, b))
  }

  // ----- the image as the kernel reads it

  lemma ImageLayout(elf: seq<byte>)
    requires ElfBlocks(elf) <= 996
    ensures Layout(SB, |Image(elf)|)
  {
  }

  lemma ImageLive(elf: seq<byte>, n: nat)
    requires ElfBlocks(elf) <= 996 && Layout(SB, |Image(elf)|)
    ensures Live(SB, Image(elf), n) <==> n < 4
  {
    if n < SB.ninodes { MarkedBelow(4, n); }
    hide MarkBelow, BitAt, Image;
    assert Image(elf)[1] == BlockOf(elf, 1);
  }

  /** The fields of the four inodes. */
  function Inode(elf: seq<byte>, n: nat): InodeDisk
    requires ElfBlocks(elf) <= 996 && n < 4
  {
    var ix := if n < 3 then [7 + n] else ElfIndex(ElfBlocks(elf));
    InodeDisk(if n == 0 then 1 else 2, 0, 0, 1, if n == 0 then 320 else if n < 3 then BLOCK_SIZE else |elf|,
              Padded(ix))
  }

  lemma ElfFits(elf: seq<byte>)
    requires ElfBlocks(elf) <= 996
    ensures |elf| <= 996 * BLOCK_SIZE
  {
  }

  lemma Block0Inode(elf: seq<byte>, n: nat)
    requires ElfBlocks(elf) <= 996 && n < 4
    ensures InodeIn(InodeBlock0(elf), n) == Inode(elf, n)
  {
    hide PutInode, InodeIn, IndexOf, ElfIndex, ElfBlocks, Padded, ZeroBlock;
    ElfFits(elf);
    var a := PutInode(ZeroBlock(), 0, 1, 0, 0, 1, 5 * 64, [7]);
    var b := PutInode(a, 1, 2, 0, 0, 1, BLOCK_SIZE, [8]);
    var c := PutInode(b, 2, 2, 0, 0, 1, BLOCK_SIZE, [9]);
    PutInodeRead(c, 3, 2, 0, 0, 1, |elf|, ElfIndex(ElfBlocks(elf)), n);
    if n < 3 { PutInodeRead(b, 2, 2, 0, 0, 1, BLOCK_SIZE, [9], n); }
    if n < 2 { PutInodeRead(a, 1, 2, 0, 0, 1, BLOCK_SIZE, [8], n); }
    if n < 1 { PutInodeRead(ZeroBlock(), 0, 1, 0, 0, 1, 5 * 64, [7], n); }
  }

  lemma ImageInode(elf: seq<byte>, n: nat)
    requires ElfBlocks(elf) <= 996 && Layout(SB, |Image(elf)|) && n < 4
    ensures InodeAt(SB, Image(elf), n) == Inode(elf, n)
  {
    hide InodeIn, Image, ElfBlocks, InodeBlock0, Inode;
    Block0Inode(elf, n);
    assert Image(elf)[2] == BlockOf(elf, 2);
  }

  /** The block number at each place of the four trees. */
  function BlockAt(eb: nat, n: nat, p: Pos): nat {
    match p
    case Direct(i) => if n < 3 then (if i == 0 then 7 + n else 0) else if i < eb then 10 + i else 0
    case Single => if n == 3 && eb > 10 then 10 + eb else 0
    case SingleLeaf(k) => if n == 3 && k + 10 < eb then 20 + k else 0
    case _ => 0
  }

  lemma ImageTree(elf: seq<byte>, n: nat, p: Pos)
    requires ElfBlocks(elf) <= 996 && Layout(SB, |Image(elf)|) && n < 4 && ValidPos(p)
    ensures T(SB, Image(elf), n, p) == BlockAt(ElfBlocks(elf), n, p)
  {
    hide Image, InodeAt, Indirect, Entry, ElfBlocks, BlockOf, Inode;
    ImageInode(elf, n);
    forall i: nat | i < NINDEX ensures Inode(elf, n).index[i] == RootAt(ElfBlocks(elf), n, i) { InodeRoot(elf, n, i); }
    var eb, d := ElfBlocks(elf), Image(elf);
    if p.SingleLeaf? && n == 3 && eb > 10 {
      ImageIndirect(elf);
      IndirectAt(eb - 10, p.k);
    }
  }

  function RootAt(eb: nat, n: nat, i: nat): nat {
    if n < 3 then (if i == 0 then 7 + n else 0)
    else if i < 10 then (if i < eb then 10 + i else 0)
    else if i == 10 && eb > 10 then 10 + eb else 0
  }

  lemma InodeRoot(elf: seq<byte>, n: nat, i: nat)
    requires ElfBlocks(elf) <= 996 && n < 4 && i < NINDEX
    ensures Inode(elf, n).index[i] == RootAt(ElfBlocks(elf), n, i)
  {
    hide ElfBlocks;
  }

  lemma ImageIndirect(elf: seq<byte>)
    requires 10 < ElfBlocks(elf) <= 996
    ensures Image(elf)[10 + ElfBlocks(elf)] == Indirect(ElfBlocks(elf) - 10)
  {
  }

  lemma BlockUsed(eb: nat, n: nat, p: Pos)
    requires eb <= 996 && n < 4 && ValidPos(p) && BlockAt(eb, n, p) != 0
    ensures 7 <= BlockAt(eb, n, p) < if eb > 10 then 11 + eb else 10 + eb
  {
  }

  lemma BlockOnce(eb: nat, n: nat, p: Pos, m: nat, q: Pos)
    requires n < 4 && m < 4 && ValidPos(p) && ValidPos(q) && BlockAt(eb, n, p) == BlockAt(eb, m, q) != 0
    ensures n == m && p == q
  {
  }

  lemma ImageBitmap(elf: seq<byte>)
    requires ElfBlocks(elf) <= 996
    ensures var eb := ElfBlocks(elf); Image(elf)[BMAP_START] == MarkBelow(if eb > 10 then 5 + eb else 4 + eb)
  {
    hide ElfBlocks, MarkBelow;
  }

  lemma ImageMarked(elf: seq<byte>, b: nat)
    requires ElfBlocks(elf) <= 996 && Layout(SB, |Image(elf)|)
    requires var eb := ElfBlocks(elf); 7 <= b < if eb > 10 then 11 + eb else 10 + eb
    ensures Marked(SB, Image(elf), b)
  {
    hide Image, BitAt, MarkBelow, ElfBlocks, Layout;
    var d, eb := Image(elf), ElfBlocks(elf);
    ImageBitmap(elf);
    MarkedBelow(if eb > 10 then 5 + eb else 4 + eb, b - 7);
  }

  /** The kernel's bitmaps and trees: every block that is used is marked, and used once. */
  lemma ImageTrees(elf: seq<byte>)
    requires ElfBlocks(elf) <= 996
    ensures Trees(SB, Image(elf)) && Layout(SB, |Image(elf)|)
  {
    hide Image, T, Live, Marked, ElfBlocks, BlockAt, BlockOf;
    ImageLayout(elf);
    var d, eb := Image(elf), ElfBlocks(elf);
    forall n, p | Live(SB, d, n) && ValidPos(p) ensures n < 4 && T(SB, d, n, p) == BlockAt(eb, n, p) {
      ImageLive(elf, n);
      ImageTree(elf, n, p);
    }
    forall n, p | Live(SB, d, n) && ValidPos(p) && T(SB, d, n, p) != 0 ensures Marked(SB, d, T(SB, d, n, p)) {
      BlockUsed(eb, n, p);
      ImageMarked(elf, BlockAt(eb, n, p));
    }
    forall n, p, m, q | Live(SB, d, n) && ValidPos(p) && Live(SB, d, m) && ValidPos(q)
      && T(SB, d, n, p) != 0 && T(SB, d, n, p) == T(SB, d, m, q) ensures n == m && p == q
    {
      BlockOnce(eb, n, p, m, q);
    }
  }

  // ----- files and directories

  /** A byte of a file whose block is known. */
  lemma ImageByte(elf: seq<byte>, n: nat, off: nat)
    requires ElfBlocks(elf) <= 996 && Layout(SB, |Image(elf)|) && n < 4 && off < MAX_BYTES
    ensures var b := BlockAt(ElfBlocks(elf), n, LeafPos(off / BLOCK_SIZE));
      0 < b < TOTAL ==> FileByte(SB, Image(elf), n, off) == BlockOf(elf, b)[off % BLOCK_SIZE]
  {
    hide T, BlockAt, BlockOf, ElfBlocks;
    ImageTree(elf, n, LeafPos(off / BLOCK_SIZE));
  }

  /** The two text files hold the letters. */
  lemma ImageLetters(elf: seq<byte>)
    requires ElfBlocks(elf) <= 996 && Layout(SB, |Image(elf)|)
    ensures File(SB, Image(elf), 1) == Letters(65) && File(SB, Image(elf), 2) == Letters(97)
  {
    hide FileByte, Image, ElfBlocks, InodeAt;
    ImageInode(elf, 1);
    ImageInode(elf, 2);
    var f, g := File(SB, Image(elf), 1), File(SB, Image(elf), 2);
    forall o | 0 <= o < BLOCK_SIZE ensures f[o] == Letters(65)[o] && g[o] == Letters(97)[o] {
      ImageByte(elf, 1, o);
      ImageByte(elf, 2, o);
    }
  }

  lemma ElfOffset(len: nat, off: nat)
    requires off < len
    ensures off / BLOCK_SIZE < (len + BLOCK_SIZE - 1) / BLOCK_SIZE
    ensures off == off / BLOCK_SIZE * BLOCK_SIZE + off % BLOCK_SIZE
  {
  }

  /** The blocks of the program, in order. */
  lemma ElfBlockAt(elf: seq<byte>, off: nat)
    requires ElfBlocks(elf) <= 996 && off < |elf|
    ensures off < MAX_BYTES && off / BLOCK_SIZE < ElfBlocks(elf)
    ensures BlockAt(ElfBlocks(elf), 3, LeafPos(off / BLOCK_SIZE)) == 10 + off / BLOCK_SIZE < TOTAL
    ensures BlockOf(elf, 10 + off / BLOCK_SIZE)[off % BLOCK_SIZE] == elf[off]
  {
    ElfFits(elf);
    ElfOffset(|elf|, off);
    var eb, i, j := ElfBlocks(elf), off / BLOCK_SIZE, off % BLOCK_SIZE;
    assert i < eb;
    hide ElfBlocks;
    assert BlockOf(elf, 10 + i) == ElfBlock(elf, i);
    assert ElfBlock(elf, i)[j] == elf[i * BLOCK_SIZE + j];
  }

  /** The kernel reads back the program, whatever its bytes and also where it needs the index block. */
  lemma ImageElf(elf: seq<byte>)
    requires ElfBlocks(elf) <= 996 && Layout(SB, |Image(elf)|)
    ensures File(SB, Image(elf), 3) == elf
  {
    hide FileByte, Image, ElfBlocks, InodeAt, BlockAt, BlockOf;
    ImageInode(elf, 3);
    var f := File(SB, Image(elf), 3);
    forall o | 0 <= o < |elf| ensures f[o] == elf[o] {
      ElfBlockAt(elf, o);
      ImageByte(elf, 3, o);
    }
  }

  /** The bytes of the root directory. */
  lemma ImageRoot(elf: seq<byte>, k: nat)
    requires ElfBlocks(elf) <= 996 && Layout(SB, |Image(elf)|) && k < |ENTRIES|
    ensures |File(SB, Image(elf), 0)| == 320
    ensures EntryBytes(File(SB, Image(elf), 0), k) == Key(ENTRIES[k].0) + ToLe(ENTRIES[k].1, 4)
  {
    hide FileByte, Image, ElfBlocks, InodeAt, DirBlock, Key, ToLe;
    ImageInode(elf, 0);
    var f := File(SB, Image(elf), 0);
    DirBlockSlot(|ENTRIES|, k);
    forall o | 0 <= o < 64 ensures EntryBytes(f, k)[o] == Slot(DirBlock(|ENTRIES|), k)[o] {
      ImageByte(elf, 0, 64 * k + o);
    }
  }

  lemma EntryRead(f: seq<byte>, k: nat, name: seq<byte>, inum: u32)
    requires 64 * k + 64 <= |f| && EntryBytes(f, k) == Key(name) + ToLe(inum, 4) && name != [] && name[0] != 0
    ensures IsUsed(EntryBytes(f, k)) && NameOf(EntryBytes(f, k)) == Key(name) && InumOf(EntryBytes(f, k)) == inum
  {
    hide ToLe, Key, Rd32;
    var e := EntryBytes(f, k);
    assert e[60..64] == ToLe(inum, 4);
    Reads32(inum, e, 60);
  }

  /** The five names differ in what is stored. */
  lemma NamesDiffer(j: nat, k: nat)
    requires j < |ENTRIES| && k < |ENTRIES| && Key(ENTRIES[j].0) == Key(ENTRIES[k].0)
    ensures j == k
  {
    var a, b := Key(ENTRIES[j].0), Key(ENTRIES[k].0);
    assert a[0] == ENTRIES[j].0[0] && b[0] == ENTRIES[k].0[0];
    assert a[1] == b[1];
  }

  /** The root directory's map. */
  ghost function RootMap(): map<seq<byte>, nat> {
    map[Key(Ascii(".")) := 0, Key(Ascii("..")) := 0, Key(Ascii("ABCD.txt")) := 1, Key(Ascii("abcd.txt")) := 2,
        Key(Ascii("hello")) := 3]
  }

  lemma RootMapAt(k: nat)
    requires k < |ENTRIES|
    ensures Key(ENTRIES[k].0) in RootMap() && RootMap()[Key(ENTRIES[k].0)] == ENTRIES[k].1
    ensures ENTRIES[k].0 != [] && ENTRIES[k].0[0] != 0
  {
    forall j: nat | j < |ENTRIES| && j != k ensures Key(ENTRIES[j].0) != Key(ENTRIES[k].0) {
      if Key(ENTRIES[j].0) == Key(ENTRIES[k].0) { NamesDiffer(j, k); }
    }
    hide Key, Ascii;
    assert ENTRIES[0].0 == Ascii(".") && ENTRIES[1].0 == Ascii("..") && ENTRIES[2].0 == Ascii("ABCD.txt");
    assert ENTRIES[3].0 == Ascii("abcd.txt") && ENTRIES[4].0 == Ascii("hello");
  }

  /** A directory of used entries with distinct names stands for the map of these. */
  lemma DirOfEntries(f: seq<byte>, ks: seq<seq<byte>>, m: map<seq<byte>, nat>)
    requires |f| == 64 * |ks| && NoDup(ks)
    requires forall k: nat :: k < |ks| ==> NamedAt(f, k, ks[k]) && ks[k] in m && m[ks[k]] == InumOf(EntryBytes(f, k))
    requires forall key :: key in m ==> key in ks
    ensures DirFile(f) && Dir(f) == m
  {
    assert Count(f) == |ks|;
    forall i: nat, k | NamedAt(f, i, k) ensures i < |ks| && ks[i] == k {}
    forall k: nat | k < |ks| ensures ks[k] in Dir(f) && Dir(f)[ks[k]] == m[ks[k]] { DirHas(f, k, ks[k]); }
    forall key | key in Dir(f) ensures key in ks {
      var i := DirFrom(f, key);
    }
    hide NamedAt, InumOf, EntryBytes, Dir, DirFile;
    forall key | key in m ensures key in Dir(f) && Dir(f)[key] == m[key] {
      var k :| 0 <= k < |ks| && ks[k] == key;
    }
    assert Dir(f).Keys == m.Keys;
  }

  lemma ImageEntry(elf: seq<byte>, k: nat)
    requires ElfBlocks(elf) <= 996 && Layout(SB, |Image(elf)|) && k < |ENTRIES|
    ensures var f := File(SB, Image(elf), 0);
      && |f| == 320 && NamedAt(f, k, Key(ENTRIES[k].0)) && InumOf(EntryBytes(f, k)) == ENTRIES[k].1
  {
    hide File, Image, ElfBlocks, Key, ToLe, Ascii;
    ImageRoot(elf, k);
    RootMapAt(k);
    EntryRead(File(SB, Image(elf), 0), k, ENTRIES[k].0, ENTRIES[k].1);
  }

  lemma RootKeys(ks: seq<seq<byte>>)
    requires |ks| == |ENTRIES| && forall k :: 0 <= k < |ks| ==> ks[k] == Key(ENTRIES[k].0)
    ensures NoDup(ks) && forall key :: key in RootMap() ==> key in ks
  {
    forall j: nat, k: nat | j < k < |ks| ensures ks[j] != ks[k] {
      if ks[j] == ks[k] { NamesDiffer(j, k); }
    }
    hide Key, Ascii;
    assert ks[0] in ks && ks[1] in ks && ks[2] in ks && ks[3] in ks && ks[4] in ks;
  }

  /** The root directory as the kernel reads it. */
  lemma ImageDir(elf: seq<byte>)
    requires ElfBlocks(elf) <= 996 && Layout(SB, |Image(elf)|)
    ensures DirFile(File(SB, Image(elf), 0)) && Dir(File(SB, Image(elf), 0)) == RootMap()
  {
    hide File, Image, ElfBlocks, Key, Ascii, NamedAt, EntryBytes, InumOf, RootMap, Layout;
    var f := File(SB, Image(elf), 0);
    var ks := seq(|ENTRIES|, k requires 0 <= k < |ENTRIES| => Key(ENTRIES[k].0));
    ImageEntry(elf, 0);
    forall k: nat | k < |ks|
      ensures NamedAt(f, k, ks[k]) && ks[k] in RootMap() && RootMap()[ks[k]] == InumOf(EntryBytes(f, k))
    {
      ImageEntry(elf, k);
      RootMapAt(k);
    }
    RootKeys(ks);
    DirOfEntries(f, ks, RootMap());
  }

  // ----- the tree

  ghost function RootNode(n: nat): INode {
    if n == 0 then INode(true, 1, RootMap()) else INode(false, 1, map[])
  }

  ghost function RootTree(): Tree {
    map n: nat | n < 4 :: RootNode(n)
  }

  lemma ImageNode(elf: seq<byte>, n: nat)
    requires ElfBlocks(elf) <= 996 && Layout(SB, |Image(elf)|) && n < 4
    ensures DirOk(SB, Image(elf), n) && NodeOf(SB, Image(elf), n) == RootNode(n)
  {
    hide File, Image, ElfBlocks, InodeAt, RootMap, T, DirFile, Dir;
    ImageInode(elf, n);
    if n == 0 {
      ImageDir(elf);
      ImageTree(elf, 0, LeafPos(0));
    }
  }

  lemma ImageTreeOf(elf: seq<byte>)
    requires ElfBlocks(elf) <= 996 && Layout(SB, |Image(elf)|)
    ensures Dirs(SB, Image(elf)) && TreeOf(SB, Image(elf)) == RootTree()
  {
    hide Image, ElfBlocks, RootNode, DirOk, NodeOf, Layout, Live;
    var d := Image(elf);
    forall n: nat | Live(SB, d, n) ensures n < SB.ninodes && n < 4 && DirOk(SB, d, n) {
      ImageLive(elf, n);
      ImageNode(elf, n);
    }
    var t := TreeOf(SB, d);
    forall n: nat ensures n in t <==> n < 4 { ImageLive(elf, n); }
    forall n: nat | n < 4 ensures t[n] == RootNode(n) { ImageNode(elf, n); }
    assert t.Keys == RootTree().Keys;
  }

  /** Each data file is named once. */
  lemma RootNames(k: nat)
    requires 2 <= k < |ENTRIES|
    ensures NamesOf(RootTree(), k - 1) == {(0, Key(ENTRIES[k].0))}
  {
    hide Key, Ascii, RootMap;
    var ks := seq(|ENTRIES|, i requires 0 <= i < |ENTRIES| => Key(ENTRIES[i].0));
    RootKeys(ks);
    RootMapAt(k);
    forall key | key in RootMap() && RootMap()[key] == k - 1 ensures key == ks[k] {
      var i :| 0 <= i < |ks| && ks[i] == key;
      RootMapAt(i);
    }
  }

  lemma RootTreeOk()
    ensures TreeOk(RootTree()) && forall i :: i in RootTree() ==> RootTree()[i].nlink > 0
  {
    hide NamesOf, Key, Ascii;
    RootNames(2);
    RootNames(3);
    RootNames(4);
    var t := RootTree();
    forall i: nat | i in t && !t[i].dir ensures t[i].entries == map[] && t[i].nlink == |NamesOf(t, i)| {
      assert i == 1 || i == 2 || i == 3;
    }
  }

  /**
    The image is one the kernel can start from, for a program of any contents that fits: consistent bitmaps, trees and
    directories, with the names the tool gave and the bytes it was given.
  */
  lemma ImageStarts(elf: seq<byte>)
    requires ElfBlocks(elf) <= 996
    ensures var d := Image(elf);
      && Trees(SB, d) && Dirs(SB, d) && TreeOf(SB, d) == RootTree() && TreeOk(RootTree())
      && (forall i :: i in RootTree() ==> RootTree()[i].nlink > 0)
      && File(SB, d, 1) == Letters(65) && File(SB, d, 2) == Letters(97) && File(SB, d, 3) == elf
  {
    hide Image, ElfBlocks, RootTree, Trees, Dirs, TreeOf, TreeOk, File, Letters;
    ImageTrees(elf);
    ImageTreeOf(elf);
    RootTreeOk();
    ImageLetters(elf);
    ImageElf(elf);
  }
}
