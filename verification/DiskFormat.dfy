/**
  The on-disk formats of kernel/src/fs: little-endian integers, bitmap bits, index blocks of 1024 block numbers and
  64-byte inodes.  Each writer is paired with its reader by a round-trip lemma.
*/
module DiskFormat {
  import opened Base
  import opened Bits

  const U16 := 0x1_0000
  const U32 := 0x1_0000_0000
  const NINDIRECT := 1024
  const INODE_SIZE := 64
  const INODES_PER_BLOCK := 64
  const NINDEX := 13

  type u16 = x: int | 0 <= x < U16
  type u32 = x: int | 0 <= x < U32

  datatype InodeDisk = InodeDisk(kind: u16, major: u16, minor: u16, nlink: u16, size: u32, index: seq<u32>)

  predicate WellFormed(ino: InodeDisk) {
    |ino.index| == NINDEX
  }

  // ----- integers

  function LE16(v: u16): (s: seq<byte>)
    ensures |s| == 2
  {
    [v % 256, v / 256]
  }

  function LE32(v: u32): (s: seq<byte>)
    ensures |s| == 4
  {
    [v % 256, v / 256 % 256, v / 65536 % 256, v / 16777216]
  }

  function Rd16(s: seq<byte>, o: nat): (v: u16)
    requires o + 2 <= |s|
  {
    s[o] as int + 256 * s[o + 1] as int
  }

  function Rd32(s: seq<byte>, o: nat): (v: u32)
    requires o + 4 <= |s|
  {
    s[o] as int + 256 * s[o + 1] as int + 65536 * s[o + 2] as int + 16777216 * s[o + 3] as int
  }

  lemma Digits(v: u32)
    ensures v == v % 256 + 256 * (v / 256 % 256) + 65536 * (v / 65536 % 256) + 16777216 * (v / 16777216)
  {
    var a := v / 256;
    var b := a / 256;
    assert b == v / 65536 && b / 256 == v / 16777216;
  }

  lemma RoundTrip32(v: u32, s: seq<byte>, o: nat)
    requires o + 4 <= |s| && s[o..o + 4] == LE32(v)
    ensures Rd32(s, o) == v
  {
    Digits(v);
    var t := s[o..o + 4];
    assert t[0] == s[o] && t[1] == s[o + 1] && t[2] == s[o + 2] && t[3] == s[o + 3];
  }

  lemma Rd32Shift(s: seq<byte>, a: nat, o: nat)
    requires a + o + 4 <= |s|
    ensures Rd32(s[a..], o) == Rd32(s, a + o)
  {
  }

  lemma RoundTrip16(v: u16, s: seq<byte>, o: nat)
    requires o + 2 <= |s| && s[o..o + 2] == LE16(v)
    ensures Rd16(s, o) == v
  {
    var t := s[o..o + 2];
    assert t[0] == s[o] && t[1] == s[o + 1];
  }

  // ----- stores into a block

  /** Entry `k` of an index block. */
  function Entry(b: Block, k: nat): (v: u32)
    requires k < NINDIRECT
  {
    Rd32(b, 4 * k)
  }

  function PutEntry(b: Block, k: nat, v: u32): (r: Block)
    requires k < NINDIRECT
  {
    Splice(b, 4 * k, LE32(v))
  }

  lemma PutEntryGet(b: Block, k: nat, v: u32, j: nat)
    requires k < NINDIRECT && j < NINDIRECT
    ensures Entry(PutEntry(b, k, v), j) == if j == k then v else Entry(b, j)
  {
    var r := PutEntry(b, k, v);
    if j == k {
      assert r[4 * k..4 * k + 4] == LE32(v);
      RoundTrip32(v, r, 4 * k);
    }
  }

  lemma ZeroEntry(j: nat)
    requires j < NINDIRECT
    ensures Entry(ZeroBlock(), j) == 0
  {
  }

  // ----- bitmap bits

  /** Bit `i` of a bitmap block. */
  predicate BitAt(b: Block, i: nat)
    requires i < 8 * BLOCK_SIZE
  {
    Bit(b[i / 8], i % 8)
  }

  function SetBit(b: Block, i: nat): (r: Block)
    requires i < 8 * BLOCK_SIZE
  {
    ByteWidth(b[i / 8], i % 8);
    b[i / 8 := WithBit(b[i / 8], i % 8)]
  }

  function ClearBit(b: Block, i: nat): (r: Block)
    requires i < 8 * BLOCK_SIZE
  {
    ByteWidth(b[i / 8], i % 8);
    b[i / 8 := WithoutBit(b[i / 8], i % 8)]
  }

  lemma ByteWidth(x: byte, j: nat)
    requires j < 8
    ensures WithBit(x, j) < 256 && WithoutBit(x, j) < 256
  {
    assert Pow2(8) == 256;
    StaysInWidth(x, j, 8);
  }

  /** All bits of 0xFF are set, and no other byte has all bits set. */
  lemma FullByte(x: byte, j: nat)
    requires j < 8 && x == 0xFF
    ensures Bit(x, j)
  {
    assert Pow2(8) == 256;
    OnesBit(8, j);
  }

  lemma OnlyFullByte(x: byte)
    requires forall j :: 0 <= j < 8 ==> Bit(x, j)
    ensures x == 0xFF
  {
    assert Pow2(8) == 256;
    AllOnes(x, 8);
  }

  lemma SetBitAt(b: Block, i: nat, j: nat)
    requires i < 8 * BLOCK_SIZE && j < 8 * BLOCK_SIZE
    ensures BitAt(SetBit(b, i), j) == (i == j || BitAt(b, j))
  {
    ByteWidth(b[i / 8], i % 8);
    WithBitAt(b[i / 8], i % 8, j % 8);
  }

  lemma ClearBitAt(b: Block, i: nat, j: nat)
    requires i < 8 * BLOCK_SIZE && j < 8 * BLOCK_SIZE
    ensures BitAt(ClearBit(b, i), j) == (i != j && BitAt(b, j))
  {
    ByteWidth(b[i / 8], i % 8);
    WithoutBitAt(b[i / 8], i % 8, j % 8);
  }

  // ----- inodes

  /** The 64 bytes of an inode, in field order. */
  function EncodeInode(ino: InodeDisk): (s: seq<byte>)
    requires WellFormed(ino)
    ensures |s| == INODE_SIZE
  {
    LE16(ino.kind) + LE16(ino.major) + LE16(ino.minor) + LE16(ino.nlink) + LE32(ino.size) + EncodeIndex(ino.index)
  }

  function EncodeIndex(index: seq<u32>): (s: seq<byte>)
    ensures |s| == 4 * |index|
  {
    seq(4 * |index|, i requires 0 <= i < 4 * |index| => LE32(index[i / 4])[i % 4])
  }

  function DecodeInode(s: seq<byte>): (ino: InodeDisk)
    requires |s| == INODE_SIZE
    ensures WellFormed(ino)
    ensures forall i :: 0 <= i < NINDEX ==> ino.index[i] == Rd32(s, 12 + 4 * i)
  {
    InodeDisk(Rd16(s, 0), Rd16(s, 2), Rd16(s, 4), Rd16(s, 6), Rd32(s, 8),
              seq(NINDEX, i requires 0 <= i < NINDEX => Rd32(s, 12 + 4 * i)))
  }

  lemma IndexRoundTrip(index: seq<u32>, i: nat)
    requires i < |index|
    ensures Rd32(EncodeIndex(index), 4 * i) == index[i]
  {
    var s := EncodeIndex(index);
    assert s[4 * i..4 * i + 4] == LE32(index[i]);
    RoundTrip32(index[i], s, 4 * i);
  }

  lemma HeaderRoundTrip(ino: InodeDisk)
    requires WellFormed(ino)
    ensures var s := EncodeInode(ino);
      && Rd16(s, 0) == ino.kind && Rd16(s, 2) == ino.major && Rd16(s, 4) == ino.minor && Rd16(s, 6) == ino.nlink
      && Rd32(s, 8) == ino.size && s[12..] == EncodeIndex(ino.index)
  {
    hide LE16, LE32, EncodeIndex, Rd16, Rd32;
    var s := EncodeInode(ino);
    assert s[0..2] == LE16(ino.kind) && s[2..4] == LE16(ino.major);
    assert s[4..6] == LE16(ino.minor) && s[6..8] == LE16(ino.nlink) && s[8..12] == LE32(ino.size);
    RoundTrip16(ino.kind, s, 0);
    RoundTrip16(ino.major, s, 2);
    RoundTrip16(ino.minor, s, 4);
    RoundTrip16(ino.nlink, s, 6);
    RoundTrip32(ino.size, s, 8);
  }

  lemma InodeRoundTrip(ino: InodeDisk)
    requires WellFormed(ino)
    ensures DecodeInode(EncodeInode(ino)) == ino
  {
    HeaderRoundTrip(ino);
    hide EncodeInode, EncodeIndex, LE32, Rd32, Rd16;
    var s := EncodeInode(ino);
    var d := DecodeInode(s);
    forall i | 0 <= i < NINDEX ensures d.index[i] == ino.index[i] {
      IndexRoundTrip(ino.index, i);
      Rd32Shift(s, 12, 4 * i);
    }
    assert d.index == ino.index;
  }

  /** Inode `k` of an inode block. */
  function InodeIn(b: Block, k: nat): (ino: InodeDisk)
    requires k < INODES_PER_BLOCK
    ensures WellFormed(ino)
  {
    DecodeInode(b[INODE_SIZE * k..INODE_SIZE * k + INODE_SIZE])
  }

  function StoreInode(b: Block, k: nat, ino: InodeDisk): (r: Block)
    requires k < INODES_PER_BLOCK && WellFormed(ino)
  {
    Splice(b, INODE_SIZE * k, EncodeInode(ino))
  }

  lemma StoreInodeGet(b: Block, k: nat, ino: InodeDisk, j: nat)
    requires k < INODES_PER_BLOCK && j < INODES_PER_BLOCK && WellFormed(ino)
    ensures InodeIn(StoreInode(b, k, ino), j) == if j == k then ino else InodeIn(b, j)
  {
    var r := StoreInode(b, k, ino);
    if j == k {
      assert r[INODE_SIZE * k..INODE_SIZE * k + INODE_SIZE] == EncodeInode(ino);
      InodeRoundTrip(ino);
    } else {
      assert r[INODE_SIZE * j..INODE_SIZE * j + INODE_SIZE] == b[INODE_SIZE * j..INODE_SIZE * j + INODE_SIZE];
    }
  }
}
