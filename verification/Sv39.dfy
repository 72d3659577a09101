/**
  Addresses and page-table entries (kernel/src/mem/addr.rs and pte.rs).  Bit masks and shifts are written as division
  and remainder by powers of two; the layout is that of Sv39, section 4.4 of the RISC-V Privileged Architecture.
*/
module Sv39 {
  const PGSIZE := 4096
  const PGNUM := 512
  const VA_MAX := 0x40_0000_0000      // 1 << 38
  const ADDRESS_SPACE := 0x1_0000_0000_0000_0000 // 1 << 64
  const PA_MAX := 0x100_0000_0000_0000 // 1 << 56
  const PPN_MAX := 0x1000_0000_0000   // 1 << 44

  // ----- addr.rs

  function AlignDown(v: nat): (r: nat)
    ensures r <= v < r + PGSIZE && r % PGSIZE == 0
  {
    v - v % PGSIZE
  }

  function AlignUp(v: nat): (r: nat)
    ensures v <= r < v + PGSIZE && r % PGSIZE == 0
  {
    AlignDown(v + PGSIZE - 1)
  }

  /** The index of `va` in the table of the given level. */
  function Vpn(va: nat, level: nat): (i: nat)
    requires level < 3
    ensures i < PGNUM
  {
    if level == 0 then va / 0x1000 % PGNUM
    else if level == 1 then va / 0x20_0000 % PGNUM
    else va / 0x4000_0000 % PGNUM
  }

  // ----- pte.rs

  const PTE_V := 1
  const PTE_R := 2
  const PTE_W := 4
  const PTE_X := 8
  const PTE_U := 16
  const PTE_G := 32
  const PTE_A := 64
  const PTE_D := 128

  function PaToPte(pa: nat, flags: nat): (pte: nat) {
    pa / PGSIZE % PPN_MAX * 1024 + flags % 1024
  }

  function PteToPa(pte: nat): (pa: nat)
    ensures pa % PGSIZE == 0 && pa < PA_MAX
  {
    pte / 1024 % PPN_MAX * PGSIZE
  }

  function FlagsOf(pte: nat): (f: nat)
    ensures f < 1024
  {
    pte % 1024
  }

  predicate IsValid(pte: nat) { pte % 2 == 1 }

  predicate IsLeaf(pte: nat) { pte / 2 % 8 != 0 }

  predicate IsTable(pte: nat) { IsValid(pte) && !IsLeaf(pte) }

  predicate HasU(flags: nat) { flags / 16 % 2 == 1 }
  predicate HasR(flags: nat) { flags / 2 % 2 == 1 }
  predicate HasW(flags: nat) { flags / 4 % 2 == 1 }
  predicate HasX(flags: nat) { flags / 8 % 2 == 1 }

  /** `flags | PTE_V` */
  function WithV(flags: nat): (r: nat)
    ensures IsValid(r) && IsLeaf(r) == IsLeaf(flags)
  {
    if flags % 2 == 1 then flags else flags + 1
  }

  /** Packing and unpacking an entry. */
  lemma PackUnpack(pa: nat, flags: nat)
    requires pa % PGSIZE == 0 && pa < PA_MAX
    ensures PteToPa(PaToPte(pa, flags)) == pa
    ensures FlagsOf(PaToPte(pa, flags)) == flags % 1024
    ensures IsValid(PaToPte(pa, flags)) == IsValid(flags) && IsLeaf(PaToPte(pa, flags)) == IsLeaf(flags)
  {
    var ppn := pa / PGSIZE;
    assert PaToPte(pa, flags) == ppn * 1024 + flags % 1024;
    assert PaToPte(pa, flags) / 1024 == ppn;
    LowBits(ppn, flags);
  }

  lemma LowBits(ppn: nat, flags: nat)
    ensures (ppn * 1024 + flags % 1024) % 1024 == flags % 1024
    ensures IsValid(ppn * 1024 + flags % 1024) == IsValid(flags)
    ensures IsLeaf(ppn * 1024 + flags % 1024) == IsLeaf(flags)
  {
    var q, f := flags / 1024, flags % 1024;
    assert flags == q * 1024 + f;
    LowBitsOf(ppn, f);
    LowBitsOf(q, f);
  }

  lemma LowBitsOf(n: nat, f: nat)
    requires f < 1024
    ensures (n * 1024 + f) % 1024 == f && (n * 1024 + f) % 2 == f % 2 && (n * 1024 + f) / 2 % 8 == f / 2 % 8
  {
    LowTen(n, f);
    EvenBit(n * 512, f);
    Half(n * 512, f);
    MiddleBits(n * 64, f / 2);
  }

  lemma LowTen(n: nat, f: nat)
    requires f < 1024
    ensures (n * 1024 + f) % 1024 == f
  {
  }

  lemma EvenBit(n: nat, f: nat)
    ensures (n * 2 + f) % 2 == f % 2
  {
  }

  lemma Half(n: nat, f: nat)
    ensures (n * 2 + f) / 2 == n + f / 2
  {
  }

  lemma MiddleBits(n: nat, f: nat)
    ensures (n * 8 + f) % 8 == f % 8
  {
  }

  // ----- the page a virtual address lies in

  /** The page number of table indices (i, j, k). */
  function PageOf(i: nat, j: nat, k: nat): nat {
    (i * PGNUM + j) * PGNUM + k
  }

  lemma VpnOf(va: nat)
    requires va < 2 * VA_MAX
    ensures PageOf(Vpn(va, 2), Vpn(va, 1), Vpn(va, 0)) == va / PGSIZE
    ensures va < VA_MAX ==> Vpn(va, 2) < 256
  {
    var p := va / 0x1000;
    assert va / 0x20_0000 == p / 512;
    assert va / 0x4000_0000 == p / 512 / 512;
  }
}
