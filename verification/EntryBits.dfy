/**
  The bits of a page-table entry (kernel/src/mem/pte.rs), in the layout of section 4.4 of the RISC-V Privileged
  Architecture: flags in bits 0 to 9, the frame number in bits 10 to 53.
*/
module EntryBits {
  import opened Bits
  import opened Sv39

  /** A word of a high part and `w` low bits. */
  lemma {:induction false} JoinedBit(n: nat, f: nat, w: nat, i: nat)
    requires f < Pow2(w)
    ensures Bit(n * Pow2(w) + f, i) == if i < w then Bit(f, i) else Bit(n, i - w)
    decreases w
  {
    if w > 0 {
      var x := n * Pow2(w - 1);
      assert n * Pow2(w) == 2 * x;
      assert (2 * x + f) / 2 == x + f / 2 && (2 * x + f) % 2 == f % 2;
      if i > 0 { JoinedBit(n, f / 2, w - 1, i - 1); }
    }
  }

  /** The two parts of such a word. */
  lemma PartBit(n: nat, f: nat, w: nat, i: nat)
    requires f < Pow2(w)
    ensures Bit(n, i) == Bit(n * Pow2(w) + f, i + w)
    ensures Bit(f, i) == (i < w && Bit(n * Pow2(w) + f, i))
  {
    hide Pow2, Bit;
    JoinedBit(n, f, w, i + w);
    JoinedBit(n, f, w, i);
    if i >= w {
      JoinedBit(0, f, w, i);
      ZeroBit(i - w);
    }
  }

  lemma Powers()
    ensures Pow2(10) == 1024 && Pow2(12) == PGSIZE && Pow2(44) == PPN_MAX
  {
    assert Pow2(5) == 32;
    assert Pow2(10) == 1024;
    assert Pow2(20) == 0x10_0000 by { assert Pow2(15) == 0x8000; }
    assert Pow2(30) == 0x4000_0000 by { assert Pow2(25) == 0x200_0000; }
    assert Pow2(44) == PPN_MAX by { assert Pow2(35) == 0x8_0000_0000; assert Pow2(40) == 0x100_0000_0000; }
  }

  /** Which bit of the address or the flags each bit of an entry is. */
  lemma EntryLayout(pa: nat, flags: nat, i: nat)
    ensures Bit(PaToPte(pa, flags), i) == if i < 10 then Bit(flags, i) else i < 54 && Bit(pa, i + 2)
  {
    hide Pow2, Bit;
    Powers();
    var ppn := pa / PGSIZE;
    JoinedBit(ppn % PPN_MAX, flags % 1024, 10, i);
    if i < 10 {
      PartBit(flags / 1024, flags % 1024, 10, i);
    } else {
      PartBit(ppn / PPN_MAX, ppn % PPN_MAX, 44, i - 10);
      PartBit(ppn, pa % PGSIZE, 12, i - 10);
    }
  }

  /** Which bit of an entry each bit of its address and its flags is. */
  lemma UnpackLayout(pte: nat, i: nat)
    ensures Bit(FlagsOf(pte), i) == (i < 10 && Bit(pte, i))
    ensures Bit(PteToPa(pte), i) == (12 <= i < 56 && Bit(pte, i - 2))
  {
    hide Pow2, Bit;
    Powers();
    PartBit(pte / 1024, pte % 1024, 10, i);
    var ppn := pte / 1024 % PPN_MAX;
    JoinedBit(ppn, 0, 12, i);
    if i < 12 {
      ZeroBit(i);
    } else {
      PartBit(pte / 1024 / PPN_MAX, ppn, 44, i - 12);
      PartBit(pte / 1024, pte % 1024, 10, i - 12);
    }
  }

  lemma Halved(x: nat)
    ensures x / 4 == x / 2 / 2
  {
  }

  lemma LowThree(y: nat)
    ensures y % 8 == 0 <==> y % 2 == 0 && y / 2 % 2 == 0 && y / 2 / 2 % 2 == 0
  {
    var q, r := y / 8, y % 8;
    EvenBit(4 * q, r);
    Half(4 * q, r);
    EvenBit(2 * q, r / 2);
    Half(2 * q, r / 2);
    EvenBit(q, r / 2 / 2);
    assert r == 0 || r == 1 || r == 2 || r == 3 || r == 4 || r == 5 || r == 6 || r == 7;
  }

  /** The tests on flags look at bits 0 to 4. */
  lemma TestedBits(x: nat)
    ensures IsValid(x) == Bit(x, 0) && HasR(x) == Bit(x, 1) && HasW(x) == Bit(x, 2) && HasX(x) == Bit(x, 3)
    ensures HasU(x) == Bit(x, 4) && IsLeaf(x) == (Bit(x, 1) || Bit(x, 2) || Bit(x, 3))
  {
    Halved(x);
    Halved(x / 2);
    Halved(x / 4);
    LowThree(x / 2);
    assert x / 8 == x / 4 / 2 && x / 16 == x / 4 / 4 && x / 2 / 4 == x / 8;
    var y, z := x / 2, x / 4;
    assert Bit(x, 1) == Bit(y, 0) && Bit(x, 2) == Bit(y, 1) && Bit(y, 1) == Bit(z, 0);
    assert Bit(x, 3) == Bit(y, 2) && Bit(y, 2) == Bit(z, 1);
    assert Bit(x, 4) == Bit(y, 3) && Bit(y, 3) == Bit(z, 2) && Bit(z, 2) == Bit(z / 2, 1);
  }

  /** The same tests on the flags of an entry. */
  lemma EntryTests(pte: nat)
    ensures HasR(FlagsOf(pte)) == Bit(pte, 1) && HasW(FlagsOf(pte)) == Bit(pte, 2)
    ensures HasX(FlagsOf(pte)) == Bit(pte, 3) && HasU(FlagsOf(pte)) == Bit(pte, 4)
  {
    hide *;
    TestedBits(FlagsOf(pte));
    UnpackLayout(pte, 1);
    UnpackLayout(pte, 2);
    UnpackLayout(pte, 3);
    UnpackLayout(pte, 4);
  }

  // ----- sums of flag constants

  const FLAGS := {PTE_V, PTE_R, PTE_W, PTE_X, PTE_U, PTE_G, PTE_A, PTE_D}

  /** Flag `p`'s share of the sum of a set. */
  function Share(s: set<nat>, p: nat): nat { if p in s then 1 else 0 }

  /** The sum of a set of flag constants, as an entry holds them. */
  function Sum(s: set<nat>): nat {
    PTE_V * Share(s, PTE_V) + PTE_R * Share(s, PTE_R) + PTE_W * Share(s, PTE_W) + PTE_X * Share(s, PTE_X)
    + PTE_U * Share(s, PTE_U) + PTE_G * Share(s, PTE_G) + PTE_A * Share(s, PTE_A) + PTE_D * Share(s, PTE_D)
  }

  /** The five lowest binary digits of a number, one by one. */
  lemma FiveDigits(v: nat, r: nat, w: nat, x: nat, u: nat, h: nat)
    requires v < 2 && r < 2 && w < 2 && x < 2 && u < 2
    ensures var f := v + 2 * (r + 2 * (w + 2 * (x + 2 * (u + 2 * h))));
      f % 2 == v && f / 2 % 2 == r && f / 4 % 2 == w && f / 8 % 2 == x && f / 16 % 2 == u
  {
    var f4 := u + 2 * h;
    var f3 := x + 2 * f4;
    var f2 := w + 2 * f3;
    var f1 := r + 2 * f2;
    var f := v + 2 * f1;
    assert f / 2 == f1 && f1 / 2 == f2 && f2 / 2 == f3 && f3 / 2 == f4;
    Halved(f);
    Halved(f2);
    assert f / 8 == f / 4 / 2 && f / 16 == f / 4 / 4;
  }

  /** A sum of flags grants exactly what is in it. */
  lemma SumGrants(s: set<nat>)
    requires s <= FLAGS
    ensures IsValid(Sum(s)) <==> PTE_V in s
    ensures HasR(Sum(s)) <==> PTE_R in s
    ensures HasW(Sum(s)) <==> PTE_W in s
    ensures HasX(Sum(s)) <==> PTE_X in s
    ensures HasU(Sum(s)) <==> PTE_U in s
    ensures IsLeaf(Sum(s)) <==> PTE_R in s || PTE_W in s || PTE_X in s
  {
    SumDigits(s);
    TestedBits(Sum(s));
    hide Sum, IsLeaf, Bit;
  }

  lemma SumDigits(s: set<nat>)
    ensures var f := Sum(s);
      && f % 2 == Share(s, PTE_V) && f / 2 % 2 == Share(s, PTE_R) && f / 4 % 2 == Share(s, PTE_W)
      && f / 8 % 2 == Share(s, PTE_X) && f / 16 % 2 == Share(s, PTE_U)
  {
    var v, r, w, x, u := Share(s, PTE_V), Share(s, PTE_R), Share(s, PTE_W), Share(s, PTE_X), Share(s, PTE_U);
    var g, a, d := Share(s, PTE_G), Share(s, PTE_A), Share(s, PTE_D);
    assert v < 2 && r < 2 && w < 2 && x < 2 && u < 2;
    hide Share;
    FiveDigits(v, r, w, x, u, g + 2 * a + 4 * d);
    assert Sum(s) == v + 2 * (r + 2 * (w + 2 * (x + 2 * (u + 2 * (g + 2 * a + 4 * d)))));
  }
}
