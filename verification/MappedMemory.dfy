/**
  What a process can do with memory it got from `mmap` (kernel/src/mem/uvm.rs): it reads as zeros, it can be written,
  and it keeps what was written.
*/
module MappedMemory {
  import opened Base
  import opened Sv39
  import opened PageTree
  import opened PageTable
  import opened TranslationLaws
  import opened UserCopy
  import EntryBits
  import RegionList
  import RegionSeq
  import Mmap

  /** User memory reads as `d` from `va` on. */
  ghost predicate Reads(t: Tables, pg: Pages, root: nat, va: nat, d: seq<byte>) {
    forall r :: CopyInResult(t, pg, root, va, |d|, r) ==> r == Ok(d)
  }

  /** Bytes that are readable one by one are what `copyin` returns. */
  lemma ReadsAll(t: Tables, pg: Pages, root: nat, va: nat, d: seq<byte>)
    requires ReadOk(t, pg, root, va, d)
    ensures Reads(t, pg, root, va, d)
  {
    hide FaultAt, UserByte;
    forall r | CopyInResult(t, pg, root, va, |d|, r) ensures r == Ok(d) {
      if r.Ok? { assert r.value == d; }
    }
  }

  /** The flags of `map_pages` grant the user reading and writing. */
  lemma FlagsGrant()
    ensures var f := Mmap.MMAP_FLAGS + PTE_V; IsValid(f) && HasU(f) && HasR(f) && HasW(f) && !HasX(f)
  {
    var s := {PTE_V, PTE_R, PTE_W, PTE_U, PTE_A, PTE_D};
    assert EntryBits.Sum(s) == Mmap.MMAP_FLAGS + PTE_V;
    EntryBits.SumGrants(s);
  }

  lemma FreshGrants(t: Tables, pg0: Pages, pg: Pages, root: nat, x: nat)
    requires Mmap.FreshPage(t, pg0, pg, root, x) && x < USER_PAGES
    ensures UserPage(t, root, x) && Fault(t, root, x, false).None? && Fault(t, root, x, true).None?
  {
    FlagsGrant();
    hide Xlat, PteToPa, FlagsOf, HasU, HasR, HasW, HasX;
  }

  /** The user pages after pages [b, e) were added: the new ones and those of before. */
  lemma UserBefore(t0: Tables, pg0: Pages, t: Tables, pg: Pages, root: nat, b: nat, e: nat, x: nat)
    requires Mmap.Added(t0, pg0, t, pg, root, b, e) && UserPage(t, root, x) && Backed(t0, pg0, root)
    ensures !(b <= x < e) ==> PteToPa(Xlat(t, root, x)) in pg0
    ensures b <= x < e ==> PteToPa(Xlat(t, root, x)) in pg && PteToPa(Xlat(t, root, x)) !in pg0
  {
    hide Xlat, PteToPa, FlagsOf, HasU, TreeInv;
    if !(b <= x < e) { assert UserPage(t0, root, x); } else { assert Mmap.FreshPage(t, pg0, pg, root, x); }
  }

  lemma AddedBacked(t0: Tables, pg0: Pages, t: Tables, pg: Pages, root: nat, b: nat, e: nat)
    requires Mmap.Added(t0, pg0, t, pg, root, b, e) && Backed(t0, pg0, root)
    ensures Backed(t, pg, root)
  {
    hide UserPage, Xlat, PteToPa, TreeInv, Mmap.FreshPage;
    forall x: nat | UserPage(t, root, x) ensures x < NPAGES && PteToPa(Xlat(t, root, x)) in pg {
      assert x < NPAGES by { UserInRange(t, root, x); }
      UserBefore(t0, pg0, t, pg, root, b, e, x);
    }
  }

  lemma UserInRange(t: Tables, root: nat, x: nat)
    requires UserPage(t, root, x)
    ensures x < USER_PAGES && IsValid(Xlat(t, root, x))
  {
  }

  /** A new page has its frame for itself. */
  lemma AddedAlone(r: Regions, t0: Tables, pg0: Pages, t: Tables, pg: Pages, root: nat, b: nat, e: nat, wlo: nat,
                   whi: nat, x: nat)
    requires Mmap.Added(t0, pg0, t, pg, root, b, e) && Backed(t0, pg0, root)
    requires OwnsRange(r, t, pg, root, wlo, whi) && wlo <= b <= x < e <= whi <= USER_PAGES
    ensures Alone(t, root, x)
  {
    assert Mmap.FreshPage(t, pg0, pg, root, x);
    FreshGrants(t, pg0, pg, root, x);
    hide UserPage, Xlat, PteToPa, TreeInv, Mmap.FreshPage, Mmap.Added;
    UserBefore(t0, pg0, t, pg, root, b, e, x);
    forall y: nat
      | UserPage(t, root, y) && (UserInRange(t, root, y); PteToPa(Xlat(t, root, y)) == PteToPa(Xlat(t, root, x)))
      ensures y == x
    {
      UserBefore(t0, pg0, t, pg, root, b, e, y);
      UserInRange(t, root, x);
      UserInRange(t, root, y);
    }
  }

  // ----- a range of bytes in the new pages

  /** Addresses [va, va + n) lie in pages [b, e). */
  ghost predicate Within(va: nat, n: nat, b: nat, e: nat) {
    b * PGSIZE <= va && va + n <= e * PGSIZE
  }

  lemma PageWithin(va: nat, n: nat, b: nat, e: nat, i: nat)
    requires Within(va, n, b, e) && i < n
    ensures b <= (va + i) / PGSIZE < e
  {
  }

  lemma ByteGranted(t0: Tables, pg0: Pages, t: Tables, pg: Pages, root: nat, b: nat, e: nat, a: nat)
    requires Mmap.Added(t0, pg0, t, pg, root, b, e) && b <= a / PGSIZE < e <= USER_PAGES
    ensures Fault(t, root, a / PGSIZE, false).None? && Fault(t, root, a / PGSIZE, true).None?
    ensures UserByte(t, pg, root, a) == 0
  {
    var x := a / PGSIZE;
    assert Mmap.FreshPage(t, pg0, pg, root, x);
    FreshGrants(t, pg0, pg, root, x);
    hide Xlat, PteToPa, TreeInv, Fault;
  }

  /** New memory reads as zeros. */
  lemma NewZeros(t0: Tables, pg0: Pages, t: Tables, pg: Pages, root: nat, b: nat, e: nat, va: nat, n: nat)
    requires Mmap.Added(t0, pg0, t, pg, root, b, e) && e <= USER_PAGES && Within(va, n, b, e)
    ensures Reads(t, pg, root, va, seq(n, _ => 0))
  {
    hide Mmap.Added, Within, Fault, UserByte, Reads;
    var z: seq<byte> := seq(n, _ => 0);
    forall i: nat | i < n
      ensures FaultAt(t, root, va, i, false).None? && UserByte(t, pg, root, va + i) == 0
    {
      PageWithin(va, n, b, e, i);
      ByteGranted(t0, pg0, t, pg, root, b, e, va + i);
    }
    ReadsAll(t, pg, root, va, z);
  }

  /** A store into new memory succeeds, and reading it returns what was stored. */
  lemma NewStore(r: Regions, t0: Tables, pg0: Pages, t: Tables, pg: Pages, root: nat, b: nat, e: nat, wlo: nat,
                 whi: nat, va: nat, src: seq<byte>, pg': Pages, s: CopyResult<()>)
    requires Mmap.Added(t0, pg0, t, pg, root, b, e) && Backed(t0, pg0, root)
    requires OwnsRange(r, t, pg, root, wlo, whi) && wlo <= b <= e <= whi <= USER_PAGES && Within(va, |src|, b, e)
    requires CopyOutResult(t, pg, pg', root, va, src, s)
    ensures s.Ok? && Reads(t, pg', root, va, src)
  {
    hide Mmap.Added, Within, Fault, UserByte, Reads, Alone, Backed, OwnsRange, OnlyUser;
    forall i: nat | i < |src|
      ensures FaultAt(t, root, va, i, true).None? && FaultAt(t, root, va, i, false).None?
      ensures Alone(t, root, (va + i) / PGSIZE)
    {
      PageWithin(va, |src|, b, e, i);
      ByteGranted(t0, pg0, t, pg, root, b, e, va + i);
      AddedAlone(r, t0, pg0, t, pg, root, b, e, wlo, whi, (va + i) / PGSIZE);
    }
    assert s.Ok?;
    assert BytesSet(t, pg, pg', root, va, |src|, src);
    forall i: nat | i < |src| ensures src[i] == UserByte(t, pg', root, va + i) {
      assert FaultAt(t, root, va, i, true).None?;
      var a := va + i;
      assert Alone(t, root, a / PGSIZE);
    }
    ReadsAll(t, pg', root, va, src);
  }

  // ----- the address that mmap returns

  /** Where pages [b, e) are new, the region of page `b` starts with it exactly if the page in front is in no region. */
  lemma StartIsNew(rs0: seq<RegionSeq.Region>, rs: seq<RegionSeq.Region>, wlo: nat, whi: nat, b: nat, e: nat, a: nat)
    requires RegionSeq.Canon(rs, wlo, whi) && 0 < b < e && Mmap.StartOf(rs, a, b)
    requires forall x: nat :: RegionSeq.Has(rs, x) <==> RegionSeq.Has(rs0, x) || b <= x < e
    ensures a == b * PGSIZE <==> !RegionSeq.Has(rs0, b - 1)
  {
    var i :| 0 <= i < |rs| && rs[i].lo * PGSIZE == a && rs[i].lo <= b < rs[i].hi;
    assert RegionSeq.Has(rs, b - 1) <==> RegionSeq.Has(rs0, b - 1);
    if rs[i].lo < b {
      assert RegionSeq.Has(rs, b - 1);
    } else {
      forall j | 0 <= j < |rs| ensures !(rs[j].lo <= b - 1 < rs[j].hi) {}
    }
  }

  /** A length rounds up to whole pages. */
  lemma PagesCover(len: nat)
    requires len <= ADDRESS_SPACE - PGSIZE
    ensures len <= Mmap.PagesOf(len) * PGSIZE < len + PGSIZE
  {
  }

  lemma RunInWindow(rs: seq<RegionSeq.Region>, wlo: nat, whi: nat, begin: nat, n: nat, b: nat)
    requires Mmap.PlacedAt(rs, wlo, whi, begin, n, b) && Mmap.Accepts(rs, wlo, whi, begin, n)
    ensures wlo <= b < b + n <= whi
  {
  }

  lemma SpaceFacts(r: Regions, t: Tables, pg: Pages, root: nat, rs: seq<RegionSeq.Region>, wlo: nat, whi: nat)
    requires Mmap.Mapping(r, t, pg, root, rs, wlo, whi)
    ensures TreeInv(t, root) && OwnsRange(r, t, pg, root, wlo, whi) && RegionSeq.Canon(rs, wlo, whi)
    ensures 0 < wlo <= whi <= USER_PAGES
  {
  }

  /** What `copyin` returned is what there is to read. */
  lemma ReadsResult(t: Tables, pg: Pages, root: nat, va: nat, d: seq<byte>, r: CopyResult<seq<byte>>)
    requires Reads(t, pg, root, va, d) && CopyInResult(t, pg, root, va, |d|, r)
    ensures r == Ok(d)
  {
  }

  /**
    `mmap` of `len` bytes, then a store of `src` somewhere into the new memory, which starts at page `b`: the bytes are
    zeros before the store and `src` after it.  The address returned is that of the new memory exactly if the page in
    front of it was in no region.
  */
  method MapAndStore(sp: Mmap.Space, begin: nat, len: nat, va: nat, src: seq<byte>)
    returns (r: Mmap.Outcome<nat>, before: CopyResult<seq<byte>>, stored: CopyResult<()>, after: CopyResult<seq<byte>>,
             ghost b: nat)
    requires sp.Valid() && Backed(sp.mem.tables, sp.mem.pages, sp.root) && va + |src| < ADDRESS_SPACE
    requires len <= ADDRESS_SPACE - PGSIZE && begin + Mmap.PagesOf(len) * PGSIZE < ADDRESS_SPACE
    modifies sp, sp.mem
    ensures r == Mmap.Err(Mmap.OutOfRange) <==> !Mmap.Accepts(old(sp.regs), sp.wlo, sp.whi, begin, Mmap.PagesOf(len))
    ensures r.Err? && r.error != Mmap.OutOfRange ==> r.error == Mmap.NoMem && old(sp.free) == []
    ensures r.Panic? ==> sp.mem.ufree == [] || sp.mem.kfree == []
    ensures r.Ok? && begin != 0 ==> begin == b * PGSIZE
    ensures r.Ok? && b * PGSIZE <= va && va + |src| <= b * PGSIZE + len ==>
      before == Ok(seq(|src|, _ => 0)) && stored.Ok? && after == Ok(src)
    ensures r.Ok? ==> b > 0 && (r.value == b * PGSIZE <==> !RegionSeq.Has(old(sp.regs), b - 1))
  {
    hide MemInv, Mmap.Mapping, Mmap.Lists, Mmap.Accepts, Mmap.Added, Mmap.Touches, Mmap.PagesOf;
    hide Mmap.StartOf, RegionSeq.Canon, RegionSeq.Has, OwnsRange, TreeInv, Backed, CopyInResult, CopyOutResult, Reads;
    hide OnlyUser;
    before, stored, after := Err(NotMapped), Err(NotMapped), Err(NotMapped);
    ghost var t0, pg0, rs0 := sp.mem.tables, sp.mem.pages, sp.regs;
    r, b := sp.Mmap(begin, len);
    if !r.Ok? { return; }
    ghost var n := Mmap.PagesOf(len);
    ghost var t, pg := sp.mem.tables, sp.mem.pages;
    PagesCover(len);
    RunInWindow(rs0, sp.wlo, sp.whi, begin, n, b);
    SpaceFacts(sp.mem.rg, t, pg, sp.root, sp.regs, sp.wlo, sp.whi);
    StartIsNew(rs0, sp.regs, sp.wlo, sp.whi, b, b + n, r.value);
    AddedBacked(t0, pg0, t, pg, sp.root, b, b + n);
    before := CopyIn(sp.mem, sp.root, va, |src|);
    stored := CopyOut(sp.mem, sp.root, va, src);
    OutWrote(t, pg, sp.mem.pages, sp.root, va, src, stored);
    StillBacked(t, pg, sp.mem.pages, sp.root);
    after := CopyIn(sp.mem, sp.root, va, |src|);
    if b * PGSIZE <= va && va + |src| <= b * PGSIZE + len {
      NewZeros(t0, pg0, t, pg, sp.root, b, b + n, va, |src|);
      ReadsResult(t, pg, sp.root, va, seq(|src|, _ => 0), before);
      NewStore(sp.mem.rg, t0, pg0, t, pg, sp.root, b, b + n, sp.wlo, sp.whi, va, src, sp.mem.pages, stored);
      ReadsResult(t, sp.mem.pages, sp.root, va, src, after);
    }
  }

  // ----- munmap

  /** Cutting out pages that were just added gives back the regions. */
  lemma CutAdded(rs0: seq<RegionSeq.Region>, rs: seq<RegionSeq.Region>, wlo: nat, whi: nat, b: nat, e: nat)
    requires RegionSeq.Canon(rs0, wlo, whi) && RegionSeq.Canon(rs, wlo, whi) && b < e && RegionSeq.Free(rs0, b, e)
    requires forall x: nat :: RegionSeq.Has(rs, x) <==> RegionSeq.Has(rs0, x) || b <= x < e
    ensures RegionSeq.Cut(rs, b, e) == rs0
  {
    hide RegionSeq.Has, RegionSeq.Cut;
    RegionSeq.CutCanon(rs, wlo, whi, b, e);
    forall x: nat ensures RegionSeq.Has(RegionSeq.Cut(rs, b, e), x) <==> RegionSeq.Has(rs0, x) {
      RegionSeq.CutPages(rs, b, e, x);
    }
    RegionSeq.CanonUnique(RegionSeq.Cut(rs, b, e), rs0, wlo, whi);
  }

  /** Something is left of each region, and two pieces of one that reaches over the range on both sides. */
  lemma {:induction false} CutGrows(rs: seq<RegionSeq.Region>, s: nat, e: nat)
    requires s < e && forall i :: 0 <= i < |rs| ==> rs[i].lo < rs[i].hi && (rs[i].lo < s || e < rs[i].hi)
    ensures |RegionSeq.Cut(rs, s, e)| >= |rs|
    ensures Mmap.Splits(rs, s, e) ==> |RegionSeq.Cut(rs, s, e)| > |rs|
  {
    if rs != [] {
      CutGrows(rs[1..], s, e);
      if Mmap.Splits(rs, s, e) {
        var i :| 0 <= i < |rs| && rs[i].lo < s && e < rs[i].hi;
        if i > 0 { assert rs[1..][i - 1] == rs[i]; }
      }
    }
  }

  lemma {:induction false} Shorter(a: seq<nat>, b: seq<nat>)
    requires NoDup(a) && forall x :: x in a ==> x in b
    ensures |a| <= |b|
  {
    if a != [] {
      assert a[0] in b;
      var j :| 0 <= j < |b| && b[j] == a[0];
      var c := b[..j] + b[j + 1..];
      forall x | x in a[1..] ensures x in c {
        assert x in a && x in b;
        var i :| 0 <= i < |b| && b[i] == x;
        assert i != j;
        assert c[if i < j then i else i - 1] == x;
      }
      Shorter(a[1..], c);
    }
  }

  /** Where cutting out the added pages splits a region, adding them set a node free. */
  lemma NodeForSplit(rs0: seq<RegionSeq.Region>, rs: seq<RegionSeq.Region>, wlo: nat, whi: nat, b: nat, e: nat,
                     l0: seq<nat>, f0: seq<nat>, l: seq<nat>, f: seq<nat>)
    requires RegionSeq.Canon(rs, wlo, whi) && b < e && RegionSeq.Cut(rs, b, e) == rs0 && Mmap.Splits(rs, b, e)
    requires |l0| == |rs0| && |l| == |rs| && NoDup(l0) && RegionList.SamePool(l0, f0, l, f)
    ensures f != []
  {
    var i :| 0 <= i < |rs| && rs[i].lo < b && e < rs[i].hi;
    forall j | 0 <= j < |rs| ensures rs[j].lo < b || e < rs[j].hi {
      assert j == i || j < i || i < j;
    }
    CutGrows(rs, b, e);
    if f == [] { Shorter(l0, l); }
  }

  lemma ListFacts(nodes: seq<RegionList.Node>, head: Option<nat>, whead: Option<nat>, l: seq<nat>, f: seq<nat>,
                  rs: seq<RegionSeq.Region>)
    requires Mmap.Lists(nodes, head, whead, l, f, rs)
    ensures |l| == |rs| && NoDup(l)
  {
  }

  /** The pages that are unmapped again are the new ones. */
  lemma RemovedAdded(t0: Tables, pg0: Pages, t: Tables, pg: Pages, t2: Tables, pg2: Pages, root: nat, b: nat, e: nat,
                     rs0: seq<RegionSeq.Region>, rs: seq<RegionSeq.Region>)
    requires Mmap.Added(t0, pg0, t, pg, root, b, e) && Mmap.Removed(t, pg, t2, pg2, root, rs, rs0)
    requires Mmap.Unmapped(t0, root, b, e) && RegionSeq.Free(rs0, b, e)
    requires forall x: nat :: RegionSeq.Has(rs, x) <==> RegionSeq.Has(rs0, x) || b <= x < e
    ensures pg2 == pg0
    ensures forall x: nat :: x < NPAGES && !(b <= x < e) ==> Xlat(t2, root, x) == Xlat(t0, root, x)
    ensures forall x: nat :: b <= x < e ==> x < NPAGES && !IsValid(Xlat(t2, root, x)) && !IsValid(Xlat(t0, root, x))
  {
    hide Xlat, PteToPa, FlagsOf, RegionSeq.Has, TreeInv;
    assert forall x: nat :: RegionSeq.Has(rs, x) && !RegionSeq.Has(rs0, x) <==> b <= x < e;
    var gone := Mmap.Freed(t, root, rs, rs0);
    forall f ensures f in gone <==> Mmap.FrameIn(t, root, b, e, f) {}
    forall x: nat | b <= x < e ensures x < NPAGES && PteToPa(Xlat(t, root, x)) !in pg0 {
      assert Mmap.FreshPage(t, pg0, pg, root, x);
    }
    assert pg2.Keys == pg0.Keys;
  }

  lemma UnmapPages(b: nat, len: nat)
    requires 0 < len && b * PGSIZE + len <= ADDRESS_SPACE - PGSIZE
    ensures b * PGSIZE / PGSIZE == b && AlignUp(b * PGSIZE + len) / PGSIZE == b + Mmap.PagesOf(len)
  {
    assert AlignUp(b * PGSIZE + len) == b * PGSIZE + AlignUp(len);
  }

  lemma RunFree(r: Regions, t: Tables, pg: Pages, root: nat, rs: seq<RegionSeq.Region>, wlo: nat, whi: nat, begin: nat,
                n: nat, b: nat)
    requires Mmap.Mapping(r, t, pg, root, rs, wlo, whi) && Mmap.PlacedAt(rs, wlo, whi, begin, n, b)
    ensures RegionSeq.Free(rs, b, b + n) && Mmap.Unmapped(t, root, b, b + n)
  {
    hide Xlat, TreeInv, OwnsRange, RegionSeq.Has;
  }

  /** As far as valid entries go, both tables map the same. */
  ghost predicate SameMap(t0: Tables, t: Tables, root: nat) {
    forall x: nat :: x < NPAGES ==> Xlat(t, root, x) == Xlat(t0, root, x)
                                    || (!IsValid(Xlat(t, root, x)) && !IsValid(Xlat(t0, root, x)))
  }

  /**
    `mmap`, and then `munmap` of the same memory, which starts at page `b`: the second call cannot fail, and regions,
    page table and pages are as before both.
  */
  method MapAndUnmap(sp: Mmap.Space, begin: nat, len: nat, at: nat)
    returns (r: Mmap.Outcome<nat>, q: Mmap.Outcome<()>, ghost b: nat)
    requires sp.Valid() && at + len <= ADDRESS_SPACE - PGSIZE && begin + Mmap.PagesOf(len) * PGSIZE < ADDRESS_SPACE
    modifies sp, sp.mem
    ensures r.Ok? && begin != 0 ==> begin == b * PGSIZE
    ensures r.Ok? && at == b * PGSIZE ==>
      && q.Ok? && sp.Valid() && sp.regs == old(sp.regs) && sp.mem.pages == old(sp.mem.pages)
      && SameMap(old(sp.mem.tables), sp.mem.tables, sp.root)
    ensures r.Err? && r.error != Mmap.OutOfRange ==> r.error == Mmap.NoMem && old(sp.free) == []
    ensures r == Mmap.Err(Mmap.OutOfRange) <==> !Mmap.Accepts(old(sp.regs), sp.wlo, sp.whi, begin, Mmap.PagesOf(len))
    ensures r.Panic? ==> sp.mem.ufree == [] || sp.mem.kfree == []
  {
    hide MemInv, Mmap.Mapping, Mmap.Lists, Mmap.Accepts, Mmap.Added, Mmap.Touches, Mmap.PagesOf, Mmap.Removed;
    hide Mmap.StartOf, RegionSeq.Canon, RegionSeq.Has, RegionSeq.Cut, RegionSeq.Free, Mmap.Splits, RegionList.SamePool;
    hide Mmap.Unmapped, Mmap.PlacedAt, AlignUp, NoDup, Xlat;
    q := Mmap.Panic;
    ghost var t0, pg0, rs0, l0, f0 := sp.mem.tables, sp.mem.pages, sp.regs, sp.list, sp.free;
    ListFacts(sp.nodes, sp.head, sp.whead, l0, f0, rs0);
    r, b := sp.Mmap(begin, len);
    if r.Ok? || r == Mmap.Err(Mmap.NoMem) { PlacedBegin(rs0, sp.wlo, sp.whi, begin, Mmap.PagesOf(len), b); }
    if !r.Ok? { return; }
    ghost var n, t, pg, rs, l, f := Mmap.PagesOf(len), sp.mem.tables, sp.mem.pages, sp.regs, sp.list, sp.free;
    RunInWindow(rs0, sp.wlo, sp.whi, begin, n, b);
    RunFree(sp.mem.rg, t0, pg0, sp.root, rs0, sp.wlo, sp.whi, begin, n, b);
    ListFacts(sp.nodes, sp.head, sp.whead, l, f, rs);
    CutAdded(rs0, rs, sp.wlo, sp.whi, b, b + n);
    q := sp.Munmap(at, len);
    if at == b * PGSIZE {
      NoPages(len);
      UnmapPages(b, len);
      if Mmap.Splits(rs, b, b + n) { NodeForSplit(rs0, rs, sp.wlo, sp.whi, b, b + n, l0, f0, l, f); }
      RemovedAdded(t0, pg0, t, pg, sp.mem.tables, sp.mem.pages, sp.root, b, b + n, rs0, rs);
    }
  }

  lemma PlacedBegin(rs: seq<RegionSeq.Region>, wlo: nat, whi: nat, begin: nat, n: nat, b: nat)
    requires Mmap.PlacedAt(rs, wlo, whi, begin, n, b)
    ensures begin != 0 ==> begin == b * PGSIZE
  {
  }

  lemma NoPages(len: nat)
    ensures len == 0 ==> Mmap.PagesOf(len) == 0
  {
  }

  /**
    After `munmap` of [begin, begin + len): every address of the range in the window faults as not mapped.  A page of
    the window without an address in the range maps as before, to a frame with the same bytes.
  */
  lemma UnmapFaults(r: Regions, t0: Tables, pg0: Pages, t: Tables, pg: Pages, root: nat, rs0: seq<RegionSeq.Region>,
                    wlo: nat, whi: nat, begin: nat, len: nat, x: nat)
    requires Mmap.Mapping(r, t0, pg0, root, rs0, wlo, whi) && len > 0 && wlo <= x < whi
    requires Mmap.Removed(t0, pg0, t, pg, root, rs0,
                          RegionSeq.Cut(rs0, begin / PGSIZE, AlignUp(begin + len) / PGSIZE))
    ensures Touched(begin, len, x * PGSIZE) ==>
      Fault(t, root, x, false) == Fault(t, root, x, true) == Some(NotMapped)
    ensures !Touched(begin, len, x * PGSIZE) ==>
      && x < NPAGES && Xlat(t, root, x) == Xlat(t0, root, x)
      && (IsValid(Xlat(t0, root, x)) ==>
            var f := PteToPa(Xlat(t0, root, x)); f in pg0 && f in pg && pg[f] == pg0[f])
  {
    var start, end := begin / PGSIZE, AlignUp(begin + len) / PGSIZE;
    TouchedPages(begin, len, x * PGSIZE);
    assert start < end by { TouchedPages(begin, len, begin); assert Touched(begin, len, begin); }
    assert forall i :: 0 <= i < |rs0| ==> rs0[i].lo < rs0[i].hi;
    hide Xlat, TreeInv, PteToPa, FlagsOf, RegionSeq.Has, RegionSeq.Cut, AlignUp, HasU, HasR, HasW, Touched;
    forall y: nat
      ensures RegionSeq.Has(RegionSeq.Cut(rs0, start, end), y) <==> RegionSeq.Has(rs0, y) && !(start <= y < end)
    {
      RegionSeq.CutPages(rs0, start, end, y);
    }
    if !(start <= x < end) && IsValid(Xlat(t0, root, x)) {
      var f := PteToPa(Xlat(t0, root, x));
      forall y: nat | y < NPAGES && RegionSeq.Has(rs0, y) && start <= y < end ensures PteToPa(Xlat(t0, root, y)) != f {
        InWindow(rs0, wlo, whi, y);
      }
    }
  }

  lemma InWindow(rs: seq<RegionSeq.Region>, wlo: nat, whi: nat, x: nat)
    requires RegionSeq.Canon(rs, wlo, whi) && RegionSeq.Has(rs, x)
    ensures wlo <= x < whi
  {
  }
}
