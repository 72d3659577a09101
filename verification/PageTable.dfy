/**
  Page tables over a physical memory with two frame pools (kernel/src/mem/pagetable.rs, with the single-threaded view of
  pmem.rs).  A frame is used either as a table of 512 entries or as a page of 4096 bytes.  Running out of frames is a
  kernel panic; it ends an operation with `Halt`, and then the pool really is empty.
*/
module PageTable {
  import opened Base
  import opened Sv39
  import opened PageTree

  type Pages = map<nat, seq<byte>>

  /** The kernel pool is [kbegin, kend), the user pool [kend, uend). */
  datatype Regions = Regions(kbegin: nat, kend: nat, uend: nat)

  ghost predicate RegionsOk(r: Regions) {
    && 0 < r.kbegin <= r.kend <= r.uend < PA_MAX
    && r.kbegin % PGSIZE == 0 && r.kend % PGSIZE == 0 && r.uend % PGSIZE == 0
  }

  predicate InKernel(r: Regions, pa: nat) { r.kbegin <= pa < r.kend }
  predicate InUser(r: Regions, pa: nat) { r.kend <= pa < r.uend }

  /** `get_region` */
  function GetRegion(r: Regions, pa: nat): Option<bool> {
    if InKernel(r, pa) then Some(true) else if InUser(r, pa) then Some(false) else None
  }

  function ZeroPage(): (p: seq<byte>)
    ensures |p| == PGSIZE
  {
    seq(PGSIZE, _ => 0)
  }

  /** Free frames are distinct, belong to their pool and are not in use. */
  ghost predicate FreeOk(l: seq<nat>, lo: nat, hi: nat, t: Tables, pg: Pages) {
    && NoDup(l)
    && forall i :: 0 <= i < |l| ==> lo <= l[i] < hi && l[i] % PGSIZE == 0 && l[i] !in t && l[i] !in pg
  }

  ghost predicate MemInv(r: Regions, t: Tables, pg: Pages, kf: seq<nat>, uf: seq<nat>) {
    && RegionsOk(r) && FramesOk(t)
    && FreeOk(kf, r.kbegin, r.kend, t, pg) && FreeOk(uf, r.kend, r.uend, t, pg)
    && (forall f :: f in t ==> InKernel(r, f) && f !in pg)
    && (forall f :: f in pg ==> |pg[f]| == PGSIZE && f % PGSIZE == 0 && f < PA_MAX)
    && (forall f: nat :: InUser(r, f) && f % PGSIZE == 0 ==> f in uf || f in pg)
    && (forall f: nat :: InKernel(r, f) && f % PGSIZE == 0 ==> f in kf || f in t || f in pg)
  }

  datatype Walked = Halt | NoEntry | Entry(frame: nat, idx: nat)

  function PlaceOf(va: nat): (p: Place)
    ensures p.Slot? && ValidPlace(p)
  {
    Slot(Vpn(va, 2), Vpn(va, 1), Vpn(va, 0))
  }

  /** No slot of the tree changed. */
  ghost predicate SameSlots(t: Tables, t': Tables, root: nat) {
    forall q :: ValidPlace(q) && q.Slot? ==> Ent(t', root, q) == Ent(t, root, q)
  }

  /** The tree at `root` is in order on both sides, keeps its translations and only grew. */
  ghost predicate Grows(t: Tables, t': Tables, root: nat) {
    TreeInv(t, root) && TreeInv(t', root) && SameSlots(t, t', root) && Extends(t, t', root)
  }

  lemma GrowsTrans(t: Tables, u: Tables, v: Tables, root: nat)
    requires Grows(t, u, root) && Grows(u, v, root)
    ensures Grows(t, v, root)
  {
    ExtendsTrans(t, u, v, root);
  }

  /** Linking a new table for node `p`. */
  lemma GrowStep(t: Tables, root: nat, p: Place, f: nat)
    requires TreeInv(t, root) && ValidPlace(p) && (p.N1? || p.N0?) && (p.N1? ==> p.i < 256)
    requires Frame(t, root, Parent(p)) in t && !IsValid(Ent(t, root, p))
    requires f !in t && f != 0 && f % PGSIZE == 0 && f < PA_MAX
    ensures var g := Frame(t, root, Parent(p));
      && g != f && |t[g]| == PGNUM && Index(p) < PGNUM
      && var t2 := SetWord(t[f := Zeros()], g, Index(p), PaToPte(f, PTE_V));
         Grows(t, t2, root) && Frame(t2, root, p) == f && f in t2
  {
    AddTable(t, root, p, f);
    AddTableExtends(t, root, p, f);
  }

  lemma GrowsSelf(t: Tables, root: nat)
    requires TreeInv(t, root)
    ensures Grows(t, t, root)
  {
    ExtendsSelf(t, root);
  }

  lemma GrowsTree(t: Tables, t': Tables, root: nat)
    requires Grows(t, t', root)
    ensures TreeInv(t', root) && 0 !in t'
  {
  }

  lemma RootFrame(t: Tables, root: nat)
    requires TreeInv(t, root)
    ensures Frame(t, root, Root) == root && root in t
  {
  }

  /** In an inner table a valid entry is never a leaf and never points to address 0. */
  lemma InnerEntry(t: Tables, root: nat, node: Place, idx: nat)
    requires TreeInv(t, root) && (node.Root? || node.N1?) && ValidPlace(node) && idx < PGNUM
    requires Frame(t, root, node) in t
    ensures var f := Frame(t, root, node); var e := Ent(t, root, Child(node, idx));
      && |t[f]| == PGNUM && t[f][idx] == e
      && (IsValid(e) ==>
        IsTable(e) && Frame(t, root, Child(node, idx)) == PteToPa(e) && PteToPa(e) in t && PteToPa(e) != 0)
      && (!IsValid(e) ==> Frame(t, root, Child(node, idx)) == 0)
  {
    assert ValidPlace(Child(node, idx));
  }

  lemma AbsentBelow(t: Tables, root: nat, node: Place, idx: nat)
    requires TreeInv(t, root) && node.N1? && Frame(t, root, node) == 0
    ensures Frame(t, root, Child(node, idx)) == 0
  {
  }

  // ----- translations by page number

  const NPAGES := 0x800_0000   // 1 << 27
  const USER_PAGES := 0x400_0000 // VA_MAX / PGSIZE

  function SlotOf(x: nat): (p: Place)
    requires x < NPAGES
    ensures p.Slot? && ValidPlace(p)
  {
    Slot(x / 0x4_0000, x / PGNUM % PGNUM, x % PGNUM)
  }

  /** The entry that translates page `x`. */
  ghost function Xlat(t: Tables, root: nat, x: nat): nat
    requires x < NPAGES
  {
    Ent(t, root, SlotOf(x))
  }

  lemma PlaceOfPage(va: nat)
    requires va < 2 * VA_MAX
    ensures va / PGSIZE < NPAGES && PlaceOf(va) == SlotOf(va / PGSIZE)
  {
    var p := va / 0x1000;
    assert va / 0x20_0000 == p / 512;
    assert va / 0x4000_0000 == p / 0x4_0000;
  }

  lemma SlotOfInjective(x: nat, y: nat)
    requires x < NPAGES && y < NPAGES && SlotOf(x) == SlotOf(y)
    ensures x == y
  {
    assert x == (x / 0x4_0000 * PGNUM + x / PGNUM % PGNUM) * PGNUM + x % PGNUM;
    assert y == (y / 0x4_0000 * PGNUM + y / PGNUM % PGNUM) * PGNUM + y % PGNUM;
  }

  /** The frame of page `x` in a range that starts at page `lo` with frame `pa`. */
  function FrameAt(pa: nat, lo: nat, x: nat): (f: nat)
    requires lo <= x
  {
    pa + (x - lo) * PGSIZE
  }

  /** `t'` is `t` with pages [lo, hi) translated to consecutive frames from `pa`; the tree only grew. */
  ghost predicate Sets(t: Tables, t': Tables, root: nat, lo: nat, hi: nat, pa: nat, flags: nat) {
    && TreeInv(t, root) && TreeInv(t', root) && Extends(t, t', root) && lo <= hi && (lo == hi || hi <= NPAGES)
    && forall x: nat :: x < NPAGES ==>
         Xlat(t', root, x) == if lo <= x < hi then PaToPte(FrameAt(pa, lo, x), WithV(flags)) else Xlat(t, root, x)
  }

  /** `t'` is `t` with pages [lo, hi) untranslated. */
  ghost predicate Clears(t: Tables, t': Tables, root: nat, lo: nat, hi: nat) {
    && TreeInv(t, root) && TreeInv(t', root) && Extends(t, t', root) && lo <= hi && (lo == hi || hi <= NPAGES)
    && forall x: nat :: x < NPAGES ==> Xlat(t', root, x) == if lo <= x < hi then 0 else Xlat(t, root, x)
  }

  /** Storing into the slot of page `x` after the tree grew. */
  lemma SetPage(t: Tables, u: Tables, root: nat, x: nat, v: nat)
    requires Grows(t, u, root) && x < NPAGES && Frame(u, root, Parent(SlotOf(x))) in u
    requires IsValid(v) ==> Sv39.IsLeaf(v)
    ensures var f := Frame(u, root, Parent(SlotOf(x)));
      && |u[f]| == PGNUM
      && var w := SetWord(u, f, x % PGNUM, v);
         && TreeInv(t, root) && TreeInv(w, root) && Extends(t, w, root)
         && forall y: nat :: y < NPAGES ==> Xlat(w, root, y) == if y == x then v else Xlat(t, root, y)
  {
    var p := SlotOf(x);
    SetSlot(u, root, p, v);
    StoredExtends(u, root, p, v);
    var w := Stored(u, root, p, v);
    ExtendsTrans(t, u, w, root);
    forall y: nat | y < NPAGES ensures Xlat(w, root, y) == if y == x then v else Xlat(t, root, y) {
      if SlotOf(y) == p { SlotOfInjective(x, y); }
    }
  }

  /** What `map` accepts for page `x`: an address below VA_MAX that is free or already has this frame. */
  ghost predicate MapOk(t: Tables, root: nat, x: nat, pa: nat) {
    x < USER_PAGES && (!IsValid(Xlat(t, root, x)) || PteToPa(Xlat(t, root, x)) == pa)
  }

  lemma SetsNothing(t: Tables, root: nat, lo: nat, pa: nat, flags: nat)
    requires TreeInv(t, root)
    ensures Sets(t, t, root, lo, lo, pa, flags)
  {
    ExtendsSelf(t, root);
  }

  lemma SetsGrow(t: Tables, u: Tables, v: Tables, root: nat, lo: nat, hi: nat, pa: nat, flags: nat)
    requires Sets(t, u, root, lo, hi, pa, flags) && Grows(u, v, root)
    ensures Sets(t, v, root, lo, hi, pa, flags)
  {
    hide Extends, TreeInv;
    ExtendsTrans(t, u, v, root);
    forall x: nat | x < NPAGES ensures Xlat(v, root, x) == Xlat(u, root, x) {}
  }

  lemma SetsStep(t: Tables, u: Tables, v: Tables, root: nat, lo: nat, hi: nat, pa: nat, flags: nat)
    requires Sets(t, u, root, lo, hi, pa, flags) && Sets(u, v, root, hi, hi + 1, FrameAt(pa, lo, hi), flags)
    ensures Sets(t, v, root, lo, hi + 1, pa, flags)
  {
    hide Extends, TreeInv, Xlat, PaToPte, WithV;
    ExtendsTrans(t, u, v, root);
    forall x: nat | x < NPAGES
      ensures Xlat(v, root, x) ==
        if lo <= x < hi + 1 then PaToPte(FrameAt(pa, lo, x), WithV(flags)) else Xlat(t, root, x)
    {
      if x == hi { assert FrameAt(FrameAt(pa, lo, hi), hi, x) == FrameAt(pa, lo, x); }
    }
  }

  /** Pages not yet reached translate as they did. */
  lemma SetsAhead(t: Tables, u: Tables, root: nat, lo: nat, hi: nat, pa: nat, flags: nat, x: nat, qa: nat)
    requires Sets(t, u, root, lo, hi, pa, flags) && x >= hi
    ensures TreeInv(u, root) && (MapOk(u, root, x, qa) <==> MapOk(t, root, x, qa))
  {
  }

  datatype Mapped = Halted | Failed | Done

  /** The entry read through a walked slot. */
  lemma SlotEntry(t: Tables, u: Tables, root: nat, va: nat)
    requires Grows(t, u, root) && va < VA_MAX && Frame(u, root, Parent(PlaceOf(va))) in u
    ensures va / PGSIZE < USER_PAGES && PlaceOf(va) == SlotOf(va / PGSIZE) && Vpn(va, 0) == va / PGSIZE % PGNUM
    ensures var f := Frame(u, root, Parent(PlaceOf(va)));
      && |u[f]| == PGNUM && u[f][Vpn(va, 0)] == Xlat(t, root, va / PGSIZE)
      && (IsValid(u[f][Vpn(va, 0)]) ==> Sv39.IsLeaf(u[f][Vpn(va, 0)]))
  {
    PlaceOfPage(va);
    assert Ent(u, root, PlaceOf(va)) == Ent(t, root, PlaceOf(va));
  }

  // ----- unmapping

  /** What `unmap` accepts for page `x`. */
  ghost predicate UnmapOk(t: Tables, root: nat, x: nat) {
    x < USER_PAGES && IsValid(Xlat(t, root, x))
  }

  /** The frames that pages [lo, hi) translate to. */
  ghost function FramesOf(t: Tables, root: nat, lo: nat, hi: nat): set<nat> {
    set x: nat | lo <= x < hi && x < NPAGES && IsValid(Xlat(t, root, x)) :: PteToPa(Xlat(t, root, x))
  }

  /** Pages [lo, hi) translate to distinct allocated pages of the two pools, as freeing them demands. */
  ghost predicate OwnsRange(r: Regions, t: Tables, pg: Pages, root: nat, lo: nat, hi: nat) {
    && (forall x: nat :: lo <= x < hi && x < NPAGES && IsValid(Xlat(t, root, x)) ==>
          PteToPa(Xlat(t, root, x)) in pg && GetRegion(r, PteToPa(Xlat(t, root, x))).Some?)
    && (forall x: nat, y: nat ::
      lo <= x < y < hi && y < NPAGES && IsValid(Xlat(t, root, x)) && IsValid(Xlat(t, root, y)) ==>
          PteToPa(Xlat(t, root, x)) != PteToPa(Xlat(t, root, y)))
  }

  lemma ClearsNothing(t: Tables, root: nat, lo: nat)
    requires TreeInv(t, root)
    ensures Clears(t, t, root, lo, lo) && FramesOf(t, root, lo, lo) == {}
  {
    ExtendsSelf(t, root);
  }

  lemma ClearsStep(t: Tables, u: Tables, v: Tables, root: nat, lo: nat, hi: nat)
    requires Clears(t, u, root, lo, hi) && Clears(u, v, root, hi, hi + 1)
    ensures Clears(t, v, root, lo, hi + 1)
  {
    hide Extends, TreeInv, Xlat;
    ExtendsTrans(t, u, v, root);
  }

  lemma FramesStep(t: Tables, root: nat, lo: nat, hi: nat)
    requires lo <= hi && UnmapOk(t, root, hi)
    ensures FramesOf(t, root, lo, hi + 1) == FramesOf(t, root, lo, hi) + {PteToPa(Xlat(t, root, hi))}
  {
    hide Xlat, PteToPa;
  }

  /** The next frame to free is still allocated, so freeing it cannot panic. */
  lemma NextOwned(r: Regions, t: Tables, pg: Pages, root: nat, lo: nat, hi: nat, x: nat)
    requires OwnsRange(r, t, pg, root, lo, hi) && lo <= x < hi && UnmapOk(t, root, x)
    ensures var f := PteToPa(Xlat(t, root, x));
      f in pg && f !in FramesOf(t, root, lo, x) && GetRegion(r, f).Some?
  {
    hide Xlat, PteToPa;
  }

  lemma ClearsAhead(t: Tables, u: Tables, root: nat, lo: nat, hi: nat, x: nat)
    requires Clears(t, u, root, lo, hi) && x >= hi
    ensures TreeInv(u, root) && (UnmapOk(u, root, x) <==> UnmapOk(t, root, x))
    ensures x < NPAGES ==> Xlat(u, root, x) == Xlat(t, root, x)
  {
  }

  lemma AbsentPage(t: Tables, root: nat, va: nat)
    requires TreeInv(t, root) && va < VA_MAX && Frame(t, root, Parent(PlaceOf(va))) == 0
    ensures va / PGSIZE < NPAGES && Xlat(t, root, va / PGSIZE) == 0
  {
    PlaceOfPage(va);
  }

  lemma UnmapInRange(t: Tables, root: nat, x: nat)
    ensures UnmapOk(t, root, x) ==> x < NPAGES
  {
  }

  // ----- the free lists

  lemma AllocTableKeeps(r: Regions, t: Tables, pg: Pages, kf: seq<nat>, uf: seq<nat>)
    requires MemInv(r, t, pg, kf, uf) && kf != []
    ensures MemInv(r, t[kf[0] := Zeros()], pg, kf[1..], uf)
    ensures kf[0] !in t && kf[0] !in pg && kf[0] > 0 && kf[0] % PGSIZE == 0 && kf[0] < PA_MAX
  {
  }

  lemma AllocUserKeeps(r: Regions, t: Tables, pg: Pages, kf: seq<nat>, uf: seq<nat>)
    requires MemInv(r, t, pg, kf, uf) && uf != []
    ensures uf[0] !in t && uf[0] !in pg && uf[0] % PGSIZE == 0 && 0 < uf[0] < PA_MAX && InUser(r, uf[0])
    ensures MemInv(r, t, pg[uf[0] := ZeroPage()], kf, uf[1..])
  {
  }

  lemma AllocKernelKeeps(r: Regions, t: Tables, pg: Pages, kf: seq<nat>, uf: seq<nat>)
    requires MemInv(r, t, pg, kf, uf) && kf != []
    ensures kf[0] !in t && kf[0] !in pg && kf[0] % PGSIZE == 0 && 0 < kf[0] < PA_MAX && InKernel(r, kf[0])
    ensures MemInv(r, t, pg[kf[0] := ZeroPage()], kf[1..], uf)
  {
  }

  /** Returning a page to the pool its address lies in. */
  lemma FreePageKeeps(r: Regions, t: Tables, pg: Pages, kf: seq<nat>, uf: seq<nat>, f: nat)
    requires MemInv(r, t, pg, kf, uf) && f in pg && GetRegion(r, f).Some?
    ensures InKernel(r, f) ==> MemInv(r, t, pg - {f}, [f] + kf, uf)
    ensures !InKernel(r, f) ==> MemInv(r, t, pg - {f}, kf, [f] + uf)
  {
  }

  /** Returning a table to the kernel pool. */
  lemma FreeTableKeeps(r: Regions, t: Tables, pg: Pages, kf: seq<nat>, uf: seq<nat>, f: nat)
    requires MemInv(r, t, pg, kf, uf) && f in t
    ensures InKernel(r, f) && MemInv(r, t - {f}, pg, [f] + kf, uf)
  {
  }

  lemma StorePageKeeps(r: Regions, t: Tables, pg: Pages, kf: seq<nat>, uf: seq<nat>, f: nat, s: seq<byte>)
    requires MemInv(r, t, pg, kf, uf) && f in pg && |s| == PGSIZE
    ensures MemInv(r, t, pg[f := s], kf, uf)
  {
  }

  lemma PageSize(r: Regions, t: Tables, pg: Pages, kf: seq<nat>, uf: seq<nat>, f: nat)
    requires MemInv(r, t, pg, kf, uf) && f in pg
    ensures |pg[f]| == PGSIZE
  {
  }

  /** Overwriting the entries of a table in use keeps the memory in order. */
  lemma SetWordKeeps(r: Regions, t: Tables, pg: Pages, kf: seq<nat>, uf: seq<nat>, f: nat, x: nat, v: nat)
    requires MemInv(r, t, pg, kf, uf) && f in t && x < |t[f]|
    ensures MemInv(r, SetWord(t, f, x, v), pg, kf, uf)
  {
  }

  class Memory {
    const rg: Regions
    var tables: Tables
    var pages: Pages
    var kfree: seq<nat>
    var ufree: seq<nat>

    ghost predicate Valid()
      reads this
    {
      MemInv(rg, tables, pages, kfree, ufree)
    }

    constructor (rg: Regions, tables: Tables, pages: Pages, kfree: seq<nat>, ufree: seq<nat>)
      requires MemInv(rg, tables, pages, kfree, ufree)
      ensures Valid() && this.rg == rg && this.tables == tables && this.pages == pages
      ensures this.kfree == kfree && this.ufree == ufree
    {
      this.rg, this.tables, this.pages, this.kfree, this.ufree := rg, tables, pages, kfree, ufree;
    }

    /** A zero-filled kernel frame, to be used as a table. */
    method AllocTable() returns (r: Option<nat>)
      requires Valid()
      modifies this`tables, this`kfree
      ensures Valid()
      ensures r.None? ==> kfree == old(kfree) == [] && tables == old(tables)
      ensures r.Some? ==>
        && r.value !in old(tables) && r.value > 0 && r.value % PGSIZE == 0 && r.value < PA_MAX
        && tables == old(tables)[r.value := Zeros()] && old(kfree) == [r.value] + kfree
    {
      if kfree == [] { return None; }
      AllocTableKeeps(rg, tables, pages, kfree, ufree);
      hide MemInv;
      var f := kfree[0];
      kfree := kfree[1..];
      tables := tables[f := Zeros()];
      return Some(f);
    }

    /** One level of `walk`: from the table of `node` to the table of its child. */
    method WalkStep(root: nat, table: nat, ghost node: Place, idx: nat, alloc: bool) returns (r: Walked)
      requires Valid() && TreeInv(tables, root) && idx < PGNUM && (node.Root? || node.N1?) && ValidPlace(node)
      requires node.Root? ==> idx < 256
      requires table == Frame(tables, root, node) && table in tables
      modifies this`tables, this`kfree
      ensures Valid() && Grows(old(tables), tables, root)
      ensures !alloc ==> tables == old(tables) && kfree == old(kfree)
      ensures r.Halt? ==> alloc && kfree == []
      ensures r.NoEntry? <==> !alloc && Frame(tables, root, Child(node, idx)) == 0
      ensures r.Entry? ==> r.frame == Frame(tables, root, Child(node, idx)) && r.frame in tables
    {
      hide MemInv, Ent, Frame, TreeInv, Grows, SetWord;
      InnerEntry(tables, root, node, idx);
      GrowsSelf(tables, root);
      var pte := tables[table][idx];
      if IsValid(pte) {
        return Entry(PteToPa(pte), 0);
      }
      if !alloc { return NoEntry; }
      var n := AllocTable();
      if n.None? { return Halt; }
      GrowStep(old(tables), root, Child(node, idx), n.value);
      SetWordKeeps(rg, tables, pages, kfree, ufree, table, idx, PaToPte(n.value, PTE_V));
      tables := SetWord(tables, table, idx, PaToPte(n.value, PTE_V));
      return Entry(n.value, 0);
    }

    /** `walk`: the slot of `va`, with the tables on the way to it allocated when `alloc` says so. */
    method Walk(root: nat, va: nat, alloc: bool) returns (r: Walked)
      requires Valid() && TreeInv(tables, root)
      modifies this`tables, this`kfree
      ensures Valid() && Grows(old(tables), tables, root)
      ensures !alloc ==> tables == old(tables) && kfree == old(kfree)
      ensures r.Halt? ==> alloc && kfree == []
      ensures r.NoEntry? <==> va >= VA_MAX || (!alloc && Frame(tables, root, Parent(PlaceOf(va))) == 0)
      ensures r.Entry? ==>
        r.frame == Frame(tables, root, Parent(PlaceOf(va))) && r.frame in tables && r.idx == Vpn(va, 0)
    {
      hide MemInv, Ent, Frame, TreeInv, Grows, Vpn;
      GrowsSelf(tables, root);
      RootFrame(tables, root);
      if va >= VA_MAX { return NoEntry; }
      VpnOf(va);
      var table := root;
      ghost var node := Root;
      var level := 2;
      while level > 0
        invariant 0 <= level <= 2
        invariant node ==
          (if level == 2 then Root else if level == 1 then N1(Vpn(va, 2)) else N0(Vpn(va, 2), Vpn(va, 1)))
        invariant Valid() && Grows(old(tables), tables, root) && table == Frame(tables, root, node) && table in tables
        invariant !alloc ==> tables == old(tables) && kfree == old(kfree)
      {
        GrowsTree(old(tables), tables, root);
        ghost var t := tables;
        r := WalkStep(root, table, node, Vpn(va, level), alloc);
        GrowsTrans(old(tables), t, tables, root);
        if r.Halt? { return; }
        if r.NoEntry? {
          if level == 2 { AbsentBelow(tables, root, N1(Vpn(va, 2)), Vpn(va, 1)); }
          return;
        }
        table := r.frame;
        node, level := Child(node, Vpn(va, level)), level - 1;
      }
      GrowsTree(old(tables), tables, root);
      return Entry(table, Vpn(va, 0));
    }

    /** One iteration of `map`. */
    method MapPage(root: nat, a: nat, pa: nat, flags: nat) returns (r: Mapped)
      requires Valid() && TreeInv(tables, root) && Sv39.IsLeaf(flags)
      requires a % PGSIZE == 0 && pa % PGSIZE == 0 && pa < PA_MAX
      modifies this`tables, this`kfree
      ensures Valid()
      ensures r.Halted? ==> kfree == [] && Grows(old(tables), tables, root)
      ensures r.Failed? ==> !MapOk(old(tables), root, a / PGSIZE, pa) && Grows(old(tables), tables, root)
      ensures r.Done? ==> MapOk(old(tables), root, a / PGSIZE, pa)
                          && Sets(old(tables), tables, root, a / PGSIZE, a / PGSIZE + 1, pa, flags)
    {
      hide MemInv, Ent, Frame, TreeInv, Grows, SetWord, Vpn, Extends, PaToPte, PteToPa;
      var w := Walk(root, a, true);
      if w.Halt? { return Halted; }
      if w.NoEntry? { return Failed; }
      SlotEntry(old(tables), tables, root, a);
      var cur := tables[w.frame][w.idx];
      if IsValid(cur) && PteToPa(cur) != pa {
        return Failed;
      }
      var v := PaToPte(pa, WithV(flags));
      PackUnpack(pa, WithV(flags));
      SetPage(old(tables), tables, root, a / PGSIZE, v);
      SetWordKeeps(rg, tables, pages, kfree, ufree, w.frame, w.idx, v);
      tables := SetWord(tables, w.frame, w.idx, v);
      return Done;
    }

    /**
      `map`: succeeds exactly when every page of the range is below VA_MAX and free or already mapped to the same
      frame; then it sets exactly its range.  A failed call stops at the first bad page, with the pages before it set.
    */
    method Map(root: nat, va: nat, pa: nat, len: nat, flags: nat) returns (r: Mapped, ghost stop: nat)
      requires Valid() && TreeInv(tables, root) && Sv39.IsLeaf(flags)
      requires va + len <= 0x1_0000_0000_0000_0000 - PGSIZE && pa + len + PGSIZE <= PA_MAX
      modifies this`tables, this`kfree
      ensures Valid() && TreeInv(tables, root)
      ensures len == 0 ==> r.Failed? && tables == old(tables)
      ensures len > 0 ==>
        var lo, hi, base := va / PGSIZE, AlignUp(va + len) / PGSIZE, AlignDown(pa);
        && Sets(old(tables), tables, root, lo, stop, base, flags) && lo <= stop <= hi
        && (forall x :: lo <= x < stop ==> MapOk(old(tables), root, x, FrameAt(base, lo, x)))
        && (r.Done? ==> stop == hi)
        && (r.Failed? ==> stop < hi && !MapOk(old(tables), root, stop, FrameAt(base, lo, stop)))
        && (r.Halted? ==> kfree == [])
    {
      hide MemInv, TreeInv, Grows, MapOk, Sets;
      if len == 0 { return Failed, 0; }
      var start, end := AlignDown(va), AlignUp(va + len);
      var a, cur := start, AlignDown(pa);
      ghost var lo, base := va / PGSIZE, AlignDown(pa);
      stop := lo;
      SetsNothing(tables, root, lo, base, flags);
      while a < end
        invariant lo <= stop && a == stop * PGSIZE && cur == FrameAt(base, lo, stop) && start <= a <= end
        invariant Valid() && Sets(old(tables), tables, root, lo, stop, base, flags)
        invariant forall x :: lo <= x < stop ==> MapOk(old(tables), root, x, FrameAt(base, lo, x))
      {
        SetsAhead(old(tables), tables, root, lo, stop, base, flags, stop, cur);
        ghost var t := tables;
        r := MapPage(root, a, cur, flags);
        if !r.Done? {
          SetsGrow(old(tables), t, tables, root, lo, stop, base, flags);
          SetsAhead(old(tables), tables, root, lo, stop, base, flags, stop, cur);
          return;
        }
        SetsStep(old(tables), t, tables, root, lo, stop, base, flags);
        a, cur, stop := a + PGSIZE, cur + PGSIZE, stop + 1;
      }
      SetsAhead(old(tables), tables, root, lo, stop, base, flags, stop, cur);
      return Done, stop;
    }

    /** `pmem::free` of an allocated page. */
    method FreePage(f: nat)
      requires Valid() && f in pages && GetRegion(rg, f).Some?
      modifies this`pages, this`kfree, this`ufree
      ensures Valid() && pages == old(pages) - {f}
      ensures kfree == (if InKernel(rg, f) then [f] + old(kfree) else old(kfree))
      ensures ufree == (if InKernel(rg, f) then old(ufree) else [f] + old(ufree))
    {
      FreePageKeeps(rg, tables, pages, kfree, ufree, f);
      hide MemInv;
      if InKernel(rg, f) {
        kfree := [f] + kfree;
      } else {
        ufree := [f] + ufree;
      }
      pages := pages - {f};
    }

    /** `lookup`: the slot of `va`, if the tables on the way exist. */
    method Lookup(root: nat, va: nat) returns (r: Walked)
      requires Valid() && TreeInv(tables, root)
      ensures !r.Halt?
      ensures r.NoEntry? <==> va >= VA_MAX || Frame(tables, root, Parent(PlaceOf(va))) == 0
      ensures r.Entry? ==>
        r.frame == Frame(tables, root, Parent(PlaceOf(va))) && r.frame in tables && r.idx == Vpn(va, 0)
    {
      hide MemInv, Ent, Frame, TreeInv, Vpn;
      RootFrame(tables, root);
      if va >= VA_MAX { return NoEntry; }
      VpnOf(va);
      InnerEntry(tables, root, Root, Vpn(va, 2));
      var e2 := tables[root][Vpn(va, 2)];
      if !IsValid(e2) {
        AbsentBelow(tables, root, N1(Vpn(va, 2)), Vpn(va, 1));
        return NoEntry;
      }
      InnerEntry(tables, root, N1(Vpn(va, 2)), Vpn(va, 1));
      var e1 := tables[PteToPa(e2)][Vpn(va, 1)];
      if !IsValid(e1) { return NoEntry; }
      return Entry(PteToPa(e1), Vpn(va, 0));
    }

    /** One iteration of `unmap`. */
    method UnmapPage(root: nat, a: nat, free: bool) returns (r: Mapped)
      requires Valid() && TreeInv(tables, root) && a % PGSIZE == 0
      requires free && UnmapOk(tables, root, a / PGSIZE) ==>
        var f := PteToPa(Xlat(tables, root, a / PGSIZE)); f in pages && GetRegion(rg, f).Some?
      modifies this`tables, this`pages, this`kfree, this`ufree
      ensures Valid() && !r.Halted?
      ensures r.Failed? ==> !UnmapOk(tables, root, a / PGSIZE) && tables == old(tables) && pages == old(pages)
      ensures r.Failed? ==> kfree == old(kfree) && ufree == old(ufree)
      ensures r.Done? ==>
        && UnmapOk(old(tables), root, a / PGSIZE)
        && Clears(old(tables), tables, root, a / PGSIZE, a / PGSIZE + 1)
        && pages == if free then old(pages) - {PteToPa(Xlat(old(tables), root, a / PGSIZE))} else old(pages)
    {
      hide MemInv, Ent, Frame, TreeInv, SetWord, Vpn, Extends, PteToPa, Grows;
      GrowsSelf(tables, root);
      var w := Lookup(root, a);
      if w.NoEntry? {
        if a < VA_MAX { AbsentPage(tables, root, a); }
        return Failed;
      }
      SlotEntry(tables, tables, root, a);
      var old_ := tables[w.frame][w.idx];
      if !IsValid(old_) { return Failed; }
      var pa := PteToPa(old_);
      if free {
        FreePage(pa);
      }
      SetPage(tables, tables, root, a / PGSIZE, 0);
      SetWordKeeps(rg, tables, pages, kfree, ufree, w.frame, w.idx, 0);
      tables := SetWord(tables, w.frame, w.idx, 0);
      return Done;
    }

    /**
      `unmap`: succeeds exactly when every page of the range is mapped; then it clears exactly its range and, if asked
      to, frees exactly the range's frames.  A failed call stops at the first unmapped page.
    */
    method Unmap(root: nat, va: nat, len: nat, free: bool) returns (r: Mapped, ghost stop: nat)
      requires Valid() && TreeInv(tables, root) && va + len <= 0x1_0000_0000_0000_0000 - PGSIZE
      requires free ==> OwnsRange(rg, tables, pages, root, va / PGSIZE, AlignUp(va + len) / PGSIZE)
      modifies this`tables, this`pages, this`kfree, this`ufree
      ensures Valid() && TreeInv(tables, root) && !r.Halted?
      ensures len == 0 ==> r.Failed? && tables == old(tables) && pages == old(pages)
      ensures len > 0 ==>
        var lo, hi := va / PGSIZE, AlignUp(va + len) / PGSIZE;
        && Clears(old(tables), tables, root, lo, stop) && lo <= stop <= hi
        && (forall x :: lo <= x < stop ==> UnmapOk(old(tables), root, x))
        && (r.Done? ==> stop == hi) && (r.Failed? ==> stop < hi && !UnmapOk(old(tables), root, stop))
        && pages == if free then old(pages) - FramesOf(old(tables), root, lo, stop) else old(pages)
    {
      hide MemInv, TreeInv, UnmapOk, Clears, OwnsRange, FramesOf, Xlat, PteToPa;
      if len == 0 { return Failed, 0; }
      var a, end := AlignDown(va), AlignUp(va + len);
      ghost var lo, hi := va / PGSIZE, end / PGSIZE;
      stop := lo;
      ClearsNothing(tables, root, lo);
      while a < end
        invariant lo <= stop && a == stop * PGSIZE <= end
        invariant Valid() && Clears(old(tables), tables, root, lo, stop)
        invariant forall x :: lo <= x < stop ==> UnmapOk(old(tables), root, x)
        invariant pages == if free then old(pages) - FramesOf(old(tables), root, lo, stop) else old(pages)
      {
        ClearsAhead(old(tables), tables, root, lo, stop, stop);
        UnmapInRange(old(tables), root, stop);
        if free && UnmapOk(old(tables), root, stop) {
          NextOwned(rg, old(tables), old(pages), root, lo, hi, stop);
        }
        ghost var t := tables;
        r := UnmapPage(root, a, free);
        if r.Failed? { return; }
        ClearsStep(old(tables), t, tables, root, lo, stop);
        FramesStep(old(tables), root, lo, stop);
        a, stop := a + PGSIZE, stop + 1;
      }
      ClearsAhead(old(tables), tables, root, lo, stop, stop);
      return Done, stop;
    }

    /** `pmem::alloc`: a zero-filled page of the given pool. */
    method AllocPage(kernel: bool) returns (r: Option<nat>)
      requires Valid()
      modifies this`pages, this`kfree, this`ufree
      ensures Valid()
      ensures r.None? ==> pages == old(pages) && (if kernel then kfree else ufree) == []
      ensures r.Some? ==>
        && r.value !in old(pages) && r.value !in tables && r.value % PGSIZE == 0 && 0 < r.value < PA_MAX
        && (if kernel then InKernel(rg, r.value) else InUser(rg, r.value))
        && pages == old(pages)[r.value := ZeroPage()]
    {
      if kernel {
        if kfree == [] { return None; }
        AllocKernelKeeps(rg, tables, pages, kfree, ufree);
        hide MemInv;
        r := Some(kfree[0]);
        kfree := kfree[1..];
      } else {
        if ufree == [] { return None; }
        AllocUserKeeps(rg, tables, pages, kfree, ufree);
        hide MemInv;
        r := Some(ufree[0]);
        ufree := ufree[1..];
      }
      pages := pages[r.value := ZeroPage()];
    }

    /** Overwrite the bytes of an allocated page. */
    method StorePage(f: nat, s: seq<byte>)
      requires Valid() && f in pages && |s| == PGSIZE
      modifies this`pages
      ensures Valid() && pages == old(pages)[f := s]
    {
      StorePageKeeps(rg, tables, pages, kfree, ufree, f, s);
      hide MemInv;
      pages := pages[f := s];
    }
  }
}
