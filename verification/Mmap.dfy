/**
  `mmap` and `munmap` (kernel/src/mem/uvm.rs) for one process: the region list, the node warehouse and the page table
  change together.  Regions and pages are counted in pages; the window is [wlo, whi).
*/
module Mmap {
  import opened Base
  import opened Sv39
  import opened PageTree
  import opened PageTable
  import opened RegionSeq
  import opened RegionList

  const MMAP_FLAGS := 214 // PTE_U | PTE_R | PTE_W | PTE_A | PTE_D

  datatype UvmError = OutOfRange | NoMem | MapFailed

  /** A system call of the process. */
  datatype Call = MmapCall(begin: nat, len: nat) | MunmapCall(begin: nat, len: nat)

  /** Addresses do not overflow. */
  predicate CallOk(c: Call) {
    match c
    case MmapCall(begin, len) => len < ADDRESS_SPACE && begin + PagesOf(len) * PGSIZE < ADDRESS_SPACE
    case MunmapCall(begin, len) => begin + len <= ADDRESS_SPACE - PGSIZE
  }

  /** The outcome of a call; `Panic` is the kernel panic of an exhausted frame pool. */
  datatype Outcome<+T> = Ok(value: T) | Err(error: UvmError) | Panic

  /** Within the window, exactly the pages of the regions are mapped. */
  ghost predicate Agree(t: Tables, root: nat, rs: seq<Region>, wlo: nat, whi: nat) {
    forall x: nat :: wlo <= x < whi && x < NPAGES ==> (IsValid(Xlat(t, root, x)) <==> Has(rs, x))
  }

  /** The region list and the warehouse are well formed and the list denotes `rs`. */
  ghost predicate Lists(nodes: seq<Node>, head: Option<nat>, whead: Option<nat>, l: seq<nat>, f: seq<nat>,
                        rs: seq<Region>) {
    ListsOk(nodes, head, whead, l, f) && rs == Regs(nodes, l)
  }

  /** The page table's side: the tree, its agreement with the regions, and ownership of the mapped frames. */
  ghost predicate Mapping(r: Regions, t: Tables, pg: Pages, root: nat, rs: seq<Region>, wlo: nat, whi: nat) {
    && TreeInv(t, root) && 0 < wlo <= whi <= USER_PAGES
    && Canon(rs, wlo, whi) && Agree(t, root, rs, wlo, whi) && OwnsRange(r, t, pg, root, wlo, whi)
  }

  // ----- mapping fresh pages

  /** Page `x` was mapped by `map_pages`: user read/write, onto a fresh zero page. */
  ghost predicate FreshPage(t: Tables, pg0: Pages, pg: Pages, root: nat, x: nat) {
    && x < NPAGES && IsValid(Xlat(t, root, x)) && FlagsOf(Xlat(t, root, x)) == MMAP_FLAGS + PTE_V
    && var f := PteToPa(Xlat(t, root, x)); f !in pg0 && f in pg && pg[f] == ZeroPage()
  }

  /** Frame `f` is that of a page in [b, cur). */
  ghost predicate FrameIn(t: Tables, root: nat, b: nat, cur: nat, f: nat) {
    exists x: nat :: b <= x < cur && x < NPAGES && PteToPa(Xlat(t, root, x)) == f
  }

  /** Pages [b, cur) are mapped to fresh pages, which are all that is new, and no other translation or page changed. */
  ghost predicate Added(t0: Tables, pg0: Pages, t: Tables, pg: Pages, root: nat, b: nat, cur: nat) {
    && TreeInv(t, root) && b <= cur <= NPAGES
    && (forall x: nat :: b <= x < cur ==> FreshPage(t, pg0, pg, root, x))
    && (forall x: nat :: x < NPAGES && !(b <= x < cur) ==> Xlat(t, root, x) == Xlat(t0, root, x))
    && (forall f :: f in pg0 ==> f in pg && pg[f] == pg0[f])
    && (forall f :: f in pg && f !in pg0 ==> FrameIn(t, root, b, cur, f))
  }

  lemma AddedNothing(t: Tables, pg: Pages, root: nat, b: nat)
    requires TreeInv(t, root) && b <= NPAGES
    ensures Added(t, pg, t, pg, root, b, b)
  {
  }

  lemma NewEntry(t: Tables, t': Tables, root: nat, x: nat, g: nat)
    requires Sets(t, t', root, x, x + 1, g, MMAP_FLAGS) && x < NPAGES && g % PGSIZE == 0 && g < PA_MAX
    ensures IsValid(Xlat(t', root, x)) && FlagsOf(Xlat(t', root, x)) == MMAP_FLAGS + PTE_V
    ensures PteToPa(Xlat(t', root, x)) == g
    ensures forall y: nat :: y < NPAGES && y != x ==> Xlat(t', root, y) == Xlat(t, root, y)
  {
    hide Xlat, TreeInv, Extends, PaToPte, PteToPa;
    assert FrameAt(g, x, x) == g;
    assert WithV(MMAP_FLAGS) == MMAP_FLAGS + PTE_V;
    PackUnpack(g, MMAP_FLAGS + PTE_V);
  }

  lemma FreshStays(t: Tables, pg0: Pages, pg: Pages, t': Tables, root: nat, x: nat, g: nat)
    requires FreshPage(t, pg0, pg, root, x) && g !in pg && Xlat(t', root, x) == Xlat(t, root, x)
    ensures FreshPage(t', pg0, pg[g := ZeroPage()], root, x)
  {
    hide Xlat, PteToPa, FlagsOf;
  }

  lemma FreshNew(t: Tables, pg0: Pages, pg: Pages, root: nat, x: nat, g: nat)
    requires x < NPAGES && IsValid(Xlat(t, root, x)) && FlagsOf(Xlat(t, root, x)) == MMAP_FLAGS + PTE_V
    requires PteToPa(Xlat(t, root, x)) == g && g !in pg0 && g in pg && pg[g] == ZeroPage()
    ensures FreshPage(t, pg0, pg, root, x)
  {
  }

  lemma SetsTree(t: Tables, t': Tables, root: nat, lo: nat, hi: nat, pa: nat, flags: nat)
    requires Sets(t, t', root, lo, hi, pa, flags)
    ensures TreeInv(t', root)
  {
  }

  lemma AddedStep(t0: Tables, pg0: Pages, t: Tables, pg: Pages, t': Tables, root: nat, b: nat, cur: nat, g: nat)
    requires Added(t0, pg0, t, pg, root, b, cur) && cur < NPAGES && Sets(t, t', root, cur, cur + 1, g, MMAP_FLAGS)
    requires g % PGSIZE == 0 && g < PA_MAX && g !in pg
    ensures Added(t0, pg0, t', pg[g := ZeroPage()], root, b, cur + 1)
  {
    hide Xlat, TreeInv, Sets, FreshPage;
    var pg' := pg[g := ZeroPage()];
    SetsTree(t, t', root, cur, cur + 1, g, MMAP_FLAGS);
    NewEntry(t, t', root, cur, g);
    FreshNew(t', pg0, pg', root, cur, g);
    forall x: nat | b <= x < cur ensures FreshPage(t', pg0, pg', root, x) { FreshStays(t, pg0, pg, t', root, x, g); }
    hide PteToPa;
    forall f | FrameIn(t, root, b, cur, f) ensures FrameIn(t', root, b, cur + 1, f) {
      var x: nat :| b <= x < cur && x < NPAGES && PteToPa(Xlat(t, root, x)) == f;
      assert PteToPa(Xlat(t', root, x)) == f;
    }
    assert FrameIn(t', root, b, cur + 1, g);
  }

  /** A fresh frame keeps the window's frames distinct and allocated. */
  lemma OwnsMore(r: Regions, t: Tables, pg: Pages, t': Tables, root: nat, wlo: nat, whi: nat, x: nat, g: nat,
                 s: seq<byte>)
    requires OwnsRange(r, t, pg, root, wlo, whi) && x < NPAGES && Sets(t, t', root, x, x + 1, g, MMAP_FLAGS)
    requires g % PGSIZE == 0 && g < PA_MAX && g !in pg && InUser(r, g)
    ensures OwnsRange(r, t', pg[g := s], root, wlo, whi)
  {
    NewEntry(t, t', root, x, g);
    hide Xlat, Sets, PteToPa;
  }

  /** `map_pages` found every page unmapped. */
  ghost predicate Unmapped(t: Tables, root: nat, b: nat, e: nat) {
    e <= USER_PAGES && forall x: nat :: b <= x < e ==> !IsValid(Xlat(t, root, x))
  }

  lemma NextMapOk(t0: Tables, pg0: Pages, t: Tables, pg: Pages, root: nat, b: nat, cur: nat, e: nat, g: nat)
    requires Added(t0, pg0, t, pg, root, b, cur) && cur < e && Unmapped(t0, root, b, e)
    ensures TreeInv(t, root) && MapOk(t, root, cur, g)
  {
  }

  /** `map_pages`: fresh user pages for [b, e); its map calls cannot fail because the pages are free. */
  method MapPages(m: Memory, root: nat, b: nat, e: nat, ghost wlo: nat, ghost whi: nat) returns (ok: bool)
    requires m.Valid() && TreeInv(m.tables, root) && b <= e && Unmapped(m.tables, root, b, e)
    requires OwnsRange(m.rg, m.tables, m.pages, root, wlo, whi)
    modifies m`tables, m`pages, m`kfree, m`ufree
    ensures m.Valid()
    ensures ok ==> Added(old(m.tables), old(m.pages), m.tables, m.pages, root, b, e)
    ensures ok ==> OwnsRange(m.rg, m.tables, m.pages, root, wlo, whi)
    ensures !ok ==> m.ufree == [] || m.kfree == []
  {
    hide MemInv, TreeInv, Xlat, Added, OwnsRange, Sets, MapOk, Grows;
    AddedNothing(m.tables, m.pages, root, b);
    var cur := b;
    while cur < e
      invariant b <= cur <= e && m.Valid()
      invariant Added(old(m.tables), old(m.pages), m.tables, m.pages, root, b, cur)
      invariant OwnsRange(m.rg, m.tables, m.pages, root, wlo, whi)
    {
      ghost var t, pg := m.tables, m.pages;
      var f := m.AllocPage(false);
      if f.None? { return false; }
      NextMapOk(old(m.tables), old(m.pages), t, pg, root, b, cur, e, f.value);
      var r := m.MapPage(root, cur * PGSIZE, f.value, MMAP_FLAGS);
      if r.Halted? { return false; }
      AddedStep(old(m.tables), old(m.pages), t, pg, m.tables, root, b, cur, f.value);
      OwnsMore(m.rg, t, pg, m.tables, root, wlo, whi, cur, f.value, ZeroPage());
      cur := cur + 1;
    }
    return true;
  }

  // ----- the region list

  lemma NodeAt(nodes: seq<Node>, head: Option<nat>, whead: Option<nat>, l: seq<nat>, f: seq<nat>, rs: seq<Region>,
               i: nat)
    requires Lists(nodes, head, whead, l, f, rs) && i < |rs|
    ensures |l| == |rs| && l[i] < |nodes| && nodes[l[i]].next == ListAt(l, i + 1)
    ensures nodes[l[i]].begin == rs[i].lo * PGSIZE && nodes[l[i]].npages == rs[i].hi - rs[i].lo
  {
  }

  lemma HeadAt(nodes: seq<Node>, head: Option<nat>, whead: Option<nat>, l: seq<nat>, f: seq<nat>, rs: seq<Region>)
    requires Lists(nodes, head, whead, l, f, rs)
    ensures |l| == |rs| && head == ListAt(l, 0) && whead == ListAt(f, 0)
  {
  }

  /** A free run of `n` pages at `b`. */
  ghost predicate Run(rs: seq<Region>, wlo: nat, whi: nat, b: nat, n: nat) {
    wlo <= b && b + n <= whi && Free(rs, b, b + n)
  }

  /** No run of `n` free pages starts below `c`. */
  ghost predicate NoRunBelow(rs: seq<Region>, wlo: nat, whi: nat, c: nat, n: nat) {
    forall x: nat :: x < c ==> !Run(rs, wlo, whi, x, n)
  }

  /** The end of the region in front of position `i`: where the next gap starts. */
  ghost function GapStart(rs: seq<Region>, wlo: nat, i: nat): nat
    requires i <= |rs|
  {
    if i == 0 then wlo else rs[i - 1].hi
  }

  /** A gap that is too small: no run starts in it or in the region behind it. */
  lemma GapTooSmall(rs: seq<Region>, wlo: nat, whi: nat, i: nat, n: nat)
    requires Canon(rs, wlo, whi) && i < |rs| && NoRunBelow(rs, wlo, whi, GapStart(rs, wlo, i), n)
    requires n > 0 && rs[i].lo - GapStart(rs, wlo, i) < n
    ensures NoRunBelow(rs, wlo, whi, GapStart(rs, wlo, i + 1), n)
  {
    forall x: nat | x < rs[i].hi ensures !Run(rs, wlo, whi, x, n) {
      if x >= GapStart(rs, wlo, i) {
        var y := if x < rs[i].lo then rs[i].lo else x;
        assert Has(rs, y);
        assert x <= y < x + n;
      }
    }
  }

  lemma GapFits(rs: seq<Region>, wlo: nat, whi: nat, i: nat, n: nat)
    requires Canon(rs, wlo, whi) && i <= |rs| && n > 0
    requires GapStart(rs, wlo, i) + n <= if i < |rs| then rs[i].lo else whi
    ensures Run(rs, wlo, whi, GapStart(rs, wlo, i), n)
  {
  }

  lemma LastGap(rs: seq<Region>, wlo: nat, whi: nat, n: nat)
    requires Canon(rs, wlo, whi) && n > 0 && NoRunBelow(rs, wlo, whi, GapStart(rs, wlo, |rs|), n)
    requires GapStart(rs, wlo, |rs|) + n > whi
    ensures forall x: nat :: !Run(rs, wlo, whi, x, n)
  {
  }

  lemma SplitFound(rs: seq<Region>, wlo: nat, whi: nat, b: nat, k: nat)
    requires Canon(rs, wlo, whi) && k <= |rs| && (forall i :: 0 <= i < k ==> rs[i].lo < b)
    requires k < |rs| ==> b <= rs[k].lo
    ensures SplitAt(rs, b, k)
  {
  }

  lemma FirstGap(rs: seq<Region>, wlo: nat, whi: nat, n: nat)
    ensures GapStart(rs, wlo, 0) == wlo && NoRunBelow(rs, wlo, whi, wlo, n)
  {
  }

  lemma NextGap(rs: seq<Region>, wlo: nat, whi: nat, i: nat)
    requires Canon(rs, wlo, whi) && i < |rs|
    ensures GapStart(rs, wlo, i) <= rs[i].lo < rs[i].hi == GapStart(rs, wlo, i + 1)
  {
  }

  // ----- the four ways to enter a region

  ghost predicate Entering(nodes: seq<Node>, head: Option<nat>, whead: Option<nat>, l: seq<nat>, f: seq<nat>,
                           rs: seq<Region>, b: nat, e: nat, k: nat) {
    Lists(nodes, head, whead, l, f, rs) && k <= |rs| && |rs| == |l| && b < e
  }

  lemma MergePrevOnly(nodes: seq<Node>, head: Option<nat>, whead: Option<nat>, l: seq<nat>, f: seq<nat>,
                      rs: seq<Region>, b: nat, e: nat, k: nat)
    requires Entering(nodes, head, whead, l, f, rs, b, e, k) && MergesPrev(rs, b, k) && !MergesNext(rs, e, k)
    ensures l[k - 1] < |nodes| && nodes[l[k - 1]].begin == rs[k - 1].lo * PGSIZE
    ensures var r := nodes[l[k - 1] := nodes[l[k - 1]].(npages := e - rs[k - 1].lo)];
      Lists(r, head, whead, l, f, Inserted(rs, b, e, k))
  {
    hide ListsOk, Regs, RegionOf;
    NodeAt(nodes, head, whead, l, f, rs, k - 1);
    ResizeNode(nodes, head, whead, l, f, k - 1, rs[k - 1].lo * PGSIZE, e - rs[k - 1].lo);
    assert Inserted(rs, b, e, k) == rs[k - 1 := Region(rs[k - 1].lo, e)];
  }

  lemma MergeNextOnly(nodes: seq<Node>, head: Option<nat>, whead: Option<nat>, l: seq<nat>, f: seq<nat>,
                      rs: seq<Region>, b: nat, e: nat, k: nat)
    requires Entering(nodes, head, whead, l, f, rs, b, e, k) && !MergesPrev(rs, b, k) && MergesNext(rs, e, k)
    ensures l[k] < |nodes|
    ensures var r := nodes[l[k] := nodes[l[k]].(begin := b * PGSIZE, npages := rs[k].hi - b)];
      Lists(r, head, whead, l, f, Inserted(rs, b, e, k))
  {
    hide ListsOk, Regs, RegionOf;
    NodeAt(nodes, head, whead, l, f, rs, k);
    ResizeNode(nodes, head, whead, l, f, k, b * PGSIZE, rs[k].hi - b);
    assert Inserted(rs, b, e, k) == rs[k := Region(b, rs[k].hi)];
  }

  lemma MergeBoth(nodes: seq<Node>, head: Option<nat>, whead: Option<nat>, l: seq<nat>, f: seq<nat>, rs: seq<Region>,
                  b: nat, e: nat, k: nat)
    requires Entering(nodes, head, whead, l, f, rs, b, e, k) && MergesPrev(rs, b, k) && MergesNext(rs, e, k)
    ensures l[k - 1] < |nodes| && l[k] < |nodes| && l[k] != l[k - 1]
    ensures var p := nodes[l[k - 1] := nodes[l[k - 1]].(npages := rs[k].hi - rs[k - 1].lo)];
      var q := p[l[k - 1] := p[l[k - 1]].(next := p[l[k]].next)];
      var r := q[l[k] := Node(0, 0, None, whead)];
      && Lists(r, head, Some(l[k]), DropAt(l, k), [l[k]] + f, Inserted(rs, b, e, k))
      && SamePool(l, f, DropAt(l, k), [l[k]] + f)
  {
    hide ListsOk, Regs, RegionOf, SamePool;
    NodeAt(nodes, head, whead, l, f, rs, k - 1);
    NodeAt(nodes, head, whead, l, f, rs, k);
    var n := rs[k].hi - rs[k - 1].lo;
    ResizeNode(nodes, head, whead, l, f, k - 1, rs[k - 1].lo * PGSIZE, n);
    var p := nodes[l[k - 1] := nodes[l[k - 1]].(npages := n)];
    RegionList.RemoveNode(p, head, whead, l, f, k);
    assert Inserted(rs, b, e, k) == DropAt(rs[k - 1 := Region(rs[k - 1].lo, rs[k].hi)], k);
  }

  lemma NewNode(nodes: seq<Node>, head: Option<nat>, whead: Option<nat>, l: seq<nat>, f: seq<nat>, rs: seq<Region>,
                b: nat, e: nat, k: nat)
    requires Entering(nodes, head, whead, l, f, rs, b, e, k) && !MergesPrev(rs, b, k) && !MergesNext(rs, e, k)
    requires f != []
    ensures f[0] < |nodes| && (k > 0 ==> l[k - 1] < |nodes| && l[k - 1] != f[0])
    ensures var p := nodes[f[0] := Node(b * PGSIZE, e - b, ListAt(l, k), None)];
      var r := if k == 0 then p else p[l[k - 1] := p[l[k - 1]].(next := Some(f[0]))];
      && Lists(r, if k == 0 then Some(f[0]) else head, nodes[f[0]].wnext, InsertAt(l, k, f[0]), f[1..],
               Inserted(rs, b, e, k))
      && SamePool(l, f, InsertAt(l, k, f[0]), f[1..])
  {
    hide ListsOk, Regs, RegionOf, SamePool, InsertAt, RegionSeq.Splice;
    RegionList.InsertNode(nodes, head, whead, l, f, k, b * PGSIZE, e - b);
  }

  // ----- mmap as a whole

  /** Fresh pages for a free interval keep the page table and the regions in agreement. */
  lemma MappingAdded(r: Regions, t0: Tables, pg0: Pages, t: Tables, pg: Pages, root: nat, rs: seq<Region>, wlo: nat,
                     whi: nat, b: nat, e: nat, k: nat)
    requires Mapping(r, t0, pg0, root, rs, wlo, whi) && Added(t0, pg0, t, pg, root, b, e)
    requires OwnsRange(r, t, pg, root, wlo, whi)
    requires wlo <= b < e <= whi && SplitAt(rs, b, k) && Free(rs, b, e)
    ensures Mapping(r, t, pg, root, Inserted(rs, b, e, k), wlo, whi)
  {
    assert k <= |rs|;
    hide TreeInv, OwnsRange, Canon, SplitAt, Inserted, Xlat, Has, Free;
    InsertedCanon(rs, wlo, whi, b, e, k);
    forall x: nat | wlo <= x < whi && x < NPAGES
      ensures IsValid(Xlat(t, root, x)) <==> Has(Inserted(rs, b, e, k), x)
    {
      InsertedPages(rs, wlo, whi, b, e, k, x);
      if b <= x < e { assert FreshPage(t, pg0, pg, root, x); }
    }
  }

  lemma MappingParts(r: Regions, t: Tables, pg: Pages, root: nat, rs: seq<Region>, wlo: nat, whi: nat)
    requires Mapping(r, t, pg, root, rs, wlo, whi)
    ensures TreeInv(t, root) && Canon(rs, wlo, whi) && OwnsRange(r, t, pg, root, wlo, whi)
    ensures 0 < wlo <= whi <= USER_PAGES
  {
  }

  lemma RunUnmapped(r: Regions, t: Tables, pg: Pages, root: nat, rs: seq<Region>, wlo: nat, whi: nat, b: nat, n: nat)
    requires Mapping(r, t, pg, root, rs, wlo, whi) && Run(rs, wlo, whi, b, n)
    ensures Unmapped(t, root, b, b + n)
  {
    hide TreeInv, OwnsRange, Canon, Xlat, Has;
  }

  /** `a` is the start address of the region that page `b` lies in. */
  ghost predicate StartOf(rs: seq<Region>, a: nat, b: nat) {
    exists i :: 0 <= i < |rs| && rs[i].lo * PGSIZE == a && rs[i].lo <= b < rs[i].hi
  }

  lemma InsertedStart(rs: seq<Region>, wlo: nat, whi: nat, b: nat, e: nat, k: nat)
    requires Canon(rs, wlo, whi) && SplitAt(rs, b, k) && b < e && Free(rs, b, e)
    ensures StartOf(Inserted(rs, b, e, k), (if MergesPrev(rs, b, k) then rs[k - 1].lo else b) * PGSIZE, b)
  {
    var i := if MergesPrev(rs, b, k) then k - 1 else k;
    var q := Inserted(rs, b, e, k);
    assert q[i].lo == if MergesPrev(rs, b, k) then rs[k - 1].lo else b;
    assert q[i].lo <= b < q[i].hi;
  }

  /** What `mmap` accepts: a run the caller names, or any run if the caller leaves the address open. */
  ghost predicate Accepts(rs: seq<Region>, wlo: nat, whi: nat, begin: nat, n: nat) {
    && n > 0
    && if begin == 0 then exists x: nat :: Run(rs, wlo, whi, x, n)
       else begin % PGSIZE == 0 && Run(rs, wlo, whi, begin / PGSIZE, n)
  }

  /** Where it is put: at the address asked for, else at the lowest run. */
  ghost predicate PlacedAt(rs: seq<Region>, wlo: nat, whi: nat, begin: nat, n: nat, b: nat) {
    && Run(rs, wlo, whi, b, n)
    && if begin == 0 then NoRunBelow(rs, wlo, whi, b, n) else begin == b * PGSIZE
  }

  lemma PlacedRun(rs: seq<Region>, wlo: nat, whi: nat, begin: nat, n: nat, b: nat)
    requires PlacedAt(rs, wlo, whi, begin, n, b)
    ensures Run(rs, wlo, whi, b, n) && Free(rs, b, b + n)
  {
  }

  /** Some region ends where [b, e) starts or starts where it ends. */
  ghost predicate Touches(rs: seq<Region>, b: nat, e: nat) {
    exists i :: 0 <= i < |rs| && (rs[i].hi == b || rs[i].lo == e)
  }

  lemma TouchesMerges(rs: seq<Region>, wlo: nat, whi: nat, b: nat, e: nat, k: nat)
    requires Canon(rs, wlo, whi) && SplitAt(rs, b, k) && b < e && Free(rs, b, e)
    ensures Touches(rs, b, e) <==> MergesPrev(rs, b, k) || MergesNext(rs, e, k)
  {
    FreeIff(rs, wlo, whi, b, e, k);
    hide Free;
    if i :| 0 <= i < |rs| && (rs[i].hi == b || rs[i].lo == e) {
      assert rs[i].hi == b ==> i == k - 1;
      assert rs[i].lo == e ==> i == k;
    }
    assert MergesPrev(rs, b, k) ==> rs[k - 1].hi == b;
    assert MergesNext(rs, e, k) ==> rs[k].lo == e;
  }

  lemma AcceptsPages(rs: seq<Region>, wlo: nat, whi: nat, begin: nat)
    ensures !Accepts(rs, wlo, whi, begin, 0)
  {
  }

  /** The page count of a length in 64-bit arithmetic. */
  function PagesOf(len: nat): nat {
    AlignUp(len) % ADDRESS_SPACE / PGSIZE
  }

  lemma AddedPages(rs: seq<Region>, wlo: nat, whi: nat, b: nat, e: nat, k: nat)
    requires Canon(rs, wlo, whi) && SplitAt(rs, b, k) && b < e && Free(rs, b, e)
    ensures forall x: nat :: Has(Inserted(rs, b, e, k), x) <==> Has(rs, x) || b <= x < e
  {
    forall x: nat ensures Has(Inserted(rs, b, e, k), x) <==> Has(rs, x) || b <= x < e {
      InsertedPages(rs, wlo, whi, b, e, k, x);
    }
  }

  // ----- munmap

  lemma SamePoolSelf(l: seq<nat>, f: seq<nat>)
    ensures SamePool(l, f, l, f)
  {
  }

  lemma SamePoolTrans(l: seq<nat>, f: seq<nat>, m: seq<nat>, g: seq<nat>, n: seq<nat>, h: seq<nat>)
    requires SamePool(l, f, m, g) && SamePool(m, g, n, h)
    ensures SamePool(l, f, n, h)
  {
  }

  /** Replace region `k` by what is left of it. */
  lemma CutAt(rs: seq<Region>, wlo: nat, whi: nat, k: nat, s: nat, e: nat)
    requires Canon(rs, wlo, whi) && k < |rs| && rs[k].lo <= s < e <= rs[k].hi
    ensures Cut(rs, s, e) == rs[..k] + CutOne(rs[k], s, e) + rs[k + 1..]
  {
    CutOutside(rs[..k], s, e);
    CutOutside(rs[k + 1..], s, e);
    hide Canon, CutOne;
    assert rs == rs[..k + 1] + rs[k + 1..];
    CutConcat(rs[..k + 1], rs[k + 1..], s, e);
    CutSnoc(rs, k, s, e);
  }

  /** The node list of a cut: what happens to the node at position `k`. */
  ghost predicate Cutting(nodes: seq<Node>, head: Option<nat>, whead: Option<nat>, l: seq<nat>, f: seq<nat>,
                          rs: seq<Region>, wlo: nat, whi: nat, k: nat, s: nat, e: nat) {
    && Lists(nodes, head, whead, l, f, rs) && Canon(rs, wlo, whi) && k < |rs| == |l|
    && rs[k].lo <= s < e <= rs[k].hi
  }

  lemma CutWhole(nodes: seq<Node>, head: Option<nat>, whead: Option<nat>, l: seq<nat>, f: seq<nat>, rs: seq<Region>,
                 wlo: nat, whi: nat, k: nat, s: nat, e: nat)
    requires Cutting(nodes, head, whead, l, f, rs, wlo, whi, k, s, e) && rs[k].lo == s && rs[k].hi == e
    ensures l[k] < |nodes| && (k > 0 ==> l[k - 1] < |nodes| && l[k - 1] != l[k]) && nodes[l[k]].next == ListAt(l, k + 1)
    ensures var p := if k == 0 then nodes else nodes[l[k - 1] := nodes[l[k - 1]].(next := nodes[l[k]].next)];
      var r := p[l[k] := Node(0, 0, None, whead)];
      && Lists(r, if k == 0 then nodes[l[k]].next else head, Some(l[k]), DropAt(l, k), [l[k]] + f, Cut(rs, s, e))
      && SamePool(l, f, DropAt(l, k), [l[k]] + f)
      && ListAt(DropAt(l, k), k) == ListAt(l, k + 1) && ListAt(DropAt(l, k), k - 1) == ListAt(l, k - 1)
  {
    hide ListsOk, Regs, RegionOf, SamePool, Cut;
    NodeAt(nodes, head, whead, l, f, rs, k);
    RegionList.RemoveNode(nodes, head, whead, l, f, k);
    CutAt(rs, wlo, whi, k, s, e);
    assert Cut(rs, s, e) == DropAt(rs, k);
  }

  /** Trimming the front or the back only resizes the node. */
  lemma CutEnd(nodes: seq<Node>, head: Option<nat>, whead: Option<nat>, l: seq<nat>, f: seq<nat>, rs: seq<Region>,
               wlo: nat, whi: nat, k: nat, s: nat, e: nat)
    requires Cutting(nodes, head, whead, l, f, rs, wlo, whi, k, s, e) && (rs[k].lo == s) != (rs[k].hi == e)
    ensures l[k] < |nodes| && nodes[l[k]].next == ListAt(l, k + 1)
    ensures rs[k].lo == s ==>
      Lists(nodes[l[k] := nodes[l[k]].(begin := e * PGSIZE, npages := rs[k].hi - e)], head, whead, l, f, Cut(rs, s, e))
    ensures rs[k].hi == e ==>
      Lists(nodes[l[k] := nodes[l[k]].(npages := s - rs[k].lo)], head, whead, l, f, Cut(rs, s, e))
  {
    hide ListsOk, Regs, RegionOf, Cut;
    NodeAt(nodes, head, whead, l, f, rs, k);
    CutAt(rs, wlo, whi, k, s, e);
    if rs[k].lo == s {
      ResizeNode(nodes, head, whead, l, f, k, e * PGSIZE, rs[k].hi - e);
      assert Cut(rs, s, e) == rs[k := Region(e, rs[k].hi)];
    } else {
      ResizeNode(nodes, head, whead, l, f, k, rs[k].lo * PGSIZE, s - rs[k].lo);
      assert Cut(rs, s, e) == rs[k := Region(rs[k].lo, s)];
    }
  }

  /** A cut inside a region takes a node for its right part. */
  lemma CutSplit(nodes: seq<Node>, head: Option<nat>, whead: Option<nat>, l: seq<nat>, f: seq<nat>, rs: seq<Region>,
                 wlo: nat, whi: nat, k: nat, s: nat, e: nat)
    requires Cutting(nodes, head, whead, l, f, rs, wlo, whi, k, s, e) && rs[k].lo < s && e < rs[k].hi && f != []
    ensures l[k] < |nodes| && f[0] < |nodes| && l[k] != f[0] && nodes[l[k]].next == ListAt(l, k + 1)
    ensures var p := nodes[f[0] := Node(e * PGSIZE, rs[k].hi - e, nodes[l[k]].next, None)];
      var r := p[l[k] := p[l[k]].(npages := s - rs[k].lo, next := Some(f[0]))];
      && Lists(r, head, nodes[f[0]].wnext, InsertAt(l, k + 1, f[0]), f[1..], Cut(rs, s, e))
      && SamePool(l, f, InsertAt(l, k + 1, f[0]), f[1..])
      && ListAt(InsertAt(l, k + 1, f[0]), k + 1) == Some(f[0])
      && ListAt(InsertAt(l, k + 1, f[0]), k + 2) == ListAt(l, k + 1)
  {
    hide ListsOk, Regs, RegionOf, Cut, SamePool;
    NodeAt(nodes, head, whead, l, f, rs, k);
    CutAt(rs, wlo, whi, k, s, e);
    ResizeNode(nodes, head, whead, l, f, k, rs[k].lo * PGSIZE, s - rs[k].lo);
    var q := nodes[l[k] := nodes[l[k]].(begin := rs[k].lo * PGSIZE, npages := s - rs[k].lo)];
    var qs := rs[k := Region(rs[k].lo, s)];
    RegionList.InsertNode(q, head, whead, l, f, k + 1, e * PGSIZE, rs[k].hi - e);
    assert Cut(rs, s, e) == RegionSeq.Splice(qs, k + 1, k + 1, Region(e, rs[k].hi));
    var p := nodes[f[0] := Node(e * PGSIZE, rs[k].hi - e, nodes[l[k]].next, None)];
    assert p[l[k] := p[l[k]].(npages := s - rs[k].lo, next := Some(f[0]))] ==
           WithNode(q, l, f[0], k + 1, e * PGSIZE, rs[k].hi - e);
  }

  /** From `t0` and `pg0`, exactly the pages of `rs0` that are not in `rs` were unmapped, and their frames freed. */
  ghost predicate Removed(t0: Tables, pg0: Pages, t: Tables, pg: Pages, root: nat, rs0: seq<Region>, rs: seq<Region>) {
    && (forall x: nat :: x < NPAGES ==> Xlat(t, root, x) == if Has(rs0, x) && !Has(rs, x) then 0 else Xlat(t0, root, x))
    && pg == pg0 - Freed(t0, root, rs0, rs)
  }

  ghost function Freed(t0: Tables, root: nat, rs0: seq<Region>, rs: seq<Region>): set<nat> {
    set x: nat | x < NPAGES && Has(rs0, x) && !Has(rs, x) :: PteToPa(Xlat(t0, root, x))
  }

  /** `rs'` is `rs` without the pages [s, e), all of which it had. */
  ghost predicate Loses(rs: seq<Region>, rs': seq<Region>, s: nat, e: nat) {
    && (forall x: nat :: s <= x < e ==> Has(rs, x))
    && (forall x: nat :: Has(rs', x) <==> Has(rs, x) && !(s <= x < e))
  }

  lemma RemovedNothing(t: Tables, pg: Pages, root: nat, rs: seq<Region>)
    ensures Removed(t, pg, t, pg, root, rs, rs)
  {
    assert Freed(t, root, rs, rs) == {};
    assert pg - {} == pg;
  }

  lemma FreedMore(t0: Tables, pg0: Pages, t: Tables, pg: Pages, root: nat, rs0: seq<Region>, rs: seq<Region>,
                  rs': seq<Region>, s: nat, e: nat)
    requires Removed(t0, pg0, t, pg, root, rs0, rs) && Loses(rs, rs', s, e) && e <= NPAGES
    requires forall x: nat :: Has(rs, x) ==> Has(rs0, x)
    requires forall x: nat :: s <= x < e ==> IsValid(Xlat(t, root, x))
    ensures Freed(t0, root, rs0, rs') == Freed(t0, root, rs0, rs) + FramesOf(t, root, s, e)
  {
    hide Xlat, PteToPa, Has;
    var a, b, c := Freed(t0, root, rs0, rs'), Freed(t0, root, rs0, rs), FramesOf(t, root, s, e);
    forall g | g in b ensures g in a {
      var x: nat :| x < NPAGES && Has(rs0, x) && !Has(rs, x) && PteToPa(Xlat(t0, root, x)) == g;
    }
    forall g | g in c ensures g in a {
      var x: nat :| s <= x < e && x < NPAGES && IsValid(Xlat(t, root, x)) && PteToPa(Xlat(t, root, x)) == g;
      assert Has(rs, x);
    }
    forall g | g in a ensures g in b || g in c {
      var x: nat :| x < NPAGES && Has(rs0, x) && !Has(rs', x) && PteToPa(Xlat(t0, root, x)) == g;
      assert Has(rs, x) ==> s <= x < e;
      if Has(rs, x) { assert PteToPa(Xlat(t, root, x)) == g; }
    }
  }

  lemma RemovedMore(t0: Tables, pg0: Pages, t: Tables, pg: Pages, t': Tables, root: nat, rs0: seq<Region>,
                    rs: seq<Region>, rs': seq<Region>, s: nat, e: nat)
    requires Removed(t0, pg0, t, pg, root, rs0, rs) && Loses(rs, rs', s, e) && e <= NPAGES && Clears(t, t', root, s, e)
    requires forall x: nat :: Has(rs, x) ==> Has(rs0, x)
    requires forall x: nat :: s <= x < e ==> IsValid(Xlat(t, root, x))
    ensures Removed(t0, pg0, t', pg - FramesOf(t, root, s, e), root, rs0, rs')
  {
    FreedMore(t0, pg0, t, pg, root, rs0, rs, rs', s, e);
    hide Xlat, Has, Freed, FramesOf;
    assert pg - FramesOf(t, root, s, e) == pg0 - (Freed(t0, root, rs0, rs) + FramesOf(t, root, s, e));
  }

  lemma StillOwned(r: Regions, t: Tables, pg: Pages, t': Tables, root: nat, wlo: nat, whi: nat, s: nat, e: nat, x: nat)
    requires OwnsRange(r, t, pg, root, wlo, whi) && Clears(t, t', root, s, e) && wlo <= s < e <= whi
    requires wlo <= x < whi && x < NPAGES && IsValid(Xlat(t', root, x))
    ensures !(s <= x < e) && Xlat(t', root, x) == Xlat(t, root, x)
    ensures var g := PteToPa(Xlat(t, root, x)); g in pg && GetRegion(r, g).Some? && g !in FramesOf(t, root, s, e)
  {
    hide Xlat, PteToPa, TreeInv, Extends;
    if PteToPa(Xlat(t, root, x)) in FramesOf(t, root, s, e) {
      var y: nat :| s <= y < e && y < NPAGES && IsValid(Xlat(t, root, y))
                    && PteToPa(Xlat(t, root, y)) == PteToPa(Xlat(t, root, x));
      assert false;
    }
  }

  lemma OwnsLess(r: Regions, t: Tables, pg: Pages, t': Tables, root: nat, wlo: nat, whi: nat, s: nat, e: nat)
    requires OwnsRange(r, t, pg, root, wlo, whi) && Clears(t, t', root, s, e) && wlo <= s < e <= whi
    ensures OwnsRange(r, t', pg - FramesOf(t, root, s, e), root, wlo, whi)
  {
    forall x: nat | wlo <= x < whi && x < NPAGES && IsValid(Xlat(t', root, x))
      ensures Xlat(t', root, x) == Xlat(t, root, x)
      ensures PteToPa(Xlat(t, root, x)) in pg - FramesOf(t, root, s, e) && GetRegion(r, PteToPa(Xlat(t, root, x))).Some?
    {
      StillOwned(r, t, pg, t', root, wlo, whi, s, e, x);
    }
    hide Xlat, PteToPa, Clears, FramesOf, GetRegion;
  }

  lemma AgreeCut(t: Tables, t': Tables, root: nat, rs: seq<Region>, rs': seq<Region>, wlo: nat, whi: nat, s: nat,
                 e: nat)
    requires Agree(t, root, rs, wlo, whi) && Clears(t, t', root, s, e) && Loses(rs, rs', s, e) && wlo <= s < e <= whi
    ensures Agree(t', root, rs', wlo, whi)
  {
    hide Xlat, Has, TreeInv, Extends;
  }

  /** Unmapping pages of the regions keeps the page table and the regions in agreement. */
  lemma MappingCut(r: Regions, t: Tables, pg: Pages, t': Tables, root: nat, rs: seq<Region>, rs': seq<Region>,
                   wlo: nat, whi: nat, s: nat, e: nat)
    requires Mapping(r, t, pg, root, rs, wlo, whi) && Clears(t, t', root, s, e) && Loses(rs, rs', s, e)
    requires Canon(rs', wlo, whi)
    requires wlo <= s < e <= whi
    ensures Mapping(r, t', pg - FramesOf(t, root, s, e), root, rs', wlo, whi)
  {
    assert TreeInv(t', root);
    hide Canon, TreeInv, OwnsRange, FramesOf, Agree, Loses, Clears;
    OwnsLess(r, t, pg, t', root, wlo, whi, s, e);
    AgreeCut(t, t', root, rs, rs', wlo, whi, s, e);
  }

  lemma RegionMapped(r: Regions, t: Tables, pg: Pages, root: nat, rs: seq<Region>, wlo: nat, whi: nat, k: nat, s: nat,
                     e: nat)
    requires Mapping(r, t, pg, root, rs, wlo, whi) && k < |rs| && rs[k].lo <= s < e <= rs[k].hi
    ensures wlo <= s < e <= whi <= USER_PAGES && TreeInv(t, root) && OwnsRange(r, t, pg, root, s, e)
    ensures forall x: nat :: s <= x < e ==> UnmapOk(t, root, x) && IsValid(Xlat(t, root, x))
    ensures Loses(rs, Cut(rs, s, e), s, e)
  {
    hide TreeInv, Xlat, PteToPa, Cut;
    forall x: nat | s <= x < e ensures Has(rs, x) { assert rs[k].lo <= x < rs[k].hi; }
    forall x: nat ensures Has(Cut(rs, s, e), x) <==> Has(rs, x) && !(s <= x < e) { CutPages(rs, s, e, x); }
    hide Has;
  }

  /** Between iterations of `munmap`: pages [start, u) are cut; the regions in front of `k` lie outside [start, end). */
  ghost predicate Trimming(rs0: seq<Region>, rs: seq<Region>, k: nat, start: nat, end: nat, u: nat) {
    && start <= u <= end && k <= |rs|
    && (forall x: nat :: Has(rs, x) <==> Has(rs0, x) && !(start <= x < u))
    && (forall i :: 0 <= i < k ==> rs[i].hi <= start || end <= rs[i].lo)
    && (forall i :: k <= i < |rs| ==> start < rs[i].hi && (u == start || u < rs[i].lo))
    && (u == start ==> rs == rs0)
  }

  lemma TrimBounds(rs0: seq<Region>, rs: seq<Region>, wlo: nat, whi: nat, k: nat, start: nat, end: nat, u: nat)
    requires Canon(rs, wlo, whi) && Trimming(rs0, rs, k, start, end, u) && k < |rs| && u < end && rs[k].lo < end
    ensures var s, e := Max(u, rs[k].lo), Min(end, rs[k].hi); rs[k].lo <= s < e <= rs[k].hi
    ensures rs[k].lo < Max(u, rs[k].lo) ==> u == start && rs == rs0
  {
  }

  /** No page of the regions lies between the part already cut and the next part. */
  lemma TrimPages(rs0: seq<Region>, rs: seq<Region>, wlo: nat, whi: nat, k: nat, start: nat, end: nat, u: nat, x: nat)
    requires Canon(rs, wlo, whi) && Trimming(rs0, rs, k, start, end, u) && k < |rs| && u < end && rs[k].lo < end
    requires u <= x < rs[k].lo
    ensures !Has(rs, x)
  {
  }

  lemma TrimCut(rs0: seq<Region>, rs: seq<Region>, wlo: nat, whi: nat, k: nat, start: nat, end: nat, u: nat, x: nat)
    requires Canon(rs, wlo, whi) && Trimming(rs0, rs, k, start, end, u) && k < |rs| && u < end && rs[k].lo < end
    ensures var s, e := Max(u, rs[k].lo), Min(end, rs[k].hi);
      s < e && (Has(Cut(rs, s, e), x) <==> Has(rs0, x) && !(start <= x < e))
  {
    var s, e := Max(u, rs[k].lo), Min(end, rs[k].hi);
    TrimBounds(rs0, rs, wlo, whi, k, start, end, u);
    CutPages(rs, s, e, x);
    if u <= x < rs[k].lo { TrimPages(rs0, rs, wlo, whi, k, start, end, u, x); }
    hide Has, Cut;
  }

  lemma CutLength(rs: seq<Region>, wlo: nat, whi: nat, k: nat, s: nat, e: nat)
    requires Canon(rs, wlo, whi) && k < |rs| && rs[k].lo <= s < e <= rs[k].hi
    ensures |Cut(rs, s, e)| == |rs| - 1 + |CutOne(rs[k], s, e)|
  {
    CutAt(rs, wlo, whi, k, s, e);
    hide Cut, CutOne, Canon;
  }

  /** Where the regions behind a cut come from. */
  lemma CutIndex(rs: seq<Region>, wlo: nat, whi: nat, k: nat, s: nat, e: nat, i: nat)
    requires Canon(rs, wlo, whi) && k < |rs| && rs[k].lo <= s < e <= rs[k].hi && i < |Cut(rs, s, e)|
    ensures var q, c := Cut(rs, s, e), CutOne(rs[k], s, e);
      && |q| == |rs| - 1 + |c|
      && q[i] == if i < k then rs[i] else if i < k + |c| then c[i - k] else rs[i - |c| + 1]
  {
    CutAt(rs, wlo, whi, k, s, e);
    hide Cut, CutOne, Canon;
  }

  lemma TrimPlaces(rs0: seq<Region>, rs: seq<Region>, wlo: nat, whi: nat, k: nat, start: nat, end: nat, u: nat, i: nat)
    requires Canon(rs, wlo, whi) && Trimming(rs0, rs, k, start, end, u) && k < |rs| && u < end && rs[k].lo < end
    requires i < |Cut(rs, Max(u, rs[k].lo), Min(end, rs[k].hi))|
    ensures var s, e := Max(u, rs[k].lo), Min(end, rs[k].hi);
      var q, k' := Cut(rs, s, e), k + |CutOne(rs[k], s, e)|;
      && k' <= |q|
      && (i < k' ==> q[i].hi <= start || end <= q[i].lo)
      && (i >= k' ==> start < q[i].hi && e < q[i].lo)
  {
    var s, e := Max(u, rs[k].lo), Min(end, rs[k].hi);
    TrimBounds(rs0, rs, wlo, whi, k, start, end, u);
    CutIndex(rs, wlo, whi, k, s, e, i);
    var c := CutOne(rs[k], s, e);
    var j := i - |c| + 1;
    if k < j < |rs| { Ordered(rs, wlo, whi, k, j); }
    hide Has, Cut, Canon;
    if k <= i < k + |c| { TrimPart(rs0, rs, k, start, end, u, i - k); }
    hide CutOne;
  }

  /** What is left of the region itself lies in front of `start` or behind `end`. */
  lemma TrimPart(rs0: seq<Region>, rs: seq<Region>, k: nat, start: nat, end: nat, u: nat, j: nat)
    requires Trimming(rs0, rs, k, start, end, u) && k < |rs|
    requires var s, e := Max(u, rs[k].lo), Min(end, rs[k].hi);
      rs[k].lo <= s < e <= rs[k].hi && (rs[k].lo < s ==> u == start) && j < |CutOne(rs[k], s, e)|
    ensures var c := CutOne(rs[k], Max(u, rs[k].lo), Min(end, rs[k].hi)); c[j].hi <= start || end <= c[j].lo
  {
    hide Has;
  }

  lemma TrimStep(rs0: seq<Region>, rs: seq<Region>, wlo: nat, whi: nat, k: nat, start: nat, end: nat, u: nat)
    requires Canon(rs, wlo, whi) && Trimming(rs0, rs, k, start, end, u) && k < |rs| && u < end && rs[k].lo < end
    ensures var s, e := Max(u, rs[k].lo), Min(end, rs[k].hi);
      s < e && Trimming(rs0, Cut(rs, s, e), k + |CutOne(rs[k], s, e)|, start, end, e)
  {
    var s, e := Max(u, rs[k].lo), Min(end, rs[k].hi);
    TrimBounds(rs0, rs, wlo, whi, k, start, end, u);
    CutLength(rs, wlo, whi, k, s, e);
    var q, k' := Cut(rs, s, e), k + |CutOne(rs[k], s, e)|;
    assert k' <= |q| && start < e <= end;
    hide Has, Cut, CutOne, Canon, Max, Min;
    forall x: nat ensures Has(q, x) <==> Has(rs0, x) && !(start <= x < e) {
      TrimCut(rs0, rs, wlo, whi, k, start, end, u, x);
    }
    forall i: nat | i < |q|
      ensures (i < k' ==> q[i].hi <= start || end <= q[i].lo) && (i >= k' ==> start < q[i].hi && e < q[i].lo)
    {
      TrimPlaces(rs0, rs, wlo, whi, k, start, end, u, i);
    }
  }

  lemma TrimDone(rs0: seq<Region>, rs: seq<Region>, wlo: nat, whi: nat, k: nat, start: nat, end: nat, u: nat)
    requires Canon(rs0, wlo, whi) && Canon(rs, wlo, whi) && Trimming(rs0, rs, k, start, end, u) && start < end
    requires k == |rs| || u == end || end <= rs[k].lo
    ensures rs == Cut(rs0, start, end)
  {
    CutCanon(rs0, wlo, whi, start, end);
    forall x: nat ensures Has(rs, x) <==> Has(Cut(rs0, start, end), x) {
      CutPages(rs0, start, end, x);
      assert Has(rs, x) ==> !(start <= x < end);
    }
    CanonUnique(rs, Cut(rs0, start, end), wlo, whi);
  }

  /** Some region reaches over [start, end) on both sides, so that unmapping it needs a node. */
  ghost predicate Splits(rs: seq<Region>, start: nat, end: nat) {
    exists i :: 0 <= i < |rs| && rs[i].lo < start && end < rs[i].hi
  }

  lemma Ordered(rs: seq<Region>, wlo: nat, whi: nat, i: nat, j: nat)
    requires Canon(rs, wlo, whi)
    ensures i < j < |rs| ==> rs[i].hi < rs[j].lo
  {
  }

  lemma SplitsHere(rs: seq<Region>, wlo: nat, whi: nat, k: nat, start: nat, end: nat)
    requires Canon(rs, wlo, whi) && Trimming(rs, rs, k, start, end, start) && start < end
    ensures Splits(rs, start, end) <==> k < |rs| && rs[k].lo < start && end < rs[k].hi
  {
    hide Has;
    if i :| 0 <= i < |rs| && rs[i].lo < start && end < rs[i].hi {
      Ordered(rs, wlo, whi, k, i);
    }
  }

  lemma TrimSubset(rs0: seq<Region>, rs: seq<Region>, k: nat, start: nat, end: nat, u: nat)
    requires Trimming(rs0, rs, k, start, end, u)
    ensures k <= |rs| && start <= u <= end && (forall x: nat :: Has(rs, x) ==> Has(rs0, x))
    ensures u == start ==> rs == rs0
  {
    hide Has;
  }

  lemma TrimBegin(rs: seq<Region>, wlo: nat, whi: nat, k: nat, start: nat, end: nat)
    requires Canon(rs, wlo, whi) && k <= |rs| && start < end && (forall i :: 0 <= i < k ==> rs[i].hi <= start)
    requires k < |rs| ==> start < rs[k].hi
    ensures Trimming(rs, rs, k, start, end, start)
  {
  }

  // ----- runs of calls

  /** Page table, pages and regions between two calls. */
  datatype View = View(t: Tables, pg: Pages, rs: seq<Region>)

  /** `mmap` of `n` pages put them at page `b` and returned address `a`. */
  ghost predicate MappedAt(root: nat, wlo: nat, whi: nat, begin: nat, n: nat, v: View, a: nat, w: View, b: nat) {
    && PlacedAt(v.rs, wlo, whi, begin, n, b) && Added(v.t, v.pg, w.t, w.pg, root, b, b + n) && StartOf(w.rs, a, b)
    && forall x: nat :: Has(w.rs, x) <==> Has(v.rs, x) || b <= x < b + n
  }

  /** What a call does to the address space: from `v` to `w`, returning `r`. */
  ghost predicate CallStep(root: nat, wlo: nat, whi: nat, c: Call, v: View, r: Outcome<nat>, w: View) {
    match c
    case MmapCall(begin, len) =>
      if !Accepts(v.rs, wlo, whi, begin, PagesOf(len)) then r == Err(OutOfRange) && w == v
      else r.Ok? && exists b: nat :: MappedAt(root, wlo, whi, begin, PagesOf(len), v, r.value, w, b)
    case MunmapCall(begin, len) =>
      && r == Ok(0)
      && if len == 0 then w == v
         else
           && w.rs == Cut(v.rs, begin / PGSIZE, AlignUp(begin + len) / PGSIZE)
           && Removed(v.t, v.pg, w.t, w.pg, root, v.rs, w.rs)
  }

  /** The run of `n` pages is put at page `b`, next to no other region. */
  ghost predicate NewRegion(rs: seq<Region>, wlo: nat, whi: nat, begin: nat, n: nat, b: nat) {
    PlacedAt(rs, wlo, whi, begin, n, b) && !Touches(rs, b, b + n)
  }

  /** The call needs a node of the warehouse: a region of its own, or the second part of a split one. */
  ghost predicate NeedsNode(rs: seq<Region>, wlo: nat, whi: nat, c: Call) {
    match c
    case MmapCall(begin, len) =>
      exists b: nat :: NewRegion(rs, wlo, whi, begin, PagesOf(len), b)
    case MunmapCall(begin, len) => Splits(rs, begin / PGSIZE, AlignUp(begin + len) / PGSIZE)
  }

  /** The views are those of the calls made so far, and each is in order. */
  ghost predicate Traces(r: Regions, root: nat, wlo: nat, whi: nat, calls: seq<Call>, rets: seq<Outcome<nat>>,
                         views: seq<View>) {
    && |views| == |rets| + 1 && |rets| <= |calls|
    && (forall k :: 0 <= k < |views| ==> Mapping(r, views[k].t, views[k].pg, root, views[k].rs, wlo, whi))
    && (forall k :: 0 <= k < |rets| ==> CallStep(root, wlo, whi, calls[k], views[k], rets[k], views[k + 1]))
  }

  class Space {
    const mem: Memory
    const root: nat
    const wlo: nat
    const whi: nat
    var nodes: seq<Node>
    var head: Option<nat>
    var whead: Option<nat>
    ghost var list: seq<nat>
    ghost var free: seq<nat>
    ghost var regs: seq<Region>

    ghost predicate ListsValid()
      reads this
    {
      Lists(nodes, head, whead, list, free, regs) && Canon(regs, wlo, whi) && 0 < wlo <= whi <= USER_PAGES
    }

    ghost predicate Valid()
      reads this, mem
    {
      mem.Valid() && ListsValid() && Mapping(mem.rg, mem.tables, mem.pages, root, regs, wlo, whi)
    }

    /** A process without regions: its window is unmapped and the warehouse is full (`mmap::init`). */
    constructor (mem: Memory, root: nat, wlo: nat, whi: nat)
      requires mem.Valid() && TreeInv(mem.tables, root) && 0 < wlo <= whi && Unmapped(mem.tables, root, wlo, whi)
      ensures Valid() && this.mem == mem && this.root == root && this.wlo == wlo && this.whi == whi && regs == []
      ensures free == seq(N_MMAP, i => i)
    {
      hide MemInv, TreeInv, Xlat, ListsOk;
      this.mem, this.root, this.wlo, this.whi := mem, root, wlo, whi;
      nodes, head, whead := InitNodes(), None, Some(0);
      list, free, regs := [], seq(N_MMAP, i => i), [];
      InitLists();
    }

    /** The search for a gap when the caller leaves the address open: complete first fit. */
    method FirstFit(n: nat) returns (r: Option<nat>)
      requires ListsValid() && n > 0
      ensures r.None? ==> forall x: nat :: !Run(regs, wlo, whi, x, n)
      ensures r.Some? ==> r.value % PGSIZE == 0 && Run(regs, wlo, whi, r.value / PGSIZE, n)
                          && NoRunBelow(regs, wlo, whi, r.value / PGSIZE, n)
    {
      hide Lists, Canon, Run, NoRunBelow, GapStart;
      HeadAt(nodes, head, whead, list, free, regs);
      var cur, cursor := head, wlo * PGSIZE;
      ghost var i := 0;
      FirstGap(regs, wlo, whi, n);
      while cur.Some?
        invariant 0 <= i <= |regs| && cur == ListAt(list, i) && cursor == GapStart(regs, wlo, i) * PGSIZE
        invariant NoRunBelow(regs, wlo, whi, GapStart(regs, wlo, i), n)
        decreases |regs| - i
      {
        NodeAt(nodes, head, whead, list, free, regs, i);
        NextGap(regs, wlo, whi, i);
        var at := nodes[cur.value].begin;
        if at >= cursor {
          if at - cursor >= n * PGSIZE {
            GapFits(regs, wlo, whi, i, n);
            return Some(cursor);
          }
          cursor := at + nodes[cur.value].npages * PGSIZE;
        }
        GapTooSmall(regs, wlo, whi, i, n);
        cur, i := nodes[cur.value].next, i + 1;
      }
      if whi * PGSIZE >= cursor && whi * PGSIZE - cursor >= n * PGSIZE {
        GapFits(regs, wlo, whi, i, n);
        return Some(cursor);
      }
      LastGap(regs, wlo, whi, n);
      return None;
    }

    /** The neighbours of a new region: the first region that does not start below `b`, and the one in front of it. */
    method FindSplit(b: nat) returns (prev: Option<nat>, cur: Option<nat>, ghost k: nat)
      requires ListsValid() && b % PGSIZE == 0
      ensures k <= |regs| == |list| && SplitAt(regs, b / PGSIZE, k)
      ensures prev == ListAt(list, k - 1) && cur == ListAt(list, k)
    {
      hide Lists, Canon;
      HeadAt(nodes, head, whead, list, free, regs);
      prev, cur, k := None, head, 0;
      if cur.Some? { NodeAt(nodes, head, whead, list, free, regs, 0); }
      while cur.Some? && nodes[cur.value].begin < b
        invariant k <= |regs| && prev == ListAt(list, k - 1) && cur == ListAt(list, k)
        invariant cur.Some? ==> cur.value < |nodes| && nodes[cur.value].begin == regs[k].lo * PGSIZE
        invariant forall i :: 0 <= i < k ==> regs[i].lo < b / PGSIZE
        decreases |regs| - k
      {
        NodeAt(nodes, head, whead, list, free, regs, k);
        prev, cur, k := cur, nodes[cur.value].next, k + 1;
        if cur.Some? { NodeAt(nodes, head, whead, list, free, regs, k); }
      }
      SplitFound(regs, wlo, whi, b / PGSIZE, k);
    }

    /** Enter the freshly mapped pages [b, e) into the list at position `k`, merged with the neighbours they touch. */
    method Link(b: nat, e: nat, prev: Option<nat>, cur: Option<nat>, ghost k: nat) returns (r: Option<nat>)
      requires ListsValid() && b < e && k <= |regs| && |list| == |regs|
      requires prev == ListAt(list, k - 1) && cur == ListAt(list, k)
      requires wlo <= b < e <= whi && SplitAt(regs, b, k) && Free(regs, b, e)
      modifies this`nodes, this`head, this`whead, this`list, this`free, this`regs
      ensures ListsValid()
      ensures r.None? <==> !MergesPrev(old(regs), b, k) && !MergesNext(old(regs), e, k) && old(free) == []
      ensures r.None? ==> regs == old(regs) && list == old(list) && free == old(free)
      ensures r.Some? ==> regs == Inserted(old(regs), b, e, k) && SamePool(old(list), old(free), list, free)
      ensures r.Some? ==> r.value == (if MergesPrev(old(regs), b, k) then old(regs)[k - 1].lo else b) * PGSIZE
    {
      hide Lists, Canon, SplitAt, Free, Inserted;
      InsertedCanon(regs, wlo, whi, b, e, k);
      var usePrev, consumeNext := false, false;
      if prev.Some? {
        NodeAt(nodes, head, whead, list, free, regs, k - 1);
        usePrev := nodes[prev.value].begin + nodes[prev.value].npages * PGSIZE == b * PGSIZE;
      }
      if cur.Some? {
        NodeAt(nodes, head, whead, list, free, regs, k);
        consumeNext := e * PGSIZE == nodes[cur.value].begin;
      }
      if usePrev {
        if consumeNext {
          MergeBoth(nodes, head, whead, list, free, regs, b, e, k);
          var end := nodes[cur.value].begin + nodes[cur.value].npages * PGSIZE;
          var n := (end - nodes[prev.value].begin) / PGSIZE;
          nodes := nodes[prev.value := nodes[prev.value].(npages := n)];
          nodes := nodes[prev.value := nodes[prev.value].(next := nodes[cur.value].next)];
          nodes := nodes[cur.value := Node(0, 0, None, whead)];
          whead := cur;
          list, free := DropAt(list, k), [list[k]] + free;
        } else {
          MergePrevOnly(nodes, head, whead, list, free, regs, b, e, k);
          nodes := nodes[prev.value := nodes[prev.value].(npages := (e * PGSIZE - nodes[prev.value].begin) / PGSIZE)];
        }
        regs := Inserted(regs, b, e, k);
        return Some(nodes[prev.value].begin);
      }
      if consumeNext {
        MergeNextOnly(nodes, head, whead, list, free, regs, b, e, k);
        var end := nodes[cur.value].begin + nodes[cur.value].npages * PGSIZE;
        nodes := nodes[cur.value := nodes[cur.value].(begin := b * PGSIZE, npages := (end - b * PGSIZE) / PGSIZE)];
        regs := Inserted(regs, b, e, k);
        return Some(nodes[cur.value].begin);
      }
      r := LinkNew(b, e, prev, cur, k);
    }

    /** Pages [b, e) touch no neighbour and become a region of their own, if the warehouse has a node. */
    method LinkNew(b: nat, e: nat, prev: Option<nat>, cur: Option<nat>, ghost k: nat) returns (r: Option<nat>)
      requires ListsValid() && b < e && k <= |regs| && |list| == |regs|
      requires prev == ListAt(list, k - 1) && cur == ListAt(list, k)
      requires wlo <= b < e <= whi && SplitAt(regs, b, k) && Free(regs, b, e)
      requires !MergesPrev(regs, b, k) && !MergesNext(regs, e, k)
      modifies this`nodes, this`head, this`whead, this`list, this`free, this`regs
      ensures ListsValid()
      ensures r.None? <==> old(free) == []
      ensures r.None? ==> regs == old(regs) && list == old(list) && free == old(free)
      ensures r.Some? ==> regs == Inserted(old(regs), b, e, k) && SamePool(old(list), old(free), list, free)
      ensures r.Some? ==> r.value == b * PGSIZE
    {
      hide Lists, Canon, SplitAt, Free, Inserted;
      InsertedCanon(regs, wlo, whi, b, e, k);
      HeadAt(nodes, head, whead, list, free, regs);
      if whead.None? { return None; }
      NewNode(nodes, head, whead, list, free, regs, b, e, k);
      var x := whead.value;
      whead := nodes[x].wnext;
      nodes := nodes[x := Node(b * PGSIZE, e - b, cur, None)];
      if prev.None? {
        head := Some(x);
      } else {
        nodes := nodes[prev.value := nodes[prev.value].(next := Some(x))];
      }
      list, free := InsertAt(list, k, x), free[1..];
      regs := Inserted(regs, b, e, k);
      return Some(b * PGSIZE);
    }

    /** Where `mmap` puts `n` pages, with the neighbours in the list; None exactly when no place is acceptable. */
    method Place(begin: nat, n: nat) returns (r: Option<nat>, prev: Option<nat>, cur: Option<nat>, ghost k: nat)
      requires ListsValid()
      ensures r.None? <==> !Accepts(regs, wlo, whi, begin, n)
      ensures r.Some? ==>
        && PlacedAt(regs, wlo, whi, begin, n, r.value / PGSIZE) && SplitAt(regs, r.value / PGSIZE, k)
        && k <= |regs| == |list| && prev == ListAt(list, k - 1) && cur == ListAt(list, k)
    {
      hide Lists, Canon, SplitAt, Free, NoRunBelow;
      k := 0;
      if n == 0 { return None, None, None, 0; }
      var at := begin;
      if at == 0 {
        var f := FirstFit(n);
        if f.None? { return None, None, None, 0; }
        at := f.value;
      }
      if at < wlo * PGSIZE || at + n * PGSIZE > whi * PGSIZE || at % PGSIZE != 0 {
        return None, None, None, 0;
      }
      prev, cur, k := FindSplit(at);
      FreeIff(regs, wlo, whi, at / PGSIZE, at / PGSIZE + n, k);
      if prev.Some? {
        NodeAt(nodes, head, whead, list, free, regs, k - 1);
        if at < nodes[prev.value].begin + nodes[prev.value].npages * PGSIZE { return None, None, None, 0; }
      }
      if cur.Some? {
        NodeAt(nodes, head, whead, list, free, regs, k);
        if at + n * PGSIZE > nodes[cur.value].begin { return None, None, None, 0; }
      }
      return Some(at), prev, cur, k;
    }

    /**
      `mmap`: OutOfRange exactly when no place is acceptable, and then nothing changed.  A successful call maps exactly
      the pages of its run to fresh zero pages, and returns the start of the region that holds them.  NoMem means that a
      node was needed and the warehouse was empty; the pages are mapped by then.
    */
    method Mmap(begin: nat, len: nat) returns (r: Outcome<nat>, ghost b: nat)
      requires Valid() && begin < ADDRESS_SPACE && len < ADDRESS_SPACE && begin + PagesOf(len) * PGSIZE < ADDRESS_SPACE
      modifies this`nodes, this`head, this`whead, this`list, this`free, this`regs, mem`tables, mem`pages, mem`kfree,
        mem`ufree
      ensures r != Err(MapFailed)
      ensures r == Err(OutOfRange) <==> !Accepts(old(regs), wlo, whi, begin, PagesOf(len))
      ensures r == Err(OutOfRange) ==>
        Valid() && regs == old(regs) && list == old(list) && free == old(free) && unchanged(mem)
      ensures r.Panic? ==> mem.ufree == [] || mem.kfree == []
      ensures r.Ok? || r == Err(NoMem) ==>
        && PlacedAt(old(regs), wlo, whi, begin, PagesOf(len), b)
        && Added(old(mem.tables), old(mem.pages), mem.tables, mem.pages, root, b, b + PagesOf(len))
        && (r == Err(NoMem) <==> !Touches(old(regs), b, b + PagesOf(len)) && old(free) == [])
      ensures r == Err(NoMem) ==> ListsValid() && regs == old(regs) && free == []
      ensures r.Ok? ==>
        && Valid() && SamePool(old(list), old(free), list, free) && StartOf(regs, r.value, b)
        && forall x: nat :: Has(regs, x) <==> Has(old(regs), x) || b <= x < b + PagesOf(len)
    {
      hide MemInv, Lists, Mapping, Canon, SplitAt, Inserted, Added, OwnsRange, Free, Has, Touches, SamePool, StartOf;
      hide TreeInv;
      hide PlacedAt, Accepts, MergesPrev, MergesNext;
      MappingParts(mem.rg, mem.tables, mem.pages, root, regs, wlo, whi);
      var n := AlignUp(len) % ADDRESS_SPACE / PGSIZE;
      var at, prev, cur;
      ghost var k;
      at, prev, cur, k := Place(begin, n);
      AcceptsPages(regs, wlo, whi, begin);
      if len == 0 || n == 0 || at.None? { return Err(OutOfRange), 0; }
      var page := at.value / PGSIZE;
      b := page;
      PlacedRun(regs, wlo, whi, begin, n, b);
      RunUnmapped(mem.rg, mem.tables, mem.pages, root, regs, wlo, whi, b, n);
      var ok := MapPages(mem, root, page, page + n, wlo, whi);
      if !ok { return Panic, 0; }
      TouchesMerges(regs, wlo, whi, b, b + n, k);
      MappingAdded(mem.rg, old(mem.tables), old(mem.pages), mem.tables, mem.pages, root, regs, wlo, whi, b, b + n, k);
      InsertedStart(regs, wlo, whi, b, b + n, k);
      AddedPages(regs, wlo, whi, b, b + n, k);
      var start := Link(page, page + n, prev, cur, k);
      if start.None? { return Err(NoMem), b; }
      return Ok(start.value), b;
    }

    /** Cut pages [s, e) out of the region at position `k`; fails exactly when that needs a node and there is none. */
    method CutNode(s: nat, e: nat, prev: Option<nat>, cur: nat, ghost k: nat)
      returns (ok: bool, prev': Option<nat>, cur': Option<nat>, ghost k': nat)
      requires ListsValid() && k < |regs| == |list| && regs[k].lo <= s < e <= regs[k].hi
      requires prev == ListAt(list, k - 1) && cur == list[k]
      modifies this`nodes, this`head, this`whead, this`list, this`free, this`regs
      ensures ListsValid()
      ensures !ok <==> old(regs)[k].lo < s && e < old(regs)[k].hi && old(free) == []
      ensures !ok ==> regs == old(regs) && list == old(list) && free == old(free)
      ensures ok ==>
        && regs == Cut(old(regs), s, e) && SamePool(old(list), old(free), list, free)
        && k' == k + |CutOne(old(regs)[k], s, e)| && cur' == ListAt(list, k')
        && (e == old(regs)[k].hi ==> prev' == ListAt(list, k' - 1))
    {
      hide Lists, Canon, Cut, SamePool;
      CutCanon(regs, wlo, whi, s, e);
      HeadAt(nodes, head, whead, list, free, regs);
      NodeAt(nodes, head, whead, list, free, regs, k);
      SamePoolSelf(list, free);
      var begin := nodes[cur].begin;
      var end := begin + nodes[cur].npages * PGSIZE;
      if s * PGSIZE == begin && e * PGSIZE == end {
        CutWhole(nodes, head, whead, list, free, regs, wlo, whi, k, s, e);
        var next := nodes[cur].next;
        if prev.None? {
          head := next;
        } else {
          nodes := nodes[prev.value := nodes[prev.value].(next := next)];
        }
        nodes := nodes[cur := Node(0, 0, None, whead)];
        whead := Some(cur);
        list, free := DropAt(list, k), [cur] + free;
        regs := Cut(regs, s, e);
        return true, prev, next, k;
      } else if s * PGSIZE == begin {
        CutEnd(nodes, head, whead, list, free, regs, wlo, whi, k, s, e);
        nodes := nodes[cur := nodes[cur].(begin := e * PGSIZE, npages := (end - e * PGSIZE) / PGSIZE)];
        regs := Cut(regs, s, e);
        return true, Some(cur), nodes[cur].next, k + 1;
      } else if e * PGSIZE == end {
        CutEnd(nodes, head, whead, list, free, regs, wlo, whi, k, s, e);
        nodes := nodes[cur := nodes[cur].(npages := (s * PGSIZE - begin) / PGSIZE)];
        regs := Cut(regs, s, e);
        return true, Some(cur), nodes[cur].next, k + 1;
      } else {
        if whead.None? { return false, prev, Some(cur), k; }
        CutSplit(nodes, head, whead, list, free, regs, wlo, whi, k, s, e);
        var right := whead.value;
        whead := nodes[right].wnext;
        nodes := nodes[right := Node(e * PGSIZE, (end - e * PGSIZE) / PGSIZE, nodes[cur].next, None)];
        nodes := nodes[cur := nodes[cur].(npages := (s * PGSIZE - begin) / PGSIZE, next := Some(right))];
        list, free := InsertAt(list, k + 1, right), free[1..];
        regs := Cut(regs, s, e);
        return true, Some(cur), nodes[right].next, k + 2;
      }
    }

    /** The first region that reaches beyond `start`, and the one in front of it. */
    method SkipBelow(start: nat) returns (prev: Option<nat>, cur: Option<nat>, ghost k: nat)
      requires ListsValid()
      ensures k <= |regs| == |list| && prev == ListAt(list, k - 1) && cur == ListAt(list, k)
      ensures forall i :: 0 <= i < k ==> regs[i].hi <= start
      ensures k < |regs| ==> start < regs[k].hi
    {
      hide Lists, Canon;
      HeadAt(nodes, head, whead, list, free, regs);
      prev, cur, k := None, head, 0;
      if cur.Some? { NodeAt(nodes, head, whead, list, free, regs, 0); }
      while cur.Some? && nodes[cur.value].begin + nodes[cur.value].npages * PGSIZE <= start * PGSIZE
        invariant k <= |regs| && prev == ListAt(list, k - 1) && cur == ListAt(list, k)
        invariant cur.Some? ==> cur.value < |nodes|
        invariant cur.Some? ==> nodes[cur.value].begin + nodes[cur.value].npages * PGSIZE == regs[k].hi * PGSIZE
        invariant forall i :: 0 <= i < k ==> regs[i].hi <= start
        decreases |regs| - k
      {
        NodeAt(nodes, head, whead, list, free, regs, k);
        prev, cur, k := cur, nodes[cur.value].next, k + 1;
        if cur.Some? { NodeAt(nodes, head, whead, list, free, regs, k); }
      }
    }

    /** Unmap pages [s, e) of the region at position `k`, free their frames, and cut them out of the list. */
    method UnmapRegion(s: nat, e: nat, prev: Option<nat>, cur: nat, ghost k: nat)
      returns (ok: bool, prev': Option<nat>, cur': Option<nat>, ghost k': nat)
      requires Valid() && k < |regs| == |list| && regs[k].lo <= s < e <= regs[k].hi
      requires prev == ListAt(list, k - 1) && cur == list[k]
      modifies this`nodes, this`head, this`whead, this`list, this`free, this`regs, mem`tables, mem`pages, mem`kfree,
        mem`ufree
      ensures Loses(old(regs), Cut(old(regs), s, e), s, e) && e <= NPAGES
      ensures forall x: nat :: s <= x < e ==> IsValid(Xlat(old(mem.tables), root, x))
      ensures Clears(old(mem.tables), mem.tables, root, s, e)
      ensures mem.pages == old(mem.pages) - FramesOf(old(mem.tables), root, s, e)
      ensures !ok <==> old(regs)[k].lo < s && e < old(regs)[k].hi && old(free) == []
      ensures !ok ==> ListsValid() && regs == old(regs) && free == old(free)
      ensures ok ==>
        && Valid() && regs == Cut(old(regs), s, e) && SamePool(old(list), old(free), list, free)
        && k' == k + |CutOne(old(regs)[k], s, e)| && cur' == ListAt(list, k')
        && (e == old(regs)[k].hi ==> prev' == ListAt(list, k' - 1))
    {
      hide MemInv, TreeInv, Lists, Mapping, Canon, Xlat, Clears, FramesOf, OwnsRange, Cut, Loses, SamePool, CutOne;
      RegionMapped(mem.rg, mem.tables, mem.pages, root, regs, wlo, whi, k, s, e);
      CutCanon(regs, wlo, whi, s, e);
      var r;
      ghost var stop;
      r, stop := mem.Unmap(root, s * PGSIZE, (e - s) * PGSIZE, true);
      assert stop == e;
      MappingCut(mem.rg, old(mem.tables), old(mem.pages), mem.tables, root, regs, Cut(regs, s, e), wlo, whi, s, e);
      ok, prev', cur', k' := CutNode(s, e, prev, cur, k);
    }

    /**
      `munmap`: unmaps exactly the pages of the regions in its range, frees exactly their frames, and leaves the regions
      without them.  It fails exactly when it has to split a region and the warehouse is empty; then the pages are
      unmapped but the list still has them.
    */
    method Munmap(begin: nat, len: nat) returns (r: Outcome<()>)
      requires Valid() && begin + len <= ADDRESS_SPACE - PGSIZE
      modifies this`nodes, this`head, this`whead, this`list, this`free, this`regs, mem`tables, mem`pages, mem`kfree,
        mem`ufree
      ensures r == Ok(()) || r == Err(NoMem)
      ensures len == 0 ==>
        r.Ok? && Valid() && regs == old(regs) && list == old(list) && free == old(free) && unchanged(mem)
      ensures len > 0 ==>
        var start, end := begin / PGSIZE, AlignUp(begin + len) / PGSIZE;
        && Removed(old(mem.tables), old(mem.pages), mem.tables, mem.pages, root, old(regs), Cut(old(regs), start, end))
        && (r == Err(NoMem) <==> Splits(old(regs), start, end) && old(free) == [])
        && (r.Ok? ==> Valid() && regs == Cut(old(regs), start, end) && SamePool(old(list), old(free), list, free))
        && (r.Err? ==> ListsValid() && regs == old(regs) && free == [])
    {
      hide MemInv, TreeInv, Lists, Mapping, Canon, Xlat, Clears, FramesOf, OwnsRange, Cut, Loses, SamePool, CutOne;
      hide Removed, Trimming, Splits;
      if len == 0 { return Ok(()); }
      var start, end := begin / PGSIZE, AlignUp(begin + len) / PGSIZE;
      ghost var rs0, t0, pg0 := regs, mem.tables, mem.pages;
      var prev, cur;
      ghost var k: nat;
      prev, cur, k := SkipBelow(start);
      var u := start;
      TrimBegin(regs, wlo, whi, k, start, end);
      RemovedNothing(t0, pg0, root, regs);
      SamePoolSelf(list, free);
      SplitsHere(regs, wlo, whi, k, start, end);
      HeadAt(nodes, head, whead, list, free, regs);
      while cur.Some? && u < end
        invariant Valid() && k <= |regs| == |list| && cur == ListAt(list, k)
        invariant u < end ==> prev == ListAt(list, k - 1)
        invariant Trimming(rs0, regs, k, start, end, u) && Removed(t0, pg0, mem.tables, mem.pages, root, rs0, regs)
        invariant SamePool(old(list), old(free), list, free)
        invariant u == start ==> free == old(free)
        invariant u > start ==> !(Splits(rs0, start, end) && old(free) == [])
        decreases end - u
      {
        NodeAt(nodes, head, whead, list, free, regs, k);
        TrimSubset(rs0, regs, k, start, end, u);
        var begin_ := nodes[cur.value].begin / PGSIZE;
        var end_ := begin_ + nodes[cur.value].npages;
        if end <= begin_ { break; }
        TrimBounds(rs0, regs, wlo, whi, k, start, end, u);
        TrimStep(rs0, regs, wlo, whi, k, start, end, u);
        if u == start { SplitsHere(regs, wlo, whi, k, start, end); }
        var s, e := Max(u, begin_), Min(end, end_);
        ghost var t, pg, rs, l, f := mem.tables, mem.pages, regs, list, free;
        var ok;
        ok, prev, cur, k := UnmapRegion(s, e, prev, cur.value, k);
        RemovedMore(t0, pg0, t, pg, mem.tables, root, rs0, rs, Cut(rs, s, e), s, e);
        if !ok { return Err(NoMem); }
        SamePoolTrans(old(list), old(free), l, f, list, free);
        HeadAt(nodes, head, whead, list, free, regs);
        u := e;
        TrimSubset(rs0, regs, k, start, end, u);
      }
      TrimSubset(rs0, regs, k, start, end, u);
      if u == start { SplitsHere(regs, wlo, whi, k, start, end); }
      TrimDone(rs0, regs, wlo, whi, k, start, end, u);
      return Ok(());
    }

    /** The address space as the calls see it. */
    ghost function Now(): View
      reads this, mem
    {
      View(mem.tables, mem.pages, regs)
    }

    /** One call of a run; `ok` is false if it met an exhausted pool or warehouse. */
    method OneCall(c: Call) returns (ok: bool, r: Outcome<nat>)
      requires Valid() && CallOk(c)
      modifies this`nodes, this`head, this`whead, this`list, this`free, this`regs, mem`tables, mem`pages, mem`kfree,
        mem`ufree
      ensures ok ==> Valid() && SamePool(old(list), old(free), list, free)
      ensures ok ==> CallStep(root, wlo, whi, c, old(Now()), r, Now())
      ensures !ok ==> mem.ufree == [] || mem.kfree == [] || (free == [] && NeedsNode(old(regs), wlo, whi, c))
    {
      hide MemInv, Lists, Mapping, Canon, SamePool, Cut, Added, Removed, Accepts, PlacedAt, Touches, StartOf, Splits;
      hide Has;
      SamePoolSelf(list, free);
      match c
      case MmapCall(begin, len) =>
        ghost var b;
        r, b := Mmap(begin, len);
        ok := r.Ok? || r == Err(OutOfRange);
        assert r.Err? ==> r.error.OutOfRange? || r.error.NoMem?;
        if r == Err(NoMem) { assert NewRegion(old(regs), wlo, whi, begin, PagesOf(len), b); }
        if r.Ok? { assert MappedAt(root, wlo, whi, begin, PagesOf(len), old(Now()), r.value, Now(), b); }
      case MunmapCall(begin, len) =>
        var u := Munmap(begin, len);
        ok, r := u.Ok?, Ok(0);
    }

    /**
      Any run of calls.  Each `mmap` is refused or adds exactly its run of fresh pages to the regions, each `munmap`
      cuts exactly its range out of them; after every call the regions are canonical and agree with the page table, and
      list and warehouse share the nodes of before.  A run stops early only at an empty frame pool, or at a call that
      needs a node while the warehouse is empty.
    */
    method RunCalls(calls: seq<Call>) returns (rets: seq<Outcome<nat>>, ghost views: seq<View>)
      requires Valid() && forall i :: 0 <= i < |calls| ==> CallOk(calls[i])
      modifies this`nodes, this`head, this`whead, this`list, this`free, this`regs, mem`tables, mem`pages, mem`kfree,
        mem`ufree
      ensures |rets| <= |calls| && Traces(mem.rg, root, wlo, whi, calls, rets, views) && views[0] == old(Now())
      ensures |rets| == |calls| ==> Valid() && views[|rets|] == Now() && SamePool(old(list), old(free), list, free)
      ensures |rets| < |calls| ==>
        || mem.ufree == [] || mem.kfree == []
        || (free == [] && NeedsNode(views[|rets|].rs, wlo, whi, calls[|rets|]))
    {
      hide MemInv, Lists, Mapping, SamePool, CallStep, NeedsNode;
      rets, views := [], [Now()];
      SamePoolSelf(list, free);
      while |rets| < |calls|
        invariant |rets| <= |calls| && Valid() && SamePool(old(list), old(free), list, free)
        invariant Traces(mem.rg, root, wlo, whi, calls, rets, views)
        invariant views[0] == old(Now()) && views[|rets|] == Now()
        decreases |calls| - |rets|
      {
        ghost var l, f := list, free;
        var ok, r := OneCall(calls[|rets|]);
        if !ok { return; }
        SamePoolTrans(old(list), old(free), l, f, list, free);
        rets, views := rets + [r], views + [Now()];
      }
    }
  }
}
