/**
  `PageTable::copy` (kernel/src/mem/pagetable.rs), the address-space snapshot that fork takes: user pages are duplicated
  into fresh user frames, writable kernel pages into fresh kernel frames, executable kernel pages are shared.
*/
module PageCopy {
  import opened Base
  import opened Bits
  import opened Sv39
  import opened PageTree
  import opened PageTable
  import opened PageDestroy
  import EntryBits

  /** What `copy` does with a valid leaf. */
  datatype Action = Duplicate(kernel: bool) | Share | Ignore

  function Act(r: Regions, pte: nat): Action {
    var pa, flags := PteToPa(pte), FlagsOf(pte);
    if HasU(flags) then if GetRegion(r, pa) == Some(false) then Duplicate(false) else Ignore
    else if HasX(flags) then Share
    else if GetRegion(r, pa) == Some(true) then Duplicate(true) else Ignore
  }

  /** An entry, with U in bit 4 and X in bit 3, of a user page in the user pool or of kernel data in the kernel pool. */
  ghost predicate Duplicated(r: Regions, e: nat) {
    if Bit(e, 4) then InUser(r, PteToPa(e)) else !Bit(e, 3) && InKernel(r, PteToPa(e))
  }

  /** An entry of kernel text. */
  ghost predicate Shared(e: nat) {
    !Bit(e, 4) && Bit(e, 3)
  }

  lemma ActBits(r: Regions, e: nat)
    ensures Act(r, e).Duplicate? <==> Duplicated(r, e)
    ensures Act(r, e).Duplicate? ==> Act(r, e).kernel == !Bit(e, 4)
    ensures Act(r, e).Share? <==> Shared(e)
  {
    hide Bit, HasU, HasX, PteToPa, FlagsOf;
    EntryBits.EntryTests(e);
  }

  /** The source's pages that will be duplicated are allocated. */
  ghost predicate CopySource(r: Regions, t: Tables, pg: Pages, src: nat) {
    forall x: nat :: x < NPAGES && IsValid(Xlat(t, src, x)) && Duplicated(r, Xlat(t, src, x)) ==>
      PteToPa(Xlat(t, src, x)) in pg
  }

  /** Entry `c` maps a page that was not there before, with the flags and the bytes of the one `e` maps. */
  ghost predicate FreshTwin(t0: Tables, pg0: Pages, pg: Pages, e: nat, c: nat) {
    && IsValid(c) && FlagsOf(c) == FlagsOf(e) && PteToPa(e) in pg0
    && PteToPa(c) in pg && PteToPa(c) !in pg0 && PteToPa(c) !in t0 && pg[PteToPa(c)] == pg0[PteToPa(e)]
  }

  /** What becomes of the source's entry `e` in the copy, by its bits U and X and the pool of its frame. */
  ghost predicate CopiedByKind(r: Regions, t0: Tables, pg0: Pages, pg: Pages, e: nat, c: nat) {
    if IsValid(e) && Bit(e, 4) && InUser(r, PteToPa(e)) then
      FreshTwin(t0, pg0, pg, e, c) && InUser(r, PteToPa(c))
    else if IsValid(e) && !Bit(e, 4) && Bit(e, 3) then
      IsValid(c) && FlagsOf(c) == FlagsOf(e) && PteToPa(c) == PteToPa(e)
    else if IsValid(e) && !Bit(e, 4) && !Bit(e, 3) && InKernel(r, PteToPa(e)) then
      FreshTwin(t0, pg0, pg, e, c) && InKernel(r, PteToPa(c))
    else
      !IsValid(c)
  }

  /** Page `x` of the source is duplicated. */
  ghost predicate Dup(r: Regions, t0: Tables, src: nat, x: nat) {
    x < NPAGES && IsValid(Xlat(t0, src, x)) && Act(r, Xlat(t0, src, x)).Duplicate?
  }

  /** How the copy's entry `c` for a page must look, given the source's entry `e`. */
  ghost predicate EntryCopied(r: Regions, t0: Tables, pg0: Pages, pg: Pages, e: nat, c: nat) {
    if !IsValid(e) || Act(r, e).Ignore? then !IsValid(c)
    else
      && IsValid(c) && FlagsOf(c) == FlagsOf(e)
      && match Act(r, e)
         case Share => PteToPa(c) == PteToPa(e)
         case Duplicate(k) =>
           && PteToPa(c) in pg && PteToPa(c) !in pg0 && PteToPa(c) !in t0
           && (if k then InKernel(r, PteToPa(c)) else InUser(r, PteToPa(c)))
           && PteToPa(e) in pg0 && pg[PteToPa(c)] == pg0[PteToPa(e)]
  }

  /** Pages below `x` are copied, the others are still unmapped in the copy. */
  ghost predicate SlotsNow(r: Regions, t0: Tables, pg0: Pages, t: Tables, pg: Pages, src: nat, dst: nat, x: nat) {
    forall y: nat :: y < NPAGES ==>
      if y < x then EntryCopied(r, t0, pg0, pg, Xlat(t0, src, y), Xlat(t, dst, y)) else !IsValid(Xlat(t, dst, y))
  }

  /** Duplicates have frames of their own. */
  ghost predicate DistinctNow(r: Regions, t0: Tables, t: Tables, src: nat, dst: nat, x: nat) {
    forall y: nat, z: nat :: y < z < x && Dup(r, t0, src, y) && Dup(r, t0, src, z) ==>
      PteToPa(Xlat(t, dst, y)) != PteToPa(Xlat(t, dst, z))
  }

  /** Frame `f` is the duplicate of a page below `x`. */
  ghost predicate IsDup(r: Regions, t0: Tables, t: Tables, src: nat, dst: nat, x: nat, f: nat) {
    exists y: nat :: y < x && Dup(r, t0, src, y) && PteToPa(Xlat(t, dst, y)) == f
  }

  /** No page changed, and exactly the duplicates are new. */
  ghost predicate PagesNow(r: Regions, t0: Tables, pg0: Pages, t: Tables, pg: Pages, src: nat, dst: nat, x: nat) {
    && (forall f :: f in pg0 ==> f in pg && pg[f] == pg0[f])
    && (forall f :: f in pg && f !in pg0 ==> IsDup(r, t0, t, src, dst, x, f))
  }

  /** Both trees are in order and apart, and the source is as it was. */
  ghost predicate TreesNow(t0: Tables, t: Tables, src: nat, dst: nat) {
    && TreeInv(t0, src) && TreeInv(t, src) && TreeInv(t, dst) && Apart(t, dst, src) && t0.Keys <= t.Keys
    && (forall f :: InTree(t, dst, f) ==> f !in t0)
    && (forall f :: f in t && f !in t0 ==> InTree(t, dst, f))
    && forall p :: ValidPlace(p) && !p.Root? ==> Ent(t, src, p) == Ent(t0, src, p)
  }

  ghost predicate Copying(r: Regions, t0: Tables, pg0: Pages, t: Tables, pg: Pages, src: nat, dst: nat, x: nat) {
    && TreesNow(t0, t, src, dst)
    && SlotsNow(r, t0, pg0, t, pg, src, dst, x)
    && DistinctNow(r, t0, t, src, dst, x)
    && PagesNow(r, t0, pg0, t, pg, src, dst, x)
  }

  // ----- the empty copy

  lemma {:induction false} EmptyEnt(t: Tables, dst: nat, p: Place)
    requires FramesOk(t) && dst in t && t[dst] == Zeros() && ValidPlace(p) && !p.Root?
    ensures Ent(t, dst, p) == 0
    decreases Depth(p)
  {
    if !Parent(p).Root? { EmptyEnt(t, dst, Parent(p)); }
  }

  lemma EmptyTree(t: Tables, dst: nat)
    requires FramesOk(t) && dst in t && t[dst] == Zeros()
    ensures TreeInv(t, dst) && forall f :: InTree(t, dst, f) <==> f == dst
    ensures forall x: nat :: x < NPAGES ==> Xlat(t, dst, x) == 0
  {
    forall p | ValidPlace(p) && !p.Root? ensures Ent(t, dst, p) == 0 { EmptyEnt(t, dst, p); }
    forall p | ValidPlace(p) && !p.Slot? ensures Frame(t, dst, p) == if p.Root? then dst else 0 {}
    assert Frame(t, dst, Root) == dst;
  }

  lemma CopyStart(r: Regions, t0: Tables, pg0: Pages, src: nat, dst: nat)
    requires TreeInv(t0, src) && dst !in t0 && dst != 0 && dst % PGSIZE == 0 && dst < PA_MAX
    ensures Copying(r, t0, pg0, t0[dst := Zeros()], pg0, src, dst, 0)
  {
    var t := t0[dst := Zeros()];
    NewFrameTree(t0, src, dst);
    EmptyTree(t, dst);
    SameEntriesTree(t0, t, src);
    forall f | InTree(t, src, f) ensures f != dst {
      var p :| ValidPlace(p) && !p.Slot? && Frame(t, src, p) == f;
      NodeFrame(t0, src, p);
    }
  }

  // ----- one page

  /** Pages that are not copied: absent or ignored. */
  lemma SkipPage(r: Regions, t0: Tables, pg0: Pages, t: Tables, pg: Pages, src: nat, dst: nat, x: nat, x': nat)
    requires Copying(r, t0, pg0, t, pg, src, dst, x) && x <= x' <= NPAGES
    requires forall y: nat :: x <= y < x' ==> !IsValid(Xlat(t0, src, y)) || Act(r, Xlat(t0, src, y)).Ignore?
    ensures Copying(r, t0, pg0, t, pg, src, dst, x')
  {
    hide TreesNow, Xlat, Act, FlagsOf, PteToPa;
    forall f | IsDup(r, t0, t, src, dst, x, f) ensures IsDup(r, t0, t, src, dst, x', f) {
      var y: nat :| y < x && Dup(r, t0, src, y) && PteToPa(Xlat(t, dst, y)) == f;
    }
  }

  /** Mapping page `x` of the copy leaves the source apart and as it was. */
  lemma MapTrees(t0: Tables, t: Tables, t': Tables, src: nat, dst: nat, x: nat, pa: nat, flags: nat)
    requires TreesNow(t0, t, src, dst) && Sets(t, t', dst, x, x + 1, pa, flags)
    ensures TreesNow(t0, t', src, dst)
  {
    hide Ent, Frame, Xlat;
    OtherKept(t, t', dst, src);
  }

  /** An entry stays copied when pages are only added. */
  lemma EntryKept(r: Regions, t0: Tables, pg0: Pages, pg: Pages, pg': Pages, e: nat, c: nat)
    requires EntryCopied(r, t0, pg0, pg, e, c) && forall f :: f in pg ==> f in pg' && pg'[f] == pg[f]
    ensures EntryCopied(r, t0, pg0, pg', e, c)
  {
  }

  lemma MapSlots(r: Regions, t0: Tables, pg0: Pages, t: Tables, pg: Pages, t': Tables, pg': Pages, src: nat, dst: nat,
                 x: nat, pa: nat, flags: nat)
    requires SlotsNow(r, t0, pg0, t, pg, src, dst, x) && x < NPAGES && Sets(t, t', dst, x, x + 1, pa, flags)
    requires forall f :: f in pg ==> f in pg' && pg'[f] == pg[f]
    requires EntryCopied(r, t0, pg0, pg', Xlat(t0, src, x), PaToPte(pa, WithV(flags)))
    ensures SlotsNow(r, t0, pg0, t', pg', src, dst, x + 1)
  {
    hide Xlat, EntryCopied, TreeInv, Extends, PaToPte, WithV;
    forall y: nat | y < NPAGES
      ensures if y < x + 1 then EntryCopied(r, t0, pg0, pg', Xlat(t0, src, y), Xlat(t', dst, y))
        else !IsValid(Xlat(t', dst, y))
    {
      if y < x { EntryKept(r, t0, pg0, pg, pg', Xlat(t0, src, y), Xlat(t, dst, y)); }
    }
  }

  /** A shared page adds no frame. */
  lemma ShareFrames(r: Regions, t0: Tables, pg0: Pages, t: Tables, pg: Pages, t': Tables, src: nat, dst: nat,
                    x: nat, pa: nat, flags: nat)
    requires DistinctNow(r, t0, t, src, dst, x) && PagesNow(r, t0, pg0, t, pg, src, dst, x) && x < NPAGES
    requires Sets(t, t', dst, x, x + 1, pa, flags) && !Dup(r, t0, src, x)
    ensures DistinctNow(r, t0, t', src, dst, x + 1) && PagesNow(r, t0, pg0, t', pg, src, dst, x + 1)
  {
    hide Xlat, TreeInv, Extends, PaToPte, WithV, PteToPa, Dup;
    forall y: nat | Dup(r, t0, src, y) ensures y < NPAGES { DupInRange(r, t0, src, y); }
    forall f | IsDup(r, t0, t, src, dst, x, f) ensures IsDup(r, t0, t', src, dst, x + 1, f) {
      var y: nat :| y < x && Dup(r, t0, src, y) && PteToPa(Xlat(t, dst, y)) == f;
      assert Xlat(t', dst, y) == Xlat(t, dst, y);
    }
  }

  lemma DupInRange(r: Regions, t0: Tables, src: nat, y: nat)
    ensures Dup(r, t0, src, y) ==> y < NPAGES
  {
  }

  /** The entries of the copy after one more page was mapped to frame `g`. */
  lemma MappedEntry(t: Tables, t': Tables, dst: nat, x: nat, g: nat, flags: nat)
    requires Sets(t, t', dst, x, x + 1, g, flags) && x < NPAGES && g % PGSIZE == 0 && g < PA_MAX
    ensures PteToPa(Xlat(t', dst, x)) == g
    ensures forall y: nat :: y < NPAGES && y != x ==> Xlat(t', dst, y) == Xlat(t, dst, y)
  {
    hide Xlat, TreeInv, Extends, PaToPte, WithV, PteToPa;
    PackUnpack(g, WithV(flags));
    assert FrameAt(g, x, x) == g;
  }

  /** A duplicated page gets a frame that no page before it has. */
  lemma DupDistinct(r: Regions, t0: Tables, pg0: Pages, t: Tables, pg: Pages, t': Tables, src: nat, dst: nat,
                    x: nat, g: nat, flags: nat)
    requires DistinctNow(r, t0, t, src, dst, x) && SlotsNow(r, t0, pg0, t, pg, src, dst, x) && x < NPAGES
    requires Sets(t, t', dst, x, x + 1, g, flags) && g !in pg && g % PGSIZE == 0 && g < PA_MAX
    ensures DistinctNow(r, t0, t', src, dst, x + 1)
  {
    hide Xlat, PteToPa, Dup, SlotsNow, Sets;
    MappedEntry(t, t', dst, x, g, flags);
    forall y: nat, z: nat | y < z < x + 1 && Dup(r, t0, src, y) && Dup(r, t0, src, z)
      ensures PteToPa(Xlat(t', dst, y)) != PteToPa(Xlat(t', dst, z))
    {
      DupInPages(r, t0, pg0, t, pg, src, dst, x, y);
    }
  }

  /** Its frame is the only new page. */
  lemma DupPages(r: Regions, t0: Tables, pg0: Pages, t: Tables, pg: Pages, t': Tables, src: nat, dst: nat,
                 x: nat, g: nat, s: seq<byte>, flags: nat)
    requires PagesNow(r, t0, pg0, t, pg, src, dst, x) && x < NPAGES && Dup(r, t0, src, x)
    requires Sets(t, t', dst, x, x + 1, g, flags) && g !in pg && g % PGSIZE == 0 && g < PA_MAX
    ensures PagesNow(r, t0, pg0, t', pg[g := s], src, dst, x + 1)
  {
    hide Xlat, PteToPa, Dup, Sets;
    MappedEntry(t, t', dst, x, g, flags);
    forall f | IsDup(r, t0, t, src, dst, x, f) ensures IsDup(r, t0, t', src, dst, x + 1, f) {
      var y: nat :| y < x && Dup(r, t0, src, y) && PteToPa(Xlat(t, dst, y)) == f;
      DupInRange(r, t0, src, y);
    }
    assert IsDup(r, t0, t', src, dst, x + 1, g);
  }

  lemma DupInPages(r: Regions, t0: Tables, pg0: Pages, t: Tables, pg: Pages, src: nat, dst: nat, x: nat, y: nat)
    requires SlotsNow(r, t0, pg0, t, pg, src, dst, x) && y < x && Dup(r, t0, src, y)
    ensures y < NPAGES && PteToPa(Xlat(t, dst, y)) in pg
  {
  }

  // ----- the entries that copy writes

  lemma FlagsKept(e: nat, pa: nat)
    requires IsValid(e) && pa % PGSIZE == 0 && pa < PA_MAX
    ensures var c := PaToPte(pa, WithV(FlagsOf(e)));
      IsValid(c) && FlagsOf(c) == FlagsOf(e) && PteToPa(c) == pa && (Sv39.IsLeaf(e) ==> Sv39.IsLeaf(FlagsOf(e)))
  {
    var f := FlagsOf(e);
    LowBits(e / 1024, e);
    assert e == e / 1024 * 1024 + e % 1024;
    LowBits(0, e);
    assert WithV(f) == f;
    PackUnpack(pa, f);
  }

  lemma DuplicateEntry(r: Regions, t0: Tables, pg0: Pages, pg: Pages, e: nat, g: nat)
    requires IsValid(e) && Act(r, e).Duplicate? && PteToPa(e) in pg0 && g % PGSIZE == 0 && g < PA_MAX
    requires g !in pg0 && g !in t0 && g in pg && pg[g] == pg0[PteToPa(e)]
    requires if Act(r, e).kernel then InKernel(r, g) else InUser(r, g)
    ensures EntryCopied(r, t0, pg0, pg, e, PaToPte(g, WithV(FlagsOf(e))))
  {
    FlagsKept(e, g);
  }

  lemma ShareEntry(r: Regions, t0: Tables, pg0: Pages, pg: Pages, e: nat)
    requires IsValid(e) && Act(r, e).Share?
    ensures EntryCopied(r, t0, pg0, pg, e, PaToPte(PteToPa(e), WithV(FlagsOf(e))))
  {
    FlagsKept(e, PteToPa(e));
  }

  // ----- the steps, on the whole state

  lemma ShareStep(r: Regions, t0: Tables, pg0: Pages, t: Tables, pg: Pages, t': Tables, src: nat, dst: nat, x: nat)
    requires Copying(r, t0, pg0, t, pg, src, dst, x) && x < NPAGES && IsValid(Xlat(t0, src, x))
    requires Act(r, Xlat(t0, src, x)).Share?
    requires Sets(t, t', dst, x, x + 1, PteToPa(Xlat(t0, src, x)), FlagsOf(Xlat(t0, src, x)))
    ensures Copying(r, t0, pg0, t', pg, src, dst, x + 1)
  {
    hide TreesNow, SlotsNow, DistinctNow, PagesNow, Sets, Xlat, Act, PteToPa, FlagsOf, EntryCopied;
    var e := Xlat(t0, src, x);
    MapTrees(t0, t, t', src, dst, x, PteToPa(e), FlagsOf(e));
    ShareEntry(r, t0, pg0, pg, e);
    MapSlots(r, t0, pg0, t, pg, t', pg, src, dst, x, PteToPa(e), FlagsOf(e));
    ShareFrames(r, t0, pg0, t, pg, t', src, dst, x, PteToPa(e), FlagsOf(e));
  }

  lemma DupStep(r: Regions, t0: Tables, pg0: Pages, t: Tables, pg: Pages, t': Tables, src: nat, dst: nat, x: nat,
                g: nat)
    requires Copying(r, t0, pg0, t, pg, src, dst, x) && Dup(r, t0, src, x) && PteToPa(Xlat(t0, src, x)) in pg0
    requires g !in pg && g !in t0 && g % PGSIZE == 0 && g < PA_MAX
    requires if Act(r, Xlat(t0, src, x)).kernel then InKernel(r, g) else InUser(r, g)
    requires Sets(t, t', dst, x, x + 1, g, FlagsOf(Xlat(t0, src, x)))
    ensures Copying(r, t0, pg0, t', pg[g := pg0[PteToPa(Xlat(t0, src, x))]], src, dst, x + 1)
  {
    hide TreesNow, SlotsNow, DistinctNow, Sets, Xlat, Act, PteToPa, FlagsOf, EntryCopied;
    var e := Xlat(t0, src, x);
    var pg' := pg[g := pg0[PteToPa(e)]];
    MapTrees(t0, t, t', src, dst, x, g, FlagsOf(e));
    DuplicateEntry(r, t0, pg0, pg', e, g);
    MapSlots(r, t0, pg0, t, pg, t', pg', src, dst, x, g, FlagsOf(e));
    DupDistinct(r, t0, pg0, t, pg, t', src, dst, x, g, FlagsOf(e));
    DupPages(r, t0, pg0, t, pg, t', src, dst, x, g, pg0[PteToPa(e)], FlagsOf(e));
  }

  /** The next page is still unmapped in the copy, so mapping it cannot fail. */
  lemma NextFree(r: Regions, t0: Tables, pg0: Pages, t: Tables, pg: Pages, src: nat, dst: nat, x: nat, pa: nat)
    requires Copying(r, t0, pg0, t, pg, src, dst, x) && x < USER_PAGES
    ensures TreeInv(t, dst) && MapOk(t, dst, x, pa) && t0.Keys <= t.Keys
  {
  }

  /** One leaf of the source; `ok` is false when a pool is exhausted. */
  method CopyPage(m: Memory, x: nat, pte: nat, dst: nat, ghost t0: Tables, ghost pg0: Pages, ghost src: nat)
    returns (ok: bool)
    requires m.Valid() && Copying(m.rg, t0, pg0, m.tables, m.pages, src, dst, x) && CopySource(m.rg, t0, pg0, src)
    requires x < USER_PAGES && pte == Xlat(t0, src, x) && IsValid(pte) && Sv39.IsLeaf(pte)
    modifies m`tables, m`pages, m`kfree, m`ufree
    ensures m.Valid()
    ensures ok ==> Copying(m.rg, t0, pg0, m.tables, m.pages, src, dst, x + 1)
    ensures !ok ==> m.kfree == [] || m.ufree == []
  {
    hide MemInv, Copying, Xlat, PteToPa, FlagsOf, Sets, MapOk, PaToPte, TreeInv, Grows, WithV;
    var pa, flags := PteToPa(pte), FlagsOf(pte);
    FlagsKept(pte, pa);
    NextFree(m.rg, t0, pg0, m.tables, m.pages, src, dst, x, pa);
    match Act(m.rg, pte)
    case Ignore =>
      SkipPage(m.rg, t0, pg0, m.tables, m.pages, src, dst, x, x + 1);
      return true;
    case Share =>
      var r := m.MapPage(dst, x * PGSIZE, pa, flags);
      if r.Halted? { return false; }
      ShareStep(m.rg, t0, pg0, old(m.tables), m.pages, m.tables, src, dst, x);
      return true;
    case Duplicate(kernel) =>
      var f := m.AllocPage(kernel);
      if f.None? { return false; }
      SourcePage(m.rg, t0, pg0, old(m.tables), old(m.pages), src, dst, x);
      PageSize(m.rg, m.tables, m.pages, m.kfree, m.ufree, pa);
      m.StorePage(f.value, m.pages[pa]);
      NextFree(m.rg, t0, pg0, m.tables, old(m.pages), src, dst, x, f.value);
      var r := m.MapPage(dst, x * PGSIZE, f.value, flags);
      if r.Halted? { return false; }
      DupStep(m.rg, t0, pg0, old(m.tables), old(m.pages), m.tables, src, dst, x, f.value);
      assert m.pages == old(m.pages)[f.value := pg0[pa]];
      return true;
  }

  /** The page to duplicate is still there, unchanged. */
  lemma SourcePage(r: Regions, t0: Tables, pg0: Pages, t: Tables, pg: Pages, src: nat, dst: nat, x: nat)
    requires Copying(r, t0, pg0, t, pg, src, dst, x) && CopySource(r, t0, pg0, src) && Dup(r, t0, src, x)
    ensures var pa := PteToPa(Xlat(t0, src, x)); pa in pg0 && pa in pg && pg[pa] == pg0[pa]
  {
    ActBits(r, Xlat(t0, src, x));
    hide TreesNow, SlotsNow, DistinctNow, Duplicated, Act, Xlat;
  }

  // ----- the three nested loops

  lemma SlotOfPage(i: nat, j: nat, k: nat)
    requires i < PGNUM && j < PGNUM && k < PGNUM
    ensures PageOf(i, j, k) < NPAGES && SlotOf(PageOf(i, j, k)) == Slot(i, j, k)
    ensures i < 256 ==> PageOf(i, j, k) < USER_PAGES
  {
    var x := PageOf(i, j, k);
    assert x / 512 == i * 512 + j;
    assert x / 0x4_0000 == i;
  }

  /** The source's entry at `p`, as the copy loop reads it from the current memory. */
  lemma SourceEntry(r: Regions, t0: Tables, pg0: Pages, t: Tables, pg: Pages, src: nat, dst: nat, x: nat, p: Place)
    requires Copying(r, t0, pg0, t, pg, src, dst, x) && ValidPlace(p) && !p.Root?
    requires Frame(t0, src, Parent(p)) in t0
    ensures var f := Frame(t0, src, Parent(p)); f in t && |t[f]| == PGNUM && t[f][Index(p)] == Ent(t0, src, p)
    ensures TreeInv(t0, src)
  {
    var n := Parent(p);
    assert Frame(t, src, n) == Frame(t0, src, n);
    NodeFrame(t, src, n);
  }

  /** Below an absent table of the source there is nothing to copy. */
  lemma SkipNode(r: Regions, t0: Tables, pg0: Pages, t: Tables, pg: Pages, src: nat, dst: nat, p: Place)
    requires ValidPlace(p) && (p.N1? || p.N0?) && !IsValid(Ent(t0, src, p))
    requires Copying(r, t0, pg0, t, pg, src, dst, FirstPage(p))
    ensures LastPage(p) <= NPAGES && Copying(r, t0, pg0, t, pg, src, dst, LastPage(p))
  {
    hide TreesNow, SlotsNow, DistinctNow, PagesNow, Act;
    forall y: nat | FirstPage(p) <= y < LastPage(p) ensures y < NPAGES && !IsValid(Xlat(t0, src, y)) {
      InNode(p, y);
      assert FramesOk(t0) by { CopyingTree(r, t0, pg0, t, pg, src, dst, FirstPage(p)); }
      NothingBelow(t0, src, p, SlotOf(y));
    }
    SkipPage(r, t0, pg0, t, pg, src, dst, FirstPage(p), LastPage(p));
  }

  lemma CopyingTree(r: Regions, t0: Tables, pg0: Pages, t: Tables, pg: Pages, src: nat, dst: nat, x: nat)
    requires Copying(r, t0, pg0, t, pg, src, dst, x)
    ensures TreeInv(t0, src)
  {
  }

  /** The pages below a node of the tree. */
  function FirstPage(p: Place): nat {
    match p
    case Root => 0
    case N1(i) => PageOf(i, 0, 0)
    case N0(i, j) => PageOf(i, j, 0)
    case Slot(i, j, k) => PageOf(i, j, k)
  }

  function LastPage(p: Place): nat {
    match p
    case Root => NPAGES
    case N1(i) => PageOf(i + 1, 0, 0)
    case N0(i, j) => PageOf(i, j + 1, 0)
    case Slot(i, j, k) => PageOf(i, j, k) + 1
  }

  lemma InNode(p: Place, y: nat)
    requires ValidPlace(p) && (p.N1? || p.N0?) && FirstPage(p) <= y < LastPage(p)
    ensures y < NPAGES && Below(SlotOf(y), p)
  {
  }

  lemma PageSteps(p: Place, x: nat)
    requires !p.Slot?
    ensures FirstPage(Child(p, 0)) == FirstPage(p) && FirstPage(Child(p, x + 1)) == LastPage(Child(p, x))
    ensures FirstPage(Child(p, PGNUM)) == LastPage(p)
  {
  }

  /** The innermost loop: the leaves of one lowest-level table. */
  method CopyLeaves(m: Memory, l0: nat, i: nat, j: nat, dst: nat, ghost t0: Tables, ghost pg0: Pages, ghost src: nat)
    returns (ok: bool)
    requires m.Valid() && CopySource(m.rg, t0, pg0, src) && i < 256 && j < PGNUM
    requires Copying(m.rg, t0, pg0, m.tables, m.pages, src, dst, FirstPage(N0(i, j)))
    requires l0 == Frame(t0, src, N0(i, j)) && l0 in t0
    modifies m`tables, m`pages, m`kfree, m`ufree
    ensures m.Valid()
    ensures ok ==> Copying(m.rg, t0, pg0, m.tables, m.pages, src, dst, LastPage(N0(i, j)))
    ensures !ok ==> m.kfree == [] || m.ufree == []
  {
    hide MemInv, Copying, Ent, Frame, TreeInv, FirstPage, LastPage, CopySource, PageOf;
    ghost var node := N0(i, j);
    PageSteps(node, 0);
    for k := 0 to PGNUM
      invariant m.Valid() && Copying(m.rg, t0, pg0, m.tables, m.pages, src, dst, FirstPage(Child(node, k)))
    {
      ghost var p := Child(node, k);
      PageSteps(node, k);
      SlotOfPage(i, j, k);
      SlotPage(i, j, k);
      SourceEntry(m.rg, t0, pg0, m.tables, m.pages, src, dst, FirstPage(p), p);
      EntryKind(t0, src, p);
      var pte := m.tables[l0][k];
      if IsValid(pte) && Sv39.IsLeaf(pte) {
        ok := CopyPage(m, PageOf(i, j, k), pte, dst, t0, pg0, src);
        if !ok { return; }
      } else {
        SkipPage(m.rg, t0, pg0, m.tables, m.pages, src, dst, PageOf(i, j, k), PageOf(i, j, k) + 1);
      }
    }
    return true;
  }

  lemma SlotPage(i: nat, j: nat, k: nat)
    ensures FirstPage(Slot(i, j, k)) == PageOf(i, j, k) && LastPage(Slot(i, j, k)) == PageOf(i, j, k) + 1
  {
  }

  /** The middle loop: the tables below one middle-level table. */
  method CopyMiddle(m: Memory, l1: nat, i: nat, dst: nat, ghost t0: Tables, ghost pg0: Pages, ghost src: nat)
    returns (ok: bool)
    requires m.Valid() && CopySource(m.rg, t0, pg0, src) && i < 256
    requires Copying(m.rg, t0, pg0, m.tables, m.pages, src, dst, FirstPage(N1(i)))
    requires l1 == Frame(t0, src, N1(i)) && l1 in t0
    modifies m`tables, m`pages, m`kfree, m`ufree
    ensures m.Valid()
    ensures ok ==> Copying(m.rg, t0, pg0, m.tables, m.pages, src, dst, LastPage(N1(i)))
    ensures !ok ==> m.kfree == [] || m.ufree == []
  {
    hide MemInv, Copying, Ent, Frame, TreeInv, FirstPage, LastPage, CopySource;
    ghost var node := N1(i);
    PageSteps(node, 0);
    for j := 0 to PGNUM
      invariant m.Valid() && Copying(m.rg, t0, pg0, m.tables, m.pages, src, dst, FirstPage(Child(node, j)))
    {
      ghost var p := Child(node, j);
      PageSteps(node, j);
      SourceEntry(m.rg, t0, pg0, m.tables, m.pages, src, dst, FirstPage(p), p);
      EntryKind(t0, src, p);
      var pte := m.tables[l1][j];
      if IsTable(pte) {
        ok := CopyLeaves(m, PteToPa(pte), i, j, dst, t0, pg0, src);
        if !ok { return; }
      } else {
        SkipNode(m.rg, t0, pg0, m.tables, m.pages, src, dst, p);
      }
    }
    return true;
  }

  /** The root of the source has no tables for the upper half of the address range. */
  lemma UpperHalf(t0: Tables, src: nat, i: nat)
    requires TreeInv(t0, src) && i < PGNUM && IsTable(Ent(t0, src, N1(i)))
    ensures i < 256
  {
  }

  /** `copy`: the root of the new table; `None` stands for the panic of an exhausted pool. */
  method Copy(m: Memory, src: nat) returns (r: Option<nat>)
    requires m.Valid() && TreeInv(m.tables, src) && CopySource(m.rg, m.tables, m.pages, src)
    modifies m`tables, m`pages, m`kfree, m`ufree
    ensures m.Valid()
    ensures r.None? ==> m.kfree == [] || m.ufree == []
    ensures r.Some? ==> Copying(m.rg, old(m.tables), old(m.pages), m.tables, m.pages, src, r.value, NPAGES)
    ensures r.Some? ==> forall x: nat :: x < NPAGES ==>
      CopiedByKind(m.rg, old(m.tables), old(m.pages), m.pages, old(Xlat(m.tables, src, x)), Xlat(m.tables, r.value, x))
  {
    hide MemInv, Copying, Ent, Frame, TreeInv, FirstPage, LastPage, CopySource, CopiedByKind;
    ghost var t0, pg0 := m.tables, m.pages;
    RootFrame(t0, src);
    r := m.AllocTable();
    if r.None? { return; }
    var dst := r.value;
    CopyStart(m.rg, t0, pg0, src, dst);
    PageSteps(Root, 0);
    RootPages();
    for i := 0 to PGNUM
      invariant m.Valid() && Copying(m.rg, t0, pg0, m.tables, m.pages, src, dst, FirstPage(Child(Root, i)))
    {
      ghost var p := Child(Root, i);
      PageSteps(Root, i);
      SourceEntry(m.rg, t0, pg0, m.tables, m.pages, src, dst, FirstPage(p), p);
      EntryKind(t0, src, p);
      var pte := m.tables[src][i];
      if IsTable(pte) {
        UpperHalf(t0, src, i);
        var ok := CopyMiddle(m, PteToPa(pte), i, dst, t0, pg0, src);
        if !ok { return None; }
      } else {
        SkipNode(m.rg, t0, pg0, m.tables, m.pages, src, dst, p);
      }
    }
    CopyKinds(m.rg, t0, pg0, m.tables, m.pages, src, dst);
    return Some(dst);
  }

  /** What a finished copy holds for every page. */
  lemma CopyKinds(r: Regions, t0: Tables, pg0: Pages, t: Tables, pg: Pages, src: nat, dst: nat)
    requires Copying(r, t0, pg0, t, pg, src, dst, NPAGES)
    ensures forall x: nat :: x < NPAGES ==> CopiedByKind(r, t0, pg0, pg, Xlat(t0, src, x), Xlat(t, dst, x))
  {
    hide TreesNow, DistinctNow, PagesNow, Xlat, EntryCopied, CopiedByKind;
    forall x: nat | x < NPAGES ensures CopiedByKind(r, t0, pg0, pg, Xlat(t0, src, x), Xlat(t, dst, x)) {
      EntryKinds(r, t0, pg0, pg, Xlat(t0, src, x), Xlat(t, dst, x));
    }
  }

  lemma EntryKinds(r: Regions, t0: Tables, pg0: Pages, pg: Pages, e: nat, c: nat)
    requires EntryCopied(r, t0, pg0, pg, e, c)
    ensures CopiedByKind(r, t0, pg0, pg, e, c)
  {
    hide Bit, Act, PteToPa, FlagsOf, IsValid;
    ActBits(r, e);
  }

  lemma RootPages()
    ensures FirstPage(Root) == 0 && LastPage(Root) == NPAGES
  {
  }

  // ----- copy, then destroy

  /** The source has a user-pool frame in an executable kernel page, which `copy` shares. */
  ghost predicate SharedUser(r: Regions, t0: Tables, src: nat, f: nat) {
    InUser(r, f) && exists x: nat :: x < NPAGES && IsValid(Xlat(t0, src, x)) && Shared(Xlat(t0, src, x))
                                     && PteToPa(Xlat(t0, src, x)) == f
  }

  lemma PageOfSlot(p: Place) returns (x: nat)
    requires p.Slot? && ValidPlace(p)
    ensures x < NPAGES && SlotOf(x) == p
  {
    SlotOfPage(p.i, p.j, p.k);
    x := PageOf(p.i, p.j, p.k);
  }

  /** The user frames that the copy maps: its own duplicates and whatever it shares. */
  lemma CopyLeaf(r: Regions, t0: Tables, pg0: Pages, t: Tables, pg: Pages, src: nat, dst: nat, f: nat)
    requires Copying(r, t0, pg0, t, pg, src, dst, NPAGES) && InUser(r, f)
    ensures UserLeaf(r, t, dst, f) <==> SharedUser(r, t0, src, f) || (f in pg && f !in pg0)
  {
    hide TreesNow, DistinctNow, Ent, Act, FlagsOf, PteToPa, Shared, Duplicated;
    if UserLeaf(r, t, dst, f) {
      var p :| UserSlot(r, t, dst, p) && PteToPa(Ent(t, dst, p)) == f;
      var x := PageOfSlot(p);
      ActBits(r, Xlat(t0, src, x));
      assert EntryCopied(r, t0, pg0, pg, Xlat(t0, src, x), Xlat(t, dst, x));
    }
    if SharedUser(r, t0, src, f) {
      var x: nat :| x < NPAGES && IsValid(Xlat(t0, src, x)) && Shared(Xlat(t0, src, x))
                    && PteToPa(Xlat(t0, src, x)) == f;
      ActBits(r, Xlat(t0, src, x));
      assert EntryCopied(r, t0, pg0, pg, Xlat(t0, src, x), Xlat(t, dst, x));
      assert UserSlot(r, t, dst, SlotOf(x));
    }
    if f in pg && f !in pg0 {
      assert IsDup(r, t0, t, src, dst, NPAGES, f);
      var y: nat :| y < NPAGES && Dup(r, t0, src, y) && PteToPa(Xlat(t, dst, y)) == f;
      assert EntryCopied(r, t0, pg0, pg, Xlat(t0, src, y), Xlat(t, dst, y));
      assert UserSlot(r, t, dst, SlotOf(y));
    }
  }

  /** Where nothing of the user pool is shared, the copy may be destroyed. */
  lemma CopyOwns(r: Regions, t0: Tables, pg0: Pages, t: Tables, pg: Pages, src: nat, dst: nat)
    requires Copying(r, t0, pg0, t, pg, src, dst, NPAGES) && forall f :: !SharedUser(r, t0, src, f)
    ensures TreeInv(t, dst) && OwnsUser(r, t, pg, dst)
  {
    hide Ent, Act, FlagsOf, PteToPa, TreeInv, Extends;
    forall p | UserSlot(r, t, dst, p) ensures PteToPa(Ent(t, dst, p)) in pg {
      var _ := CopySlotOwned(r, t0, pg0, t, pg, src, dst, p);
    }
    forall p, q | UserSlot(r, t, dst, p) && UserSlot(r, t, dst, q) && PteToPa(Ent(t, dst, p)) == PteToPa(Ent(t, dst, q))
      ensures p == q
    {
      var x := CopySlotOwned(r, t0, pg0, t, pg, src, dst, p);
      var y := CopySlotOwned(r, t0, pg0, t, pg, src, dst, q);
      assert !(x < y) && !(y < x);
    }
  }

  lemma CopySlotOwned(r: Regions, t0: Tables, pg0: Pages, t: Tables, pg: Pages, src: nat, dst: nat, p: Place)
    returns (x: nat)
    requires Copying(r, t0, pg0, t, pg, src, dst, NPAGES) && (forall f :: !SharedUser(r, t0, src, f))
    requires UserSlot(r, t, dst, p)
    ensures x < NPAGES && SlotOf(x) == p && Dup(r, t0, src, x) && PteToPa(Ent(t, dst, p)) in pg
  {
    hide TreesNow, DistinctNow, PagesNow, Ent, Act, FlagsOf, PteToPa, Shared, Duplicated;
    x := PageOfSlot(p);
    ActBits(r, Xlat(t0, src, x));
    assert EntryCopied(r, t0, pg0, pg, Xlat(t0, src, x), Xlat(t, dst, x));
    assert !SharedUser(r, t0, src, PteToPa(Ent(t, dst, p)));
  }

  /** Exactly the user-pool pages of `pg0` are allocated again. */
  ghost predicate SamePool(r: Regions, pg0: Pages, pg2: Pages) {
    forall f :: InUser(r, f) ==> (f in pg2 <==> f in pg0)
  }

  /** The copy meets what `destroy` demands, and destroying it gives the user pool of before the copy. */
  ghost predicate Restores(r: Regions, pg0: Pages, t: Tables, pg: Pages, dst: nat) {
    && OwnsUser(r, t, pg, dst)
    && forall t2, pg2 :: Destroyed(r, t, pg, t2, pg2, dst) ==> SamePool(r, pg0, pg2)
  }

  /** What is allocated after copying and then destroying the copy: frames that the copy shared are gone. */
  lemma CopyThenDestroy(r: Regions, t0: Tables, pg0: Pages, t: Tables, pg: Pages, src: nat, dst: nat, t2: Tables,
                        pg2: Pages)
    requires Copying(r, t0, pg0, t, pg, src, dst, NPAGES) && Destroyed(r, t, pg, t2, pg2, dst)
    ensures forall f :: InUser(r, f) ==> (f in pg2 <==> f in pg0 && !SharedUser(r, t0, src, f))
    ensures forall f :: f in t2 <==> f in t0 || f == dst
  {
    hide Xlat, UserLeaf, SharedUser, SlotsNow, DistinctNow, InTree;
    forall f | InUser(r, f) ensures f in pg2 <==> f in pg0 && !SharedUser(r, t0, src, f) {
      CopyLeaf(r, t0, pg0, t, pg, src, dst, f);
    }
    forall f | SharedUser(r, t0, src, f) ensures InUser(r, f) { SharedInUser(r, t0, src, f); }
    DstNew(t0, t, src, dst);
  }

  /** Some memory is what `destroy` leaves. */
  lemma DestroyedState(r: Regions, t: Tables, pg: Pages, root: nat) returns (t2: Tables, pg2: Pages)
    requires root in t
    ensures Destroyed(r, t, pg, t2, pg2, root)
  {
    hide InTree, UserLeaf;
    t2 := map f | f in t && (f == root || !InTree(t, root, f)) :: if f == root then Zeros() else t[f];
    pg2 := map f | f in pg && !UserLeaf(r, t, root, f) :: pg[f];
  }

  /** If the copy owns its user pages, then a frame it shares was allocated before. */
  lemma SharedWasAllocated(r: Regions, t0: Tables, pg0: Pages, t: Tables, pg: Pages, src: nat, dst: nat, f: nat)
    requires Copying(r, t0, pg0, t, pg, src, dst, NPAGES) && OwnsUser(r, t, pg, dst) && SharedUser(r, t0, src, f)
    ensures f in pg0
  {
    hide TreesNow, DistinctNow, Ent, Act, FlagsOf, PteToPa, Shared, Duplicated;
    var x: nat :| x < NPAGES && IsValid(Xlat(t0, src, x)) && Shared(Xlat(t0, src, x))
                  && PteToPa(Xlat(t0, src, x)) == f;
    ActBits(r, Xlat(t0, src, x));
    assert EntryCopied(r, t0, pg0, pg, Xlat(t0, src, x), Xlat(t, dst, x));
    assert UserSlot(r, t, dst, SlotOf(x)) && f in pg;
    if f !in pg0 {
      assert IsDup(r, t0, t, src, dst, NPAGES, f);
      var y: nat :| y < NPAGES && Dup(r, t0, src, y) && PteToPa(Xlat(t, dst, y)) == f;
      assert EntryCopied(r, t0, pg0, pg, Xlat(t0, src, y), Xlat(t, dst, y));
      assert UserSlot(r, t, dst, SlotOf(y));
      assert SlotOf(x) == SlotOf(y);
      SlotOfInjective(x, y);
    }
  }

  /**
    A copy can be destroyed, and destroying it restores the user pool, exactly if the original has no user-pool frame in
    an executable kernel page.
  */
  lemma CopyRestores(r: Regions, t0: Tables, pg0: Pages, t: Tables, pg: Pages, src: nat, dst: nat)
    requires Copying(r, t0, pg0, t, pg, src, dst, NPAGES)
    ensures Restores(r, pg0, t, pg, dst) <==> forall f :: !SharedUser(r, t0, src, f)
  {
    assert dst in t;
    hide Copying, Destroyed, OwnsUser, SharedUser;
    if forall f :: !SharedUser(r, t0, src, f) {
      CopyOwns(r, t0, pg0, t, pg, src, dst);
      forall t2, pg2 | Destroyed(r, t, pg, t2, pg2, dst) ensures SamePool(r, pg0, pg2) {
        CopyThenDestroy(r, t0, pg0, t, pg, src, dst, t2, pg2);
      }
    } else {
      var f :| SharedUser(r, t0, src, f);
      SharedInUser(r, t0, src, f);
      if OwnsUser(r, t, pg, dst) {
        SharedWasAllocated(r, t0, pg0, t, pg, src, dst, f);
        var t2, pg2 := DestroyedState(r, t, pg, dst);
        CopyThenDestroy(r, t0, pg0, t, pg, src, dst, t2, pg2);
      }
    }
  }

  // ----- a source that shares a user frame

  /** Mapping page 0 of an empty tree. */
  lemma MapFirst(t: Tables, root: nat, a: nat, b: nat, pa: nat, flags: nat) returns (t': Tables)
    requires FramesOk(t) && root in t && t[root] == Zeros() && pa % PGSIZE == 0 && pa < PA_MAX && Sv39.IsLeaf(flags)
    requires a !in t && b !in t && a != b && 0 < a < PA_MAX && 0 < b < PA_MAX && a % PGSIZE == 0 && b % PGSIZE == 0
    ensures t'.Keys == t.Keys + {a, b} && FramesOk(t') && Sets(t, t', root, 0, 1, pa, flags)
  {
    hide Sets, LevelsOk, Unshared;
    var u := FirstTable(t, root, a);
    hide Ent;
    t' := MapBelow(t, u, root, b, pa, flags);
  }

  /** The middle-level table of an empty tree. */
  lemma FirstTable(t: Tables, root: nat, a: nat) returns (u: Tables)
    requires FramesOk(t) && root in t && t[root] == Zeros() && a !in t && 0 < a < PA_MAX && a % PGSIZE == 0
    ensures u.Keys == t.Keys + {a} && Grows(t, u, root) && Frame(u, root, N1(0)) in u
    ensures !IsValid(Ent(u, root, N0(0, 0)))
  {
    EmptyTree(t, root);
    EmptyEnt(t, root, N1(0));
    EmptyEnt(t, root, N0(0, 0));
    hide TreeInv, Grows, PaToPte, Zeros;
    AddTable(t, root, N1(0), a);
    GrowStep(t, root, N1(0), a);
    u := SetWord(t[a := Zeros()], root, 0, PaToPte(a, PTE_V));
  }

  lemma MapBelow(t: Tables, u: Tables, root: nat, b: nat, pa: nat, flags: nat) returns (t': Tables)
    requires Grows(t, u, root) && Frame(u, root, N1(0)) in u && !IsValid(Ent(u, root, N0(0, 0)))
    requires b !in u && 0 < b < PA_MAX && b % PGSIZE == 0 && pa % PGSIZE == 0 && pa < PA_MAX && Sv39.IsLeaf(flags)
    ensures t'.Keys == u.Keys + {b} && FramesOk(t') && Sets(t, t', root, 0, 1, pa, flags)
  {
    hide Ent, LevelsOk, Unshared, Extends, Xlat, WithV, PaToPte;
    GrowStep(u, root, N0(0, 0), b);
    var w := SetWord(u[b := Zeros()], Frame(u, root, N1(0)), 0, PaToPte(b, PTE_V));
    GrowsTrans(t, u, w, root);
    var v := PaToPte(pa, WithV(flags));
    PackUnpack(pa, WithV(flags));
    assert SlotOf(0) == Slot(0, 0, 0);
    SetPage(t, w, root, 0, v);
    t' := SetWord(w, b, 0, v);
  }

  const POOLS := Regions(0x1000, 0x7000, 0x9000)

  /** The entry of the witness: user-pool frame 0x7000, readable and executable in the kernel only. */
  const SHARED_PTE := PaToPte(0x7000, WithV(PTE_R + PTE_X))

  /** Frame 0x7000 is allocated or not. */
  function WitnessPages(held: bool): Pages {
    if held then map[0x7000 := ZeroPage()] else map[]
  }

  function WitnessFree(held: bool): seq<nat> {
    if held then [0x8000] else [0x7000, 0x8000]
  }

  lemma SharedPte()
    ensures IsValid(SHARED_PTE) && FlagsOf(SHARED_PTE) == WithV(PTE_R + PTE_X) && PteToPa(SHARED_PTE) == 0x7000
    ensures Act(POOLS, SHARED_PTE).Share? && Sv39.IsLeaf(PTE_R + PTE_X) && Sv39.IsLeaf(SHARED_PTE)
  {
    PackUnpack(0x7000, WithV(PTE_R + PTE_X));
  }

  lemma WitnessFrames(f: nat)
    requires 0x1000 <= f < 0x9000 && f % PGSIZE == 0
    ensures f in {0x1000, 0x2000, 0x3000, 0x4000, 0x5000, 0x6000} || f == 0x7000 || f == 0x8000
  {
    assert f == f / PGSIZE * PGSIZE;
  }

  /** The pools of the witness memory, before and after the copy. */
  lemma WitnessPools(t: Tables, kf: seq<nat>, held: bool)
    requires FramesOk(t)
    requires (t.Keys == {0x1000, 0x2000, 0x3000} && kf == [0x4000, 0x5000, 0x6000])
             || (t.Keys == {0x1000, 0x2000, 0x3000, 0x4000, 0x5000, 0x6000} && kf == [])
    ensures MemInv(POOLS, t, WitnessPages(held), kf, WitnessFree(held))
  {
    var pg, uf := WitnessPages(held), WitnessFree(held);
    assert uf[|uf| - 1] == 0x8000 && (!held ==> uf[0] == 0x7000);
    assert kf != [] ==> kf[0] == 0x4000 && kf[1] == 0x5000 && kf[2] == 0x6000;
    assert FreeOk(kf, POOLS.kbegin, POOLS.kend, t, pg) && FreeOk(uf, POOLS.kend, POOLS.uend, t, pg);
    hide FreeOk, FramesOk;
    forall f: nat | f % PGSIZE == 0 ensures InUser(POOLS, f) ==> f in uf || f in pg {
      if InUser(POOLS, f) { WitnessFrames(f); }
    }
    forall f: nat | f % PGSIZE == 0 ensures InKernel(POOLS, f) ==> f in kf || f in t || f in pg {
      if InKernel(POOLS, f) { WitnessFrames(f); }
    }
  }

  /** Page 0 is mapped to the shared frame, nothing else is. */
  ghost predicate SharesFirst(t: Tables, root: nat) {
    && TreeInv(t, root)
    && forall x: nat :: x < NPAGES ==> Xlat(t, root, x) == if x == 0 then SHARED_PTE else 0
  }

  lemma WitnessSource() returns (t0: Tables)
    ensures t0.Keys == {0x1000, 0x2000, 0x3000} && SharesFirst(t0, 0x1000) && FramesOk(t0)
  {
    var t := map[0x1000 := Zeros()];
    EmptyTree(t, 0x1000);
    SharedPte();
    t0 := MapFirst(t, 0x1000, 0x2000, 0x3000, 0x7000, PTE_R + PTE_X);
    hide Xlat, PaToPte, WithV;
    assert FrameAt(0x7000, 0, 0) == 0x7000;
  }

  lemma WitnessCopy(t0: Tables, pg: Pages) returns (t: Tables)
    requires t0.Keys == {0x1000, 0x2000, 0x3000} && SharesFirst(t0, 0x1000) && FramesOk(t0)
    ensures t.Keys == {0x1000, 0x2000, 0x3000, 0x4000, 0x5000, 0x6000} && FramesOk(t)
    ensures Copying(POOLS, t0, pg, t, pg, 0x1000, 0x4000, NPAGES)
  {
    hide Xlat, Copying, Sets, Act, FlagsOf, PteToPa, PaToPte, WithV, LevelsOk, Unshared, Zeros;
    var t1 := t0[0x4000 := Zeros()];
    CopyStart(POOLS, t0, pg, 0x1000, 0x4000);
    SharedPte();
    FlagsKept(SHARED_PTE, 0x7000);
    t := MapFirst(t1, 0x4000, 0x5000, 0x6000, 0x7000, FlagsOf(SHARED_PTE));
    ShareStep(POOLS, t0, pg, t1, pg, t, 0x1000, 0x4000, 0);
    SkipPage(POOLS, t0, pg, t, pg, 0x1000, 0x4000, 1, NPAGES);
  }

  lemma WitnessShares(t0: Tables, pg: Pages)
    requires SharesFirst(t0, 0x1000)
    ensures SharedUser(POOLS, t0, 0x1000, 0x7000) && CopySource(POOLS, t0, pg, 0x1000)
  {
    SharedPte();
    ActBits(POOLS, SHARED_PTE);
    hide Xlat, Act, PteToPa, FlagsOf, TreeInv, Shared, Duplicated;
    assert Xlat(t0, 0x1000, 0) == SHARED_PTE;
  }

  /**
    A memory on which `copy` shares a user-pool frame, so that the copy must not be destroyed: if the frame is
    allocated, destroying the copy frees a page of the original; if it is free, it would be freed again.
  */
  lemma SharedFrame(held: bool) returns (t0: Tables, t: Tables)
    ensures var pg, uf := WitnessPages(held), WitnessFree(held);
      && MemInv(POOLS, t0, pg, [0x4000, 0x5000, 0x6000], uf) && MemInv(POOLS, t, pg, [], uf)
      && TreeInv(t0, 0x1000) && CopySource(POOLS, t0, pg, 0x1000) && SharedUser(POOLS, t0, 0x1000, 0x7000)
      && Copying(POOLS, t0, pg, t, pg, 0x1000, 0x4000, NPAGES)
      && !Restores(POOLS, pg, t, pg, 0x4000)
      && (OwnsUser(POOLS, t, pg, 0x4000) ==> held)
  {
    var pg, uf := WitnessPages(held), WitnessFree(held);
    t0 := WitnessSource();
    t := WitnessCopy(t0, pg);
    WitnessPools(t0, [0x4000, 0x5000, 0x6000], held);
    WitnessPools(t, [], held);
    SharedPte();
    WitnessShares(t0, pg);
    hide Copying, Xlat, MemInv, Act, OwnsUser, Restores, SharedUser;
    CopyRestores(POOLS, t0, pg, t, pg, 0x1000, 0x4000);
    if OwnsUser(POOLS, t, pg, 0x4000) { SharedWasAllocated(POOLS, t0, pg, t, pg, 0x1000, 0x4000, 0x7000); }
  }

  lemma SharedInUser(r: Regions, t0: Tables, src: nat, f: nat)
    requires SharedUser(r, t0, src, f)
    ensures InUser(r, f)
  {
  }

  lemma DstNew(t0: Tables, t: Tables, src: nat, dst: nat)
    requires TreesNow(t0, t, src, dst)
    ensures InTree(t, dst, dst) && dst !in t0
  {
    assert Frame(t, dst, Root) == dst;
  }

  /** Two lists without repetition and with the same elements have the same length. */
  lemma {:induction false} SameLength(a: seq<nat>, b: seq<nat>)
    requires NoDup(a) && NoDup(b) && forall x :: x in a <==> x in b
    ensures |a| == |b|
  {
    assert b != [] ==> a != [] by {
      if b != [] { assert b[0] in b; }
    }
    if a != [] {
      var x := a[0];
      assert x in a && x in b;
      var i :| 0 <= i < |b| && b[i] == x;
      var c := b[..i] + b[i + 1..];
      forall y ensures y in a[1..] <==> y in c {
        if y in a[1..] { assert y in b && y != x; }
        if y in c { assert y in b && y != x; }
      }
      SameLength(a[1..], c);
    }
  }

  /** The user pool's free count depends only on which user frames are allocated. */
  lemma FreeCount(r: Regions, t: Tables, pg: Pages, kf: seq<nat>, uf: seq<nat>,
                  t': Tables, pg': Pages, kf': seq<nat>, uf': seq<nat>)
    requires MemInv(r, t, pg, kf, uf) && MemInv(r, t', pg', kf', uf')
    requires forall f :: InUser(r, f) ==> (f in pg <==> f in pg')
    ensures |uf| == |uf'|
  {
    forall f ensures f in uf <==> f in uf' {
      FreeIff(r, t, pg, kf, uf, f);
      FreeIff(r, t', pg', kf', uf', f);
    }
    SameLength(uf, uf');
  }

  lemma FreeIff(r: Regions, t: Tables, pg: Pages, kf: seq<nat>, uf: seq<nat>, f: nat)
    requires MemInv(r, t, pg, kf, uf)
    ensures f in uf <==> InUser(r, f) && f % PGSIZE == 0 && f !in pg
  {
  }

  /** Fork's copy and exit's destroy, one after the other: the user pool's free count is what it was. */
  method CopyAndDestroy(m: Memory, src: nat) returns (ok: bool)
    requires m.Valid() && TreeInv(m.tables, src) && CopySource(m.rg, m.tables, m.pages, src)
    requires forall f :: !SharedUser(m.rg, m.tables, src, f)
    modifies m`tables, m`pages, m`kfree, m`ufree
    ensures m.Valid() && (ok ==> |m.ufree| == |old(m.ufree)|) && (!ok ==> m.kfree == [] || m.ufree == [])
  {
    hide MemInv, TreeInv, Copying, Destroyed, OwnsUser, SharedUser, CopySource;
    var dst := Copy(m, src);
    if dst.None? { return false; }
    ghost var t, pg := m.tables, m.pages;
    CopyOwns(m.rg, old(m.tables), old(m.pages), t, pg, src, dst.value);
    Destroy(m, dst.value);
    CopyThenDestroy(m.rg, old(m.tables), old(m.pages), t, pg, src, dst.value, m.tables, m.pages);
    FreeCount(m.rg, old(m.tables), old(m.pages), old(m.kfree), old(m.ufree), m.tables, m.pages, m.kfree, m.ufree);
    return true;
  }
}
