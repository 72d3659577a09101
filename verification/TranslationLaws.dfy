/**
  What `map` and `unmap` (kernel/src/mem/pagetable.rs) mean for single addresses: a mapped range translates byte by byte
  to consecutive physical addresses, and an unmapped one does not translate.
*/
module TranslationLaws {
  import opened Base
  import opened Sv39
  import opened PageTree
  import opened PageTable

  /** The physical address of virtual address `a`. */
  ghost function Translate(t: Tables, root: nat, a: nat): Option<nat> {
    var x := a / PGSIZE;
    if x < USER_PAGES && IsValid(Xlat(t, root, x)) then Some(PteToPa(Xlat(t, root, x)) + a % PGSIZE) else None
  }

  /** Address `a` lies in a page that has an address of [va, va + len). */
  ghost predicate Touched(va: nat, len: nat, a: nat) {
    exists b: nat {:trigger b / PGSIZE} :: va <= b < va + len && b / PGSIZE == a / PGSIZE
  }

  lemma TouchedPages(va: nat, len: nat, a: nat)
    requires len > 0
    ensures Touched(va, len, a) <==> va / PGSIZE <= a / PGSIZE < AlignUp(va + len) / PGSIZE
  {
    var x, lo, hi := a / PGSIZE, va / PGSIZE, AlignUp(va + len) / PGSIZE;
    if lo <= x < hi {
      var b := if x == lo then va else x * PGSIZE;
      assert va <= b < va + len && b / PGSIZE == x;
    }
  }

  /** The frame of a page in a mapped range. */
  lemma RangeFrame(va: nat, pa: nat, len: nat, i: nat)
    requires va % PGSIZE == pa % PGSIZE && i < len && pa + len + PGSIZE <= PA_MAX
    ensures var g := FrameAt(AlignDown(pa), va / PGSIZE, (va + i) / PGSIZE);
      g % PGSIZE == 0 && g < PA_MAX && g + (va + i) % PGSIZE == pa + i
  {
    var lo, x := va / PGSIZE, (va + i) / PGSIZE;
    assert va == lo * PGSIZE + va % PGSIZE && va + i == x * PGSIZE + (va + i) % PGSIZE;
    assert AlignDown(pa) == pa - pa % PGSIZE;
  }

  lemma SetsAt(t: Tables, t': Tables, root: nat, lo: nat, hi: nat, pa: nat, flags: nat, x: nat)
    requires Sets(t, t', root, lo, hi, pa, flags) && x < NPAGES
    ensures Xlat(t', root, x) == if lo <= x < hi then PaToPte(FrameAt(pa, lo, x), WithV(flags)) else Xlat(t, root, x)
  {
  }

  lemma ClearsAt(t: Tables, t': Tables, root: nat, lo: nat, hi: nat, x: nat)
    requires Clears(t, t', root, lo, hi) && x < NPAGES
    ensures Xlat(t', root, x) == if lo <= x < hi then 0 else Xlat(t, root, x)
  {
  }

  /**
    A successful `map`: every address of the range translates to its physical counterpart with the flags asked for, and
    addresses of other pages translate as before.
  */
  lemma MapTranslates(t: Tables, t': Tables, root: nat, va: nat, pa: nat, len: nat, flags: nat, i: nat)
    requires Sets(t, t', root, va / PGSIZE, AlignUp(va + len) / PGSIZE, AlignDown(pa), flags)
    requires va + len <= VA_MAX && va % PGSIZE == pa % PGSIZE && pa + len + PGSIZE <= PA_MAX && i < len
    ensures Translate(t', root, va + i) == Some(pa + i)
    ensures (va + i) / PGSIZE < NPAGES && FlagsOf(Xlat(t', root, (va + i) / PGSIZE)) == WithV(flags) % 1024
  {
    hide Sets, Xlat, PteToPa, PaToPte, FlagsOf, WithV, FrameAt, AlignUp, AlignDown, Touched;
    TouchedPages(va, len, va + i);
    RangeFrame(va, pa, len, i);
    SetsAt(t, t', root, va / PGSIZE, AlignUp(va + len) / PGSIZE, AlignDown(pa), flags, (va + i) / PGSIZE);
    PackUnpack(FrameAt(AlignDown(pa), va / PGSIZE, (va + i) / PGSIZE), WithV(flags));
  }

  lemma MapKeeps(t: Tables, t': Tables, root: nat, va: nat, pa: nat, len: nat, flags: nat, a: nat)
    requires len > 0 && Sets(t, t', root, va / PGSIZE, AlignUp(va + len) / PGSIZE, AlignDown(pa), flags)
    requires !Touched(va, len, a)
    ensures Translate(t', root, a) == Translate(t, root, a)
  {
    hide Sets, Xlat, PteToPa, Touched, AlignUp, AlignDown;
    TouchedPages(va, len, a);
    if a / PGSIZE < NPAGES {
      SetsAt(t, t', root, va / PGSIZE, AlignUp(va + len) / PGSIZE, AlignDown(pa), flags, a / PGSIZE);
    }
  }

  /** A successful `unmap`: no address of a page in its range translates, and all others translate as before. */
  lemma UnmapTranslates(t: Tables, t': Tables, root: nat, va: nat, len: nat, a: nat)
    requires len > 0 && Clears(t, t', root, va / PGSIZE, AlignUp(va + len) / PGSIZE)
    ensures Translate(t', root, a) == if Touched(va, len, a) then None else Translate(t, root, a)
  {
    hide Clears, Xlat, PteToPa, Touched, AlignUp;
    TouchedPages(va, len, a);
    if a / PGSIZE < NPAGES { ClearsAt(t, t', root, va / PGSIZE, AlignUp(va + len) / PGSIZE, a / PGSIZE); }
  }

  /** `map` succeeds exactly if each page of the range is below VA_MAX and free or translates to the same place. */
  lemma MapFits(t: Tables, root: nat, va: nat, pa: nat, len: nat, i: nat)
    requires va % PGSIZE == pa % PGSIZE && i < len && pa + len + PGSIZE <= PA_MAX
    ensures MapOk(t, root, (va + i) / PGSIZE, FrameAt(AlignDown(pa), va / PGSIZE, (va + i) / PGSIZE)) <==>
      va + i < VA_MAX && (Translate(t, root, va + i).None? || Translate(t, root, va + i) == Some(pa + i))
  {
    RangeFrame(va, pa, len, i);
    hide Xlat, PteToPa, AlignDown;
  }
}
