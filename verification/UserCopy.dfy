/**
  Copying between kernel and user memory through a page table (kernel/src/mem/uvm.rs): `copyin`, `copyout` and
  `copyin_str`, and why a copied address space and its original cannot see each other's writes.
*/
module UserCopy {
  import opened Base
  import opened Sv39
  import opened PageTree
  import opened PageTable
  import opened PageCopy
  import Bits
  import EntryBits

  datatype CopyError = NotMapped | NoPerm | TooLong

  datatype CopyResult<+T> = Ok(value: T) | Err(error: CopyError)

  /** Page `x` is valid and accessible to the user. */
  ghost predicate UserPage(t: Tables, root: nat, x: nat) {
    x < USER_PAGES && IsValid(Xlat(t, root, x)) && HasU(FlagsOf(Xlat(t, root, x)))
  }

  /** All user-accessible pages are backed by allocated pages. */
  ghost predicate Backed(t: Tables, pg: Pages, root: nat) {
    forall x: nat :: UserPage(t, root, x) ==> PteToPa(Xlat(t, root, x)) in pg
  }

  /** The frame of user page `x` is visible at no other user page. */
  ghost predicate Alone(t: Tables, root: nat, x: nat) {
    && UserPage(t, root, x)
    && forall y: nat :: UserPage(t, root, y) && PteToPa(Xlat(t, root, y)) == PteToPa(Xlat(t, root, x)) ==> y == x
  }

  /** Why an access to page `x` fails, or `None`. */
  ghost function Fault(t: Tables, root: nat, x: nat, write: bool): Option<CopyError> {
    if x >= USER_PAGES || !IsValid(Xlat(t, root, x)) then Some(NotMapped)
    else
      var flags := FlagsOf(Xlat(t, root, x));
      if HasU(flags) && (if write then HasW(flags) else HasR(flags)) then None else Some(NoPerm)
  }

  /** The faults by the bits of the entry: V in bit 0, R in bit 1, W in bit 2 and U in bit 4. */
  lemma FaultBits(t: Tables, root: nat, x: nat, write: bool)
    requires x < USER_PAGES
    ensures var e := Xlat(t, root, x);
      && (Fault(t, root, x, write) == Some(NotMapped) <==> !Bits.Bit(e, 0))
      && (Fault(t, root, x, write) == Some(NoPerm) <==>
            Bits.Bit(e, 0) && !(Bits.Bit(e, 4) && Bits.Bit(e, if write then 2 else 1)))
  {
    hide Xlat, FlagsOf, HasU, HasR, HasW, Bits.Bit;
    EntryBits.EntryTests(Xlat(t, root, x));
    EntryBits.TestedBits(Xlat(t, root, x));
  }

  /** The byte at user address `a`. */
  ghost function UserByte(t: Tables, pg: Pages, root: nat, a: nat): byte {
    var x := a / PGSIZE;
    if x >= NPAGES then 0
    else var f := PteToPa(Xlat(t, root, x)); if f in pg && |pg[f]| == PGSIZE then pg[f][a % PGSIZE] else 0
  }

  /** The fault of the byte at offset `i` from `va`. */
  ghost function FaultAt(t: Tables, root: nat, va: nat, i: nat, write: bool): Option<CopyError> {
    Fault(t, root, (va + i) / PGSIZE, write)
  }

  /** `d` is what user memory holds from `va` on, all of it readable. */
  ghost predicate ReadOk(t: Tables, pg: Pages, root: nat, va: nat, d: seq<byte>) {
    forall i :: 0 <= i < |d| ==> FaultAt(t, root, va, i, false).None? && d[i] == UserByte(t, pg, root, va + i)
  }

  /** The outcome of `copyin` as a function of memory: all bytes, or the fault of the first bad one. */
  ghost predicate CopyInResult(t: Tables, pg: Pages, root: nat, va: nat, len: nat, r: CopyResult<seq<byte>>) {
    match r
    case Ok(d) => |d| == len && ReadOk(t, pg, root, va, d)
    case Err(e) => exists k :: FirstFault(t, root, va, len, false, k, e)
  }

  /** Offset `k` is the first of `len` bytes from `va` that faults. */
  ghost predicate FirstFault(t: Tables, root: nat, va: nat, len: nat, write: bool, k: nat, e: CopyError) {
    && k < len && FaultAt(t, root, va, k, write) == Some(e)
    && forall i :: 0 <= i < k ==> FaultAt(t, root, va, i, write).None?
  }

  /** The page of a user address, resolved as all three loops do: a frame, or the fault. */
  method Resolve(m: Memory, root: nat, va: nat, write: bool) returns (r: CopyResult<nat>)
    requires m.Valid() && TreeInv(m.tables, root) && Backed(m.tables, m.pages, root)
    ensures match r
      case Ok(f) =>
        && Fault(m.tables, root, va / PGSIZE, write).None? && UserPage(m.tables, root, va / PGSIZE)
        && f == PteToPa(Xlat(m.tables, root, va / PGSIZE)) && f in m.pages && |m.pages[f]| == PGSIZE
      case Err(e) => Fault(m.tables, root, va / PGSIZE, write) == Some(e)
  {
    hide MemInv, Ent, Frame, TreeInv, Vpn, Grows, PteToPa, FlagsOf, AlignDown, HasU, HasW, HasR;
    GrowsSelf(m.tables, root);
    AlignPage(va);
    var a := AlignDown(va);
    var w := m.Lookup(root, a);
    if w.NoEntry? {
      if a < VA_MAX { AbsentPage(m.tables, root, a); }
      return Err(NotMapped);
    }
    SlotEntry(m.tables, m.tables, root, a);
    var pte := m.tables[w.frame][w.idx];
    if !IsValid(pte) { return Err(NotMapped); }
    var flags := FlagsOf(pte);
    if !HasU(flags) || (if write then !HasW(flags) else !HasR(flags)) { return Err(NoPerm); }
    PageSize(m.rg, m.tables, m.pages, m.kfree, m.ufree, PteToPa(pte));
    return Ok(PteToPa(pte));
  }

  lemma AlignPage(va: nat)
    ensures AlignDown(va) / PGSIZE == va / PGSIZE && (AlignDown(va) < VA_MAX <==> va / PGSIZE < USER_PAGES)
  {
  }

  lemma ChunkPage(va: nat, i: nat)
    requires va % PGSIZE + i < PGSIZE
    ensures (va + i) / PGSIZE == va / PGSIZE && (va + i) % PGSIZE == va % PGSIZE + i
  {
  }

  /** One more chunk, from one page. */
  lemma ReadMore(t: Tables, pg: Pages, root: nat, va: nat, d: seq<byte>, f: nat, n: nat)
    requires ReadOk(t, pg, root, va, d) && (va + |d|) % PGSIZE + n <= PGSIZE
    requires Fault(t, root, (va + |d|) / PGSIZE, false).None? && UserPage(t, root, (va + |d|) / PGSIZE)
    requires f == PteToPa(Xlat(t, root, (va + |d|) / PGSIZE)) && f in pg && |pg[f]| == PGSIZE
    ensures var off := (va + |d|) % PGSIZE; ReadOk(t, pg, root, va, d + pg[f][off..off + n])
  {
    hide Xlat, Fault, PteToPa;
    var off := (va + |d|) % PGSIZE;
    var e := d + pg[f][off..off + n];
    forall i | 0 <= i < |e|
      ensures FaultAt(t, root, va, i, false).None? && e[i] == UserByte(t, pg, root, va + i)
    {
      if i >= |d| { ChunkPage(va + |d|, i - |d|); }
    }
  }

  lemma FaultAfter(t: Tables, pg: Pages, root: nat, va: nat, d: seq<byte>, len: nat, e: CopyError)
    requires ReadOk(t, pg, root, va, d) && |d| < len && Fault(t, root, (va + |d|) / PGSIZE, false) == Some(e)
    ensures CopyInResult(t, pg, root, va, len, Err(e))
  {
    hide Fault, UserByte;
    assert FirstFault(t, root, va, len, false, |d|, e);
  }

  /** `copyin` */
  method CopyIn(m: Memory, root: nat, va: nat, len: nat) returns (r: CopyResult<seq<byte>>)
    requires m.Valid() && TreeInv(m.tables, root) && Backed(m.tables, m.pages, root) && va + len < ADDRESS_SPACE
    ensures CopyInResult(m.tables, m.pages, root, va, len, r)
  {
    hide MemInv, TreeInv, ReadOk, Fault, UserPage, Xlat, PteToPa;
    var dst: seq<byte> := [];
    ReadNothing(m.tables, m.pages, root, va);
    while |dst| < len
      invariant |dst| <= len && ReadOk(m.tables, m.pages, root, va, dst)
      decreases len - |dst|
    {
      var src := va + |dst|;
      var page := Resolve(m, root, src, false);
      if page.Err? {
        FaultAfter(m.tables, m.pages, root, va, dst, len, page.error);
        return Err(page.error);
      }
      var off := src % PGSIZE;
      var n := if PGSIZE - off < len - |dst| then PGSIZE - off else len - |dst|;
      ReadMore(m.tables, m.pages, root, va, dst, page.value, n);
      dst := dst + m.pages[page.value][off..off + n];
    }
    return Ok(dst);
  }

  lemma ReadNothing(t: Tables, pg: Pages, root: nat, va: nat)
    ensures ReadOk(t, pg, root, va, [])
  {
  }

  // ----- copyout

  /** Frame `f` is a user page of the table. */
  ghost predicate UserFrame(t: Tables, root: nat, f: nat) {
    exists x: nat :: UserPage(t, root, x) && PteToPa(Xlat(t, root, x)) == f
  }

  /** Only user pages of the table changed, and only their bytes. */
  ghost predicate OnlyUser(t: Tables, pg: Pages, pg': Pages, root: nat) {
    && pg'.Keys == pg.Keys
    && (forall f :: f in pg ==> |pg'[f]| == |pg[f]|)
    && (forall f :: f in pg && !UserFrame(t, root, f) ==> pg'[f] == pg[f])
  }

  /** As the user sees it where no frame is visible twice, exactly the bytes [va, va + n) became those of `src`. */
  ghost predicate BytesSet(t: Tables, pg: Pages, pg': Pages, root: nat, va: nat, n: nat, src: seq<byte>)
    requires n <= |src|
  {
    forall a: nat :: Alone(t, root, a / PGSIZE) ==>
      UserByte(t, pg', root, a) == if va <= a < va + n then src[a - va] else UserByte(t, pg, root, a)
  }

  /** The first `n` bytes of `src` are written at `va`. */
  ghost predicate Wrote(t: Tables, pg: Pages, pg': Pages, root: nat, va: nat, n: nat, src: seq<byte>) {
    && n <= |src| && OnlyUser(t, pg, pg', root)
    && (forall i :: 0 <= i < n ==> FaultAt(t, root, va, i, true).None?)
    && BytesSet(t, pg, pg', root, va, n, src)
  }

  /** The outcome of `copyout`: everything is written, or everything before the first faulting byte's page. */
  ghost predicate CopyOutResult(t: Tables, pg: Pages, pg': Pages, root: nat, va: nat, src: seq<byte>,
                                r: CopyResult<()>) {
    match r
    case Ok(_) => Wrote(t, pg, pg', root, va, |src|, src)
    case Err(e) => exists k :: FirstFault(t, root, va, |src|, true, k, e) && Wrote(t, pg, pg', root, va, k, src)
  }

  lemma WroteNothing(t: Tables, pg: Pages, root: nat, va: nat, src: seq<byte>)
    ensures Wrote(t, pg, pg, root, va, 0, src)
  {
  }

  /** One more chunk, into one page. */
  lemma WriteMore(t: Tables, pg: Pages, pg': Pages, root: nat, va: nat, n: nat, c: nat, src: seq<byte>, f: nat)
    requires Wrote(t, pg, pg', root, va, n, src) && n + c <= |src| && (va + n) % PGSIZE + c <= PGSIZE
    requires FaultAt(t, root, va, n, true).None? && UserPage(t, root, (va + n) / PGSIZE)
    requires f == PteToPa(Xlat(t, root, (va + n) / PGSIZE)) && f in pg' && |pg'[f]| == PGSIZE
    ensures Wrote(t, pg, pg'[f := Splice(pg'[f], (va + n) % PGSIZE, src[n..n + c])], root, va, n + c, src)
  {
    hide Xlat, Fault, PteToPa, Splice, UserPage, BytesSet;
    var q := pg'[f := Splice(pg'[f], (va + n) % PGSIZE, src[n..n + c])];
    assert UserFrame(t, root, f);
    forall i | 0 <= i < n + c ensures FaultAt(t, root, va, i, true).None? {
      if i >= n { ChunkPage(va + n, i - n); }
    }
    BytesMore(t, pg, pg', root, va, n, c, src, f);
  }

  lemma BytesMore(t: Tables, pg: Pages, pg': Pages, root: nat, va: nat, n: nat, c: nat, src: seq<byte>, f: nat)
    requires n + c <= |src| && BytesSet(t, pg, pg', root, va, n, src)
    requires (va + n) % PGSIZE + c <= PGSIZE && UserPage(t, root, (va + n) / PGSIZE)
    requires f == PteToPa(Xlat(t, root, (va + n) / PGSIZE)) && f in pg' && |pg'[f]| == PGSIZE
    ensures BytesSet(t, pg, pg'[f := Splice(pg'[f], (va + n) % PGSIZE, src[n..n + c])], root, va, n + c, src)
  {
    hide Xlat, PteToPa, Splice;
    var b := va + n;
    var q := pg'[f := Splice(pg'[f], b % PGSIZE, src[n..n + c])];
    forall a: nat | Alone(t, root, a / PGSIZE)
      ensures UserByte(t, q, root, a) == if va <= a < va + n + c then src[a - va] else UserByte(t, pg, root, a)
    {
      ByteInPage(b, c, a);
      if a / PGSIZE == b / PGSIZE {
        assert q[f][a % PGSIZE] == if b <= a < b + c then src[n..n + c][a - b] else pg'[f][a % PGSIZE];
      } else {
        assert UserByte(t, q, root, a) == UserByte(t, pg', root, a);
      }
    }
  }

  /** Which addresses a chunk covers. */
  lemma ByteInPage(b: nat, c: nat, a: nat)
    requires b % PGSIZE + c <= PGSIZE
    ensures b <= a < b + c ==> a / PGSIZE == b / PGSIZE
    ensures a / PGSIZE == b / PGSIZE ==> a - b == a % PGSIZE - b % PGSIZE
  {
    if b <= a < b + c { ChunkPage(b, a - b); }
  }

  lemma WriteFault(t: Tables, pg: Pages, pg': Pages, root: nat, va: nat, n: nat, src: seq<byte>, e: CopyError)
    requires Wrote(t, pg, pg', root, va, n, src) && n < |src| && FaultAt(t, root, va, n, true) == Some(e)
    ensures CopyOutResult(t, pg, pg', root, va, src, Err(e))
  {
    hide FaultAt, OnlyUser, BytesSet;
    assert FirstFault(t, root, va, |src|, true, n, e);
  }

  lemma StillBacked(t: Tables, pg: Pages, pg': Pages, root: nat)
    requires Backed(t, pg, root) && OnlyUser(t, pg, pg', root)
    ensures Backed(t, pg', root)
  {
  }

  /** `copyout` */
  method CopyOut(m: Memory, root: nat, va: nat, src: seq<byte>) returns (r: CopyResult<()>)
    requires m.Valid() && TreeInv(m.tables, root) && Backed(m.tables, m.pages, root) && va + |src| < ADDRESS_SPACE
    modifies m`pages
    ensures m.Valid() && CopyOutResult(m.tables, old(m.pages), m.pages, root, va, src, r)
  {
    hide MemInv, TreeInv, OnlyUser, BytesSet, Fault, UserPage, Xlat, PteToPa, Backed, Splice;
    var copied := 0;
    WroteNothing(m.tables, m.pages, root, va, src);
    while copied < |src|
      invariant m.Valid() && copied <= |src| && Wrote(m.tables, old(m.pages), m.pages, root, va, copied, src)
      decreases |src| - copied
    {
      StillBacked(m.tables, old(m.pages), m.pages, root);
      var dst := va + copied;
      var page := Resolve(m, root, dst, true);
      if page.Err? {
        WriteFault(m.tables, old(m.pages), m.pages, root, va, copied, src, page.error);
        return Err(page.error);
      }
      var off := dst % PGSIZE;
      var n := if PGSIZE - off < |src| - copied then PGSIZE - off else |src| - copied;
      WriteMore(m.tables, old(m.pages), m.pages, root, va, copied, n, src, page.value);
      m.StorePage(page.value, Splice(m.pages[page.value], off, src[copied..copied + n]));
      copied := copied + n;
    }
    return Ok(());
  }

  // ----- two address spaces

  /** The two tables have no user page in common. */
  ghost predicate UserApart(t: Tables, a: nat, b: nat) {
    forall x: nat, y: nat :: UserPage(t, a, x) && UserPage(t, b, y) ==>
      PteToPa(Xlat(t, a, x)) != PteToPa(Xlat(t, b, y))
  }

  /** After a copy, the original and the copy have no user page in common. */
  lemma CopyApart(r: Regions, t0: Tables, pg0: Pages, t: Tables, pg: Pages, src: nat, dst: nat)
    requires Copying(r, t0, pg0, t, pg, src, dst, NPAGES) && CopySource(r, t0, pg0, src)
    ensures UserApart(t, src, dst)
  {
    forall x: nat, y: nat | UserPage(t, src, x) && UserPage(t, dst, y)
      ensures PteToPa(Xlat(t, src, x)) != PteToPa(Xlat(t, dst, y))
    {
      SourceSame(r, t0, pg0, t, pg, src, dst, x);
      CopiedUser(r, t0, pg0, t, pg, src, dst, y);
      SourceUser(r, t0, pg0, src, x);
    }
  }

  lemma SourceSame(r: Regions, t0: Tables, pg0: Pages, t: Tables, pg: Pages, src: nat, dst: nat, x: nat)
    requires Copying(r, t0, pg0, t, pg, src, dst, NPAGES) && x < NPAGES
    ensures Xlat(t, src, x) == Xlat(t0, src, x)
  {
  }

  /** A user page of the copy is a fresh user frame. */
  lemma CopiedUser(r: Regions, t0: Tables, pg0: Pages, t: Tables, pg: Pages, src: nat, dst: nat, y: nat)
    requires Copying(r, t0, pg0, t, pg, src, dst, NPAGES) && UserPage(t, dst, y)
    ensures PteToPa(Xlat(t, dst, y)) !in pg0 && InUser(r, PteToPa(Xlat(t, dst, y)))
  {
    assert EntryCopied(r, t0, pg0, pg, Xlat(t0, src, y), Xlat(t, dst, y));
  }

  /** A user page of the original is an old page or lies outside the user pool. */
  lemma SourceUser(r: Regions, t0: Tables, pg0: Pages, src: nat, x: nat)
    requires CopySource(r, t0, pg0, src) && UserPage(t0, src, x)
    ensures PteToPa(Xlat(t0, src, x)) in pg0 || !InUser(r, PteToPa(Xlat(t0, src, x)))
  {
    EntryBits.EntryTests(Xlat(t0, src, x));
    hide Xlat, PteToPa, FlagsOf, HasU, Bits.Bit;
  }

  /** Writes through one table do not change what reads through the other return. */
  lemma NoInterference(t: Tables, pg: Pages, pg': Pages, a: nat, b: nat, va: nat, len: nat, d: CopyResult<seq<byte>>)
    requires UserApart(t, a, b) && OnlyUser(t, pg, pg', a) && Backed(t, pg, b)
    ensures CopyInResult(t, pg, b, va, len, d) <==> CopyInResult(t, pg', b, va, len, d)
  {
    hide Xlat, PteToPa, FlagsOf;
    forall x: nat | UserPage(t, b, x)
      ensures PteToPa(Xlat(t, b, x)) in pg && pg'[PteToPa(Xlat(t, b, x))] == pg[PteToPa(Xlat(t, b, x))]
    {
      var f := PteToPa(Xlat(t, b, x));
      assert !UserFrame(t, a, f);
    }
    forall i: nat | FaultAt(t, b, va, i, false).None?
      ensures UserByte(t, pg', b, va + i) == UserByte(t, pg, b, va + i)
    {
      assert UserPage(t, b, (va + i) / PGSIZE);
    }
  }

  // ----- copyin_str

  /**
    The outcome of `copyin_str` as a function of memory: the bytes up to and including the first NUL, or the fault or
    the length limit met before any NUL.
  */
  ghost predicate StrResult(t: Tables, pg: Pages, root: nat, va: nat, len: nat, r: CopyResult<seq<byte>>) {
    match r
    case Ok(d) => 0 < |d| <= len && ReadOk(t, pg, root, va, d) && d[|d| - 1] == 0 && NoNul(d[..|d| - 1])
    case Err(e) => exists d: seq<byte> :: StrStopped(t, pg, root, va, len, d, e)
  }

  ghost predicate StrStopped(t: Tables, pg: Pages, root: nat, va: nat, len: nat, d: seq<byte>, e: CopyError) {
    && ReadOk(t, pg, root, va, d) && NoNul(d)
    && if |d| < len then FaultAt(t, root, va, |d|, false) == Some(e) else |d| == len && e == TooLong
  }

  lemma StrFault(t: Tables, pg: Pages, root: nat, va: nat, len: nat, d: seq<byte>, e: CopyError)
    requires StrStopped(t, pg, root, va, len, d, e)
    ensures StrResult(t, pg, root, va, len, Err(e))
  {
  }

  lemma StrOk(t: Tables, pg: Pages, root: nat, va: nat, len: nat, d: seq<byte>)
    requires NoNul(d) && |d| < len && ReadOk(t, pg, root, va, d + [0])
    ensures StrResult(t, pg, root, va, len, Ok(d + [0]))
  {
    assert (d + [0])[..|d|] == d;
  }

  lemma NoNulMore(d: seq<byte>, b: byte)
    requires NoNul(d) && b != 0
    ensures NoNul(d + [b])
  {
  }

  /** One byte of a page. */
  lemma ReadByte(t: Tables, pg: Pages, root: nat, va: nat, d: seq<byte>, f: nat)
    requires ReadOk(t, pg, root, va, d) && Fault(t, root, (va + |d|) / PGSIZE, false).None?
    requires UserPage(t, root, (va + |d|) / PGSIZE)
    requires f == PteToPa(Xlat(t, root, (va + |d|) / PGSIZE)) && f in pg && |pg[f]| == PGSIZE
    ensures ReadOk(t, pg, root, va, d + [pg[f][(va + |d|) % PGSIZE]])
  {
    var off := (va + |d|) % PGSIZE;
    ReadMore(t, pg, root, va, d, f, 1);
    assert pg[f][off..off + 1] == [pg[f][off]];
  }

  /** `copyin_str` with a destination of `len` bytes; the value holds the copied bytes. */
  method CopyInStr(m: Memory, root: nat, va: nat, len: nat) returns (r: CopyResult<seq<byte>>)
    requires m.Valid() && TreeInv(m.tables, root) && Backed(m.tables, m.pages, root) && va + len < ADDRESS_SPACE
    ensures StrResult(m.tables, m.pages, root, va, len, r)
  {
    hide MemInv, TreeInv, ReadOk, Fault, UserPage, Xlat, PteToPa, NoNul, StrResult, Backed;
    var dst: seq<byte> := [];
    ReadNothing(m.tables, m.pages, root, va);
    NulFree();
    while |dst| < len
      invariant |dst| <= len && ReadOk(m.tables, m.pages, root, va, dst) && NoNul(dst)
      decreases len - |dst|
    {
      var page := Resolve(m, root, va + |dst|, false);
      if page.Err? {
        StrFault(m.tables, m.pages, root, va, len, dst, page.error);
        return Err(page.error);
      }
      ghost var x := (va + |dst|) / PGSIZE;
      var off := (va + |dst|) % PGSIZE;
      ghost var first, had := off, |dst|;
      while off < PGSIZE && |dst| < len
        invariant |dst| <= len && ReadOk(m.tables, m.pages, root, va, dst) && NoNul(dst)
        invariant off <= PGSIZE && off - first == |dst| - had && va + |dst| == x * PGSIZE + off
        decreases len - |dst|
      {
        assert (va + |dst|) / PGSIZE == x && (va + |dst|) % PGSIZE == off;
        var b := m.pages[page.value][off];
        ReadByte(m.tables, m.pages, root, va, dst, page.value);
        if b == 0 {
          StrOk(m.tables, m.pages, root, va, len, dst);
          return Ok(dst + [b]);
        }
        NoNulMore(dst, b);
        dst, off := dst + [b], off + 1;
      }
    }
    StrFault(m.tables, m.pages, root, va, len, dst, TooLong);
    return Err(TooLong);
  }

  lemma NulFree()
    ensures NoNul([])
  {
  }

  /** The same for strings. */
  lemma NoInterferenceStr(t: Tables, pg: Pages, pg': Pages, a: nat, b: nat, va: nat, len: nat, d: CopyResult<seq<byte>>)
    requires UserApart(t, a, b) && OnlyUser(t, pg, pg', a) && Backed(t, pg, b)
    ensures StrResult(t, pg, b, va, len, d) <==> StrResult(t, pg', b, va, len, d)
  {
    hide ReadOk, FaultAt, NoNul, UserApart, OnlyUser, Backed;
    forall s: seq<byte> ensures ReadOk(t, pg, b, va, s) <==> ReadOk(t, pg', b, va, s) {
      SameRead(t, pg, pg', a, b, va, s);
    }
    if d.Err? {
      forall s: seq<byte>
        ensures StrStopped(t, pg, b, va, len, s, d.error) <==> StrStopped(t, pg', b, va, len, s, d.error)
      {
      }
    }
  }

  lemma SameRead(t: Tables, pg: Pages, pg': Pages, a: nat, b: nat, va: nat, s: seq<byte>)
    requires UserApart(t, a, b) && OnlyUser(t, pg, pg', a) && Backed(t, pg, b)
    ensures ReadOk(t, pg, b, va, s) <==> ReadOk(t, pg', b, va, s)
  {
    hide ReadOk, FaultAt, UserApart, OnlyUser, Backed;
    NoInterference(t, pg, pg', a, b, va, |s|, Ok(s));
  }

  /** The user pages of the table come from the user pool. */
  ghost predicate UserPooled(r: Regions, t: Tables, root: nat) {
    forall x: nat :: UserPage(t, root, x) ==> InUser(r, PteToPa(Xlat(t, root, x)))
  }

  /** Right after a copy, reading through the copy returns what reading through the original returned. */
  lemma SnapshotRead(r: Regions, t0: Tables, pg0: Pages, t: Tables, pg: Pages, src: nat, dst: nat,
                     va: nat, len: nat, d: seq<byte>)
    requires Copying(r, t0, pg0, t, pg, src, dst, NPAGES)
    requires UserPooled(r, t0, src)
    requires forall f :: f in pg0 ==> |pg0[f]| == PGSIZE
    ensures CopyInResult(t, pg, dst, va, len, Ok(d)) <==> CopyInResult(t0, pg0, src, va, len, Ok(d))
  {
    hide Copying, Xlat, PteToPa, FlagsOf;
    forall i: nat ensures FaultAt(t, dst, va, i, false).None? <==> FaultAt(t0, src, va, i, false).None? {
      SnapshotPage(r, t0, pg0, t, pg, src, dst, (va + i) / PGSIZE);
    }
    forall i: nat | FaultAt(t0, src, va, i, false).None?
      ensures UserByte(t, pg, dst, va + i) == UserByte(t0, pg0, src, va + i)
    {
      SnapshotPage(r, t0, pg0, t, pg, src, dst, (va + i) / PGSIZE);
    }
  }

  lemma SnapshotPage(r: Regions, t0: Tables, pg0: Pages, t: Tables, pg: Pages, src: nat, dst: nat, x: nat)
    requires Copying(r, t0, pg0, t, pg, src, dst, NPAGES)
    requires UserPage(t0, src, x) ==> InUser(r, PteToPa(Xlat(t0, src, x)))
    ensures Fault(t, dst, x, false).None? <==> Fault(t0, src, x, false).None?
    ensures UserPage(t0, src, x) ==>
      var f, g := PteToPa(Xlat(t0, src, x)), PteToPa(Xlat(t, dst, x)); f in pg0 && g in pg && pg[g] == pg0[f]
  {
    if x < USER_PAGES {
      assert EntryCopied(r, t0, pg0, pg, Xlat(t0, src, x), Xlat(t, dst, x));
    }
  }

  lemma SnapshotStr(r: Regions, t0: Tables, pg0: Pages, t: Tables, pg: Pages, src: nat, dst: nat,
                    va: nat, len: nat, d: seq<byte>)
    requires Copying(r, t0, pg0, t, pg, src, dst, NPAGES)
    requires UserPooled(r, t0, src)
    requires forall f :: f in pg0 ==> |pg0[f]| == PGSIZE
    ensures StrResult(t, pg, dst, va, len, Ok(d)) <==> StrResult(t0, pg0, src, va, len, Ok(d))
  {
    hide Copying, Xlat, PteToPa, ReadOk, NoNul;
    SnapshotRead(r, t0, pg0, t, pg, src, dst, va, |d|, d);
  }

  // ----- fork isolation: a copy, and then writes through either table

  /** A `copyout` through the copy or through the original. */
  datatype Store = Store(toCopy: bool, va: nat, src: seq<byte>)

  /** What `copyin` and `copyin_str` through `root` return is the same in both memories. */
  ghost predicate Unseen(t: Tables, pg: Pages, pg': Pages, root: nat) {
    && (forall va: nat, len: nat, d ::
          CopyInResult(t, pg, root, va, len, d) <==> CopyInResult(t, pg', root, va, len, d))
    && (forall va: nat, len: nat, d :: StrResult(t, pg, root, va, len, d) <==> StrResult(t, pg', root, va, len, d))
  }

  /** Reading through `root` right after the copy, and reading through the original before it, agree. */
  ghost predicate Snapshot(t0: Tables, pg0: Pages, src: nat, t: Tables, pg: Pages, root: nat) {
    && (forall va: nat, len: nat, d ::
          CopyInResult(t, pg, root, va, len, Ok(d)) <==> CopyInResult(t0, pg0, src, va, len, Ok(d)))
    && (forall va: nat, len: nat, d ::
          StrResult(t, pg, root, va, len, Ok(d)) <==> StrResult(t0, pg0, src, va, len, Ok(d)))
  }

  lemma WriteUnseen(t: Tables, pg: Pages, pg': Pages, a: nat, b: nat)
    requires UserApart(t, a, b) && OnlyUser(t, pg, pg', a) && Backed(t, pg, b)
    ensures Unseen(t, pg, pg', b)
  {
    hide UserApart, OnlyUser, Backed, CopyInResult, StrResult;
    forall va: nat, len: nat, d
      ensures CopyInResult(t, pg, b, va, len, d) <==> CopyInResult(t, pg', b, va, len, d)
      ensures StrResult(t, pg, b, va, len, d) <==> StrResult(t, pg', b, va, len, d)
    {
      NoInterference(t, pg, pg', a, b, va, len, d);
      NoInterferenceStr(t, pg, pg', a, b, va, len, d);
    }
  }

  lemma OutWrote(t: Tables, pg: Pages, pg': Pages, root: nat, va: nat, src: seq<byte>, r: CopyResult<()>)
    requires CopyOutResult(t, pg, pg', root, va, src, r)
    ensures OnlyUser(t, pg, pg', root)
  {
  }

  lemma BackedStays(t: Tables, pg: Pages, pg': Pages, a: nat, root: nat)
    requires Backed(t, pg, root) && OnlyUser(t, pg, pg', a)
    ensures Backed(t, pg', root)
  {
  }

  lemma UnseenTrans(t: Tables, pg: Pages, pg': Pages, pg'': Pages, root: nat)
    requires Unseen(t, pg, pg', root) && Unseen(t, pg', pg'', root)
    ensures Unseen(t, pg, pg'', root)
  {
    hide CopyInResult, StrResult;
  }

  lemma ApartSym(t: Tables, a: nat, b: nat)
    requires UserApart(t, a, b)
    ensures UserApart(t, b, a)
  {
  }

  /** After a copy both tables are backed. */
  lemma CopyBacked(r: Regions, t0: Tables, pg0: Pages, t: Tables, pg: Pages, src: nat, dst: nat)
    requires Copying(r, t0, pg0, t, pg, src, dst, NPAGES) && Backed(t0, pg0, src)
    ensures TreeInv(t, src) && TreeInv(t, dst) && Backed(t, pg, src) && Backed(t, pg, dst)
  {
    hide Xlat, TreeInv, DistinctNow;
    forall x: nat | UserPage(t, src, x) ensures PteToPa(Xlat(t, src, x)) in pg {
      SourceSame(r, t0, pg0, t, pg, src, dst, x);
    }
    forall x: nat | UserPage(t, dst, x) ensures PteToPa(Xlat(t, dst, x)) in pg {
      assert EntryCopied(r, t0, pg0, pg, Xlat(t0, src, x), Xlat(t, dst, x));
    }
  }

  /** The copy starts as a snapshot if the user pages of the original come from the user pool. */
  lemma CopySnapshot(r: Regions, t0: Tables, pg0: Pages, t: Tables, pg: Pages, src: nat, dst: nat)
    requires Copying(r, t0, pg0, t, pg, src, dst, NPAGES) && forall f :: f in pg0 ==> |pg0[f]| == PGSIZE
    ensures UserPooled(r, t0, src) ==> Snapshot(t0, pg0, src, t, pg, dst)
  {
    hide Copying, CopyInResult, StrResult, UserPooled;
    forall va: nat, len: nat, d | UserPooled(r, t0, src)
      ensures CopyInResult(t, pg, dst, va, len, Ok(d)) <==> CopyInResult(t0, pg0, src, va, len, Ok(d))
      ensures StrResult(t, pg, dst, va, len, Ok(d)) <==> StrResult(t0, pg0, src, va, len, Ok(d))
    {
      SnapshotRead(r, t0, pg0, t, pg, src, dst, va, len, d);
      SnapshotStr(r, t0, pg0, t, pg, src, dst, va, len, d);
    }
  }

  /** The table that a store goes through. */
  ghost function Through(w: Store, src: nat, dst: nat): nat { if w.toCopy then dst else src }

  /** Each store did what `copyout` does. */
  ghost predicate Stored(t: Tables, src: nat, dst: nat, ws: seq<Store>, rs: seq<CopyResult<()>>, pgs: seq<Pages>) {
    && |pgs| == |rs| + 1 && |rs| <= |ws|
    && forall k :: 0 <= k < |rs| ==>
         CopyOutResult(t, pgs[k], pgs[k + 1], Through(ws[k], src, dst), ws[k].va, ws[k].src, rs[k])
  }

  /** From memory `i` to memory `j` nothing changed for a reader through the copy (or the original) unless a store went
      through that same table. */
  ghost predicate IsolatedFrom(t: Tables, src: nat, dst: nat, ws: seq<Store>, pgs: seq<Pages>, i: nat, j: nat,
                               copy: bool)
    requires i <= j < |pgs| && j <= |ws|
  {
    (forall k :: i <= k < j ==> ws[k].toCopy != copy) ==> Unseen(t, pgs[i], pgs[j], if copy then dst else src)
  }

  /** Over any stretch of stores, through either table, a reader through the other table sees no change. */
  ghost predicate Isolated(t: Tables, src: nat, dst: nat, ws: seq<Store>, pgs: seq<Pages>) {
    |pgs| <= |ws| + 1 && forall i: nat, j: nat, copy: bool :: i <= j < |pgs| ==>
      IsolatedFrom(t, src, dst, ws, pgs, i, j, copy)
  }

  lemma IsolatedMore(t: Tables, src: nat, dst: nat, ws: seq<Store>, pgs: seq<Pages>, pg: Pages)
    requires Isolated(t, src, dst, ws, pgs) && 0 < |pgs| <= |ws|
    requires Unseen(t, pgs[|pgs| - 1], pg, if ws[|pgs| - 1].toCopy then src else dst)
    ensures Isolated(t, src, dst, ws, pgs + [pg])
  {
    var n := |pgs|;
    var q := pgs + [pg];
    hide Unseen;
    forall i: nat, j: nat, copy: bool | i <= j < |q| ensures IsolatedFrom(t, src, dst, ws, q, i, j, copy) {
      if j < n {
        assert IsolatedFrom(t, src, dst, ws, pgs, i, j, copy);
      } else if i == n {
        UnseenSelf(t, pg, if copy then dst else src);
      } else if forall k :: i <= k < n ==> ws[k].toCopy != copy {
        assert IsolatedFrom(t, src, dst, ws, pgs, i, n - 1, copy);
        assert ws[n - 1].toCopy != copy;
        UnseenTrans(t, q[i], q[n - 1], pg, if copy then dst else src);
      }
    }
  }

  lemma UnseenSelf(t: Tables, pg: Pages, root: nat)
    ensures Unseen(t, pg, pg, root)
  {
  }

  lemma IsolatedStart(t: Tables, src: nat, dst: nat, ws: seq<Store>, pg: Pages)
    ensures Isolated(t, src, dst, ws, [pg])
  {
    forall i: nat, j: nat, copy: bool | i <= j < 1 ensures IsolatedFrom(t, src, dst, ws, [pg], i, j, copy) {
      UnseenSelf(t, pg, if copy then dst else src);
    }
  }

  /**
    Fork's copy, followed by any sequence of `copyout` through the copy and the original: the copy starts as a snapshot,
    and from then on no store through one table changes what `copyin` or `copyin_str` through the other returns.
  */
  method CopyThenStore(m: Memory, src: nat, ws: seq<Store>)
    returns (dst: Option<nat>, rs: seq<CopyResult<()>>, ghost pgs: seq<Pages>)
    requires m.Valid() && TreeInv(m.tables, src) && CopySource(m.rg, m.tables, m.pages, src)
    requires Backed(m.tables, m.pages, src)
    requires forall k :: 0 <= k < |ws| ==> ws[k].va + |ws[k].src| < ADDRESS_SPACE
    modifies m`tables, m`pages, m`kfree, m`ufree
    ensures m.Valid()
    ensures dst.None? ==> m.kfree == [] || m.ufree == []
    ensures dst.Some? ==>
      && |rs| == |ws| && |pgs| == |ws| + 1 && m.pages == pgs[|ws|]
      && Copying(m.rg, old(m.tables), old(m.pages), m.tables, pgs[0], src, dst.value, NPAGES)
      && (UserPooled(m.rg, old(m.tables), src) ==>
            Snapshot(old(m.tables), old(m.pages), src, m.tables, pgs[0], dst.value))
      && Stored(m.tables, src, dst.value, ws, rs, pgs)
      && Isolated(m.tables, src, dst.value, ws, pgs)
  {
    hide MemInv, Copying, TreeInv, CopySource, Backed, OnlyUser, CopyOutResult, Unseen, Snapshot, UserApart,
      UserPooled, Isolated;
    ghost var t0, pg0 := m.tables, m.pages;
    PageSizes(m.rg, t0, pg0, m.kfree, m.ufree);
    rs, pgs := [], [];
    dst := Copy(m, src);
    if dst.None? { return; }
    ghost var d := dst.value;
    pgs := [m.pages];
    CopyBacked(m.rg, t0, pg0, m.tables, m.pages, src, d);
    CopyApart(m.rg, t0, pg0, m.tables, m.pages, src, d);
    ApartSym(m.tables, src, d);
    CopySnapshot(m.rg, t0, pg0, m.tables, m.pages, src, d);
    IsolatedStart(m.tables, src, d, ws, m.pages);
    ghost var t := m.tables;
    for k := 0 to |ws|
      invariant m.Valid() && m.tables == t && TreeInv(t, src) && TreeInv(t, d)
      invariant |rs| == k && |pgs| == k + 1 && m.pages == pgs[k]
      invariant Backed(t, m.pages, src) && Backed(t, m.pages, d) && UserApart(t, src, d) && UserApart(t, d, src)
      invariant Copying(m.rg, t0, pg0, t, pgs[0], src, d, NPAGES)
      invariant UserPooled(m.rg, t0, src) ==> Snapshot(t0, pg0, src, t, pgs[0], d)
      invariant Stored(t, src, d, ws, rs, pgs) && Isolated(t, src, d, ws, pgs)
    {
      ghost var pg := m.pages;
      var root := if ws[k].toCopy then dst.value else src;
      ghost var other := if ws[k].toCopy then src else d;
      var r := CopyOut(m, root, ws[k].va, ws[k].src);
      OutWrote(t, pg, m.pages, root, ws[k].va, ws[k].src, r);
      WriteUnseen(t, pg, m.pages, root, other);
      BackedStays(t, pg, m.pages, root, src);
      BackedStays(t, pg, m.pages, root, d);
      IsolatedMore(t, src, d, ws, pgs, m.pages);
      rs, pgs := rs + [r], pgs + [m.pages];
    }
  }

  lemma PageSizes(r: Regions, t: Tables, pg: Pages, kf: seq<nat>, uf: seq<nat>)
    requires MemInv(r, t, pg, kf, uf)
    ensures forall f :: f in pg ==> |pg[f]| == PGSIZE
  {
    forall f | f in pg ensures |pg[f]| == PGSIZE { PageSize(r, t, pg, kf, uf, f); }
  }
}
