/**
  The reference-counted page allocator of kernel/src/mem/pmem.rs under concurrency.  Any number of harts interleave the
  separate steps of `allocate` (pop under the lock, count, zero) and `free` (uncount, push under the lock).  The free
  list is threaded through the first word of the free pages themselves, which their owners may overwrite.
*/
module PageAllocator {
  import opened Base
  import opened Sv39

  const PHY_MEM_START := 0x8000_0000
  const TOTAL_PAGES := 32768

  /** One region: its bounds, the head of its free list and its counter. */
  datatype Pool = Pool(begin: nat, end: nat, head: Option<nat>, allocable: nat)

  /** Where a hart stands in a call of the allocator. */
  datatype Hart =
    | Idle
    | Popped(page: nat)   // allocate: taken off the list, not counted yet
    | Counted(page: nat)  // allocate: counted, not zeroed yet
    | Dropped(page: nat)  // free: counted down to zero, not pushed yet
    | Panicked

  /** `link` is the first word of each page; `owned` are the pages handed out and not yet given back. */
  datatype State = State(
    kernel: Pool, user: Pool, link: map<nat, Option<nat>>, refs: seq<nat>, harts: map<nat, Hart>, owned: set<nat>)

  datatype Step =
    | AllocPop(h: nat, kernel: bool)
    | AllocCount(h: nat)
    | AllocZero(h: nat)
    | FreeDrop(h: nat, page: nat)
    | FreePush(h: nat)
    | OwnerWrites(page: nat, word: Option<nat>)

  predicate Contains(p: Pool, a: nat) { p.begin <= a < p.end }

  function PoolOf(s: State, kernel: bool): Pool { if kernel then s.kernel else s.user }

  function WithPool(s: State, kernel: bool, p: Pool): State {
    if kernel then s.(kernel := p) else s.(user := p)
  }

  function WithHart(s: State, h: nat, x: Hart): State { s.(harts := s.harts[h := x]) }

  /** `pa_to_index`; None where it panics. */
  function Index(pa: nat): Option<nat> {
    if pa < PHY_MEM_START || (pa - PHY_MEM_START) / PGSIZE >= TOTAL_PAGES then None
    else Some((pa - PHY_MEM_START) / PGSIZE)
  }

  /** Who may take a step: a hart at the matching point, and only the owner of a page frees or writes it. */
  predicate Enabled(s: State, e: Step) {
    match e
    case AllocPop(h, _) => h in s.harts && s.harts[h].Idle?
    case AllocCount(h) => h in s.harts && s.harts[h].Popped?
    case AllocZero(h) => h in s.harts && s.harts[h].Counted?
    case FreeDrop(h, page) => h in s.harts && s.harts[h].Idle? && page in s.owned
    case FreePush(h) => h in s.harts && s.harts[h].Dropped?
    case OwnerWrites(page, _) => page in s.owned
  }

  /** `allocate` under the lock; an empty list ends the call with None. */
  function Pop(s: State, h: nat, kernel: bool): State {
    var p := PoolOf(s, kernel);
    if p.head.None? then s
    else
      var page := p.head.value;
      var next := if page in s.link then s.link[page] else None;
      var count := if p.allocable == 0 then 0 else p.allocable - 1;
      WithHart(WithPool(s, kernel, p.(head := next, allocable := count)), h, Popped(page))
  }

  /** `fetch_add`, which must find 0. */
  function Count(s: State, h: nat, page: nat): State {
    var i := Index(page);
    if i.None? || i.value >= |s.refs| then WithHart(s, h, Panicked)
    else
      var next := s.(refs := s.refs[i.value := (s.refs[i.value] + 1) % 256]);
      WithHart(next, h, if s.refs[i.value] != 0 then Panicked else Counted(page))
  }

  /** Clearing the page and handing it to the caller. */
  function Zero(s: State, h: nat, page: nat): State {
    WithHart(s.(link := s.link[page := None], owned := s.owned + {page}), h, Idle)
  }

  /** `free` up to `fetch_sub`, in the region that contains the address. */
  function Drop(s: State, h: nat, page: nat): State {
    var i := Index(page);
    var r := s.(owned := s.owned - {page});
    if !Contains(s.kernel, page) && !Contains(s.user, page) then WithHart(r, h, Panicked)
    else if page % PGSIZE != 0 || i.None? || i.value >= |s.refs| then WithHart(r, h, Panicked)
    else
      var was := s.refs[i.value];
      var dropped := r.(refs := s.refs[i.value := (was + 255) % 256]);
      WithHart(dropped, h, if was == 0 then Panicked else if was > 1 then Idle else Dropped(page))
  }

  /** The rest of `free`, under the lock. */
  function Push(s: State, h: nat, page: nat): State {
    var kernel := Contains(s.kernel, page);
    var p := PoolOf(s, kernel);
    var linked := s.(link := s.link[page := p.head]);
    WithHart(WithPool(linked, kernel, p.(head := Some(page), allocable := p.allocable + 1)), h, Idle)
  }

  function Apply(s: State, e: Step): State
    requires Enabled(s, e)
  {
    match e
    case AllocPop(h, kernel) => Pop(s, h, kernel)
    case AllocCount(h) => Count(s, h, s.harts[h].page)
    case AllocZero(h) => Zero(s, h, s.harts[h].page)
    case FreeDrop(h, page) => Drop(s, h, page)
    case FreePush(h) => Push(s, h, s.harts[h].page)
    case OwnerWrites(page, word) => s.(link := s.link[page := word])
  }

  // ----- the invariant

  /** The pages of a region. */
  predicate PageIn(p: Pool, a: nat) { Contains(p, a) && a % PGSIZE == 0 }

  predicate Page(s: State, a: nat) { PageIn(s.kernel, a) || PageIn(s.user, a) }

  /** The one place a page is in. */
  datatype Where = Listed | Held(h: nat) | Owned

  /** The free list of a region, spelled out. */
  ghost predicate PoolOk(p: Pool, link: map<nat, Option<nat>>, l: seq<nat>) {
    && p.head == ListAt(l, 0) && p.allocable == |l| && NoDup(l)
    && forall i :: 0 <= i < |l| ==> PageIn(p, l[i]) && l[i] in link && link[l[i]] == ListAt(l, i + 1)
  }

  /** Both regions lie in the counted memory and do not overlap. */
  ghost predicate BoundsOk(s: State) {
    && PHY_MEM_START <= s.kernel.begin && s.kernel.end <= PHY_MEM_START + TOTAL_PAGES * PGSIZE
    && PHY_MEM_START <= s.user.begin && s.user.end <= PHY_MEM_START + TOTAL_PAGES * PGSIZE
    && s.kernel.end <= s.user.begin && |s.refs| == TOTAL_PAGES
  }

  /** `w` says of every page where it is. */
  ghost predicate WhereOk(s: State, kl: seq<nat>, ul: seq<nat>, w: map<nat, Where>) {
    && (forall a :: a in w <==> Page(s, a))
    && (forall a :: a in w ==> (w[a].Listed? <==> a in kl || a in ul))
    && (forall a :: a in w ==> (w[a].Owned? <==> a in s.owned))
    && (forall a :: a in w && w[a].Held? ==> w[a].h in s.harts && Holds(s.harts[w[a].h], a))
    && (forall h :: h in s.harts && !s.harts[h].Idle? ==> !s.harts[h].Panicked? && InHand(w, h, s.harts[h].page))
    && s.owned <= w.Keys
  }

  ghost predicate InHand(w: map<nat, Where>, h: nat, page: nat) {
    page in w && w[page] == Held(h)
  }

  predicate Holds(x: Hart, a: nat) {
    !x.Idle? && !x.Panicked? && x.page == a
  }

  /** The count that the place of a page calls for. */
  ghost predicate RefsOk(s: State, w: map<nat, Where>) {
    forall a :: a in w ==> RefAt(s, a) == Some(Expected(s, w[a]))
  }

  function RefAt(s: State, a: nat): Option<nat> {
    var i := Index(a);
    if i.Some? && i.value < |s.refs| then Some(s.refs[i.value]) else None
  }

  function Expected(s: State, x: Where): nat {
    match x
    case Listed => 0
    case Owned => 1
    case Held(h) => if h in s.harts && s.harts[h].Counted? then 1 else 0
  }

  ghost predicate InvWith(s: State, kl: seq<nat>, ul: seq<nat>, w: map<nat, Where>) {
    BoundsOk(s) && PoolOk(s.kernel, s.link, kl) && PoolOk(s.user, s.link, ul) && WhereOk(s, kl, ul, w) && RefsOk(s, w)
  }

  ghost predicate Inv(s: State) {
    exists kl, ul, w :: InvWith(s, kl, ul, w)
  }

  // ----- one step

  lemma IndexApart(a: nat, b: nat)
    requires a % PGSIZE == 0 && b % PGSIZE == 0 && a != b && Index(a).Some? && Index(b).Some?
    ensures Index(a) != Index(b)
  {
  }

  /** The regions' bounds never change. */
  predicate SameBounds(s: State, s': State) {
    && s'.kernel.begin == s.kernel.begin && s'.kernel.end == s.kernel.end
    && s'.user.begin == s.user.begin && s'.user.end == s.user.end
  }

  predicate Listed(kl: seq<nat>, ul: seq<nat>, a: nat) { a in kl || a in ul }

  /** Hart `h` has page `a` in hand or nothing. */
  predicate AtMost(x: Hart, a: nat) { x.Idle? || Holds(x, a) }

  /** A step moves the one page `a` to the place `x`, and hart `h` to `g`. */
  ghost predicate Moves(s: State, kl: seq<nat>, ul: seq<nat>, s': State, kl': seq<nat>, ul': seq<nat>,
                        h: nat, g: Hart, a: nat, x: Where) {
    && SameBounds(s, s') && h in s.harts && s'.harts == s.harts[h := g]
    && (forall b :: b != a ==> (Listed(kl', ul', b) <==> Listed(kl, ul, b)))
    && (forall b :: b != a ==> (b in s'.owned <==> b in s.owned))
    && (x.Listed? <==> Listed(kl', ul', a)) && (x.Owned? <==> a in s'.owned)
    && (x.Held? <==> Holds(g, a)) && (x.Held? ==> x.h == h)
    && AtMost(s.harts[h], a) && AtMost(g, a)
  }

  lemma MovePlaces(s: State, kl: seq<nat>, ul: seq<nat>, w: map<nat, Where>,
                   s': State, kl': seq<nat>, ul': seq<nat>, h: nat, g: Hart, a: nat, x: Where)
    requires WhereOk(s, kl, ul, w) && Moves(s, kl, ul, s', kl', ul', h, g, a, x)
    requires a in w && (w[a].Held? ==> w[a].h == h)
    ensures WhereOk(s', kl', ul', w[a := x])
  {
    var w' := w[a := x];
    forall b ensures b in w' <==> Page(s', b) { assert Page(s', b) == Page(s, b); }
    hide Page;
    forall b | b in w' ensures w'[b].Listed? <==> b in kl' || b in ul' {
      assert Listed(kl', ul', b) <==> b in kl' || b in ul';
      assert Listed(kl, ul, b) <==> b in kl || b in ul;
    }
    hide Listed;
    forall b | b in w' ensures w'[b].Owned? <==> b in s'.owned {}
    forall b | b in w' && w'[b].Held? ensures w'[b].h in s'.harts && Holds(s'.harts[w'[b].h], b) {
      if b != a { assert w[b].h != h by { assert Holds(s.harts[w[b].h], b); } }
    }
    forall k | k in s'.harts && !s'.harts[k].Idle? ensures !s'.harts[k].Panicked? && InHand(w', k, s'.harts[k].page) {
      if k != h { assert InHand(w, k, s.harts[k].page); }
    }
  }

  /** The counts of the other pages still fit their places. */
  lemma MoveRefs(s: State, kl: seq<nat>, ul: seq<nat>, w: map<nat, Where>,
                 s': State, kl': seq<nat>, ul': seq<nat>, h: nat, g: Hart, a: nat, x: Where)
    requires WhereOk(s, kl, ul, w) && RefsOk(s, w) && Moves(s, kl, ul, s', kl', ul', h, g, a, x)
    requires forall b :: b in w && b != a ==> RefAt(s', b) == RefAt(s, b)
    requires RefAt(s', a) == Some(Expected(s', x)) && a in w
    ensures RefsOk(s', w[a := x])
  {
    hide RefAt, Page, Listed;
    forall b | b in w[a := x] ensures RefAt(s', b) == Some(Expected(s', w[a := x][b])) {
      if b != a && w[b].Held? { assert w[b].h != h by { assert Holds(s.harts[w[b].h], b); } }
    }
  }

  lemma MoveKeeps(s: State, kl: seq<nat>, ul: seq<nat>, w: map<nat, Where>,
                  s': State, kl': seq<nat>, ul': seq<nat>, h: nat, g: Hart, a: nat, x: Where)
    requires InvWith(s, kl, ul, w) && Moves(s, kl, ul, s', kl', ul', h, g, a, x)
    requires a in w && (w[a].Held? ==> w[a].h == h) && BoundsOk(s')
    requires PoolOk(s'.kernel, s'.link, kl') && PoolOk(s'.user, s'.link, ul')
    requires forall b :: b in w && b != a ==> RefAt(s', b) == RefAt(s, b)
    requires RefAt(s', a) == Some(Expected(s', x))
    ensures Inv(s')
  {
    hide WhereOk, RefsOk, Moves, PoolOk, BoundsOk, RefAt, Expected;
    MovePlaces(s, kl, ul, w, s', kl', ul', h, g, a, x);
    MoveRefs(s, kl, ul, w, s', kl', ul', h, g, a, x);
    assert InvWith(s', kl', ul', w[a := x]);
  }

  // ----- the free lists

  lemma PoolPops(p: Pool, link: map<nat, Option<nat>>, l: seq<nat>)
    requires PoolOk(p, link, l) && p.head.Some?
    ensures l != [] && p.head.value == l[0] && l[0] in link && p.allocable > 0 && PageIn(p, l[0])
    ensures PoolOk(p.(head := link[l[0]], allocable := p.allocable - 1), link, l[1..])
    ensures forall b :: b in l[1..] <==> b in l && b != l[0]
  {
    var m := l[1..];
    forall i | 0 <= i < |m| ensures m[i] == l[i + 1] && m[i] != l[0] {}
    forall b | b in l && b != l[0] ensures b in m {
      var i :| 0 <= i < |l| && l[i] == b;
      assert m[i - 1] == b;
    }
  }

  lemma PoolPushes(p: Pool, link: map<nat, Option<nat>>, l: seq<nat>, a: nat)
    requires PoolOk(p, link, l) && PageIn(p, a) && a !in l
    ensures PoolOk(p.(head := Some(a), allocable := p.allocable + 1), link[a := p.head], [a] + l)
  {
    var m := [a] + l;
    forall i | 0 <= i < |m|
      ensures PageIn(p, m[i]) && m[i] in link[a := p.head] && link[a := p.head][m[i]] == ListAt(m, i + 1)
    {
      if i > 0 { assert m[i] == l[i - 1]; }
    }
  }

  lemma PoolFrame(p: Pool, link: map<nat, Option<nat>>, l: seq<nat>, a: nat, v: Option<nat>)
    requires PoolOk(p, link, l) && a !in l
    ensures PoolOk(p, link[a := v], l)
  {
  }

  // ----- each step keeps the invariant

  lemma WherePage(s: State, kl: seq<nat>, ul: seq<nat>, w: map<nat, Where>, a: nat)
    requires InvWith(s, kl, ul, w)
    ensures a in w <==> Page(s, a)
    ensures a in w ==> Index(a).Some? && Index(a).value < |s.refs| && a % PGSIZE == 0
    ensures a in w ==> (w[a].Listed? <==> a in kl || a in ul) && (w[a].Owned? <==> a in s.owned)
    ensures a in s.owned ==> a in w
    ensures a in w ==> RefAt(s, a) == Some(Expected(s, w[a]))
    ensures PageIn(s.kernel, a) ==> a !in ul
    ensures PageIn(s.user, a) ==> a !in kl
  {
  }

  lemma InHandOf(s: State, kl: seq<nat>, ul: seq<nat>, w: map<nat, Where>, h: nat)
    requires InvWith(s, kl, ul, w) && h in s.harts && !s.harts[h].Idle?
    ensures !s.harts[h].Panicked? && InHand(w, h, s.harts[h].page)
  {
  }

  lemma InvPools(s: State, kl: seq<nat>, ul: seq<nat>, w: map<nat, Where>)
    requires InvWith(s, kl, ul, w)
    ensures BoundsOk(s) && PoolOk(s.kernel, s.link, kl) && PoolOk(s.user, s.link, ul)
  {
  }

  /** Taking the first page of one list, the other being `other`. */
  lemma PopMoves(s: State, h: nat, kernel: bool, l: seq<nat>, other: seq<nat>, l': seq<nat>)
    requires h in s.harts && s.harts[h].Idle? && PoolOf(s, kernel).head.Some? && l != []
    requires l[0] == PoolOf(s, kernel).head.value
    requires l[0] !in other && l[0] !in s.owned && (forall b :: b in l' <==> b in l && b != l[0])
    ensures var s' := Pop(s, h, kernel);
      if kernel then Moves(s, l, other, s', l', other, h, Popped(l[0]), l[0], Held(h))
      else Moves(s, other, l, s', other, l', h, Popped(l[0]), l[0], Held(h))
  {
  }

  lemma PopKeeps(s: State, kl: seq<nat>, ul: seq<nat>, w: map<nat, Where>, h: nat, kernel: bool)
    requires InvWith(s, kl, ul, w) && h in s.harts && s.harts[h].Idle?
    ensures Inv(Pop(s, h, kernel))
  {
    var p, l, other := PoolOf(s, kernel), if kernel then kl else ul, if kernel then ul else kl;
    hide InvWith, PoolOk, Moves, Page, Inv;
    InvPools(s, kl, ul, w);
    if p.head.Some? {
      PoolPops(p, s.link, l);
      WherePage(s, kl, ul, w, l[0]);
      assert Page(s, l[0]) by { OnePage(s, kernel, l[0]); }
      PopMoves(s, h, kernel, l, other, l[1..]);
      var s' := Pop(s, h, kernel);
      if kernel {
        MoveKeeps(s, kl, ul, w, s', l[1..], ul, h, Popped(l[0]), l[0], Held(h));
      } else {
        MoveKeeps(s, kl, ul, w, s', kl, l[1..], h, Popped(l[0]), l[0], Held(h));
      }
    } else {
      assert Inv(s) by { InvOf(s, kl, ul, w); }
    }
  }

  lemma OnePage(s: State, kernel: bool, a: nat)
    requires PageIn(PoolOf(s, kernel), a)
    ensures Page(s, a)
  {
  }

  lemma InvOf(s: State, kl: seq<nat>, ul: seq<nat>, w: map<nat, Where>)
    requires InvWith(s, kl, ul, w)
    ensures Inv(s)
  {
  }

  /** Changing the count of page `a` leaves the counts of all other pages. */
  lemma RefsApart(s: State, s': State, kl: seq<nat>, ul: seq<nat>, w: map<nat, Where>, a: nat, v: nat)
    requires InvWith(s, kl, ul, w) && a in w && Index(a).Some? && Index(a).value < |s.refs|
    requires s'.refs == s.refs[Index(a).value := v]
    ensures RefAt(s', a) == Some(v)
    ensures forall b :: b in w && b != a ==> RefAt(s', b) == RefAt(s, b)
  {
    forall b | b in w && b != a ensures RefAt(s', b) == RefAt(s, b) {
      WherePage(s, kl, ul, w, a);
      WherePage(s, kl, ul, w, b);
      IndexApart(a, b);
    }
  }

  /** The count of a popped page was 0, so counting goes on without a panic. */
  lemma CountMoves(s: State, kl: seq<nat>, ul: seq<nat>, h: nat, a: nat)
    requires h in s.harts && s.harts[h] == Popped(a) && Index(a).Some? && Index(a).value < |s.refs|
    requires s.refs[Index(a).value] == 0 && !Listed(kl, ul, a) && a !in s.owned
    ensures var s' := Count(s, h, a);
      && s'.refs == s.refs[Index(a).value := 1] && s'.kernel == s.kernel && s'.user == s.user && s'.link == s.link
      && BoundsOk(s') == BoundsOk(s) && Moves(s, kl, ul, s', kl, ul, h, Counted(a), a, Held(h))
  {
  }

  lemma CountKeeps(s: State, kl: seq<nat>, ul: seq<nat>, w: map<nat, Where>, h: nat)
    requires InvWith(s, kl, ul, w) && h in s.harts && s.harts[h].Popped?
    ensures Inv(Count(s, h, s.harts[h].page))
  {
    var a := s.harts[h].page;
    var s' := Count(s, h, a);
    InHandOf(s, kl, ul, w, h);
    hide InvWith, PoolOk, Page, Inv, Moves, BoundsOk, Count;
    WherePage(s, kl, ul, w, a);
    InvPools(s, kl, ul, w);
    CountMoves(s, kl, ul, h, a);
    RefsApart(s, s', kl, ul, w, a, 1);
    MoveKeeps(s, kl, ul, w, s', kl, ul, h, Counted(a), a, Held(h));
  }

  lemma ZeroMoves(s: State, kl: seq<nat>, ul: seq<nat>, h: nat, a: nat)
    requires h in s.harts && s.harts[h] == Counted(a) && !Listed(kl, ul, a) && a !in s.owned
    ensures var s' := Zero(s, h, a);
      && s'.refs == s.refs && s'.kernel == s.kernel && s'.user == s.user && s'.link == s.link[a := None]
      && BoundsOk(s') == BoundsOk(s) && Moves(s, kl, ul, s', kl, ul, h, Idle, a, Owned)
  {
  }

  lemma ZeroKeeps(s: State, kl: seq<nat>, ul: seq<nat>, w: map<nat, Where>, h: nat)
    requires InvWith(s, kl, ul, w) && h in s.harts && s.harts[h].Counted?
    ensures Inv(Zero(s, h, s.harts[h].page))
  {
    var a := s.harts[h].page;
    var s' := Zero(s, h, a);
    InHandOf(s, kl, ul, w, h);
    hide InvWith, PoolOk, Page, Inv, Moves, BoundsOk, Zero;
    WherePage(s, kl, ul, w, a);
    InvPools(s, kl, ul, w);
    ZeroMoves(s, kl, ul, h, a);
    PoolFrame(s.kernel, s.link, kl, a, None);
    PoolFrame(s.user, s.link, ul, a, None);
    MoveKeeps(s, kl, ul, w, s', kl, ul, h, Idle, a, Owned);
  }

  /** The count of an owned page was 1, so freeing goes on without a panic. */
  lemma DropMoves(s: State, kl: seq<nat>, ul: seq<nat>, h: nat, a: nat)
    requires h in s.harts && s.harts[h].Idle? && a in s.owned && Page(s, a) && a % PGSIZE == 0 && !Listed(kl, ul, a)
    requires Index(a).Some? && Index(a).value < |s.refs| && s.refs[Index(a).value] == 1
    ensures var s' := Drop(s, h, a);
      && s'.refs == s.refs[Index(a).value := 0] && s'.kernel == s.kernel && s'.user == s.user && s'.link == s.link
      && BoundsOk(s') == BoundsOk(s) && Moves(s, kl, ul, s', kl, ul, h, Dropped(a), a, Held(h))
  {
  }

  lemma DropKeeps(s: State, kl: seq<nat>, ul: seq<nat>, w: map<nat, Where>, h: nat, a: nat)
    requires InvWith(s, kl, ul, w) && h in s.harts && s.harts[h].Idle? && a in s.owned
    ensures Inv(Drop(s, h, a))
  {
    var s' := Drop(s, h, a);
    WherePage(s, kl, ul, w, a);
    hide InvWith, PoolOk, Inv, Moves, BoundsOk, Drop, Page;
    InvPools(s, kl, ul, w);
    DropMoves(s, kl, ul, h, a);
    RefsApart(s, s', kl, ul, w, a, 0);
    MoveKeeps(s, kl, ul, w, s', kl, ul, h, Dropped(a), a, Held(h));
  }

  lemma PushMoves(s: State, h: nat, kernel: bool, l: seq<nat>, other: seq<nat>, a: nat)
    requires h in s.harts && s.harts[h] == Dropped(a) && kernel == Contains(s.kernel, a) && a !in s.owned
    ensures var s' := Push(s, h, a);
      if kernel then Moves(s, l, other, s', [a] + l, other, h, Idle, a, Where.Listed)
      else Moves(s, other, l, s', other, [a] + l, h, Idle, a, Where.Listed)
  {
  }

  lemma PushKeeps(s: State, kl: seq<nat>, ul: seq<nat>, w: map<nat, Where>, h: nat)
    requires InvWith(s, kl, ul, w) && h in s.harts && s.harts[h].Dropped?
    ensures Inv(Push(s, h, s.harts[h].page))
  {
    var a := s.harts[h].page;
    var s' := Push(s, h, a);
    var kernel := Contains(s.kernel, a);
    InHandOf(s, kl, ul, w, h);
    WherePage(s, kl, ul, w, a);
    hide InvWith, PoolOk, Inv, Moves;
    InvPools(s, kl, ul, w);
    assert PageIn(PoolOf(s, kernel), a);
    if kernel {
      PoolPushes(s.kernel, s.link, kl, a);
      PoolFrame(s.user, s.link, ul, a, s.kernel.head);
      PushMoves(s, h, true, kl, ul, a);
      MoveKeeps(s, kl, ul, w, s', [a] + kl, ul, h, Idle, a, Where.Listed);
    } else {
      PoolPushes(s.user, s.link, ul, a);
      PoolFrame(s.kernel, s.link, kl, a, s.user.head);
      PushMoves(s, h, false, ul, kl, a);
      MoveKeeps(s, kl, ul, w, s', kl, [a] + ul, h, Idle, a, Where.Listed);
    }
  }

  lemma WriteKeeps(s: State, kl: seq<nat>, ul: seq<nat>, w: map<nat, Where>, a: nat, v: Option<nat>)
    requires InvWith(s, kl, ul, w) && a in s.owned
    ensures Inv(s.(link := s.link[a := v]))
  {
    var s' := s.(link := s.link[a := v]);
    WherePage(s, kl, ul, w, a);
    PoolFrame(s.kernel, s.link, kl, a, v);
    PoolFrame(s.user, s.link, ul, a, v);
    assert WhereOk(s', kl, ul, w);
    hide PoolOk;
    assert InvWith(s', kl, ul, w);
  }

  /** Every step of every hart keeps the invariant. */
  lemma StepKeeps(s: State, e: Step)
    requires Inv(s) && Enabled(s, e)
    ensures Inv(Apply(s, e))
  {
    var kl, ul, w :| InvWith(s, kl, ul, w);
    hide InvWith, Inv, Pop, Count, Zero, Drop, Push;
    match e
    case AllocPop(h, kernel) => PopKeeps(s, kl, ul, w, h, kernel);
    case AllocCount(h) => CountKeeps(s, kl, ul, w, h);
    case AllocZero(h) => ZeroKeeps(s, kl, ul, w, h);
    case FreeDrop(h, page) => DropKeeps(s, kl, ul, w, h, page);
    case FreePush(h) => PushKeeps(s, kl, ul, w, h);
    case OwnerWrites(page, word) => WriteKeeps(s, kl, ul, w, page, word);
  }

  // ----- runs

  /** The state after a run; None if some step is not enabled. */
  ghost function Run(s: State, steps: seq<Step>): Option<State>
    decreases |steps|
  {
    if steps == [] then Some(s)
    else if Enabled(s, steps[0]) then Run(Apply(s, steps[0]), steps[1..])
    else None
  }

  lemma {:induction false} RunKeeps(s: State, steps: seq<Step>)
    requires Inv(s) && Run(s, steps).Some?
    ensures Inv(Run(s, steps).value)
    decreases |steps|
  {
    if steps != [] {
      StepKeeps(s, steps[0]);
      hide Inv, Apply, Enabled;
      RunKeeps(Apply(s, steps[0]), steps[1..]);
    }
  }

  /** Some hart has page `a` in hand. */
  ghost predicate InFlight(s: State, a: nat) {
    exists h :: h in s.harts && Holds(s.harts[h], a)
  }

  /** The pages of one region that are neither owned nor in flight. */
  ghost function Available(s: State, kernel: bool): set<nat> {
    var p := PoolOf(s, kernel);
    set a: nat | p.begin <= a < p.end && a % PGSIZE == 0 && a !in s.owned && !InFlight(s, a)
  }

  /** Of three conditions exactly one holds. */
  predicate One(a: bool, b: bool, c: bool) {
    (a && !b && !c) || (!a && b && !c) || (!a && !b && c)
  }

  /** Every page is in exactly one place, the counters are the lengths of the lists, and no hart panicked. */
  ghost predicate Sound(s: State, kl: seq<nat>, ul: seq<nat>) {
    && PoolOk(s.kernel, s.link, kl) && PoolOk(s.user, s.link, ul)
    && (forall a: nat :: Page(s, a) ==> One(a in kl || a in ul, InFlight(s, a), a in s.owned))
    && (forall h :: h in s.harts ==> !s.harts[h].Panicked?)
    && (forall g, h :: g in s.harts && h in s.harts && g != h && !s.harts[g].Idle? && !s.harts[h].Idle? ==>
          s.harts[g].page != s.harts[h].page)
    && s.kernel.allocable == |Available(s, true)| && s.user.allocable == |Available(s, false)|
  }

  lemma {:induction false} SeqCard(l: seq<nat>, c: set<nat>)
    requires NoDup(l) && forall a :: a in l <==> a in c
    ensures |l| == |c|
  {
    if l != [] {
      var m, d := l[1..], c - {l[0]};
      forall a ensures a in m <==> a in d {
        if a in d {
          var i :| 0 <= i < |l| && l[i] == a;
          assert m[i - 1] == a;
        }
      }
      SeqCard(m, d);
    } else {
      assert c == {};
    }
  }

  lemma FlightIsHeld(s: State, kl: seq<nat>, ul: seq<nat>, w: map<nat, Where>, a: nat)
    requires InvWith(s, kl, ul, w) && a in w
    ensures InFlight(s, a) <==> w[a].Held?
  {
    if w[a].Held? { assert Holds(s.harts[w[a].h], a); }
    if h :| h in s.harts && Holds(s.harts[h], a) { InHandOf(s, kl, ul, w, h); }
  }

  lemma AvailableListed(s: State, kl: seq<nat>, ul: seq<nat>, w: map<nat, Where>, kernel: bool, a: nat)
    requires InvWith(s, kl, ul, w)
    ensures a in (if kernel then kl else ul) <==> a in Available(s, kernel)
  {
    WherePage(s, kl, ul, w, a);
    InvPools(s, kl, ul, w);
    hide InvWith, InFlight;
    var p := PoolOf(s, kernel);
    assert a in (if kernel then kl else ul) ==> PageIn(p, a);
    if a in w { FlightIsHeld(s, kl, ul, w, a); }
    if PageIn(p, a) { OnePage(s, kernel, a); }
  }

  lemma InvSound(s: State, kl: seq<nat>, ul: seq<nat>, w: map<nat, Where>)
    requires InvWith(s, kl, ul, w)
    ensures Sound(s, kl, ul)
  {
    hide InvWith, WhereOk, RefsOk, BoundsOk, InFlight, Available, Page;
    InvPools(s, kl, ul, w);
    forall a: nat | Page(s, a) ensures One(a in kl || a in ul, InFlight(s, a), a in s.owned) {
      WherePage(s, kl, ul, w, a);
      FlightIsHeld(s, kl, ul, w, a);
    }
    forall h | h in s.harts && !s.harts[h].Idle? ensures !s.harts[h].Panicked? && InHand(w, h, s.harts[h].page) {
      InHandOf(s, kl, ul, w, h);
    }
    forall a ensures a in kl <==> a in Available(s, true) { AvailableListed(s, kl, ul, w, true, a); }
    forall a ensures a in ul <==> a in Available(s, false) { AvailableListed(s, kl, ul, w, false, a); }
    SeqCard(kl, Available(s, true));
    SeqCard(ul, Available(s, false));
  }

  /** Whatever any number of harts do, from a state in order: no panic, and every page in exactly one place. */
  lemma Safe(s: State, steps: seq<Step>)
    requires Inv(s) && Run(s, steps).Some?
    ensures exists kl, ul :: Sound(Run(s, steps).value, kl, ul)
  {
    RunKeeps(s, steps);
    var t := Run(s, steps).value;
    var kl, ul, w :| InvWith(t, kl, ul, w);
    InvSound(t, kl, ul, w);
  }

  // ----- start-up

  const KERN_PAGES := 8192

  /** The pages from `first` up to `current`. */
  predicate InSpan(first: nat, current: nat, a: nat) {
    first <= a < current && a % PGSIZE == 0
  }

  lemma NextPage(first: nat, current: nat, a: nat)
    requires first % PGSIZE == 0 && current % PGSIZE == 0 && first <= current
    ensures InSpan(first, current + PGSIZE, a) <==> a == current || InSpan(first, current, a)
  {
  }

  lemma LastPage(first: nat, current: nat, last: nat, a: nat)
    requires first % PGSIZE == 0 && current % PGSIZE == 0 && last % PGSIZE == 0 && current + PGSIZE > last
    requires first <= current <= last || first == current
    ensures InSpan(first, current, a) <==> InSpan(first, last, a)
  {
  }

  /** The pages up to `current` are linked into the list `l`, and no other word changed. */
  ghost predicate Built(first: nat, last: nat, current: nat, head: Option<nat>, count: nat,
                        link0: map<nat, Option<nat>>, link: map<nat, Option<nat>>, l: seq<nat>) {
    && PoolOk(Pool(first, last, head, count), link, l)
    && (forall a :: a in l <==> InSpan(first, current, a))
    && (forall a :: a in link0 && !InSpan(first, current, a) ==> a in link && link[a] == link0[a])
  }

  lemma BuildStart(first: nat, last: nat, link0: map<nat, Option<nat>>)
    ensures Built(first, last, first, None, 0, link0, link0, [])
  {
  }

  lemma BuildStep(first: nat, last: nat, current: nat, head: Option<nat>, count: nat,
                  link0: map<nat, Option<nat>>, link: map<nat, Option<nat>>, l: seq<nat>)
    requires Built(first, last, current, head, count, link0, link, l)
    requires first % PGSIZE == 0 && current % PGSIZE == 0 && first <= current && current + PGSIZE <= last
    ensures Built(first, last, current + PGSIZE, Some(current), count + 1, link0, link[current := head], [current] + l)
  {
    EmptySpan(first, current);
    assert current !in l;
    PoolPushes(Pool(first, last, head, count), link, l, current);
    forall a ensures InSpan(first, current + PGSIZE, a) <==> a == current || InSpan(first, current, a) {
      NextPage(first, current, a);
    }
    hide PoolOk, InSpan;
  }

  lemma BuildEnd(first: nat, last: nat, current: nat, head: Option<nat>, count: nat,
                 link0: map<nat, Option<nat>>, link: map<nat, Option<nat>>, l: seq<nat>)
    requires Built(first, last, current, head, count, link0, link, l)
    requires first % PGSIZE == 0 && current % PGSIZE == 0 && last % PGSIZE == 0 && current + PGSIZE > last
    requires first <= current <= last || first == current
    ensures var p := Pool(first, last, head, count);
      && PoolOk(p, link, l) && (forall a :: a in l <==> PageIn(p, a))
      && (forall a :: a in link0 && !PageIn(p, a) ==> a in link && link[a] == link0[a])
  {
    var p := Pool(first, last, head, count);
    forall a ensures InSpan(first, current, a) <==> PageIn(p, a) {
      LastPage(first, current, last, a);
      SpanPage(p, a);
    }
    hide PoolOk, InSpan, PageIn;
  }

  /** `AllocRegion::init`: every whole page between the bounds is linked in, the last one first. */
  method InitRegion(begin: nat, end: nat, link0: map<nat, Option<nat>>)
    returns (p: Pool, link: map<nat, Option<nat>>, ghost l: seq<nat>)
    ensures p.begin == AlignUp(begin) && p.end == AlignDown(end) && PoolOk(p, link, l)
    ensures forall a :: a in l <==> PageIn(p, a)
    ensures forall a :: a in link0 && !PageIn(p, a) ==> a in link && link[a] == link0[a]
  {
    hide PoolOk, PageIn, Built, AlignUp, AlignDown;
    var first, last := AlignUp(begin), AlignDown(end);
    var head: Option<nat> := None;
    var count, current := 0, first;
    link, l := link0, [];
    BuildStart(first, last, link0);
    while current + PGSIZE <= last
      invariant current % PGSIZE == 0 && first <= current && (current <= last || current == first)
      invariant Built(first, last, current, head, count, link0, link, l)
    {
      BuildStep(first, last, current, head, count, link0, link, l);
      link := link[current := head];
      head, l := Some(current), [current] + l;
      count := count + 1;
      current := current + PGSIZE;
    }
    BuildEnd(first, last, current, head, count, link0, link, l);
    p := Pool(first, last, head, count);
  }

  lemma EmptySpan(first: nat, a: nat)
    ensures !InSpan(first, a, a) && !InSpan(first, first, a)
  {
  }

  lemma SpanPage(p: Pool, a: nat)
    ensures InSpan(p.begin, p.end, a) <==> PageIn(p, a)
  {
  }

  lemma InitInv(s: State, kl: seq<nat>, ul: seq<nat>)
    requires BoundsOk(s) && PoolOk(s.kernel, s.link, kl) && PoolOk(s.user, s.link, ul) && s.owned == {}
    requires (forall a :: a in kl <==> PageIn(s.kernel, a)) && (forall a :: a in ul <==> PageIn(s.user, a))
    requires (forall h :: h in s.harts ==> s.harts[h].Idle?) && (forall i :: 0 <= i < |s.refs| ==> s.refs[i] == 0)
    ensures Inv(s)
  {
    var w := map a | a in kl + ul :: Where.Listed;
    hide PoolOk;
    assert WhereOk(s, kl, ul, w);
    assert InvWith(s, kl, ul, w);
  }

  lemma PoolKept(p: Pool, link: map<nat, Option<nat>>, link': map<nat, Option<nat>>, l: seq<nat>)
    requires PoolOk(p, link, l) && forall a :: a in link && a in l ==> a in link' && link'[a] == link[a]
    ensures PoolOk(p, link', l)
  {
  }

  /** Cutting the memory at `split` loses no whole page. */
  lemma BootPages(k: Pool, u: Pool, begin: nat, split: nat, end: nat, a: nat)
    requires begin % PGSIZE == 0 && begin <= split <= end && (split % PGSIZE == 0 || split == end)
    requires k.begin == AlignUp(begin) && k.end == AlignDown(split) && u.begin == AlignUp(split)
    requires u.end == AlignDown(end)
    ensures k.begin == begin && k.end <= u.begin && !(PageIn(k, a) && PageIn(u, a)) && (PageIn(k, a) ==> a < split)
    ensures PageIn(k, a) || PageIn(u, a) <==> a % PGSIZE == 0 && begin <= a && a + PGSIZE <= end
  {
    if PageIn(k, a) { Whole(a, split); }
    if PageIn(u, a) { Whole(a, end); }
    if a % PGSIZE == 0 && a + PGSIZE <= end { Whole(a, end); }
    if a % PGSIZE == 0 && a < split { Whole(a, split); }
  }

  /** A page starts below an address rounded down exactly when it ends at or before the address. */
  lemma Whole(a: nat, end: nat)
    requires a % PGSIZE == 0
    ensures a < AlignDown(end) <==> a + PGSIZE <= end
    ensures end % PGSIZE == 0 ==> (a < end <==> a + PGSIZE <= end)
  {
  }

  /**
    `initialize_regions`: splits the free memory into the two regions; every whole page of it belongs to exactly one of
    them, and the allocator starts in order.
  */
  method Initialize(allocBegin: nat, memEnd: nat, link0: map<nat, Option<nat>>, harts: map<nat, Hart>)
    returns (s: State)
    requires PHY_MEM_START <= allocBegin <= memEnd <= PHY_MEM_START + TOTAL_PAGES * PGSIZE && allocBegin % PGSIZE == 0
    requires forall h :: h in harts ==> harts[h].Idle?
    ensures Inv(s) && s.owned == {} && s.harts == harts
    ensures forall a: nat :: Page(s, a) <==> a % PGSIZE == 0 && allocBegin <= a && a + PGSIZE <= memEnd
    ensures forall a: nat :: PageIn(s.kernel, a) ==> !PageIn(s.user, a) && a < allocBegin + KERN_PAGES * PGSIZE
  {
    var split := AlignUp(allocBegin + KERN_PAGES * PGSIZE);
    if split > memEnd { split := memEnd; }
    assert split <= allocBegin + KERN_PAGES * PGSIZE;
    var kernel, link1, user, link2;
    ghost var kl, ul;
    kernel, link1, kl := InitRegion(allocBegin, split, link0);
    user, link2, ul := InitRegion(split, memEnd, link1);
    s := State(kernel, user, link2, seq(TOTAL_PAGES, _ => 0), harts, {});
    hide PoolOk, PageIn, AlignUp, AlignDown;
    forall a: nat
      ensures !(PageIn(kernel, a) && PageIn(user, a)) && (PageIn(kernel, a) ==> a < split)
      ensures PageIn(kernel, a) || PageIn(user, a) <==> a % PGSIZE == 0 && allocBegin <= a && a + PGSIZE <= memEnd
    {
      BootPages(kernel, user, allocBegin, split, memEnd, a);
    }
    PoolKept(kernel, link1, link2, kl);
    BootPages(kernel, user, allocBegin, split, memEnd, 0);
    InitInv(s, kl, ul);
  }
}
