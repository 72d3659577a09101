/**
  `PageTable::destroy` (kernel/src/mem/pagetable.rs): every user-pool page and every inner table is freed exactly once,
  the root stays and becomes empty.  Progress is measured by the order in which the recursion visits the tree.
*/
module PageDestroy {
  import opened Base
  import opened Sv39
  import opened PageTree
  import opened PageTable

  const S0 := 513
  const S1 := 262657 // PGNUM * S0 + 1

  /** The position of a place in the visiting order: a table comes after everything below it. */
  function Rank(p: Place): int {
    match p
    case Slot(i, j, k) => i * S1 + j * S0 + k
    case N0(i, j) => i * S1 + j * S0 + PGNUM
    case N1(i) => i * S1 + PGNUM * S0
    case Root => PGNUM * S1
  }

  function FirstRank(p: Place): int {
    match p
    case Slot(i, j, k) => i * S1 + j * S0 + k
    case N0(i, j) => i * S1 + j * S0
    case N1(i) => i * S1
    case Root => 0
  }

  lemma ChildRanks(p: Place, x: nat)
    requires !p.Slot?
    ensures FirstRank(Child(p, 0)) == FirstRank(p) && FirstRank(Child(p, PGNUM)) == Rank(p)
    ensures FirstRank(Child(p, x + 1)) == Rank(Child(p, x)) + 1
  {
  }

  lemma RankInjective(p: Place, q: Place)
    requires ValidPlace(p) && ValidPlace(q) && Rank(p) == Rank(q)
    ensures p == q
  {
  }

  lemma RankBound(p: Place)
    requires ValidPlace(p) && !p.Root?
    ensures 0 <= Rank(p) < Rank(Root)
  {
  }

  /** Between the first and the last rank of a node there are only the node and the places below it. */
  lemma Between(p: Place, q: Place)
    requires ValidPlace(p) && ValidPlace(q) && !q.Root? && !p.Root? && FirstRank(p) <= Rank(q) <= Rank(p)
    ensures q == p || Below(q, p)
  {
  }

  /** Every user-pool page of the tree is allocated, and none is mapped twice. */
  ghost predicate OwnsUser(r: Regions, t: Tables, pg: Pages, root: nat) {
    && (forall p :: UserSlot(r, t, root, p) ==> PteToPa(Ent(t, root, p)) in pg)
    && (forall p, q :: (UserSlot(r, t, root, p) && UserSlot(r, t, root, q)
                        && PteToPa(Ent(t, root, p)) == PteToPa(Ent(t, root, q))) ==> p == q)
  }

  /** Slot `p` maps a user-pool page. */
  ghost predicate UserSlot(r: Regions, t: Tables, root: nat, p: Place) {
    ValidPlace(p) && p.Slot? && IsValid(Ent(t, root, p)) && InUser(r, PteToPa(Ent(t, root, p)))
  }

  ghost predicate GonePage(r: Regions, t: Tables, root: nat, k: int, f: nat) {
    exists p :: UserSlot(r, t, root, p) && Rank(p) < k && PteToPa(Ent(t, root, p)) == f
  }

  ghost predicate GoneTable(t: Tables, root: nat, k: int, f: nat) {
    f != 0 && exists p :: ValidPlace(p) && (p.N1? || p.N0?) && Rank(p) < k && Frame(t, root, p) == f
  }

  /** Entry `x` of node `p` while ranks below `k` are done. */
  ghost predicate EntryNow(t0: Tables, t: Tables, root: nat, k: int, p: Place, x: nat)
    requires !p.Slot?
  {
    var f := Frame(t0, root, p);
    Word(t, f, x) == if Rank(Child(p, x)) < k && IsValid(Word(t0, f, x)) then 0 else Word(t0, f, x)
  }

  /** Which tables are still there while ranks below `k` are done. */
  ghost predicate TablesNow(t0: Tables, t: Tables, root: nat, k: int) {
    && (forall f :: f in t <==> f in t0 && !GoneTable(t0, root, k, f))
    && (forall f :: f in t ==> |t[f]| == PGNUM)
    && (forall f :: f in t && !InTree(t0, root, f) ==> t[f] == t0[f])
  }

  ghost predicate EntriesNow(t0: Tables, t: Tables, root: nat, k: int) {
    forall p, x :: ValidPlace(p) && !p.Slot? && Frame(t0, root, p) in t && 0 <= x < PGNUM ==>
      EntryNow(t0, t, root, k, p, x)
  }

  ghost predicate PagesNow(r: Regions, t0: Tables, pg0: Pages, pg: Pages, root: nat, k: int) {
    && (forall f :: f in pg <==> f in pg0 && !GonePage(r, t0, root, k, f))
    && (forall f :: f in pg ==> pg[f] == pg0[f])
  }

  /** The memory while the tree at `root` (as it is in `t0`, `pg0`) is being destroyed: ranks below `k` are done. */
  ghost predicate Destroying(r: Regions, t0: Tables, pg0: Pages, t: Tables, pg: Pages, root: nat, k: int) {
    TablesNow(t0, t, root, k) && EntriesNow(t0, t, root, k) && PagesNow(r, t0, pg0, pg, root, k)
  }

  lemma DestroyStart(r: Regions, t: Tables, pg: Pages, root: nat)
    requires TreeInv(t, root)
    ensures Destroying(r, t, pg, t, pg, root, 0)
  {
    forall p | ValidPlace(p) && !p.Root? ensures Rank(p) >= 0 { RankBound(p); }
    forall p, x | ValidPlace(p) && !p.Slot? && 0 <= x < PGNUM ensures EntryNow(t, t, root, 0, p, x) {
      RankBound(Child(p, x));
    }
  }

  /** Ranks at which the tree has nothing can be skipped. */
  lemma SkipRanks(r: Regions, t0: Tables, pg0: Pages, t: Tables, pg: Pages, root: nat, k: int, k': int)
    requires TreeInv(t0, root) && Destroying(r, t0, pg0, t, pg, root, k) && k <= k'
    requires forall p :: ValidPlace(p) && !p.Root? && k <= Rank(p) < k' ==> !IsValid(Ent(t0, root, p))
    ensures Destroying(r, t0, pg0, t, pg, root, k')
  {
    forall f ensures GoneTable(t0, root, k', f) == GoneTable(t0, root, k, f) {}
    forall f ensures GonePage(r, t0, root, k', f) == GonePage(r, t0, root, k, f) {}
    forall p, x | ValidPlace(p) && !p.Slot? && Frame(t0, root, p) in t && 0 <= x < PGNUM
      ensures EntryNow(t0, t, root, k', p, x)
    {
      assert EntryNow(t0, t, root, k, p, x);
      assert Ent(t0, root, Child(p, x)) == Word(t0, Frame(t0, root, p), x);
    }
  }

  /** An empty entry: the place and everything below it is skipped. */
  lemma SkipPlace(r: Regions, t0: Tables, pg0: Pages, t: Tables, pg: Pages, root: nat, p: Place)
    requires TreeInv(t0, root) && Destroying(r, t0, pg0, t, pg, root, FirstRank(p))
    requires ValidPlace(p) && !p.Root? && !IsValid(Ent(t0, root, p))
    ensures Destroying(r, t0, pg0, t, pg, root, Rank(p) + 1)
  {
    forall q | ValidPlace(q) && !q.Root? && FirstRank(p) <= Rank(q) < Rank(p) + 1 ensures !IsValid(Ent(t0, root, q)) {
      Between(p, q);
      if q != p { NothingBelow(t0, root, p, q); }
    }
    SkipRanks(r, t0, pg0, t, pg, root, FirstRank(p), Rank(p) + 1);
  }

  lemma ParentLater(p: Place)
    requires ValidPlace(p) && !p.Root?
    ensures Rank(p) < Rank(Parent(p)) && ValidPlace(Parent(p)) && Index(p) < PGNUM && p == Child(Parent(p), Index(p))
  {
  }

  /** Only one node has the rank of `p`, or a given frame. */
  lemma OnlyNode(t0: Tables, root: nat, p: Place, q: Place)
    requires TreeInv(t0, root) && ValidPlace(p) && ValidPlace(q) && !p.Slot? && !q.Slot?
    requires Frame(t0, root, p) == Frame(t0, root, q) && Frame(t0, root, p) in t0
    ensures p == q
  {
  }

  /** A table whose rank is not yet reached is still there. */
  lemma NodeThere(t0: Tables, t: Tables, root: nat, k: int, n: Place)
    requires TreeInv(t0, root) && TablesNow(t0, t, root, k) && ValidPlace(n) && !n.Slot? && k <= Rank(n)
    requires Frame(t0, root, n) in t0
    ensures Frame(t0, root, n) in t && |t[Frame(t0, root, n)]| == PGNUM && InTree(t0, root, Frame(t0, root, n))
  {
    hide Rank, Ent, Frame, TreeInv;
    var f := Frame(t0, root, n);
    assert f != 0 by { NoZeroFrame(t0, root); }
    if GoneTable(t0, root, k, f) {
      var q :| ValidPlace(q) && (q.N1? || q.N0?) && Rank(q) < k && Frame(t0, root, q) == f;
      OnlyNode(t0, root, n, q);
      assert false;
    }
  }

  lemma NoZeroFrame(t: Tables, root: nat)
    requires TreeInv(t, root)
    ensures 0 !in t
  {
  }

  /** The entry of a place not yet reached is as it was. */
  lemma StillThere(t0: Tables, t: Tables, root: nat, k: int, p: Place)
    requires TreeInv(t0, root) && TablesNow(t0, t, root, k) && EntriesNow(t0, t, root, k)
    requires ValidPlace(p) && !p.Root? && k <= Rank(p) && Frame(t0, root, Parent(p)) in t0
    ensures var f := Frame(t0, root, Parent(p));
      f in t && |t[f]| == PGNUM && Index(p) < PGNUM && t[f][Index(p)] == Ent(t0, root, p)
  {
    hide Rank, TreeInv;
    ParentLater(p);
    NodeThere(t0, t, root, k, Parent(p));
    assert EntryNow(t0, t, root, k, Parent(p), Index(p));
  }

  /** After the entry at `p` was cleared (and perhaps a table removed), its rank is done for all entries. */
  lemma ClearedEntries(t0: Tables, t: Tables, t': Tables, root: nat, p: Place)
    requires TreeInv(t0, root) && EntriesNow(t0, t, root, Rank(p)) && ValidPlace(p) && !p.Root?
    requires IsValid(Ent(t0, root, p)) && Frame(t0, root, Parent(p)) in t0 && t'.Keys <= t.Keys
    requires forall f, x :: f in t' && 0 <= x < PGNUM ==>
      Word(t', f, x) == if f == Frame(t0, root, Parent(p)) && x == Index(p) then 0 else Word(t, f, x)
    ensures EntriesNow(t0, t', root, Rank(p) + 1)
  {
    hide Rank, TreeInv, Frame;
    var f := Frame(t0, root, Parent(p));
    ParentLater(p);
    var k := Rank(p) + 1;
    forall q, x | ValidPlace(q) && !q.Slot? && Frame(t0, root, q) in t' && 0 <= x < PGNUM
      ensures EntryNow(t0, t', root, k, q, x)
    {
      assert EntryNow(t0, t, root, Rank(p), q, x);
      if Frame(t0, root, q) == f { OnlyNode(t0, root, Parent(p), q); }
      assert ValidPlace(Child(q, x));
      if Rank(Child(q, x)) == Rank(p) { RankInjective(Child(q, x), p); }
    }
  }

  /** A slot is no table: the tables stay. */
  lemma SlotTables(t0: Tables, t: Tables, root: nat, p: Place)
    requires TreeInv(t0, root) && TablesNow(t0, t, root, Rank(p)) && ValidPlace(p) && p.Slot?
    requires Frame(t0, root, Parent(p)) in t
    ensures TablesNow(t0, SetWord(t, Frame(t0, root, Parent(p)), Index(p), 0), root, Rank(p) + 1)
  {
    hide Rank, Frame, TreeInv;
    NoZeroFrame(t0, root);
    NodeInTree(t0, root, Parent(p));
    forall g | GoneTable(t0, root, Rank(p) + 1, g) ensures GoneTable(t0, root, Rank(p), g) {
      var q :| ValidPlace(q) && (q.N1? || q.N0?) && Rank(q) < Rank(p) + 1 && Frame(t0, root, q) == g;
      if Rank(q) == Rank(p) { RankInjective(p, q); }
    }
  }

  lemma NodeInTree(t: Tables, root: nat, p: Place)
    requires TreeInv(t, root) && ValidPlace(p) && !p.Slot? && Frame(t, root, p) != 0
    ensures InTree(t, root, Frame(t, root, p))
  {
  }

  /** The user-pool page of a slot is still allocated; freeing it completes the slot's rank. */
  lemma SlotPages(r: Regions, t0: Tables, pg0: Pages, pg: Pages, root: nat, p: Place)
    requires OwnsUser(r, t0, pg0, root) && PagesNow(r, t0, pg0, pg, root, Rank(p))
    requires ValidPlace(p) && p.Slot? && IsValid(Ent(t0, root, p))
    ensures var a := PteToPa(Ent(t0, root, p));
      && (InUser(r, a) ==> a in pg)
      && PagesNow(r, t0, pg0, if InUser(r, a) then pg - {a} else pg, root, Rank(p) + 1)
  {
    hide Rank, Ent, PteToPa;
    var a := PteToPa(Ent(t0, root, p));
    forall g
      ensures GonePage(r, t0, root, Rank(p) + 1, g) == (GonePage(r, t0, root, Rank(p), g) || (InUser(r, a) && g == a))
    {
      PageGone(r, t0, root, p, g);
    }
    if InUser(r, a) {
      assert UserSlot(r, t0, root, p);
      assert !GonePage(r, t0, root, Rank(p), a);
    }
  }

  lemma PageGone(r: Regions, t0: Tables, root: nat, p: Place, g: nat)
    requires ValidPlace(p) && p.Slot? && IsValid(Ent(t0, root, p))
    ensures GonePage(r, t0, root, Rank(p) + 1, g) ==
      (GonePage(r, t0, root, Rank(p), g) || (InUser(r, PteToPa(Ent(t0, root, p))) && g == PteToPa(Ent(t0, root, p))))
  {
    hide Rank, Ent, PteToPa;
    if GonePage(r, t0, root, Rank(p) + 1, g) {
      var q :| UserSlot(r, t0, root, q) && Rank(q) < Rank(p) + 1 && PteToPa(Ent(t0, root, q)) == g;
      if Rank(q) == Rank(p) { RankInjective(p, q); }
    }
    if InUser(r, PteToPa(Ent(t0, root, p))) { assert UserSlot(r, t0, root, p); }
  }

  /** A leaf entry: its user-pool page is still allocated and is freed, and the entry is cleared. */
  lemma LeafStep(r: Regions, t0: Tables, pg0: Pages, t: Tables, pg: Pages, root: nat, p: Place)
    requires TreeInv(t0, root) && OwnsUser(r, t0, pg0, root) && Destroying(r, t0, pg0, t, pg, root, Rank(p))
    requires ValidPlace(p) && p.Slot? && IsValid(Ent(t0, root, p)) && Frame(t0, root, Parent(p)) in t0
    ensures var f, a := Frame(t0, root, Parent(p)), PteToPa(Ent(t0, root, p));
      && f in t && |t[f]| == PGNUM && Index(p) < PGNUM
      && (InUser(r, a) ==> a in pg)
      && Destroying(r, t0, pg0, SetWord(t, f, Index(p), 0), if InUser(r, a) then pg - {a} else pg, root, Rank(p) + 1)
  {
    hide Rank, Ent, Frame, TreeInv, TablesNow, EntriesNow, PagesNow, OwnsUser, PteToPa;
    StillThere(t0, t, root, Rank(p), p);
    SlotTables(t0, t, root, p);
    SlotPages(r, t0, pg0, pg, root, p);
    ClearedEntries(t0, t, SetWord(t, Frame(t0, root, Parent(p)), Index(p), 0), root, p);
  }

  /** A table entry whose subtree is done: the table is freed and the entry is cleared. */
  lemma NodeStep(r: Regions, t0: Tables, pg0: Pages, t: Tables, pg: Pages, root: nat, p: Place)
    requires TreeInv(t0, root) && Destroying(r, t0, pg0, t, pg, root, Rank(p))
    requires ValidPlace(p) && (p.N1? || p.N0?) && IsValid(Ent(t0, root, p)) && Frame(t0, root, Parent(p)) in t0
    requires Frame(t0, root, p) in t0
    ensures var f, c := Frame(t0, root, Parent(p)), Frame(t0, root, p);
      && f in t && |t[f]| == PGNUM && Index(p) < PGNUM && c in t && c != f
      && Destroying(r, t0, pg0, SetWord(t - {c}, f, Index(p), 0), pg, root, Rank(p) + 1)
  {
    hide Rank, Ent, Frame, TreeInv, TablesNow, EntriesNow, PagesNow, PteToPa;
    var f, c := Frame(t0, root, Parent(p)), Frame(t0, root, p);
    StillThere(t0, t, root, Rank(p), p);
    NodeThere(t0, t, root, Rank(p), p);
    ParentLater(p);
    if c == f { OnlyNode(t0, root, p, Parent(p)); }
    NodeTables(t0, t, root, p);
    NodePages(r, t0, pg0, pg, root, p);
    ClearedEntries(t0, t, SetWord(t - {c}, f, Index(p), 0), root, p);
  }

  lemma NodeTables(t0: Tables, t: Tables, root: nat, p: Place)
    requires TreeInv(t0, root) && TablesNow(t0, t, root, Rank(p)) && ValidPlace(p) && (p.N1? || p.N0?)
    requires Frame(t0, root, Parent(p)) in t && Frame(t0, root, p) in t
    requires Frame(t0, root, p) != Frame(t0, root, Parent(p))
    requires Index(p) < PGNUM && |t[Frame(t0, root, Parent(p))]| == PGNUM
    ensures TablesNow(t0, SetWord(t - {Frame(t0, root, p)}, Frame(t0, root, Parent(p)), Index(p), 0), root, Rank(p) + 1)
  {
    hide Rank, Frame, TreeInv;
    var c := Frame(t0, root, p);
    NoZeroFrame(t0, root);
    NodeInTree(t0, root, Parent(p));
    forall g ensures GoneTable(t0, root, Rank(p) + 1, g) == (GoneTable(t0, root, Rank(p), g) || g == c) {
      if GoneTable(t0, root, Rank(p) + 1, g) {
        var q :| ValidPlace(q) && (q.N1? || q.N0?) && Rank(q) < Rank(p) + 1 && Frame(t0, root, q) == g;
        if Rank(q) == Rank(p) { RankInjective(p, q); }
      }
    }
  }

  lemma NodePages(r: Regions, t0: Tables, pg0: Pages, pg: Pages, root: nat, p: Place)
    requires PagesNow(r, t0, pg0, pg, root, Rank(p)) && ValidPlace(p) && !p.Slot?
    ensures PagesNow(r, t0, pg0, pg, root, Rank(p) + 1)
  {
    hide Rank, Ent, PteToPa;
    forall g | GonePage(r, t0, root, Rank(p) + 1, g) ensures GonePage(r, t0, root, Rank(p), g) {
      var q :| UserSlot(r, t0, root, q) && Rank(q) < Rank(p) + 1 && PteToPa(Ent(t0, root, q)) == g;
      if Rank(q) == Rank(p) { RankInjective(p, q); }
    }
  }

  /** In a table not yet visited the entries say what they said: leaves in slots, tables above. */
  lemma EntryKind(t0: Tables, root: nat, p: Place)
    requires TreeInv(t0, root) && ValidPlace(p) && !p.Root?
    ensures IsValid(Ent(t0, root, p)) ==>
      if p.Slot? then Sv39.IsLeaf(Ent(t0, root, p))
      else !Sv39.IsLeaf(Ent(t0, root, p)) && Frame(t0, root, p) == PteToPa(Ent(t0, root, p)) && Frame(t0, root, p) in t0
  {
  }

  /**
    `destroy_level`: frees everything below the table of `node`.  The recursion ends because a valid entry of the lowest
    level is always a leaf.
  */
  method DestroyLevel(m: Memory, table: nat, ghost node: Place, ghost t0: Tables, ghost pg0: Pages, ghost root: nat)
    requires m.Valid() && TreeInv(t0, root) && OwnsUser(m.rg, t0, pg0, root) && ValidPlace(node) && !node.Slot?
    requires table == Frame(t0, root, node) && table in t0
    requires Destroying(m.rg, t0, pg0, m.tables, m.pages, root, FirstRank(node))
    modifies m`tables, m`pages, m`kfree, m`ufree
    ensures m.Valid() && Destroying(m.rg, t0, pg0, m.tables, m.pages, root, Rank(node))
    decreases 3 - Depth(node)
  {
    hide MemInv, Ent, Frame, TreeInv, Destroying, OwnsUser, Rank, FirstRank, SetWord, PteToPa;
    ChildRanks(node, 0);
    for x := 0 to PGNUM
      invariant m.Valid() && Destroying(m.rg, t0, pg0, m.tables, m.pages, root, FirstRank(Child(node, x)))
    {
      ghost var p := Child(node, x);
      ChildRanks(node, x);
      EntryKind(t0, root, p);
      DestroyingThere(m.rg, t0, pg0, m.tables, m.pages, root, p);
      var pte := m.tables[table][x];
      if !IsValid(pte) {
        SkipPlace(m.rg, t0, pg0, m.tables, m.pages, root, p);
      } else if Sv39.IsLeaf(pte) {
        SlotRank(p);
        LeafStep(m.rg, t0, pg0, m.tables, m.pages, root, p);
        var pa := PteToPa(pte);
        if GetRegion(m.rg, pa) == Some(false) {
          UserNotKernel(m.rg, pa);
          m.FreePage(pa);
        } else {
          NotUser(m.rg, pa);
        }
        SetWordKeeps(m.rg, m.tables, m.pages, m.kfree, m.ufree, table, x, 0);
        m.tables := SetWord(m.tables, table, x, 0);
      } else {
        var child := PteToPa(pte);
        DestroyLevel(m, child, p, t0, pg0, root);
        NodeStep(m.rg, t0, pg0, m.tables, m.pages, root, p);
        FreeTableKeeps(m.rg, m.tables, m.pages, m.kfree, m.ufree, child);
        m.kfree := [child] + m.kfree;
        m.tables := m.tables - {child};
        SetWordKeeps(m.rg, m.tables, m.pages, m.kfree, m.ufree, table, x, 0);
        m.tables := SetWord(m.tables, table, x, 0);
      }
    }
    ChildRanks(node, 0);
  }

  lemma DestroyingThere(r: Regions, t0: Tables, pg0: Pages, t: Tables, pg: Pages, root: nat, p: Place)
    requires TreeInv(t0, root) && Destroying(r, t0, pg0, t, pg, root, FirstRank(p)) && ValidPlace(p) && !p.Root?
    requires Frame(t0, root, Parent(p)) in t0
    ensures var f := Frame(t0, root, Parent(p));
      f in t && |t[f]| == PGNUM && Index(p) < PGNUM && t[f][Index(p)] == Ent(t0, root, p)
  {
    StillThere(t0, t, root, FirstRank(p), p);
  }

  lemma SlotRank(p: Place)
    ensures p.Slot? ==> FirstRank(p) == Rank(p)
  {
  }

  lemma UserNotKernel(r: Regions, pa: nat)
    requires GetRegion(r, pa) == Some(false)
    ensures InUser(r, pa) && !InKernel(r, pa)
  {
  }

  lemma NotUser(r: Regions, pa: nat)
    requires GetRegion(r, pa) != Some(false)
    ensures !InUser(r, pa)
  {
  }

  /** Frame `f` is a user-pool page that the tree maps. */
  ghost predicate UserLeaf(r: Regions, t: Tables, root: nat, f: nat) {
    exists p :: UserSlot(r, t, root, p) && PteToPa(Ent(t, root, p)) == f
  }

  /** What `destroy` leaves: all tables but the root and all mapped user pages are gone, everything else is kept. */
  ghost predicate Destroyed(r: Regions, t0: Tables, pg0: Pages, t: Tables, pg: Pages, root: nat) {
    && root in t && |t[root]| == PGNUM && (forall x :: 0 <= x < PGNUM ==> !IsValid(t[root][x]))
    && (forall f :: f in t <==> f in t0 && (f == root || !InTree(t0, root, f)))
    && (forall f :: f in t && f != root ==> t[f] == t0[f])
    && (forall f :: f in pg <==> f in pg0 && !UserLeaf(r, t0, root, f))
    && (forall f :: f in pg ==> pg[f] == pg0[f])
  }

  lemma DestroyDone(r: Regions, t0: Tables, pg0: Pages, t: Tables, pg: Pages, root: nat)
    requires TreeInv(t0, root) && Destroying(r, t0, pg0, t, pg, root, Rank(Root))
    ensures Destroyed(r, t0, pg0, t, pg, root)
  {
    hide Ent, PteToPa, Rank;
    forall p | ValidPlace(p) && !p.Root? ensures Rank(p) < Rank(Root) { RankBound(p); }
    forall f ensures GonePage(r, t0, root, Rank(Root), f) == UserLeaf(r, t0, root, f) {}
    RootFrame(t0, root);
    NodeThere(t0, t, root, Rank(Root), Root);
    forall x | 0 <= x < PGNUM ensures !IsValid(t[root][x]) {
      assert EntryNow(t0, t, root, Rank(Root), Root, x);
      RankBound(Child(Root, x));
    }
    GoneTables(t0, root);
  }

  /** Once all ranks are done, the tables that are gone are those of the tree without its root. */
  lemma GoneTables(t0: Tables, root: nat)
    requires TreeInv(t0, root)
    ensures forall f :: f in t0 ==> (GoneTable(t0, root, Rank(Root), f) <==> f != root && InTree(t0, root, f))
  {
    hide Ent, Frame, Rank, TreeInv;
    NoZeroFrame(t0, root);
    RootFrame(t0, root);
    forall p | ValidPlace(p) && !p.Root? ensures Rank(p) < Rank(Root) { RankBound(p); }
    forall f | f in t0 ensures GoneTable(t0, root, Rank(Root), f) <==> f != root && InTree(t0, root, f) {
      if GoneTable(t0, root, Rank(Root), f) {
        var p :| ValidPlace(p) && (p.N1? || p.N0?) && Rank(p) < Rank(Root) && Frame(t0, root, p) == f;
        if f == root { OnlyNode(t0, root, p, Root); }
      }
    }
  }

  /** `destroy` */
  method Destroy(m: Memory, root: nat)
    requires m.Valid() && TreeInv(m.tables, root) && OwnsUser(m.rg, m.tables, m.pages, root)
    modifies m`tables, m`pages, m`kfree, m`ufree
    ensures m.Valid() && Destroyed(m.rg, old(m.tables), old(m.pages), m.tables, m.pages, root)
  {
    hide MemInv, TreeInv, OwnsUser, Destroying, Destroyed, Frame;
    RootFrame(m.tables, root);
    DestroyStart(m.rg, m.tables, m.pages, root);
    DestroyLevel(m, root, Root, m.tables, m.pages, root);
    DestroyDone(m.rg, old(m.tables), old(m.pages), m.tables, m.pages, root);
  }
}
