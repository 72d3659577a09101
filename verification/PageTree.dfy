/**
  A Sv39 page table as a tree of table frames: pure functions over the physical memory's table frames, and what one
  store into a table does to the tree.  kernel/src/mem/pagetable.rs is modelled on top of them.
*/
module PageTree {
  import opened Sv39

  /** Physical memory's table frames: from physical address to 512 entries. */
  type Tables = map<nat, seq<nat>>

  /** A place of the tree: its nodes are tables, its slots are the entries of the lowest level. */
  datatype Place = Root | N1(i: nat) | N0(i: nat, j: nat) | Slot(i: nat, j: nat, k: nat)

  predicate ValidPlace(p: Place) {
    match p
    case Root => true
    case N1(i) => i < PGNUM
    case N0(i, j) => i < PGNUM && j < PGNUM
    case Slot(i, j, k) => i < PGNUM && j < PGNUM && k < PGNUM
  }

  function Depth(p: Place): nat {
    if p.Root? then 0 else if p.N1? then 1 else if p.N0? then 2 else 3
  }

  function Parent(p: Place): Place
    requires !p.Root?
  {
    match p
    case N1(_) => Root
    case N0(i, _) => N1(i)
    case Slot(i, j, _) => N0(i, j)
  }

  function Index(p: Place): nat
    requires !p.Root?
  {
    match p
    case N1(i) => i
    case N0(_, j) => j
    case Slot(_, _, k) => k
  }

  function Child(p: Place, x: nat): (c: Place)
    requires !p.Slot?
    ensures !c.Root? && Parent(c) == p && Index(c) == x
  {
    match p
    case Root => N1(x)
    case N1(i) => N0(i, x)
    case N0(i, j) => Slot(i, j, x)
  }

  ghost function Word(t: Tables, f: nat, x: nat): nat {
    if f in t && x < |t[f]| then t[f][x] else 0
  }

  function SetWord(t: Tables, f: nat, x: nat, v: nat): (r: Tables)
    requires f in t && x < |t[f]|
  {
    var w: seq<nat> := t[f][x := v];
    t[f := w]
  }

  /** The entry stored at place `p`. */
  ghost function Ent(t: Tables, root: nat, p: Place): nat
    requires !p.Root?
    decreases Depth(p), 0
  {
    Word(t, Frame(t, root, Parent(p)), Index(p))
  }

  /** The table frame of node `p`, or 0 where there is none. */
  ghost function Frame(t: Tables, root: nat, p: Place): nat
    requires !p.Slot?
    decreases Depth(p), 1
  {
    if p.Root? then root
    else var e := Ent(t, root, p); if IsTable(e) then PteToPa(e) else 0
  }

  /** All table frames are aligned, addressable and hold 512 entries. */
  ghost predicate FramesOk(t: Tables) {
    0 !in t && forall f :: f in t ==> |t[f]| == PGNUM && f % PGSIZE == 0 && f < PA_MAX
  }

  /** Valid entries of inner tables lead to tables, valid entries of the lowest level are leaves. */
  ghost predicate LevelsOk(t: Tables, root: nat) {
    && (forall p :: ValidPlace(p) && (p.N1? || p.N0?) && IsValid(Ent(t, root, p)) ==>
          IsTable(Ent(t, root, p)) && Frame(t, root, p) in t)
    && (forall p :: ValidPlace(p) && p.Slot? && IsValid(Ent(t, root, p)) ==> Sv39.IsLeaf(Ent(t, root, p)))
    && (forall p :: ValidPlace(p) && p.N1? && p.i >= 256 ==> !IsValid(Ent(t, root, p)))
  }

  /** No table frame serves two nodes. */
  ghost predicate Unshared(t: Tables, root: nat) {
    forall p, q :: (ValidPlace(p) && ValidPlace(q) && !p.Slot? && !q.Slot?
                    && Frame(t, root, p) != 0 && Frame(t, root, p) == Frame(t, root, q)) ==> p == q
  }

  ghost predicate TreeInv(t: Tables, root: nat) {
    FramesOk(t) && root in t && LevelsOk(t, root) && Unshared(t, root)
  }

  /** Whether frame `f` is a table of the tree. */
  ghost predicate InTree(t: Tables, root: nat, f: nat) {
    f != 0 && exists p :: ValidPlace(p) && !p.Slot? && Frame(t, root, p) == f
  }

  lemma NodeFrame(t: Tables, root: nat, p: Place)
    requires TreeInv(t, root) && ValidPlace(p) && !p.Slot?
    ensures Frame(t, root, p) == 0 || Frame(t, root, p) in t
  {
  }

  function Zeros(): (s: seq<nat>)
    ensures |s| == PGNUM && forall i :: 0 <= i < PGNUM ==> s[i] == 0
  {
    seq(PGNUM, _ => 0)
  }

  // ----- one store into the tree

  /** Storing `v` at place `p`, whose table exists. */
  ghost function Stored(t: Tables, root: nat, p: Place, v: nat): Tables
    requires !p.Root? && ValidPlace(p) && TreeInv(t, root) && Frame(t, root, Parent(p)) in t
  {
    SetWord(t, Frame(t, root, Parent(p)), Index(p), v)
  }

  ghost predicate Below(q: Place, p: Place) {
    match p
    case Root => true
    case N1(i) => (q.N0? && q.i == i) || (q.Slot? && q.i == i)
    case N0(i, j) => q.Slot? && q.i == i && q.j == j
    case Slot(_, _, _) => false
  }

  /** A store changes the entry at its place and nothing outside the part of the tree below it. */
  lemma StoredEnt(t: Tables, root: nat, p: Place, v: nat, q: Place)
    requires TreeInv(t, root) && !p.Root? && ValidPlace(p) && Frame(t, root, Parent(p)) in t
    requires !q.Root? && ValidPlace(q) && !Below(q, p)
    ensures Ent(Stored(t, root, p, v), root, q) == if q == p then v else Ent(t, root, q)
    decreases Depth(q)
  {
    var t' := Stored(t, root, p, v);
    var f := Frame(t, root, Parent(p));
    if !Parent(q).Root? {
      if Parent(q) != p { StoredEnt(t, root, p, v, Parent(q)); }
    }
    assert Frame(t', root, Parent(q)) == Frame(t, root, Parent(q));
    if Frame(t, root, Parent(q)) == f { assert Parent(q) == Parent(p); }
  }

  /** Where every entry of the new tree comes from, when only the entry at `p` changed. */
  ghost predicate OnlyAt(t: Tables, t': Tables, root: nat, p: Place, v: nat) {
    forall q :: ValidPlace(q) && !q.Root? ==> Ent(t', root, q) == if q == p then v else Ent(t, root, q)
  }

  /** A store into a slot changes that translation only. */
  lemma SetSlot(t: Tables, root: nat, p: Place, v: nat)
    requires TreeInv(t, root) && p.Slot? && ValidPlace(p) && Frame(t, root, Parent(p)) in t
    requires IsValid(v) ==> Sv39.IsLeaf(v)
    ensures TreeInv(Stored(t, root, p, v), root) && OnlyAt(t, Stored(t, root, p, v), root, p, v)
  {
    var t' := Stored(t, root, p, v);
    forall q | ValidPlace(q) && !q.Root? ensures Ent(t', root, q) == if q == p then v else Ent(t, root, q) {
      StoredEnt(t, root, p, v, q);
    }
    SameNodes(t, t', root, p, v);
  }

  /** When only a slot changed, the nodes are where they were. */
  lemma SameNodes(t: Tables, t': Tables, root: nat, p: Place, v: nat)
    requires OnlyAt(t, t', root, p, v) && p.Slot?
    ensures forall q :: ValidPlace(q) && !q.Slot? ==> Frame(t', root, q) == Frame(t, root, q)
  {
  }

  // ----- growing the tree

  /** A new frame outside the tree changes nothing in it. */
  lemma {:induction false} NewFrame(t: Tables, root: nat, f: nat, w: seq<nat>, q: Place)
    requires TreeInv(t, root) && f !in t && f != 0 && ValidPlace(q) && !q.Root?
    ensures Ent(t[f := w], root, q) == Ent(t, root, q)
    decreases Depth(q)
  {
    if !Parent(q).Root? { NewFrame(t, root, f, w, Parent(q)); }
    NodeFrame(t, root, Parent(q));
  }

  lemma NewFrameTree(t: Tables, root: nat, f: nat)
    requires TreeInv(t, root) && f !in t && f != 0 && f % PGSIZE == 0 && f < PA_MAX
    ensures TreeInv(t[f := Zeros()], root)
    ensures forall q :: ValidPlace(q) && !q.Root? ==> Ent(t[f := Zeros()], root, q) == Ent(t, root, q)
  {
    var t' := t[f := Zeros()];
    forall q | ValidPlace(q) && !q.Root? ensures Ent(t', root, q) == Ent(t, root, q) {
      NewFrame(t, root, f, Zeros(), q);
    }
    SameEntriesTree(t, t', root);
  }

  /** The tree only depends on its entries. */
  lemma SameEntriesTree(t: Tables, t': Tables, root: nat)
    requires TreeInv(t, root) && FramesOk(t') && t.Keys <= t'.Keys
    requires forall q :: ValidPlace(q) && !q.Root? ==> Ent(t', root, q) == Ent(t, root, q)
    ensures TreeInv(t', root)
    ensures forall q :: ValidPlace(q) && !q.Slot? ==> Frame(t', root, q) == Frame(t, root, q)
  {
    forall q | ValidPlace(q) && !q.Slot? ensures Frame(t', root, q) == Frame(t, root, q) {}
  }

  /** Below an absent table there are no entries. */
  lemma {:induction false} NothingBelow(t: Tables, root: nat, p: Place, q: Place)
    requires FramesOk(t) && !p.Root? && !p.Slot? && Frame(t, root, p) == 0 && Below(q, p) && !q.Root?
    ensures Ent(t, root, q) == 0
  {
    if Parent(q) != p {
      assert Parent(Parent(q)) == p;
      assert Ent(t, root, Parent(q)) == 0;
    }
  }

  /** Below a zero-filled table there are no entries. */
  lemma {:induction false} ZeroBelow(t: Tables, root: nat, p: Place, q: Place)
    requires FramesOk(t) && !p.Root? && !p.Slot? && Below(q, p) && !q.Root? && ValidPlace(q)
    requires Frame(t, root, p) in t && t[Frame(t, root, p)] == Zeros()
    ensures Ent(t, root, q) == 0
  {
    if Parent(q) != p {
      assert Parent(Parent(q)) == p;
      assert Ent(t, root, Parent(q)) == 0;
    }
  }

  /** Linking the zero-filled frame `f` as the table of the empty node `p` changes that entry only. */
  lemma AddTable(t: Tables, root: nat, p: Place, f: nat)
    requires TreeInv(t, root) && ValidPlace(p) && (p.N1? || p.N0?) && (p.N1? ==> p.i < 256)
    requires Frame(t, root, Parent(p)) in t && !IsValid(Ent(t, root, p))
    requires f !in t && f != 0 && f % PGSIZE == 0 && f < PA_MAX
    ensures var t1 := t[f := Zeros()];
      && TreeInv(t1, root) && Frame(t1, root, Parent(p)) == Frame(t, root, Parent(p))
      && var t2 := Stored(t1, root, p, PaToPte(f, PTE_V));
         TreeInv(t2, root) && OnlyAt(t, t2, root, p, PaToPte(f, PTE_V)) && Frame(t2, root, p) == f
  {
    var t1 := t[f := Zeros()];
    var v := PaToPte(f, PTE_V);
    NewFrameTree(t, root, f);
    PackUnpack(f, PTE_V);
    var t2 := Stored(t1, root, p, v);
    StoredEnt(t1, root, p, v, p);
    forall q | ValidPlace(q) && !q.Root? ensures Ent(t2, root, q) == if q == p then v else Ent(t, root, q) {
      if Below(q, p) {
        NothingBelow(t, root, p, q);
        ZeroBelow(t2, root, p, q);
      } else {
        StoredEnt(t1, root, p, v, q);
      }
    }
    GrownTree(t, t2, root, p, f);
  }

  lemma GrownTree(t: Tables, t2: Tables, root: nat, p: Place, f: nat)
    requires TreeInv(t, root) && ValidPlace(p) && (p.N1? || p.N0?) && (p.N1? ==> p.i < 256)
    requires !IsValid(Ent(t, root, p)) && FramesOk(t2) && t2.Keys == t.Keys + {f} && f !in t && f != 0
    requires f % PGSIZE == 0 && f < PA_MAX
    requires OnlyAt(t, t2, root, p, PaToPte(f, PTE_V))
    ensures TreeInv(t2, root) && Frame(t2, root, p) == f
    ensures forall q :: ValidPlace(q) && !q.Slot? ==> Frame(t2, root, q) == if q == p then f else Frame(t, root, q)
  {
    PackUnpack(f, PTE_V);
    forall q | ValidPlace(q) && !q.Slot?
      ensures Frame(t2, root, q) == if q == p then f else Frame(t, root, q)
    {
    }
    forall q | ValidPlace(q) && !q.Slot? ensures Frame(t, root, q) == 0 || Frame(t, root, q) in t {
      NodeFrame(t, root, q);
    }
  }

  // ----- several trees in one memory

  /** Outside the tree at `root` nothing changed, and the tree grew by new frames only. */
  ghost predicate Extends(t: Tables, t': Tables, root: nat) {
    && t.Keys <= t'.Keys
    && (forall f :: f in t && !InTree(t, root, f) ==> t'[f] == t[f])
    && (forall f :: InTree(t', root, f) ==> InTree(t, root, f) || f !in t)
    && (forall f :: InTree(t, root, f) || (f in t' && f !in t) ==> InTree(t', root, f))
  }

  lemma ExtendsTrans(t: Tables, u: Tables, v: Tables, root: nat)
    requires Extends(t, u, root) && Extends(u, v, root)
    ensures Extends(t, v, root)
  {
  }

  lemma ExtendsSelf(t: Tables, root: nat)
    ensures Extends(t, t, root)
  {
  }

  /** Two trees share no table. */
  ghost predicate Apart(t: Tables, a: nat, b: nat) {
    forall f :: !(InTree(t, a, f) && InTree(t, b, f))
  }

  /** A tree whose tables are kept keeps its entries. */
  lemma {:induction false} KeptEnt(t: Tables, t': Tables, other: nat, q: Place)
    requires TreeInv(t, other) && ValidPlace(q) && !q.Root? && 0 !in t'
    requires forall f :: InTree(t, other, f) ==> f in t' && t'[f] == t[f]
    ensures Ent(t', other, q) == Ent(t, other, q)
    decreases Depth(q)
  {
    var p := Parent(q);
    if !p.Root? { KeptEnt(t, t', other, p); }
    NodeFrame(t, other, p);
    if Frame(t, other, p) != 0 { assert InTree(t, other, Frame(t, other, p)); }
  }

  /** Working on one tree leaves a tree apart from it as it was, and apart. */
  lemma OtherKept(t: Tables, t': Tables, root: nat, other: nat)
    requires TreeInv(t, root) && TreeInv(t, other) && Apart(t, root, other) && Extends(t, t', root) && FramesOk(t')
    ensures TreeInv(t', other) && Apart(t', root, other)
    ensures forall q :: ValidPlace(q) && !q.Root? ==> Ent(t', other, q) == Ent(t, other, q)
  {
    forall f | InTree(t, other, f) ensures f in t && f in t' && t'[f] == t[f] {
      var p :| ValidPlace(p) && !p.Slot? && Frame(t, other, p) == f;
      NodeFrame(t, other, p);
    }
    forall q | ValidPlace(q) && !q.Root? ensures Ent(t', other, q) == Ent(t, other, q) {
      KeptEnt(t, t', other, q);
    }
    SameEntriesTree(t, t', other);
    forall f | InTree(t', other, f) ensures InTree(t, other, f) {
      var p :| ValidPlace(p) && !p.Slot? && Frame(t', other, p) == f;
      assert Frame(t, other, p) == f;
    }
  }

  /** One store at an existing place, or one new table, only extends the tree. */
  lemma StoredExtends(t: Tables, root: nat, p: Place, v: nat)
    requires TreeInv(t, root) && p.Slot? && ValidPlace(p) && Frame(t, root, Parent(p)) in t
    requires IsValid(v) ==> Sv39.IsLeaf(v)
    ensures Extends(t, Stored(t, root, p, v), root)
  {
    SetSlot(t, root, p, v);
    var t' := Stored(t, root, p, v);
    SameNodes(t, t', root, p, v);
    assert InTree(t, root, Frame(t, root, Parent(p)));
    forall f | InTree(t', root, f) ensures InTree(t, root, f) {
      var q :| ValidPlace(q) && !q.Slot? && Frame(t', root, q) == f;
      assert Frame(t, root, q) == f;
    }
    forall f | InTree(t, root, f) ensures InTree(t', root, f) {
      var q :| ValidPlace(q) && !q.Slot? && Frame(t, root, q) == f;
      assert Frame(t', root, q) == f;
    }
  }

  lemma AddTableExtends(t: Tables, root: nat, p: Place, f: nat)
    requires TreeInv(t, root) && ValidPlace(p) && (p.N1? || p.N0?) && (p.N1? ==> p.i < 256)
    requires Frame(t, root, Parent(p)) in t && !IsValid(Ent(t, root, p))
    requires f !in t && f != 0 && f % PGSIZE == 0 && f < PA_MAX
    ensures TreeInv(t[f := Zeros()], root) && Frame(t[f := Zeros()], root, Parent(p)) == Frame(t, root, Parent(p))
    ensures Extends(t, Stored(t[f := Zeros()], root, p, PaToPte(f, PTE_V)), root)
  {
    AddTable(t, root, p, f);
    var t2 := Stored(t[f := Zeros()], root, p, PaToPte(f, PTE_V));
    assert InTree(t, root, Frame(t, root, Parent(p)));
    GrownTree(t, t2, root, p, f);
    assert Frame(t, root, p) == 0;
    hide Ent, Frame, TreeInv, OnlyAt;
    GrownInTree(t, t2, root, p, f);
  }

  lemma GrownInTree(t: Tables, t2: Tables, root: nat, p: Place, f: nat)
    requires ValidPlace(p) && !p.Slot? && f != 0 && Frame(t, root, p) == 0
    requires forall q :: ValidPlace(q) && !q.Slot? ==> Frame(t2, root, q) == if q == p then f else Frame(t, root, q)
    ensures forall g :: InTree(t2, root, g) <==> InTree(t, root, g) || g == f
  {
    hide Frame;
    forall g | InTree(t2, root, g) ensures InTree(t, root, g) || g == f {
      var q :| ValidPlace(q) && !q.Slot? && Frame(t2, root, q) == g;
    }
    forall g | InTree(t, root, g) ensures InTree(t2, root, g) {
      var q :| ValidPlace(q) && !q.Slot? && Frame(t, root, q) == g;
      assert Frame(t2, root, q) == g;
    }
    assert Frame(t2, root, p) == f;
  }
}
