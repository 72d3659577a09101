/**
  The tree of directories as the file system keeps it (kernel/src/syscall/fs.rs): every entry names a live inode and the
  link count of a data file is the number of entries that name it.
*/
module Links {
  import opened Base
  import opened Paths

  const ROOT_INODE := 0

  /** The directory entries that name inode `i`. */
  ghost function NamesOf(t: Tree, i: nat): set<(nat, seq<byte>)> {
    set d, k | d in t && k in t[d].entries && t[d].entries[k] == i :: (d, k)
  }

  ghost predicate TreeOk(t: Tree) {
    && NoDangling(t)
    && (forall i :: i in t && !t[i].dir ==> t[i].entries == map[] && t[i].nlink == |NamesOf(t, i)|)
    && (forall i :: i in t && t[i].dir ==> t[i].nlink > 0)
    && ROOT_INODE in t && t[ROOT_INODE].dir
  }

  /** No inode of `t` is gone from `u` or changed its kind. */
  ghost predicate KindsKept(t: Tree, u: Tree) {
    forall i :: i in t ==> i in u && u[i].dir == t[i].dir
  }

  ghost predicate SameKinds(t: Tree, u: Tree) {
    KindsKept(t, u) && u.Keys == t.Keys
  }

  /** A new entry `k` of directory `d` for inode `i`. */
  function WithEntry(t: Tree, d: nat, k: seq<byte>, i: nat): Tree
    requires d in t
  {
    t[d := t[d].(entries := t[d].entries[k := i])]
  }

  function WithoutEntry(t: Tree, d: nat, k: seq<byte>): Tree
    requires d in t
  {
    t[d := t[d].(entries := t[d].entries - {k})]
  }

  function WithNlink(t: Tree, i: nat, n: nat): Tree
    requires i in t
  {
    t[i := t[i].(nlink := n)]
  }

  lemma NamesWithEntry(t: Tree, d: nat, k: seq<byte>, i: nat, j: nat)
    requires d in t && k !in t[d].entries
    ensures NamesOf(WithEntry(t, d, k, i), j) == if j == i then NamesOf(t, j) + {(d, k)} else NamesOf(t, j)
    ensures (d, k) !in NamesOf(t, j)
  {
  }

  lemma NamesWithoutEntry(t: Tree, d: nat, k: seq<byte>, j: nat)
    requires d in t && k in t[d].entries
    ensures NamesOf(WithoutEntry(t, d, k), j) == NamesOf(t, j) - {(d, k)}
    ensures (d, k) in NamesOf(t, j) <==> j == t[d].entries[k]
  {
  }

  /** Inodes without entries of their own do not matter. */
  lemma NamesSame(t: Tree, u: Tree, j: nat)
    requires forall d :: d in u && u[d].entries != map[] ==> d in t && t[d].entries == u[d].entries
    requires forall d :: d in t && t[d].entries != map[] ==> d in u && t[d].entries == u[d].entries
    ensures NamesOf(u, j) == NamesOf(t, j)
  {
    forall d, k | d in u && k in u[d].entries ensures d in t && t[d].entries == u[d].entries {}
    forall d, k | d in t && k in t[d].entries ensures d in u && t[d].entries == u[d].entries {}
  }

  // ----- link, unlink, create, delete

  /** `link`: a further entry for the data file `i`. */
  ghost function Linked(t: Tree, d: nat, k: seq<byte>, i: nat): Tree
    requires d in t && i in t
  {
    var u := WithEntry(t, d, k, i);
    WithNlink(u, i, u[i].nlink + 1)
  }

  lemma LinkedNames(t: Tree, d: nat, k: seq<byte>, i: nat, j: nat)
    requires d in t && t[d].dir && k !in t[d].entries && i in t && !t[i].dir
    ensures NamesOf(Linked(t, d, k, i), j) == if j == i then NamesOf(t, j) + {(d, k)} else NamesOf(t, j)
    ensures (d, k) !in NamesOf(t, j)
  {
    NamesWithEntry(t, d, k, i, j);
    var u, v := WithEntry(t, d, k, i), Linked(t, d, k, i);
    hide NamesOf;
    NamesSame(u, v, j);
  }

  lemma LinkedCounts(t: Tree, d: nat, k: seq<byte>, i: nat, j: nat)
    requires TreeOk(t) && d in t && t[d].dir && k !in t[d].entries && i in t && !t[i].dir && j in t
    ensures var v := Linked(t, d, k, i);
      && v[j].dir == t[j].dir && (t[j].dir ==> v[j].nlink > 0)
      && (!t[j].dir ==> v[j].entries == map[] && v[j].nlink == |NamesOf(v, j)|)
  {
    LinkedNames(t, d, k, i, j);
    hide NamesOf, NoDangling;
  }

  lemma LinkedLive(t: Tree, d: nat, k: seq<byte>, i: nat)
    requires NoDangling(t) && d in t && i in t
    ensures NoDangling(Linked(t, d, k, i))
  {
  }

  lemma LinkedOk(t: Tree, d: nat, k: seq<byte>, i: nat)
    requires TreeOk(t) && d in t && t[d].dir && k !in t[d].entries && i in t && !t[i].dir
    ensures TreeOk(Linked(t, d, k, i)) && SameKinds(t, Linked(t, d, k, i))
  {
    hide NamesOf, NoDangling;
    var v := Linked(t, d, k, i);
    LinkedLive(t, d, k, i);
    forall j | j in t
      ensures v[j].dir == t[j].dir && (t[j].dir ==> v[j].nlink > 0)
      ensures !t[j].dir ==> v[j].entries == map[] && v[j].nlink == |NamesOf(v, j)|
    {
      LinkedCounts(t, d, k, i, j);
    }
  }

  /** `unlink`: the entry goes and the link count drops. */
  ghost function Unlinked(t: Tree, d: nat, k: seq<byte>): Tree
    requires d in t && k in t[d].entries && t[d].entries[k] in t && t[t[d].entries[k]].nlink > 0
  {
    var i, u := t[d].entries[k], WithoutEntry(t, d, k);
    WithNlink(u, i, u[i].nlink - 1)
  }

  lemma LinkCounted(t: Tree, d: nat, k: seq<byte>)
    requires TreeOk(t) && d in t && k in t[d].entries && !t[t[d].entries[k]].dir
    ensures t[d].entries[k] in t && t[t[d].entries[k]].nlink > 0
  {
    var i := t[d].entries[k];
    assert (d, k) in NamesOf(t, i);
    hide NamesOf;
    assert NamesOf(t, i) != {};
  }

  lemma UnlinkedNames(t: Tree, d: nat, k: seq<byte>, j: nat)
    requires TreeOk(t) && d in t && t[d].dir && k in t[d].entries && !t[t[d].entries[k]].dir
    requires t[t[d].entries[k]].nlink > 0
    ensures NamesOf(Unlinked(t, d, k), j) == NamesOf(t, j) - {(d, k)}
    ensures (d, k) in NamesOf(t, j) <==> j == t[d].entries[k]
  {
    NamesWithoutEntry(t, d, k, j);
    var u, v := WithoutEntry(t, d, k), Unlinked(t, d, k);
    hide NamesOf;
    NamesSame(u, v, j);
  }

  lemma UnlinkedCounts(t: Tree, d: nat, k: seq<byte>, j: nat)
    requires TreeOk(t) && d in t && t[d].dir && k in t[d].entries && !t[t[d].entries[k]].dir && j in t
    requires t[t[d].entries[k]].nlink > 0
    ensures var v := Unlinked(t, d, k);
      && v[j].dir == t[j].dir && (t[j].dir ==> v[j].nlink > 0)
      && (!t[j].dir ==> v[j].entries == map[] && v[j].nlink == |NamesOf(v, j)|)
  {
    UnlinkedNames(t, d, k, j);
    hide NamesOf, NoDangling;
    if j != t[d].entries[k] { assert NamesOf(t, j) - {(d, k)} == NamesOf(t, j); }
  }

  lemma UnlinkedLive(t: Tree, d: nat, k: seq<byte>)
    requires NoDangling(t) && d in t && k in t[d].entries && t[d].entries[k] in t && t[t[d].entries[k]].nlink > 0
    ensures NoDangling(Unlinked(t, d, k))
  {
  }

  lemma UnlinkedOk(t: Tree, d: nat, k: seq<byte>)
    requires TreeOk(t) && d in t && t[d].dir && k in t[d].entries && !t[t[d].entries[k]].dir
    ensures t[t[d].entries[k]].nlink > 0 && TreeOk(Unlinked(t, d, k)) && SameKinds(t, Unlinked(t, d, k))
  {
    hide NamesOf, NoDangling;
    LinkCounted(t, d, k);
    var v := Unlinked(t, d, k);
    UnlinkedLive(t, d, k);
    forall j | j in t
      ensures v[j].dir == t[j].dir && (t[j].dir ==> v[j].nlink > 0)
      ensures !t[j].dir ==> v[j].entries == map[] && v[j].nlink == |NamesOf(v, j)|
    {
      UnlinkedCounts(t, d, k, j);
    }
  }

  /** `open` and `mkdir` create inode `i` and enter it under a new name. */
  ghost function Created(t: Tree, d: nat, k: seq<byte>, i: nat, n: INode): Tree
    requires d in t
  {
    var u := t[i := n];
    if d in u then WithEntry(u, d, k, i) else u
  }

  lemma CreatedNames(t: Tree, d: nat, k: seq<byte>, i: nat, n: INode, j: nat)
    requires d in t && k !in t[d].entries && i !in t && n.entries == map[]
    ensures NamesOf(Created(t, d, k, i, n), j) == if j == i then NamesOf(t, j) + {(d, k)} else NamesOf(t, j)
  {
    var u := t[i := n];
    NamesWithEntry(u, d, k, i, j);
    NamesSame(t, u, j);
  }

  lemma CreatedLive(t: Tree, d: nat, k: seq<byte>, i: nat, n: INode)
    requires NoDangling(t) && d in t && n.entries == map[] && i !in t
    ensures NoDangling(Created(t, d, k, i, n)) && NamesOf(t, i) == {}
  {
  }

  lemma CreatedCounts(t: Tree, d: nat, k: seq<byte>, i: nat, n: INode, j: nat)
    requires TreeOk(t) && d in t && t[d].dir && k !in t[d].entries && i !in t && (j in t || j == i)
    requires n.entries == map[] && n.nlink == if n.dir then 2 else 1
    ensures var v := Created(t, d, k, i, n);
      && j in v && v[j].dir == (if j == i then n.dir else t[j].dir) && (v[j].dir ==> v[j].nlink > 0)
      && (!v[j].dir ==> v[j].entries == map[] && v[j].nlink == |NamesOf(v, j)|)
  {
    CreatedNames(t, d, k, i, n, j);
    CreatedLive(t, d, k, i, n);
    hide NamesOf, NoDangling;
    if j == i { assert NamesOf(t, i) + {(d, k)} == {(d, k)}; }
  }

  lemma CreatedOk(t: Tree, d: nat, k: seq<byte>, i: nat, n: INode)
    requires TreeOk(t) && d in t && t[d].dir && k !in t[d].entries && i !in t
    requires n.entries == map[] && n.nlink == if n.dir then 2 else 1
    ensures TreeOk(Created(t, d, k, i, n)) && KindsKept(t, Created(t, d, k, i, n))
    ensures Created(t, d, k, i, n).Keys == t.Keys + {i}
  {
    hide NamesOf, NoDangling;
    var v := Created(t, d, k, i, n);
    CreatedLive(t, d, k, i, n);
    forall j | j in v
      ensures v[j].dir == (if j == i then n.dir else t[j].dir) && (v[j].dir ==> v[j].nlink > 0)
      ensures !v[j].dir ==> v[j].entries == map[] && v[j].nlink == |NamesOf(v, j)|
    {
      CreatedCounts(t, d, k, i, n, j);
    }
  }

  lemma Unnamed(t: Tree, i: nat)
    requires TreeOk(t) && i in t && t[i].nlink == 0
    ensures !t[i].dir && t[i].entries == map[] && NamesOf(t, i) == {}
  {
    hide NamesOf;
  }

  lemma UnnamedEntry(t: Tree, i: nat, d: nat, k: seq<byte>)
    requires NamesOf(t, i) == {} && d in t && k in t[d].entries
    ensures t[d].entries[k] != i
  {
    assert (d, k) !in NamesOf(t, i);
  }

  lemma DeletedLive(t: Tree, i: nat)
    requires NoDangling(t) && NamesOf(t, i) == {}
    ensures NoDangling(t - {i})
  {
    hide NamesOf;
    var u := t - {i};
    forall d, k | d in u && k in u[d].entries ensures u[d].entries[k] in u { UnnamedEntry(t, i, d, k); }
  }

  lemma DeletedNames(t: Tree, i: nat, j: nat)
    requires i in t && t[i].entries == map[]
    ensures NamesOf(t - {i}, j) == NamesOf(t, j)
  {
    hide NamesOf;
    NamesSame(t, t - {i}, j);
  }

  /** `inode_put` deletes a data file without links. */
  lemma DeletedOk(t: Tree, i: nat)
    requires TreeOk(t) && i in t && t[i].nlink == 0
    ensures !t[i].dir && i != ROOT_INODE && TreeOk(t - {i})
  {
    hide NamesOf, NoDangling;
    Unnamed(t, i);
    DeletedLive(t, i);
    forall j ensures NamesOf(t - {i}, j) == NamesOf(t, j) { DeletedNames(t, i, j); }
  }
}
