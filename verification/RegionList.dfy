/**
  The linked lists behind mmap: the free list of the region-node warehouse (kernel/src/mem/mmap.rs) and a process's
  region list (kernel/src/mem/uvm.rs), both threaded through one array of nodes.
*/
module RegionList {
  import opened Base
  import opened Sv39
  import opened RegionSeq

  const N_MMAP := 256

  /** `next` threads a process's regions, `wnext` the warehouse's free nodes. */
  datatype Node = Node(begin: nat, npages: nat, next: Option<nat>, wnext: Option<nat>)

  ghost predicate Chain(nodes: seq<Node>, head: Option<nat>, l: seq<nat>) {
    && head == ListAt(l, 0)
    && forall i :: 0 <= i < |l| ==> l[i] < |nodes| && nodes[l[i]].next == ListAt(l, i + 1)
  }

  ghost predicate FreeChain(nodes: seq<Node>, whead: Option<nat>, f: seq<nat>) {
    && whead == ListAt(f, 0)
    && forall i :: 0 <= i < |f| ==> f[i] < |nodes| && nodes[f[i]].wnext == ListAt(f, i + 1)
  }

  /** Region nodes start on page boundaries. */
  ghost predicate Aligned(nodes: seq<Node>, l: seq<nat>) {
    forall i :: 0 <= i < |l| ==> l[i] < |nodes| && nodes[l[i]].begin % PGSIZE == 0
  }

  /** Both lists are well formed and share no node. */
  ghost predicate ListsOk(nodes: seq<Node>, head: Option<nat>, whead: Option<nat>, l: seq<nat>, f: seq<nat>) {
    && |nodes| == N_MMAP
    && Chain(nodes, head, l) && FreeChain(nodes, whead, f) && Aligned(nodes, l)
    && Separate(l, f)
  }

  ghost predicate Separate(l: seq<nat>, f: seq<nat>) {
    NoDup(l) && NoDup(f) && forall i, j :: 0 <= i < |l| && 0 <= j < |f| ==> l[i] != f[j]
  }

  function RegionOf(n: Node): Region {
    Region(n.begin / PGSIZE, n.begin / PGSIZE + n.npages)
  }

  /** The region list as page intervals. */
  ghost function Regs(nodes: seq<Node>, l: seq<nat>): (rs: seq<Region>)
    requires forall i :: 0 <= i < |l| ==> l[i] < |nodes|
    ensures |rs| == |l| && forall i :: 0 <= i < |l| ==> rs[i] == RegionOf(nodes[l[i]])
  {
    seq(|l|, i requires 0 <= i < |l| => RegionOf(nodes[l[i]]))
  }

  /** The two lists together hold the same nodes. */
  ghost predicate SamePool(l: seq<nat>, f: seq<nat>, l': seq<nat>, f': seq<nat>) {
    forall x :: x in l' || x in f' <==> x in l || x in f
  }

  // ----- the warehouse

  /** `init` links all nodes into the free list. */
  lemma InitLists()
    ensures ListsOk(InitNodes(), None, Some(0), [], seq(N_MMAP, i => i))
  {
  }

  function InitNodes(): (nodes: seq<Node>)
    ensures |nodes| == N_MMAP
  {
    seq(N_MMAP, i requires 0 <= i < N_MMAP => Node(0, 0, None, if i + 1 < N_MMAP then Some(i + 1) else None))
  }

  /** The nodes after node `x` was made region [b, b + n) and linked at position `k` of the list. */
  ghost function WithNode(nodes: seq<Node>, l: seq<nat>, x: nat, k: nat, b: nat, n: nat): (r: seq<Node>)
    requires x < |nodes| && k <= |l| && (k > 0 ==> l[k - 1] < |nodes| && l[k - 1] != x)
    ensures |r| == |nodes|
    ensures r[x] == Node(b, n, ListAt(l, k), None)
    ensures k > 0 ==> r[l[k - 1]] == nodes[l[k - 1]].(next := Some(x))
    ensures forall y :: 0 <= y < |nodes| && y != x && (k > 0 ==> y != l[k - 1]) ==> r[y] == nodes[y]
  {
    var made := nodes[x := Node(b, n, ListAt(l, k), None)];
    if k == 0 then made else made[l[k - 1] := made[l[k - 1]].(next := Some(x))]
  }

  function InsertAt(l: seq<nat>, k: nat, x: nat): (r: seq<nat>)
    requires k <= |l|
    ensures |r| == |l| + 1
    ensures forall i :: 0 <= i < |r| ==> r[i] == if i < k then l[i] else if i == k then x else l[i - 1]
  {
    l[..k] + [x] + l[k..]
  }

  lemma InsertSeparate(l: seq<nat>, f: seq<nat>, k: nat)
    requires Separate(l, f) && f != [] && k <= |l|
    ensures Separate(InsertAt(l, k, f[0]), f[1..]) && SamePool(l, f, InsertAt(l, k, f[0]), f[1..])
  {
    var x := f[0];
    var l' := InsertAt(l, k, x);
    forall y ensures y in l' <==> y in l || y == x {
      if y in l {
        var i :| 0 <= i < |l| && l[i] == y;
        assert l'[if i < k then i else i + 1] == y;
      }
      if y == x { assert l'[k] == x; }
    }
    assert f == [x] + f[1..];
  }

  lemma InsertChain(nodes: seq<Node>, head: Option<nat>, l: seq<nat>, x: nat, k: nat, b: nat, n: nat)
    requires Chain(nodes, head, l) && Aligned(nodes, l) && NoDup(l) && x < |nodes| && x !in l && k <= |l|
    requires b % PGSIZE == 0
    ensures var r, l' := WithNode(nodes, l, x, k, b, n), InsertAt(l, k, x);
      && Chain(r, if k == 0 then Some(x) else head, l') && Aligned(r, l')
      && Regs(r, l') == RegionSeq.Splice(Regs(nodes, l), k, k, Region(b / PGSIZE, b / PGSIZE + n))
  {
    hide WithNode, InsertAt, ListAt, RegionOf;
    var r, l' := WithNode(nodes, l, x, k, b, n), InsertAt(l, k, x);
    forall i | 0 <= i < |l'|
      ensures l'[i] < |r| && r[l'[i]].next == ListAt(l', i + 1) && r[l'[i]].begin % PGSIZE == 0
      ensures RegionOf(r[l'[i]]) == if i == k then Region(b / PGSIZE, b / PGSIZE + n) else RegionOf(nodes[l'[i]])
    {
      InsertedAt(nodes, head, l, x, k, b, n, i);
    }
    InsertedHead(l, k, x);
    SplicedRegs(nodes, r, l, x, k, Region(b / PGSIZE, b / PGSIZE + n));
  }

  lemma InsertedHead(l: seq<nat>, k: nat, x: nat)
    requires k <= |l|
    ensures ListAt(InsertAt(l, k, x), 0) == if k == 0 then Some(x) else ListAt(l, 0)
  {
  }

  lemma ChainNext(nodes: seq<Node>, head: Option<nat>, l: seq<nat>, i: nat)
    requires Chain(nodes, head, l) && i < |l|
    ensures l[i] < |nodes| && nodes[l[i]].next == ListAt(l, i + 1)
  {
  }

  /** Each node of the list after the insertion. */
  lemma InsertedAt(nodes: seq<Node>, head: Option<nat>, l: seq<nat>, x: nat, k: nat, b: nat, n: nat, i: nat)
    requires Chain(nodes, head, l) && Aligned(nodes, l) && NoDup(l) && x < |nodes| && x !in l && k <= |l|
    requires b % PGSIZE == 0
    requires i <= |l|
    ensures var r, l' := WithNode(nodes, l, x, k, b, n), InsertAt(l, k, x);
      && l'[i] < |r| && r[l'[i]].next == ListAt(l', i + 1) && r[l'[i]].begin % PGSIZE == 0
      && RegionOf(r[l'[i]]) == if i == k then Region(b / PGSIZE, b / PGSIZE + n) else RegionOf(nodes[l'[i]])
  {
    var j := if i < k then i else i - 1;
    if i != k { ChainNext(nodes, head, l, j); }
    if k > 0 { ChainNext(nodes, head, l, k - 1); }
    hide WithNode, InsertAt, Chain;
    assert i != k && i + 1 != k ==> (k > 0 ==> l[j] != l[k - 1]);
  }

  lemma SplicedRegs(nodes: seq<Node>, r: seq<Node>, l: seq<nat>, x: nat, k: nat, reg: Region)
    requires k <= |l| && (forall i :: 0 <= i < |l| ==> l[i] < |nodes|)
    requires forall i :: 0 <= i <= |l| ==> InsertAt(l, k, x)[i] < |r|
    requires forall i :: 0 <= i <= |l| ==>
      RegionOf(r[InsertAt(l, k, x)[i]]) == if i == k then reg else RegionOf(nodes[InsertAt(l, k, x)[i]])
    ensures Regs(r, InsertAt(l, k, x)) == RegionSeq.Splice(Regs(nodes, l), k, k, reg)
  {
    hide InsertAt, RegionOf;
    var p, q, rs := Regs(r, InsertAt(l, k, x)), RegionSeq.Splice(Regs(nodes, l), k, k, reg), Regs(nodes, l);
    forall i | 0 <= i < |p| ensures p[i] == q[i] {
      assert q[i] == if i < k then rs[i] else if i == k then reg else rs[i - 1];
    }
  }

  lemma InsertFree(nodes: seq<Node>, whead: Option<nat>, l: seq<nat>, f: seq<nat>, k: nat, b: nat, n: nat)
    requires FreeChain(nodes, whead, f) && f != [] && Separate(l, f) && k <= |l|
    requires forall i :: 0 <= i < |l| ==> l[i] < |nodes|
    ensures FreeChain(WithNode(nodes, l, f[0], k, b, n), nodes[f[0]].wnext, f[1..])
  {
    hide WithNode;
    var r := WithNode(nodes, l, f[0], k, b, n);
    var g := f[1..];
    forall i | 0 <= i < |g| ensures g[i] < |r| && r[g[i]].wnext == ListAt(g, i + 1) {
      assert g[i] == f[i + 1] && f[i + 1] != f[0];
    }
  }

  /** `region_alloc` takes the first free node, and the caller links it into the list at position `k`. */
  lemma InsertNode(nodes: seq<Node>, head: Option<nat>, whead: Option<nat>, l: seq<nat>, f: seq<nat>,
                   k: nat, b: nat, n: nat)
    requires ListsOk(nodes, head, whead, l, f) && f != [] && k <= |l| && b % PGSIZE == 0
    ensures f[0] < |nodes| && (k > 0 ==> l[k - 1] < |nodes| && l[k - 1] != f[0])
    ensures var r, l' := WithNode(nodes, l, f[0], k, b, n), InsertAt(l, k, f[0]);
      && ListsOk(r, if k == 0 then Some(f[0]) else head, nodes[f[0]].wnext, l', f[1..])
      && Regs(r, l') == RegionSeq.Splice(Regs(nodes, l), k, k, Region(b / PGSIZE, b / PGSIZE + n))
      && SamePool(l, f, l', f[1..])
  {
    hide WithNode, InsertAt;
    InsertSeparate(l, f, k);
    InsertChain(nodes, head, l, f[0], k, b, n);
    InsertFree(nodes, whead, l, f, k, b, n);
  }

  /** Changing the interval of the region at position `k`. */
  lemma ResizeNode(nodes: seq<Node>, head: Option<nat>, whead: Option<nat>, l: seq<nat>, f: seq<nat>,
                   k: nat, b: nat, n: nat)
    requires ListsOk(nodes, head, whead, l, f) && k < |l| && b % PGSIZE == 0
    ensures var r := nodes[l[k] := nodes[l[k]].(begin := b, npages := n)];
      && ListsOk(r, head, whead, l, f)
      && Regs(r, l) == Regs(nodes, l)[k := Region(b / PGSIZE, b / PGSIZE + n)]
  {
    var r := nodes[l[k] := nodes[l[k]].(begin := b, npages := n)];
    hide Separate;
    forall y | 0 <= y < |nodes| ensures r[y].next == nodes[y].next && r[y].wnext == nodes[y].wnext {}
    ResizeRegs(nodes, l, f, k, b, n);
  }

  lemma ResizeRegs(nodes: seq<Node>, l: seq<nat>, f: seq<nat>, k: nat, b: nat, n: nat)
    requires Separate(l, f) && k < |l| && forall i :: 0 <= i < |l| ==> l[i] < |nodes|
    ensures var r := nodes[l[k] := nodes[l[k]].(begin := b, npages := n)];
      Regs(r, l) == Regs(nodes, l)[k := Region(b / PGSIZE, b / PGSIZE + n)]
  {
  }

  /** The nodes after the region at position `k` was unlinked and its node returned to the warehouse. */
  ghost function WithoutNode(nodes: seq<Node>, l: seq<nat>, whead: Option<nat>, k: nat): (r: seq<Node>)
    requires k < |l| && l[k] < |nodes| && (k > 0 ==> l[k - 1] < |nodes| && l[k - 1] != l[k])
    ensures |r| == |nodes|
    ensures r[l[k]] == Node(0, 0, None, whead)
    ensures k > 0 ==> r[l[k - 1]] == nodes[l[k - 1]].(next := nodes[l[k]].next)
    ensures forall y :: 0 <= y < |nodes| && y != l[k] && (k > 0 ==> y != l[k - 1]) ==> r[y] == nodes[y]
  {
    var cut := if k == 0 then nodes else nodes[l[k - 1] := nodes[l[k - 1]].(next := nodes[l[k]].next)];
    cut[l[k] := Node(0, 0, None, whead)]
  }

  lemma RemoveSeparate(l: seq<nat>, f: seq<nat>, k: nat)
    requires Separate(l, f) && k < |l|
    ensures Separate(DropAt(l, k), [l[k]] + f) && SamePool(l, f, DropAt(l, k), [l[k]] + f)
  {
    var x := l[k];
    var l' := DropAt(l, k);
    forall i | 0 <= i < |l'| ensures l'[i] == l[if i < k then i else i + 1] {}
    forall y ensures y in l' <==> y in l && y != x {
      if y in l && y != x {
        var i :| 0 <= i < |l| && l[i] == y;
        assert l'[if i < k then i else i - 1] == y;
      }
    }
  }

  lemma RemoveChain(nodes: seq<Node>, head: Option<nat>, l: seq<nat>, whead: Option<nat>, k: nat)
    requires Chain(nodes, head, l) && Aligned(nodes, l) && NoDup(l) && k < |l|
    ensures var r, l' := WithoutNode(nodes, l, whead, k), DropAt(l, k);
      && Chain(r, if k == 0 then nodes[l[k]].next else head, l') && Aligned(r, l')
      && Regs(r, l') == DropAt(Regs(nodes, l), k)
  {
    hide WithoutNode, ListAt, RegionOf;
    var r, l' := WithoutNode(nodes, l, whead, k), DropAt(l, k);
    forall i | 0 <= i < |l'|
      ensures l'[i] < |r| && r[l'[i]].next == ListAt(l', i + 1) && r[l'[i]].begin % PGSIZE == 0
      ensures RegionOf(r[l'[i]]) == RegionOf(nodes[l[if i < k then i else i + 1]])
    {
      RemovedAt(nodes, head, l, whead, k, i);
    }
    RemovedHead(nodes, head, l, k);
  }

  lemma RemovedHead(nodes: seq<Node>, head: Option<nat>, l: seq<nat>, k: nat)
    requires Chain(nodes, head, l) && k < |l|
    ensures ListAt(DropAt(l, k), 0) == if k == 0 then nodes[l[k]].next else head
  {
    ChainNext(nodes, head, l, k);
  }

  /** Each node of the list after the removal. */
  lemma RemovedAt(nodes: seq<Node>, head: Option<nat>, l: seq<nat>, whead: Option<nat>, k: nat, i: nat)
    requires Chain(nodes, head, l) && Aligned(nodes, l) && NoDup(l) && k < |l| && i < |l| - 1
    ensures var r, l' := WithoutNode(nodes, l, whead, k), DropAt(l, k);
      && l'[i] < |r| && r[l'[i]].next == ListAt(l', i + 1) && r[l'[i]].begin % PGSIZE == 0
      && RegionOf(r[l'[i]]) == RegionOf(nodes[l[if i < k then i else i + 1]])
  {
    var j := if i < k then i else i + 1;
    ChainNext(nodes, head, l, j);
    ChainNext(nodes, head, l, k);
    hide WithoutNode, Chain;
    assert DropAt(l, k)[i] == l[j] && l[j] != l[k];
    assert k > 0 && j != k - 1 ==> l[j] != l[k - 1];
  }

  lemma RemoveFree(nodes: seq<Node>, whead: Option<nat>, l: seq<nat>, f: seq<nat>, k: nat)
    requires FreeChain(nodes, whead, f) && Separate(l, f) && k < |l| && forall i :: 0 <= i < |l| ==> l[i] < |nodes|
    ensures FreeChain(WithoutNode(nodes, l, whead, k), Some(l[k]), [l[k]] + f)
  {
    hide WithoutNode;
    var r := WithoutNode(nodes, l, whead, k);
    var g := [l[k]] + f;
    forall i | 0 <= i < |g| ensures g[i] < |r| && r[g[i]].wnext == ListAt(g, i + 1) {
      if i > 0 { assert g[i] == f[i - 1]; }
    }
  }

  /** Unlinking the region at position `k` and returning its node with `region_free`. */
  lemma RemoveNode(nodes: seq<Node>, head: Option<nat>, whead: Option<nat>, l: seq<nat>, f: seq<nat>, k: nat)
    requires ListsOk(nodes, head, whead, l, f) && k < |l|
    ensures l[k] < |nodes| && (k > 0 ==> l[k - 1] < |nodes| && l[k - 1] != l[k])
    ensures var r, l' := WithoutNode(nodes, l, whead, k), DropAt(l, k);
      && ListsOk(r, if k == 0 then nodes[l[k]].next else head, Some(l[k]), l', [l[k]] + f)
      && Regs(r, l') == DropAt(Regs(nodes, l), k)
      && SamePool(l, f, l', [l[k]] + f)
  {
    hide WithoutNode, DropAt;
    RemoveSeparate(l, f, k);
    RemoveChain(nodes, head, l, whead, k);
    RemoveFree(nodes, whead, l, f, k);
  }
}
