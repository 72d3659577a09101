/**
  The two intrusive doubly linked lists of kernel/src/fs/buffer/lru.rs, as pure
  updates of the node array.  A list is described by the sequence of node indices
  it visits; `Linked` ties that sequence to the prev/next fields.
*/
module IntrusiveList {
  import opened Base

  datatype ListNode = ListNode(prev: Option<nat>, next: Option<nat>)

  /** `head` and the nodes' links spell out exactly the list `l`. */
  ghost predicate Linked(nodes: seq<ListNode>, head: Option<nat>, l: seq<nat>) {
    && head == ListAt(l, 0)
    && NoDup(l)
    && forall i :: 0 <= i < |l| ==>
         && l[i] < |nodes|
         && nodes[l[i]].prev == ListAt(l, i - 1)
         && nodes[l[i]].next == ListAt(l, i + 1)
  }

  ghost predicate Disjoint(a: seq<nat>, b: seq<nat>) {
    forall i, j :: 0 <= i < |a| && 0 <= j < |b| ==> a[i] != b[j]
  }

  predicate InRange(nodes: seq<ListNode>, o: Option<nat>) {
    o.Some? ==> o.value < |nodes|
  }

  function SetNext(nodes: seq<ListNode>, o: Option<nat>, next: Option<nat>): (r: seq<ListNode>)
    requires InRange(nodes, o)
    ensures |r| == |nodes|
  {
    if o.Some? then nodes[o.value := nodes[o.value].(next := next)] else nodes
  }

  function SetPrev(nodes: seq<ListNode>, o: Option<nat>, prev: Option<nat>): (r: seq<ListNode>)
    requires InRange(nodes, o)
    ensures |r| == |nodes|
  {
    if o.Some? then nodes[o.value := nodes[o.value].(prev := prev)] else nodes
  }

  /** The node array after `remove_node(id)`. */
  function Unlinked(nodes: seq<ListNode>, id: nat): (r: seq<ListNode>)
    requires id < |nodes|
    requires InRange(nodes, nodes[id].prev) && InRange(nodes, nodes[id].next)
    ensures |r| == |nodes|
  {
    var prev, next := nodes[id].prev, nodes[id].next;
    SetPrev(SetNext(nodes, prev, next), next, prev)[id := ListNode(None, None)]
  }

  /** The node array after linking the detached node `id` in front of `head`. */
  function Pushed(nodes: seq<ListNode>, head: Option<nat>, id: nat): (r: seq<ListNode>)
    requires id < |nodes| && InRange(nodes, head)
    ensures |r| == |nodes|
  {
    SetPrev(nodes[id := ListNode(None, head)], head, Some(id))
  }

  /** What `remove_node` does to each single node. */
  lemma UnlinkedNode(nodes: seq<ListNode>, id: nat, x: nat)
    requires id < |nodes| && x < |nodes| && x != id
    requires InRange(nodes, nodes[id].prev) && InRange(nodes, nodes[id].next)
    ensures Unlinked(nodes, id)[x].prev == if nodes[id].next == Some(x) then nodes[id].prev else nodes[x].prev
    ensures Unlinked(nodes, id)[x].next == if nodes[id].prev == Some(x) then nodes[id].next else nodes[x].next
  {
  }

  lemma DropAtNoDup<T>(l: seq<T>, k: nat)
    requires NoDup(l) && k < |l|
    ensures NoDup(DropAt(l, k)) && l[k] !in DropAt(l, k)
  {
  }

  /** Removing the k-th node of a list leaves the list without that node. */
  lemma UnlinkedOwn(nodes: seq<ListNode>, head: Option<nat>, l: seq<nat>, k: nat)
    requires Linked(nodes, head, l) && k < |l|
    ensures InRange(nodes, nodes[l[k]].prev) && InRange(nodes, nodes[l[k]].next)
    ensures Linked(Unlinked(nodes, l[k]), if k == 0 then nodes[l[k]].next else head, DropAt(l, k))
  {
    var m := DropAt(l, k);
    DropAtNoDup(l, k);
    assert nodes[l[k]].prev == ListAt(l, k - 1) && nodes[l[k]].next == ListAt(l, k + 1);
    var n := Unlinked(nodes, l[k]);
    forall i | 0 <= i < |m|
      ensures m[i] < |n| && n[m[i]].prev == ListAt(m, i - 1) && n[m[i]].next == ListAt(m, i + 1)
    {
      var j := if i < k then i else i + 1;
      assert m[i] == l[j];
      UnlinkedNode(nodes, l[k], l[j]);
      DroppedNeighbours(l, k, i);
      assert nodes[l[k]].next == Some(l[j]) <==> j == k + 1;
      assert nodes[l[k]].prev == Some(l[j]) <==> j == k - 1;
    }
  }

  /** The neighbours in a list from which position `k` was dropped. */
  lemma DroppedNeighbours(l: seq<nat>, k: nat, i: nat)
    requires k < |l| && i < |l| - 1
    ensures var m := DropAt(l, k); var j := if i < k then i else i + 1;
      && ListAt(m, i - 1) == (if j == k + 1 then ListAt(l, k - 1) else ListAt(l, j - 1))
      && ListAt(m, i + 1) == (if j == k - 1 then ListAt(l, k + 1) else ListAt(l, j + 1))
  {
  }

  /** Removing a node of one list does not touch the other list. */
  lemma UnlinkedOther(nodes: seq<ListNode>, h1: Option<nat>, l: seq<nat>, k: nat, h2: Option<nat>, m: seq<nat>)
    requires Linked(nodes, h1, l) && k < |l|
    requires Linked(nodes, h2, m) && Disjoint(l, m)
    ensures InRange(nodes, nodes[l[k]].prev) && InRange(nodes, nodes[l[k]].next)
    ensures Linked(Unlinked(nodes, l[k]), h2, m)
  {
    assert nodes[l[k]].prev == ListAt(l, k - 1) && nodes[l[k]].next == ListAt(l, k + 1);
  }

  /** Pushing a detached node makes it the first of the list. */
  lemma PushedOwn(nodes: seq<ListNode>, head: Option<nat>, l: seq<nat>, id: nat)
    requires Linked(nodes, head, l) && id < |nodes| && id !in l
    ensures Linked(Pushed(nodes, head, id), Some(id), [id] + l)
  {
    var m := [id] + l;
    var n := Pushed(nodes, head, id);
    forall i | 0 <= i < |m|
      ensures m[i] < |n| && n[m[i]].prev == ListAt(m, i - 1) && n[m[i]].next == ListAt(m, i + 1)
    {
      if i > 0 { assert m[i] == l[i - 1]; }
    }
  }

  /** Pushing onto one list does not touch the other list. */
  lemma PushedOther(nodes: seq<ListNode>, h1: Option<nat>, l: seq<nat>, id: nat, h2: Option<nat>, m: seq<nat>)
    requires Linked(nodes, h1, l) && id < |nodes|
    requires Linked(nodes, h2, m) && Disjoint(l, m) && id !in m
    ensures Linked(Pushed(nodes, h1, id), h2, m)
  {
  }

  /** Two lists over the same nodes that together hold each of the nodes exactly once. */
  ghost predicate TwoLists(nodes: seq<ListNode>, h1: Option<nat>, l1: seq<nat>, h2: Option<nat>, l2: seq<nat>) {
    && Linked(nodes, h1, l1)
    && Linked(nodes, h2, l2)
    && Disjoint(l1, l2)
    && |l1| + |l2| == |nodes|
    && forall x :: 0 <= x < |nodes| ==> x in l1 || x in l2
  }

  lemma TwoListsFacts(nodes: seq<ListNode>, h1: Option<nat>, l1: seq<nat>, h2: Option<nat>, l2: seq<nat>)
    requires TwoLists(nodes, h1, l1, h2, l2)
    ensures NoDup(l1) && NoDup(l2) && |l1| + |l2| == |nodes|
    ensures forall k :: 0 <= k < |l1| ==> l1[k] < |nodes| && l1[k] !in l2
    ensures forall k :: 0 <= k < |l2| ==> l2[k] < |nodes| && l2[k] !in l1
    ensures forall x :: 0 <= x < |nodes| ==> x in l1 || x in l2
  {
  }

  /** Moving the k-th element of one list to the front of the other keeps the two lists a partition. */
  lemma MovePartition(a: seq<nat>, b: seq<nat>, k: nat)
    requires k < |a| && NoDup(a) && Disjoint(a, b)
    ensures Disjoint(DropAt(a, k), b) && Disjoint(DropAt(a, k), [a[k]] + b) && a[k] !in b && a[k] !in DropAt(a, k)
    ensures forall x :: x in a || x in b ==> x in DropAt(a, k) || x in [a[k]] + b
  {
    DropAtNoDup(a, k);
    var c := DropAt(a, k);
    forall x | x in a ensures x in c || x == a[k] {
      var i :| 0 <= i < |a| && a[i] == x;
      if i < k { assert c[i] == x; } else if i > k { assert c[i - 1] == x; }
    }
    assert forall x :: x in b ==> x in [a[k]] + b;
    forall i | 0 <= i < |c| ensures c[i] in a {
      assert c[i] == a[if i < k then i else i + 1];
    }
  }

  /** Detaching a node from one list and pushing it onto the other. */
  lemma MovedToFront(nodes: seq<ListNode>, h1: Option<nat>, l1: seq<nat>, k: nat, h2: Option<nat>, l2: seq<nat>)
    requires TwoLists(nodes, h1, l1, h2, l2) && k < |l1|
    ensures var id := l1[k];
      && id < |nodes| && InRange(nodes, nodes[id].prev) && InRange(nodes, nodes[id].next) && InRange(nodes, h2)
      && (nodes[id].prev.None? <==> h1 == Some(id)) && h2 != Some(id)
      && TwoLists(Pushed(Unlinked(nodes, id), h2, id),
                  if h1 == Some(id) then nodes[id].next else h1, DropAt(l1, k), Some(id), [id] + l2)
  {
    var id := l1[k];
    var n := Unlinked(nodes, id);
    var h := if k == 0 then nodes[id].next else h1;
    UnlinkedOwn(nodes, h1, l1, k);
    UnlinkedOther(nodes, h1, l1, k, h2, l2);
    MovePartition(l1, l2, k);
    PushedOwn(n, h2, l2, id);
    PushedOther(n, h2, l2, id, h, DropAt(l1, k));
  }

  /** The same, from the second list to the first. */
  lemma MovedBack(nodes: seq<ListNode>, h1: Option<nat>, l1: seq<nat>, h2: Option<nat>, l2: seq<nat>, k: nat)
    requires TwoLists(nodes, h1, l1, h2, l2) && k < |l2|
    ensures var id := l2[k];
      && id < |nodes| && InRange(nodes, nodes[id].prev) && InRange(nodes, nodes[id].next) && InRange(nodes, h1)
      && (nodes[id].prev.None? <==> h2 == Some(id)) && h1 != Some(id)
      && TwoLists(Pushed(Unlinked(nodes, id), h1, id),
                  Some(id), [id] + l1, if h2 == Some(id) then nodes[id].next else h2, DropAt(l2, k))
  {
    MovedToFront(nodes, h2, l2, k, h1, l1);
  }

  function Ids(n: nat): (r: seq<nat>)
    ensures |r| == n && forall i :: 0 <= i < n ==> r[i] == i
  {
    seq(n, i => i)
  }

  /** `init` links all nodes in index order. */
  function Chain(n: nat): (r: seq<ListNode>)
    ensures |r| == n
    ensures forall i :: 0 <= i < n ==> r[i] == ListNode(ListAt(Ids(n), i - 1), ListAt(Ids(n), i + 1))
  {
    seq(n,
        i requires 0 <= i < n => ListNode(if i > 0 then Some(i - 1) else None, if i + 1 < n then Some(i + 1) else None))
  }

  lemma ChainLinked(n: nat)
    requires n > 0
    ensures TwoLists(Chain(n), None, [], Some(0), Ids(n))
  {
    forall x | 0 <= x < n ensures x in Ids(n) { assert Ids(n)[x] == x; }
  }
}
