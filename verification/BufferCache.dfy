/**
  The write-through buffer cache of kernel/src/fs/buffer: an LRU of 32 buffers on two
  intrusive lists, over a disk that is a sequence of blocks.

  Clients see a cache through `Handles()`: the buffers they hold, each with its block
  number and its in-memory bytes.  A client may change the bytes of a buffer it holds
  (`SetData` stands for stores through `get_data_ptr`), must write them back before it
  releases the buffer, and must not read a block it already holds.
*/
module BufferCache {
  import opened Base
  import opened IntrusiveList

  const N_BUFFER := 32

  datatype Buffer = Buffer(
    data: Block, block_no: nat, dev: nat, refcnt: nat, valid: bool, dirty: bool, locked: bool)

  predicate Matches(b: Buffer, dev: nat, blockno: nat) {
    b.dev == dev && b.block_no == blockno
  }

  /** What a client knows about a buffer it holds. */
  datatype Handle = Handle(block: nat, data: Block)

  function NewBuffers(): (bufs: seq<Buffer>)
    ensures |bufs| == N_BUFFER
    ensures forall i :: 0 <= i < N_BUFFER ==> bufs[i] == Buffer(ZeroBlock(), 0, 0, 0, false, false, false)
  {
    seq(N_BUFFER, _ => Buffer(ZeroBlock(), 0, 0, 0, false, false, false))
  }

  // ----- the invariant, over the values of the cache's fields

  /** A buffer is active iff its reference count is 1. */
  ghost predicate Refs(bufs: seq<Buffer>, active: seq<nat>, nblocks: nat) {
    forall id :: 0 <= id < |bufs| ==>
      && bufs[id].dev == 0
      && bufs[id].block_no < nblocks
      && bufs[id].refcnt == (if id in active then 1 else 0)
  }

  /** Never-used buffers form a suffix of the inactive list; the rest is in order of release. */
  ghost predicate Order(bufs: seq<Buffer>, inactive: seq<nat>, used: nat, stamp: seq<nat>, clock: nat) {
    && used <= |inactive| && |stamp| == |bufs|
    && (forall k :: 0 <= k < |inactive| ==> inactive[k] < |bufs| && (bufs[inactive[k]].valid <==> k < used))
    && (forall k :: used <= k < |inactive| ==> bufs[inactive[k]].block_no == 0)
    && (forall i, j :: 0 <= i < j < used ==> stamp[inactive[i]] > stamp[inactive[j]])
    && (forall k :: 0 <= k < used ==> stamp[inactive[k]] < clock)
  }

  /** Held buffers are valid, except `pending`, which is being filled. */
  ghost predicate Filled(bufs: seq<Buffer>, active: seq<nat>, pending: int) {
    forall id :: 0 <= id < |bufs| && id in active && id != pending ==> bufs[id].valid
  }

  /** At most one valid buffer per block. */
  ghost predicate OnePerBlock(bufs: seq<Buffer>) {
    forall i, j :: 0 <= i < j < |bufs| && bufs[i].valid && bufs[j].valid ==> bufs[i].block_no != bufs[j].block_no
  }

  /** Every valid buffer that nobody holds equals its block on disk. */
  ghost predicate IdleFresh(bufs: seq<Buffer>, active: seq<nat>, disk: seq<Block>) {
    forall id :: 0 <= id < |bufs| && id !in active && bufs[id].valid ==>
      bufs[id].block_no < |disk| && bufs[id].data == disk[bufs[id].block_no]
  }

  ghost predicate Coherent(bufs: seq<Buffer>, active: seq<nat>, disk: seq<Block>, pending: int) {
    Filled(bufs, active, pending) && OnePerBlock(bufs) && IdleFresh(bufs, active, disk)
  }

  /** The whole invariant of a cache, over its fields. */
  ghost predicate CacheInv(bufs: seq<Buffer>, nodes: seq<ListNode>, ah: Option<nat>, ih: Option<nat>, disk: seq<Block>,
                           active: seq<nat>, inactive: seq<nat>, used: nat, stamp: seq<nat>, clock: nat, peak: nat,
                           pending: int)
  {
    && |bufs| == |nodes| == |stamp| == N_BUFFER
    && TwoLists(nodes, ah, active, ih, inactive)
    && |active| <= peak
    && Refs(bufs, active, |disk|)
    && Order(bufs, inactive, used, stamp, clock)
    && Coherent(bufs, active, disk, pending)
  }

  /** No valid buffer other than `id` is for block `b`. */
  ghost predicate Alone(bufs: seq<Buffer>, id: nat, b: nat) {
    forall i :: 0 <= i < |bufs| && i != id && bufs[i].valid ==> bufs[i].block_no != b
  }

  ghost function HandlesOf(bufs: seq<Buffer>, active: seq<nat>): (h: map<nat, Handle>)
  {
    map id | 0 <= id < |bufs| && id in active :: Handle(bufs[id].block_no, bufs[id].data)
  }

  ghost predicate HeldIn(h: map<nat, Handle>, b: nat) {
    exists id :: id in h && h[id].block == b
  }

  // ----- how each operation keeps it

  /** Promoting the k-th inactive buffer. */
  lemma PromoteOrder(bufs: seq<Buffer>, inactive: seq<nat>, used: nat, stamp: seq<nat>, clock: nat, k: nat, b: Buffer)
    requires Order(bufs, inactive, used, stamp, clock) && NoDup(inactive) && k < |inactive|
    ensures Order(bufs[inactive[k] := b], DropAt(inactive, k), if k < used then used - 1 else used, stamp, clock)
  {
    var m := DropAt(inactive, k);
    forall i | 0 <= i < |m| ensures m[i] == inactive[if i < k then i else i + 1] && m[i] != inactive[k] {}
  }

  /** Releasing a held buffer puts it in front, with the newest stamp. */
  lemma ReleaseOrder(bufs: seq<Buffer>, inactive: seq<nat>, used: nat, stamp: seq<nat>, clock: nat, id: nat, b: Buffer)
    requires Order(bufs, inactive, used, stamp, clock) && id < |bufs| && id !in inactive && b.valid
    ensures Order(bufs[id := b], [id] + inactive, used + 1, stamp[id := clock], clock + 1)
  {
    var m := [id] + inactive;
    forall i | 0 <= i < |m| ensures m[i] == if i == 0 then id else inactive[i - 1] {}
  }

  /** The buffer handed out by `get` becomes active with one reference. */
  lemma GetRefs(bufs: seq<Buffer>, active: seq<nat>, nblocks: nat, id: nat, b: Buffer)
    requires Refs(bufs, active, nblocks) && id < |bufs| && id !in active
    requires b.dev == 0 && b.block_no < nblocks && b.refcnt == 1
    ensures Refs(bufs[id := b], [id] + active, nblocks)
  {
  }

  lemma ReleaseRefs(bufs: seq<Buffer>, active: seq<nat>, nblocks: nat, k: nat, b: Buffer)
    requires Refs(bufs, active, nblocks) && k < |active| && active[k] < |bufs| && NoDup(active)
    requires b.dev == 0 && b.block_no < nblocks && b.refcnt == 0
    ensures Refs(bufs[active[k] := b], DropAt(active, k), nblocks)
  {
    DropAtMembers(active, k);
  }

  lemma DropAtMembers(l: seq<nat>, k: nat)
    requires NoDup(l) && k < |l|
    ensures forall x :: x in DropAt(l, k) <==> x in l && x != l[k]
  {
    DropAtNoDup(l, k);
    var c := DropAt(l, k);
    forall x | x in l && x != l[k] ensures x in c {
      var i :| 0 <= i < |l| && l[i] == x;
      if i < k { assert c[i] == x; } else { assert c[i - 1] == x; }
    }
    forall x | x in c ensures x in l {
      var i :| 0 <= i < |c| && c[i] == x;
      assert c[i] == l[if i < k then i else i + 1];
    }
  }

  /** Promoting or recycling leaves everything coherent but the pending buffer, which is alone for its block. */
  lemma GetCoherent(bufs: seq<Buffer>, active: seq<nat>, disk: seq<Block>, id: nat, b: Buffer)
    requires Coherent(bufs, active, disk, -1) && id < |bufs| && id !in active
    requires Alone(bufs, id, b.block_no)
    ensures Coherent(bufs[id := b], [id] + active, disk, id) && Alone(bufs[id := b], id, b.block_no)
  {
  }

  /** Filling the pending buffer makes the whole cache coherent again. */
  lemma FillCoherent(bufs: seq<Buffer>, active: seq<nat>, disk: seq<Block>, id: nat, b: Buffer)
    requires Coherent(bufs, active, disk, id) && id < |bufs| && id in active
    requires b.valid && b.block_no == bufs[id].block_no && Alone(bufs, id, b.block_no)
    ensures Coherent(bufs[id := b], active, disk, -1)
  {
  }

  /** Writing a held buffer back cannot make an idle copy stale, because the held copy is the only one. */
  lemma WriteCoherent(bufs: seq<Buffer>, active: seq<nat>, disk: seq<Block>, id: nat, d: Block)
    requires Coherent(bufs, active, disk, -1) && id < |bufs| && id in active && bufs[id].block_no < |disk|
    ensures Coherent(bufs, active, disk[bufs[id].block_no := d], -1)
  {
  }

  lemma ReleaseCoherent(bufs: seq<Buffer>, active: seq<nat>, disk: seq<Block>, k: nat, b: Buffer)
    requires Coherent(bufs, active, disk, -1) && k < |active| && active[k] < |bufs| && NoDup(active)
    requires b.valid && b.block_no == bufs[active[k]].block_no < |disk| && b.data == disk[b.block_no]
    ensures Coherent(bufs[active[k] := b], DropAt(active, k), disk, -1)
  {
    DropAtMembers(active, k);
  }

  /**
    A block found by neither search has no valid buffer; and the first idle buffer with key (0, b) is the only one
    that may be valid for b, although every never-used buffer has key (0, 0): those come last in the list.
  */
  lemma FirstMatchAlone(bufs: seq<Buffer>, active: seq<nat>, inactive: seq<nat>, used: nat, stamp: seq<nat>, clock: nat,
                        disk: seq<Block>, b: nat, k: nat)
    requires Refs(bufs, active, |disk|) && Order(bufs, inactive, used, stamp, clock) && Coherent(bufs, active, disk, -1)
    requires forall id :: 0 <= id < |bufs| ==> id in active || id in inactive
    requires forall id :: 0 <= id < |bufs| && id in active ==> !Matches(bufs[id], 0, b)
    requires k <= |inactive| && forall i :: 0 <= i < k ==> !Matches(bufs[inactive[i]], 0, b)
    ensures k < |inactive| && Matches(bufs[inactive[k]], 0, b) ==> Alone(bufs, inactive[k], b)
    ensures k == |inactive| ==> forall id :: Alone(bufs, id, b)
  {
    if k < |inactive| && Matches(bufs[inactive[k]], 0, b) && !bufs[inactive[k]].valid {
      forall i | 0 <= i < |bufs| && bufs[i].valid ensures bufs[i].block_no != b {
        if i in inactive {
          var j :| 0 <= j < |inactive| && inactive[j] == i;
          assert j < used <= k;
        }
      }
    }
    if k == |inactive| {
      forall i | 0 <= i < |bufs| ensures bufs[i].block_no != b {
        assert bufs[i].dev == 0;
      }
    }
  }

  /** Which buffer the tail of the inactive list is: never used if any idle one is, else released longest ago. */
  lemma LruVictim(bufs: seq<Buffer>, inactive: seq<nat>, used: nat, stamp: seq<nat>, clock: nat)
    requires Order(bufs, inactive, used, stamp, clock) && inactive != []
    ensures Evictable(bufs, inactive, stamp, inactive[|inactive| - 1])
  {
    var v := inactive[|inactive| - 1];
    if i :| 0 <= i < |inactive| && !bufs[inactive[i]].valid {
      assert used <= i;
    }
    forall i | 0 <= i < |inactive| && bufs[v].valid ensures stamp[v] <= stamp[inactive[i]] {
      assert used == |inactive|;
    }
  }

  ghost predicate Evictable(bufs: seq<Buffer>, idle: seq<nat>, stamp: seq<nat>, v: nat)
    requires |stamp| == |bufs|
    requires forall i :: 0 <= i < |idle| ==> idle[i] < |bufs|
  {
    && v in idle
    && ((exists i :: 0 <= i < |idle| && !bufs[idle[i]].valid) ==> !bufs[v].valid)
    && (bufs[v].valid ==> forall i :: 0 <= i < |idle| ==> stamp[v] <= stamp[idle[i]])
  }

  /** The `locked` flag takes no part in the invariant. */
  lemma LockCoherent(bufs: seq<Buffer>, active: seq<nat>, inactive: seq<nat>, used: nat, stamp: seq<nat>, clock: nat,
                     disk: seq<Block>, id: nat)
    requires id < |bufs|
    requires Refs(bufs, active, |disk|) && Order(bufs, inactive, used, stamp, clock) && Coherent(bufs, active, disk, -1)
    ensures id in active ==> bufs[id].valid
    ensures var c := bufs[id := bufs[id].(locked := true)];
      Refs(c, active, |disk|) && Order(c, inactive, used, stamp, clock) && Coherent(c, active, disk, -1)
  {
  }

  /** Editing the contents of a buffer that is not idle keeps the lists' invariants. */
  lemma EditHeld(bufs: seq<Buffer>, active: seq<nat>, inactive: seq<nat>, used: nat, stamp: seq<nat>, clock: nat,
                 nblocks: nat, id: nat, b: Buffer)
    requires id < |bufs| && id !in inactive
    requires Refs(bufs, active, nblocks) && Order(bufs, inactive, used, stamp, clock)
    requires b.dev == bufs[id].dev && b.block_no == bufs[id].block_no && b.refcnt == bufs[id].refcnt
    ensures Refs(bufs[id := b], active, nblocks) && Order(bufs[id := b], inactive, used, stamp, clock)
  {
  }

  lemma StoreCoherent(bufs: seq<Buffer>, active: seq<nat>, disk: seq<Block>, id: nat, b: Buffer)
    requires Coherent(bufs, active, disk, -1) && id < |bufs| && id in active
    requires b.valid && b.block_no == bufs[id].block_no
    ensures Coherent(bufs[id := b], active, disk, -1)
  {
  }

  lemma HeldValid(bufs: seq<Buffer>, active: seq<nat>, disk: seq<Block>, id: nat)
    requires Coherent(bufs, active, disk, -1) && id < |bufs| && id in active
    ensures bufs[id].valid
  {
  }

  lemma IdleData(bufs: seq<Buffer>, active: seq<nat>, disk: seq<Block>, id: nat)
    requires Coherent(bufs, active, disk, -1) && id < |bufs| && id !in active && bufs[id].block_no < |disk|
    ensures bufs[id].valid ==> bufs[id].data == disk[bufs[id].block_no]
  {
  }

  lemma HandlesGet(bufs: seq<Buffer>, active: seq<nat>, id: nat, b: Buffer)
    requires id < |bufs| && id !in active
    ensures id !in HandlesOf(bufs, active)
    ensures HandlesOf(bufs[id := b], [id] + active) == HandlesOf(bufs, active)[id := Handle(b.block_no, b.data)]
  {
  }

  lemma HandlesSet(bufs: seq<Buffer>, active: seq<nat>, id: nat, b: Buffer)
    requires id < |bufs| && id in active
    ensures id in HandlesOf(bufs, active) && HandlesOf(bufs, active)[id] == Handle(bufs[id].block_no, bufs[id].data)
    ensures HandlesOf(bufs[id := b], active) == HandlesOf(bufs, active)[id := Handle(b.block_no, b.data)]
  {
  }

  lemma HandlesRelease(bufs: seq<Buffer>, active: seq<nat>, k: nat, b: Buffer)
    requires k < |active| && active[k] < |bufs| && NoDup(active)
    ensures HandlesOf(bufs[active[k] := b], DropAt(active, k)) == HandlesOf(bufs, active) - {active[k]}
  {
    DropAtMembers(active, k);
  }

  lemma NoHandles(bufs: seq<Buffer>)
    ensures HandlesOf(bufs, []) == map[] && forall b :: !HeldIn(map[], b)
  {
  }

  /** Reading one more block adds exactly that block to the held ones. */
  lemma HeldAfterRead(h: map<nat, Handle>, g: map<nat, Handle>, id: nat, b: nat, d: Block)
    requires id !in h && g == h[id := Handle(b, d)]
    ensures forall c :: HeldIn(g, c) <==> c == b || HeldIn(h, c)
  {
    forall c | HeldIn(h, c) ensures HeldIn(g, c) {
      var i :| i in h && h[i].block == c;
      assert g[i].block == c;
    }
    assert g[id].block == b;
  }

  /** Never-used buffers satisfy the invariant on any disk. */
  lemma FreshCoherent(bufs: seq<Buffer>, stamp: seq<nat>, disk: seq<Block>)
    requires |disk| > 0 && |stamp| == |bufs|
    requires forall i :: 0 <= i < |bufs| ==>
      bufs[i].block_no == 0 && bufs[i].dev == 0 && bufs[i].refcnt == 0 && !bufs[i].valid
    ensures Refs(bufs, [], |disk|) && Order(bufs, Ids(|bufs|), 0, stamp, 0) && Coherent(bufs, [], disk, -1)
    ensures HandlesOf(bufs, []) == map[]
  {
  }

  class Cache {
    var buffers: seq<Buffer>
    var nodes: seq<ListNode>
    var activeHead: Option<nat>
    var inactiveHead: Option<nat>
    var disk: seq<Block>

    ghost var active: seq<nat>    // the active list, head first
    ghost var inactive: seq<nat>  // the inactive list, most recently released first
    ghost var used: nat           // inactive[..used] hold blocks, inactive[used..] were never used
    ghost var stamp: seq<nat>     // when each buffer was last released
    ghost var clock: nat
    ghost var peak: nat           // the largest number of buffers ever held at once

    /** Both lists are well linked and together hold every buffer exactly once. */
    ghost predicate Lists()
      reads this
    {
      && |buffers| == |nodes| == |stamp| == N_BUFFER
      && TwoLists(nodes, activeHead, active, inactiveHead, inactive)
    }

    /** The invariant while buffer `pending` is handed out but not yet filled. */
    ghost predicate ValidBut(pending: int)
      reads this
    {
      CacheInv(buffers, nodes, activeHead, inactiveHead, disk, active, inactive, used, stamp, clock, peak, pending)
    }

    ghost predicate Valid()
      reads this
    {
      ValidBut(-1)
    }

    /** The buffers held by clients. */
    ghost function Handles(): (h: map<nat, Handle>)
      reads this
    {
      HandlesOf(buffers, active)
    }

    /** All buffers start on the inactive list with key (0, 0). */
    constructor (image: seq<Block>)
      requires |image| > 0
      ensures Valid() && disk == image && active == [] && used == 0 && peak == 0
      ensures Handles() == map[]
    {
      disk := image;
      buffers := NewBuffers();
      nodes := Chain(N_BUFFER);
      inactiveHead, activeHead := Some(0), None;
      active, inactive := [], Ids(N_BUFFER);
      used, clock, peak := 0, 0, 0;
      stamp := seq(N_BUFFER, _ => 0);
      new;
      hide TwoLists, Refs, Order, Coherent, HandlesOf, NewBuffers, Chain;
      ChainLinked(N_BUFFER);
      FreshCoherent(buffers, stamp, disk);
    }

    /** `remove_node`: the node array and the list heads without `id`, which is in one of the lists. */
    method RemoveNode(id: nat)
      requires id < |nodes| && InRange(nodes, nodes[id].prev) && InRange(nodes, nodes[id].next)
      modifies this`nodes, this`activeHead, this`inactiveHead
      ensures nodes == Unlinked(old(nodes), id)
      ensures activeHead ==
        if old(nodes)[id].prev.None? && old(activeHead) == Some(id) then old(nodes)[id].next else old(activeHead)
      ensures inactiveHead ==
        if old(nodes)[id].prev.None? && old(activeHead) != Some(id) && old(inactiveHead) == Some(id)
        then old(nodes)[id].next else old(inactiveHead)
    {
      var prev, next := nodes[id].prev, nodes[id].next;
      if prev.Some? {
        nodes := nodes[prev.value := nodes[prev.value].(next := next)];
      } else if activeHead == Some(id) {
        activeHead := next;
      } else if inactiveHead == Some(id) {
        inactiveHead := next;
      }
      if next.Some? {
        nodes := nodes[next.value := nodes[next.value].(prev := prev)];
      }
      nodes := nodes[id := ListNode(None, None)];
    }

    /** `insert_active_head`: take the k-th inactive node to the front of the active list. */
    method InsertActiveHead(id: nat, ghost k: nat)
      requires Lists() && k < |inactive| && inactive[k] == id
      modifies this`nodes, this`activeHead, this`inactiveHead, this`active, this`inactive
      ensures Lists()
      ensures active == [id] + old(active) && inactive == DropAt(old(inactive), k)
    {
      hide TwoLists;
      MovedBack(nodes, activeHead, active, inactiveHead, inactive, k);
      RemoveNode(id);
      nodes := Pushed(nodes, activeHead, id);
      activeHead := Some(id);
      active, inactive := [id] + active, DropAt(inactive, k);
    }

    /** `insert_inactive_head`: take the k-th active node to the front of the inactive list. */
    method InsertInactiveHead(id: nat, ghost k: nat)
      requires Lists() && k < |active| && active[k] == id
      modifies this`nodes, this`activeHead, this`inactiveHead, this`active, this`inactive
      ensures Lists()
      ensures inactive == [id] + old(inactive) && active == DropAt(old(active), k)
    {
      hide TwoLists;
      MovedToFront(nodes, activeHead, active, k, inactiveHead, inactive);
      RemoveNode(id);
      nodes := Pushed(nodes, inactiveHead, id);
      inactiveHead := Some(id);
      active, inactive := DropAt(active, k), [id] + inactive;
    }

    /** `find_active`: the held buffer with the given key, if any. */
    method FindActive(dev: nat, blockno: nat) returns (r: Option<nat>)
      requires Lists()
      ensures r.Some? ==> r.value in active && r.value < N_BUFFER
                          && Matches(buffers[r.value], dev, blockno)
      ensures r.None? ==> forall id :: id in active && id < N_BUFFER ==> !Matches(buffers[id], dev, blockno)
    {
      var current := activeHead;
      ghost var k := 0;
      while current.Some?
        invariant 0 <= k <= |active| && current == ListAt(active, k)
        invariant forall i :: 0 <= i < k ==> active[i] < N_BUFFER && !Matches(buffers[active[i]], dev, blockno)
        decreases |active| - k
      {
        var buf := buffers[current.value];
        if Matches(buf, dev, blockno) {
          return current;
        }
        current := nodes[current.value].next;
        k := k + 1;
      }
      return None;
    }

    /** `find_inactive`: the first idle buffer with the given key, at position `k` of its list. */
    method FindInactive(dev: nat, blockno: nat) returns (r: Option<nat>, ghost k: nat)
      requires Lists()
      ensures r == ListAt(inactive, k) && k <= |inactive|
      ensures r.Some? ==> r.value < N_BUFFER && Matches(buffers[r.value], dev, blockno)
      ensures forall i :: 0 <= i < k ==> inactive[i] < N_BUFFER && !Matches(buffers[inactive[i]], dev, blockno)
    {
      var current := inactiveHead;
      k := 0;
      while current.Some?
        invariant 0 <= k <= |inactive| && current == ListAt(inactive, k)
        invariant forall i :: 0 <= i < k ==> inactive[i] < N_BUFFER && !Matches(buffers[inactive[i]], dev, blockno)
        decreases |inactive| - k
      {
        var buf := buffers[current.value];
        if Matches(buf, dev, blockno) {
          return current, k;
        }
        current := nodes[current.value].next;
        k := k + 1;
      }
      return None, k;
    }

    /** `get_lru`: the tail of the inactive list. */
    method GetLru() returns (r: Option<nat>)
      requires Lists()
      ensures r == ListAt(inactive, |inactive| - 1)
    {
      if inactiveHead.None? { return None; }
      var current := inactiveHead.value;
      ghost var k := 0;
      while nodes[current].next.Some?
        invariant 0 <= k < |inactive| && current == inactive[k] && current < N_BUFFER
        decreases |inactive| - k
      {
        current := nodes[current].next.value;
        k := k + 1;
      }
      return Some(current);
    }

    /** Hand out the k-th inactive buffer with new fields `b`: it becomes the first active one. */
    method HandOut(id: nat, ghost k: nat, b: Buffer)
      requires Valid() && k < |inactive| && inactive[k] == id
      requires b.dev == 0 && b.block_no < |disk| && b.refcnt == 1 && Alone(buffers, id, b.block_no)
      modifies this`nodes, this`activeHead, this`inactiveHead, this`active, this`inactive
      modifies this`buffers, this`used, this`peak
      ensures ValidBut(id) && Alone(buffers, id, b.block_no)
      ensures buffers == old(buffers)[id := b] && active == [id] + old(active)
      ensures peak == Max(old(peak), |active|)
    {
      hide TwoLists, Refs, Order, Coherent, Alone, NoDup, DropAt;
      TwoListsFacts(nodes, activeHead, active, inactiveHead, inactive);
      PromoteOrder(buffers, inactive, used, stamp, clock, k, b);
      GetRefs(buffers, active, |disk|, id, b);
      GetCoherent(buffers, active, disk, id, b);
      buffers := buffers[id := b];
      InsertActiveHead(id, k);
      used := if k < used then used - 1 else used;
      peak := Max(peak, |active|);
    }

    /** `recycle_lru`: reuse the least recently released buffer for a block that is not cached. */
    method RecycleLru(dev: nat, blockno: nat) returns (lru: nat)
      requires Valid() && dev == 0 && blockno < |disk|
      requires |active| < N_BUFFER && forall id :: Alone(buffers, id, blockno)
      modifies this`nodes, this`activeHead, this`inactiveHead, this`active, this`inactive
      modifies this`buffers, this`used, this`peak
      ensures ValidBut(lru) && lru < N_BUFFER && lru !in old(active) && Alone(buffers, lru, blockno)
      ensures forall i :: 0 <= i < |old(inactive)| ==> old(inactive)[i] < N_BUFFER
      ensures |old(stamp)| == |old(buffers)| == N_BUFFER
      ensures Evictable(old(buffers), old(inactive), old(stamp), lru)
      ensures exists b: Buffer :: b.block_no == blockno && !b.valid && buffers == old(buffers)[lru := b]
      ensures active == [lru] + old(active) && peak == Max(old(peak), |active|)
    {
      hide TwoLists, Refs, Order, Coherent, Alone, NoDup, DropAt, Evictable;
      TwoListsFacts(nodes, activeHead, active, inactiveHead, inactive);
      var r := GetLru();
      lru := r.value;
      LruVictim(buffers, inactive, used, stamp, clock);
      var b := buffers[lru].(dev := dev, block_no := blockno, valid := false, refcnt := 1, locked := true);
      HandOut(lru, |inactive| - 1, b);
    }

    /** Whether some client holds block `b`. */
    ghost predicate Held(b: nat)
      reads this
    {
      HeldIn(Handles(), b)
    }

    /** `get`: the buffer for a block.  A block that is already held is returned as it is, with no new reference. */
    method Get(dev: nat, blockno: nat) returns (id: nat)
      requires Valid() && dev == 0 && blockno < |disk|
      requires Held(blockno) || |active| < N_BUFFER
      modifies this`nodes, this`activeHead, this`inactiveHead, this`active, this`inactive
      modifies this`buffers, this`used, this`peak
      ensures id < N_BUFFER == |buffers| == |old(buffers)| && id in active
      ensures old(Held(blockno)) ==>
        && Valid() && peak == old(peak) && active == old(active)
        && buffers == old(buffers)[id := old(buffers)[id].(locked := true)] && buffers[id].block_no == blockno
        && buffers[id].valid
      ensures !old(Held(blockno)) ==>
        && ValidBut(id) && peak == Max(old(peak), |active|) && active == [id] + old(active) && id !in old(active)
        && buffers == old(buffers)[id := buffers[id]] && buffers[id].block_no == blockno < |disk|
        && Alone(buffers, id, blockno) && (buffers[id].valid ==> buffers[id].data == disk[blockno])
    {
      hide TwoLists, Order, Coherent, Alone, NoDup, DropAt, Evictable;
      TwoListsFacts(nodes, activeHead, active, inactiveHead, inactive);
      var hit := FindActive(dev, blockno);
      if hit.Some? {
        id := hit.value;
        assert Handles()[id].block == blockno;
        LockCoherent(buffers, active, inactive, used, stamp, clock, disk, id);
        buffers := buffers[id := buffers[id].(locked := true)];
        return;
      }
      var idle, k := FindInactive(dev, blockno);
      FirstMatchAlone(buffers, active, inactive, used, stamp, clock, disk, blockno, k);
      if idle.Some? {
        id := idle.value;
        IdleData(buffers, active, disk, id);
        var b := buffers[id].(refcnt := buffers[id].refcnt + 1, locked := true);
        HandOut(id, k, b);
        return;
      }
      id := RecycleLru(dev, blockno);
    }

    /**
      `read`: a block that nobody holds is handed out with the disk's current contents; a block that is already held is
      handed out again without a new reference.
    */
    method Read(dev: nat, blockno: nat) returns (id: nat)
      requires Valid() && dev == 0 && blockno < |disk|
      requires Held(blockno) || |active| < N_BUFFER
      modifies this
      ensures Valid() && disk == old(disk) && stamp == old(stamp) && clock == old(clock) && id in Handles()
      ensures old(Held(blockno)) ==>
        && Handles() == old(Handles()) && Handles()[id].block == blockno
        && |active| == |old(active)| && peak == old(peak)
      ensures !old(Held(blockno)) ==>
        && id !in old(Handles()) && Handles() == old(Handles())[id := Handle(blockno, disk[blockno])]
        && |active| == |old(active)| + 1 && peak == Max(old(peak), |active|)
    {
      hide TwoLists, Order, Refs, Coherent, Alone, HandlesOf;
      ghost var held := Held(blockno);
      id := Get(dev, blockno);
      if !held {
        HandlesGet(old(buffers), old(active), id, buffers[id]);
      } else {
        HandlesSet(old(buffers), active, id, buffers[id]);
        assert Handles() == old(Handles());
      }
      if !buffers[id].valid {
        Fill(id);
      } else if !held {
        FillCoherent(buffers, active, disk, id, buffers[id]);
        assert buffers == buffers[id := buffers[id]];
      }
    }

    /** Read the pending buffer's block from the disk. */
    method Fill(id: nat)
      requires ValidBut(id) && id < |buffers| && id in active && Alone(buffers, id, buffers[id].block_no)
      requires buffers[id].block_no < |disk|
      modifies this`buffers
      ensures Valid()
      ensures Handles() == old(Handles())[id := Handle(old(buffers)[id].block_no, disk[old(buffers)[id].block_no])]
    {
      hide TwoLists, Order, Refs, Coherent, Alone;
      TwoListsFacts(nodes, activeHead, active, inactiveHead, inactive);
      ghost var b := buffers[id].(data := disk[buffers[id].block_no], valid := true);
      HandlesSet(buffers, active, id, b);
      EditHeld(buffers, active, inactive, used, stamp, clock, |disk|, id, b);
      FillCoherent(buffers, active, disk, id, b);
      hide HandlesOf;
      buffers := buffers[id := buffers[id].(data := disk[buffers[id].block_no])];
      buffers := buffers[id := buffers[id].(valid := true)];
      assert buffers == old(buffers)[id := b];
    }

    /** A load through `get_data_ptr` from a held buffer. */
    method Data(id: nat) returns (d: Block)
      requires id in Handles()
      ensures d == Handles()[id].data
    {
      d := buffers[id].data;
    }

    /** A store through `get_data_ptr` into a held buffer. */
    method SetData(id: nat, d: Block)
      requires Valid() && id in Handles()
      modifies this`buffers
      ensures Valid() && Handles() == old(Handles())[id := old(Handles())[id].(data := d)]
    {
      hide TwoLists, Order, Alone;
      TwoListsFacts(nodes, activeHead, active, inactiveHead, inactive);
      ghost var b := buffers[id].(data := d);
      HandlesSet(buffers, active, id, b);
      EditHeld(buffers, active, inactive, used, stamp, clock, |disk|, id, b);
      StoreCoherent(buffers, active, disk, id, b);
      hide Coherent, Refs;
      buffers := buffers[id := buffers[id].(data := d)];
    }

    /** `write`: the held bytes become the disk's. */
    method Write(id: nat)
      requires Valid() && id in Handles()
      modifies this`disk, this`buffers
      ensures Valid() && Handles() == old(Handles())
      ensures Handles()[id].block < |old(disk)| && disk == old(disk)[Handles()[id].block := Handles()[id].data]
    {
      hide TwoLists, Order, Alone;
      TwoListsFacts(nodes, activeHead, active, inactiveHead, inactive);
      ghost var b := buffers[id].(dirty := false);
      HandlesSet(buffers, active, id, b);
      EditHeld(buffers, active, inactive, used, stamp, clock, |disk|, id, b);
      StoreCoherent(buffers, active, disk, id, b);
      WriteCoherent(buffers[id := b], active, disk, id, b.data);
      hide Coherent, Refs;
      disk := disk[buffers[id].block_no := buffers[id].data];
      buffers := buffers[id := buffers[id].(dirty := false)];
    }

    /** `release`: a written-back buffer becomes the most recently released idle one. */
    method Release(id: nat)
      requires Valid() && id in Handles()
      requires Handles()[id].block < |disk| && Handles()[id].data == disk[Handles()[id].block]
      modifies this
      ensures Valid() && disk == old(disk) && peak == old(peak)
      ensures Handles() == old(Handles()) - {id} && |active| == |old(active)| - 1
      ensures id < |old(stamp)| && stamp == old(stamp)[id := old(clock)] && clock == old(clock) + 1
    {
      hide TwoLists, Order, Alone, DropAt, Coherent, OnePerBlock, NoDup;
      TwoListsFacts(nodes, activeHead, active, inactiveHead, inactive);
      HeldValid(buffers, active, disk, id);
      ghost var k :| 0 <= k < |active| && active[k] == id;
      ghost var b := buffers[id].(refcnt := buffers[id].refcnt - 1, locked := false);
      HandlesRelease(buffers, active, k, b);
      ReleaseRefs(buffers, active, |disk|, k, b);
      ReleaseOrder(buffers, inactive, used, stamp, clock, id, b);
      ReleaseCoherent(buffers, active, disk, k, b);
      hide Refs, HandlesOf;
      buffers := buffers[id := buffers[id].(refcnt := buffers[id].refcnt - 1, locked := false)];
      if buffers[id].refcnt == 0 {
        InsertInactiveHead(id, k);
      }
      used, stamp, clock := used + 1, stamp[id := clock], clock + 1;
    }

    /** The tail common to all updates: store the new bytes, write them through, release the buffer. */
    method Commit(id: nat, d: Block)
      requires Valid() && id in Handles()
      modifies this
      ensures Valid() && peak == old(peak)
      ensures Handles() == old(Handles()) - {id} && |active| == |old(active)| - 1
      ensures old(Handles())[id].block < |old(disk)| && disk == old(disk)[old(Handles())[id].block := d]
    {
      hide CacheInv, HandlesOf;
      SetData(id, d);
      Write(id);
      Release(id);
    }
  }
}
