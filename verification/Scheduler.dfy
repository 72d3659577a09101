/**
  The scheduler's code (kernel/src/proc/scheduler.rs, runnable_queue.rs and process.rs): loops over the process table
  and a 64-bit word that records the Runnable slots.  Each method takes exactly its step of the process life cycle, in
  which the next process is found by a linear scan of the table.
*/
module Scheduler {
  import opened Base
  import opened Bits
  import opened Processes

  /** Bit `i` is set exactly when slot `i` is Runnable. */
  ghost predicate BitsOk(ps: seq<Process>, bitmap: nat) {
    && |ps| == NPROC && bitmap < Pow2(NPROC)
    && forall i: nat :: i < NPROC ==> (Bit(bitmap, i) <==> ps[i].state.Runnable?)
  }

  lemma MarkOk(ps: seq<Process>, bitmap: nat, i: nat, p: Process)
    requires BitsOk(ps, bitmap) && i < NPROC
    ensures p.state.Runnable? ==> BitsOk(ps[i := p], WithBit(bitmap, i))
    ensures !p.state.Runnable? ==> BitsOk(ps[i := p], WithoutBit(bitmap, i))
    ensures p.state.Runnable? == ps[i].state.Runnable? ==> BitsOk(ps[i := p], bitmap)
  {
    hide Pow2, Bit, WithBit, WithoutBit;
    StaysInWidth(bitmap, i, NPROC);
    forall k: nat | k < NPROC
      ensures Bit(WithBit(bitmap, i), k) == (i == k || Bit(bitmap, k))
      ensures Bit(WithoutBit(bitmap, i), k) == (i != k && Bit(bitmap, k))
    {
      WithBitAt(bitmap, i, k);
      WithoutBitAt(bitmap, i, k);
    }
  }

  /** The lowest set bit is the lowest Runnable slot. */
  lemma LowestBit(ps: seq<Process>, bitmap: nat)
    requires BitsOk(ps, bitmap)
    ensures bitmap == 0 ==> Scan(ps, AnyRunnable, 0) == None
    ensures bitmap > 0 ==> TrailingZeros(bitmap) < NPROC && Scan(ps, AnyRunnable, 0) == Some(TrailingZeros(bitmap))
  {
    hide Bit, TrailingZeros, Scan, Pow2;
    var r := Scan(ps, AnyRunnable, 0);
    if bitmap == 0 {
      forall i: nat | i < NPROC ensures !ps[i].state.Runnable? { ZeroBit(i); }
    } else {
      TrailingZerosLowest(bitmap);
      TrailingZerosBound(bitmap, NPROC);
      var z := TrailingZeros(bitmap);
      assert Matches(ps[z], AnyRunnable);
      forall i: nat | i < z ensures !Matches(ps[i], AnyRunnable) {}
    }
  }

  lemma BootBits()
    ensures BitsOk(Boot().procs, 1)
  {
    var ps := Boot().procs;
    BootSlots();
    forall i: nat | i < NPROC ensures Bit(1, i) <==> ps[i].state.Runnable? {
      if i > 0 { ZeroBit(i - 1); }
    }
  }

  class Scheduler {
    var procs: seq<Process>
    var bitmap: nat
    var curr: Option<nat>
    var nextPid: nat

    ghost function Model(): State
      reads this
    {
      State(procs, curr, nextPid)
    }

    ghost predicate Valid()
      reads this
    {
      BitsOk(procs, bitmap)
    }

    /** The machine after boot. */
    constructor ()
      ensures Valid() && Model() == Boot()
    {
      var s := Boot();
      procs, bitmap, curr, nextPid := s.procs, 1, None, 2;
      BootBits();
    }

    /** `find_runnable`: the trailing-zeros pick agrees with the linear scan. */
    method FindRunnable() returns (r: Option<nat>)
      requires Valid()
      ensures r == Scan(procs, AnyRunnable, 0)
    {
      LowestBit(procs, bitmap);
      if bitmap == 0 { return None; }
      return Some(TrailingZeros(bitmap));
    }

    /** The first half of the scheduler loop; a set bit is never stale. */
    method PickNext() returns (r: Option<nat>)
      requires Valid() && Enabled(Model(), Pick)
      modifies this
      ensures Valid() && Model() == Apply(old(Model()), Pick) && r == curr
    {
      assert |procs| == NPROC;
      hide BitsOk, Scan;
      r := FindRunnable();
      if r.Some? {
        var i := r.value;
        MarkOk(procs, bitmap, i, procs[i].(state := Running));
        procs := procs[i := procs[i].(state := Running)];
        bitmap := WithoutBit(bitmap, i);
        curr := r;
      }
    }

    /** The second half of the scheduler loop, after the process switched back. */
    method SwitchedBack()
      requires Valid() && Enabled(Model(), SwitchBack)
      modifies this
      ensures Valid() && Model() == Apply(old(Model()), SwitchBack)
    {
      var i := curr.value;
      MarkOk(procs, bitmap, i, procs[i].(state := Zombie));
      MarkOk(procs, bitmap, i, procs[i]);
      assert procs[i := procs[i]] == procs;
      hide BitsOk;
      curr := None;
      if procs[i].state.Dying? {
        procs := procs[i := procs[i].(state := Zombie)];
      } else if procs[i].state.Runnable? {
        bitmap := WithBit(bitmap, i);
      }
    }

    /** `yield_proc` and `sched`, up to the switch. */
    method YieldProc()
      requires Valid() && Enabled(Model(), Yield)
      modifies this
      ensures Valid() && Model() == Apply(old(Model()), Yield)
    {
      var i := curr.value;
      MarkOk(procs, bitmap, i, procs[i].(state := Runnable));
      hide BitsOk;
      procs := procs[i := procs[i].(state := Runnable)];
      bitmap := WithBit(bitmap, i);
    }

    /** `sleep`, up to the switch. */
    method SleepOn(chan: Chan)
      requires Valid() && Enabled(Model(), Sleep(chan))
      modifies this
      ensures Valid() && Model() == Apply(old(Model()), Sleep(chan))
    {
      var i := curr.value;
      MarkOk(procs, bitmap, i, procs[i].(state := Sleeping, chan := chan));
      hide BitsOk;
      procs := procs[i := procs[i].(state := Sleeping, chan := chan)];
      bitmap := WithoutBit(bitmap, i);
    }

    /** `wakeup` */
    method Wakeup(chan: Chan)
      requires Valid()
      modifies this`procs, this`bitmap
      ensures Valid() && procs == Woken(old(procs), chan)
    {
      assert |procs| == NPROC;
      hide BitsOk, Woken;
      var i := 0;
      while i < NPROC
        invariant 0 <= i <= NPROC == |procs| == |old(procs)| && Valid()
        invariant forall k :: 0 <= k < NPROC ==>
          procs[k] == if k < i then WokenOne(old(procs)[k], chan) else old(procs)[k]
      {
        var p := procs[i];
        if p.state.Sleeping? && p.chan == chan {
          MarkOk(procs, bitmap, i, p.(state := Runnable, chan := NoChan));
          procs := procs[i := p.(state := Runnable, chan := NoChan)];
          bitmap := WithBit(bitmap, i);
        }
        i := i + 1;
      }
    }

    /** `exit` with the status that `sys_exit` stores. */
    method ExitProc(code: int)
      requires Valid() && Enabled(Model(), Exit(code))
      modifies this
      ensures Valid() && Model() == Apply(old(Model()), Exit(code))
    {
      var self := curr.value;
      ghost var coded := procs[self := procs[self].(exitCode := code)];
      MarkOk(procs, bitmap, self, procs[self].(exitCode := code));
      assert |procs| == NPROC;
      hide BitsOk, Woken, Reparented;
      procs := procs[self := procs[self].(exitCode := code)];
      if procs[self].parent.Some? {
        Wakeup(Slot(procs[self].parent.value));
      }
      ghost var woken := procs;
      var i := 0;
      while i < NPROC
        invariant 0 <= i <= NPROC == |procs| == |woken| && Valid() && curr == old(curr) && nextPid == old(nextPid)
        invariant forall k :: 0 <= k < NPROC ==> procs[k] == if k < i then ReparentedOne(woken[k], self) else woken[k]
      {
        if procs[i].parent == Some(self) {
          MarkOk(procs, bitmap, i, procs[i].(parent := Some(0)));
          procs := procs[i := procs[i].(parent := Some(0))];
        }
        i := i + 1;
      }
      assert procs == Reparented(woken, self);
      MarkOk(procs, bitmap, self, procs[self].(state := Dying));
      bitmap := WithoutBit(bitmap, self);
      procs := procs[self := procs[self].(state := Dying)];
    }

    /** One round of `wait`: the status of the lowest zombie child, or to sleep if there are only live children. */
    method WaitOnce() returns (r: Option<(nat, int)>, kids: bool)
      requires Valid() && Enabled(Model(), Wait)
      modifies this
      ensures Valid() && Model() == Apply(old(Model()), Wait)
      ensures r.Some? <==> WaitReturns(old(Model())).Some?
      ensures r.Some? ==> var w := WaitReturns(old(Model())).value; r.value == (w.pid, w.code)
      ensures kids <==> Scan(old(procs), ChildOf(old(curr).value), 0).Some?
    {
      var self := curr.value;
      kids := false;
      var i := 0;
      assert |procs| == NPROC;
      hide BitsOk;
      while i < NPROC
        invariant 0 <= i <= NPROC
        invariant kids <==> exists k :: 0 <= k < i && procs[k].parent == Some(self)
        invariant Scan(procs, ZombieOf(self), 0) == Scan(procs, ZombieOf(self), i)
      {
        var p := procs[i];
        if p.parent == Some(self) {
          kids := true;
          if p.state.Zombie? {
            MarkOk(procs, bitmap, i, Vacant());
            r := Some((p.pid, p.exitCode));
            procs := procs[i := Vacant()];
            assert Matches(p, ChildOf(self));
            return;
          }
        }
        i := i + 1;
      }
      r := None;
      if kids {
        MarkOk(procs, bitmap, self, procs[self].(state := Sleeping, chan := Slot(self)));
        procs := procs[self := procs[self].(state := Sleeping, chan := Slot(self))];
        bitmap := WithoutBit(bitmap, self);
      }
    }

    /** The process table's part of `fork`, with `alloc`; None where the kernel panics because no slot is left. */
    method ForkProc() returns (child: Option<nat>)
      requires Valid() && OnCpu(Model())
      modifies this
      ensures Valid()
      ensures child.None? <==> !Enabled(old(Model()), Fork)
      ensures child.None? ==> Model() == old(Model())
      ensures child.Some? ==> Model() == Apply(old(Model()), Fork) && child == Scan(old(procs), AnyUnused, 0)
    {
      assert |procs| == NPROC;
      hide BitsOk;
      var i := 0;
      while i < NPROC
        invariant 0 <= i <= NPROC && Scan(procs, AnyUnused, 0) == Scan(procs, AnyUnused, i)
      {
        if procs[i].state.Unused? {
          MarkOk(procs, bitmap, i, Process(Runnable, curr, 0, NoChan, nextPid));
          procs := procs[i := Process(Runnable, curr, 0, NoChan, nextPid)];
          nextPid := nextPid + 1;
          bitmap := WithBit(bitmap, i);
          return Some(i);
        }
        i := i + 1;
      }
      return None;
    }
  }
}
