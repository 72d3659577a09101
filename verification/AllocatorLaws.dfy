/**
  What the steps of `allocate` and of `free` (kernel/src/mem/pmem.rs) come to when one hart takes them in a row: a page
  of the region asked for, cleared, and the state of before once it is given back.
*/
module AllocatorLaws {
  import opened Base
  import opened PageAllocator

  /** The steps of `allocate` by hart `h`, and of `free` of a page. */
  function Allocate(h: nat, kernel: bool): seq<Step> { [AllocPop(h, kernel), AllocCount(h), AllocZero(h)] }
  function Free(h: nat, page: nat): seq<Step> { [FreeDrop(h, page), FreePush(h)] }

  lemma {:induction false} RunAppend(s: State, a: seq<Step>, b: seq<Step>)
    ensures Run(s, a + b) == if Run(s, a).None? then None else Run(Run(s, a).value, b)
    decreases |a|
  {
    hide Apply, Enabled;
    if a == [] {
      assert a + b == b;
    } else {
      assert (a + b)[0] == a[0] && (a + b)[1..] == a[1..] + b;
      if Enabled(s, a[0]) { RunAppend(Apply(s, a[0]), a[1..], b); }
    }
  }

  lemma RunOne(s: State, e: Step)
    ensures Run(s, [e]) == if Enabled(s, e) then Some(Apply(s, e)) else None
  {
    hide Apply, Enabled;
    assert [e][1..] == [];
    assert Enabled(s, e) ==> Run(Apply(s, e), []) == Some(Apply(s, e));
  }

  lemma RunTwo(s: State, e: Step, f: Step)
    ensures Run(s, [e, f]) == if Enabled(s, e) && Enabled(Apply(s, e), f) then Some(Apply(Apply(s, e), f)) else None
  {
    hide Apply, Enabled;
    RunOne(s, e);
    if Enabled(s, e) { RunOne(Apply(s, e), f); }
    assert [e] + [f] == [e, f];
    RunAppend(s, [e], [f]);
  }

  lemma RunThree(s: State, e: Step, f: Step, g: Step)
    requires Enabled(s, e) && Enabled(Apply(s, e), f) && Enabled(Apply(Apply(s, e), f), g)
    ensures Run(s, [e, f, g]) == Some(Apply(Apply(Apply(s, e), f), g))
  {
    hide Apply, Enabled;
    RunTwo(s, e, f);
    RunOne(Apply(Apply(s, e), f), g);
    assert [e, f] + [g] == [e, f, g];
    RunAppend(s, [e, f], [g]);
  }

  /** The head of a region's list is a page of it, with count 0 and not owned. */
  lemma HeadFree(s: State, kernel: bool)
    requires Inv(s) && PoolOf(s, kernel).head.Some?
    ensures var a := PoolOf(s, kernel).head.value;
      && PageIn(PoolOf(s, kernel), a) && RefAt(s, a) == Some(0) && a !in s.owned && a in s.link && BoundsOk(s)
      && PoolOf(s, kernel).allocable > 0
  {
    var kl, ul, w: map<nat, Where> :| InvWith(s, kl, ul, w);
    var l := if kernel then kl else ul;
    assert l != [] && l[0] == PoolOf(s, kernel).head.value;
    assert l[0] in w && w[l[0]].Listed?;
  }

  /** A region's list is empty exactly if none of its pages is available. */
  lemma HeadAvailable(s: State, kernel: bool)
    requires Inv(s)
    ensures PoolOf(s, kernel).head.None? <==> Available(s, kernel) == {}
    ensures PoolOf(s, kernel).head.Some? ==> PoolOf(s, kernel).head.value in Available(s, kernel)
  {
    var kl, ul, w: map<nat, Where> :| InvWith(s, kl, ul, w);
    var l := if kernel then kl else ul;
    forall a: nat ensures a in l <==> a in Available(s, kernel) { AvailableListed(s, kl, ul, w, kernel, a); }
    hide Available;
    if l == [] {
      assert Available(s, kernel) == {};
    } else {
      assert l[0] in Available(s, kernel);
    }
  }

  /** Allocating from a region without available pages ends at once, with nothing changed. */
  lemma AllocateNone(s: State, h: nat, kernel: bool)
    requires Inv(s) && h in s.harts && s.harts[h].Idle? && Available(s, kernel) == {}
    ensures Run(s, [AllocPop(h, kernel)]) == Some(s)
  {
    HeadAvailable(s, kernel);
    RunOne(s, AllocPop(h, kernel));
  }

  /** The state with page `a` of a region handed out. */
  ghost predicate HandedOut(s: State, t: State, kernel: bool, a: nat) {
    && a in Available(s, kernel) && t.owned == s.owned + {a} && a in t.link && t.link[a] == None && t.harts == s.harts
    && (forall b :: b in s.link && b != a ==> b in t.link && t.link[b] == s.link[b])
    && (forall b :: b in t.link ==> b in s.link)
    && Available(t, kernel) == Available(s, kernel) - {a} && Available(t, !kernel) == Available(s, !kernel)
  }

  lemma AvailableAfter(s: State, t: State, kernel: bool, a: nat)
    requires t.owned == s.owned + {a} && t.harts == s.harts && SameBounds(s, t) && BoundsOk(s)
    requires a in Available(s, kernel)
    ensures Available(t, kernel) == Available(s, kernel) - {a} && Available(t, !kernel) == Available(s, !kernel)
  {
    forall b ensures InFlight(t, b) == InFlight(s, b) {}
    hide InFlight;
  }

  /** `s` with the head of a region's list handed out. */
  ghost function Given(s: State, kernel: bool, a: nat): State
    requires a in s.link && Index(a).Some? && Index(a).value < |s.refs| && PoolOf(s, kernel).allocable > 0
  {
    Unlisted(s, kernel, a).(refs := s.refs[Index(a).value := 1], link := s.link[a := None], owned := s.owned + {a})
  }

  /** `s` with the head of a region's list taken off. */
  ghost function Unlisted(s: State, kernel: bool, a: nat): State
    requires a in s.link && PoolOf(s, kernel).allocable > 0
  {
    var p := PoolOf(s, kernel);
    WithPool(s, kernel, p.(head := s.link[a], allocable := p.allocable - 1))
  }

  /** The head of a region's list can be handed out. */
  ghost predicate Ready(s: State, h: nat, kernel: bool, a: nat) {
    && h in s.harts && s.harts[h].Idle? && PoolOf(s, kernel).head == Some(a) && PoolOf(s, kernel).allocable > 0
    && PageIn(PoolOf(s, kernel), a) && a in s.link && a !in s.owned && Contains(s.kernel, a) == kernel
    && Index(a).Some? && Index(a).value < |s.refs| && s.refs[Index(a).value] == 0
  }

  lemma AllocateRuns(s: State, h: nat, kernel: bool, a: nat)
    requires Ready(s, h, kernel, a)
    ensures Run(s, Allocate(h, kernel)) == Some(Given(s, kernel, a))
  {
    hide Index;
    var u, i := Unlisted(s, kernel, a), Index(a).value;
    var s1 := WithHart(u, h, Popped(a));
    assert Enabled(s, AllocPop(h, kernel)) && Apply(s, AllocPop(h, kernel)) == s1;
    var s2 := WithHart(u.(refs := s.refs[i := 1]), h, Counted(a));
    assert s1.harts[h := Counted(a)] == s2.harts;
    assert Enabled(s1, AllocCount(h)) && Apply(s1, AllocCount(h)) == s2;
    assert s2.harts[h := Idle] == s.harts;
    assert Enabled(s2, AllocZero(h)) && Apply(s2, AllocZero(h)) == Given(s, kernel, a);
    hide Apply, Enabled;
    RunThree(s, AllocPop(h, kernel), AllocCount(h), AllocZero(h));
  }

  lemma FreeRuns(s: State, h: nat, kernel: bool, a: nat)
    requires Ready(s, h, kernel, a)
    ensures Run(Given(s, kernel, a), Free(h, a)) == Some(s)
  {
    hide Index;
    var t, i := Given(s, kernel, a), Index(a).value;
    var u := WithHart(Unlisted(s, kernel, a).(link := s.link[a := None]), h, Dropped(a));
    assert s.owned + {a} - {a} == s.owned && s.refs[i := 1][i := 0] == s.refs;
    assert Enabled(t, FreeDrop(h, a)) && Apply(t, FreeDrop(h, a)) == u;
    assert s.link[a := None][a := s.link[a]] == s.link[a := s.link[a]] == s.link;
    assert u.harts[h := Idle] == s.harts;
    assert Enabled(u, FreePush(h)) && Apply(u, FreePush(h)) == Push(u, h, a);
    PushBack(s, h, kernel, a, u);
    hide Apply, Enabled;
    RunTwo(t, FreeDrop(h, a), FreePush(h));
  }

  /** Putting the page back on its list. */
  lemma PushBack(s: State, h: nat, kernel: bool, a: nat, u: State)
    requires Ready(s, h, kernel, a) && u == WithHart(Unlisted(s, kernel, a).(link := s.link[a := None]), h, Dropped(a))
    requires s.link[a := None][a := s.link[a]] == s.link && u.harts[h := Idle] == s.harts
    ensures Push(u, h, a) == s
  {
    hide Index;
    assert Contains(u.kernel, a) == kernel;
  }

  /**
    Allocating hands out a cleared page of the region asked for, which was available, and nothing else changes hands.
    Freeing that page then gives back exactly the state of before, free list and counts included.
  */
  lemma AllocateThenFree(s: State, h: nat, kernel: bool) returns (a: nat)
    requires Inv(s) && h in s.harts && s.harts[h].Idle? && Available(s, kernel) != {}
    ensures Run(s, Allocate(h, kernel)).Some?
    ensures HandedOut(s, Run(s, Allocate(h, kernel)).value, kernel, a)
    ensures Run(s, Allocate(h, kernel) + Free(h, a)) == Some(s)
  {
    hide Available, Run, Inv, Ready, Given, HandedOut, Index, Allocate, Free;
    HeadAvailable(s, kernel);
    a := PoolOf(s, kernel).head.value;
    HeadReady(s, h, kernel);
    AllocateRuns(s, h, kernel, a);
    FreeRuns(s, h, kernel, a);
    GivenHandsOut(s, h, kernel, a);
    RunAppend(s, Allocate(h, kernel), Free(h, a));
  }

  lemma HeadReady(s: State, h: nat, kernel: bool)
    requires Inv(s) && h in s.harts && s.harts[h].Idle? && PoolOf(s, kernel).head.Some?
    ensures Ready(s, h, kernel, PoolOf(s, kernel).head.value) && BoundsOk(s)
  {
    hide Inv;
    HeadFree(s, kernel);
  }

  lemma GivenHandsOut(s: State, h: nat, kernel: bool, a: nat)
    requires Ready(s, h, kernel, a) && BoundsOk(s) && a in Available(s, kernel)
    ensures HandedOut(s, Given(s, kernel, a), kernel, a)
  {
    hide Available, Index;
    AvailableAfter(s, Given(s, kernel, a), kernel, a);
  }
}
