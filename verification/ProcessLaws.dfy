/**
  What sequences of steps of the process life cycle (kernel/src/proc/scheduler.rs, process.rs) come to: a process that
  yields runs again, one that sleeps does so until its channel is woken, and a waiting parent gets its child's status.
*/
module ProcessLaws {
  import opened Base
  import opened Processes

  /** Running one more step. */
  lemma {:induction false} RunMore(s: State, h: Hist, es: seq<Event>, e: Event)
    requires Run(s, h, es).Some?
    ensures var (t, g) := Run(s, h, es).value;
      Run(s, h, es + [e]) == if Enabled(t, e) then Some((Apply(t, e), Record(g, t, e))) else None
    decreases |es|
  {
    hide Enabled, Apply, Record;
    if es == [] {
      assert (es + [e])[0] == e && (es + [e])[1..] == [];
      assert Enabled(s, e) ==> Run(Apply(s, e), Record(h, s, e), []) == Some((Apply(s, e), Record(h, s, e)));
    } else {
      assert (es + [e])[0] == es[0] && (es + [e])[1..] == es[1..] + [e];
      RunMore(Apply(s, es[0]), Record(h, s, es[0]), es[1..], e);
    }
  }

  lemma RunOne(s: State, h: Hist, e: Event)
    ensures Run(s, h, [e]) == if Enabled(s, e) then Some((Apply(s, e), Record(h, s, e))) else None
  {
    hide Enabled, Apply, Record;
    RunMore(s, h, [], e);
    assert [] + [e] == [e];
  }

  lemma RunTwo(s: State, h: Hist, e: Event, f: Event)
    requires Enabled(s, e)
    ensures var (t, g) := (Apply(s, e), Record(h, s, e));
      Run(s, h, [e, f]) == if Enabled(t, f) then Some((Apply(t, f), Record(g, t, f))) else None
  {
    hide Enabled, Apply, Record;
    RunOne(s, h, e);
    RunMore(s, h, [e], f);
    assert [e] + [f] == [e, f];
  }

  // ----- yield

  /** The table `ps` with slot `i` in another state. */
  ghost predicate OnlyState(ps: seq<Process>, qs: seq<Process>, i: nat, state: PState) {
    && |qs| == |ps| && i < |ps| && qs[i] == ps[i].(state := state)
    && forall k :: 0 <= k < |ps| && k != i ==> qs[k] == ps[k]
  }

  /** A process that yields is Runnable again, nothing else changes, and the next pick is this slot or a lower one. */
  lemma YieldRuns(s: State, h: Hist)
    requires Inv(s) && Enabled(s, Yield)
    ensures var i, r := s.curr.value, Run(s, h, [Yield, SwitchBack]);
      && r.Some? && r.value.0.curr.None? && r.value.0.nextPid == s.nextPid && r.value.1 == h
      && OnlyState(s.procs, r.value.0.procs, i, Runnable)
      && var q := Run(s, h, [Yield, SwitchBack, Pick]);
         && q.Some? && q.value.0.curr.Some? && q.value.0.curr.value <= i
         && OnlyState(r.value.0.procs, q.value.0.procs, q.value.0.curr.value, Running)
         && r.value.0.procs[q.value.0.curr.value].state.Runnable?
  {
    RunTwo(s, h, Yield, SwitchBack);
    RunMore(s, h, [Yield, SwitchBack], Pick);
    assert [Yield, SwitchBack] + [Pick] == [Yield, SwitchBack, Pick];
    var t := Run(s, h, [Yield, SwitchBack]).value.0;
    hide Run, Inv;
    assert Matches(t.procs[s.curr.value], AnyRunnable);
  }

  // ----- sleep and wake

  ghost predicate Asleep(s: State, i: nat, c: Chan) {
    i < |s.procs| && s.procs[i].state.Sleeping? && s.procs[i].chan == c
  }

  /** A process that goes to sleep is off the processor, and only its own slot changes. */
  lemma SleepSleeps(s: State, h: Hist, c: Chan)
    requires Inv(s) && Enabled(s, Sleep(c))
    ensures var i, r := s.curr.value, Run(s, h, [Sleep(c), SwitchBack]);
      && r.Some? && r.value.0.curr.None? && r.value.0.nextPid == s.nextPid && Asleep(r.value.0, i, c)
      && r.value.0.procs == s.procs[i := s.procs[i].(state := Sleeping, chan := c)]
  {
    RunTwo(s, h, Sleep(c), SwitchBack);
  }

  lemma StepAsleep(s: State, e: Event, i: nat, c: Chan)
    requires Inv(s) && Enabled(s, e) && Asleep(s, i, c) && c.Other? && e != Wake(c)
    ensures Asleep(Apply(s, e), i, c)
  {
    match e
    case Exit(code) => ExitedAt(s.procs, s.curr.value, code, i);
    case _ =>
  }

  /** Whatever the system does, a sleeper on a channel that is not woken stays asleep on it. */
  lemma {:induction false} AsleepUntilWoken(s: State, h: Hist, i: nat, c: Chan, es: seq<Event>)
    requires Inv(s) && Asleep(s, i, c) && c.Other? && Run(s, h, es).Some? && Wake(c) !in es
    ensures Asleep(Run(s, h, es).value.0, i, c)
    decreases |es|
  {
    hide Inv, Apply, Enabled, Record, Asleep;
    if es != [] {
      StepKeeps(s, es[0]);
      StepAsleep(s, es[0], i, c);
      AsleepUntilWoken(Apply(s, es[0]), Record(h, s, es[0]), i, c, es[1..]);
    }
  }

  /** Waking a channel makes exactly its sleepers Runnable. */
  lemma WakeWakes(s: State, h: Hist, c: Chan)
    requires c.Other?
    ensures var r := Run(s, h, [Wake(c)]);
      && r.Some? && |r.value.0.procs| == |s.procs| && r.value.0.curr == s.curr && r.value.0.nextPid == s.nextPid
      && forall i: nat :: i < |s.procs| ==>
           if Asleep(s, i, c) then r.value.0.procs[i] == s.procs[i].(state := Runnable, chan := NoChan)
           else r.value.0.procs[i] == s.procs[i]
  {
    RunOne(s, h, Wake(c));
  }

  // ----- fork, exit and wait

  /** Forking fills one unused slot with a Runnable child of the caller, which has a pid never seen before. */
  lemma ForkForks(s: State, h: Hist) returns (k: nat)
    requires Inv(s) && Enabled(s, Fork)
    ensures var r := Run(s, h, [Fork]);
      && r.Some? && k < |s.procs| && s.procs[k].state.Unused? && r.value.0.curr == s.curr
      && (forall i :: 0 <= i < |s.procs| && i != k ==> r.value.0.procs[i] == s.procs[i])
      && r.value.0.procs[k].state.Runnable? && r.value.0.procs[k].parent == s.curr
      && (forall i :: 0 <= i < |s.procs| && !s.procs[i].state.Unused? ==> s.procs[i].pid != r.value.0.procs[k].pid)
      && r.value.1.forker == h.forker[r.value.0.procs[k].pid := s.procs[s.curr.value].pid]
  {
    RunOne(s, h, Fork);
    k := Scan(s.procs, AnyUnused, 0).value;
  }

  /** After a fork the caller has a child, so that without an ended one its `wait` sleeps. */
  lemma ForkThenWait(s: State, h: Hist)
    requires Inv(s) && Enabled(s, Fork) && NoneEnded(s.procs, s.curr.value)
    ensures var r := Run(s, h, [Fork, Wait]); r.Some? && Waiting(r.value.0.procs[s.curr.value])
  {
    RunTwo(s, h, Fork, Wait);
    var k := Scan(s.procs, AnyUnused, 0).value;
    var ps := Apply(s, Fork).procs;
    assert Matches(ps[k], ChildOf(s.curr.value));
    forall i | 0 <= i < |ps| ensures !Matches(ps[i], ZombieOf(s.curr.value)) {}
  }

  /** Without children `wait` returns at once and changes nothing. */
  lemma WaitAlone(s: State, h: Hist)
    requires Enabled(s, Wait) && forall k :: 0 <= k < |s.procs| ==> s.procs[k].parent != s.curr
    ensures Run(s, h, [Wait]) == Some((s, h))
  {
    RunOne(s, h, Wait);
    forall k | 0 <= k < |s.procs|
      ensures !Matches(s.procs[k], ChildOf(s.curr.value)) && !Matches(s.procs[k], ZombieOf(s.curr.value))
    {
    }
  }

  /** An exit makes the waiting parent Runnable and leaves it the status; the children go to init. */
  lemma ExitWakesParent(s: State, h: Hist, code: int)
    requires Inv(s) && Enabled(s, Exit(code))
    ensures var i, r := s.curr.value, Run(s, h, [Exit(code), SwitchBack]);
      && r.Some? && r.value.0.curr.None? && |r.value.0.procs| == |s.procs| && r.value.0.nextPid == s.nextPid
      && var qs := r.value.0.procs;
         && qs[i].state.Zombie? && qs[i].exitCode == code && qs[i].pid == s.procs[i].pid
         && qs[i].parent == s.procs[i].parent
         && (forall k :: 0 <= k < |qs| && k != i ==>
               && qs[k].pid == s.procs[k].pid && qs[k].exitCode == s.procs[k].exitCode
               && qs[k].parent == (if s.procs[k].parent == Some(i) then Some(0) else s.procs[k].parent)
               && qs[k].state == (if Waiting(s.procs[k]) && s.procs[i].parent == Some(k) then Runnable
                                  else s.procs[k].state))
  {
    RunTwo(s, h, Exit(code), SwitchBack);
    var i := s.curr.value;
    assert ParentOk(s.procs, i);
    hide Exited;
    var qs := Exited(s.procs, i, code);
    ExitedAt(s.procs, i, code, i);
    forall k: nat | k < |qs| && k != i
      ensures qs[k].pid == s.procs[k].pid && qs[k].exitCode == s.procs[k].exitCode
      ensures qs[k].parent == if s.procs[k].parent == Some(i) then Some(0) else s.procs[k].parent
      ensures qs[k].state == if Waiting(s.procs[k]) && s.procs[i].parent == Some(k) then Runnable else s.procs[k].state
    {
      ExitedAt(s.procs, i, code, k);
    }
  }

  /** With an ended child off the processor, `wait` returns the status of one, once, and frees its slot. */
  lemma WaitCollects(s: State, h: Hist) returns (z: nat)
    requires Inv(s) && Enabled(s, Wait) && !NoneEnded(s.procs, s.curr.value)
    ensures z < |s.procs| && s.procs[z].state.Zombie? && s.procs[z].parent == s.curr
    ensures var r := Run(s, h, [Wait]);
      && r.Some? && r.value.0.curr == s.curr && |r.value.0.procs| == |s.procs| && r.value.0.procs[z].state.Unused?
      && (forall k :: 0 <= k < |s.procs| && k != z ==> r.value.0.procs[k] == s.procs[k])
      && r.value.1 == h.(returned :=
           h.returned + [Ret(s.procs[z].pid, s.procs[z].exitCode, s.procs[s.curr.value].pid)])
  {
    RunOne(s, h, Wait);
    var k :| 0 <= k < |s.procs| && s.procs[k].parent == Some(s.curr.value) && Ended(s.procs[k]);
    assert Matches(s.procs[k], ZombieOf(s.curr.value));
    z := Scan(s.procs, ZombieOf(s.curr.value), 0).value;
  }
}
