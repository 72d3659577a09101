/**
  The life cycle of processes on the scheduling hart (kernel/src/proc/scheduler.rs, process.rs), as a state machine over
  the process table.  A context switch is a step boundary; slot 0 is the init process and never exits.
*/
module Processes {
  import opened Base

  const NPROC := 64

  datatype PState = Unused | Zombie | Dying | Sleeping | Runnable | Running

  /** What a process sleeps on: its own slot's address in `wait`, or another address, such as the tick counter's. */
  datatype Chan = NoChan | Slot(slot: nat) | Other(id: nat)

  datatype Process = Process(state: PState, parent: Option<nat>, exitCode: int, chan: Chan, pid: nat)

  datatype State = State(procs: seq<Process>, curr: Option<nat>, nextPid: nat)

  /** `Process::new` */
  function Vacant(): Process { Process(Unused, None, 0, NoChan, 0) }

  // ----- linear scans of the table

  /** What a scan looks for. */
  datatype Want = AnyRunnable | AnyUnused | ZombieOf(parent: nat) | ChildOf(parent: nat)

  predicate Matches(p: Process, w: Want) {
    match w
    case AnyRunnable => p.state.Runnable?
    case AnyUnused => p.state.Unused?
    case ZombieOf(q) => p.parent == Some(q) && p.state.Zombie?
    case ChildOf(q) => p.parent == Some(q)
  }

  /** The lowest matching slot from `from` on. */
  function Scan(ps: seq<Process>, w: Want, from: nat): (r: Option<nat>)
    requires from <= |ps|
    ensures r.Some? ==> from <= r.value < |ps| && Matches(ps[r.value], w)
    ensures forall i :: from <= i < (if r.Some? then r.value else |ps|) ==> !Matches(ps[i], w)
    decreases |ps| - from
  {
    if from == |ps| then None
    else if Matches(ps[from], w) then Some(from)
    else Scan(ps, w, from + 1)
  }

  // ----- steps

  datatype Event = Pick | SwitchBack | Yield | Sleep(chan: Chan) | Wake(chan: Chan) | Exit(code: int) | Wait | Fork

  ghost predicate OnCpu(s: State) {
    s.curr.Some? && s.curr.value < |s.procs| && s.procs[s.curr.value].state.Running?
  }

  /** Only the running process makes calls; interrupts may wake sleepers at any time. */
  ghost predicate Enabled(s: State, e: Event) {
    match e
    case Pick => s.curr.None?
    case SwitchBack => s.curr.Some? && s.curr.value < |s.procs| && !s.procs[s.curr.value].state.Running?
    case Yield => OnCpu(s)
    case Sleep(chan) => OnCpu(s) && chan.Other?
    case Wake(chan) => chan.Other?
    case Exit(_) => OnCpu(s) && s.curr != Some(0)
    case Wait => OnCpu(s)
    case Fork => OnCpu(s) && Scan(s.procs, AnyUnused, 0).Some?
  }

  /** `wakeup`: every process that sleeps on `chan` becomes Runnable. */
  function Woken(ps: seq<Process>, chan: Chan): (r: seq<Process>)
    ensures |r| == |ps|
    ensures forall i :: 0 <= i < |ps| ==> r[i] == WokenOne(ps[i], chan)
  {
    seq(|ps|, i requires 0 <= i < |ps| => WokenOne(ps[i], chan))
  }

  function WokenOne(p: Process, chan: Chan): Process {
    if p.state.Sleeping? && p.chan == chan then p.(state := Runnable, chan := NoChan) else p
  }

  /** Children of slot `i` are handed to the init process. */
  function Reparented(ps: seq<Process>, i: nat): (r: seq<Process>)
    ensures |r| == |ps|
    ensures forall k :: 0 <= k < |ps| ==> r[k] == ReparentedOne(ps[k], i)
  {
    seq(|ps|, k requires 0 <= k < |ps| => ReparentedOne(ps[k], i))
  }

  function ReparentedOne(p: Process, i: nat): Process {
    if p.parent == Some(i) then p.(parent := Some(0)) else p
  }

  /** The table after slot `i` exits with `code`. */
  function Exited(ps: seq<Process>, i: nat, code: int): (r: seq<Process>)
    requires i < |ps|
    ensures |r| == |ps|
  {
    var coded := ps[i := ps[i].(exitCode := code)];
    var woken := if ps[i].parent.Some? then Woken(coded, Slot(ps[i].parent.value)) else coded;
    var handed := Reparented(woken, i);
    handed[i := handed[i].(state := Dying)]
  }

  ghost function Apply(s: State, e: Event): State
    requires Enabled(s, e)
  {
    match e
    case Pick =>
      var r := Scan(s.procs, AnyRunnable, 0);
      if r.None? then s else s.(procs := s.procs[r.value := s.procs[r.value].(state := Running)], curr := r)
    case SwitchBack =>
      var i := s.curr.value;
      var p := s.procs[i];
      s.(procs := s.procs[i := if p.state.Dying? then p.(state := Zombie) else p], curr := None)
    case Yield =>
      var i := s.curr.value;
      s.(procs := s.procs[i := s.procs[i].(state := Runnable)])
    case Sleep(chan) =>
      var i := s.curr.value;
      s.(procs := s.procs[i := s.procs[i].(state := Sleeping, chan := chan)])
    case Wake(chan) => s.(procs := Woken(s.procs, chan))
    case Exit(code) => s.(procs := Exited(s.procs, s.curr.value, code))
    case Wait =>
      var i := s.curr.value;
      var z := Scan(s.procs, ZombieOf(i), 0);
      if z.Some? then s.(procs := s.procs[z.value := Vacant()])
      else if Scan(s.procs, ChildOf(i), 0).Some? then
        s.(procs := s.procs[i := s.procs[i].(state := Sleeping, chan := Slot(i))])
      else s
    case Fork =>
      var k := Scan(s.procs, AnyUnused, 0).value;
      s.(procs := s.procs[k := Process(Runnable, s.curr, 0, NoChan, s.nextPid)], nextPid := s.nextPid + 1)
  }

  // ----- what every step keeps

  predicate Live(p: Process) { p.state.Runnable? || p.state.Running? || p.state.Sleeping? }

  /** A process that has ended and whose status was not collected yet. */
  predicate Ended(p: Process) { p.state.Dying? || p.state.Zombie? }

  /** At most the current slot is Running or Dying; slot 0 is alive. */
  ghost predicate SlotsOk(ps: seq<Process>, curr: Option<nat>) {
    && |ps| == NPROC && Live(ps[0])
    && (forall i :: 0 <= i < |ps| && (ps[i].state.Running? || ps[i].state.Dying?) ==> curr == Some(i))
    && (curr.Some? ==> curr.value < |ps| && (Live(ps[curr.value]) || ps[curr.value].state.Dying?))
  }

  /** The recorded parent of slot `i` is another slot and alive; only used slots other than 0 have one. */
  ghost predicate ParentOk(ps: seq<Process>, i: nat) {
    i < |ps| && ps[i].parent.Some? ==>
      && i != 0 && ps[i].parent.value != i && !ps[i].state.Unused?
      && ps[i].parent.value < |ps| && Live(ps[ps[i].parent.value])
  }

  ghost predicate ParentsOk(ps: seq<Process>) {
    forall i: nat :: ParentOk(ps, i)
  }

  /** Slot `i` sleeps in `wait`. */
  predicate Waiting(p: Process) { p.state.Sleeping? && p.chan.Slot? }

  /** Processes wait on their own slot, and but for slot 0 not while a child has ended. */
  ghost predicate WaitsOk(ps: seq<Process>) {
    && (forall i :: 0 <= i < |ps| && Waiting(ps[i]) ==> ps[i].chan.slot == i)
    && (forall i, k :: 0 < i < |ps| && 0 <= k < |ps| && Waiting(ps[i]) && ps[k].parent == Some(i) ==> !Ended(ps[k]))
  }

  /** Used slots have distinct pids that were handed out. */
  ghost predicate PidsOk(ps: seq<Process>, nextPid: nat) {
    && (forall i :: 0 <= i < |ps| && !ps[i].state.Unused? ==> ps[i].pid < nextPid)
    && (forall i, k :: 0 <= i < k < |ps| && !ps[i].state.Unused? && !ps[k].state.Unused? ==> ps[i].pid != ps[k].pid)
  }

  ghost predicate Inv(s: State) {
    SlotsOk(s.procs, s.curr) && ParentsOk(s.procs) && WaitsOk(s.procs) && PidsOk(s.procs, s.nextPid)
  }

  lemma WokenKeeps(ps: seq<Process>, curr: Option<nat>, n: nat, chan: Chan)
    requires SlotsOk(ps, curr) && ParentsOk(ps) && WaitsOk(ps) && PidsOk(ps, n)
    ensures SlotsOk(Woken(ps, chan), curr) && ParentsOk(Woken(ps, chan)) && WaitsOk(Woken(ps, chan))
    ensures PidsOk(Woken(ps, chan), n)
  {
    hide Woken;
    var r := Woken(ps, chan);
    forall i: nat ensures ParentOk(r, i) { assert ParentOk(ps, i); }
    hide ParentOk, ParentsOk;
    forall i | 0 <= i < |ps| ensures r[i].pid == ps[i].pid && r[i].parent == ps[i].parent && Live(r[i]) == Live(ps[i])
      && Ended(r[i]) == Ended(ps[i]) && r[i].state.Unused? == ps[i].state.Unused? && (Waiting(r[i]) ==> r[i] == ps[i])
      && r[i].state.Running? == ps[i].state.Running? && r[i].state.Dying? == ps[i].state.Dying?
    {
    }
    hide WokenOne, Live, Ended, Waiting;
  }

  /** What happens to each slot when slot `i` exits. */
  lemma ExitedAt(ps: seq<Process>, i: nat, code: int, k: nat)
    requires i < |ps| && k < |ps|
    ensures var r := Exited(ps, i, code);
      && r[k].pid == ps[k].pid && (k != i ==> r[k].exitCode == ps[k].exitCode)
      && r[k].parent == (if ps[k].parent == Some(i) then Some(0) else ps[k].parent)
      && (k == i ==> r[k].state == Dying && r[k].exitCode == code)
      && (k == i && !ps[i].state.Sleeping? ==> r[k].chan == ps[k].chan)
      && (k != i ==>
        r[k] == ReparentedOne(if ps[i].parent.Some? then WokenOne(ps[k], Slot(ps[i].parent.value)) else ps[k], i))
  {
    hide Woken, Reparented;
  }

  lemma ExitParents(ps: seq<Process>, curr: Option<nat>, i: nat, code: int)
    requires SlotsOk(ps, curr) && ParentsOk(ps) && 0 < i < |ps|
    ensures ParentsOk(Exited(ps, i, code))
  {
    hide Exited;
    var r := Exited(ps, i, code);
    forall k: nat ensures ParentOk(r, k) {
      assert ParentOk(ps, k);
      if k < |ps| {
        ExitedAt(ps, i, code, k);
        ExitedAt(ps, i, code, 0);
        if ps[k].parent.Some? { ExitedAt(ps, i, code, ps[k].parent.value); }
      }
    }
  }

  lemma ExitWaits(ps: seq<Process>, curr: Option<nat>, i: nat, code: int)
    requires SlotsOk(ps, curr) && WaitsOk(ps) && 0 < i < |ps|
    ensures WaitsOk(Exited(ps, i, code))
  {
    hide Exited;
    var r := Exited(ps, i, code);
    forall k: nat | k < |r| ensures Waiting(r[k]) ==> r[k].chan.slot == k && Waiting(ps[k]) && ps[i].parent != Some(k) {
      ExitedAt(ps, i, code, k);
    }
    forall j: nat, k: nat | 0 < j < |r| && k < |r| && Waiting(r[j]) && r[k].parent == Some(j) ensures !Ended(r[k]) {
      ExitedAt(ps, i, code, k);
      ExitedAt(ps, i, code, j);
    }
  }

  lemma ExitKeeps(s: State, code: int)
    requires Inv(s) && Enabled(s, Exit(code))
    ensures Inv(Apply(s, Exit(code)))
  {
    hide Exited, ParentsOk, WaitsOk;
    var ps, i := s.procs, s.curr.value;
    var r := Exited(ps, i, code);
    forall k: nat | k < |ps|
      ensures r[k].pid == ps[k].pid && r[k].state.Unused? == ps[k].state.Unused?
      ensures k != i && Live(ps[k]) ==> Live(r[k])
      ensures k != i && (r[k].state.Running? || r[k].state.Dying?) ==> r[k].state == ps[k].state
      ensures k == i ==> r[k].state == Dying
    {
      ExitedAt(ps, i, code, k);
    }
    ExitParents(ps, s.curr, i, code);
    ExitWaits(ps, s.curr, i, code);
  }

  // ----- steps that change one slot

  lemma Childless(ps: seq<Process>, i: nat)
    requires ParentsOk(ps) && i < |ps| && !Live(ps[i])
    ensures forall k :: 0 <= k < |ps| ==> ps[k].parent != Some(i)
  {
    forall k | 0 <= k < |ps| ensures ps[k].parent != Some(i) { assert ParentOk(ps, k); }
  }

  lemma ReplaceParents(ps: seq<Process>, i: nat, p: Process)
    requires ParentsOk(ps) && i < |ps|
    requires Live(p) || (p.parent != Some(i) && forall k :: 0 <= k < |ps| ==> ps[k].parent != Some(i))
    requires p.parent.Some? ==>
               i != 0 && !p.state.Unused? && p.parent.value < |ps| && p.parent.value != i && Live(ps[p.parent.value])
    ensures ParentsOk(ps[i := p])
  {
    var r := ps[i := p];
    forall k: nat ensures ParentOk(r, k) { assert ParentOk(ps, k); }
  }

  /** No child of slot `i` has ended. */
  ghost predicate NoneEnded(ps: seq<Process>, i: nat) {
    forall k :: 0 <= k < |ps| && ps[k].parent == Some(i) ==> !Ended(ps[k])
  }

  lemma ReplaceWaits(ps: seq<Process>, i: nat, p: Process)
    requires WaitsOk(ps) && i < |ps|
    requires Waiting(p) ==> p.chan.slot == i && NoneEnded(ps, i)
    requires Ended(p) ==> Ended(ps[i]) && p.parent == ps[i].parent
    ensures WaitsOk(ps[i := p])
  {
  }

  /** A live slot changes its state but keeps its parent and pid. */
  lemma RestateKeeps(s: State, i: nat, p: Process, curr: Option<nat>)
    requires Inv(s) && i < |s.procs| && Live(s.procs[i]) && Live(p)
    requires p.parent == s.procs[i].parent && p.pid == s.procs[i].pid
    requires p.state.Running? ==> curr == Some(i)
    requires forall k :: 0 <= k < |s.procs| && k != i && (s.procs[k].state.Running? || s.procs[k].state.Dying?) ==>
               curr == Some(k)
    requires curr.Some? ==> curr == Some(i) || curr == s.curr
    requires Waiting(p) ==> p.chan.slot == i && NoneEnded(s.procs, i)
    ensures Inv(State(s.procs[i := p], curr, s.nextPid))
  {
    assert ParentOk(s.procs, i);
    ReplaceParents(s.procs, i, p);
    ReplaceWaits(s.procs, i, p);
    hide ParentsOk, WaitsOk;
  }

  lemma SwitchBackKeeps(s: State)
    requires Inv(s) && Enabled(s, SwitchBack)
    ensures Inv(Apply(s, SwitchBack))
  {
    var ps, i := s.procs, s.curr.value;
    if ps[i].state.Dying? {
      var p := ps[i].(state := Zombie);
      assert ParentOk(ps, i);
      Childless(ps, i);
      ReplaceParents(ps, i, p);
      ReplaceWaits(ps, i, p);
    } else {
      assert ps[i := ps[i]] == ps;
    }
    hide ParentsOk, WaitsOk;
  }

  lemma ReapKeeps(s: State, z: nat)
    requires Inv(s) && z < |s.procs| && s.procs[z].state.Zombie?
    ensures Inv(s.(procs := s.procs[z := Vacant()]))
  {
    Childless(s.procs, z);
    ReplaceParents(s.procs, z, Vacant());
    ReplaceWaits(s.procs, z, Vacant());
    hide ParentsOk, WaitsOk;
  }

  lemma NoZombies(s: State)
    requires Inv(s) && Enabled(s, Wait) && Scan(s.procs, ZombieOf(s.curr.value), 0).None?
    ensures NoneEnded(s.procs, s.curr.value)
  {
    var ps, i := s.procs, s.curr.value;
    forall k | 0 <= k < |ps| && ps[k].parent == Some(i) ensures !Ended(ps[k]) {
      assert !Matches(ps[k], ZombieOf(i));
    }
  }

  lemma WaitKeeps(s: State)
    requires Inv(s) && Enabled(s, Wait)
    ensures Inv(Apply(s, Wait))
  {
    var ps, i := s.procs, s.curr.value;
    var z := Scan(ps, ZombieOf(i), 0);
    if z.Some? {
      ReapKeeps(s, z.value);
    } else if Scan(ps, ChildOf(i), 0).Some? {
      NoZombies(s);
      RestateKeeps(s, i, ps[i].(state := Sleeping, chan := Slot(i)), s.curr);
    }
  }

  lemma ForkKeeps(s: State)
    requires Inv(s) && Enabled(s, Fork)
    ensures Inv(Apply(s, Fork))
  {
    var ps, k := s.procs, Scan(s.procs, AnyUnused, 0).value;
    var p := Process(Runnable, s.curr, 0, NoChan, s.nextPid);
    Childless(ps, k);
    ReplaceParents(ps, k, p);
    ReplaceWaits(ps, k, p);
    hide ParentsOk, WaitsOk;
  }

  /** Every step keeps the table in order. */
  lemma StepKeeps(s: State, e: Event)
    requires Inv(s) && Enabled(s, e)
    ensures Inv(Apply(s, e))
  {
    var ps := s.procs;
    match e
    case Pick =>
      var r := Scan(ps, AnyRunnable, 0);
      if r.Some? { RestateKeeps(s, r.value, ps[r.value].(state := Running), r); }
    case SwitchBack => SwitchBackKeeps(s);
    case Yield => RestateKeeps(s, s.curr.value, ps[s.curr.value].(state := Runnable), s.curr);
    case Sleep(chan) => RestateKeeps(s, s.curr.value, ps[s.curr.value].(state := Sleeping, chan := chan), s.curr);
    case Wake(chan) => WokenKeeps(ps, s.curr, s.nextPid, chan);
    case Exit(code) => ExitKeeps(s, code);
    case Wait => WaitKeeps(s);
    case Fork => ForkKeeps(s);
  }

  // ----- runs and their history

  /** `wait` of process `parent` returned the status of `pid`. */
  datatype Ret = Ret(pid: nat, code: int, parent: nat)

  /** Statuses given to `exit`, who forked whom, and what `wait` returned, by pid. */
  datatype Hist = Hist(exited: map<nat, int>, forker: map<nat, nat>, returned: seq<Ret>)

  /** What the running process's `wait` returns in this state, if anything. */
  ghost function WaitReturns(s: State): Option<Ret>
    requires Enabled(s, Wait)
  {
    var z := Scan(s.procs, ZombieOf(s.curr.value), 0);
    if z.None? then None
    else Some(Ret(s.procs[z.value].pid, s.procs[z.value].exitCode, s.procs[s.curr.value].pid))
  }

  ghost function Record(h: Hist, s: State, e: Event): Hist
    requires Enabled(s, e)
  {
    match e
    case Exit(code) => h.(exited := h.exited[s.procs[s.curr.value].pid := code])
    case Fork => h.(forker := h.forker[s.nextPid := s.procs[s.curr.value].pid])
    case Wait => if WaitReturns(s).Some? then h.(returned := h.returned + [WaitReturns(s).value]) else h
    case _ => h
  }

  /** The one who may collect the status of `pid`: its forker, or init once the forker has exited. */
  ghost predicate Entitled(h: Hist, init: nat, pid: nat, parent: nat) {
    pid in h.forker && (parent == h.forker[pid] || (parent == init && h.forker[pid] in h.exited))
  }

  ghost predicate Collected(h: Hist, pid: nat) {
    exists i :: 0 <= i < |h.returned| && h.returned[i].pid == pid
  }

  /** Some slot still holds the status of `pid`. */
  ghost predicate Pending(ps: seq<Process>, pid: nat) {
    exists i :: 0 <= i < |ps| && Ended(ps[i]) && ps[i].pid == pid
  }

  /** Slot `i` and the history agree. */
  ghost predicate SlotHist(ps: seq<Process>, h: Hist, i: nat)
    requires i < |ps|
  {
    && (Live(ps[i]) ==> ps[i].pid !in h.exited)
    && (Ended(ps[i]) ==> ps[i].pid in h.exited && h.exited[ps[i].pid] == ps[i].exitCode)
    && (ps[i].state != Unused ==> !Collected(h, ps[i].pid))
    && (ps[i].parent.Some? && ps[i].parent.value < |ps| ==>
      Entitled(h, ps[0].pid, ps[i].pid, ps[ps[i].parent.value].pid))
  }

  /** Everything returned was the status of an exited process, returned once, to one entitled to it. */
  ghost predicate ReturnsOk(h: Hist, init: nat) {
    && (forall i :: 0 <= i < |h.returned| ==>
          var r := h.returned[i]; r.pid in h.exited && h.exited[r.pid] == r.code && Entitled(h, init, r.pid, r.parent))
    && (forall i, k :: 0 <= i < k < |h.returned| ==> h.returned[i].pid != h.returned[k].pid)
  }

  /** No status is lost: it was returned or is still in the table. */
  ghost predicate NoneLost(ps: seq<Process>, h: Hist) {
    forall pid :: pid in h.exited ==> Collected(h, pid) || Pending(ps, pid)
  }

  /** If init sleeps in `wait` and slot `k` is an ended child of it, then another process forked that child. */
  ghost predicate OrphanOk(ps: seq<Process>, h: Hist, init: nat, k: nat)
    requires 0 < |ps| && k < |ps|
  {
    Waiting(ps[0]) && ps[k].parent == Some(0) && Ended(ps[k]) ==>
      ps[k].pid in h.forker && h.forker[ps[k].pid] != init
  }

  ghost predicate HistInv(s: State, h: Hist, init: nat) {
    && |s.procs| == NPROC && s.procs[0].pid == init
    && (forall i: nat :: i < |s.procs| ==> SlotHist(s.procs, h, i))
    && (forall i: nat :: i < |s.procs| ==> OrphanOk(s.procs, h, init, i))
    && ReturnsOk(h, init) && NoneLost(s.procs, h)
    && (forall pid :: pid in h.exited || pid in h.forker ==> pid < s.nextPid)
  }

  predicate Alike(p: Process, q: Process) {
    && q.pid == p.pid && q.parent == p.parent && q.exitCode == p.exitCode
    && Live(q) == Live(p) && Ended(q) == Ended(p)
  }

  /** Steps that only move a process between live states, or from Dying to Zombie, leave no trace. */
  lemma AlikeKeeps(s: State, s': State, h: Hist, init: nat)
    requires HistInv(s, h, init) && |s'.procs| == |s.procs| && s'.nextPid == s.nextPid
    requires forall i :: 0 <= i < |s.procs| ==> Alike(s.procs[i], s'.procs[i])
    requires Waiting(s'.procs[0]) ==> Waiting(s.procs[0]) || NoneEnded(s.procs, 0)
    ensures HistInv(s', h, init)
  {
    forall i: nat | i < |s'.procs| ensures SlotHist(s'.procs, h, i) { assert SlotHist(s.procs, h, i); }
    forall i: nat | i < |s'.procs| ensures OrphanOk(s'.procs, h, init, i) { assert OrphanOk(s.procs, h, init, i); }
    hide SlotHist, ReturnsOk, OrphanOk;
    forall pid | pid in h.exited && !Collected(h, pid) ensures Pending(s'.procs, pid) {
      var i :| 0 <= i < |s.procs| && Ended(s.procs[i]) && s.procs[i].pid == pid;
      assert Ended(s'.procs[i]) && s'.procs[i].pid == pid;
    }
  }

  lemma ExitSlot(s: State, h: Hist, code: int, k: nat)
    requires Inv(s) && Enabled(s, Exit(code)) && k < |s.procs| && SlotHist(s.procs, h, k)
    ensures SlotHist(Exited(s.procs, s.curr.value, code), Record(h, s, Exit(code)), k)
  {
    var ps, i := s.procs, s.curr.value;
    assert ParentOk(ps, k);
    assert k != i && !ps[k].state.Unused? ==> ps[k].pid != ps[i].pid;
    hide Exited, WaitsOk, ParentsOk, PidsOk, SlotsOk;
    ExitedAt(ps, i, code, k);
    ExitedAt(ps, i, code, 0);
    if ps[k].parent.Some? { ExitedAt(ps, i, code, ps[k].parent.value); }
    CollectedSame(h, h.exited[ps[i].pid := code], ps[k].pid);
    hide Collected;
  }

  lemma ExitOrphan(s: State, h: Hist, code: int, k: nat)
    requires Inv(s) && Enabled(s, Exit(code)) && k < |s.procs| && SlotHist(s.procs, h, k)
    requires OrphanOk(s.procs, h, s.procs[0].pid, k)
    ensures OrphanOk(Exited(s.procs, s.curr.value, code), Record(h, s, Exit(code)), s.procs[0].pid, k)
  {
    var ps, i := s.procs, s.curr.value;
    assert ps[0].pid != ps[i].pid;
    assert Waiting(ps[0]) ==> ps[0].chan == Slot(0);
    hide Exited, WaitsOk, ParentsOk, PidsOk, SlotsOk, Collected;
    ExitedAt(ps, i, code, k);
    ExitedAt(ps, i, code, 0);
  }

  lemma CollectedSame(h: Hist, exited: map<nat, int>, pid: nat)
    ensures Collected(h.(exited := exited), pid) <==> Collected(h, pid)
  {
  }

  lemma ExitHist(s: State, h: Hist, init: nat, code: int)
    requires Inv(s) && Enabled(s, Exit(code)) && HistInv(s, h, init)
    ensures HistInv(Apply(s, Exit(code)), Record(h, s, Exit(code)), init)
  {
    var ps, i := s.procs, s.curr.value;
    var r, h' := Exited(ps, i, code), Record(h, s, Exit(code));
    assert ps[i].pid < s.nextPid && ps[i].pid !in h.exited by { assert SlotHist(ps, h, i); }
    hide Exited, WaitsOk, ParentsOk, PidsOk, ReturnsOk, NoneLost, SlotHist, OrphanOk;
    forall k: nat | k < |r| ensures SlotHist(r, h', k) { ExitSlot(s, h, code, k); }
    forall k: nat | k < |r| ensures OrphanOk(r, h', init, k) { ExitOrphan(s, h, code, k); }
    ExitedAt(ps, i, code, 0);
    ExitReturns(ps, h, init, i, code);
    ExitNoneLost(ps, h, i, code);
  }

  lemma ExitReturns(ps: seq<Process>, h: Hist, init: nat, i: nat, code: int)
    requires ReturnsOk(h, init) && i < |ps| && ps[i].pid !in h.exited
    ensures ReturnsOk(h.(exited := h.exited[ps[i].pid := code]), init)
  {
  }

  lemma ExitNoneLost(ps: seq<Process>, h: Hist, i: nat, code: int)
    requires NoneLost(ps, h) && i < |ps| && Live(ps[i])
    ensures NoneLost(Exited(ps, i, code), h.(exited := h.exited[ps[i].pid := code]))
  {
    hide Exited;
    var r, h' := Exited(ps, i, code), h.(exited := h.exited[ps[i].pid := code]);
    forall pid | pid in h'.exited ensures Collected(h', pid) || Pending(r, pid) {
      if pid == ps[i].pid {
        ExitedAt(ps, i, code, i);
        assert Ended(r[i]);
      } else if Collected(h, pid) {
        var k :| 0 <= k < |h.returned| && h.returned[k].pid == pid;
        assert h'.returned[k].pid == pid;
      } else {
        var k :| 0 <= k < |ps| && Ended(ps[k]) && ps[k].pid == pid;
        ExitedAt(ps, i, code, k);
        assert Ended(r[k]);
      }
    }
  }

  lemma ReapHist(s: State, h: Hist, init: nat)
    requires Inv(s) && Enabled(s, Wait) && HistInv(s, h, init) && WaitReturns(s).Some?
    ensures HistInv(Apply(s, Wait), Record(h, s, Wait), init)
  {
    var ps, i, z := s.procs, s.curr.value, Scan(s.procs, ZombieOf(s.curr.value), 0).value;
    var r, ret := ps[z := Vacant()], WaitReturns(s).value;
    var h' := h.(returned := h.returned + [ret]);
    Childless(ps, z);
    assert SlotHist(ps, h, z);
    forall pid ensures Collected(h', pid) <==> Collected(h, pid) || pid == ret.pid { CollectedMore(h, ret, pid); }
    hide Collected, WaitsOk;
    forall k: nat | k < |r| ensures SlotHist(r, h', k) {
      assert SlotHist(ps, h, k);
      assert ParentOk(ps, k);
    }
    forall k: nat | k < |r| ensures OrphanOk(r, h', init, k) { assert OrphanOk(ps, h, init, k); }
    hide SlotHist, OrphanOk;
    assert NoneLost(r, h') by {
      forall pid | pid in h'.exited ensures Collected(h', pid) || Pending(r, pid) {
        if !Collected(h', pid) {
          var k :| 0 <= k < |ps| && Ended(ps[k]) && ps[k].pid == pid;
          assert Ended(r[k]) && r[k].pid == pid;
        }
      }
    }
    assert ReturnsOk(h', init) by { ReturnMore(h, init, ret); }
  }

  lemma CollectedMore(h: Hist, ret: Ret, pid: nat)
    ensures Collected(h.(returned := h.returned + [ret]), pid) <==> Collected(h, pid) || pid == ret.pid
  {
    var h' := h.(returned := h.returned + [ret]);
    if Collected(h, pid) {
      var k :| 0 <= k < |h.returned| && h.returned[k].pid == pid;
      assert h'.returned[k].pid == pid;
    }
    if pid == ret.pid { assert h'.returned[|h.returned|].pid == pid; }
  }

  lemma ReturnMore(h: Hist, init: nat, ret: Ret)
    requires ReturnsOk(h, init) && !Collected(h, ret.pid)
    requires ret.pid in h.exited && h.exited[ret.pid] == ret.code && Entitled(h, init, ret.pid, ret.parent)
    ensures ReturnsOk(h.(returned := h.returned + [ret]), init)
  {
    var h' := h.(returned := h.returned + [ret]);
    forall i | 0 <= i < |h'.returned| ensures var r := h'.returned[i];
      r.pid in h'.exited && h'.exited[r.pid] == r.code && Entitled(h', init, r.pid, r.parent) {
    }
    forall i, k | 0 <= i < k < |h'.returned| ensures h'.returned[i].pid != h'.returned[k].pid {
      assert h'.returned[i] == h.returned[i];
    }
  }

  lemma ForkSlot(s: State, h: Hist, j: nat)
    requires Inv(s) && Enabled(s, Fork) && j < |s.procs| && SlotHist(s.procs, h, j)
    requires s.nextPid !in h.exited && !Collected(h, s.nextPid) && s.nextPid !in h.forker
    ensures SlotHist(Apply(s, Fork).procs, Record(h, s, Fork), j)
  {
    var ps, k := s.procs, Scan(s.procs, AnyUnused, 0).value;
    assert ParentOk(ps, j);
    Childless(ps, k);
    hide WaitsOk, ParentsOk, PidsOk;
    forall pid ensures Collected(Record(h, s, Fork), pid) <==> Collected(h, pid) {}
    hide Collected;
  }

  lemma ForkHist(s: State, h: Hist, init: nat)
    requires Inv(s) && Enabled(s, Fork) && HistInv(s, h, init)
    ensures HistInv(Apply(s, Fork), Record(h, s, Fork), init)
  {
    var ps, r, h' := s.procs, Apply(s, Fork).procs, Record(h, s, Fork);
    assert !Collected(h, s.nextPid);
    forall pid ensures Collected(h', pid) <==> Collected(h, pid) {}
    forall j: nat | j < |r| ensures OrphanOk(r, h', init, j) { assert OrphanOk(ps, h, init, j); }
    hide Inv, Collected, SlotHist, OrphanOk;
    forall j: nat | j < |r| ensures SlotHist(r, h', j) { ForkSlot(s, h, j); }
    assert NoneLost(r, h') by {
      forall pid | pid in h'.exited && !Collected(h', pid) ensures Pending(r, pid) {
        var j :| 0 <= j < |ps| && Ended(ps[j]) && ps[j].pid == pid;
        assert Ended(r[j]) && r[j].pid == pid;
      }
    }
  }

  lemma StepHist(s: State, h: Hist, init: nat, e: Event)
    requires Inv(s) && Enabled(s, e) && HistInv(s, h, init)
    ensures HistInv(Apply(s, e), Record(h, s, e), init)
  {
    match e
    case Exit(code) => ExitHist(s, h, init, code);
    case Fork => ForkHist(s, h, init);
    case Wait =>
      if WaitReturns(s).Some? {
        ReapHist(s, h, init);
      } else {
        NoZombies(s);
        AlikeKeeps(s, Apply(s, e), h, init);
      }
    case _ => AlikeKeeps(s, Apply(s, e), h, init);
  }

  /** A run: the state and history after a sequence of events; None if one was not enabled. */
  ghost function Run(s: State, h: Hist, es: seq<Event>): Option<(State, Hist)>
    decreases |es|
  {
    if es == [] then Some((s, h))
    else if Enabled(s, es[0]) then Run(Apply(s, es[0]), Record(h, s, es[0]), es[1..])
    else None
  }

  lemma {:induction false} RunKeeps(s: State, h: Hist, init: nat, es: seq<Event>)
    requires Inv(s) && HistInv(s, h, init) && Run(s, h, es).Some?
    ensures Inv(Run(s, h, es).value.0) && HistInv(Run(s, h, es).value.0, Run(s, h, es).value.1, init)
    decreases |es|
  {
    if es != [] {
      StepKeeps(s, es[0]);
      StepHist(s, h, init, es[0]);
      hide Inv, HistInv, Apply, Record, Enabled;
      RunKeeps(Apply(s, es[0]), Record(h, s, es[0]), init, es[1..]);
    }
  }

  /** The machine after boot: init is Runnable in slot 0, with pid 1. */
  function Boot(): (s: State)
    ensures |s.procs| == NPROC
  {
    State(seq(NPROC, i => if i == 0 then Process(Runnable, None, 0, NoChan, 1) else Vacant()), None, 2)
  }

  lemma BootSlots()
    ensures Boot().curr == None && Boot().nextPid == 2
    ensures forall i :: 0 <= i < NPROC ==>
      Boot().procs[i] == if i == 0 then Process(Runnable, None, 0, NoChan, 1) else Vacant()
  {
  }

  lemma BootInv()
    ensures Inv(Boot()) && HistInv(Boot(), Hist(map[], map[], []), 1)
  {
    var s := Boot();
    BootSlots();
    hide Boot;
    forall i: nat ensures ParentOk(s.procs, i) {}
    forall i: nat | i < |s.procs|
      ensures SlotHist(s.procs, Hist(map[], map[], []), i) && OrphanOk(s.procs, Hist(map[], map[], []), 1, i)
    {
    }
  }

  /**
    Over every run from boot: each status is returned by `wait` at most once, as given to `exit`, and only to the
    process that forked the child, or to init if that process has exited; none is lost; recorded parents are alive; no
    process but init sleeps in `wait` while a child of it has ended; and an ended child that a sleeping init misses is
    an orphan: another process forked it and has exited.
  */
  lemma EveryRun(es: seq<Event>)
    requires Run(Boot(), Hist(map[], map[], []), es).Some?
    ensures var (s, h) := Run(Boot(), Hist(map[], map[], []), es).value;
      && |s.procs| == NPROC && ReturnsOk(h, 1) && NoneLost(s.procs, h)
      && (forall i :: 0 <= i < NPROC && s.procs[i].parent.Some? ==>
            s.procs[i].parent.value < NPROC && Live(s.procs[s.procs[i].parent.value]))
      && (forall i, k :: 0 < i < NPROC && 0 <= k < NPROC && Waiting(s.procs[i]) && s.procs[k].parent == Some(i) ==>
            !Ended(s.procs[k]))
      && (forall k :: 0 <= k < NPROC && Waiting(s.procs[0]) && s.procs[k].parent == Some(0) && Ended(s.procs[k]) ==>
            var pid := s.procs[k].pid;
            pid in h.forker && h.forker[pid] != s.procs[0].pid && h.forker[pid] in h.exited)
      && (forall i, k :: 0 <= i < NPROC && 0 <= k < NPROC && s.procs[i].state.Running? && s.procs[k].state.Running? ==>
            i == k)
  {
    BootInv();
    RunKeeps(Boot(), Hist(map[], map[], []), 1, es);
    var (s, h) := Run(Boot(), Hist(map[], map[], []), es).value;
    forall k: nat | k < NPROC && Waiting(s.procs[0]) && s.procs[k].parent == Some(0) && Ended(s.procs[k])
      ensures var pid := s.procs[k].pid;
        pid in h.forker && h.forker[pid] != s.procs[0].pid && h.forker[pid] in h.exited
    {
      assert OrphanOk(s.procs, h, 1, k) && SlotHist(s.procs, h, k);
    }
    hide Run, ReturnsOk, NoneLost, SlotHist, PidsOk, OrphanOk;
    forall i | 0 <= i < NPROC && s.procs[i].parent.Some?
      ensures s.procs[i].parent.value < NPROC && Live(s.procs[s.procs[i].parent.value])
    {
      assert ParentOk(s.procs, i);
    }
  }

  // ----- the exception: init can miss an orphan

  /** No process sleeps in `wait` while a child of it has ended. */
  ghost predicate NoneMissed(ps: seq<Process>) {
    forall i, k :: 0 <= i < |ps| && 0 <= k < |ps| && Waiting(ps[i]) && ps[k].parent == Some(i) ==> !Ended(ps[k])
  }

  /** Slot `i` exits while init sleeps in `wait` as the parent of others only, and leaves a child that has ended. */
  ghost predicate HandsOver(ps: seq<Process>, i: nat)
    requires i < |ps|
  {
    Waiting(ps[0]) && ps[i].parent != Some(0) && !NoneEnded(ps, i)
  }

  lemma ExitMisses(s: State, code: int)
    requires Inv(s) && Enabled(s, Exit(code)) && NoneMissed(s.procs)
    ensures NoneMissed(Apply(s, Exit(code)).procs) <==> !HandsOver(s.procs, s.curr.value)
  {
    var ps, i := s.procs, s.curr.value;
    var r := Exited(ps, i, code);
    ExitWaits(ps, s.curr, i, code);
    assert NoneMissed(r) <==> (Waiting(r[0]) ==> NoneEnded(r, 0));
    assert Waiting(ps[0]) ==> ps[0].chan == Slot(0) && NoneEnded(ps, 0);
    assert ParentOk(ps, i);
    hide Exited, WaitsOk, ParentsOk, PidsOk, NoneMissed;
    ExitedAt(ps, i, code, 0);
    if Waiting(r[0]) {
      forall k: nat | k < |ps|
        ensures r[k].parent == Some(0) && Ended(r[k]) <==> ps[k].parent == Some(i) && Ended(ps[k])
      {
        ExitedAt(ps, i, code, k);
      }
      if !NoneEnded(ps, i) {
        var k :| 0 <= k < |ps| && ps[k].parent == Some(i) && Ended(ps[k]);
        assert r[k].parent == Some(0) && Ended(r[k]);
      }
    }
  }

  /** A step makes a sleeping parent miss an ended child exactly if it is an exit that hands one to a sleeping init. */
  lemma StepMisses(s: State, e: Event)
    requires Inv(s) && Enabled(s, e) && NoneMissed(s.procs)
    ensures NoneMissed(Apply(s, e).procs) <==> !(e.Exit? && HandsOver(s.procs, s.curr.value))
  {
    StepKeeps(s, e);
    match e
    case Exit(code) => ExitMisses(s, code);
    case Wait => if WaitReturns(s).None? { NoZombies(s); }
    case _ =>
  }

  /** Slots 0 to 3 hold the given processes, the others are vacant. */
  ghost predicate Table(s: State, p0: Process, p1: Process, p2: Process, p3: Process, curr: Option<nat>, nextPid: nat) {
    && |s.procs| == NPROC && s.procs[0] == p0 && s.procs[1] == p1 && s.procs[2] == p2 && s.procs[3] == p3
    && (forall i :: 4 <= i < NPROC ==> s.procs[i] == Vacant())
    && s.curr == curr && s.nextPid == nextPid
  }

  function P(state: PState, parent: Option<nat>, chan: Chan, pid: nat): Process {
    Process(state, parent, 0, chan, pid)
  }

  lemma {:induction false} RunConcat(s: State, h: Hist, a: seq<Event>, b: seq<Event>)
    requires Run(s, h, a).Some?
    ensures Run(s, h, a + b) == Run(Run(s, h, a).value.0, Run(s, h, a).value.1, b)
    decreases |a|
  {
    if a == [] {
      assert a + b == b;
    } else {
      assert (a + b)[0] == a[0] && (a + b)[1..] == a[1..] + b;
      hide Apply, Record, Enabled;
      RunConcat(Apply(s, a[0]), Record(h, s, a[0]), a[1..], b);
    }
  }

  lemma Run1(s: State, h: Hist, a: Event)
    requires Enabled(s, a)
    ensures Run(s, h, [a]) == Some((Apply(s, a), Record(h, s, a)))
  {
    hide Apply, Record, Enabled;
    assert [a][1..] == [];
  }

  /** Some run from boot leads to this state. */
  ghost predicate Reachable(s: State) {
    exists es :: Run(Boot(), Hist(map[], map[], []), es).Some? && Run(Boot(), Hist(map[], map[], []), es).value.0 == s
  }

  lemma ReachStep(s: State, e: Event)
    requires Reachable(s) && Enabled(s, e)
    ensures Reachable(Apply(s, e))
  {
    hide Run, Apply, Record, Enabled, Boot;
    var b, h := Boot(), Hist(map[], map[], []);
    var es :| Run(b, h, es).Some? && Run(b, h, es).value.0 == s;
    RunConcat(b, h, es, [e]);
    Run1(s, Run(b, h, es).value.1, e);
    assert Run(b, h, es + [e]).value.0 == Apply(s, e);
  }

  lemma MissInit() returns (s: State)
    ensures Reachable(s)
    ensures Table(s, P(Sleeping, None, Slot(0), 1), P(Runnable, Some(0), NoChan, 2), Vacant(), Vacant(), None, 3)
  {
    BootSlots();
    s := Boot();
    assert Reachable(s) by { assert Run(s, Hist(map[], map[], []), []).value.0 == s; }
    hide Boot, Run, Reachable, Record;
    ReachStep(s, Pick);
    s := Apply(s, Pick);
    assert Table(s, P(Running, None, NoChan, 1), Vacant(), Vacant(), Vacant(), Some(0), 2);
    ReachStep(s, Fork);
    s := Apply(s, Fork);
    assert Table(s, P(Running, None, NoChan, 1), P(Runnable, Some(0), NoChan, 2), Vacant(), Vacant(), Some(0), 3);
    ReachStep(s, Wait);
    s := Apply(s, Wait);
    ReachStep(s, SwitchBack);
    s := Apply(s, SwitchBack);
  }

  lemma MissChild() returns (s: State)
    ensures Reachable(s)
    ensures Table(s, P(Sleeping, None, Slot(0), 1), P(Sleeping, Some(0), Slot(1), 2), P(Runnable, Some(1), NoChan, 3),
                  Vacant(), None, 4)
  {
    s := MissInit();
    hide Reachable, Record;
    ReachStep(s, Pick);
    s := Apply(s, Pick);
    assert Table(s, P(Sleeping, None, Slot(0), 1), P(Running, Some(0), NoChan, 2), Vacant(), Vacant(), Some(1), 3);
    ReachStep(s, Fork);
    s := Apply(s, Fork);
    assert Table(s, P(Sleeping, None, Slot(0), 1), P(Running, Some(0), NoChan, 2), P(Runnable, Some(1), NoChan, 3),
                 Vacant(), Some(1), 4);
    ReachStep(s, Wait);
    s := Apply(s, Wait);
    ReachStep(s, SwitchBack);
    s := Apply(s, SwitchBack);
  }

  lemma MissSleeper() returns (s: State)
    ensures Reachable(s)
    ensures Table(s, P(Sleeping, None, Slot(0), 1), P(Sleeping, Some(0), Slot(1), 2), P(Sleeping, Some(1), Other(0), 3),
                  P(Runnable, Some(2), NoChan, 4), None, 5)
  {
    s := MissChild();
    hide Reachable, Record;
    ReachStep(s, Pick);
    s := Apply(s, Pick);
    assert Table(s, P(Sleeping, None, Slot(0), 1), P(Sleeping, Some(0), Slot(1), 2), P(Running, Some(1), NoChan, 3),
                 Vacant(), Some(2), 4);
    ReachStep(s, Fork);
    s := Apply(s, Fork);
    ReachStep(s, Sleep(Other(0)));
    s := Apply(s, Sleep(Other(0)));
    ReachStep(s, SwitchBack);
    s := Apply(s, SwitchBack);
  }

  lemma MissZombie() returns (s: State)
    ensures Reachable(s)
    ensures Table(s, P(Sleeping, None, Slot(0), 1), P(Sleeping, Some(0), Slot(1), 2), P(Sleeping, Some(1), Other(0), 3),
                  P(Zombie, Some(2), NoChan, 4), None, 5)
  {
    s := MissSleeper();
    hide Reachable, Record, Exited;
    ReachStep(s, Pick);
    s := Apply(s, Pick);
    assert Table(s, P(Sleeping, None, Slot(0), 1), P(Sleeping, Some(0), Slot(1), 2), P(Sleeping, Some(1), Other(0), 3),
                 P(Running, Some(2), NoChan, 4), Some(3), 5);
    forall k: nat | k < NPROC
      ensures Exited(s.procs, 3, 0)[k] == if k == 3 then P(Dying, Some(2), NoChan, 4) else s.procs[k]
    {
      ExitedAt(s.procs, 3, 0, k);
    }
    ReachStep(s, Exit(0));
    s := Apply(s, Exit(0));
    ReachStep(s, SwitchBack);
    s := Apply(s, SwitchBack);
  }

  /**
    Init is an exception: a zombie handed to it by an exiting parent does not wake it.  Here slot 3 ended, then its
    parent in slot 2 exits, and init goes on sleeping in `wait`.
  */
  lemma InitMissesOrphan() returns (s: State)
    ensures Reachable(s) && |s.procs| == NPROC
    ensures Waiting(s.procs[0]) && s.procs[3].parent == Some(0) && s.procs[3].state.Zombie?
  {
    s := MissZombie();
    hide Reachable, Record, Exited;
    ReachStep(s, Wake(Other(0)));
    s := Apply(s, Wake(Other(0)));
    assert Table(s, P(Sleeping, None, Slot(0), 1), P(Sleeping, Some(0), Slot(1), 2), P(Runnable, Some(1), NoChan, 3),
                 P(Zombie, Some(2), NoChan, 4), None, 5);
    ReachStep(s, Pick);
    s := Apply(s, Pick);
    ExitedAt(s.procs, 2, 0, 0);
    ExitedAt(s.procs, 2, 0, 3);
    ReachStep(s, Exit(0));
    s := Apply(s, Exit(0));
  }
}
