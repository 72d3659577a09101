/**
  Runs of inode operations: over any sequence of creating, writing, reading, getting, putting and relinking inodes, disk
  and inode table stand for a finite map of files and a table of references that change exactly as the operations say.
*/
module FileRuns {
  import opened Base
  import opened DiskFormat
  import opened FileTree
  import opened FileBytes
  import opened FileSystem
  import opened BufferCache

  datatype Op =
    | Create(kind: u16, major: u16, minor: u16)
    | Get(n: nat)
    | Put(slot: nat)
    | Relink(slot: nat, nlink: u16)
    | Read(slot: nat, off: nat, len: nat)
    | Write(slot: nat, off: nat, src: seq<byte>)

  /** What an operation returns: nothing, the slot of an inode, or bytes. */
  datatype Reply = Nothing | At(slot: nat, n: nat) | Data(bytes: seq<byte>)

  datatype FileRec = FileRec(kind: u16, major: u16, minor: u16, nlink: u16, data: seq<byte>)

  /** A slot of the inode table. */
  datatype Ref = Vacant | Ref(n: nat, count: nat)

  /** Live inodes with their files, and the references to inodes. */
  datatype State = State(files: map<nat, FileRec>, refs: seq<Ref>)

  // ----- what the operations mean

  predicate Used(refs: seq<Ref>, slot: nat) { slot < |refs| && refs[slot].Ref? }

  /** Offsets are 32 bits wide, and reads and writes go block by block. */
  predicate Fits(off: nat, len: nat) { off + len <= U32 - BLOCK_SIZE }

  ghost predicate Referenced(refs: seq<Ref>, n: nat) {
    exists s :: 0 <= s < |refs| && refs[s].Ref? && refs[s].n == n
  }

  /** One more reference to inode `n`, in slot `s`: its own, or a vacant one if it has none. */
  ghost predicate Gets(a: seq<Ref>, b: seq<Ref>, n: nat, s: nat) {
    && s < |a|
    && if Referenced(a, n) then a[s].Ref? && a[s].n == n && b == a[s := Ref(n, a[s].count + 1)]
       else a[s].Vacant? && b == a[s := Ref(n, 1)]
  }

  /** One reference less in slot `slot`; with the last one a file without links goes. */
  ghost predicate Puts(s: State, slot: nat, t: State)
    requires Used(s.refs, slot)
  {
    var Ref(n, c) := s.refs[slot];
    && n in s.files && c > 0
    && t.refs == s.refs[slot := if c > 1 then Ref(n, c - 1) else Vacant]
    && t.files == if c == 1 && s.files[n].nlink == 0 then s.files - {n} else s.files
  }

  /**
    The step from `s` to `t` that an operation makes, and its reply.  An operation on a slot without inode, on an inode
    number that is not live or beyond 32-bit offsets is not issued.
  */
  ghost predicate Step(s: State, op: Op, r: Reply, t: State) {
    match op
    case Create(kind, major, minor) =>
      && r.At? && r.n !in s.files && t.files == s.files[r.n := FileRec(kind, major, minor, 1, [])]
      && r.slot < |s.refs| && s.refs[r.slot].Vacant? && t.refs == s.refs[r.slot := Ref(r.n, 1)]
    case Get(n) =>
      if n !in s.files then r.Nothing? && t == s
      else r.At? && r.n == n && t.files == s.files && Gets(s.refs, t.refs, n, r.slot)
    case Put(slot) =>
      r.Nothing? && if Used(s.refs, slot) then Puts(s, slot, t) else t == s
    case Relink(slot, nlink) =>
      && r.Nothing? && t.refs == s.refs
      && if !Used(s.refs, slot) then t == s
         else var n := s.refs[slot].n; n in s.files && t.files == s.files[n := s.files[n].(nlink := nlink)]
    case Read(slot, off, len) =>
      && t == s
      && if !(Used(s.refs, slot) && Fits(off, len)) then r.Nothing?
         else var n := s.refs[slot].n; n in s.files && r == Data(Slice(s.files[n].data, off, len))
    case Write(slot, off, src) =>
      && r.Nothing? && t.refs == s.refs
      && if !(Used(s.refs, slot) && Fits(off, |src|)) then t == s
         else
           var n := s.refs[slot].n;
           n in s.files && t.files == s.files[n := s.files[n].(data := Overwrite(s.files[n].data, off, src))]
  }

  /** Why an operation may fail in state `s`; `d` is the disk it leaves. */
  ghost predicate Exhausted(s: State, op: Op, sb: SuperBlock, d: Disk) {
    match op
    case Create(_, _, _) => (forall n: nat :: n < sb.ninodes ==> n in s.files) || AllUsed(s.refs)
    case Get(n) => n in s.files && !Referenced(s.refs, n) && AllUsed(s.refs)
    case Write(slot, off, src) => Used(s.refs, slot) && Fits(off, |src|) && Layout(sb, |d|) && Full(sb, d)
    case _ => false
  }

  ghost predicate AllUsed(refs: seq<Ref>) {
    forall s :: 0 <= s < |refs| ==> refs[s].Ref?
  }

  // ----- what disk and inode table stand for

  ghost function RecAt(sb: SuperBlock, d: Disk, n: nat): FileRec
    requires Layout(sb, |d|) && n < sb.ninodes
  {
    var ino := InodeAt(sb, d, n);
    FileRec(ino.kind, ino.major, ino.minor, ino.nlink, File(sb, d, n))
  }

  ghost function Files(sb: SuperBlock, d: Disk): map<nat, FileRec>
    requires Layout(sb, |d|)
  {
    map n: nat | n < sb.ninodes && Live(sb, d, n) :: RecAt(sb, d, n)
  }

  function RefIn(ino: Inode): Ref {
    if ino.refcnt > 0 then Ref(ino.inum, ino.refcnt) else Vacant
  }

  function Refs(inodes: seq<Inode>): (r: seq<Ref>)
    ensures |r| == |inodes| && forall s :: 0 <= s < |inodes| ==> r[s] == RefIn(inodes[s])
  {
    seq(|inodes|, s requires 0 <= s < |inodes| => RefIn(inodes[s]))
  }

  ghost function StateOf(sb: SuperBlock, d: Disk, inodes: seq<Inode>): State
    requires Layout(sb, |d|)
  {
    State(Files(sb, d), Refs(inodes))
  }

  lemma RefsSet(a: seq<Inode>, s: nat, x: Inode)
    requires s < |a|
    ensures Refs(a[s := x]) == Refs(a)[s := RefIn(x)]
  {
    hide RefIn;
  }

  lemma RefsSame(a: seq<Inode>, s: nat, x: Inode)
    requires s < |a| && x.refcnt == a[s].refcnt && x.inum == a[s].inum
    ensures Refs(a[s := x]) == Refs(a)
  {
    RefsSet(a, s, x);
    assert Refs(a)[s := RefIn(x)] == Refs(a);
  }

  lemma CachedIff(inodes: seq<Inode>, n: nat)
    ensures NotCached(inodes, n) <==> !Referenced(Refs(inodes), n)
    ensures NoFreeSlot(inodes) <==> AllUsed(Refs(inodes))
  {
    var r := Refs(inodes);
    hide Refs;
    if Referenced(r, n) {
      var s :| 0 <= s < |r| && r[s].Ref? && r[s].n == n;
      assert inodes[s].refcnt > 0 && inodes[s].inum == n;
    }
    forall s | 0 <= s < |inodes| ensures inodes[s].refcnt > 0 <==> r[s].Ref? {}
    if !NotCached(inodes, n) {
      var s :| 0 <= s < |inodes| && inodes[s].refcnt > 0 && inodes[s].inum == n;
      assert r[s].Ref? && r[s].n == n;
    }
  }

  lemma FilesAt(sb: SuperBlock, d: Disk, n: nat)
    requires Layout(sb, |d|)
    ensures n in Files(sb, d) <==> Live(sb, d, n)
    ensures n in Files(sb, d) ==> n < sb.ninodes && Files(sb, d)[n] == RecAt(sb, d, n)
  {
  }

  /** A change of one file, or of whether it exists, is a change of one binding. */
  lemma OneChanged(sb: SuperBlock, d: Disk, e: Disk, n: nat, v: Option<FileRec>)
    requires Layout(sb, |d|) && |e| == |d| && n < sb.ninodes
    requires Live(sb, e, n) == v.Some? && (v.Some? ==> RecAt(sb, e, n) == v.value)
    requires forall m: nat :: m != n ==> Live(sb, e, m) == Live(sb, d, m)
    requires forall m: nat :: m != n && Live(sb, d, m) ==> RecAt(sb, e, m) == RecAt(sb, d, m)
    ensures Files(sb, e) == if v.Some? then Files(sb, d)[n := v.value] else Files(sb, d) - {n}
  {
    hide RecAt, Live;
  }

  lemma MadeFiles(sb: SuperBlock, d: Disk, e: Disk, n: nat, kind: u16, major: u16, minor: u16)
    requires Trees(sb, d) && Tails(sb, d) && !Live(sb, d, n) && Created(sb, d, e, n)
    requires InodeAt(sb, e, n) == InodeDisk(kind, major, minor, 1, 0, seq(NINDEX, _ => 0))
    ensures n !in Files(sb, d) && Files(sb, e) == Files(sb, d)[n := FileRec(kind, major, minor, 1, [])] && Tails(sb, e)
  {
    CreateRefines(sb, d, e, n);
    hide File, Tails, Trees, InodeAt;
    OneChanged(sb, d, e, n, Some(FileRec(kind, major, minor, 1, [])));
  }

  lemma GoneFiles(sb: SuperBlock, d: Disk, e: Disk, n: nat)
    requires Trees(sb, d) && Tails(sb, d) && Live(sb, d, n) && Deleted(sb, d, e, n)
    ensures n in Files(sb, d) && Files(sb, e) == Files(sb, d) - {n} && Tails(sb, e)
  {
    DeleteRefines(sb, d, e, n);
    hide File, Tails, Trees, InodeAt, Marked, InTree;
    OneChanged(sb, d, e, n, None);
  }

  lemma RelinkedFiles(sb: SuperBlock, d: Disk, e: Disk, n: nat, nlink: u16)
    requires Layout(sb, |d|) && Tails(sb, d) && Live(sb, d, n)
    requires MetaSet(sb, d, e, n, InodeAt(sb, d, n).(nlink := nlink))
    ensures n in Files(sb, d) && Files(sb, e) == Files(sb, d)[n := Files(sb, d)[n].(nlink := nlink)] && Tails(sb, e)
  {
    hide File, TailZero, FileByte, InodeAt, T;
    forall m | Live(sb, d, m) ensures File(sb, e, m) == File(sb, d, m) && (TailZero(sb, d, m) ==> TailZero(sb, e, m)) {
      SameFile(sb, d, e, m);
    }
    OneChanged(sb, d, e, n, Some(RecAt(sb, d, n).(nlink := nlink)));
  }

  lemma WroteFiles(sb: SuperBlock, d: Disk, e: Disk, n: nat, off: nat, src: seq<byte>)
    requires Tails(sb, d) && Live(sb, d, n) && WriteResult(sb, d, e, n, off, src)
    ensures n in Files(sb, d) && Tails(sb, e)
    ensures Files(sb, e) == Files(sb, d)[n := Files(sb, d)[n].(data := Overwrite(Files(sb, d)[n].data, off, src))]
  {
    assert GapZero(sb, d, n, off) by { assert TailZero(sb, d, n); }
    hide File, Tails, TailZero, Overwrite, InodeAt, T, FileByte, GapZero;
    WriteRefines(sb, d, e, n, off, src);
    OneChanged(sb, d, e, n, Some(RecAt(sb, d, n).(data := Overwrite(File(sb, d, n), off, src))));
  }

  lemma SlotState(sb: SuperBlock, d: Disk, inodes: seq<Inode>, slot: nat)
    requires FsInv(sb, d, inodes) && Used(Refs(inodes), slot)
    ensures slot < N_INODE == |inodes| && inodes[slot].refcnt > 0
    ensures Refs(inodes)[slot] == Ref(inodes[slot].inum, inodes[slot].refcnt)
    ensures var n := inodes[slot].inum;
      && n < sb.ninodes && Live(sb, d, n) && inodes[slot].disk == InodeAt(sb, d, n)
      && n in Files(sb, d) && Files(sb, d)[n] == RecAt(sb, d, n)
  {
    hide Trees, File, InodeAt;
  }

  // ----- the operations

  /** The file system is in order and every live file has a zero tail. */
  ghost predicate Good(fs: Fs)
    reads fs, fs.cache
  {
    fs.Valid() && Tails(fs.sb, fs.cache.disk)
  }

  ghost function Now(fs: Fs): State
    requires fs.Valid()
    reads fs, fs.cache
  {
    StateOf(fs.sb, fs.cache.disk, fs.inodes)
  }

  /** One operation makes its step, or fails because blocks, inodes or inode slots have run out. */
  method Perform(fs: Fs, op: Op) returns (ok: bool, r: Reply)
    requires Good(fs)
    modifies fs`inodes, fs.cache
    ensures fs.cache.peak <= Max(old(fs.cache.peak), 3)
    ensures ok ==> Good(fs) && Step(old(Now(fs)), op, r, Now(fs))
    ensures !ok ==> Exhausted(old(Now(fs)), op, fs.sb, fs.cache.disk)
  {
    hide CacheInv, HandlesOf, FsInv, Trees, Icache, Files, Refs, Tails, InodeAt, Live, Gets, Puts, RecAt, Full;
    InvParts(fs.sb, fs.cache.disk, fs.inodes);
    ok, r := true, Nothing;
    match op
    case Create(kind, major, minor) =>
      ok, r := DoCreate(fs, kind, major, minor);
    case Get(n) =>
      FilesAt(fs.sb, fs.cache.disk, n);
      if Live(fs.sb, fs.cache.disk, n) { ok, r := DoGet(fs, n); }
    case Put(slot) =>
      if Used(Refs(fs.inodes), slot) { DoPut(fs, slot); }
    case Relink(slot, nlink) =>
      if Used(Refs(fs.inodes), slot) {
        SlotState(fs.sb, fs.cache.disk, fs.inodes, slot);
        ghost var ino := fs.inodes[slot].disk.(nlink := nlink);
        RefsSame(fs.inodes, slot, fs.inodes[slot].(disk := ino));
        fs.SetNlink(slot, nlink);
        RelinkedFiles(fs.sb, old(fs.cache.disk), fs.cache.disk, fs.inodes[slot].inum, nlink);
      }
    case Read(slot, off, len) =>
      if Used(Refs(fs.inodes), slot) && Fits(off, len) {
        SlotState(fs.sb, fs.cache.disk, fs.inodes, slot);
        var data := fs.ReadData(slot, off, len);
        r := Data(data);
        ReadOf(fs.sb, fs.cache.disk, fs.inodes[slot].inum, off, len, data);
      }
    case Write(slot, off, src) =>
      if Used(Refs(fs.inodes), slot) && Fits(off, |src|) { ok := DoWrite(fs, slot, off, src); }
  }

  lemma InvParts(sb: SuperBlock, d: Disk, inodes: seq<Inode>)
    requires FsInv(sb, d, inodes)
    ensures Trees(sb, d) && Layout(sb, |d|) && Icache(sb, d, inodes) && |inodes| == N_INODE
  {
  }

  lemma InvWhole(sb: SuperBlock, d: Disk, inodes: seq<Inode>)
    requires Trees(sb, d) && Layout(sb, |d|) && Icache(sb, d, inodes)
    ensures FsInv(sb, d, inodes)
  {
  }

  lemma ReadOf(sb: SuperBlock, d: Disk, n: nat, off: nat, len: nat, data: seq<byte>)
    requires ReadResult(sb, d, n, off, len, data)
    ensures Layout(sb, |d|) && n < sb.ninodes && data == Slice(RecAt(sb, d, n).data, off, len)
  {
    hide File;
  }

  lemma NoneLeft(sb: SuperBlock, d: Disk)
    requires Layout(sb, |d|) && NoFreeInode(sb, d)
    ensures forall n: nat :: n < sb.ninodes ==> n in Files(sb, d)
  {
    hide Live, RecAt;
  }

  method DoCreate(fs: Fs, kind: u16, major: u16, minor: u16) returns (ok: bool, r: Reply)
    requires Good(fs)
    modifies fs`inodes, fs.cache
    ensures fs.cache.peak <= Max(old(fs.cache.peak), 3)
    ensures ok ==> Good(fs) && Step(old(Now(fs)), Create(kind, major, minor), r, Now(fs))
    ensures !ok ==> Exhausted(old(Now(fs)), Create(kind, major, minor), fs.sb, fs.cache.disk)
  {
    hide CacheInv, HandlesOf, FsInv, Trees, Icache, Files, Refs, Tails, InodeAt, Created, Live, NoFreeInode, NoFreeSlot;
    InvParts(fs.sb, fs.cache.disk, fs.inodes);
    CachedIff(fs.inodes, 0);
    var s := fs.InodeCreate(kind, major, minor);
    if s.None? {
      if NoFreeInode(fs.sb, old(fs.cache.disk)) { NoneLeft(fs.sb, old(fs.cache.disk)); }
      return false, Nothing;
    }
    var n := fs.inodes[s.value].inum;
    FsInvFacts(fs.sb, fs.cache.disk, fs.inodes, s.value);
    MadeFiles(fs.sb, old(fs.cache.disk), fs.cache.disk, n, kind, major, minor);
    RefsSet(old(fs.inodes), s.value, fs.inodes[s.value]);
    return true, At(s.value, n);
  }

  method DoGet(fs: Fs, n: nat) returns (ok: bool, r: Reply)
    requires Good(fs) && Live(fs.sb, fs.cache.disk, n)
    modifies fs`inodes, fs.cache
    ensures fs.cache.peak <= Max(old(fs.cache.peak), 3)
    ensures ok ==> Good(fs) && Step(old(Now(fs)), Get(n), r, Now(fs))
    ensures !ok ==> Exhausted(old(Now(fs)), Get(n), fs.sb, fs.cache.disk)
  {
    hide CacheInv, HandlesOf, FsInv, Trees, Icache, Files, Refs, Tails, InodeAt, Live, NotCached, NoFreeSlot;
    hide Referenced;
    InvParts(fs.sb, fs.cache.disk, fs.inodes);
    CachedIff(fs.inodes, n);
    FilesAt(fs.sb, fs.cache.disk, n);
    var s := fs.InodeGet(n);
    InvWhole(fs.sb, fs.cache.disk, fs.inodes);
    if s.None? { return false, Nothing; }
    RefsSet(old(fs.inodes), s.value, fs.inodes[s.value]);
    return true, At(s.value, n);
  }

  method DoPut(fs: Fs, slot: nat)
    requires Good(fs) && Used(Refs(fs.inodes), slot)
    modifies fs`inodes, fs.cache
    ensures fs.cache.peak <= Max(old(fs.cache.peak), 3)
    ensures Good(fs) && Step(old(Now(fs)), Put(slot), Nothing, Now(fs))
  {
    hide CacheInv, HandlesOf, FsInv, Trees, Icache, Files, Refs, Tails, InodeAt, Deleted, Live, File;
    SlotState(fs.sb, fs.cache.disk, fs.inodes, slot);
    InvParts(fs.sb, fs.cache.disk, fs.inodes);
    ghost var last, n := fs.inodes[slot].refcnt == 1 && fs.inodes[slot].disk.nlink == 0, fs.inodes[slot].inum;
    fs.InodePut(slot);
    RefsSet(old(fs.inodes), slot, fs.inodes[slot]);
    if last { GoneFiles(fs.sb, old(fs.cache.disk), fs.cache.disk, n); }
  }

  method DoWrite(fs: Fs, slot: nat, off: nat, src: seq<byte>) returns (ok: bool)
    requires Good(fs) && Used(Refs(fs.inodes), slot) && Fits(off, |src|)
    modifies fs`inodes, fs.cache
    ensures fs.cache.peak <= Max(old(fs.cache.peak), 3)
    ensures ok ==> Good(fs) && Step(old(Now(fs)), Write(slot, off, src), Nothing, Now(fs))
    ensures !ok ==> Exhausted(old(Now(fs)), Write(slot, off, src), fs.sb, fs.cache.disk)
  {
    hide CacheInv, HandlesOf, FsInv, Trees, Icache, Files, Refs, Tails, InodeAt, WriteResult, Live, Full, RecAt;
    SlotState(fs.sb, fs.cache.disk, fs.inodes, slot);
    var n := fs.inodes[slot].inum;
    ok := fs.WriteData(slot, off, src);
    InvParts(fs.sb, fs.cache.disk, fs.inodes);
    if ok {
      WroteFiles(fs.sb, old(fs.cache.disk), fs.cache.disk, n, off, src);
      RefsSame(old(fs.inodes), slot, fs.inodes[slot]);
    }
  }

  // ----- runs

  /** The states before, between and after the operations made so far. */
  ghost predicate Trace(ops: seq<Op>, replies: seq<Reply>, states: seq<State>) {
    && |states| == |replies| + 1 && |replies| <= |ops|
    && forall k :: 0 <= k < |replies| ==> Step(states[k], ops[k], replies[k], states[k + 1])
  }

  lemma TraceMore(ops: seq<Op>, replies: seq<Reply>, states: seq<State>, r: Reply, t: State)
    requires Trace(ops, replies, states) && |replies| < |ops| && Step(states[|replies|], ops[|replies|], r, t)
    ensures Trace(ops, replies + [r], states + [t])
  {
    hide Step;
    var rs, ss := replies + [r], states + [t];
    forall k | 0 <= k < |rs| ensures Step(ss[k], ops[k], rs[k], ss[k + 1]) {
      if k < |replies| { assert Step(states[k], ops[k], replies[k], states[k + 1]); }
    }
  }

  /**
    Every run from a consistent image: the trees stay disjoint and marked, at most three buffers are held at any moment,
    none is held in between, and files, references and replies follow the operations step by step.  A run ends early
    only at an operation that has run out of blocks, inodes or inode slots.
  */
  method Run(fs: Fs, ops: seq<Op>) returns (replies: seq<Reply>, ghost states: seq<State>)
    requires Good(fs)
    modifies fs`inodes, fs.cache
    ensures fs.cache.peak <= Max(old(fs.cache.peak), 3)
    ensures |replies| <= |ops| && Trace(ops, replies, states) && states[0] == old(Now(fs))
    ensures |replies| == |ops| ==> Good(fs) && states[|replies|] == Now(fs)
    ensures |replies| < |ops| ==> Exhausted(states[|replies|], ops[|replies|], fs.sb, fs.cache.disk)
  {
    hide CacheInv, HandlesOf, FsInv, StateOf, Tails, Step, Exhausted;
    replies, states := [], [Now(fs)];
    while |replies| < |ops|
      invariant |replies| <= |ops| && Good(fs) && fs.cache.peak <= Max(old(fs.cache.peak), 3)
      invariant Trace(ops, replies, states) && states[0] == old(Now(fs)) && states[|replies|] == Now(fs)
      decreases |ops| - |replies|
    {
      var ok, r := Perform(fs, ops[|replies|]);
      if !ok { return; }
      TraceMore(ops, replies, states, r, Now(fs));
      replies, states := replies + [r], states + [Now(fs)];
    }
  }
}
