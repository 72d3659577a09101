/**
  What the file-system calls (kernel/src/syscall/fs.rs, file.rs, path.rs) do, over the tree of directories that the disk
  stands for, the table of open files and the descriptors of processes.
*/
module Namespace {
  import opened Base
  import opened Names
  import opened Paths
  import opened Links
  import opened OpenFiles
  import opened DiskFormat
  import opened FileSystem
  import opened DiskTree
  import FileTree
  import FileBytes
  import Bits

  /**
    How a call ends.  `Panicked` is a kernel panic for want of blocks, inodes or inode slots.  `Outside` marks what is
    not modelled: a path whose last component would be looked up in a file that is no directory, a link count beyond 16
    bits, an offset beyond 32 bits.
  */
  datatype Reply<+T> = Done(value: T) | Failed | Panicked | Outside

  /** A reply without its value. */
  ghost function Outcome<T>(r: Reply<T>): Reply<()> {
    match r
    case Done(_) => Done(())
    case Failed => Failed
    case Panicked => Panicked
    case Outside => Outside
  }

  // ----- where paths lead

  function StartOf(path: seq<byte>, cwd: nat): nat {
    if path != [] && path[0] == SLASH then ROOT_INODE else cwd
  }

  /** All components but the last. */
  function Front(cs: seq<seq<byte>>): seq<seq<byte>>
    requires cs != []
  {
    cs[..|cs| - 1]
  }

  /** The last component of a path. */
  function LastOf(path: seq<byte>): seq<byte> {
    var cs := Components(path, 0);
    if cs == [] then [] else cs[|cs| - 1]
  }

  /** What a path names, from working directory `cwd`. */
  ghost function PathTo(t: Tree, cwd: nat, path: seq<byte>): Option<nat> {
    Resolve(t, StartOf(path, cwd), Components(path, 0))
  }

  /** The directory that holds the last component of a path; without any component that is where the path starts. */
  ghost function ParentTo(t: Tree, cwd: nat, path: seq<byte>): Option<nat> {
    var cs := Components(path, 0);
    if cs == [] then Some(StartOf(path, cwd)) else Resolve(t, StartOf(path, cwd), Front(cs))
  }

  ghost predicate NoParent(t: Tree, cwd: nat, path: seq<byte>) {
    Components(path, 0) != [] && ParentTo(t, cwd, path).None?
  }

  /** The parent is inode `i`, and the last component, if any, is left in the name buffer. */
  ghost predicate FoundParent(t: Tree, cwd: nat, path: seq<byte>, buf: seq<byte>, i: nat, name: seq<byte>) {
    var cs := Components(path, 0);
    ParentTo(t, cwd, path) == Some(i) && name == if cs == [] then buf else Key(LastOf(path))
  }

  // ----- what paths mean, law by law

  predicate Relative(path: seq<byte>) { path == [] || path[0] != SLASH }

  /** An absolute path starts at the root, whatever the working directory; the empty path names that. */
  lemma AbsolutePath(t: Tree, cwd: nat, path: seq<byte>)
    ensures !Relative(path) ==> PathTo(t, cwd, path) == PathTo(t, ROOT_INODE, path)
    ensures !Relative(path) ==> ParentTo(t, cwd, path) == ParentTo(t, ROOT_INODE, path)
    ensures Relative(path) ==> PathTo(t, cwd, [SLASH] + path) == PathTo(t, ROOT_INODE, path)
    ensures Relative(path) ==> ParentTo(t, cwd, [SLASH] + path) == ParentTo(t, ROOT_INODE, path)
    ensures PathTo(t, cwd, []) == Some(cwd)
  {
    hide Resolve, Components;
    LeadingSlash(path);
    EndOfPath(t, cwd, [], 0);
  }

  /** A name without slashes is looked up in the working directory. */
  lemma NamePath(t: Tree, cwd: nat, c: seq<byte>)
    requires c != [] && NoSlash(c)
    ensures PathTo(t, cwd, c) == Search(t, cwd, c) && ParentTo(t, cwd, c) == Some(cwd) && LastOf(c) == c
  {
    OneComponent(c);
    hide Components, Search;
    ResolveParent(t, cwd, [c]);
    assert [c][..0] == [] && Front([c]) == [];
  }

  /** A path of two parts: the second is followed from where the first leads. */
  lemma PathInParts(t: Tree, cwd: nat, a: seq<byte>, b: seq<byte>)
    requires a != [] && Relative(b)
    ensures var d := PathTo(t, cwd, a); var path := a + [SLASH] + b;
      && PathTo(t, cwd, path) == (if d.None? then None else PathTo(t, d.value, b))
      && (b != [] ==> ParentTo(t, cwd, path) == (if d.None? then None else ParentTo(t, d.value, b)))
      && (b != [] ==> LastOf(path) == LastOf(b))
      && (b == [] ==> ParentTo(t, cwd, path) == ParentTo(t, cwd, a) && LastOf(path) == LastOf(a))
  {
    var ca, cb := Components(a, 0), Components(b, 0);
    SlashJoins(a, b);
    assert b != [] ==> cb != [] by {
      if b != [] { assert SkipSlashes(b, 0) == 0; }
    }
    assert b == [] ==> cb == [];
    hide Components, Resolve;
    ResolveAppend(t, StartOf(a, cwd), ca, cb);
    if b != [] {
      assert Front(ca + cb) == ca + Front(cb);
      ResolveAppend(t, StartOf(a, cwd), ca, Front(cb));
    } else {
      assert ca + cb == ca;
    }
  }

  /** Where a path has a component, it names what its parent has under the last one. */
  lemma PathByParent(t: Tree, cwd: nat, path: seq<byte>)
    requires Components(path, 0) != []
    ensures var d := ParentTo(t, cwd, path);
      PathTo(t, cwd, path) == if d.None? then None else Search(t, d.value, LastOf(path))
  {
    ResolveParent(t, StartOf(path, cwd), Components(path, 0));
  }

  /** What can be named has a link, so that dropping a reference to it deletes nothing. */
  ghost predicate Named(t: Tree, i: nat) { i in t && t[i].nlink > 0 }

  /** Working directories are live directories. */
  ghost predicate CwdsOk(t: Tree, procs: seq<Proc>) {
    forall p :: 0 <= p < |procs| ==> procs[p].cwd in t && t[procs[p].cwd].dir
  }

  lemma NamedIn(t: Tree, i: nat)
    requires Named(t, i)
    ensures i in t
  {
  }

  lemma SearchNamed(t: Tree, d: nat, name: seq<byte>)
    requires TreeOk(t)
    ensures Search(t, d, name).Some? ==> Named(t, Search(t, d, name).value) && Search(t, d, name).value in t
    ensures d in t && t[d].dir && Search(t, d, name).None? ==> Key(name) !in t[d].entries
  {
    var r := Search(t, d, name);
    if r.Some? && !t[r.value].dir { LinkCounted(t, d, Key(name)); }
    hide NamesOf;
  }

  lemma StartNamed(t: Tree, procs: seq<Proc>, p: nat, path: seq<byte>)
    requires TreeOk(t) && CwdsOk(t, procs) && p < |procs|
    ensures var s := StartOf(path, procs[p].cwd); Named(t, s) && s in t && t[s].dir
  {
    hide NamesOf, NoDangling;
  }

  /** One step of the resolution loops. */
  lemma ResolveStep(t: Tree, at: nat, path: seq<byte>, pos: nat)
    requires pos <= |path| && Element(path, pos).Some?
    ensures var e := Element(path, pos).value; var next := Search(t, at, e.0);
      Resolve(t, at, Components(path, pos)) == if next.None? then None
        else Resolve(t, next.value, Components(path, e.1))
  {
    var e := Element(path, pos).value;
    assert Components(path, pos) == [e.0] + Components(path, e.1);
    assert Components(path, pos)[1..] == Components(path, e.1);
  }

  lemma EndOfPath(t: Tree, at: nat, path: seq<byte>, pos: nat)
    requires pos <= |path| && Element(path, pos).None?
    ensures Resolve(t, at, Components(path, pos)) == Some(at)
  {
  }

  /** What is left to do: from `at`, follow all of `c` and `rest` but the last. */
  ghost predicate OnTheWay(t: Tree, start: nat, cs: seq<seq<byte>>, at: nat, c: seq<byte>, rest: seq<seq<byte>>) {
    && cs != [] && cs[|cs| - 1] == ([c] + rest)[|rest|]
    && Resolve(t, start, Front(cs)) == Resolve(t, at, Front([c] + rest))
  }

  lemma ParentStart(t: Tree, start: nat, cs: seq<seq<byte>>)
    requires cs != []
    ensures OnTheWay(t, start, cs, start, cs[0], cs[1..])
  {
    assert [cs[0]] + cs[1..] == cs;
  }

  lemma ParentFound(t: Tree, start: nat, cs: seq<seq<byte>>, at: nat, c: seq<byte>)
    requires OnTheWay(t, start, cs, at, c, [])
    ensures cs != [] && Resolve(t, start, Front(cs)) == Some(at) && cs[|cs| - 1] == c
  {
    assert Front([c] + []) == [];
  }

  lemma ParentStep(t: Tree, start: nat, cs: seq<seq<byte>>, at: nat, c: seq<byte>, d: seq<byte>, rest: seq<seq<byte>>)
    requires OnTheWay(t, start, cs, at, c, [d] + rest)
    ensures var next := Search(t, at, c);
      && cs != [] && (next.None? ==> Resolve(t, start, Front(cs)) == None)
      && (next.Some? ==> OnTheWay(t, start, cs, next.value, d, rest))
  {
    var all := [c] + ([d] + rest);
    assert Front(all)[0] == c && Front(all)[1..] == Front([d] + rest);
  }

  // ----- names in the buffer

  /** Copying a component into the name buffer, cut or zero-filled to its size. */
  method FillName(name: seq<byte>, buf: seq<byte>) returns (r: seq<byte>)
    requires |buf| == MAXLEN_FILENAME
    ensures r == Key(name)
  {
    r := buf;
    var len := if |name| > MAXLEN_FILENAME then MAXLEN_FILENAME else |name|;
    var i := 0;
    while i < len
      invariant 0 <= i <= len && |r| == MAXLEN_FILENAME && forall k :: 0 <= k < i ==> r[k] == name[k]
    {
      r := r[i := name[i]];
      i := i + 1;
    }
    while i < MAXLEN_FILENAME
      invariant len <= i <= MAXLEN_FILENAME == |r|
      invariant forall k :: 0 <= k < i ==> r[k] == if k < |name| then name[k] else 0
    {
      r := r[i := 0];
      i := i + 1;
    }
  }

  /** The length of the name in the buffer. */
  method NameLen(buf: seq<byte>) returns (n: nat)
    ensures n <= |buf| && NoNul(buf[..n]) && (n < |buf| ==> buf[n] == 0)
  {
    n := 0;
    while n < |buf| && buf[n] != 0
      invariant n <= |buf| && forall i :: 0 <= i < n ==> buf[i] != 0
    {
      n := n + 1;
    }
  }

  lemma NoNulAt(s: seq<byte>, i: nat)
    requires NoNul(s)
    ensures i < |s| ==> s[i] != 0
  {
  }

  /** Taking a name from the buffer again names the same entry. */
  lemma BufferedName(c: seq<byte>, n: nat)
    requires NoNul(c) && c != [] && n <= MAXLEN_FILENAME && NoNul(Key(c)[..n])
    requires n < MAXLEN_FILENAME ==> Key(c)[n] == 0
    ensures n > 0 && Key(Key(c)[..n]) == Key(c)
  {
    var k, m := Key(c), if |c| < MAXLEN_FILENAME then |c| else MAXLEN_FILENAME;
    if n < MAXLEN_FILENAME { NoNulAt(c, n); }
    NoNulAt(k[..n], |c|);
    assert n == m;
  }

  lemma {:induction false} ComponentsNoNul(path: seq<byte>, pos: nat)
    requires NoNul(path) && pos <= |path|
    ensures forall i :: 0 <= i < |Components(path, pos)| ==> NoNul(Components(path, pos)[i])
    decreases |path| - pos
  {
    var e := Element(path, pos);
    if e.Some? { ComponentsNoNul(path, e.value.1); }
  }

  function Zeroed(): (r: seq<byte>)
    ensures |r| == MAXLEN_FILENAME
  {
    seq(MAXLEN_FILENAME, _ => 0)
  }

  lemma ZeroedName(n: nat)
    requires n <= MAXLEN_FILENAME && NoNul(Zeroed()[..n])
    ensures n == 0
  {
    NoNulAt(Zeroed()[..n], 0);
  }

  /** The name that the calls take from the buffer finds what the last component finds; it is empty if there is none. */
  ghost predicate GivenName(path: seq<byte>, name: seq<byte>) {
    (name == [] <==> LastOf(path) == []) && (name != [] ==> name[0] != 0 && Key(name) == Key(LastOf(path)))
  }

  lemma TakenName(path: seq<byte>, buf: seq<byte>, n: nat)
    requires NoNul(path) && |buf| == MAXLEN_FILENAME && n <= |buf| && NoNul(buf[..n]) && (n < |buf| ==> buf[n] == 0)
    requires buf == if Components(path, 0) == [] then Zeroed() else Key(LastOf(path))
    ensures GivenName(path, buf[..n])
  {
    ghost var cs := Components(path, 0);
    ComponentsNoNul(path, 0);
    assert cs != [] ==> cs[|cs| - 1] != [];
    hide Components, Key;
    if cs == [] {
      ZeroedName(n);
    } else {
      BufferedName(cs[|cs| - 1], n);
      NoNulAt(buf[..n], 0);
    }
  }

  lemma KeyStart(name: seq<byte>)
    requires name != []
    ensures Key(name)[0] == name[0]
  {
  }

  // ----- what the calls do to the tree

  /** What `open` and `mkdir` create. */
  function NewNode(kind: u16): INode {
    INode(kind == TYPE_DIR, if kind == TYPE_DIR then 2 else 1, map[])
  }

  /** The tree once a file on inode `i` is closed: the inode is gone if nothing names, opens or holds it any more. */
  ghost function AfterClose(t: Tree, files: seq<File>, held: multiset<nat>, i: nat): Tree {
    if i in t && t[i].nlink == 0 && OpenOf(files, i) == {} && held[i] == 0 then t - {i} else t
  }

  /**
    The inode `i` that `open` works on, and the tree `u` after it: what the path names or, with `creat`, the entry of
    the last component, which is created under a new number if it is missing.
  */
  ghost predicate Targets(t: Tree, cwd: nat, path: seq<byte>, creat: bool, u: Tree, r: Reply<()>, i: nat) {
    if !creat then u == t && !r.Outside? && PathTo(t, cwd, path) == if r.Done? then Some(i) else None
    else
      var d := ParentTo(t, cwd, path);
      if LastOf(path) == [] || d.None? then r.Failed? && u == t
      else if d.value !in t || !t[d.value].dir then r.Outside? && u == t
      else
        && r.Done?
        && var found := Search(t, d.value, LastOf(path));
           if found.Some? then found == Some(i) && u == t
           else i !in t && u == Created(t, d.value, Key(LastOf(path)), i, NewNode(TYPE_DATA))
  }

  /** A link to data file `i` under a name in directory `d`. */
  ghost function LinkedIn(t: Tree, d: nat, name: seq<byte>, i: nat): (Reply<()>, Tree) {
    if name == [] then (Failed, t)
    else if d !in t || !t[d].dir || i !in t then (Outside, t)
    else if Search(t, d, name).Some? then (Failed, t)
    else if t[i].nlink >= 0xFFFF then (Outside, t)
    else (Done(()), Linked(t, d, Key(name), i))
  }

  lemma LinkedByKey(t: Tree, d: nat, a: seq<byte>, b: seq<byte>, i: nat)
    requires (a == [] <==> b == []) && (a != [] ==> Key(a) == Key(b))
    ensures LinkedIn(t, d, a, i) == LinkedIn(t, d, b, i)
  {
    hide Key, Linked;
  }

  ghost function LinkedTo(t: Tree, i: nat, cwd: nat, path: seq<byte>): (Reply<()>, Tree) {
    var d := ParentTo(t, cwd, path);
    if d.None? then (Failed, t) else LinkedIn(t, d.value, LastOf(path), i)
  }

  /** `link`: the outcome, and the tree with one more entry and one more link. */
  ghost function LinkResult(t: Tree, i: Option<nat>, cwd: nat, path: seq<byte>): (Reply<()>, Tree) {
    if i.None? || i.value !in t || t[i.value].dir then (Failed, t) else LinkedTo(t, i.value, cwd, path)
  }

  ghost function MadeIn(t: Tree, d: nat, name: seq<byte>, n: nat): (Reply<()>, Tree) {
    if name == [] then (Failed, t)
    else if d !in t || !t[d].dir then (Outside, t)
    else if Search(t, d, name).Some? then (Failed, t)
    else (Done(()), Created(t, d, Key(name), n, NewNode(TYPE_DIR)))
  }

  lemma MadeByKey(t: Tree, d: nat, a: seq<byte>, b: seq<byte>, n: nat)
    requires (a == [] <==> b == []) && (a != [] ==> Key(a) == Key(b))
    ensures MadeIn(t, d, a, n) == MadeIn(t, d, b, n)
  {
    hide Key, Created, NewNode;
  }

  /** `mkdir`: the outcome, and the tree with the new directory `n`. */
  ghost function MkdirResult(t: Tree, cwd: nat, path: seq<byte>, n: nat): (Reply<()>, Tree) {
    var d := ParentTo(t, cwd, path);
    if d.None? then (Failed, t) else MadeIn(t, d.value, LastOf(path), n)
  }

  ghost function UnlinkedIn(t: Tree, files: seq<File>, held: multiset<nat>, d: nat, name: seq<byte>)
    : (Reply<()>, Tree)
  {
    if name == [] then (Failed, t)
    else if d !in t || !t[d].dir then (Outside, t)
    else
      var i := Search(t, d, name);
      if i.None? || i.value !in t || t[i.value].dir || t[i.value].nlink == 0 then (Failed, t)
      else (Done(()), AfterClose(Unlinked(t, d, Key(name)), files, held, i.value))
  }

  lemma UnlinkedByKey(t: Tree, files: seq<File>, held: multiset<nat>, d: nat, a: seq<byte>, b: seq<byte>)
    requires (a == [] <==> b == []) && (a != [] ==> Key(a) == Key(b))
    ensures UnlinkedIn(t, files, held, d, a) == UnlinkedIn(t, files, held, d, b)
  {
    hide Key, AfterClose, Unlinked;
  }

  /**
    `unlink`: the outcome, and the tree without the entry and with one link less; the file itself goes if nothing names,
    opens or holds it any more.
  */
  ghost function UnlinkResult(t: Tree, files: seq<File>, held: multiset<nat>, cwd: nat, path: seq<byte>)
    : (Reply<()>, Tree)
  {
    var d := ParentTo(t, cwd, path);
    if d.None? then (Failed, t) else UnlinkedIn(t, files, held, d.value, LastOf(path))
  }

  /** The cases of `unlink`, by what the search of the directory finds. */
  lemma UnlinkCases(t: Tree, files: seq<File>, held: multiset<nat>, d: nat, name: seq<byte>)
    requires TreeOk(t) && d in t
    ensures var i := Search(t, d, name);
      && (name == [] || (t[d].dir && i.None?) ==> UnlinkedIn(t, files, held, d, name) == (Failed, t))
      && (name != [] && !t[d].dir ==> UnlinkedIn(t, files, held, d, name) == (Outside, t))
      && (name != [] && i.Some? ==>
            && t[d].dir && Key(name) in t[d].entries && t[d].entries[Key(name)] == i.value && Named(t, i.value)
            && UnlinkedIn(t, files, held, d, name) == if t[i.value].dir then (Failed, t)
                 else (Done(()), AfterClose(Unlinked(t, d, Key(name)), files, held, i.value)))
  {
    SearchNamed(t, d, name);
    hide Key, NamesOf, AfterClose, Unlinked;
  }

  /** Every inode that had a link, an open file or a held reference is still there, unchanged. */
  ghost predicate Survives(t: Tree, u: Tree, files: seq<File>, held: multiset<nat>) {
    && (forall i :: i in u ==> i in t && u[i] == t[i])
    && (forall i :: i in t && (t[i].nlink > 0 || OpenOf(files, i) != {} || held[i] > 0) ==> i in u)
  }

  lemma SurvivesSelf(t: Tree, files: seq<File>, held: multiset<nat>)
    ensures Survives(t, t, files, held)
  {
  }

  lemma SurvivesClose(t0: Tree, t: Tree, files: seq<File>, fs: seq<File>, held: multiset<nat>, i: nat)
    requires Survives(t0, t, files, held) && |fs| == |files|
    requires forall f :: 0 <= f < |files| ==> fs[f].inum == files[f].inum && fs[f].refcnt <= files[f].refcnt
    ensures Survives(t0, AfterClose(t, fs, held, i), fs, held)
  {
    forall j ensures OpenOf(fs, j) <= OpenOf(files, j) {}
    hide OpenOf;
  }

  // ----- what they do to file objects and descriptors

  /** The lowest free descriptor from `from` on. */
  function FirstFree(fds: seq<Option<nat>>, from: nat): (r: Option<nat>)
    requires from <= |fds|
    ensures r.Some? ==> from <= r.value < |fds| && fds[r.value].None?
    ensures forall d :: from <= d < (if r.Some? then r.value else |fds|) ==> fds[d].Some?
    decreases |fds| - from
  {
    if from == |fds| then None else if fds[from].None? then Some(from) else FirstFree(fds, from + 1)
  }

  lemma FreeFd(fds: seq<Option<nat>>)
    ensures FirstFree(fds, 0).Some? ==> FirstFree(fds, 0).value < |fds| && fds[FirstFree(fds, 0).value].None?
  {
  }

  lemma FdsLength(files: seq<File>, procs: seq<Proc>, p: nat)
    requires FdsOk(files, procs) && p < |procs|
    ensures |procs[p].fds| == NOFILE && |files| == NFILE
  {
  }

  ghost predicate NoFree(files: seq<File>) {
    forall f :: 0 <= f < |files| ==> files[f].refcnt > 0
  }

  /** The counts are the same, and so are the file objects in use. */
  ghost predicate SameCounts(files: seq<File>, fs: seq<File>) {
    && |fs| == |files|
    && forall f :: 0 <= f < |files| ==> fs[f].refcnt == files[f].refcnt && (files[f].refcnt > 0 ==> fs[f] == files[f])
  }

  /** Counts apart, the file objects are the same. */
  ghost predicate SameObjects(files: seq<File>, fs: seq<File>) {
    && |fs| == |files|
    && forall f :: 0 <= f < |files| ==>
         fs[f].(refcnt := 0, isInode := true) == files[f].(refcnt := 0, isInode := true)
  }

  /** A file object with one descriptor less. */
  function DropFile(x: File): File
    requires x.refcnt > 0
  {
    x.(refcnt := x.refcnt - 1, isInode := x.refcnt > 1)
  }

  /** What `close` of a used descriptor does: its file object loses one, and with the last the inode may go. */
  ghost predicate Closed(t: Tree, files: seq<File>, procs: seq<Proc>, u: Tree, fs: seq<File>, ps: seq<Proc>,
                         held: multiset<nat>, p: nat, fd: nat)
    requires p < |procs| && fd < |procs[p].fds| && procs[p].fds[fd].Some?
  {
    var f := procs[p].fds[fd].value;
    && f < |files| && files[f].refcnt > 0
    && fs == files[f := DropFile(files[f])] && ps == SetFd(procs, p, fd, None)
    && u == AfterClose(t, fs, held, files[f].inum)
  }

  /** Closing a descriptor of a process deletes no inode that is named, open or held. */
  lemma ClosedSurvives(t0: Tree, t: Tree, files: seq<File>, procs: seq<Proc>, u: Tree, fs: seq<File>, ps: seq<Proc>,
                       held: multiset<nat>, p: nat, d: nat)
    requires p < |procs| && d < |procs[p].fds| && procs[p].fds[d].Some?
    requires Survives(t0, t, files, held) && Closed(t, files, procs, u, fs, ps, held, p, d)
    ensures Survives(t0, u, fs, held) && ps == SetFd(procs, p, d, None) && SameObjects(files, fs)
    ensures forall i :: i in u ==> i in t
  {
    SurvivesClose(t0, t, files, fs, held, files[procs[p].fds[d].value].inum);
    hide OpenOf, Survives;
  }

  /** One more descriptor for file object `f`. */
  ghost predicate MoreShared(files: seq<File>, fs: seq<File>, f: nat) {
    f < |files| && fs == files[f := files[f].(refcnt := files[f].refcnt + 1)]
  }

  /**
    What `open` does to the tables: on success file object `f`, which was free, is opened and put into the lowest free
    descriptor; a failed call changes no descriptor and no count.
  */
  ghost predicate Installed(files: seq<File>, procs: seq<Proc>, fs: seq<File>, ps: seq<Proc>,
                            p: nat, i: nat, dir: bool, mode: nat, r: Option<nat>, f: nat) {
    && p < |procs|
    && (r.None? <==> (dir && mode != 0) || NoFree(files) || FirstFree(procs[p].fds, 0).None?)
    && (r.Some? ==>
          && r == FirstFree(procs[p].fds, 0) && f < |files| && files[f].refcnt == 0
          && fs == files[f := File(1, true, mode != 1, mode != 0, 0, i)] && ps == SetFd(procs, p, r.value, Some(f)))
    && (r.None? ==> ps == procs && SameCounts(files, fs))
  }

  /** A directory is not opened for writing. */
  lemma NotInstalled(files: seq<File>, procs: seq<Proc>, p: nat, i: nat, mode: nat)
    requires p < |procs| && mode != 0
    ensures Installed(files, procs, files, procs, p, i, true, mode, None, 0)
  {
  }

  /** No file object is free for an `open` that gets that far; then the reference to the inode is lost. */
  ghost predicate Leaks(files: seq<File>, dir: bool, mode: nat) {
    NoFree(files) && !(dir && mode != 0)
  }

  /** What `open` does to tree, file objects, descriptors and held references; `target` is the inode it gets to. */
  ghost predicate Opened(t: Tree, files: seq<File>, procs: seq<Proc>, held: multiset<nat>,
                         u: Tree, fs: seq<File>, ps: seq<Proc>, h: multiset<nat>,
                         p: nat, path: seq<byte>, creat: bool, mode: nat, r: Reply<nat>, target: Option<nat>, f: nat)
    requires p < |procs|
  {
    if target.None? then
      && Targets(t, procs[p].cwd, path, creat, u, Outcome(r), 0)
      && (r.Failed? ==> fs == files && ps == procs && h == held) && !r.Done?
    else
      var i := target.value;
      && (r.Done? || r.Failed?) && Targets(t, procs[p].cwd, path, creat, u, Done(()), i) && i in u
      && Installed(files, procs, fs, ps, p, i, u[i].dir, mode, if r.Done? then Some(r.value) else None, f)
      && h == if Leaks(files, u[i].dir, mode) then held + multiset{i} else held
  }

  // ----- what they do to the disk

  /** Inode `i` is a data file. */
  ghost predicate IsPlain(sb: FileTree.SuperBlock, d: FileTree.Disk, i: nat) {
    FileTree.Layout(sb, |d|) && FileTree.Live(sb, d, i) && FileTree.InodeAt(sb, d, i).kind == TYPE_DATA
  }

  ghost predicate IsEmpty(sb: FileTree.SuperBlock, d: FileTree.Disk, i: nat) {
    FileTree.Layout(sb, |d|) && i < sb.ninodes && FileBytes.File(sb, d, i) == []
  }

  /** The inode that a truncating `open` may cut. */
  ghost function CutSet(trunc: bool, target: Option<nat>): set<nat> {
    if trunc && target.Some? then {target.value} else {}
  }

  lemma SlotPlain(sb: FileTree.SuperBlock, d: FileTree.Disk, inodes: seq<Inode>, t: Tree, refs: map<nat, nat>, s: nat,
                  i: nat)
    requires Shows(sb, d, inodes, t, refs) && At(inodes, s, i)
    ensures IsPlain(sb, d, i) <==> inodes[s].disk.kind == TYPE_DATA
    ensures FileTree.Layout(sb, |d|) && FileTree.Live(sb, d, i)
  {
    hide Shows;
    SlotShows(sb, d, inodes, t, refs, s, i);
  }

  lemma PlainKept(sb: FileTree.SuperBlock, d: FileTree.Disk, e: FileTree.Disk, x: set<nat>, i: nat)
    requires FileTree.Layout(sb, |d|) && FileTree.Live(sb, d, i) && Still(sb, d, e, x)
    ensures IsPlain(sb, e, i) ==> IsPlain(sb, d, i)
  {
    hide FileTree.InodeAt, FileTree.T, FileBytes.File;
  }

  /** Files are intact, and the blocks of an inode that went are free. */
  ghost predicate Dropped(sb: FileTree.SuperBlock, d: FileTree.Disk, e: FileTree.Disk) {
    Intact(sb, d, e, {}) && Freed(sb, d, e)
  }

  lemma DroppedSelf(sb: FileTree.SuperBlock, d: FileTree.Disk)
    requires FileTree.Layout(sb, |d|)
    ensures Dropped(sb, d, d)
  {
    ReleasedSelf(sb, d);
    hide Intact, Freed;
  }

  lemma DroppedAfter(sb: FileTree.SuperBlock, d: FileTree.Disk, e: FileTree.Disk, f: FileTree.Disk)
    requires Still(sb, d, e, {}) && Released(sb, e, f)
    ensures Dropped(sb, d, f)
  {
    hide Still, Released, Intact, Freed;
    StillFreed(sb, d, e, f);
  }

  // ----- working directories

  lemma CwdOf(t: Tree, procs: seq<Proc>, p: nat)
    requires CwdsOk(t, procs) && p < |procs|
    ensures procs[p].cwd in t && t[procs[p].cwd].dir
  {
  }

  lemma CwdChange(t: Tree, files: seq<File>, procs: seq<Proc>, p: nat, i: nat)
    requires CwdsOk(t, procs) && FdsOk(files, procs) && p < |procs| && i in t && t[i].dir
    ensures var qs := procs[p := procs[p].(cwd := i)]; CwdsOk(t, qs) && FdsOk(files, qs)
  {
    var qs := procs[p := procs[p].(cwd := i)];
    forall f: nat ensures SlotsOf(qs, f) == SlotsOf(procs, f) {
      forall x: (nat, nat) ensures x in SlotsOf(qs, f) <==> x in SlotsOf(procs, f) {
        SlotAt(qs, f, x);
        SlotAt(procs, f, x);
      }
    }
    hide SlotsOf;
  }

  lemma CwdsSame(t: Tree, procs: seq<Proc>, p: nat, d: nat, v: Option<nat>)
    requires CwdsOk(t, procs) && p < |procs| && d < |procs[p].fds|
    ensures CwdsOk(t, SetFd(procs, p, d, v))
  {
  }

  lemma CwdsKept(t: Tree, u: Tree, procs: seq<Proc>)
    requires CwdsOk(t, procs) && KindsKept(t, u)
    ensures CwdsOk(u, procs)
  {
  }

  lemma CwdsPut(t: Tree, refs: map<nat, nat>, procs: seq<Proc>, i: nat)
    requires TreeOk(t) && CwdsOk(t, procs) && i in t
    ensures CwdsOk(AfterPut(t, refs, i), procs)
  {
    hide NamesOf, NoDangling;
  }

  /** Neither closing a descriptor nor deleting a file without links concerns working directories. */
  lemma CwdsClose(t: Tree, files: seq<File>, held: multiset<nat>, procs: seq<Proc>, p: nat, fd: nat, i: nat)
    requires TreeOk(t) && CwdsOk(t, procs) && p < |procs| && fd < |procs[p].fds|
    ensures CwdsOk(AfterClose(t, files, held, i), SetFd(procs, p, fd, None))
  {
    hide NamesOf, NoDangling, OpenOf;
  }

  // ----- references

  /** An inode with an open file or a held reference is live. */
  lemma HeldLive(t: Tree, refs: map<nat, nat>, files: seq<File>, held: multiset<nat>, i: nat)
    requires RefsOk(t, refs, files, held) && i in held
    ensures i in t && RefOf(refs, i) > 0 && RefOf(refs, i) == |OpenOf(files, i)| + held[i]
    ensures RefOf(refs, i) == 1 <==> OpenOf(files, i) == {} && held[i] == 1
  {
    hide OpenOf;
    assert RefOf(refs, i) == |OpenOf(files, i)| + held[i];
    assert |OpenOf(files, i)| == 0 ==> OpenOf(files, i) == {};
  }

  /** Putting a held inode is dropping one held reference to it. */
  lemma PutIsClose(t: Tree, refs: map<nat, nat>, files: seq<File>, held: multiset<nat>, i: nat)
    requires RefsOk(t, refs, files, held) && i in held
    ensures i in t && AfterPut(t, refs, i) == AfterClose(t, files, held - multiset{i}, i)
  {
    hide RefsOk, OpenOf;
    HeldLive(t, refs, files, held, i);
  }

  lemma HeldOther(t: Tree, files: seq<File>, held: multiset<nat>, a: nat, i: nat)
    requires a != i
    ensures AfterClose(t, files, held + multiset{a}, i) == AfterClose(t, files, held, i)
  {
  }

  lemma RefsLinked(t: Tree, refs: map<nat, nat>, files: seq<File>, held: multiset<nat>)
    requires RefsOk(t, refs, files, held)
    ensures forall i :: i in t ==> t[i].nlink > 0 || RefOf(refs, i) > 0
  {
  }

  lemma NamedStays(t: Tree, refs: map<nat, nat>, i: nat)
    requires Named(t, i)
    ensures AfterPut(t, refs, i) == t
  {
  }

  lemma NamedClose(t: Tree, files: seq<File>, held: multiset<nat>, i: nat)
    requires Named(t, i)
    ensures AfterClose(t, files, held, i) == t
  {
  }

  lemma StillOpen(t: Tree, files: seq<File>, held: multiset<nat>, f: nat)
    requires f < |files| && files[f].refcnt > 0
    ensures AfterClose(t, files, held, files[f].inum) == t
  {
    assert f in OpenOf(files, files[f].inum);
  }

  lemma StillAt(a: seq<Inode>, b: seq<Inode>, h: multiset<nat>, s: nat, i: nat)
    requires Stay(a, b, h) && At(a, s, i) && i in h
    ensures At(b, s, i)
  {
  }

  /** A new inode with one reference. */
  lemma MadeOk(t: Tree, refs: map<nat, nat>, r: map<nat, nat>, files: seq<File>, held: multiset<nat>, n: nat,
               node: INode)
    requires RefsOk(t, refs, files, held) && n !in t && RefOf(refs, n) == 0 && Counts(refs, r, n, 1)
    ensures RefsOk(t[n := node], r, files, held + multiset{n})
  {
    var h := held + multiset{n};
    forall j ensures RefOf(r, j) == |OpenOf(files, j)| + h[j] {
      assert RefOf(refs, j) == |OpenOf(files, j)| + held[j];
    }
    hide OpenOf;
  }

  lemma NewLinks(t: Tree, refs: map<nat, nat>, files: seq<File>, held: multiset<nat>, n: nat, nlink: nat)
    requires RefsOk(t, refs, files, held) && n in t && nlink > 0
    ensures RefsOk(WithNlink(t, n, nlink), refs, files, held)
  {
    RefsLinked(t, refs, files, held);
    RetreeOk(t, WithNlink(t, n, nlink), refs, files, held);
    hide RefsOk;
  }

  lemma CreatedKeeps(t: Tree, u: Tree, refs: map<nat, nat>, files: seq<File>, procs: seq<Proc>, held: multiset<nat>,
                     d: nat, k: seq<byte>, n: nat, kind: u16)
    requires TreeOk(t) && CwdsOk(t, procs) && d in t && t[d].dir && k !in t[d].entries && n !in t
    requires u == WithEntry(t[n := NewNode(kind)], d, k, n) && RefsOk(t[n := NewNode(kind)], refs, files, held)
    ensures u == Created(t, d, k, n, NewNode(kind)) && TreeOk(u) && CwdsOk(u, procs) && RefsOk(u, refs, files, held)
    ensures Named(u, n) && u[n].dir == (kind == TYPE_DIR) && forall i :: Named(t, i) ==> Named(u, i)
  {
    hide RefsOk, TreeOk, CwdsOk;
    CreatedOk(t, d, k, n, NewNode(kind));
    CwdsKept(t, u, procs);
    RefsLinked(t[n := NewNode(kind)], refs, files, held);
    RetreeOk(t[n := NewNode(kind)], u, refs, files, held);
  }

  lemma LinkedKeeps(t: Tree, refs: map<nat, nat>, files: seq<File>, procs: seq<Proc>, held: multiset<nat>,
                    d: nat, k: seq<byte>, i: nat)
    requires TreeOk(t) && CwdsOk(t, procs) && RefsOk(t, refs, files, held)
    requires d in t && t[d].dir && k !in t[d].entries && i in t && !t[i].dir
    ensures var u := Linked(t, d, k, i); TreeOk(u) && CwdsOk(u, procs) && RefsOk(u, refs, files, held)
    ensures forall j :: Named(t, j) ==> Named(Linked(t, d, k, i), j)
  {
    hide RefsOk, TreeOk, CwdsOk;
    LinkedOk(t, d, k, i);
    CwdsKept(t, Linked(t, d, k, i), procs);
    RefsLinked(t, refs, files, held);
    RetreeOk(t, Linked(t, d, k, i), refs, files, held);
  }

  lemma UnlinkedKeeps(t: Tree, refs: map<nat, nat>, files: seq<File>, procs: seq<Proc>, held: multiset<nat>,
                      d: nat, k: seq<byte>, i: nat)
    requires TreeOk(t) && CwdsOk(t, procs) && RefsOk(t, refs, files, held)
    requires d in t && t[d].dir && k in t[d].entries && t[d].entries[k] == i && i in t && !t[i].dir && t[i].nlink > 0
    requires i in held
    ensures var u := Unlinked(t, d, k); TreeOk(u) && CwdsOk(u, procs) && RefsOk(u, refs, files, held)
  {
    hide RefsOk, TreeOk, CwdsOk, OpenOf;
    UnlinkedOk(t, d, k);
    CwdsKept(t, Unlinked(t, d, k), procs);
    RefsLinked(t, refs, files, held);
    HeldLive(t, refs, files, held, i);
    RetreeOk(t, Unlinked(t, d, k), refs, files, held);
  }

  /** Putting an unlinked file: what is left of the tree, and its directory stays. */
  lemma UnlinkPut(t: Tree, refs: map<nat, nat>, files: seq<File>, procs: seq<Proc>, held: multiset<nat>,
                  was: Tree, d: nat, k: seq<byte>, i: nat)
    requires TreeOk(t) && CwdsOk(t, procs) && RefsOk(t, refs, files, held) && i in held && TreeOk(was)
    requires d in was && was[d].dir && k in was[d].entries && was[d].entries[k] == i && i in was && !was[i].dir
    requires was[i].nlink > 0 && t == Unlinked(was, d, k)
    ensures i in t && AfterPut(t, refs, i) == AfterClose(t, files, held - multiset{i}, i)
    ensures CwdsOk(AfterPut(t, refs, i), procs) && Named(AfterPut(t, refs, i), d)
  {
    hide RefsOk, OpenOf, NamesOf, NoDangling;
    HeldLive(t, refs, files, held, i);
    CwdsPut(t, refs, procs, i);
  }

  // ----- disk and inode table

  lemma InTable(sb: FileTree.SuperBlock, d: FileTree.Disk, inodes: seq<Inode>, t: Tree, refs: map<nat, nat>)
    requires Shows(sb, d, inodes, t, refs)
    ensures FileTree.Layout(sb, |d|) && |inodes| == N_INODE
    ensures forall i :: i in t <==> FileTree.Live(sb, d, i)
  {
    hide FsInv, FileTree.Live;
    IcacheOneSlot(sb, d, inodes);
    forall i: nat ensures i in t <==> FileTree.Live(sb, d, i) { TreeAt(sb, d, i); }
  }

  /** The slot of an inode tells whether it is a directory. */
  lemma SlotKind(sb: FileTree.SuperBlock, d: FileTree.Disk, inodes: seq<Inode>, t: Tree, refs: map<nat, nat>, s: nat,
                 i: nat)
    requires Shows(sb, d, inodes, t, refs) && At(inodes, s, i)
    ensures s < |inodes| && i in t && t[i].dir == (inodes[s].disk.kind == TYPE_DIR)
    ensures t[i].nlink == inodes[s].disk.nlink
    ensures inodes[s].inum == i < sb.ninodes
  {
    hide Shows;
    SlotShows(sb, d, inodes, t, refs, s, i);
  }

  lemma FullStop(sb: FileTree.SuperBlock, d: FileTree.Disk, inodes: seq<Inode>)
    requires FsInv(sb, d, inodes) && Full(sb, d)
    ensures Exhausted(sb, d, inodes)
  {
  }

  lemma SlotStop(sb: FileTree.SuperBlock, d: FileTree.Disk, inodes: seq<Inode>, t: Tree, refs: map<nat, nat>)
    requires Shows(sb, d, inodes, t, refs) && NoFreeSlot(inodes)
    ensures Exhausted(sb, d, inodes)
  {
    hide FsInv, Dirs;
    IcacheOneSlot(sb, d, inodes);
  }

  lemma PutReady(sb: FileTree.SuperBlock, d: FileTree.Disk, inodes: seq<Inode>, t: Tree, refs: map<nat, nat>,
                 files: seq<File>, held: multiset<nat>, s: nat, i: nat)
    requires Shows(sb, d, inodes, t, refs) && RefsOk(t, refs, files, held) && At(inodes, s, i) && i in held
    ensures s < N_INODE && i in t && (i in held - multiset{i} ==> inodes[s].refcnt > 1)
  {
    hide Shows, RefsOk, OpenOf;
    SlotShows(sb, d, inodes, t, refs, s, i);
    HeldLive(t, refs, files, held, i);
  }

  /** What `inode_put` keeps. */
  lemma PutKeeps(sb: FileTree.SuperBlock, d: FileTree.Disk, e: FileTree.Disk, a: seq<Inode>, b: seq<Inode>,
                 t: Tree, refs: map<nat, nat>, files: seq<File>, held: multiset<nat>, s: nat, i: nat)
    requires Shows(sb, d, a, t, refs) && TreeOk(t) && RefsOk(t, refs, files, held) && At(a, s, i) && i in held
    requires FsInv(sb, e, b) && b == a[s := b[s]]
    requires a[s].refcnt > 1 || a[s].disk.nlink > 0 ==> e == d && b[s] == a[s].(refcnt := a[s].refcnt - 1)
    requires a[s].refcnt == 1 && a[s].disk.nlink == 0 ==> FileTree.Deleted(sb, d, e, i) && b[s].refcnt == 0
    ensures i in t && OneSlot(b) && Shows(sb, e, b, AfterPut(t, refs, i), RefsOf(b))
    ensures TreeOk(AfterPut(t, refs, i)) && RefsOk(AfterPut(t, refs, i), RefsOf(b), files, held - multiset{i})
    ensures Stay(a, b, held - multiset{i}) && Released(sb, d, e)
    ensures t[i].nlink > 0 || RefOf(refs, i) > 1 ==> e == d
  {
    hide Shows, FsInv, RefsOk, TreeOk, FileTree.Deleted, Stay, Released, RefsOf, OneSlot, TreeOf;
    PutReady(sb, d, a, t, refs, files, held, s, i);
    PutShows(sb, d, e, a, b, t, refs, s, i, held - multiset{i});
    PutOk(t, refs, RefsOf(b), files, held, i);
    if t[i].nlink == 0 { DeletedOk(t, i); }
  }

  // ----- the system at boot

  lemma BootShows(sb: FileTree.SuperBlock, d: FileTree.Disk, inodes: seq<Inode>)
    requires FsInv(sb, d, inodes) && Dirs(sb, d) && forall s :: 0 <= s < |inodes| ==> inodes[s].refcnt == 0
    ensures Shows(sb, d, inodes, TreeOf(sb, d), map[])
  {
    hide FsInv, Dirs, TreeOf;
    assert OneSlot(inodes) && RefsOf(inodes) == map[];
  }

  function BootFiles(): seq<File> {
    seq(NFILE, _ => File(0, false, false, false, 0, 0))
  }

  function BootProcs(n: nat): (r: seq<Proc>)
    ensures |r| == n
  {
    seq(n, _ => Proc(seq(NOFILE, _ => None), ROOT_INODE))
  }

  lemma BootRefs(t: Tree)
    requires forall i :: i in t ==> t[i].nlink > 0
    ensures RefsOk(t, map[], BootFiles(), multiset{})
  {
    forall i ensures OpenOf(BootFiles(), i) == {} {}
  }

  lemma BootFds(t: Tree, n: nat)
    requires TreeOk(t)
    ensures FdsOk(BootFiles(), BootProcs(n)) && CwdsOk(t, BootProcs(n))
  {
    forall f: nat ensures SlotsOf(BootProcs(n), f) == {} {}
    hide NamesOf, NoDangling;
  }

  // ----- a new image

  /** The image mkfs writes by default, with no bit of the inode bitmap set, is consistent and holds no inode. */
  lemma BlankImage(sb: FileTree.SuperBlock, d: FileTree.Disk)
    requires FileTree.Layout(sb, |d|) && d[sb.inode_start - 1] == ZeroBlock()
    ensures FileTree.Trees(sb, d) && Dirs(sb, d) && TreeOf(sb, d) == map[]
  {
    forall n: nat ensures !FileTree.Live(sb, d, n) {
      Bits.ZeroBit(n % 8);
    }
    hide FileTree.Live;
  }

  /** Once the first directory is created in it, such an image meets all that the file-system calls start from. */
  lemma FirstImage(sb: FileTree.SuperBlock, d: FileTree.Disk, e: FileTree.Disk)
    requires FileTree.Layout(sb, |d|) && d[sb.inode_start - 1] == ZeroBlock() && sb.ninodes > 0
    requires FileTree.Created(sb, d, e, ROOT_INODE)
    requires var ino := FileTree.InodeAt(sb, e, ROOT_INODE); ino.kind == TYPE_DIR && ino.nlink == 1 && ino.size == 0
    ensures FileTree.Trees(sb, e) && Dirs(sb, e) && TreeOf(sb, e) == map[ROOT_INODE := INode(true, 1, map[])]
    ensures TreeOk(TreeOf(sb, e))
  {
    hide FileTree.Trees, FileTree.Created, FileTree.InodeAt, Dirs, TreeOf;
    Bits.ZeroBit(ROOT_INODE % 8);
    BlankImage(sb, d);
    FileTree.CreatedKeeps(sb, d, e, ROOT_INODE);
    DiskTree.CreateStep(sb, d, e, ROOT_INODE, TYPE_DIR);
  }
}
