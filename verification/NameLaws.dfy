/**
  What the calls that change directories (kernel/src/syscall/fs.rs) mean for the paths of every process: which paths
  lead where after `open` with creation, `link`, `unlink` and `mkdir`, and when these calls succeed.
*/
module NameLaws {
  import opened Base
  import opened Names
  import opened Paths
  import opened Links
  import opened OpenFiles
  import opened Namespace
  import DiskTree

  /** Every name that is found in a directory of `t` leads to the same inode in `u`. */
  ghost predicate Keeps(t: Tree, u: Tree) {
    forall d, name :: Search(t, d, name).Some? ==> Search(u, d, name) == Search(t, d, name)
  }

  lemma {:induction false} ResolveKept(t: Tree, u: Tree, at: nat, cs: seq<seq<byte>>)
    requires Keeps(t, u) && Resolve(t, at, cs).Some?
    ensures Resolve(u, at, cs) == Resolve(t, at, cs)
    decreases |cs|
  {
    hide Search;
    if cs != [] { ResolveKept(t, u, Search(t, at, cs[0]).value, cs[1..]); }
  }

  /** Then every path that leads somewhere leads to the same place. */
  lemma PathKept(t: Tree, u: Tree, cwd: nat, path: seq<byte>)
    requires Keeps(t, u)
    ensures PathTo(t, cwd, path).Some? ==> PathTo(u, cwd, path) == PathTo(t, cwd, path)
    ensures ParentTo(t, cwd, path).Some? ==> ParentTo(u, cwd, path) == ParentTo(t, cwd, path)
  {
    hide Keeps, Resolve, Components;
    var cs := Components(path, 0);
    if PathTo(t, cwd, path).Some? { ResolveKept(t, u, StartOf(path, cwd), cs); }
    if cs != [] && ParentTo(t, cwd, path).Some? { ResolveKept(t, u, StartOf(path, cwd), Front(cs)); }
  }

  /** A path with a last component, by its parent. */
  lemma ByParent(t: Tree, cwd: nat, path: seq<byte>)
    ensures LastOf(path) != [] <==> Components(path, 0) != []
    ensures LastOf(path) != [] ==> var d := ParentTo(t, cwd, path);
      PathTo(t, cwd, path) == if d.None? then None else Search(t, d.value, LastOf(path))
  {
    if Components(path, 0) != [] { PathByParent(t, cwd, path); }
    hide Resolve, Components, Search;
  }

  /** What a path leads to has a link. */
  lemma PathNamed(t: Tree, procs: seq<Proc>, p: nat, path: seq<byte>)
    requires TreeOk(t) && CwdsOk(t, procs) && p < |procs|
    ensures var i := PathTo(t, procs[p].cwd, path); i.Some? ==> Named(t, i.value)
  {
    StartNamed(t, procs, p, path);
    ByParent(t, procs[p].cwd, path);
    var d := ParentTo(t, procs[p].cwd, path);
    if d.Some? { SearchNamed(t, d.value, LastOf(path)); }
    hide TreeOk, Named, Search, Components;
  }

  /** The directory that would hold the last component of a path, if it is one. */
  ghost predicate HasRoom(t: Tree, cwd: nat, path: seq<byte>) {
    && LastOf(path) != [] && PathTo(t, cwd, path).None?
    && var d := ParentTo(t, cwd, path); d.Some? && d.value in t && t[d.value].dir
  }

  /** A new entry for the last component of a path. */
  lemma EntryAdded(t: Tree, u: Tree, cwd: nat, path: seq<byte>, d: nat, i: nat)
    requires LastOf(path) != [] && ParentTo(t, cwd, path) == Some(d) && Keeps(t, u)
    requires Search(u, d, LastOf(path)) == Some(i)
    ensures PathTo(u, cwd, path) == Some(i)
  {
    hide Search, Keeps, PathTo, ParentTo, LastOf;
    PathKept(t, u, cwd, path);
    ByParent(u, cwd, path);
  }

  /** Creating an inode under a new name. */
  lemma CreatedKeeps(t: Tree, d: nat, name: seq<byte>, i: nat, n: INode)
    requires d in t && t[d].dir && Search(t, d, name).None? && i !in t
    ensures var u := Created(t, d, Key(name), i, n);
      Keeps(t, u) && Search(u, d, name) == Some(i) && i in u && u[i] == n
  {
  }

  /** `open` that succeeds has the file that the path then names; every path that led somewhere still leads there. */
  lemma OpenNames(t: Tree, cwd: nat, path: seq<byte>, creat: bool, u: Tree, i: nat)
    requires Targets(t, cwd, path, creat, u, Done(()), i)
    ensures PathTo(u, cwd, path) == Some(i) && Keeps(t, u)
    ensures PathTo(t, cwd, path).Some? ==> u == t
    ensures PathTo(t, cwd, path).None? ==> creat && HasRoom(t, cwd, path) && i !in t && i in u && !u[i].dir
  {
    hide Components, Resolve;
    if creat {
      ByParent(t, cwd, path);
      var d := ParentTo(t, cwd, path).value;
      if Search(t, d, LastOf(path)).None? {
        CreatedKeeps(t, d, LastOf(path), i, NewNode(DiskTree.TYPE_DATA));
        EntryAdded(t, u, cwd, path, d, i);
      }
    }
  }

  /** `mkdir` succeeds exactly where the name is free in a directory; then the path names an empty directory. */
  lemma MkdirNames(t: Tree, cwd: nat, path: seq<byte>, n: nat)
    requires n !in t
    ensures var (r, u) := MkdirResult(t, cwd, path, n);
      && (r.Done? <==> HasRoom(t, cwd, path)) && (!r.Done? ==> u == t)
      && (r.Done? ==> PathTo(u, cwd, path) == Some(n) && Keeps(t, u) && n in u && u[n] == INode(true, 2, map[]))
  {
    hide Components, Resolve;
    ByParent(t, cwd, path);
    if HasRoom(t, cwd, path) {
      var d := ParentTo(t, cwd, path).value;
      CreatedKeeps(t, d, LastOf(path), n, NewNode(DiskTree.TYPE_DIR));
      EntryAdded(t, MkdirResult(t, cwd, path, n).1, cwd, path, d, n);
    }
  }

  /** `open` fails to find a file exactly where the path names none and none can be created. */
  lemma OpenMisses(t: Tree, cwd: nat, path: seq<byte>, creat: bool, u: Tree, i: nat)
    requires Targets(t, cwd, path, creat, u, Failed, i)
    ensures u == t && (if creat then LastOf(path) == [] || ParentTo(t, cwd, path).None? else PathTo(t, cwd, path).None?)
  {
  }

  // ----- link and unlink

  lemma LinkedKeeps(t: Tree, d: nat, name: seq<byte>, i: nat)
    requires d in t && t[d].dir && Search(t, d, name).None? && i in t && !t[i].dir
    ensures var u := Linked(t, d, Key(name), i);
      && Keeps(t, u) && Search(u, d, name) == Some(i) && u.Keys == t.Keys && u[i] == t[i].(nlink := t[i].nlink + 1)
      && d in u && u[d].dir && u[d].entries == t[d].entries[Key(name) := i]
  {
  }

  /** Taking out the entry that was just made. */
  lemma UnlinkedLinked(t: Tree, d: nat, k: seq<byte>, i: nat)
    requires d in t && t[d].dir && k !in t[d].entries && i in t && !t[i].dir
    ensures var u := Linked(t, d, k, i); k in u[d].entries && u[d].entries[k] == i && Unlinked(u, d, k) == t
  {
    var u := Linked(t, d, k, i);
    assert u[d].entries - {k} == t[d].entries;
    assert u[d] == t[d].(entries := t[d].entries[k := i]);
  }

  /**
    `link` to a file that has a name succeeds exactly where the new name is free in a directory and the count has room;
    then both paths name the file, and `unlink` of the new one gives back the tree of before.
  */
  lemma LinkNames(t: Tree, i: nat, cwd: nat, path: seq<byte>, files: seq<File>, held: multiset<nat>)
    requires Named(t, i)
    ensures var (r, u) := LinkResult(t, Some(i), cwd, path);
      && (r.Done? <==> !t[i].dir && HasRoom(t, cwd, path) && t[i].nlink < 0xFFFF) && (!r.Done? ==> u == t)
      && (r.Done? ==>
            && PathTo(u, cwd, path) == Some(i) && Keeps(t, u) && i in u && u[i].nlink == t[i].nlink + 1
            && UnlinkResult(u, files, held, cwd, path) == (Done(()), t))
  {
    hide Components, Resolve;
    ByParent(t, cwd, path);
    var (r, u) := LinkResult(t, Some(i), cwd, path);
    if r.Done? {
      var d := ParentTo(t, cwd, path).value;
      LinkedKeeps(t, d, LastOf(path), i);
      EntryAdded(t, u, cwd, path, d, i);
      PathKept(t, u, cwd, path);
      UnlinkedLinked(t, d, Key(LastOf(path)), i);
      hide PathTo, ParentTo, LastOf, Linked, Unlinked, Keeps, Key;
      assert UnlinkResult(u, files, held, cwd, path) == UnlinkedIn(u, files, held, d, LastOf(path));
    }
  }

  /** What is left when an entry for data file `i` goes, with or without the file. */
  lemma UnlinkedKeeps(t: Tree, u: Tree, d: nat, name: seq<byte>)
    requires d in t && t[d].dir && Key(name) in t[d].entries
    requires var i := t[d].entries[Key(name)]; i in t && !t[i].dir && t[i].nlink > 0
    requires u == Unlinked(t, d, Key(name)) || u == Unlinked(t, d, Key(name)) - {t[d].entries[Key(name)]}
    ensures Keeps(u, t) && Search(u, d, name).None?
    ensures forall x, c :: x != d || Key(c) != Key(name) ==> Search(u, x, c) == Search(t, x, c)
  {
  }

  /**
    What `unlink` of a path that names data file `i` leaves: the path names nothing, every other entry is found as
    before, and the file is gone exactly if this was its last name and nobody has it open or holds it.
  */
  ghost predicate NameGone(t: Tree, files: seq<File>, held: multiset<nat>, cwd: nat, path: seq<byte>, i: nat, u: Tree) {
    && PathTo(u, cwd, path).None? && Keeps(u, t)
    && (forall x: nat, c :: Some(x) != ParentTo(t, cwd, path) || Key(c) != Key(LastOf(path)) ==>
          Search(u, x, c) == Search(t, x, c))
    && i in t && (i !in u <==> t[i].nlink == 1 && OpenOf(files, i) == {} && held[i] == 0)
    && (i in u ==> u[i].nlink == t[i].nlink - 1)
    && (forall j :: j in t && j != i ==> j in u && u[j].nlink == t[j].nlink && u[j].dir == t[j].dir)
  }

  /** `unlink` succeeds exactly on a path that names a data file. */
  lemma UnlinkNames(t: Tree, files: seq<File>, held: multiset<nat>, cwd: nat, path: seq<byte>)
    requires TreeOk(t)
    ensures var (r, u) := UnlinkResult(t, files, held, cwd, path); var i := PathTo(t, cwd, path);
      && (r.Done? <==> LastOf(path) != [] && i.Some? && i.value in t && !t[i.value].dir) && (!r.Done? ==> u == t)
      && (r.Done? ==> i.Some? && NameGone(t, files, held, cwd, path, i.value, u))
  {
    hide Components, Resolve, NamesOf, OpenOf;
    ByParent(t, cwd, path);
    var (r, u) := UnlinkResult(t, files, held, cwd, path);
    var p := ParentTo(t, cwd, path);
    if p.Some? && p.value in t && LastOf(path) != [] {
      UnlinkCases(t, files, held, p.value, LastOf(path));
    }
    if r.Done? {
      UnlinkedKeeps(t, u, p.value, LastOf(path));
      PathKept(u, t, cwd, path);
      ByParent(u, cwd, path);
    }
  }
}
