/** Path names (kernel/src/fs/path.rs): components, and resolution through a tree of directories. */
module Paths {
  import opened Base
  import opened Names

  const SLASH: byte := 47

  // ----- components

  /** The first position from `pos` on that holds no slash. */
  function SkipSlashes(path: seq<byte>, pos: nat): (r: nat)
    requires pos <= |path|
    ensures pos <= r <= |path|
    decreases |path| - pos
  {
    if pos < |path| && path[pos] == SLASH then SkipSlashes(path, pos + 1) else pos
  }

  /** The first position from `pos` on that holds a slash. */
  function SkipName(path: seq<byte>, pos: nat): (r: nat)
    requires pos <= |path|
    ensures pos <= r <= |path|
    ensures pos < |path| && path[pos] != SLASH ==> pos < r
    decreases |path| - pos
  {
    if pos < |path| && path[pos] != SLASH then SkipName(path, pos + 1) else pos
  }

  lemma {:induction false} AfterSlashes(path: seq<byte>, pos: nat)
    requires pos <= |path|
    ensures SkipSlashes(path, pos) < |path| ==> path[SkipSlashes(path, pos)] != SLASH
    decreases |path| - pos
  {
    if pos < |path| && path[pos] == SLASH { AfterSlashes(path, pos + 1); }
  }

  /** The next component and the position behind it. */
  function Element(path: seq<byte>, pos: nat): (r: Option<(seq<byte>, nat)>)
    requires pos <= |path|
    ensures r.Some? ==> pos < r.value.1 <= |path| && r.value.0 != []
  {
    var start := SkipSlashes(path, pos);
    if start == |path| then None
    else
      AfterSlashes(path, pos);
      Some((path[start..SkipName(path, start)], SkipName(path, start)))
  }

  /** All components from `pos` on. */
  function Components(path: seq<byte>, pos: nat): (r: seq<seq<byte>>)
    requires pos <= |path|
    ensures forall i :: 0 <= i < |r| ==> r[i] != []
    decreases |path| - pos
  {
    var e := Element(path, pos);
    if e.None? then [] else [e.value.0] + Components(path, e.value.1)
  }

  /** `get_element` */
  method GetElement(path: seq<byte>, start: nat) returns (r: Option<(seq<byte>, nat)>)
    requires start <= |path|
    ensures r == Element(path, start)
  {
    var pos := start;
    while pos < |path| && path[pos] == SLASH
      invariant start <= pos <= |path| && SkipSlashes(path, start) == SkipSlashes(path, pos)
    {
      pos := pos + 1;
    }
    if pos >= |path| { return None; }
    var from := pos;
    while pos < |path| && path[pos] != SLASH
      invariant from <= pos <= |path| && SkipName(path, from) == SkipName(path, pos)
    {
      pos := pos + 1;
    }
    return Some((path[from..pos], pos));
  }

  // ----- what the components mean

  predicate NoSlash(c: seq<byte>) { forall i :: 0 <= i < |c| ==> c[i] != SLASH }

  /** A path that spells out the components. */
  function Join(cs: seq<seq<byte>>): seq<byte> {
    if cs == [] then [] else [SLASH] + cs[0] + Join(cs[1..])
  }

  lemma {:induction false} SkipNameEnd(path: seq<byte>, pos: nat, end: nat)
    requires pos <= end <= |path| && (end == |path| || path[end] == SLASH)
    requires forall i :: pos <= i < end ==> path[i] != SLASH
    ensures SkipName(path, pos) == end
    decreases end - pos
  {
    if pos < end { SkipNameEnd(path, pos + 1, end); }
  }

  /** The next component depends only on the rest of the path. */
  lemma ElementFrom(a: seq<byte>, b: seq<byte>, pos: nat)
    requires pos <= |b|
    ensures var e, x := Element(a + b, |a| + pos), Element(b, pos);
      if x.None? then e.None? else e == Some((x.value.0, |a| + x.value.1))
  {
    SkipSlashesFrom(a, b, pos);
    var s := SkipSlashes(b, pos);
    hide SkipSlashes, SkipName;
    if s < |b| {
      SkipNameFrom(a, b, s);
      AfterSlashes(b, pos);
      var e := SkipName(b, s);
      SliceFrom(a, b, s, e);
    }
  }

  lemma SliceFrom(a: seq<byte>, b: seq<byte>, s: nat, e: nat)
    requires s <= e <= |b|
    ensures (a + b)[|a| + s..|a| + e] == b[s..e]
  {
    forall i | 0 <= i < e - s ensures (a + b)[|a| + s..|a| + e][i] == b[s..e][i] {
      assert (a + b)[|a| + s..|a| + e][i] == (a + b)[|a| + s + i];
    }
  }

  /** Splitting depends only on the rest of the path. */
  lemma {:induction false} ComponentsFrom(a: seq<byte>, b: seq<byte>, pos: nat)
    requires pos <= |b|
    ensures Components(a + b, |a| + pos) == Components(b, pos)
    decreases |b| - pos
  {
    hide Element;
    ElementFrom(a, b, pos);
    var x := Element(b, pos);
    if x.Some? { ComponentsFrom(a, b, x.value.1); }
  }

  lemma {:induction false} SkipSlashesFrom(a: seq<byte>, b: seq<byte>, pos: nat)
    requires pos <= |b|
    ensures SkipSlashes(a + b, |a| + pos) == |a| + SkipSlashes(b, pos)
    decreases |b| - pos
  {
    if pos < |b| && b[pos] == SLASH { SkipSlashesFrom(a, b, pos + 1); }
  }

  lemma {:induction false} SkipNameFrom(a: seq<byte>, b: seq<byte>, pos: nat)
    requires pos <= |b|
    ensures SkipName(a + b, |a| + pos) == |a| + SkipName(b, pos)
    decreases |b| - pos
  {
    if pos < |b| && b[pos] != SLASH { SkipNameFrom(a, b, pos + 1); }
  }

  lemma SplitPath(path: seq<byte>, pos: nat)
    requires pos <= |path|
    ensures Element(path, pos).None? ==> Components(path, pos) == []
    ensures Element(path, pos).Some? ==>
      Components(path, pos) == [Element(path, pos).value.0] + Components(path, Element(path, pos).value.1)
  {
  }

  /** The first component of a joined path. */
  lemma FirstElement(c: seq<byte>, rest: seq<byte>)
    requires c != [] && NoSlash(c) && (rest != [] ==> rest[0] == SLASH)
    ensures Element([SLASH] + c + rest, 0) == Some((c, 1 + |c|))
  {
    var path := [SLASH] + c + rest;
    assert path[0] == SLASH && path[1] == c[0];
    assert SkipSlashes(path, 1) == 1;
    assert SkipSlashes(path, 0) == 1;
    forall i | 1 <= i < 1 + |c| ensures path[i] != SLASH { assert path[i] == c[i - 1]; }
    assert rest != [] ==> path[1 + |c|] == rest[0];
    hide SkipSlashes;
    SkipNameEnd(path, 1, 1 + |c|);
    assert path[1..1 + |c|] == c;
  }

  /** Joining components and splitting again gives back the components. */
  lemma {:induction false} SplitJoin(cs: seq<seq<byte>>)
    requires forall i :: 0 <= i < |cs| ==> cs[i] != [] && NoSlash(cs[i])
    ensures Components(Join(cs), 0) == cs
  {
    if cs != [] {
      var head, rest := [SLASH] + cs[0], Join(cs[1..]);
      assert Join(cs) == head + rest;
      assert rest != [] ==> rest[0] == SLASH;
      SplitJoin(cs[1..]);
      hide Element, Join, NoSlash, Components;
      FirstElement(cs[0], rest);
      SplitPath(head + rest, 0);
      ComponentsFrom(head, rest, 0);
    }
  }

  lemma {:induction false} SkipSlashesIn(a: seq<byte>, b: seq<byte>, pos: nat)
    requires pos <= |a| && SkipSlashes(a, pos) < |a|
    ensures SkipSlashes(a + b, pos) == SkipSlashes(a, pos)
    decreases |a| - pos
  {
    if pos < |a| && a[pos] == SLASH { SkipSlashesIn(a, b, pos + 1); }
  }

  lemma {:induction false} SkipNameIn(a: seq<byte>, b: seq<byte>, pos: nat)
    requires pos <= |a| && (b != [] ==> b[0] == SLASH)
    ensures SkipName(a + b, pos) == SkipName(a, pos)
    decreases |a| - pos
  {
    if pos < |a| && a[pos] != SLASH { SkipNameIn(a, b, pos + 1); }
  }

  /** Slashes up to the end of the first part. */
  lemma {:induction false} OnlySlashes(a: seq<byte>, b: seq<byte>, pos: nat)
    requires pos <= |a| && SkipSlashes(a, pos) == |a|
    ensures SkipSlashes(a + b, pos) == SkipSlashes(a + b, |a|)
    decreases |a| - pos
  {
    if pos < |a| { OnlySlashes(a, b, pos + 1); }
  }

  /** The next component of a path that goes on with a slash. */
  lemma ElementIn(a: seq<byte>, b: seq<byte>, pos: nat)
    requires pos <= |a| && (b != [] ==> b[0] == SLASH)
    ensures Element(a + b, pos) == if Element(a, pos).Some? then Element(a, pos) else Element(a + b, |a|)
  {
    var s := SkipSlashes(a, pos);
    if s < |a| {
      SkipSlashesIn(a, b, pos);
      SkipNameIn(a, b, s);
      assert (a + b)[s..SkipName(a, s)] == a[s..SkipName(a, s)];
    } else {
      OnlySlashes(a, b, pos);
    }
  }

  /** A path that goes on with a slash has the components of both parts. */
  lemma {:induction false} ComponentsIn(a: seq<byte>, b: seq<byte>, pos: nat)
    requires pos <= |a| && (b != [] ==> b[0] == SLASH)
    ensures Components(a + b, pos) == Components(a, pos) + Components(b, 0)
    decreases |a| - pos
  {
    hide Element;
    ElementIn(a, b, pos);
    var e := Element(a, pos);
    if e.Some? {
      ComponentsIn(a, b, e.value.1);
    } else {
      SplitPath(a + b, pos);
      SplitPath(a + b, |a|);
      ComponentsFrom(a, b, 0);
    }
  }

  /** A leading slash is no component. */
  lemma LeadingSlash(b: seq<byte>)
    ensures Components([SLASH] + b, 0) == Components(b, 0)
  {
    assert SkipSlashes([SLASH] + b, 0) == SkipSlashes([SLASH] + b, 1);
    hide SkipSlashes;
    assert Element([SLASH] + b, 0) == Element([SLASH] + b, 1);
    ComponentsFrom([SLASH], b, 0);
  }

  /** The components of two paths with a slash between them. */
  lemma SlashJoins(a: seq<byte>, b: seq<byte>)
    ensures Components(a + [SLASH] + b, 0) == Components(a, 0) + Components(b, 0)
  {
    hide Components;
    LeadingSlash(b);
    ComponentsIn(a, [SLASH] + b, 0);
    assert a + [SLASH] + b == a + ([SLASH] + b);
  }

  /** A name without slashes is its own only component. */
  lemma OneComponent(c: seq<byte>)
    requires c != [] && NoSlash(c)
    ensures Components(c, 0) == [c]
  {
    FirstElement(c, []);
    LeadingSlash(c);
    assert [SLASH] + c + [] == [SLASH] + c;
    assert Element([SLASH] + c, 1 + |c|).None?;
  }

  // ----- resolution

  /** A directory's entries by stored name; a data file has none. */
  datatype INode = INode(dir: bool, nlink: nat, entries: map<seq<byte>, nat>)

  type Tree = map<nat, INode>

  /** The search of one directory. */
  ghost function Search(t: Tree, d: nat, name: seq<byte>): Option<nat> {
    if d in t && t[d].dir && Key(name) in t[d].entries then Some(t[d].entries[Key(name)]) else None
  }

  /** Following components from inode `at`. */
  ghost function Resolve(t: Tree, at: nat, cs: seq<seq<byte>>): Option<nat>
    decreases |cs|
  {
    if cs == [] then Some(at)
    else
      var next := Search(t, at, cs[0]);
      if next.None? then None else Resolve(t, next.value, cs[1..])
  }

  /** Resolving a path is resolving its parent and then one search, for any non-empty path. */
  lemma {:induction false} ResolveParent(t: Tree, at: nat, cs: seq<seq<byte>>)
    requires cs != []
    ensures var parent := Resolve(t, at, cs[..|cs| - 1]);
      Resolve(t, at, cs) == if parent.None? then None else Search(t, parent.value, cs[|cs| - 1])
    decreases |cs|
  {
    var next := Search(t, at, cs[0]);
    if |cs| == 1 {
      assert cs[..0] == [] && cs[1..] == [];
    } else {
      assert cs[..|cs| - 1][0] == cs[0] && cs[..|cs| - 1][1..] == cs[1..][..|cs| - 2];
      if next.Some? { ResolveParent(t, next.value, cs[1..]); }
    }
  }

  /** Following two lists of components, one behind the other. */
  lemma {:induction false} ResolveAppend(t: Tree, at: nat, a: seq<seq<byte>>, b: seq<seq<byte>>)
    ensures var d := Resolve(t, at, a); Resolve(t, at, a + b) == if d.None? then None else Resolve(t, d.value, b)
    decreases |a|
  {
    if a == [] {
      assert a + b == b;
    } else {
      assert (a + b)[0] == a[0] && (a + b)[1..] == a[1..] + b;
      var next := Search(t, at, a[0]);
      if next.Some? { ResolveAppend(t, next.value, a[1..], b); }
    }
  }

  /** A stored name determines the search; names that agree on 60 bytes find the same entry. */
  lemma SearchByKey(t: Tree, d: nat, a: seq<byte>, b: seq<byte>)
    requires Key(a) == Key(b)
    ensures Search(t, d, a) == Search(t, d, b)
  {
  }

  /** Every entry leads to a live inode. */
  ghost predicate NoDangling(t: Tree) {
    forall d, k :: d in t && k in t[d].entries ==> t[d].entries[k] in t
  }

  lemma {:induction false} ResolveLive(t: Tree, at: nat, cs: seq<seq<byte>>)
    requires NoDangling(t) && at in t
    ensures Resolve(t, at, cs).Some? ==> Resolve(t, at, cs).value in t
    decreases |cs|
  {
    if cs != [] {
      var next := Search(t, at, cs[0]);
      if next.Some? { ResolveLive(t, next.value, cs[1..]); }
    }
  }
}
