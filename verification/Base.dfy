/** Shared definitions: optional values, bytes, disk blocks and facts about sequences. */
module Base {
  datatype Option<+T> = None | Some(value: T)

  type byte = x: int | 0 <= x < 256

  const BLOCK_SIZE := 4096

  type Block = s: seq<byte> | |s| == BLOCK_SIZE witness seq(BLOCK_SIZE, _ => 0)

  /** The block that a fresh allocation leaves on disk. */
  function ZeroBlock(): (b: Block)
    ensures forall i :: 0 <= i < BLOCK_SIZE ==> b[i] == 0
  {
    seq(BLOCK_SIZE, _ => 0)
  }

  function Max(a: int, b: int): int { if a < b then b else a }
  function Min(a: int, b: int): int { if a < b then a else b }

  /** At most `len` elements of `s` from `off` on, cut at its end. */
  function Slice<T>(s: seq<T>, off: nat, len: nat): seq<T> {
    if off >= |s| then [] else s[off..Min(off + len, |s|)]
  }

  /** `b` after storing `src` into it at `off`. */
  function Splice<T>(b: seq<T>, off: nat, src: seq<T>): (r: seq<T>)
    requires off + |src| <= |b|
    ensures |r| == |b|
    ensures forall i :: 0 <= i < |b| ==> r[i] == if off <= i < off + |src| then src[i - off] else b[i]
  {
    b[..off] + src + b[off + |src|..]
  }

  /** Element `i` of a list of links, if there is one. */
  function ListAt(l: seq<nat>, i: int): Option<nat> {
    if 0 <= i < |l| then Some(l[i]) else None
  }

  ghost predicate NoNul(s: seq<byte>) {
    forall i :: 0 <= i < |s| ==> s[i] != 0
  }

  ghost predicate NoDup<T>(s: seq<T>) {
    forall i, j :: 0 <= i < j < |s| ==> s[i] != s[j]
  }

  /** `s` without its element at `k`. */
  ghost function DropAt<T>(s: seq<T>, k: nat): (r: seq<T>)
    requires k < |s|
    ensures |r| == |s| - 1
  {
    s[..k] + s[k + 1..]
  }
}
