/**
  `fs_read` and `fs_write` (kernel/src/syscall/fs.rs): transfers between a file and user memory in chunks of 512 bytes.
  Chunk by chunk or in one piece is the same to the user, to the file and to the file offset.
*/
module FileCalls {
  import opened Base
  import opened Sv39
  import opened PageTree
  import opened PageTable
  import opened DiskFormat
  import opened BufferCache
  import opened FileTree
  import opened FileBytes
  import opened FileSystem
  import UserCopy

  const CHUNK := 512

  /** The slot of the inode table holds a referenced inode. */
  predicate Used(inodes: seq<Inode>, slot: nat) { slot < |inodes| && inodes[slot].refcnt > 0 }

  /** Offsets are 32 bits wide, and reads and writes go block by block. */
  predicate Fits(off: nat, len: nat) { off + len <= U32 - BLOCK_SIZE }

  // ----- reading

  /** A chunk of a file is the matching piece of the whole transfer. */
  lemma SliceStep(f: seq<byte>, off: nat, len: nat, n: nat, c: nat)
    requires n <= |Slice(f, off, len)| && n + c <= len
    ensures var w := Slice(f, off, len);
      Slice(f, off + n, c) == if n + c <= |w| then w[n..n + c] else w[n..]
  {
    var w := Slice(f, off, len);
    if off < |f| {
      var end := off + |w|;
      assert w == f[off..end];
      SubSlice(f, off, end, n, if n + c <= |w| then n + c else |w|);
    }
  }

  lemma SubSlice(f: seq<byte>, a: nat, b: nat, n: nat, m: nat)
    requires a <= b <= |f| && n <= m <= b - a
    ensures f[a..b][n..m] == f[a + n..a + m]
  {
    forall i | 0 <= i < m - n ensures f[a..b][n..m][i] == f[a + n..a + m][i] {
      assert f[a..b][n..m][i] == f[a..b][n + i] == f[a + n + i];
    }
  }

  /** Two copies in a row, to consecutive addresses. */
  lemma WroteMore(t: Tables, pg: Pages, p: Pages, q: Pages, root: nat, va: nat, n: nat, c: nat, w: seq<byte>,
                  s: seq<byte>)
    requires UserCopy.Wrote(t, pg, p, root, va, n, w) && UserCopy.Wrote(t, p, q, root, va + n, c, s)
    requires n + |s| <= |w| && s == w[n..n + |s|]
    ensures UserCopy.Wrote(t, pg, q, root, va, n + c, w)
  {
    hide Xlat, UserCopy.Fault, UserCopy.UserPage, UserCopy.UserByte, UserCopy.OnlyUser;
    hide UserCopy.BytesSet;
    forall i | 0 <= i < n + c ensures UserCopy.FaultAt(t, root, va, i, true).None? {
      if i >= n { assert UserCopy.FaultAt(t, root, va + n, i - n, true).None?; }
    }
    OnlyUserTwice(t, pg, p, q, root);
    BytesTwice(t, pg, p, q, root, va, n, c, w, s);
  }

  lemma OnlyUserTwice(t: Tables, pg: Pages, p: Pages, q: Pages, root: nat)
    requires UserCopy.OnlyUser(t, pg, p, root) && UserCopy.OnlyUser(t, p, q, root)
    ensures UserCopy.OnlyUser(t, pg, q, root)
  {
    hide UserCopy.UserFrame;
  }

  lemma BytesTwice(t: Tables, pg: Pages, p: Pages, q: Pages, root: nat, va: nat, n: nat, c: nat, w: seq<byte>,
                   s: seq<byte>)
    requires n <= |w| && c <= |s| && UserCopy.BytesSet(t, pg, p, root, va, n, w)
    requires UserCopy.BytesSet(t, p, q, root, va + n, c, s)
    requires n + |s| <= |w| && s == w[n..n + |s|]
    ensures UserCopy.BytesSet(t, pg, q, root, va, n + c, w)
  {
    hide UserCopy.Alone, UserCopy.UserByte;
  }

  /** The fault of a later chunk is the first fault of the whole transfer. */
  lemma FaultLater(t: Tables, pg: Pages, p: Pages, q: Pages, root: nat, va: nat, n: nat, w: seq<byte>, s: seq<byte>,
                   e: UserCopy.CopyError)
    requires UserCopy.Wrote(t, pg, p, root, va, n, w)
    requires UserCopy.CopyOutResult(t, p, q, root, va + n, s, UserCopy.Err(e))
    requires n + |s| <= |w| && s == w[n..n + |s|]
    ensures UserCopy.CopyOutResult(t, pg, q, root, va, w, UserCopy.Err(e))
  {
    hide UserCopy.Fault, UserCopy.OnlyUser, UserCopy.BytesSet;
    var k :| UserCopy.FirstFault(t, root, va + n, |s|, true, k, e) && UserCopy.Wrote(t, p, q, root, va + n, k, s);
    WroteMore(t, pg, p, q, root, va, n, k, w, s);
    assert UserCopy.FaultAt(t, root, va, n + k, true) == Some(e);
    assert UserCopy.FirstFault(t, root, va, |w|, true, n + k, e);
  }

  lemma WroteBacked(t: Tables, pg: Pages, p: Pages, root: nat, va: nat, n: nat, w: seq<byte>)
    requires UserCopy.Wrote(t, pg, p, root, va, n, w) && UserCopy.Backed(t, pg, root)
    ensures UserCopy.Backed(t, p, root) && n <= |w|
  {
    UserCopy.StillBacked(t, pg, p, root);
  }

  lemma WroteAll(t: Tables, pg: Pages, p: Pages, root: nat, va: nat, w: seq<byte>)
    requires UserCopy.Wrote(t, pg, p, root, va, |w|, w)
    ensures UserCopy.CopyOutResult(t, pg, p, root, va, w, UserCopy.Ok(()))
  {
  }

  /** One more chunk of the transfer `w` into user memory, of which `n` bytes are there. */
  method SendChunk(m: Memory, root: nat, dst: nat, n: nat, data: seq<byte>, ghost pg: Pages, ghost w: seq<byte>)
    returns (s: UserCopy.CopyResult<()>)
    requires m.Valid() && TreeInv(m.tables, root) && UserCopy.Backed(m.tables, pg, root)
    requires dst + n + |data| < ADDRESS_SPACE
    requires UserCopy.Wrote(m.tables, pg, m.pages, root, dst, n, w) && n + |data| <= |w| && data == w[n..n + |data|]
    modifies m`pages
    ensures m.Valid()
    ensures s.Ok? ==> UserCopy.Wrote(m.tables, pg, m.pages, root, dst, n + |data|, w)
    ensures s.Err? ==> UserCopy.CopyOutResult(m.tables, pg, m.pages, root, dst, w, UserCopy.Err(s.error))
  {
    hide MemInv, TreeInv, UserCopy.Wrote, UserCopy.CopyOutResult, UserCopy.Backed;
    WroteBacked(m.tables, pg, m.pages, root, dst, n, w);
    ghost var p := m.pages;
    s := UserCopy.CopyOut(m, root, dst + n, data);
    if s.Err? {
      FaultLater(m.tables, pg, p, m.pages, root, dst, n, w, data, s.error);
    } else {
      CopiedAll(m.tables, p, m.pages, root, dst + n, data, s);
      WroteMore(m.tables, pg, p, m.pages, root, dst, n, |data|, w, data);
    }
  }

  /** One chunk of a file. */
  method FetchChunk(fs: Fs, slot: nat, off: nat, len: nat) returns (data: seq<byte>)
    requires fs.Valid() && Used(fs.inodes, slot) && Fits(off, len)
    modifies fs`inodes, fs.cache
    ensures fs.cache.peak <= Max(old(fs.cache.peak), 2)
    ensures fs.Valid() && fs.cache.disk == old(fs.cache.disk) && fs.inodes == old(fs.inodes)
    ensures fs.inodes[slot].inum < fs.sb.ninodes
    ensures data == Slice(File(fs.sb, fs.cache.disk, fs.inodes[slot].inum), off, len)
  {
    hide CacheInv, HandlesOf, FsInv, File, ReadResult, Slice;
    SlotFacts(fs.sb, fs.cache.disk, fs.inodes, slot);
    data := fs.ReadData(slot, off, len);
    ReadIsSlice(fs.sb, fs.cache.disk, fs.inodes[slot].inum, off, len, data);
  }

  /**
    The copy of the bytes of inode `n` from `off` on, up to the length or the end of the file, into user memory at
    `dst`; the offset moves to `off'`, which is a whole number of chunks further where user memory faults.
  */
  ghost predicate Sends(sb: SuperBlock, d: Disk, n: nat, off: nat, len: nat, t: Tables, pg: Pages, pg': Pages,
                        root: nat, dst: nat, r: UserCopy.CopyResult<nat>, off': nat) {
    && Layout(sb, |d|) && n < sb.ninodes
    && var w := Slice(File(sb, d, n), off, len);
       && UserCopy.CopyOutResult(t, pg, pg', root, dst, w, if r.Ok? then UserCopy.Ok(()) else UserCopy.Err(r.error))
       && (r.Ok? ==> r.value == |w| && off' == off + |w|)
       && (r.Err? ==> off <= off' <= off + |w| && (off' - off) % CHUNK == 0)
  }

  /**
    `fs_read`: as one copy of the file's bytes from the offset on, up to the length or the end of the file, into user
    memory; the offset moves by what was read.  A fault of user memory ends the call at the chunk it is in.
  */
  method FsRead(fs: Fs, m: Memory, root: nat, slot: nat, off: nat, dst: nat, len: nat)
    returns (r: UserCopy.CopyResult<nat>, off': nat)
    requires fs.Valid() && Used(fs.inodes, slot) && Fits(off, len)
    requires m.Valid() && TreeInv(m.tables, root) && UserCopy.Backed(m.tables, m.pages, root)
    requires dst + len < ADDRESS_SPACE
    modifies fs`inodes, fs.cache, m`pages
    ensures fs.cache.peak <= Max(old(fs.cache.peak), 2)
    ensures fs.Valid() && fs.cache.disk == old(fs.cache.disk) && fs.inodes == old(fs.inodes) && m.Valid()
    ensures Sends(fs.sb, fs.cache.disk, fs.inodes[slot].inum, off, len, m.tables, old(m.pages), m.pages, root, dst, r,
                  off')
  {
    hide CacheInv, HandlesOf, FsInv, MemInv, TreeInv, File, Slice;
    hide UserCopy.Wrote, UserCopy.CopyOutResult, UserCopy.Backed, Layout, InodeAt;
    SlotFacts(fs.sb, fs.cache.disk, fs.inodes, slot);
    ghost var f, pg := File(fs.sb, fs.cache.disk, fs.inodes[slot].inum), m.pages;
    ghost var w := Slice(f, off, len);
    var total := 0;
    UserCopy.WroteNothing(m.tables, m.pages, root, dst, w);
    SliceLength(f, off, len);
    while total < len
      invariant fs.Valid() && fs.cache.disk == old(fs.cache.disk) && fs.inodes == old(fs.inodes) && m.Valid()
      invariant fs.cache.peak <= Max(old(fs.cache.peak), 2)
      invariant total <= |w| && (total == len || total % CHUNK == 0)
      invariant UserCopy.Wrote(m.tables, pg, m.pages, root, dst, total, w)
      decreases len - total
    {
      var c := Min(len - total, CHUNK);
      var s := ReadStep(fs, m, root, slot, off, dst, len, total, c, pg, f);
      if s.Err? { return UserCopy.Err(s.error), off + total; }
      WholeChunks(total, c, len);
      total := total + s.value;
      if s.value < c { break; }
    }
    WroteAll(m.tables, pg, m.pages, root, dst, w);
    return UserCopy.Ok(total), off + total;
  }

  lemma WholeChunks(total: nat, c: nat, len: nat)
    requires total < len && total % CHUNK == 0 && c == Min(len - total, CHUNK)
    ensures total + c == len || (total + c) % CHUNK == 0
  {
  }

  /** One round of `fs_read`: up to `c` bytes behind the first `n`; fewer only at the end of the file. */
  method ReadStep(fs: Fs, m: Memory, root: nat, slot: nat, off: nat, dst: nat, len: nat, n: nat, c: nat,
                  ghost pg: Pages, ghost f: seq<byte>)
    returns (s: UserCopy.CopyResult<nat>)
    requires fs.Valid() && Used(fs.inodes, slot) && Fits(off, len) && fs.inodes[slot].inum < fs.sb.ninodes
    requires m.Valid() && TreeInv(m.tables, root) && UserCopy.Backed(m.tables, pg, root) && dst + len < ADDRESS_SPACE
    requires f == File(fs.sb, fs.cache.disk, fs.inodes[slot].inum) && n + c <= len
    requires UserCopy.Wrote(m.tables, pg, m.pages, root, dst, n, Slice(f, off, len))
    modifies fs`inodes, fs.cache, m`pages
    ensures fs.cache.peak <= Max(old(fs.cache.peak), 2)
    ensures fs.Valid() && fs.cache.disk == old(fs.cache.disk) && fs.inodes == old(fs.inodes) && m.Valid()
    ensures var w := Slice(f, off, len);
      && (s.Ok? ==>
        s.value <= c && n + s.value <= |w| && UserCopy.Wrote(m.tables, pg, m.pages, root, dst, n + s.value, w))
      && (s.Ok? && s.value < c ==> n + s.value == |w|)
      && (s.Err? ==> UserCopy.CopyOutResult(m.tables, pg, m.pages, root, dst, w, UserCopy.Err(s.error)))
  {
    hide CacheInv, HandlesOf, FsInv, MemInv, TreeInv, File, Slice;
    hide UserCopy.Wrote, UserCopy.CopyOutResult, UserCopy.Backed;
    ghost var w := Slice(f, off, len);
    WroteBacked(m.tables, pg, m.pages, root, dst, n, w);
    var data := FetchChunk(fs, slot, off + n, c);
    SliceStep(f, off, len, n, c);
    if |data| == 0 { return UserCopy.Ok(0); }
    var r := SendChunk(m, root, dst, n, data, pg, w);
    if r.Err? { return UserCopy.Err(r.error); }
    return UserCopy.Ok(|data|);
  }

  lemma SliceLength(f: seq<byte>, off: nat, len: nat)
    ensures |Slice(f, off, len)| <= len
  {
  }

  lemma CopiedAll(t: Tables, p: Pages, q: Pages, root: nat, va: nat, s: seq<byte>, r: UserCopy.CopyResult<()>)
    requires r.Ok? && UserCopy.CopyOutResult(t, p, q, root, va, s, r)
    ensures UserCopy.Wrote(t, p, q, root, va, |s|, s)
  {
  }

  lemma ReadIsSlice(sb: SuperBlock, d: Disk, n: nat, off: nat, len: nat, data: seq<byte>)
    requires ReadResult(sb, d, n, off, len, data)
    ensures Layout(sb, |d|) && n < sb.ninodes && data == Slice(File(sb, d, n), off, len)
  {
    hide File;
  }

  lemma SlotFacts(sb: SuperBlock, d: Disk, inodes: seq<Inode>, slot: nat)
    requires FsInv(sb, d, inodes) && Used(inodes, slot)
    ensures slot < N_INODE == |inodes| && Layout(sb, |d|) && inodes[slot].inum < sb.ninodes
    ensures Live(sb, d, inodes[slot].inum)
  {
    FsInvFacts(sb, d, inodes, slot);
  }

  // ----- writing

  /** What was written is what a read of the same range returns. */
  lemma ReadBack(f: seq<byte>, off: nat, d: seq<byte>)
    requires d != []
    ensures Slice(Overwrite(f, off, d), off, |d|) == d
  {
    OverwriteAt(f, off, d);
    hide Overwrite;
    var g := Overwrite(f, off, d);
    assert g[off..off + |d|] == d by {
      forall i | 0 <= i < |d| ensures g[off..off + |d|][i] == d[i] { assert g[off..off + |d|][i] == g[off + i]; }
    }
  }

  /** `e` is `d` after `data` was written to inode `n` in chunks; writing nothing does not even extend the file. */
  ghost predicate Received(sb: SuperBlock, d: Disk, e: Disk, n: nat, off: nat, data: seq<byte>) {
    if data == [] then e == d else WriteResult(sb, d, e, n, off, data)
  }

  /** Two writes in a row, one behind the other, are one write. */
  lemma WriteTwice(sb: SuperBlock, d: Disk, e: Disk, f: Disk, n: nat, off: nat, a: seq<byte>, b: seq<byte>)
    requires WriteResult(sb, d, e, n, off, a) && WriteResult(sb, e, f, n, off + |a|, b) && Live(sb, d, n)
    ensures WriteResult(sb, d, f, n, off, a + b)
  {
    hide FileByte, InodeAt, T;
    var cur, src := off + |a|, a + b;
    assert Written(sb, d, e, n, off, cur, src) by {
      forall i | 0 <= i < |a| ensures src[i] == a[i] {}
    }
    assert src[cur - off..] == b;
    assert src[cur - off..off + |src| - off] == b;
    assert SameFiles(sb, e, e);
    hide Written;
    WrittenStep(sb, d, e, e, f, n, off, cur, off + |src|, src);
    assert forall m :: Live(sb, d, m) ==> Live(sb, e, m) by { LivesOf(sb, d, e, n, off, a); }
  }

  lemma LivesOf(sb: SuperBlock, d: Disk, e: Disk, n: nat, off: nat, a: seq<byte>)
    requires WriteResult(sb, d, e, n, off, a)
    ensures Layout(sb, |d|) && |e| == |d| && SameLive(sb, d, e)
  {
  }

  lemma ReceivedMore(sb: SuperBlock, d: Disk, e: Disk, f: Disk, n: nat, off: nat, data: seq<byte>, s: seq<byte>)
    requires Layout(sb, |d|) && Live(sb, d, n) && s != []
    requires Received(sb, d, e, n, off, data) && WriteResult(sb, e, f, n, off + |data|, s)
    ensures Received(sb, d, f, n, off, data + s)
  {
    hide WriteResult;
    if data == [] {
      assert data + s == s;
    } else {
      WriteTwice(sb, d, e, f, n, off, data, s);
    }
  }

  /** What was received is an overwrite of the file's bytes exactly where a gap behind its end holds zeros. */
  lemma ReceivedFile(sb: SuperBlock, d: Disk, e: Disk, n: nat, off: nat, data: seq<byte>)
    requires Layout(sb, |d|) && Live(sb, d, n) && Received(sb, d, e, n, off, data)
    ensures |e| == |d| && SameLive(sb, d, e)
    ensures data == [] ==> File(sb, e, n) == File(sb, d, n)
    ensures data != [] ==> (File(sb, e, n) == Overwrite(File(sb, d, n), off, data) <==> GapZero(sb, d, n, off))
    ensures forall m :: Live(sb, d, m) && m != n ==> File(sb, e, m) == File(sb, d, m)
  {
    if data != [] {
      LivesOf(sb, d, e, n, off, data);
      GapExact(sb, d, e, n, off, data);
      hide File, GapZero, Overwrite, WriteResult;
      forall m | Live(sb, d, m) && m != n ensures File(sb, e, m) == File(sb, d, m) {
        OtherFile(sb, d, e, n, off, data, m);
      }
    }
  }

  lemma OtherFile(sb: SuperBlock, d: Disk, e: Disk, n: nat, off: nat, data: seq<byte>, m: nat)
    requires WriteResult(sb, d, e, n, off, data) && Live(sb, d, m) && m != n
    ensures File(sb, e, m) == File(sb, d, m)
  {
    hide FileByte, InodeAt, T;
    SameFile(sb, d, e, m);
  }

  lemma ReadMore(t: Tables, pg: Pages, root: nat, va: nat, d: seq<byte>, s: seq<byte>)
    requires UserCopy.ReadOk(t, pg, root, va, d) && UserCopy.ReadOk(t, pg, root, va + |d|, s)
    ensures UserCopy.ReadOk(t, pg, root, va, d + s)
  {
    hide UserCopy.Fault, UserCopy.UserByte;
    forall i | 0 <= i < |d + s|
      ensures UserCopy.FaultAt(t, root, va, i, false).None? && (d + s)[i] == UserCopy.UserByte(t, pg, root, va + i)
    {
      if i >= |d| { assert UserCopy.FaultAt(t, root, va + |d|, i - |d|, false).None?; }
    }
  }

  /** The first byte that cannot be read lies in the chunk that starts behind `n` bytes. */
  ghost predicate FaultInChunk(t: Tables, root: nat, va: nat, len: nat, n: nat, e: UserCopy.CopyError) {
    exists k: nat :: UserCopy.FirstFault(t, root, va, len, false, k, e) && n == k / CHUNK * CHUNK
  }

  lemma FaultAhead(t: Tables, pg: Pages, root: nat, va: nat, d: seq<byte>, c: nat, len: nat, e: UserCopy.CopyError)
    requires UserCopy.ReadOk(t, pg, root, va, d) && UserCopy.CopyInResult(t, pg, root, va + |d|, c, UserCopy.Err(e))
    requires |d| % CHUNK == 0 && c <= CHUNK && |d| + c <= len
    ensures FaultInChunk(t, root, va, len, |d|, e)
  {
    hide UserCopy.Fault, UserCopy.UserByte;
    var k :| UserCopy.FirstFault(t, root, va + |d|, c, false, k, e);
    assert UserCopy.FaultAt(t, root, va, |d| + k, false) == Some(e);
    forall i | 0 <= i < |d| + k ensures UserCopy.FaultAt(t, root, va, i, false).None? {
      if i >= |d| { assert UserCopy.FaultAt(t, root, va + |d|, i - |d|, false).None?; }
    }
    assert UserCopy.FirstFault(t, root, va, len, false, |d| + k, e);
  }

  /** How `fs_write` ends; `Panicked` is the kernel panic of a full disk. */
  datatype Outcome = Sent(n: nat) | Faulted(error: UserCopy.CopyError) | Panicked

  /**
    `data` is what user memory holds at `src`, all `len` bytes or the chunks in front of the one that faults, and it was
    written to inode `n` at `off`; the offset moves to `off'`.
  */
  ghost predicate Takes(sb: SuperBlock, d: Disk, e: Disk, n: nat, off: nat, len: nat, t: Tables, pg: Pages,
                        root: nat, src: nat, r: Outcome, off': nat, data: seq<byte>) {
    && UserCopy.ReadOk(t, pg, root, src, data) && off' == off + |data| && Received(sb, d, e, n, off, data)
    && !r.Panicked? && (r.Sent? ==> r.n == |data| == len)
    && (r.Faulted? ==> FaultInChunk(t, root, src, len, |data|, r.error))
  }

  /**
    The loop of `fs_write`: as one write of the user's bytes at the offset, which moves by what was written.  A fault of
    user memory ends it with all chunks in front of the one it is in written.
  */
  method FsWrite(fs: Fs, m: Memory, root: nat, slot: nat, off: nat, src: nat, len: nat)
    returns (r: Outcome, off': nat, ghost data: seq<byte>)
    requires fs.Valid() && Used(fs.inodes, slot) && Fits(off, len)
    requires m.Valid() && TreeInv(m.tables, root) && UserCopy.Backed(m.tables, m.pages, root)
    requires src + len < ADDRESS_SPACE
    modifies fs`inodes, fs.cache
    ensures fs.Valid() && fs.cache.peak <= Max(old(fs.cache.peak), 2) && |fs.inodes| == |old(fs.inodes)|
    ensures fs.inodes == old(fs.inodes)[slot := old(fs.inodes)[slot].(disk := fs.inodes[slot].disk)]
    ensures r.Panicked? ==> Full(fs.sb, fs.cache.disk)
    ensures !r.Panicked? ==>
      Takes(fs.sb, old(fs.cache.disk), fs.cache.disk, old(fs.inodes)[slot].inum, off, len, m.tables, m.pages, root,
            src, r, off', data)
  {
    hide CacheInv, HandlesOf, FsInv, MemInv, TreeInv, WriteResult;
    hide UserCopy.CopyInResult, UserCopy.Backed, UserCopy.ReadOk, UserCopy.FirstFault;
    SlotFacts(fs.sb, fs.cache.disk, fs.inodes, slot);
    var total := 0;
    ghost var d, n := fs.cache.disk, fs.inodes[slot].inum;
    data := [];
    UserCopy.ReadNothing(m.tables, m.pages, root, src);
    while total < len
      invariant fs.Valid() && fs.cache.peak <= Max(old(fs.cache.peak), 2) && |fs.inodes| == |old(fs.inodes)|
      invariant fs.inodes == old(fs.inodes)[slot := old(fs.inodes)[slot].(disk := fs.inodes[slot].disk)]
      invariant |data| == total <= len && (total == len || total % CHUNK == 0)
      invariant UserCopy.ReadOk(m.tables, m.pages, root, src, data)
      invariant Received(fs.sb, d, fs.cache.disk, n, off, data)
      decreases len - total
    {
      var c := Min(len - total, CHUNK);
      var s := UserCopy.CopyIn(m, root, src + total, c);
      if s.Err? {
        FaultAhead(m.tables, m.pages, root, src, data, c, len, s.error);
        return Faulted(s.error), off + total, data;
      }
      ReadAll(m.tables, m.pages, root, src + total, c, s.value);
      ghost var e := fs.cache.disk;
      var ok := fs.WriteData(slot, off + total, s.value);
      if !ok { return Panicked, off + total, data; }
      ReadMore(m.tables, m.pages, root, src, data, s.value);
      ReceivedMore(fs.sb, d, e, fs.cache.disk, n, off, data, s.value);
      total, data := total + c, data + s.value;
    }
    return Sent(total), off + total, data;
  }

  lemma ReadAll(t: Tables, pg: Pages, root: nat, va: nat, len: nat, d: seq<byte>)
    requires UserCopy.CopyInResult(t, pg, root, va, len, UserCopy.Ok(d))
    ensures |d| == len && UserCopy.ReadOk(t, pg, root, va, d)
  {
  }
}
