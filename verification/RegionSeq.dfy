/**
  The mmap regions of a process as a sequence of page intervals (kernel/src/mem/uvm.rs): sorted, non-empty, inside the
  window, and coalesced.  Insertion with merging and cutting out a range are related to the set of pages.
*/
module RegionSeq {

  /** Pages [lo, hi). */
  datatype Region = Region(lo: nat, hi: nat)

  ghost predicate Has(rs: seq<Region>, x: nat) {
    exists i :: 0 <= i < |rs| && rs[i].lo <= x < rs[i].hi
  }

  /** Sorted, non-empty, inside [wlo, whi), and no two regions touch. */
  ghost predicate Canon(rs: seq<Region>, wlo: nat, whi: nat) {
    && (forall i :: 0 <= i < |rs| ==> wlo <= rs[i].lo < rs[i].hi <= whi)
    && (forall i, j :: 0 <= i < j < |rs| ==> rs[i].hi < rs[j].lo)
  }

  /** The regions in front of `k` start below `b`, the others do not. */
  ghost predicate SplitAt(rs: seq<Region>, b: nat, k: nat) {
    && k <= |rs|
    && (forall i :: 0 <= i < k ==> rs[i].lo < b)
    && (forall i :: k <= i < |rs| ==> b <= rs[i].lo)
  }

  ghost predicate Free(rs: seq<Region>, b: nat, e: nat) {
    forall x :: b <= x < e ==> !Has(rs, x)
  }

  // ----- insertion

  /** Replace regions [i, j) by `r`. */
  ghost function Splice(rs: seq<Region>, i: nat, j: nat, r: Region): seq<Region>
    requires i <= j <= |rs|
  {
    rs[..i] + [r] + rs[j..]
  }

  /** Whether a new interval [b, e) at split `k` merges with its predecessor or successor. */
  predicate MergesPrev(rs: seq<Region>, b: nat, k: nat)
    requires k <= |rs|
  {
    k > 0 && rs[k - 1].hi == b
  }

  predicate MergesNext(rs: seq<Region>, e: nat, k: nat)
    requires k <= |rs|
  {
    k < |rs| && rs[k].lo == e
  }

  /** The regions after mapping the free interval [b, e). */
  ghost function Inserted(rs: seq<Region>, b: nat, e: nat, k: nat): seq<Region>
    requires k <= |rs|
  {
    var i := if MergesPrev(rs, b, k) then k - 1 else k;
    var j := if MergesNext(rs, e, k) then k + 1 else k;
    var lo := if MergesPrev(rs, b, k) then rs[k - 1].lo else b;
    var hi := if MergesNext(rs, e, k) then rs[k].hi else e;
    Splice(rs, i, j, Region(lo, hi))
  }

  /** The interval is free exactly when it does not reach into its neighbours. */
  lemma FreeIff(rs: seq<Region>, wlo: nat, whi: nat, b: nat, e: nat, k: nat)
    requires Canon(rs, wlo, whi) && SplitAt(rs, b, k) && b < e
    ensures Free(rs, b, e) <==> (k == 0 || rs[k - 1].hi <= b) && (k == |rs| || e <= rs[k].lo)
  {
    if k > 0 && b < rs[k - 1].hi { assert Has(rs, b); }
    if k < |rs| && rs[k].lo < e { assert Has(rs, rs[k].lo); }
  }

  lemma SpliceCanon(rs: seq<Region>, wlo: nat, whi: nat, i: nat, j: nat, r: Region)
    requires Canon(rs, wlo, whi) && i <= j <= |rs| && wlo <= r.lo < r.hi <= whi
    requires (i == 0 || rs[i - 1].hi < r.lo) && (j == |rs| || r.hi < rs[j].lo)
    ensures Canon(Splice(rs, i, j, r), wlo, whi)
  {
    var u, v := rs[..i], rs[j..];
    assert Canon(u, wlo, whi) && Canon(v, wlo, whi);
    forall a | 0 <= a < |u| ensures u[a].hi < r.lo {}
    forall a | 0 <= a < |v| ensures r.hi < v[a].lo {}
    hide Splice;
    ThreeCanon(u, r, v, wlo, whi);
    assert Splice(rs, i, j, r) == u + [r] + v by { SpliceParts(rs, i, j, r); }
  }

  lemma SpliceParts(rs: seq<Region>, i: nat, j: nat, r: Region)
    requires i <= j <= |rs|
    ensures Splice(rs, i, j, r) == rs[..i] + [r] + rs[j..]
  {
  }

  lemma ThreeCanon(u: seq<Region>, r: Region, v: seq<Region>, wlo: nat, whi: nat)
    requires Canon(u, wlo, whi) && Canon(v, wlo, whi) && wlo <= r.lo < r.hi <= whi
    requires forall a :: 0 <= a < |u| ==> u[a].hi < r.lo
    requires forall a :: 0 <= a < |v| ==> r.hi < v[a].lo
    ensures Canon(u + [r] + v, wlo, whi)
  {
  }

  lemma SplicePages(rs: seq<Region>, i: nat, j: nat, r: Region, x: nat)
    requires i <= j <= |rs|
    ensures Has(Splice(rs, i, j, r), x) <==> Has(rs[..i], x) || r.lo <= x < r.hi || Has(rs[j..], x)
    ensures Has(rs, x) <==> Has(rs[..i], x) || Has(rs[i..j], x) || Has(rs[j..], x)
  {
    HasConcat(rs[..i] + [r], rs[j..], x);
    HasConcat(rs[..i], [r], x);
    HasOne(r, x);
    assert rs == rs[..i] + rs[i..j] + rs[j..];
    HasConcat(rs[..i] + rs[i..j], rs[j..], x);
    HasConcat(rs[..i], rs[i..j], x);
  }

  lemma HasOne(r: Region, x: nat)
    ensures Has([r], x) <==> r.lo <= x < r.hi
  {
    if r.lo <= x < r.hi { assert [r][0].lo <= x < [r][0].hi; }
  }

  lemma InsertedCanon(rs: seq<Region>, wlo: nat, whi: nat, b: nat, e: nat, k: nat)
    requires Canon(rs, wlo, whi) && SplitAt(rs, b, k) && wlo <= b < e <= whi && Free(rs, b, e)
    ensures Canon(Inserted(rs, b, e, k), wlo, whi)
  {
    FreeIff(rs, wlo, whi, b, e, k);
    var i := if MergesPrev(rs, b, k) then k - 1 else k;
    var j := if MergesNext(rs, e, k) then k + 1 else k;
    var lo := if MergesPrev(rs, b, k) then rs[k - 1].lo else b;
    var hi := if MergesNext(rs, e, k) then rs[k].hi else e;
    hide Free, Splice, SplitAt;
    assert i == 0 || rs[i - 1].hi < lo;
    assert j == |rs| || hi < rs[j].lo;
    SpliceCanon(rs, wlo, whi, i, j, Region(lo, hi));
  }

  lemma InsertedPages(rs: seq<Region>, wlo: nat, whi: nat, b: nat, e: nat, k: nat, x: nat)
    requires Canon(rs, wlo, whi) && SplitAt(rs, b, k) && b < e && Free(rs, b, e)
    ensures Has(Inserted(rs, b, e, k), x) <==> Has(rs, x) || b <= x < e
  {
    FreeIff(rs, wlo, whi, b, e, k);
    hide Free, Splice, SplitAt, Has;
    var i := if MergesPrev(rs, b, k) then k - 1 else k;
    var j := if MergesNext(rs, e, k) then k + 1 else k;
    var lo := if MergesPrev(rs, b, k) then rs[k - 1].lo else b;
    var hi := if MergesNext(rs, e, k) then rs[k].hi else e;
    SplicePages(rs, i, j, Region(lo, hi), x);
    MergedPages(rs, i, j, x);
  }

  /** The at most two regions that a merge replaces. */
  lemma MergedPages(rs: seq<Region>, i: nat, j: nat, x: nat)
    requires i <= j <= |rs| && j <= i + 2
    ensures Has(rs[i..j], x) <==>
      (i < j && rs[i].lo <= x < rs[i].hi) || (j == i + 2 && rs[i + 1].lo <= x < rs[i + 1].hi)
  {
    if i < j && rs[i].lo <= x < rs[i].hi { assert rs[i..j][0].lo <= x < rs[i..j][0].hi; }
    if j == i + 2 && rs[i + 1].lo <= x < rs[i + 1].hi { assert rs[i..j][1].lo <= x < rs[i..j][1].hi; }
  }

  // ----- cutting out a range

  /** What is left of one region. */
  function CutOne(r: Region, s: nat, e: nat): seq<Region> {
    (if r.lo < s then [Region(r.lo, if s < r.hi then s else r.hi)] else []) +
    (if e < r.hi then [Region(if r.lo < e then e else r.lo, r.hi)] else [])
  }

  /** What is left of all regions without the pages [s, e). */
  ghost function Cut(rs: seq<Region>, s: nat, e: nat): seq<Region> {
    if rs == [] then [] else CutOne(rs[0], s, e) + Cut(rs[1..], s, e)
  }

  lemma {:induction false} CutConcat(a: seq<Region>, b: seq<Region>, s: nat, e: nat)
    ensures Cut(a + b, s, e) == Cut(a, s, e) + Cut(b, s, e)
  {
    if a == [] {
      assert a + b == b;
    } else {
      assert (a + b)[1..] == a[1..] + b;
      CutConcat(a[1..], b, s, e);
    }
  }

  lemma CutSnoc(rs: seq<Region>, k: nat, s: nat, e: nat)
    requires k < |rs|
    ensures Cut(rs[..k + 1], s, e) == Cut(rs[..k], s, e) + CutOne(rs[k], s, e)
  {
    assert rs[..k + 1] == rs[..k] + [rs[k]];
    CutConcat(rs[..k], [rs[k]], s, e);
    assert Cut([rs[k]], s, e) == CutOne(rs[k], s, e) + Cut([], s, e);
  }

  /** Regions that the range does not meet stay as they are. */
  lemma {:induction false} CutOutside(rs: seq<Region>, s: nat, e: nat)
    requires s < e && forall i :: 0 <= i < |rs| ==> rs[i].lo < rs[i].hi && (rs[i].hi <= s || e <= rs[i].lo)
    ensures Cut(rs, s, e) == rs
  {
    if rs != [] {
      CutOutside(rs[1..], s, e);
      assert CutOne(rs[0], s, e) == [rs[0]];
    }
  }

  lemma {:induction false} CutPages(rs: seq<Region>, s: nat, e: nat, x: nat)
    requires s < e && forall i :: 0 <= i < |rs| ==> rs[i].lo < rs[i].hi
    ensures Has(Cut(rs, s, e), x) <==> Has(rs, x) && !(s <= x < e)
  {
    if rs != [] {
      CutPages(rs[1..], s, e, x);
      HasConcat(CutOne(rs[0], s, e), Cut(rs[1..], s, e), x);
      assert rs == [rs[0]] + rs[1..];
      HasConcat([rs[0]], rs[1..], x);
      CutOnePages(rs[0], s, e, x);
    }
  }

  lemma CutOnePages(r: Region, s: nat, e: nat, x: nat)
    requires s < e && r.lo < r.hi
    ensures Has(CutOne(r, s, e), x) <==> Has([r], x) && !(s <= x < e)
  {
    var c := CutOne(r, s, e);
    assert Has([r], x) <==> r.lo <= x < r.hi by {
      if r.lo <= x < r.hi { assert [r][0].lo <= x < [r][0].hi; }
    }
    if r.lo <= x < r.hi && x < s { assert c[0].lo <= x < c[0].hi; }
    if r.lo <= x < r.hi && e <= x { assert c[|c| - 1].lo <= x < c[|c| - 1].hi; }
  }

  lemma HasConcat(a: seq<Region>, b: seq<Region>, x: nat)
    ensures Has(a + b, x) <==> Has(a, x) || Has(b, x)
  {
    if Has(a, x) {
      var i :| 0 <= i < |a| && a[i].lo <= x < a[i].hi;
      assert (a + b)[i] == a[i];
    }
    if Has(b, x) {
      var i :| 0 <= i < |b| && b[i].lo <= x < b[i].hi;
      assert (a + b)[|a| + i] == b[i];
    }
  }

  /** Cutting keeps regions canonical. */
  lemma {:induction false} CutCanon(rs: seq<Region>, wlo: nat, whi: nat, s: nat, e: nat)
    requires Canon(rs, wlo, whi) && s < e
    ensures Canon(Cut(rs, s, e), wlo, whi) && From(Cut(rs, s, e), if rs == [] then 0 else rs[0].lo)
  {
    if rs != [] {
      var c, d := CutOne(rs[0], s, e), Cut(rs[1..], s, e);
      CutCanon(rs[1..], wlo, whi, s, e);
      assert From(d, rs[0].hi + 1);
      CutOneCanon(rs[0], wlo, whi, s, e);
      hide Cut, CutOne;
      CanonConcat(c, d, rs[0], wlo, whi);
    }
  }

  /** All regions start at `lo` or later. */
  ghost predicate From(rs: seq<Region>, lo: nat) {
    forall i :: 0 <= i < |rs| ==> lo <= rs[i].lo
  }

  lemma CutOneCanon(r: Region, wlo: nat, whi: nat, s: nat, e: nat)
    requires wlo <= r.lo < r.hi <= whi && s < e
    ensures Canon(CutOne(r, s, e), wlo, whi)
    ensures forall i :: 0 <= i < |CutOne(r, s, e)| ==> r.lo <= CutOne(r, s, e)[i].lo && CutOne(r, s, e)[i].hi <= r.hi
  {
  }

  lemma CanonConcat(c: seq<Region>, d: seq<Region>, r: Region, wlo: nat, whi: nat)
    requires Canon(c, wlo, whi) && Canon(d, wlo, whi)
    requires forall i :: 0 <= i < |c| ==> r.lo <= c[i].lo && c[i].hi <= r.hi
    requires From(d, r.hi + 1) && r.lo <= r.hi
    ensures Canon(c + d, wlo, whi) && From(c + d, r.lo)
  {
  }

  // ----- canonical regions are determined by their pages

  /** Two canonical sequences with the same pages are the same. */
  lemma {:induction false} CanonUnique(a: seq<Region>, b: seq<Region>, wlo: nat, whi: nat)
    requires Canon(a, wlo, whi) && Canon(b, wlo, whi) && forall x :: Has(a, x) <==> Has(b, x)
    ensures a == b
  {
    assert b != [] ==> a != [] by {
      if b != [] { assert Has(b, b[0].lo); }
    }
    if a != [] {
      assert Has(a, a[0].lo);
      assert b != [] && a[0].lo == b[0].lo by { FirstPage(a, b, wlo, whi); FirstPage(b, a, wlo, whi); }
      assert a[0].hi == b[0].hi by { FirstEnd(a, b, wlo, whi); FirstEnd(b, a, wlo, whi); }
      forall x ensures Has(a[1..], x) <==> Has(b[1..], x) {
        TailPages(a, wlo, whi, x);
        TailPages(b, wlo, whi, x);
      }
      CanonUnique(a[1..], b[1..], wlo, whi);
    }
  }

  lemma FirstPage(a: seq<Region>, b: seq<Region>, wlo: nat, whi: nat)
    requires Canon(a, wlo, whi) && Canon(b, wlo, whi) && a != [] && forall x :: Has(a, x) <==> Has(b, x)
    ensures b != [] && b[0].lo <= a[0].lo
  {
    assert Has(a, a[0].lo);
    var i :| 0 <= i < |b| && b[i].lo <= a[0].lo < b[i].hi;
  }

  lemma FirstEnd(a: seq<Region>, b: seq<Region>, wlo: nat, whi: nat)
    requires Canon(a, wlo, whi) && Canon(b, wlo, whi) && a != [] && b != [] && a[0].lo == b[0].lo
    requires forall x :: Has(a, x) <==> Has(b, x)
    ensures b[0].hi >= a[0].hi
  {
    var x := b[0].hi;
    assert !Has(b, x);
    assert !Has(a, x);
  }

  lemma TailPages(a: seq<Region>, wlo: nat, whi: nat, x: nat)
    requires Canon(a, wlo, whi) && a != []
    ensures Has(a[1..], x) <==> Has(a, x) && !(a[0].lo <= x < a[0].hi)
  {
    if Has(a, x) && !(a[0].lo <= x < a[0].hi) {
      var i :| 0 <= i < |a| && a[i].lo <= x < a[i].hi;
      assert a[1..][i - 1] == a[i];
    }
    if Has(a[1..], x) {
      var i :| 0 <= i < |a| - 1 && a[1..][i].lo <= x < a[1..][i].hi;
      assert a[i + 1].lo <= x < a[i + 1].hi;
    }
  }

  /** Unmapping what was just mapped gives back the regions, whatever was merged. */
  lemma InsertThenCut(rs: seq<Region>, wlo: nat, whi: nat, b: nat, e: nat, k: nat)
    requires Canon(rs, wlo, whi) && SplitAt(rs, b, k) && wlo <= b < e <= whi && Free(rs, b, e)
    ensures Cut(Inserted(rs, b, e, k), b, e) == rs
  {
    var q := Inserted(rs, b, e, k);
    InsertedCanon(rs, wlo, whi, b, e, k);
    CutCanon(q, wlo, whi, b, e);
    assert k <= |rs|;
    hide Inserted, Cut, SplitAt;
    forall x: nat ensures Has(Cut(q, b, e), x) <==> Has(rs, x) {
      InsertedPages(rs, wlo, whi, b, e, k, x);
      CutPages(q, b, e, x);
    }
    CanonUnique(Cut(q, b, e), rs, wlo, whi);
  }
}
