/** __next_mem_range() and __next_mem_range_rev() (mm/memblock.c): memory without the reserved ranges,
    by two indices advancing in lockstep. */
module MemblockIter {
  import opened Basics
  import opened Memblock

  const NUMA_NO_NODE := -1

  datatype Range = Range(start: Addr, end: Addr, nid: int)

  /** Ascending without overlap; the dummy entry of an empty array is allowed. */
  predicate Ascending(rs: seq<Region>) {
    && (forall i, j :: 0 <= i < j < |rs| ==> End(rs[i]) <= rs[j].base)
    && (forall r <- rs :: End(r) <= ULLONG_MAX)
  }

  /** The gap before region b of the reserved array; the last gap is open to the end. */
  function GapStart(bs: seq<Region>, b: nat): (x: Addr)
    requires b <= |bs|
  {
    if b == 0 then 0 else End(bs[b - 1])
  }

  function GapEnd(bs: seq<Region>, b: nat): (x: Addr)
    requires b <= |bs|
  {
    if b < |bs| then bs[b].base else ULLONG_MAX
  }

  /** Every node is wanted for NUMA_NO_NODE, and for MAX_NUMNODES, which stands for it. */
  predicate Wanted(m: Region, nid: int) { nid == NUMA_NO_NODE || nid == MAX_NUMNODES || nid == m.attr.nid }

  predicate Meet(m: Region, bs: seq<Region>, b: nat)
    requires b <= |bs|
  {
    GapStart(bs, b) < End(m) && m.base < GapEnd(bs, b)
  }

  function Common(m: Region, bs: seq<Region>, b: nat): (r: Range)
    requires b <= |bs|
  {
    Range(Max(m.base, GapStart(bs, b)), Min(End(m), GapEnd(bs, b)), m.attr.nid)
  }

  function Piece(m: Region, bs: seq<Region>, nid: int, b: nat): (r: seq<Range>)
    requires b <= |bs|
  {
    if Wanted(m, nid) && Meet(m, bs, b) then [Common(m, bs, b)] else []
  }

  /** What gaps lo up to hi leave of one memory region. */
  function Row(m: Region, bs: seq<Region>, nid: int, lo: nat, hi: nat): (r: seq<Range>)
    requires hi <= |bs| + 1
    decreases hi - lo
  {
    if lo >= hi then [] else Piece(m, bs, nid, lo) + Row(m, bs, nid, lo + 1, hi)
  }

  /** All free ranges: every memory region with every gap, in order. */
  function All(rs: seq<Region>, bs: seq<Region>, nid: int): (r: seq<Range>) {
    if rs == [] then [] else Row(rs[0], bs, nid, 0, |bs| + 1) + All(rs[1..], bs, nid)
  }

  // ---- forward ----

  /** What is left for regions a and on, gaps b and on. */
  function Rest(rs: seq<Region>, bs: seq<Region>, nid: int, a: nat, b: nat): (r: seq<Range>)
    decreases |rs| - a
  {
    if a >= |rs| then [] else Row(rs[a], bs, nid, b, |bs| + 1) + Rest(rs, bs, nid, a + 1, b)
  }

  lemma {:induction false} RestAll(rs: seq<Region>, bs: seq<Region>, nid: int, a: nat)
    requires a <= |rs|
    ensures Rest(rs, bs, nid, a, 0) == All(rs[a..], bs, nid)
    decreases |rs| - a
  {
    if a < |rs| {
      RestAll(rs, bs, nid, a + 1);
      assert rs[a..][1..] == rs[a + 1..];
    }
  }

  lemma {:induction false} GapsAscend(bs: seq<Region>, b: nat, c: nat)
    requires Ascending(bs) && b < c <= |bs|
    ensures GapEnd(bs, b) <= GapStart(bs, c)
  {
    if b < c - 1 {
      assert End(bs[b]) <= bs[c - 1].base;
    }
  }

  /** No gap from b on reaches a region that ends before gap b starts. */
  lemma {:induction false} RowPast(m: Region, bs: seq<Region>, nid: int, b: nat, lo: nat)
    requires Ascending(bs) && b <= lo <= |bs| + 1 && b <= |bs| && GapStart(bs, b) >= End(m)
    ensures Row(m, bs, nid, lo, |bs| + 1) == []
    decreases |bs| + 1 - lo
  {
    if lo <= |bs| {
      if b < lo {
        assert bs[b].base <= End(bs[b]);
        GapsAscend(bs, b, lo);
        GapOrder(bs, b);
      }
      RowPast(m, bs, nid, b, lo + 1);
    }
  }

  lemma {:induction false} GapOrder(bs: seq<Region>, b: nat)
    requires Ascending(bs) && b <= |bs|
    ensures GapStart(bs, b) <= GapEnd(bs, b)
  {
  }

  lemma {:induction false} RowHead(m: Region, bs: seq<Region>, nid: int, b: nat, hi: nat)
    requires b < hi <= |bs| + 1
    ensures Row(m, bs, nid, b, hi) == Piece(m, bs, nid, b) + Row(m, bs, nid, b + 1, hi)
    ensures Piece(m, bs, nid, b) == [] ==> Row(m, bs, nid, b, hi) == Row(m, bs, nid, b + 1, hi)
  {
  }

  /** A gap that ends before region a ends before every later region: it can be dropped. */
  lemma {:induction false} DropGap(rs: seq<Region>, bs: seq<Region>, nid: int, a: nat, b: nat)
    requires Ascending(rs) && b <= |bs| && (a < |rs| ==> GapEnd(bs, b) <= rs[a].base)
    ensures Rest(rs, bs, nid, a, b) == Rest(rs, bs, nid, a, b + 1)
    decreases |rs| - a
  {
    if a < |rs| {
      assert a + 1 < |rs| ==> rs[a].base <= End(rs[a]) <= rs[a + 1].base;
      DropGap(rs, bs, nid, a + 1, b);
      assert Piece(rs[a], bs, nid, b) == [];
      RowHead(rs[a], bs, nid, b, |bs| + 1);
    }
  }

  /** Where a region and a gap meet, the one that ends first is done. */
  lemma {:induction false} MeetRegionEnds(rs: seq<Region>, bs: seq<Region>, nid: int, a: nat, b: nat)
    requires Ascending(bs) && a < |rs| && b <= |bs| && Wanted(rs[a], nid) && Meet(rs[a], bs, b)
      && End(rs[a]) <= GapEnd(bs, b)
    ensures Rest(rs, bs, nid, a, b) == [Common(rs[a], bs, b)] + Rest(rs, bs, nid, a + 1, b)
  {
    var m := rs[a];
    RowHead(m, bs, nid, b, |bs| + 1);
    if b < |bs| {
      RowPast(m, bs, nid, b + 1, b + 1);
    }
    assert Row(m, bs, nid, b, |bs| + 1) == [Common(m, bs, b)];
  }

  lemma {:induction false} MeetGapEnds(rs: seq<Region>, bs: seq<Region>, nid: int, a: nat, b: nat)
    requires Ascending(rs) && a < |rs| && b <= |bs| && Wanted(rs[a], nid) && Meet(rs[a], bs, b)
      && End(rs[a]) > GapEnd(bs, b)
    ensures Rest(rs, bs, nid, a, b) == [Common(rs[a], bs, b)] + Rest(rs, bs, nid, a, b + 1)
  {
    var m := rs[a];
    RowHead(m, bs, nid, b, |bs| + 1);
    assert a + 1 < |rs| ==> End(m) <= rs[a + 1].base;
    DropGap(rs, bs, nid, a + 1, b);
    Regroup([Common(m, bs, b)], Row(m, bs, nid, b + 1, |bs| + 1), Rest(rs, bs, nid, a + 1, b));
  }

  // ---- backward ----

  /** What is left for regions up to a, gaps up to b. */
  function Pre(rs: seq<Region>, bs: seq<Region>, nid: int, a: nat, b: nat): (r: seq<Range>) {
    if a == 0 || a > |rs| || b > |bs| + 1 then [] else Pre(rs, bs, nid, a - 1, b) + Row(rs[a - 1], bs, nid, 0, b)
  }

  lemma {:induction false} AllSnoc(rs: seq<Region>, bs: seq<Region>, nid: int, m: Region)
    ensures All(rs + [m], bs, nid) == All(rs, bs, nid) + Row(m, bs, nid, 0, |bs| + 1)
  {
    if rs == [] {
      assert (rs + [m])[1..] == [];
    } else {
      AllSnoc(rs[1..], bs, nid, m);
      assert (rs + [m])[1..] == rs[1..] + [m];
    }
  }

  lemma {:induction false} PreAll(rs: seq<Region>, bs: seq<Region>, nid: int, a: nat)
    requires a <= |rs|
    ensures Pre(rs, bs, nid, a, |bs| + 1) == All(rs[..a], bs, nid)
  {
    if a > 0 {
      PreAll(rs, bs, nid, a - 1);
      AllSnoc(rs[..a - 1], bs, nid, rs[a - 1]);
      assert rs[..a - 1] + [rs[a - 1]] == rs[..a];
    }
  }

  lemma {:induction false} RowSnoc(m: Region, bs: seq<Region>, nid: int, lo: nat, hi: nat)
    requires lo <= hi <= |bs|
    ensures Row(m, bs, nid, lo, hi + 1) == Row(m, bs, nid, lo, hi) + Piece(m, bs, nid, hi)
    decreases hi - lo
  {
    if lo < hi {
      RowSnoc(m, bs, nid, lo + 1, hi);
    }
  }

  /** No gap up to b reaches a region that starts after gap b ends. */
  lemma {:induction false} RowBefore(m: Region, bs: seq<Region>, nid: int, b: nat, hi: nat)
    requires Ascending(bs) && hi <= b + 1 <= |bs| + 1 && GapEnd(bs, b) <= m.base
    ensures Row(m, bs, nid, 0, hi) == []
  {
    if hi > 0 {
      RowBefore(m, bs, nid, b, hi - 1);
      RowSnoc(m, bs, nid, 0, hi - 1);
      if hi - 1 < b {
        GapsAscend(bs, hi - 1, b);
        GapOrder(bs, b);
      }
    }
  }

  lemma {:induction false} DropGapRev(rs: seq<Region>, bs: seq<Region>, nid: int, a: nat, b: nat)
    requires Ascending(rs) && b <= |bs| && a <= |rs| && (a > 0 ==> End(rs[a - 1]) <= GapStart(bs, b))
    ensures Pre(rs, bs, nid, a, b + 1) == Pre(rs, bs, nid, a, b)
  {
    if a > 0 {
      assert a > 1 ==> End(rs[a - 2]) <= rs[a - 1].base;
      DropGapRev(rs, bs, nid, a - 1, b);
      RowSnoc(rs[a - 1], bs, nid, 0, b);
    }
  }

  /** Downwards, the one that starts last is done. */
  lemma {:induction false} MeetRegionStarts(rs: seq<Region>, bs: seq<Region>, nid: int, a: nat, b: nat)
    requires Ascending(rs) && Ascending(bs) && 0 < a <= |rs| && b <= |bs| && Wanted(rs[a - 1], nid)
      && Meet(rs[a - 1], bs, b)
    requires rs[a - 1].base >= GapStart(bs, b)
    ensures Pre(rs, bs, nid, a, b + 1) == Pre(rs, bs, nid, a - 1, b + 1) + [Common(rs[a - 1], bs, b)]
  {
    var m := rs[a - 1];
    RowSnoc(m, bs, nid, 0, b);
    if b > 0 {
      GapsAscend(bs, b - 1, b);
      RowBefore(m, bs, nid, b - 1, b);
    }
    assert Row(m, bs, nid, 0, b + 1) == [Common(m, bs, b)];
  }

  lemma {:induction false} MeetGapStarts(rs: seq<Region>, bs: seq<Region>, nid: int, a: nat, b: nat)
    requires Ascending(rs) && Ascending(bs) && 0 < a <= |rs| && b <= |bs| && Wanted(rs[a - 1], nid)
      && Meet(rs[a - 1], bs, b)
    requires rs[a - 1].base < GapStart(bs, b)
    ensures b > 0 && Pre(rs, bs, nid, a, b + 1) == Pre(rs, bs, nid, a, b) + [Common(rs[a - 1], bs, b)]
  {
    var m := rs[a - 1];
    RowSnoc(m, bs, nid, 0, b);
    assert a > 1 ==> End(rs[a - 2]) <= m.base;
    DropGapRev(rs, bs, nid, a - 1, b);
    Regroup(Pre(rs, bs, nid, a - 1, b), Row(m, bs, nid, 0, b), [Common(m, bs, b)]);
  }

  // ---- the packed index ----

  /** The loop variable: region index in the low 32 bits, gap index in the high ones. */
  function Pack(a: int, b: nat): (idx: nat)
    requires -1 <= a < 0x7fff_ffff && b < 0x7fff_ffff
  {
    (if a < 0 then a + 0x1_0000_0000 else a) + b * 0x1_0000_0000
  }

  function IdxA(idx: nat): (a: int) {
    var low := idx % 0x1_0000_0000;
    if low >= 0x8000_0000 then low - 0x1_0000_0000 else low
  }

  function IdxB(idx: nat): (b: int) { idx / 0x1_0000_0000 }

  lemma {:induction false} PackOk(a: int, b: nat)
    requires -1 <= a < 0x7fff_ffff && b < 0x7fff_ffff
    ensures IdxA(Pack(a, b)) == a && IdxB(Pack(a, b)) == b && Pack(a, b) != ULLONG_MAX
  {
  }

  predicate Arrays(rs: seq<Region>, bs: seq<Region>) {
    Ascending(rs) && Ascending(bs) && |rs| < 0x7fff_fffe && |bs| < 0x7fff_fffe
  }

  function Gaps(ob: Option<seq<Region>>): seq<Region> { if ob.Some? then ob.value else [] }

  /** The inner loop of __next_mem_range(): the next gap that meets region a, if any. */
  method ScanGaps(rs: seq<Region>, bs: seq<Region>, nid: int, a: nat, b0: nat) returns (hit: bool, b: nat)
    requires Ascending(rs) && Ascending(bs) && a < |rs| && b0 <= |bs| + 1
    ensures b0 <= b <= |bs| + 1 && (hit ==> b <= |bs| && Meet(rs[a], bs, b))
    ensures hit ==> Rest(rs, bs, nid, a, b0) == Rest(rs, bs, nid, a, b)
    ensures !hit ==> Rest(rs, bs, nid, a, b0) == Rest(rs, bs, nid, a + 1, b)
  {
    b := b0;
    var m := rs[a];
    while b < |bs| + 1
      invariant b0 <= b <= |bs| + 1 && Rest(rs, bs, nid, a, b) == Rest(rs, bs, nid, a, b0)
    {
      if GapStart(bs, b) >= End(m) {
        RowPast(m, bs, nid, b, b);
        return false, b;
      }
      if m.base < GapEnd(bs, b) {
        return true, b;
      }
      DropGap(rs, bs, nid, a, b);
      b := b + 1;
    }
    return false, b;
  }

  /** The common part of region a and gap b is yielded, and the one that ends first is done with. */
  method Yield(rs: seq<Region>, bs: seq<Region>, nid: int, a: nat, b: nat) returns (a': nat, b': nat, out: Range)
    requires Ascending(rs) && Ascending(bs) && a < |rs| && b <= |bs| && Wanted(rs[a], nid) && Meet(rs[a], bs, b)
    ensures a' <= |rs| && b' <= |bs| + 1 && Rest(rs, bs, nid, a, b) == [out] + Rest(rs, bs, nid, a', b')
  {
    YieldOk(rs, bs, nid, a, b);
    var m, rEnd := rs[a], GapEnd(bs, b);
    out := Range(Max(m.base, GapStart(bs, b)), Min(End(m), rEnd), m.attr.nid);
    if End(m) <= rEnd {
      a', b' := a + 1, b;
    } else {
      a', b' := a, b + 1;
    }
  }

  lemma {:induction false} YieldOk(rs: seq<Region>, bs: seq<Region>, nid: int, a: nat, b: nat)
    requires Ascending(rs) && Ascending(bs) && a < |rs| && b <= |bs| && Wanted(rs[a], nid) && Meet(rs[a], bs, b)
    ensures End(rs[a]) <= GapEnd(bs, b) ==>
      Rest(rs, bs, nid, a, b) == [Common(rs[a], bs, b)] + Rest(rs, bs, nid, a + 1, b)
    ensures End(rs[a]) > GapEnd(bs, b) ==>
      Rest(rs, bs, nid, a, b) == [Common(rs[a], bs, b)] + Rest(rs, bs, nid, a, b + 1)
  {
    if End(rs[a]) <= GapEnd(bs, b) { MeetRegionEnds(rs, bs, nid, a, b); } else { MeetGapEnds(rs, bs, nid, a, b); }
  }

  /** The search of __next_mem_range() from a pair of indices. */
  method NextPair(rs: seq<Region>, bs: seq<Region>, nid: int, a0: nat, b0: nat)
    returns (more: bool, a: nat, b: nat, out: Range)
    requires Ascending(rs) && Ascending(bs) && a0 <= |rs| && b0 <= |bs| + 1
    ensures a <= |rs| && b <= |bs| + 1
    ensures more ==> Rest(rs, bs, nid, a0, b0) == [out] + Rest(rs, bs, nid, a, b)
    ensures !more ==> Rest(rs, bs, nid, a0, b0) == []
  {
    a, b, out := a0, b0, Range(0, 0, 0);
    while a < |rs|
      invariant a <= |rs| && b <= |bs| + 1 && Rest(rs, bs, nid, a, b) == Rest(rs, bs, nid, a0, b0)
    {
      var m := rs[a];
      var hit := false;
      if Wanted(m, nid) {
        hit, b := ScanGaps(rs, bs, nid, a, b);
      } else {
        SkipRegion(rs, bs, nid, a, b);
      }
      if hit {
        a, b, out := Yield(rs, bs, nid, a, b);
        return true, a, b, out;
      }
      a := a + 1;
    }
    more := false;
  }

  /** Without a second array: every wanted region as it is. */
  function Whole(rs: seq<Region>, nid: int): (r: seq<Range>) {
    if rs == [] then [] else (if Wanted(rs[0], nid) then [AsRange(rs[0])] else []) + Whole(rs[1..], nid)
  }

  function AsRange(m: Region): Range { Range(m.base, End(m), m.attr.nid) }

  /** All ranges, with or without a second array. */
  function Ranges(rs: seq<Region>, ob: Option<seq<Region>>, nid: int): (r: seq<Range>) {
    if ob.Some? then All(rs, ob.value, nid) else Whole(rs, nid)
  }

  /** What is left for regions a and on, gaps b and on. */
  function Left(rs: seq<Region>, ob: Option<seq<Region>>, nid: int, a: nat, b: nat): (r: seq<Range>)
    requires a <= |rs|
  {
    if ob.Some? then Rest(rs, ob.value, nid, a, b) else Whole(rs[a..], nid)
  }

  /** The indices point into the arrays. */
  predicate Inside(rs: seq<Region>, ob: Option<seq<Region>>, a: int, b: int) {
    0 <= a <= |rs| && 0 <= b && if ob.Some? then b <= |ob.value| + 1 else b < 0x7fff_ffff
  }

  /** The search of __next_mem_range() without a second array. */
  method NextRegion(rs: seq<Region>, nid: int, a0: nat) returns (more: bool, a: nat, out: Range)
    requires a0 <= |rs|
    ensures a <= |rs| && (more ==> Whole(rs[a0..], nid) == [out] + Whole(rs[a..], nid))
      && (!more ==> Whole(rs[a0..], nid) == [])
  {
    a, out, more := a0, Range(0, 0, 0), false;
    while a < |rs|
      invariant a0 <= a <= |rs| && Whole(rs[a..], nid) == Whole(rs[a0..], nid)
    {
      assert rs[a..][1..] == rs[a + 1..];
      if Wanted(rs[a], nid) {
        return true, a + 1, AsRange(rs[a]);
      }
      a := a + 1;
    }
  }

  /** The search from a pair of indices, with or without a second array. */
  method NextRange(rs: seq<Region>, ob: Option<seq<Region>>, nid: int, a0: nat, b0: nat)
    returns (more: bool, a: nat, b: nat, out: Range)
    requires Arrays(rs, Gaps(ob)) && Inside(rs, ob, a0, b0)
    ensures more ==> Inside(rs, ob, a, b) && Left(rs, ob, nid, a0, b0) == [out] + Left(rs, ob, nid, a, b)
    ensures !more ==> Left(rs, ob, nid, a0, b0) == []
  {
    b := b0;
    if ob.None? {
      more, a, out := NextRegion(rs, nid, a0);
    } else {
      more, a, b, out := NextPair(rs, ob.value, nid, a0, b0);
    }
  }

  /** What the loop variable leaves to yield. */
  function Coming(rs: seq<Region>, ob: Option<seq<Region>>, nid: int, idx: nat): (r: seq<Range>)
    requires Inside(rs, ob, IdxA(idx), IdxB(idx))
  {
    Left(rs, ob, nid, IdxA(idx), IdxB(idx))
  }

  /** __next_mem_range() */
  method NextMemRange(rs: seq<Region>, ob: Option<seq<Region>>, nid: int, idx: nat) returns (idx': nat, out: Range)
    requires Arrays(rs, Gaps(ob)) && Inside(rs, ob, IdxA(idx), IdxB(idx))
    ensures idx' == ULLONG_MAX ==> Coming(rs, ob, nid, idx) == []
    ensures idx' != ULLONG_MAX ==>
      Inside(rs, ob, IdxA(idx'), IdxB(idx')) && Coming(rs, ob, nid, idx) == [out] + Coming(rs, ob, nid, idx')
  {
    var more, a, b;
    more, a, b, out := NextRange(rs, ob, nid, IdxA(idx), IdxB(idx));
    if !more {
      return ULLONG_MAX, out;
    }
    PackOk(a, b);
    idx' := Pack(a, b);
  }

  lemma {:induction false} ComingAll(rs: seq<Region>, ob: Option<seq<Region>>, nid: int)
    ensures Coming(rs, ob, nid, 0) == Ranges(rs, ob, nid)
  {
    RestAll(rs, Gaps(ob), nid, 0);
    assert rs[0..] == rs;
  }

  /** for_each_mem_range(), for_each_free_mem_range(): every range, in ascending order. */
  method ForEach(rs: seq<Region>, ob: Option<seq<Region>>, nid: int) returns (out: seq<Range>)
    requires Arrays(rs, Gaps(ob))
    ensures out == Ranges(rs, ob, nid)
  {
    out := [];
    ComingAll(rs, ob, nid);
    var i, r := NextMemRange(rs, ob, nid, 0);
    ghost var rest := Coming(rs, ob, nid, 0);
    while i != ULLONG_MAX
      invariant i == ULLONG_MAX ==> rest == []
      invariant i != ULLONG_MAX ==> Inside(rs, ob, IdxA(i), IdxB(i)) && rest == [r] + Coming(rs, ob, nid, i)
      invariant out + rest == Ranges(rs, ob, nid)
      decreases |rest|
    {
      rest := Coming(rs, ob, nid, i);
      Regroup(out, [r], rest);
      out := out + [r];
      i, r := NextMemRange(rs, ob, nid, i);
    }
  }

  /** A region of another node yields nothing. */
  lemma {:induction false} SkipRegion(rs: seq<Region>, bs: seq<Region>, nid: int, a: nat, b: nat)
    requires a < |rs| && b <= |bs| + 1 && !Wanted(rs[a], nid)
    ensures Rest(rs, bs, nid, a, b) == Rest(rs, bs, nid, a + 1, b)
  {
    RowUnwanted(rs[a], bs, nid, b);
  }

  lemma {:induction false} SkipRegionRev(rs: seq<Region>, bs: seq<Region>, nid: int, a: nat, b: nat)
    requires 0 < a <= |rs| && b <= |bs| + 1 && !Wanted(rs[a - 1], nid)
    ensures Pre(rs, bs, nid, a, b) == Pre(rs, bs, nid, a - 1, b)
  {
    RowUnwantedRev(rs[a - 1], bs, nid, b);
  }

  lemma {:induction false} RowUnwanted(m: Region, bs: seq<Region>, nid: int, b: nat)
    requires !Wanted(m, nid) && b <= |bs| + 1
    ensures Row(m, bs, nid, b, |bs| + 1) == []
    decreases |bs| + 1 - b
  {
    if b <= |bs| {
      RowUnwanted(m, bs, nid, b + 1);
    }
  }

  /** The inner loop of __next_mem_range_rev(). */
  method ScanGapsRev(rs: seq<Region>, bs: seq<Region>, nid: int, a: nat, b0: int) returns (hit: bool, b: int)
    requires Ascending(rs) && Ascending(bs) && 0 < a <= |rs| && -1 <= b0 <= |bs|
    ensures -1 <= b <= b0 && (hit ==> b >= 0 && Meet(rs[a - 1], bs, b))
    ensures hit ==> Pre(rs, bs, nid, a, b0 + 1) == Pre(rs, bs, nid, a, b + 1)
    ensures !hit ==> Pre(rs, bs, nid, a, b0 + 1) == Pre(rs, bs, nid, a - 1, b + 1)
  {
    b := b0;
    var m := rs[a - 1];
    while b >= 0
      invariant -1 <= b <= b0 && Pre(rs, bs, nid, a, b + 1) == Pre(rs, bs, nid, a, b0 + 1)
    {
      if GapEnd(bs, b) <= m.base {
        RowBefore(m, bs, nid, b, b + 1);
        return false, b;
      }
      if End(m) > GapStart(bs, b) {
        return true, b;
      }
      DropGapRev(rs, bs, nid, a, b);
      b := b - 1;
    }
    return false, b;
  }

  /** The same downwards: the one that starts last is done with. */
  method YieldRev(rs: seq<Region>, bs: seq<Region>, nid: int, a: nat, b: nat) returns (a': nat, b': nat, out: Range)
    requires Ascending(rs) && Ascending(bs) && 0 < a <= |rs| && b <= |bs| && Wanted(rs[a - 1], nid)
      && Meet(rs[a - 1], bs, b)
    ensures a' <= |rs| && b' <= |bs| && Pre(rs, bs, nid, a, b + 1) == Pre(rs, bs, nid, a', b' + 1) + [out]
  {
    var m, rStart := rs[a - 1], GapStart(bs, b);
    out := Range(Max(m.base, rStart), Min(End(m), GapEnd(bs, b)), m.attr.nid);
    if m.base >= rStart {
      MeetRegionStarts(rs, bs, nid, a, b);
      a', b' := a - 1, b;
    } else {
      MeetGapStarts(rs, bs, nid, a, b);
      a', b' := a, b - 1;
    }
  }

  /** The search of __next_mem_range_rev() from region a - 1 and gap b downwards. */
  method PrevPair(rs: seq<Region>, bs: seq<Region>, nid: int, a0: nat, b0: int)
    returns (more: bool, a: nat, b: int, out: Range)
    requires Ascending(rs) && Ascending(bs) && a0 <= |rs| && -1 <= b0 <= |bs|
    ensures a <= |rs| && -1 <= b <= |bs| && (more ==> b >= 0)
    ensures more ==> Pre(rs, bs, nid, a0, b0 + 1) == Pre(rs, bs, nid, a, b + 1) + [out]
    ensures !more ==> Pre(rs, bs, nid, a0, b0 + 1) == []
  {
    more, a, b := SeekRev(rs, bs, nid, a0, b0, Pre(rs, bs, nid, a0, b0 + 1));
    out := Range(0, 0, 0);
    if more {
      a, b, out := YieldRev(rs, bs, nid, a, b);
    }
  }

  /** Its loop over the regions: the next region and gap that meet, if any. */
  method SeekRev(rs: seq<Region>, bs: seq<Region>, nid: int, a0: nat, b0: int, ghost rest: seq<Range>)
    returns (hit: bool, a: nat, b: int)
    requires Ascending(rs) && Ascending(bs) && a0 <= |rs| && -1 <= b0 <= |bs| && rest == Pre(rs, bs, nid, a0, b0 + 1)
    ensures a <= |rs| && -1 <= b <= |bs| && rest == Pre(rs, bs, nid, a, b + 1)
    ensures if hit then a > 0 && b >= 0 && Wanted(rs[a - 1], nid) && Meet(rs[a - 1], bs, b) else a == 0
  {
    a, b, hit := a0, b0, false;
    while a > 0
      invariant a <= |rs| && -1 <= b <= |bs| && rest == Pre(rs, bs, nid, a, b + 1) && !hit
    {
      hit, b := TryRegionRev(rs, bs, nid, a, b);
      if hit {
        return;
      }
      a := a - 1;
    }
  }

  /** One turn of that loop, at region a - 1. */
  method TryRegionRev(rs: seq<Region>, bs: seq<Region>, nid: int, a: nat, b0: int) returns (hit: bool, b: int)
    requires Ascending(rs) && Ascending(bs) && 0 < a <= |rs| && -1 <= b0 <= |bs|
    ensures -1 <= b <= |bs| && (hit ==> b >= 0 && Wanted(rs[a - 1], nid) && Meet(rs[a - 1], bs, b))
    ensures hit ==> Pre(rs, bs, nid, a, b0 + 1) == Pre(rs, bs, nid, a, b + 1)
    ensures !hit ==> Pre(rs, bs, nid, a, b0 + 1) == Pre(rs, bs, nid, a - 1, b + 1)
  {
    if Wanted(rs[a - 1], nid) {
      hit, b := ScanGapsRev(rs, bs, nid, a, b0);
    } else {
      SkipRegionRev(rs, bs, nid, a, b0 + 1);
      hit, b := false, b0;
    }
  }

  lemma {:induction false} RowUnwantedRev(m: Region, bs: seq<Region>, nid: int, b: nat)
    requires !Wanted(m, nid) && b <= |bs| + 1
    ensures Row(m, bs, nid, 0, b) == []
  {
    if b > 0 {
      RowUnwantedRev(m, bs, nid, b - 1);
      RowSnoc(m, bs, nid, 0, b - 1);
    }
  }

  /** What is left for regions up to a, gaps up to b. */
  function LeftRev(rs: seq<Region>, ob: Option<seq<Region>>, nid: int, a: nat, b: nat): (r: seq<Range>)
    requires a <= |rs|
  {
    if ob.Some? then Pre(rs, ob.value, nid, a, b) else Whole(rs[..a], nid)
  }

  predicate InsideRev(rs: seq<Region>, ob: Option<seq<Region>>, a: int, b: int) {
    -1 <= a < |rs| && 0 <= b && if ob.Some? then b <= |ob.value| else b < 0x7fff_ffff
  }

  lemma {:induction false} WholeSnoc(rs: seq<Region>, nid: int, m: Region)
    ensures Whole(rs + [m], nid) == Whole(rs, nid) + if Wanted(m, nid) then [AsRange(m)] else []
  {
    if rs == [] {
      assert rs + [m] == [m] && [m][1..] == [];
    } else {
      assert (rs + [m])[1..] == rs[1..] + [m];
      WholeSnoc(rs[1..], nid, m);
      Regroup(if Wanted(rs[0], nid) then [AsRange(rs[0])] else [], Whole(rs[1..], nid), if Wanted(m, nid) then
          [AsRange(m)] else []);
    }
  }

  /** The search of __next_mem_range_rev() without a second array. */
  method PrevRegion(rs: seq<Region>, nid: int, a0: nat) returns (more: bool, a: nat, out: Range)
    requires a0 <= |rs|
    ensures a <= |rs| && (more ==> Whole(rs[..a0], nid) == Whole(rs[..a], nid) + [out])
      && (!more ==> Whole(rs[..a0], nid) == [])
  {
    a, out, more := a0, Range(0, 0, 0), false;
    while a > 0
      invariant a <= a0 && Whole(rs[..a], nid) == Whole(rs[..a0], nid)
    {
      assert rs[..a] == rs[..a - 1] + [rs[a - 1]];
      WholeSnoc(rs[..a - 1], nid, rs[a - 1]);
      if Wanted(rs[a - 1], nid) {
        return true, a - 1, AsRange(rs[a - 1]);
      }
      a := a - 1;
    }
  }

  /** The search from region a - 1 and gap b downwards, with or without a second array. */
  method PrevRange(rs: seq<Region>, ob: Option<seq<Region>>, nid: int, a0: nat, b0: nat)
    returns (more: bool, a: nat, b: nat, out: Range)
    requires Arrays(rs, Gaps(ob)) && InsideRev(rs, ob, a0 - 1, b0)
    ensures more ==>
      InsideRev(rs, ob, a - 1, b) && LeftRev(rs, ob, nid, a0, b0 + 1) == LeftRev(rs, ob, nid, a, b + 1) + [out]
    ensures !more ==> LeftRev(rs, ob, nid, a0, b0 + 1) == []
  {
    b := b0;
    if ob.None? {
      more, a, out := PrevRegion(rs, nid, a0);
    } else {
      var b': int;
      more, a, b', out := PrevPair(rs, ob.value, nid, a0, b0);
      b := if more then b' else 0;
    }
  }

  /** What the loop variable leaves to yield; ULLONG_MAX starts the loop. */
  function Pending(rs: seq<Region>, ob: Option<seq<Region>>, nid: int, idx: nat): (r: seq<Range>)
    requires idx != ULLONG_MAX ==> InsideRev(rs, ob, IdxA(idx), IdxB(idx))
  {
    if idx == ULLONG_MAX then LeftRev(rs, ob, nid, |rs|, |Gaps(ob)| + 1)
      else LeftRev(rs, ob, nid, IdxA(idx) + 1, IdxB(idx) + 1)
  }

  /** The indices to go on from; a counts the regions. */
  method Unpack(rs: seq<Region>, ob: Option<seq<Region>>, ghost nid: int, idx: nat) returns (a: nat, b: nat)
    requires idx != ULLONG_MAX ==> InsideRev(rs, ob, IdxA(idx), IdxB(idx))
    requires Arrays(rs, Gaps(ob))
    ensures InsideRev(rs, ob, a - 1, b) && Pending(rs, ob, nid, idx) == LeftRev(rs, ob, nid, a, b + 1)
  {
    if idx == ULLONG_MAX {
      a, b := |rs|, |Gaps(ob)|;
    } else {
      a, b := IdxA(idx) + 1, IdxB(idx);
    }
  }

  lemma {:induction false} PackPending(rs: seq<Region>, ob: Option<seq<Region>>, nid: int, a: nat, b: nat)
    requires Arrays(rs, Gaps(ob)) && InsideRev(rs, ob, a - 1, b)
    ensures var idx := Pack(a - 1, b);
      && idx != ULLONG_MAX && InsideRev(rs, ob, IdxA(idx), IdxB(idx))
      && Pending(rs, ob, nid, idx) == LeftRev(rs, ob, nid, a, b + 1)
  {
    PackOk(a - 1, b);
  }

  /** __next_mem_range_rev() */
  method NextMemRangeRev(rs: seq<Region>, ob: Option<seq<Region>>, nid: int, idx: nat) returns (idx': nat, out: Range)
    requires Arrays(rs, Gaps(ob)) && (idx != ULLONG_MAX ==> InsideRev(rs, ob, IdxA(idx), IdxB(idx)))
    ensures idx' == ULLONG_MAX ==> Pending(rs, ob, nid, idx) == []
    ensures idx' != ULLONG_MAX ==>
      InsideRev(rs, ob, IdxA(idx'), IdxB(idx')) && Pending(rs, ob, nid, idx) == Pending(rs, ob, nid, idx') + [out]
  {
    var a: int, b: nat := Unpack(rs, ob, nid, idx);
    var more;
    more, a, b, out := PrevRange(rs, ob, nid, a, b);
    if !more {
      return ULLONG_MAX, out;
    }
    PackPending(rs, ob, nid, a, b);
    idx' := Pack(a - 1, b);
  }

  function Reverse(s: seq<Range>): (r: seq<Range>) { if s == [] then [] else [s[|s| - 1]] + Reverse(s[..|s| - 1]) }

  lemma {:induction false} ReverseSnoc(out: seq<Range>, s: seq<Range>, r: Range)
    ensures out + Reverse(s + [r]) == out + [r] + Reverse(s)
  {
    assert (s + [r])[..|s|] == s;
  }

  lemma {:induction false} PendingAll(rs: seq<Region>, ob: Option<seq<Region>>, nid: int)
    ensures Pending(rs, ob, nid, ULLONG_MAX) == Ranges(rs, ob, nid)
  {
    PreAll(rs, Gaps(ob), nid, |rs|);
    assert rs[..|rs|] == rs;
  }

  /** for_each_mem_range_rev(), for_each_free_mem_range_reverse(): the same ranges, reversed. */
  method ForEachReverse(rs: seq<Region>, ob: Option<seq<Region>>, nid: int) returns (out: seq<Range>)
    requires Arrays(rs, Gaps(ob))
    ensures out == Reverse(Ranges(rs, ob, nid))
  {
    out := [];
    PendingAll(rs, ob, nid);
    var i, r := NextMemRangeRev(rs, ob, nid, ULLONG_MAX);
    ghost var rest := Pending(rs, ob, nid, ULLONG_MAX);
    while i != ULLONG_MAX
      invariant i == ULLONG_MAX ==> rest == []
      invariant i != ULLONG_MAX ==> InsideRev(rs, ob, IdxA(i), IdxB(i)) && rest == Pending(rs, ob, nid, i) + [r]
      invariant out + Reverse(rest) == Reverse(Ranges(rs, ob, nid))
      decreases |rest|
    {
      rest := Pending(rs, ob, nid, i);
      ReverseSnoc(out, rest, r);
      out := out + [r];
      i, r := NextMemRangeRev(rs, ob, nid, i);
    }
  }

  // ---- what the ranges are ----

  predicate InSome(s: seq<Range>, x: Addr) { s != [] && (s[0].start <= x < s[0].end || InSome(s[1..], x)) }

  /** x lies in a gap from lo on. */
  predicate InGap(bs: seq<Region>, lo: nat, x: Addr)
    decreases |bs| + 1 - lo
  {
    lo <= |bs| && (GapStart(bs, lo) <= x < GapEnd(bs, lo) || InGap(bs, lo + 1, x))
  }

  /** x lies in a memory region of the wanted node. */
  predicate InMemory(rs: seq<Region>, nid: int, x: Addr) {
    rs != [] && ((Wanted(rs[0], nid) && Holds(rs[0], x)) || InMemory(rs[1..], nid, x))
  }

  /** x lies in the region, whose node is nid; -1 stands for any node, and so does 64. */
  predicate RegionOfNode(m: Region, nid: int, x: Addr) {
    m.base <= x < m.base + m.size && (nid == -1 || nid == 64 || m.attr.nid == nid)
  }

  /** x lies in a region of node nid. */
  ghost predicate OfNode(rs: seq<Region>, nid: int, x: Addr) {
    exists i :: 0 <= i < |rs| && RegionOfNode(rs[i], nid, x)
  }

  lemma {:induction false} InMemoryIs(rs: seq<Region>, nid: int, x: Addr)
    ensures InMemory(rs, nid, x) <==> OfNode(rs, nid, x)
  {
    if rs != [] {
      InMemoryIs(rs[1..], nid, x);
      if OfNode(rs[1..], nid, x) {
        var i :| 0 <= i < |rs| - 1 && RegionOfNode(rs[1..][i], nid, x);
        assert rs[i + 1] == rs[1..][i];
      }
      if i :| 0 < i < |rs| && RegionOfNode(rs[i], nid, x) {
        assert rs[1..][i - 1] == rs[i];
      }
    }
  }

  lemma {:induction false} InSomeJoin(a: seq<Range>, b: seq<Range>, x: Addr)
    ensures InSome(a + b, x) <==> InSome(a, x) || InSome(b, x)
  {
    if a == [] {
      assert a + b == b;
    } else {
      assert (a + b)[1..] == a[1..] + b;
      InSomeJoin(a[1..], b, x);
    }
  }

  lemma {:induction false} RowCovers(m: Region, bs: seq<Region>, nid: int, lo: nat, x: Addr)
    requires lo <= |bs| + 1
    ensures InSome(Row(m, bs, nid, lo, |bs| + 1), x) <==> Wanted(m, nid) && Holds(m, x) && InGap(bs, lo, x)
    decreases |bs| + 1 - lo
  {
    if lo <= |bs| {
      RowCovers(m, bs, nid, lo + 1, x);
      RowHead(m, bs, nid, lo, |bs| + 1);
      InSomeJoin(Piece(m, bs, nid, lo), Row(m, bs, nid, lo + 1, |bs| + 1), x);
      PieceCovers(m, bs, nid, lo, x);
    }
  }

  lemma {:induction false} PieceCovers(m: Region, bs: seq<Region>, nid: int, b: nat, x: Addr)
    requires b <= |bs|
    ensures InSome(Piece(m, bs, nid, b), x) <==> Wanted(m, nid) && Holds(m, x) && GapStart(bs, b) <= x < GapEnd(bs, b)
  {
    assert [Common(m, bs, b)][1..] == [];
  }

  /** The gaps are exactly the addresses that are not reserved. */
  lemma {:induction false} GapsAreFree(bs: seq<Region>, lo: nat, x: Addr)
    requires Ascending(bs) && lo <= |bs| && GapStart(bs, lo) <= x < ULLONG_MAX
    ensures InGap(bs, lo, x) <==> Lookup(bs[lo..], x) == None
    decreases |bs| - lo
  {
    if lo < |bs| {
      assert bs[lo..][1..] == bs[lo + 1..];
      if x < End(bs[lo]) {
        NoLaterGap(bs, lo + 1, x);
        NotLater(bs, lo + 1, x);
      } else {
        GapsAreFree(bs, lo + 1, x);
      }
    }
  }

  lemma {:induction false} NoLaterGap(bs: seq<Region>, lo: nat, x: Addr)
    requires Ascending(bs) && lo <= |bs| && x < GapStart(bs, lo)
    ensures !InGap(bs, lo, x)
    decreases |bs| - lo
  {
    if lo < |bs| {
      GapsAscend(bs, lo, lo + 1);
      GapOrder(bs, lo);
      NoLaterGap(bs, lo + 1, x);
    }
  }

  lemma {:induction false} NotLater(bs: seq<Region>, lo: nat, x: Addr)
    requires Ascending(bs) && 0 < lo <= |bs| && x < End(bs[lo - 1])
    ensures Lookup(bs[lo..], x) == None
    decreases |bs| - lo
  {
    if lo < |bs| {
      assert bs[lo..][1..] == bs[lo + 1..];
      assert End(bs[lo - 1]) <= bs[lo].base;
      NotLater(bs, lo + 1, x);
    }
  }

  /** A byte is in a yielded range exactly when it is in a region of the node asked for and not reserved. */
  lemma {:induction false} YieldedOfNode(rs: seq<Region>, bs: seq<Region>, nid: int, x: Addr)
    requires Ascending(rs) && Ascending(bs)
    ensures InSome(All(rs, bs, nid), x) <==> OfNode(rs, nid, x) && Lookup(bs, x) == None
  {
    AllCovers(rs, bs, nid, x);
    InMemoryIs(rs, nid, x);
  }

  /** Without a second array, exactly when it is in a region of the node asked for. */
  lemma {:induction false} WholeOfNode(rs: seq<Region>, nid: int, x: Addr)
    ensures InSome(Whole(rs, nid), x) <==> OfNode(rs, nid, x)
  {
    WholeCovers(rs, nid, x);
    InMemoryIs(rs, nid, x);
  }

  lemma {:induction false} WholeCovers(rs: seq<Region>, nid: int, x: Addr)
    ensures InSome(Whole(rs, nid), x) <==> InMemory(rs, nid, x)
  {
    if rs != [] {
      WholeCovers(rs[1..], nid, x);
      var head := if Wanted(rs[0], nid) then [AsRange(rs[0])] else [];
      InSomeJoin(head, Whole(rs[1..], nid), x);
      if head != [] { assert head[1..] == []; }
    }
  }

  /** The union of the yielded ranges is memory without the reserved addresses. */
  lemma {:induction false} AllCovers(rs: seq<Region>, bs: seq<Region>, nid: int, x: Addr)
    requires Ascending(rs) && Ascending(bs)
    ensures InSome(All(rs, bs, nid), x) <==> InMemory(rs, nid, x) && Lookup(bs, x) == None
  {
    if rs != [] {
      var row := Row(rs[0], bs, nid, 0, |bs| + 1);
      AllCovers(rs[1..], bs, nid, x);
      RowCovers(rs[0], bs, nid, 0, x);
      InSomeJoin(row, All(rs[1..], bs, nid), x);
      if Holds(rs[0], x) {
        assert rs[0] in rs;
        GapsAreFree(bs, 0, x);
        assert bs[0..] == bs;
      }
    }
  }

  /** Ranges start at lo or above and ascend without overlap up to hi. */
  predicate Ordered(s: seq<Range>, lo: Addr, hi: Addr) {
    if s == [] then lo <= hi else lo <= s[0].start <= s[0].end && Ordered(s[1..], s[0].end, hi)
  }

  lemma {:induction false} OrderedJoin(a: seq<Range>, b: seq<Range>, lo: Addr, mid: Addr, hi: Addr)
    requires Ordered(a, lo, mid) && Ordered(b, mid, hi)
    ensures Ordered(a + b, lo, hi)
  {
    if a == [] {
      assert a + b == b;
      OrderedDown(b, mid, lo, hi);
    } else {
      assert (a + b)[1..] == a[1..] + b;
      OrderedJoin(a[1..], b, a[0].end, mid, hi);
    }
  }

  lemma {:induction false} OrderedDown(s: seq<Range>, lo: Addr, lo': Addr, hi: Addr)
    requires Ordered(s, lo, hi) && lo' <= lo
    ensures Ordered(s, lo', hi)
  {
  }

  lemma {:induction false} RowOrdered(m: Region, bs: seq<Region>, nid: int, lo: nat, from: Addr)
    requires Ascending(bs) && lo <= |bs| + 1 && from <= End(m)
    requires lo <= |bs| ==> from <= Max(m.base, GapStart(bs, lo))
    ensures Ordered(Row(m, bs, nid, lo, |bs| + 1), from, End(m))
    decreases |bs| + 1 - lo
  {
    if lo <= |bs| {
      var p := Piece(m, bs, nid, lo);
      RowHead(m, bs, nid, lo, |bs| + 1);
      if lo < |bs| {
        GapsAscend(bs, lo, lo + 1);
        GapOrder(bs, lo);
      }
      if p == [] {
        RowOrdered(m, bs, nid, lo + 1, from);
      } else {
        GapOrder(bs, lo);
        assert (p + Row(m, bs, nid, lo + 1, |bs| + 1))[1..] == Row(m, bs, nid, lo + 1, |bs| + 1);
        RowOrdered(m, bs, nid, lo + 1, p[0].end);
      }
    }
  }

  /** The yielded ranges ascend and are disjoint. */
  lemma {:induction false} AllOrdered(rs: seq<Region>, bs: seq<Region>, nid: int, lo: Addr)
    requires Ascending(rs) && Ascending(bs) && (rs != [] ==> lo <= rs[0].base) && lo <= ULLONG_MAX
    ensures Ordered(All(rs, bs, nid), lo, ULLONG_MAX)
  {
    if rs != [] {
      assert rs[0] in rs && (|rs| > 1 ==> End(rs[0]) <= rs[1].base);
      RowOrdered(rs[0], bs, nid, 0, lo);
      AllOrdered(rs[1..], bs, nid, End(rs[0]));
      OrderedJoin(Row(rs[0], bs, nid, 0, |bs| + 1), All(rs[1..], bs, nid), lo, End(rs[0]), ULLONG_MAX);
    }
  }

  /** The arrays memblock keeps are of the kind the iterators walk. */
  lemma {:induction false} SortedAscends(rs: seq<Region>, lo: Addr)
    requires Sorted(rs, lo)
    ensures Ascending(rs) && forall r <- rs :: lo <= r.base
  {
    if rs != [] {
      SortedAscends(rs[1..], End(rs[0]));
      assert rs == [rs[0]] + rs[1..];
      forall i, j | 0 <= i < j < |rs| ensures End(rs[i]) <= rs[j].base {
        assert rs[j] == rs[1..][j - 1];
        if i > 0 { assert rs[i] == rs[1..][i - 1]; }
      }
    }
  }
}
