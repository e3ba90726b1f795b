/** Early allocation (mm/memblock.c): find an aligned free range, then reserve it. */
module MemblockAlloc {
  import opened Basics
  import opened Bits
  import opened Memblock
  import opened MemblockType
  import opened MemblockIter

  const PAGE_SIZE := 4096
  const L1_CACHE_BITS := 6

  function Clamp(x: Addr, lo: Addr, hi: Addr): Addr { Min(Max(x, lo), hi) }

  /** round_up(x, 1 << k): ((x - 1) | mask) + 1, before truncation to 64 bits */
  function RoundUp(x: Addr, k: nat): (c: Addr)
    requires x > 0
  {
    RoundDown(x - 1, k) + Pow2(k)
  }

  lemma {:induction false} RoundUpOk(x: Addr, k: nat)
    requires x > 0
    ensures Aligned(RoundUp(x, k), k) && x <= RoundUp(x, k)
  {
    RoundDownOk(x - 1, k);
    AlignedPow2(k, k);
    AlignedAdd(RoundDown(x - 1, k), Pow2(k), k);
  }

  /** An aligned block of size bytes at c inside range r, clipped to [start, end]. */
  predicate Fits(r: Range, start: Addr, end: Addr, size: nat, k: nat, c: Addr) {
    Aligned(c, k) && Clamp(r.start, start, end) <= c && c + size <= Clamp(r.end, start, end)
  }

  lemma {:induction false} RoundUpLeast(x: Addr, k: nat, d: Addr)
    requires x > 0 && Aligned(d, k) && x <= d
    ensures RoundUp(x, k) <= d
  {
    RoundDownOk(x - 1, k);
    if d < RoundUp(x, k) { AlignedApart(RoundDown(x - 1, k), d, k); }
  }

  /** c is the lowest place in the range. */
  ghost predicate Lowest(r: Range, start: Addr, end: Addr, size: nat, k: nat, c: Addr) {
    Fits(r, start, end, size, k, c) && forall d: Addr :: Fits(r, start, end, size, k, d) ==> c <= d
  }

  /** The first candidate of a range decides it; rounding past 2^64 leaves 0 and nothing above can fit. */
  lemma {:induction false} LowCandidate(r: Range, start: Addr, end: Addr, size: nat, k: nat)
    requires 0 < start <= end <= ULLONG_MAX && size > 0 && k < 64
    ensures var (lo, hi) := (Clamp(r.start, start, end), Clamp(r.end, start, end));
      var cand := RoundUp(lo, k) % (ULLONG_MAX + 1);
      && (cand < hi && hi - cand >= size && cand != 0 ==> Lowest(r, start, end, size, k, cand))
      && (!(cand < hi && hi - cand >= size) || cand == 0 ==> NoRoom(r, start, end, size, k))
      && (cand == 0 ==> NothingFrom(lo, k))
  {
    var lo := Clamp(r.start, start, end);
    RoundUpOk(lo, k);
    WrapsToZero(lo, k);
    forall d: Addr | Fits(r, start, end, size, k, d) ensures RoundUp(lo, k) <= d { RoundUpLeast(lo, k, d); }
    forall d: Addr | lo <= d && Aligned(d, k) ensures RoundUp(lo, k) <= d { RoundUpLeast(lo, k, d); }
  }

  /** No address of 64 bits from lo on is aligned. */
  ghost predicate NothingFrom(lo: Addr, k: nat) { forall d: Addr :: lo <= d && Aligned(d, k) ==> d > ULLONG_MAX }

  lemma {:induction false} NothingAbove(s: seq<Range>, i: nat, j: nat, lo: Addr, start: Addr, end: Addr, size: nat,
                            k: nat)
    requires Ordered(s, lo, ULLONG_MAX) && i <= j < |s| && start <= end <= ULLONG_MAX
      && NothingFrom(Clamp(s[i].start, start, end), k)
    ensures NoRoom(s[j], start, end, size, k)
  {
    OrderedStarts(s, lo, i, j);
    forall d: Addr ensures !Fits(s[j], start, end, size, k, d) {
      assert Clamp(s[i].start, start, end) <= Clamp(s[j].start, start, end);
    }
  }

  lemma {:induction false} OrderedStarts(s: seq<Range>, lo: Addr, i: nat, j: nat)
    requires Ordered(s, lo, ULLONG_MAX) && i <= j < |s|
    ensures lo <= s[i].start <= s[j].start
  {
    if i > 0 {
      OrderedStarts(s[1..], s[0].end, i - 1, j - 1);
    } else if j > 0 {
      OrderedStarts(s[1..], s[0].end, 0, j - 1);
    }
  }

  /** __memblock_find_range_bottom_up(): the lowest place in the first range with room; the candidate is truncated
      to 64 bits. */
  method FindBottomUp(rs: seq<Region>, bs: seq<Region>, nid: int, start: Addr, end: Addr, size: nat, k: nat)
    returns (c: Addr, ghost at: int)
    requires Arrays(rs, bs) && 0 < start <= end <= ULLONG_MAX && size > 0 && k < 64
    ensures c != 0 ==> 0 <= at < |All(rs, bs, nid)| && Lowest(All(rs, bs, nid)[at], start, end, size, k, c)
    ensures c != 0 ==> forall j :: 0 <= j < at ==> NoRoom(All(rs, bs, nid)[j], start, end, size, k)
    ensures c == 0 ==> forall j :: 0 <= j < |All(rs, bs, nid)| ==> NoRoom(All(rs, bs, nid)[j], start, end, size, k)
  {
    var ranges := ForEach(rs, Some(bs), nid);
    AllOrdered(rs, bs, nid, 0);
    var i := 0;
    while i < |ranges|
      invariant 0 <= i <= |ranges| && forall j :: 0 <= j < i ==> NoRoom(ranges[j], start, end, size, k)
    {
      var (thisStart, thisEnd) := (Clamp(ranges[i].start, start, end), Clamp(ranges[i].end, start, end));
      var cand := RoundUp(thisStart, k) % (ULLONG_MAX + 1);
      LowCandidate(ranges[i], start, end, size, k);
      if cand < thisEnd && thisEnd - cand >= size {
        if cand == 0 {
          forall j | i <= j < |ranges| ensures NoRoom(ranges[j], start, end, size, k) {
            NothingAbove(ranges, i, j, 0, start, end, size, k);
          }
        }
        at := i;
        return cand, at;
      }
      i := i + 1;
    }
    return 0, -1;
  }

  /** Rounding up past 2^64 leaves 0, which means failure. */
  lemma {:induction false} WrapsToZero(x: Addr, k: nat)
    requires 0 < x <= ULLONG_MAX && k < 64
    ensures RoundUp(x, k) <= ULLONG_MAX + 1
  {
    RoundDownOk(x - 1, k);
    var w := 64;
    Pow2Word(w);
    AlignedPow2(k, w);
    AlignedApart(RoundDown(x - 1, k), Pow2(w), k);
  }

  /** No aligned block fits in the range. */
  ghost predicate NoRoom(r: Range, start: Addr, end: Addr, size: nat, k: nat) {
    forall d: Addr :: !Fits(r, start, end, size, k, d)
  }

  lemma {:induction false} TopIsBest(r: Range, start: Addr, end: Addr, size: nat, k: nat)
    requires var top := Clamp(r.end, start, end); top >= size ==> RoundDown(top - size, k) < Clamp(r.start, start, end)
    ensures NoRoom(r, start, end, size, k)
  {
    var top := Clamp(r.end, start, end);
    forall d: Addr ensures !Fits(r, start, end, size, k, d) {
      if Fits(r, start, end, size, k, d) { RoundDownGreatest(top - size, k, d); }
    }
  }

  /** __memblock_find_range_top_down(): fails only when no free range has room. */
  method FindTopDown(rs: seq<Region>, bs: seq<Region>, nid: int, start: Addr, end: Addr, size: nat, k: nat)
    returns (c: Addr, ghost at: int)
    requires Arrays(rs, bs) && 0 < start <= end <= ULLONG_MAX && size > 0 && k < 64
    ensures c != 0 ==> 0 <= at < |All(rs, bs, nid)| && Highest(All(rs, bs, nid)[at], start, end, size, k, c)
    ensures c != 0 ==> forall j :: at < j < |All(rs, bs, nid)| ==> NoRoom(All(rs, bs, nid)[j], start, end, size, k)
    ensures c == 0 ==> forall j :: 0 <= j < |All(rs, bs, nid)| ==> NoRoom(All(rs, bs, nid)[j], start, end, size, k)
  {
    var ranges := ForEachReverse(rs, Some(bs), nid);
    ghost var all := All(rs, bs, nid);
    ReverseIndex(all);
    var i := 0;
    while i < |ranges|
      invariant 0 <= i <= |ranges| && forall j :: 0 <= j < i ==> NoRoom(ranges[j], start, end, size, k)
    {
      c := TopOf(ranges[i], start, end, size, k);
      forall j | |all| - 1 - i < j < |all|
        ensures NoRoom(all[j], start, end, size, k) { assert ranges[|all| - 1 - j] == all[j]; }
      if c != 0 {
        at := |all| - 1 - i;
        return;
      }
      i := i + 1;
    }
    forall j | 0 <= j < |all| ensures NoRoom(all[j], start, end, size, k) { assert ranges[|all| - 1 - j] == all[j]; }
    return 0, -1;
  }

  /** c is the highest place in the range. */
  ghost predicate Highest(r: Range, start: Addr, end: Addr, size: nat, k: nat, c: Addr) {
    Fits(r, start, end, size, k, c) && forall d: Addr :: Fits(r, start, end, size, k, d) ==> d <= c
  }

  /** The highest aligned block in one range; 0 if there is none. */
  method TopOf(r: Range, start: Addr, end: Addr, size: nat, k: nat) returns (c: Addr)
    requires 0 < start <= end && size > 0
    ensures if c != 0 then Highest(r, start, end, size, k, c) else NoRoom(r, start, end, size, k)
  {
    var (thisStart, thisEnd) := (Clamp(r.start, start, end), Clamp(r.end, start, end));
    if thisEnd >= size {
      c := RoundDown(thisEnd - size, k);
      RoundDownOk(thisEnd - size, k);
      if c >= thisStart {
        forall d: Addr | Fits(r, start, end, size, k, d) ensures d <= c { RoundDownGreatest(thisEnd - size, k, d); }
        return;
      }
    }
    TopIsBest(r, start, end, size, k);
    c := 0;
  }

  lemma {:induction false} ReverseIndex(s: seq<Range>)
    ensures |Reverse(s)| == |s| && forall i :: 0 <= i < |s| ==> Reverse(s)[i] == s[|s| - 1 - i]
  {
    if s != [] {
      ReverseIndex(s[..|s| - 1]);
    }
  }

  lemma {:induction false} InSomeAt(s: seq<Range>, i: nat, x: Addr)
    requires i < |s| && s[i].start <= x < s[i].end
    ensures InSome(s, x)
  {
    if i > 0 {
      InSomeAt(s[1..], i - 1, x);
    }
  }

  /** A block that fits in a yielded range is memory and not reserved. */
  lemma {:induction false} FitsIsFree(rs: seq<Region>, bs: seq<Region>, nid: int, at: nat, start: Addr, end: Addr,
                            size: nat, k: nat, c: Addr)
    requires Ascending(rs) && Ascending(bs) && at < |All(rs, bs, nid)| && start <= end && size > 0
    requires Fits(All(rs, bs, nid)[at], start, end, size, k, c)
    ensures start <= c && c + size <= end
    ensures forall x: Addr :: c <= x < c + size ==> OfNode(rs, nid, x) && Lookup(bs, x) == None
  {
    forall x: Addr | c <= x < c + size ensures OfNode(rs, nid, x) && Lookup(bs, x) == None {
      InSomeAt(All(rs, bs, nid), at, x);
      YieldedOfNode(rs, bs, nid, x);
    }
  }

  // ---- places over all ranges ----

  /** An aligned block of size bytes at d lies in one of the ranges, between lo and hi. */
  ghost predicate Spot(all: seq<Range>, lo: Addr, hi: Addr, size: nat, k: nat, d: Addr) {
    exists j :: 0 <= j < |all| && Aligned(d,
        k) && lo <= d && all[j].start <= d && d + size <= all[j].end && d + size <= hi
  }

  ghost predicate NoSpot(all: seq<Range>, lo: Addr, hi: Addr, size: nat, k: nat) {
    forall d: Addr :: !Spot(all, lo, hi, size, k, d)
  }

  ghost predicate LowestSpot(all: seq<Range>, lo: Addr, hi: Addr, size: nat, k: nat, c: Addr) {
    Spot(all, lo, hi, size, k, c) && forall d: Addr :: Spot(all, lo, hi, size, k, d) ==> c <= d
  }

  ghost predicate HighestSpot(all: seq<Range>, lo: Addr, hi: Addr, size: nat, k: nat, c: Addr) {
    Spot(all, lo, hi, size, k, c) && forall d: Addr :: Spot(all, lo, hi, size, k, d) ==> d <= c
  }

  /** Clipping the range and clipping the block are the same. */
  lemma {:induction false} FitsSpot(r: Range, lo: Addr, hi: Addr, size: nat, k: nat, d: Addr)
    requires lo <= hi && size > 0
    ensures Fits(r, lo, hi, size, k, d) <==>
      Aligned(d, k) && lo <= d && r.start <= d && d + size <= r.end && d + size <= hi
  {
  }

  lemma {:induction false} NoRoomNoSpot(all: seq<Range>, lo: Addr, hi: Addr, size: nat, k: nat)
    requires lo <= hi && size > 0 && forall j :: 0 <= j < |all| ==> NoRoom(all[j], lo, hi, size, k)
    ensures NoSpot(all, lo, hi, size, k)
  {
    forall d: Addr ensures !Spot(all, lo, hi, size, k, d) {
      if Spot(all, lo, hi, size, k, d) {
        var j :| 0 <= j < |all| && Aligned(d, k) && lo <= d && all[j].start <= d && d + size <= all[j].end
          && d + size <= hi;
        FitsSpot(all[j], lo, hi, size, k, d);
      }
    }
  }

  lemma {:induction false} OrderedApart(s: seq<Range>, lo: Addr, i: nat, j: nat)
    requires Ordered(s, lo, ULLONG_MAX) && i < j < |s|
    ensures s[i].end <= s[j].start
  {
    if i > 0 {
      OrderedApart(s[1..], s[0].end, i - 1, j - 1);
    } else {
      OrderedStarts(s[1..], s[0].end, 0, j - 1);
    }
  }

  /** The lowest place of the first range with room is the lowest of all. */
  lemma {:induction false} LowestOfAll(all: seq<Range>, at: nat, lo: Addr, hi: Addr, size: nat, k: nat, c: Addr)
    requires Ordered(all, 0, ULLONG_MAX) && at < |all| && lo <= hi && size > 0 && Lowest(all[at], lo, hi, size, k, c)
    requires forall j :: 0 <= j < at ==> NoRoom(all[j], lo, hi, size, k)
    ensures LowestSpot(all, lo, hi, size, k, c)
  {
    FitsSpot(all[at], lo, hi, size, k, c);
    forall d: Addr | Spot(all, lo, hi, size, k, d) ensures c <= d {
      var j :| 0 <= j < |all| && Aligned(d, k) && lo <= d && all[j].start <= d && d + size <= all[j].end
        && d + size <= hi;
      FitsSpot(all[j], lo, hi, size, k, d);
      if j > at { OrderedApart(all, 0, at, j); }
    }
  }

  lemma {:induction false} HighestOfAll(all: seq<Range>, at: nat, lo: Addr, hi: Addr, size: nat, k: nat, c: Addr)
    requires Ordered(all, 0, ULLONG_MAX) && at < |all| && lo <= hi && size > 0 && Highest(all[at], lo, hi, size, k, c)
    requires forall j :: at < j < |all| ==> NoRoom(all[j], lo, hi, size, k)
    ensures HighestSpot(all, lo, hi, size, k, c)
  {
    FitsSpot(all[at], lo, hi, size, k, c);
    forall d: Addr | Spot(all, lo, hi, size, k, d) ensures d <= c {
      var j :| 0 <= j < |all| && Aligned(d, k) && lo <= d && all[j].start <= d && d + size <= all[j].end
        && d + size <= hi;
      FitsSpot(all[j], lo, hi, size, k, d);
      if j < at { OrderedApart(all, 0, j, at); }
    }
  }

  /** What is asked of a place: the lowest above the kernel in bottom-up mode if there is one, else the highest. */
  ghost predicate Chosen(all: seq<Range>, bottomUp: bool, kernelEnd: Addr, lo: Addr, hi: Addr, size: nat, k: nat,
                         c: Addr) {
    if bottomUp && hi > kernelEnd && !NoSpot(all, Max(lo, kernelEnd), hi, size, k)
    then LowestSpot(all, Max(lo, kernelEnd), hi, size, k, c)
    else HighestSpot(all, lo, hi, size, k, c)
  }

  /** What is chosen is a place between the limits. */
  lemma {:induction false} NoneChosen(all: seq<Range>, bottomUp: bool, kernelEnd: Addr, lo: Addr, hi: Addr,
                            size: nat, k: nat, c: Addr)
    requires Chosen(all, bottomUp, kernelEnd, lo, hi, size, k, c)
    ensures Spot(all, lo, hi, size, k, c)
  {
    if bottomUp && hi > kernelEnd && !NoSpot(all, Max(lo, kernelEnd), hi, size, k) {
      assert Spot(all, Max(lo, kernelEnd), hi, size, k, c);
      var j :| 0 <= j < |all| && Aligned(c, k) && Max(lo, kernelEnd) <= c && all[j].start <= c
        && c + size <= all[j].end && c + size <= hi;
    }
  }

  lemma {:induction false} ValidAscends(rs: seq<Region>)
    requires Dummy(rs) || Minimal(rs)
    ensures Ascending(rs)
  {
    if !Dummy(rs) {
      SortedAscends(rs, 0);
    }
  }

  predicate Disjoint(a: (Addr, nat), b: (Addr, nat)) { a.0 + a.1 <= b.0 || b.0 + b.1 <= a.0 }

  ghost predicate Reserved(rs: seq<Region>, l: (Addr, nat)) {
    forall x: Addr :: l.0 <= x < l.0 + l.1 ==> Lookup(rs, x).Some?
  }

  lemma {:induction false} FreeIsDisjoint(rs: seq<Region>, l: (Addr, nat), c: Addr, size: nat)
    requires Reserved(rs, l) && l.1 > 0 && size > 0 && forall x: Addr :: c <= x < c + size ==> Lookup(rs, x) == None
    ensures Disjoint(l, (c, size))
  {
    assert Lookup(rs, Max(l.0, c)) == None || Lookup(rs, Max(l.0, c)).Some?;
  }

  /** The exponent of the alignment, the cache line's when none is asked for. */
  ghost function Shift(align: nat, k: nat): nat { if align != 0 then k else L1_CACHE_BITS }

  /** The array has room for the regions that covering the range adds. */
  predicate CanTake(rs: seq<Region>, max: nat, base: Addr, size: nat) {
    |Live(rs)| + CountNew(Live(rs), base, base + size) <= max
  }

  /** The bottom-up search. */
  method LowestFree(rs: seq<Region>, bs: seq<Region>, nid: int, start: Addr, end: Addr, size: nat, k: nat)
    returns (c: Addr)
    requires Arrays(rs, bs) && 0 < start <= end <= ULLONG_MAX && size > 0 && k < 64
    ensures c == 0 <==> NoSpot(All(rs, bs, nid), start, end, size, k)
    ensures c != 0 ==> LowestSpot(All(rs, bs, nid), start, end, size, k, c)
    ensures c != 0 ==> start <= c && c + size <= end && Aligned(c, k)
    ensures c != 0 ==> forall x: Addr :: c <= x < c + size ==> OfNode(rs, nid, x) && Lookup(bs, x) == None
  {
    ghost var at;
    c, at := FindBottomUp(rs, bs, nid, start, end, size, k);
    if c == 0 {
      NoRoomNoSpot(All(rs, bs, nid), start, end, size, k);
    } else {
      AllOrdered(rs, bs, nid, 0);
      LowestOfAll(All(rs, bs, nid), at, start, end, size, k, c);
      FitsIsFree(rs, bs, nid, at, start, end, size, k, c);
    }
  }

  /** The top-down search. */
  method HighestFree(rs: seq<Region>, bs: seq<Region>, nid: int, start: Addr, end: Addr, size: nat, k: nat)
    returns (c: Addr)
    requires Arrays(rs, bs) && 0 < start <= end <= ULLONG_MAX && size > 0 && k < 64
    ensures c == 0 <==> NoSpot(All(rs, bs, nid), start, end, size, k)
    ensures c != 0 ==> HighestSpot(All(rs, bs, nid), start, end, size, k, c)
    ensures c != 0 ==> start <= c && c + size <= end && Aligned(c, k)
    ensures c != 0 ==> forall x: Addr :: c <= x < c + size ==> OfNode(rs, nid, x) && Lookup(bs, x) == None
  {
    ghost var at;
    c, at := FindTopDown(rs, bs, nid, start, end, size, k);
    if c == 0 {
      NoRoomNoSpot(All(rs, bs, nid), start, end, size, k);
    } else {
      AllOrdered(rs, bs, nid, 0);
      HighestOfAll(All(rs, bs, nid), at, start, end, size, k, c);
      FitsIsFree(rs, bs, nid, at, start, end, size, k, c);
    }
  }

  class Allocator {
    const memory: RegionArray
    const reserved: RegionArray
    const kernelEnd: Addr
    var bottomUp: bool
    var currentLimit: Addr
    /** Allocations not yet freed. */
    ghost var live: set<(Addr, nat)>

    ghost predicate Valid()
      reads this, memory, reserved, memory.buf, reserved.buf
    {
      && memory.Valid() && reserved.Valid() && memory != reserved && memory.buf != reserved.buf
      && memory.max < 0x7fff_fffe && reserved.max < 0x7fff_fffe && currentLimit <= ULLONG_MAX
      && (forall l <- live :: l.1 > 0 && l.0 + l.1 <= ULLONG_MAX && Reserved(reserved.regions, l))
      && (forall a, b :: a in live && b in live && a != b ==> Disjoint(a, b))
    }

    constructor (capacity: nat, kernelEnd: Addr)
      requires 1 <= capacity < 0x7fff_fffe
      ensures Valid() && live == {} && fresh(memory) && fresh(reserved) && fresh(memory.buf) && fresh(reserved.buf)
    {
      memory := new RegionArray(capacity);
      reserved := new RegionArray(capacity);
      this.kernelEnd := kernelEnd;
      bottomUp, currentLimit, live := false, ULLONG_MAX, {};
    }

    /** Where the search ends: the end asked for, 0 standing for the current limit, and never below its start. */
    function Limit(start: Addr, end: Addr): (e: Addr)
      reads this`currentLimit
    {
      Max(Max(start, PAGE_SIZE), if end == 0 then currentLimit else end)
    }

    /** The free ranges of a node. */
    ghost function FreeRanges(nid: int): seq<Range>
      reads memory`regions, reserved`regions
    {
      All(memory.regions, reserved.regions, nid)
    }

    /** memblock_find_in_range_node() with alignment 1 << k; an end of 0 stands for the current limit. */
    method FindInRangeNode(size: nat, k: nat, start0: Addr, end0: Addr, nid: int) returns (c: Addr)
      requires Valid() && size > 0 && k < 64 && start0 <= ULLONG_MAX && end0 <= ULLONG_MAX
      ensures c == 0 <==> NoSpot(FreeRanges(nid), Max(start0, PAGE_SIZE), Limit(start0, end0), size, k)
      ensures c != 0 ==>
        Chosen(FreeRanges(nid), bottomUp, kernelEnd, Max(start0, PAGE_SIZE), Limit(start0, end0), size, k, c)
      ensures c != 0 ==> Aligned(c, k) && Max(start0, PAGE_SIZE) <= c && c + size <= Limit(start0, end0) <= ULLONG_MAX
      ensures c != 0 ==> forall x: Addr :: c <= x < c + size ==>
        OfNode(memory.regions, nid, x) && Lookup(reserved.regions, x) == None
    {
      var end := if end0 == 0 then currentLimit else end0;
      var start := Max(start0, PAGE_SIZE);
      end := Max(start, end);
      var (rs, bs) := (memory.buf[..memory.cnt], reserved.buf[..reserved.cnt]);
      ValidAscends(rs);
      ValidAscends(bs);
      if bottomUp && end > kernelEnd {
        var bottomUpStart := Max(start, kernelEnd);
        c := LowestFree(rs, bs, nid, bottomUpStart, end, size, k);
        if c != 0 {
          NoneChosen(All(rs, bs, nid), bottomUp, kernelEnd, start, end, size, k, c);
          return;
        }
      }
      c := HighestFree(rs, bs, nid, start, end, size, k);
    }

    /** memblock_alloc_range_nid(); align is 0 or 1 << k. */
    method AllocRangeNid(size: nat, align: nat, k: nat, start: Addr, end: Addr, nid: int) returns (c: Addr)
      requires Valid() && size > 0 && (align == 0 || align == Pow2(k)) && k < 64 && start <= ULLONG_MAX
        && end <= ULLONG_MAX
      modifies this`live, reserved, reserved.buf
      ensures Valid()
      ensures c == 0 <==>
        || NoSpot(old(FreeRanges(nid)), Max(start, PAGE_SIZE), Limit(start, end), size, Shift(align, k))
        || exists p: Addr ::
             && Chosen(old(FreeRanges(nid)), bottomUp, kernelEnd, Max(start, PAGE_SIZE), Limit(start, end), size,
               Shift(align, k), p)
             && !CanTake(old(reserved.regions), reserved.max, p, size)
      ensures c != 0 ==>
        Chosen(old(FreeRanges(nid)), bottomUp, kernelEnd, Max(start, PAGE_SIZE), Limit(start, end), size,
            Shift(align, k), c)
      ensures c != 0 ==> Aligned(c, Shift(align, k))
      ensures c != 0 ==> Max(start, PAGE_SIZE) <= c && c + size <= Limit(start, end) <= ULLONG_MAX
      ensures c != 0 ==> forall x: Addr :: c <= x < c + size ==>
        OfNode(memory.regions, nid, x) && Lookup(old(reserved.regions), x) == None && Lookup(reserved.regions, x).Some?
      ensures c != 0 ==> live == old(live) + {(c, size)} && forall l <- old(live) :: Disjoint(l, (c, size))
      ensures c == 0 ==> live == old(live) && reserved.regions == old(reserved.regions)
    {
      var shift := if align == 0 then L1_CACHE_BITS else k;
      c := FindInRangeNode(size, shift, start, end, nid);
      if c == 0 {
        return;
      }
      var ok := reserved.AddRange(c, size, Attr(MAX_NUMNODES, 0));
      if !ok {
        return 0;
      }
      forall l <- live ensures Disjoint(l, (c, size)) { FreeIsDisjoint(old(reserved.regions), l, c, size); }
      live := live + {(c, size)};
    }

    /** memblock_free() of an allocation; false when the array has no room to split. */
    method Free(base: Addr, size: nat) returns (ok: bool)
      requires Valid() && (base, size) in live
      modifies this`live, reserved, reserved.buf
      ensures Valid() && live == (if ok then old(live) - {(base, size)} else old(live))
      ensures ok <==> old(reserved.cnt) + 2 <= reserved.max
      ensures ok ==> forall x: Addr :: Lookup(reserved.regions, x) == if base <= x < base + size then None
        else Lookup(old(reserved.regions), x)
    {
      ok := reserved.RemoveRange(base, size);
      if ok {
        live := live - {(base, size)};
      }
    }
  }
}
