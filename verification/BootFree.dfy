/** Handing free memory over at boot: the free ranges of memblock become free pages of the buddy allocator
    (mm/memblock.c). */
module BootFree {
  import opened Basics
  import opened Bits
  import opened Buddy
  import PageAlloc
  import M = Memblock
  import I = MemblockIter

  const PAGE_SIZE := 4096

  /** __ffs(): the lowest set bit. */
  function Ffs(x: nat): (o: nat)
    requires x > 0
    ensures Aligned(x, o) && !Aligned(x, o + 1)
  {
    if x % 2 == 1 then 0 else Ffs(x / 2) + 1
  }

  /** The order the next block is freed with: the largest that start is aligned to and that ends in the range. */
  predicate Largest(start: nat, end: nat, o: nat) {
    && BlockOk(start, o) && start + Pow2(o) <= end
    && (o + 1 < MAX_ORDER && Aligned(start, o + 1) ==> start + Pow2(o + 1) > end)
  }

  /** The order of the next block. ffs0 is whatever __ffs() makes of 0, where it is undefined; 0 is aligned to every
      order, so the block is legal all the same. */
  method NextOrder(start: nat, end: nat, ffs0: nat) returns (order: nat)
    requires start < end
    ensures BlockOk(start, order) && start + Pow2(order) <= end
    ensures start > 0 || ffs0 >= MAX_ORDER - 1 ==> Largest(start, end, order)
  {
    var low := if start == 0 then ffs0 else Ffs(start);
    order := if low < MAX_ORDER - 1 then low else MAX_ORDER - 1;
    LowAligned(start, low);
    AlignedDown(start, order, low);
    while start + Pow2(order) > end
      invariant order < MAX_ORDER && order <= low && Aligned(start, order)
      invariant order + 1 < MAX_ORDER && order + 1 <= low ==> start + Pow2(order + 1) > end
    {
      order := order - 1;
      AlignedDown(start, order, low);
    }
    if start > 0 && Aligned(start, order + 1) { NotAbove(start, order + 1); }
  }

  lemma {:induction false} LowAligned(start: nat, low: nat)
    requires start == 0 || low == Ffs(start)
    ensures Aligned(start, low)
    decreases low
  {
    if start == 0 && low > 0 { LowAligned(0, low - 1); }
  }

  /** Nothing is aligned beyond its lowest bit. */
  lemma {:induction false} NotAbove(x: nat, o: nat)
    requires x > 0 && Aligned(x, o)
    ensures o <= Ffs(x)
  {
    if o > Ffs(x) { AlignedDown(x, Ffs(x) + 1, o); }
  }

  /** __free_pages_memory(): the blocks tile the range. */
  method FreePagesMemory(zone: PageAlloc.Zone, start0: nat, end: nat, ffs0: nat)
    requires zone.Valid() && Clear(zone.pages, start0, end)
    modifies zone
    ensures zone.Valid() && Joined(old(zone.pages), zone.pages, start0, end)
    ensures start0 <= end ==> |zone.pages| == |old(zone.pages)| + end - start0
  {
    var start := start0;
    while start < end
      invariant zone.Valid() && start0 <= start && (start <= end || start == start0)
      invariant Joined(old(zone.pages), zone.pages, start0, start) && |zone.pages| == |old(zone.pages)| + start - start0
      decreases end - start
    {
      var order := NextOrder(start, end, ffs0);
      NoneCommon(zone.pages, start, order);
      PageAlloc.DisjointSize(zone.pages, Block(start, order));
      zone.FreeOnePage(start, order);
      start := start + Pow2(order);
    }
  }

  ghost predicate Clear(pages: set<int>, start: nat, end: nat) { forall x <- pages :: !(start <= x < end) }

  lemma {:induction false} NoneCommon(pages: set<int>, p: nat, o: nat)
    requires forall x <- pages :: !(p <= x < p + Pow2(o))
    ensures pages * Block(p, o) == {}
  {
  }

  // ---- all of memory ----

  /** PFN_UP() and PFN_DOWN() */
  function PfnUp(x: nat): nat { (x + PAGE_SIZE - 1) / PAGE_SIZE }
  function PfnDown(x: nat): nat { x / PAGE_SIZE }

  /** Page x lies whole between the addresses. */
  predicate Whole(start: nat, end: nat, x: int) { start <= x * PAGE_SIZE && (x + 1) * PAGE_SIZE <= end }

  lemma {:induction false} WholePages(start: nat, end: nat, x: int)
    ensures PfnUp(start) <= x < PfnDown(end) <==> Whole(start, end, x)
  {
  }

  /** Page x lies whole inside one of the ranges. */
  predicate InPages(s: seq<I.Range>, x: int) { s != [] && (Whole(s[0].start, s[0].end, x) || InPages(s[1..], x)) }

  lemma {:induction false} InPagesMore(s: seq<I.Range>, r: I.Range, x: int)
    ensures InPages(s + [r], x) <==> InPages(s, x) || Whole(r.start, r.end, x)
  {
    if s == [] {
      assert s + [r] == [r] && [r][1..] == [];
    } else {
      assert (s + [r])[1..] == s[1..] + [r];
      InPagesMore(s[1..], r, x);
    }
  }

  /** Pages of ranges that end at cut or below are below cut. */
  lemma {:induction false} PagesBelow(s: seq<I.Range>, lo: nat, cut: nat, x: int)
    requires I.Ordered(s, lo, cut) && InPages(s, x)
    ensures (x + 1) * PAGE_SIZE <= cut
  {
    if Whole(s[0].start, s[0].end, x) {
      OrderedEnds(s[1..], s[0].end, cut);
    } else {
      PagesBelow(s[1..], s[0].end, cut, x);
    }
  }

  lemma {:induction false} OrderedEnds(s: seq<I.Range>, lo: nat, hi: nat)
    requires I.Ordered(s, lo, hi)
    ensures lo <= hi
  {
    if s != [] { OrderedEnds(s[1..], s[0].end, hi); }
  }

  lemma {:induction false} OrderedMore(s: seq<I.Range>, r: I.Range, lo: nat, cut: nat)
    requires I.Ordered(s, lo, cut) && cut <= r.start <= r.end
    ensures I.Ordered(s + [r], lo, r.end)
  {
    assert [r][1..] == [];
    I.OrderedJoin(s, [r], lo, cut, r.end);
  }

  /** The free pages are the whole pages of s. */
  ghost predicate HasPages(pages: set<int>, s: seq<I.Range>) { forall x :: x in pages <==> InPages(s, x) }

  /** Pages lo up to hi joined the free pages. */
  ghost predicate Joined(pages: set<int>, pages': set<int>, lo: int, hi: int) {
    forall x :: x in pages' <==> x in pages || lo <= x < hi
  }

  /** The whole pages between start and end joined the free pages. */
  ghost predicate JoinedWhole(pages: set<int>, pages': set<int>, start: nat, end: nat) {
    forall x :: x in pages' <==> x in pages || Whole(start, end, x)
  }

  lemma {:induction false} RangeJoined(pages: set<int>, pages': set<int>, s: seq<I.Range>, r: I.Range)
    requires HasPages(pages, s) && JoinedWhole(pages, pages', r.start, r.end)
    ensures HasPages(pages', s + [r])
  {
    forall x ensures x in pages' <==> InPages(s + [r], x) {
      InPagesMore(s, r, x);
      assert x in pages <==> InPages(s, x);
    }
  }

  ghost predicate ClearWhole(pages: set<int>, start: nat, end: nat) { forall x <- pages :: !Whole(start, end, x) }

  /** The pages of the next range are not free yet. */
  lemma {:induction false} NextIsClear(pages: set<int>, done: seq<I.Range>, r: I.Range, cut: nat)
    requires I.Ordered(done, 0, cut) && cut <= r.start && HasPages(pages, done)
    ensures ClearWhole(pages, r.start, r.end)
  {
    forall x <- pages ensures !Whole(r.start, r.end, x) {
      PagesBelow(done, 0, cut, x);
    }
  }

  /** __free_memory_core(): the whole pages of one range. */
  method FreeMemoryCore(zone: PageAlloc.Zone, start: nat, end: nat, ffs0: nat) returns (count: nat)
    requires zone.Valid() && ClearWhole(zone.pages, start, end)
    modifies zone
    ensures zone.Valid() && JoinedWhole(old(zone.pages), zone.pages, start, end)
    ensures |zone.pages| == |old(zone.pages)| + count
  {
    var startPfn, endPfn := PfnUp(start), PfnDown(end);
    forall x ensures startPfn <= x < endPfn <==> Whole(start, end, x) { WholePages(start, end, x); }
    if startPfn > endPfn {
      return 0;
    }
    FreePagesMemory(zone, startPfn, endPfn, ffs0);
    count := endPfn - startPfn;
  }

  /** free_low_memory_core_early(): exactly the whole pages of the free ranges become free in the buddy allocator. */
  method FreeLowMemory(zone: PageAlloc.Zone, rs: seq<M.Region>, bs: seq<M.Region>, ffs0: nat) returns (count: nat)
    requires zone.Valid() && zone.pages == {} && I.Arrays(rs, bs)
    modifies zone
    ensures zone.Valid() && HasPages(zone.pages, I.All(rs, bs, I.NUMA_NO_NODE)) && count == |zone.pages|
  {
    ghost var all := I.All(rs, bs, I.NUMA_NO_NODE);
    var ranges := I.ForEach(rs, Some(bs), I.NUMA_NO_NODE);
    I.AllOrdered(rs, bs, I.NUMA_NO_NODE, 0);
    count := 0;
    var i := 0;
    ghost var cut := 0;
    assert all[0..] == all;
    while i < |ranges|
      invariant 0 <= i <= |all| && zone.Valid() && I.Ordered(all[..i], 0, cut) && I.Ordered(all[i..], cut, M.ULLONG_MAX)
      invariant HasPages(zone.pages, all[..i]) && count == |zone.pages|
    {
      ghost var r := all[i];
      assert all[i..][0] == r && all[i..][1..] == all[i + 1..] && all[..i + 1] == all[..i] + [r];
      NextIsClear(zone.pages, all[..i], r, cut);
      OrderedMore(all[..i], r, 0, cut);
      ghost var before := zone.pages;
      var n := FreeMemoryCore(zone, ranges[i].start, ranges[i].end, ffs0);
      RangeJoined(before, zone.pages, all[..i], r);
      count, cut, i := count + n, r.end, i + 1;
    }
    assert all[..i] == all;
  }

  /** Every byte of a page handed over is memory and is not reserved. */
  lemma {:induction false} PagesAreFree(rs: seq<M.Region>, bs: seq<M.Region>, x: int, y: nat)
    requires I.Ascending(rs) && I.Ascending(bs) && InPages(I.All(rs, bs, I.NUMA_NO_NODE), x)
      && x * PAGE_SIZE <= y < (x + 1) * PAGE_SIZE
    ensures I.OfNode(rs, I.NUMA_NO_NODE, y) && M.Lookup(bs, y) == None
  {
    InSomePage(I.All(rs, bs, I.NUMA_NO_NODE), x, y);
    I.YieldedOfNode(rs, bs, I.NUMA_NO_NODE, y);
  }

  lemma {:induction false} InSomePage(s: seq<I.Range>, x: int, y: nat)
    requires InPages(s, x) && x * PAGE_SIZE <= y < (x + 1) * PAGE_SIZE
    ensures I.InSome(s, y)
  {
    if !Whole(s[0].start, s[0].end, x) {
      InSomePage(s[1..], x, y);
    }
  }
}
