/** struct zone with its free lists, as __free_one_page() and __rmqueue() update it (mm/page_alloc.c). */
module PageAlloc {
  import opened Bits
  import opened Buddy

  ghost predicate NoDup(s: seq<int>) { forall i, j :: 0 <= i < j < |s| ==> s[i] != s[j] }

  /** free_area[o]: the list holds exactly the free blocks of order o, each once; nr_free counts them. */
  ghost predicate AreaOk(list: seq<int>, nr: int, m: Blocks, o: nat) {
    nr == |list| && NoDup(list) && forall p :: p in list <==> Free(m, p, o)
  }

  ghost predicate AreasOk(lists: seq<seq<int>>, nr: seq<int>, m: Blocks) {
    && |lists| == |nr| == MAX_ORDER
    && (forall o: nat :: o < MAX_ORDER ==> AreaOk(lists[o], nr[o], m, o))
  }

  /** list_del() */
  function Without(s: seq<int>, p: int): (r: seq<int>) {
    if s == [] then [] else if s[0] == p then s[1..] else [s[0]] + Without(s[1..], p)
  }

  lemma {:induction false} WithoutOk(s: seq<int>, p: int)
    requires p in s && NoDup(s)
    ensures |Without(s, p)| == |s| - 1 && NoDup(Without(s, p)) && forall q :: q in Without(s, p) <==> q in s && q != p
  {
    assert s == [s[0]] + s[1..];
    if s[0] != p {
      WithoutOk(s[1..], p);
      var r := Without(s[1..], p);
      assert s[0] !in s[1..];
      assert forall i :: 1 <= i < |r| + 1 ==> Without(s, p)[i] == r[i - 1];
    }
  }

  lemma {:induction false} DelArea(lists: seq<seq<int>>, nr: seq<int>, m: Blocks, p: int)
    requires AreasOk(lists, nr, m) && p in m && m[p] < MAX_ORDER
    ensures p in lists[m[p]]
    ensures AreasOk(lists[m[p] := Without(lists[m[p]], p)], nr[m[p] := nr[m[p]] - 1], m - {p})
  {
    var o, m' := m[p], m - {p};
    assert AreaOk(lists[o], nr[o], m, o) && Free(m, p, o);
    WithoutOk(lists[o], p);
    var lists', nr' := lists[o := Without(lists[o], p)], nr[o := nr[o] - 1];
    forall r: nat | r < MAX_ORDER ensures AreaOk(lists'[r], nr'[r], m', r) {
      assert AreaOk(lists[r], nr[r], m, r);
      assert forall q :: Free(m', q, r) <==> Free(m, q, r) && q != p;
    }
  }

  lemma {:induction false} AddArea(lists: seq<seq<int>>, nr: seq<int>, m: Blocks, p: int, o: nat)
    requires AreasOk(lists, nr, m) && p !in m && o < MAX_ORDER
    ensures AreasOk(lists[o := [p] + lists[o]], nr[o := nr[o] + 1], m[p := o])
  {
    var m', lists', nr' := m[p := o], lists[o := [p] + lists[o]], nr[o := nr[o] + 1];
    forall r: nat | r < MAX_ORDER ensures AreaOk(lists'[r], nr'[r], m', r) {
      assert AreaOk(lists[r], nr[r], m, r) && !Free(m, p, r);
      assert p !in lists[r];
      forall q ensures Free(m', q, r) <==> (Free(m, q, r) || (q == p && r == o)) { }
    }
  }

  // ---- counting pages ----

  lemma {:induction false} DisjointSize(a: set<int>, b: set<int>)
    requires a * b == {}
    ensures |a + b| == |a| + |b|
  {
  }

  /** idx is the index of page in its window of 2^MAX_ORDER pages. */
  predicate Index(page: int, idx: int) { page >= 0 && idx == page % 2048 }

  method WindowIndex(pfn: nat) returns (idx: nat)
    ensures idx == pfn % 2048
  {
    idx := And(pfn, Pow2(MAX_ORDER) - 1);
    MaskLow(pfn, MAX_ORDER);
    assert Pow2(11) == 2048;
  }

  /** The lower of a block and its buddy: where the merged block starts. */
  function Lower(p: int, o: nat): (c: int) { if BuddyOf(p, o) < p then BuddyOf(p, o) else p }

  /** __find_buddy_index() and the combined index, on indices inside the window. */
  method BuddyIndex(page: int, idx: nat, o: nat) returns (buddyIdx: int, combinedIdx: int)
    requires Index(page, idx) && Aligned(page, o) && o < MAX_ORDER - 1
    ensures page + (buddyIdx - idx) == BuddyOf(page, o)
    ensures page + (combinedIdx - idx) == Lower(page, o) && Index(Lower(page, o), combinedIdx)
  {
    buddyIdx := Xor(idx, Pow2(o));
    combinedIdx := And(buddyIdx, idx);
    XorBit(idx, o);
    AndBit(idx, o);
    WindowFlip(page, idx, o);
  }

  /** Window indices and page frame numbers have the same buddies. */
  lemma {:induction false} WindowFlip(page: int, idx: nat, o: nat)
    requires Index(page, idx) && Aligned(page, o) && o < MAX_ORDER - 1
    ensures Flip(idx, o) - idx == BuddyOf(page, o) - page && Index(page + (Flip(idx, o) - idx), Flip(idx, o))
  {
    var base := page - idx;
    WindowBase(base, o);
    SameBuddy(base, idx, o);
    FlipAligned(idx, o);
    FlipStays(idx, o);
    InWindow(base, Flip(idx, o));
  }

  lemma {:induction false} SameBuddy(base: int, idx: nat, o: nat)
    requires Aligned(base, o) && Aligned(base, o + 1) && Aligned(base + idx, o)
    ensures Aligned(idx, o) && BuddyOf(base + idx, o) == base + BuddyOf(idx, o)
  {
    AlignedAdd(base, idx, o);
    AlignedAdd(base, idx, o + 1);
  }

  lemma {:induction false} InWindow(base: int, f: nat)
    requires base % 2048 == 0 && f < 2048
    ensures (base + f) % 2048 == f
  {
  }

  lemma {:induction false} WindowBase(base: int, o: nat)
    requires base % 2048 == 0 && o < MAX_ORDER - 1
    ensures Aligned(base, o) && Aligned(base, o + 1)
  {
    assert Pow2(11) == 2048;
    AlignedMod(base, 11);
    AlignedDown(base, o, 11);
    AlignedDown(base, o + 1, 11);
  }

  /** A flipped index stays in the window. */
  lemma {:induction false} FlipStays(idx: nat, o: nat)
    requires idx < 2048 && Aligned(idx, o) && o < MAX_ORDER - 1
    ensures 0 <= BuddyOf(idx, o) < 2048
  {
    BuddyFacts(idx, o);
    assert Pow2(11) == 2048 && Pow2(0) == 1;
    assert Aligned(0, 11) by { AlignedMod(0, 11); }
    Nested(Lower(idx, o), o + 1, 0, 11);
  }

  class Zone {
    var lists: seq<seq<int>>
    var nrFree: seq<int>
    var order: Blocks
    var nrFreePages: int
    /** The free pages. */
    ghost var pages: set<int>

    ghost predicate Valid()
      reads this
    {
      && AreasOk(lists, nrFree, order) && Canonical(order)
      && Covers(order, pages) && nrFreePages == |pages|
    }

    constructor ()
      ensures Valid() && pages == {}
    {
      lists, nrFree := seq(MAX_ORDER, i => []), seq(MAX_ORDER, i => 0);
      order, nrFreePages, pages := map[], 0, {};
    }

    /** The merging loop of __free_one_page(). */
    method Merge(pfn: nat, ord: nat) returns (page: int, o: nat)
      requires |lists| == |nrFree| == MAX_ORDER && BlockOk(pfn, ord)
      modifies this`lists, this`nrFree, this`order
      ensures Loose(lists, nrFree, order, page, page % 2048, o) ==
        MergeAll(old(Loose(lists, nrFree, order, pfn, pfn % 2048, ord)))
      ensures |lists| == |nrFree| == MAX_ORDER && o < MAX_ORDER
    {
      page, o := pfn, ord;
      ghost var z0 := Loose(lists, nrFree, order, pfn, pfn % 2048, ord);
      var pageIdx := WindowIndex(pfn);
      while o < MAX_ORDER - 1
        invariant |lists| == |nrFree| == MAX_ORDER && BlockOk(page, o) && Index(page, pageIdx)
        invariant MergeAll(Loose(lists, nrFree, order, page, pageIdx, o)) == MergeAll(z0)
      {
        var buddyIdx, combinedIdx := BuddyIndex(page, pageIdx, o);
        var buddy := page + (buddyIdx - pageIdx);
        if !Free(order, buddy, o) {
          break;
        }
        BuddyFacts(page, o);
        page := MergeOnce(page, o, buddy, pageIdx, combinedIdx);
        pageIdx := combinedIdx;
        o := o + 1;
      }
    }

    /** The free buddy leaves its list, and the combined block is in hand. */
    method MergeOnce(page: int, o: nat, buddy: int, pageIdx: int, combinedIdx: int) returns (page': int)
      requires Mergeable(Loose(lists, nrFree, order, page, pageIdx, o)) && buddy == BuddyOf(page, o)
      requires page + (combinedIdx - pageIdx) == Lower(page, o) && Index(Lower(page, o), combinedIdx)
      modifies this`lists, this`nrFree, this`order
      ensures |lists| == |nrFree| == MAX_ORDER && page' == Lower(page, o)
      ensures Loose(lists, nrFree, order, page', combinedIdx, o + 1) ==
        Merged(old(Loose(lists, nrFree, order, page, pageIdx, o)))
    {
      lists := lists[o := Without(lists[o], buddy)];
      nrFree := nrFree[o := nrFree[o] - 1];
      order := order - {buddy};
      page' := page + (combinedIdx - pageIdx);
    }

    /** __free_one_page(): the freed pages join the free pages, coalesced again. */
    method FreeOnePage(pfn: nat, ord: nat)
      requires Valid() && BlockOk(pfn, ord) && pages * Block(pfn, ord) == {}
      modifies this
      ensures Valid() && pages == old(pages) + Block(pfn, ord)
    {
      FreeOk(lists, nrFree, order, pages, pfn, ord);
      nrFreePages := nrFreePages + Pow2(ord);
      MergeIn(pfn, ord);
      pages := pages + Block(pfn, ord);
    }

    /** The merged block goes to the front of the list of its order. */
    method MergeIn(pfn: nat, ord: nat)
      requires |lists| == |nrFree| == MAX_ORDER && BlockOk(pfn, ord)
      modifies this`lists, this`nrFree, this`order
      ensures var z := MergeAll(old(Loose(lists, nrFree, order, pfn, pfn % 2048, ord)));
        |z.lists| == |z.nr| == MAX_ORDER && z.o < MAX_ORDER && Areas(lists, nrFree, order) == Linked(z)
    {
      var page, o := Merge(pfn, ord);
      order := order[page := o];
      lists := lists[o := [page] + lists[o]];
      nrFree := nrFree[o := nrFree[o] + 1];
    }

    /** expand(): give the upper halves back until the block in hand has order low. */
    method Expand(page: int, low: nat, high: nat)
      requires |lists| == |nrFree| == MAX_ORDER && low <= high < MAX_ORDER
      modifies this`lists, this`nrFree, this`order
      ensures Areas(lists, nrFree, order) == Expanded(old(Areas(lists, nrFree, order)), page, low, high)
    {
      var h, size := high, Pow2(high);
      ghost var a0 := Areas(lists, nrFree, order);
      while h > low
        invariant |lists| == |nrFree| == MAX_ORDER && low <= h <= high && size == Pow2(h)
        invariant Expanded(Areas(lists, nrFree, order), page, low, h) == Expanded(a0, page, low, high)
      {
        h := h - 1;
        size := size / 2;
        lists := lists[h := [page + size] + lists[h]];
        nrFree := nrFree[h := nrFree[h] + 1];
        order := order[page + size := h];
      }
    }

    /** The smallest order from ord on that has a block, or MAX_ORDER. */
    method FirstOrder(ord: nat) returns (c: nat)
      requires |lists| == MAX_ORDER && ord < MAX_ORDER
      ensures ord <= c <= MAX_ORDER && (forall b: nat :: ord <= b < c ==> lists[b] == [])
        && (c < MAX_ORDER ==> lists[c] != [])
    {
      c := ord;
      while c < MAX_ORDER && lists[c] == []
        invariant ord <= c <= MAX_ORDER && forall b: nat :: ord <= b < c ==> lists[b] == []
      {
        c := c + 1;
      }
    }

    /** The first block of order c, cut down to order ord. */
    method TakeFrom(ord: nat, c: nat) returns (page: int)
      requires |lists| == |nrFree| == MAX_ORDER && ord <= c < MAX_ORDER && lists[c] != []
      modifies this`lists, this`nrFree, this`order
      ensures page == old(lists)[c][0]
      ensures Areas(lists, nrFree, order) ==
        Expanded(Rest(old(lists), old(nrFree), old(order), old(lists)[c][0], c), old(lists)[c][0], ord, c)
    {
      page := lists[c][0];
      lists := lists[c := lists[c][1..]];
      order := order - {page};
      nrFree := nrFree[c := nrFree[c] - 1];
      Expand(page, ord, c);
    }

    /** __rmqueue_smallest(): the first block of the smallest order that has one, cut down to size. */
    method RmqueueSmallest(ord: nat) returns (found: bool, page: int)
      requires Valid() && ord < MAX_ORDER
      modifies this`lists, this`nrFree, this`order
      ensures AreasOk(lists, nrFree, order) && Canonical(order)
      ensures found <==> exists c: nat :: ord <= c < MAX_ORDER && old(lists)[c] != []
      ensures !found ==> Areas(lists, nrFree, order) == old(Areas(lists, nrFree, order))
      ensures found ==> BlockOk(page, ord) && Block(page, ord) <= pages && Covers(order, pages - Block(page, ord))
      ensures found ==> exists c: nat ::
        ord <= c < MAX_ORDER && FirstFit(old(lists), ord, c) && page == old(lists)[c][0]
    {
      var c := FirstOrder(ord);
      if c == MAX_ORDER {
        return false, 0;
      }
      TakeOk(lists, nrFree, order, pages, lists[c][0], ord, c);
      page := TakeFrom(ord, c);
      assert FirstFit(old(lists), ord, c);
      found := true;
    }

    /** buffered_rmqueue() */
    method BufferedRmqueue(ord: nat) returns (found: bool, page: int)
      requires Valid() && ord < MAX_ORDER
      modifies this
      ensures Valid() && pages == if found then old(pages) - Block(page, ord) else old(pages)
      ensures found ==> BlockOk(page, ord) && Block(page, ord) <= old(pages)
      ensures !found ==> forall p :: BlockOk(p, ord) ==> !(Block(p, ord) <= pages)
    {
      NoRoom(lists, nrFree, order, pages, ord);
      found, page := RmqueueSmallest(ord);
      if found {
        RemoveSize(pages, Block(page, ord));
        nrFreePages := nrFreePages - Pow2(ord);
        pages := pages - Block(page, ord);
      }
    }
  }

  /** Allocating a block of any order and freeing it gives back exactly the original free blocks. */
  method AllocThenFree(z: Zone, ord: nat) returns (found: bool)
    requires z.Valid() && ord < MAX_ORDER
    modifies z
    ensures z.Valid() && z.order == old(z.order) && z.nrFreePages == old(z.nrFreePages) && z.pages == old(z.pages)
  {
    ghost var before, all := z.order, z.pages;
    var page;
    found, page := z.BufferedRmqueue(ord);
    if found {
      z.FreeOnePage(page, ord);
      PutBack(all, Block(page, ord));
    }
    SameBlocks(before, z.order, all);
  }

  lemma {:induction false} PutBack(all: set<int>, b: set<int>)
    requires b <= all
    ensures all - b + b == all
  {
  }

  lemma {:induction false} SameBlocks(m: Blocks, m': Blocks, pages: set<int>)
    requires Canonical(m) && Canonical(m') && Covers(m, pages) && Covers(m', pages)
    ensures m' == m
  {
    assert forall x :: Covered(m, x) <==> Covered(m', x);
    Canonicity(m, m');
  }

  /** c is the smallest order from ord on with a free block. */
  predicate FirstFit(lists: seq<seq<int>>, ord: nat, c: nat)
    requires |lists| == MAX_ORDER
  {
    ord <= c < MAX_ORDER && lists[c] != [] && forall b: nat :: ord <= b < c ==> lists[b] == []
  }

  datatype Areas = Areas(lists: seq<seq<int>>, nr: seq<int>, m: Blocks)

  function Expanded(a: Areas, page: int, low: nat, high: nat): (a': Areas)
    decreases high
  {
    if high <= low || high > |a.lists| || high > |a.nr| then a
    else
      var h := high - 1;
      var u := page + Pow2(h);
      Expanded(Areas(a.lists[h := [u] + a.lists[h]], a.nr[h := a.nr[h] + 1], a.m[u := h]), page, low, h)
  }

  /** The free areas, canonical, with a block in hand cut out of all. */
  ghost predicate Splitting(a: Areas, page: int, h: nat, all: set<int>) {
    && AreasOk(a.lists, a.nr, a.m) && Canonical(a.m) && BlockOk(page, h) && Separate(a.m, page, h)
    && (forall x :: x in all <==> Covered(a.m, x) || InSpan(page, h, x))
  }

  lemma {:induction false} ExpandedOk(a: Areas, page: int, low: nat, high: nat, all: set<int>)
    requires Splitting(a, page, high, all) && low <= high
    ensures Splitting(Expanded(a, page, low, high), page, low, all)
    decreases high
  {
    if high > low {
      var h := high - 1;
      var u := page + Pow2(h);
      SplitStep(a.m, page, h);
      AddArea(a.lists, a.nr, a.m, u, h);
      ExpandedOk(Areas(a.lists[h := [u] + a.lists[h]], a.nr[h := a.nr[h] + 1], a.m[u := h]), page, low, h, all);
    }
  }

  /** The free areas without the block page, first in the list of order c. */
  ghost function Rest(lists: seq<seq<int>>, nr: seq<int>, m: Blocks, page: int, c: nat): Areas
    requires |lists| == |nr| == MAX_ORDER && c < MAX_ORDER && lists[c] != []
  {
    Areas(lists[c := lists[c][1..]], nr[c := nr[c] - 1], m - {page})
  }

  /** A block of order ord at page was cut out of the free pages. */
  ghost predicate Taken(a: Areas, pages: set<int>, page: int, ord: nat) {
    && AreasOk(a.lists, a.nr, a.m) && Canonical(a.m)
    && BlockOk(page, ord) && Block(page, ord) <= pages && Covers(a.m, pages - Block(page, ord))
  }

  /** Taking the head of list c and expanding it leaves exactly the other pages. */
  lemma {:induction false} TakeOk(lists: seq<seq<int>>, nr: seq<int>, m: Blocks, pages: set<int>, page: int,
                            ord: nat, c: nat)
    requires AreasOk(lists, nr, m) && Canonical(m) && Covers(m, pages) && ord <= c < MAX_ORDER
    requires lists[c] != [] && page == lists[c][0]
    ensures Taken(Expanded(Rest(lists, nr, m, page, c), page, ord, c), pages, page, ord)
  {
    assert AreaOk(lists[c], nr[c], m, c) && page in lists[c];
    assert Free(m, page, c);
    DelArea(lists, nr, m, page);
    TakeStep(m, page);
    var a := Areas(lists[c := lists[c][1..]], nr[c := nr[c] - 1], m - {page});
    assert Without(lists[c], page) == lists[c][1..];
    ExpandedOk(a, page, ord, c, pages);
    CutOut(Expanded(a, page, ord, c), page, ord, pages);
  }

  lemma {:induction false} CutOut(a: Areas, page: int, h: nat, all: set<int>)
    requires Splitting(a, page, h, all)
    ensures Block(page, h) <= all && Covers(a.m, all - Block(page, h))
  {
    forall x | Covered(a.m, x) ensures !InSpan(page, h, x) {
      var q :| In(a.m, q, x);
      assert Apart(page, h, q, a.m[q]);
    }
  }

  lemma {:induction false} RemoveSize(a: set<int>, b: set<int>)
    requires b <= a
    ensures |a - b| == |a| - |b|
  {
    assert a == (a - b) + b;
    DisjointSize(a - b, b);
  }

  /** The lists from ord on are all empty exactly when no aligned block of that order is free. */
  lemma {:induction false} NoRoom(lists: seq<seq<int>>, nr: seq<int>, m: Blocks, pages: set<int>, ord: nat)
    requires AreasOk(lists, nr, m) && Canonical(m) && Covers(m, pages) && ord < MAX_ORDER
    ensures (exists c: nat :: ord <= c < MAX_ORDER && lists[c] != []) || forall p :: BlockOk(p, ord) ==>
      !(Block(p, ord) <= pages)
  {
    if p :| BlockOk(p, ord) && Block(p, ord) <= pages {
      assert AllFree(m, p, ord);
      var q := InsideOne(m, p, ord);
      assert BlockOk(q, m[q]) && AreaOk(lists[m[q]], nr[m[q]], m, m[q]) && Free(m, q, m[q]);
      assert q in lists[m[q]];
    }
  }

  /** The state inside __free_one_page(): the free areas and the block in hand. */
  datatype Loose = Loose(lists: seq<seq<int>>, nr: seq<int>, m: Blocks, page: int, idx: int, o: nat)

  /** The block in hand and the free blocks make up all. */
  ghost predicate Merging(z: Loose, all: set<int>) {
    && AreasOk(z.lists, z.nr, z.m) && Canonical(z.m)
    && BlockOk(z.page, z.o) && Index(z.page, z.idx) && Separate(z.m, z.page, z.o)
    && (forall x :: x in all <==> Covered(z.m, x) || InSpan(z.page, z.o, x))
  }

  predicate Mergeable(z: Loose) {
    |z.lists| == |z.nr| == MAX_ORDER && z.o < MAX_ORDER - 1 && Free(z.m, BuddyOf(z.page, z.o), z.o)
  }

  /** One round of merging: the buddy leaves its list and the combined block is in hand. */
  function Merged(z: Loose): (z': Loose)
    requires Mergeable(z)
  {
    var b, c := BuddyOf(z.page, z.o), Lower(z.page, z.o);
    Loose(z.lists[z.o := Without(z.lists[z.o], b)], z.nr[z.o := z.nr[z.o] - 1], z.m - {b}, c, c % 2048, z.o + 1)
  }

  function MergeAll(z: Loose): (z': Loose)
    decreases MAX_ORDER - z.o
  {
    if Mergeable(z) then MergeAll(Merged(z)) else z
  }

  lemma {:induction false} MergeNext(z: Loose, all: set<int>)
    requires Merging(z, all) && Mergeable(z)
    ensures Merging(Merged(z), all)
  {
    BuddyFacts(z.page, z.o);
    MergeStep(z.m, z.page, z.o);
    DelArea(z.lists, z.nr, z.m, BuddyOf(z.page, z.o));
  }

  lemma {:induction false} MergeAllOk(z: Loose, all: set<int>)
    requires Merging(z, all)
    ensures Merging(MergeAll(z), all) && !Mergeable(MergeAll(z))
    decreases MAX_ORDER - z.o
  {
    if Mergeable(z) {
      MergeNext(z, all);
      MergeAllOk(Merged(z), all);
    }
  }

  lemma {:induction false} MergeEnd(z: Loose, all: set<int>)
    requires Merging(z, all) && !Mergeable(z)
    ensures Inserted(z, all)
  {
    AddStep(z.m, z.page, z.o);
    AddArea(z.lists, z.nr, z.m, z.page, z.o);
  }

  /** Putting the block in hand on its list gives consistent, canonical areas that cover all. */
  ghost predicate Inserted(z: Loose, all: set<int>)
    requires |z.lists| == |z.nr| == MAX_ORDER && z.o < MAX_ORDER
  {
    var a := Linked(z);
    AreasOk(a.lists, a.nr, a.m) && Canonical(a.m) && Covers(a.m, all)
  }

  /** The block in hand at the front of the list of its order. */
  ghost function Linked(z: Loose): Areas
    requires |z.lists| == |z.nr| == MAX_ORDER && z.o < MAX_ORDER
  {
    Areas(z.lists[z.o := [z.page] + z.lists[z.o]], z.nr[z.o := z.nr[z.o] + 1], z.m[z.page := z.o])
  }

  lemma {:induction false} FreeOk(lists: seq<seq<int>>, nr: seq<int>, m: Blocks, pages: set<int>, pfn: nat, o: nat)
    requires AreasOk(lists, nr, m) && Canonical(m) && Covers(m, pages) && BlockOk(pfn, o) && pages * Block(pfn, o) == {}
    ensures var z := MergeAll(Loose(lists, nr, m, pfn, pfn % 2048, o));
      |z.lists| == |z.nr| == MAX_ORDER && z.o < MAX_ORDER && Inserted(z, pages + Block(pfn, o))
    ensures |pages + Block(pfn, o)| == |pages| + Pow2(o)
  {
    DisjointSize(pages, Block(pfn, o));
    SeparateFromPages(m, pages, pfn, o);
    var z := Loose(lists, nr, m, pfn, pfn % 2048, o);
    MergeAllOk(z, pages + Block(pfn, o));
    MergeEnd(MergeAll(z), pages + Block(pfn, o));
  }

  lemma {:induction false} SeparateFromPages(m: Blocks, pages: set<int>, p: int, o: nat)
    requires Sound(m) && Covers(m, pages) && BlockOk(p, o) && pages * Block(p, o) == {}
    ensures Separate(m, p, o)
  {
    forall q <- m ensures Apart(p, o, q, m[q]) {
      if q <= p {
        assert In(m, q, p) ==> p in pages * Block(p, o);
      } else {
        assert In(m, q, q) && (InSpan(p, o, q) ==> q in pages * Block(p, o));
      }
    }
  }
}
