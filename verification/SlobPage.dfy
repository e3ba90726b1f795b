/** A SLOB page as slob_page_alloc() and slob_free() update it: size and next of each free block are packed
    into the block itself (mm/slob.c). */
module SlobPage {
  import opened Bits
  import opened Slob

  /** Blocks in address order inside [lo, hi); they may touch. */
  predicate Within(bs: seq<Block>, lo: nat, hi: nat) {
    if bs == [] then lo <= hi else lo <= bs[0].start && bs[0].size > 0 && Within(bs[1..], End(bs[0]), hi)
  }

  /** Where a list starts; t when it is empty. */
  function Head(bs: seq<Block>, t: nat): nat { if bs == [] then t else bs[0].start }

  /** Where a list ends; lo when it is empty. */
  function Tail(bs: seq<Block>, lo: nat): nat { if bs == [] then lo else End(bs[|bs| - 1]) }

  lemma {:induction false} WithinSplit(a: seq<Block>, b: seq<Block>, lo: nat, hi: nat)
    requires Within(a + b, lo, hi)
    ensures Within(a, lo, Tail(a, lo)) && Within(b, Tail(a, lo), hi) && lo <= Tail(a, lo) <= Head(b, hi) <= hi
  {
    if a == [] {
      assert a + b == b;
      if b != [] { WithinRange(b, lo, hi); }
    } else {
      assert (a + b)[1..] == a[1..] + b && (a + b)[0] == a[0];
      WithinSplit(a[1..], b, End(a[0]), hi);
    }
  }

  lemma {:induction false} WithinRange(bs: seq<Block>, lo: nat, hi: nat)
    requires Within(bs, lo, hi)
    ensures lo <= hi && (bs != [] ==> End(bs[0]) <= hi)
  {
    if bs != [] {
      WithinRange(bs[1..], End(bs[0]), hi);
    }
  }

  lemma {:induction false} WithinJoin(a: seq<Block>, b: seq<Block>, lo: nat, mid: nat, hi: nat)
    requires Within(a, lo, mid) && Within(b, mid, hi)
    ensures Within(a + b, lo, hi)
  {
    if a == [] {
      assert a + b == b;
      WithinDown(b, mid, lo, hi);
    } else {
      assert (a + b)[1..] == a[1..] + b;
      WithinJoin(a[1..], b, End(a[0]), mid, hi);
    }
  }

  lemma {:induction false} WithinDown(bs: seq<Block>, lo: nat, lo': nat, hi: nat)
    requires Within(bs, lo, hi) && lo' <= lo
    ensures Within(bs, lo', hi)
  {
  }

  lemma {:induction false} ListWithin(bs: seq<Block>, lo: nat)
    requires FreeList(bs, lo) && lo <= PAGE_UNITS + 1
    ensures lo <= PAGE_UNITS ==> Within(bs, lo, PAGE_UNITS)
    ensures lo == PAGE_UNITS + 1 ==> bs == []
  {
    if bs != [] {
      ListWithin(bs[1..], End(bs[0]) + 1);
      if End(bs[0]) < PAGE_UNITS { WithinDown(bs[1..], End(bs[0]) + 1, End(bs[0]), PAGE_UNITS); }
    }
  }

  /** set_slob(): a block of one unit keeps its next negated, a larger one its size and its next. */
  predicate Encodes(cells: seq<int>, b: Block, next: nat) {
    && b.size > 0 && End(b) <= |cells|
    && if b.size > 1 then cells[b.start] == b.size && cells[b.start + 1] == next else cells[b.start] + next == 0
  }

  /** The blocks of bs follow each other in the cells, and the last one points to t. */
  predicate Linked(cells: seq<int>, bs: seq<Block>, t: nat) {
    bs != [] ==> Encodes(cells, bs[0], Head(bs[1..], t)) && Linked(cells, bs[1..], t)
  }

  lemma {:induction false} LinkedJoin(cells: seq<int>, a: seq<Block>, b: seq<Block>, t: nat)
    ensures Linked(cells, a + b, t) <==> Linked(cells, a, Head(b, t)) && Linked(cells, b, t)
  {
    if a == [] {
      assert a + b == b;
    } else {
      assert (a + b)[1..] == a[1..] + b;
      LinkedJoin(cells, a[1..], b, t);
    }
  }

  lemma {:induction false} LinkedOne(cells: seq<int>, b: Block, t: nat)
    ensures Linked(cells, [b], t) <==> Encodes(cells, b, t)
  {
    assert [b][1..] == [];
  }

  /** Only units from lo up to hi may differ. */
  predicate OnlyIn(cells: seq<int>, cells': seq<int>, lo: nat, hi: nat) {
    |cells'| == |cells| && forall x :: 0 <= x < |cells| && !(lo <= x < hi) ==> cells'[x] == cells[x]
  }

  lemma {:induction false} OnlyInTwice(c0: seq<int>, c1: seq<int>, c2: seq<int>, lo: nat, mid: nat, mid': nat,
                            hi: nat, l: nat, h: nat)
    requires OnlyIn(c0, c1, lo, mid) && OnlyIn(c1, c2, mid', hi) && l <= lo && l <= mid' && mid <= h && hi <= h
    ensures OnlyIn(c0, c2, l, h)
  {
  }

  /** Blocks outside the units written keep their links. */
  lemma {:induction false} Frame(cells: seq<int>, cells': seq<int>, bs: seq<Block>, t: nat, lo: nat, hi: nat, l: nat,
                            h: nat)
    requires Linked(cells, bs, t) && Within(bs, lo, hi) && OnlyIn(cells, cells', l, h) && (hi <= l || h <= lo)
    ensures Linked(cells', bs, t)
  {
    if bs != [] {
      WithinRange(bs, lo, hi);
      Frame(cells, cells', bs[1..], t, End(bs[0]), hi, l, h);
    }
  }

  /** The list around one of its blocks. */
  lemma {:induction false} Around(cells: seq<int>, a: seq<Block>, b: Block, c: seq<Block>)
    requires |cells| == PAGE_UNITS
    ensures Linked(cells, a + [b] + c, PAGE_UNITS) <==>
      Linked(cells, a, b.start) && Encodes(cells, b, Head(c, PAGE_UNITS)) && Linked(cells, c, PAGE_UNITS)
  {
    LinkedJoin(cells, a + [b], c, PAGE_UNITS);
    LinkedJoin(cells, a, [b], Head(c, PAGE_UNITS));
    LinkedOne(cells, b, Head(c, PAGE_UNITS));
  }

  lemma {:induction false} AroundWithin(a: seq<Block>, b: Block, c: seq<Block>)
    requires Within(a + [b] + c, 0, PAGE_UNITS)
    ensures Within(a, 0, Tail(a, 0)) && Tail(a, 0) <= b.start && b.size > 0
      && End(b) <= Head(c, PAGE_UNITS) <= PAGE_UNITS
    ensures Within(c, End(b), PAGE_UNITS)
  {
    WithinSplit(a + [b], c, 0, PAGE_UNITS);
    WithinSplit(a, [b], 0, Tail(a + [b], 0));
    WithinRange([b], Tail(a, 0), End(b));
  }

  /** Rewriting the last block of a makes a point to t'. */
  lemma {:induction false} Relink(cells: seq<int>, cells': seq<int>, a: seq<Block>, l: Block, t: nat, t': nat)
    requires Linked(cells, a + [l], t) && Within(a + [l], 0, Tail(a + [l], 0))
    requires OnlyIn(cells, cells', l.start, End(l)) && Encodes(cells', l, t')
    ensures Linked(cells', a + [l], t')
  {
    LinkedJoin(cells, a, [l], t);
    WithinSplit(a, [l], 0, End(l));
    Frame(cells, cells', a, l.start, 0, Tail(a, 0), l.start, End(l));
    LinkedOne(cells', l, t');
    LinkedJoin(cells', a, [l], t');
  }

  // ---- the search ----

  /** Units skipped so that a block at cur starts aligned to 2^o units. */
  function Delta(cur: nat, o: nat): (d: nat)
    ensures Aligned(cur + d, o) && d < Pow2(o)
  {
    RoundDownOk(cur + Pow2(o) - 1, o);
    RoundDown(cur + Pow2(o) - 1, o) - cur
  }

  predicate Fits(b: Block, n: nat, o: nat) { b.size >= n + Delta(b.start, o) }

  /** The first block with room; the length of the list if there is none. */
  function FirstFit(bs: seq<Block>, n: nat, o: nat): (i: nat)
    ensures i <= |bs| && (i < |bs| ==> Fits(bs[i], n, o))
  {
    if bs == [] || Fits(bs[0], n, o) then 0 else 1 + FirstFit(bs[1..], n, o)
  }

  lemma {:induction false} FirstFitIsFirst(bs: seq<Block>, n: nat, o: nat)
    ensures forall b <- bs[..FirstFit(bs, n, o)] :: !Fits(b, n, o)
  {
    if bs != [] && !Fits(bs[0], n, o) {
      FirstFitIsFirst(bs[1..], n, o);
      var i := FirstFit(bs[1..], n, o);
      assert bs[..i + 1] == [bs[0]] + bs[1..][..i];
    }
  }

  /** All n units from x on are free, and x is aligned. */
  ghost predicate Spot(bs: seq<Block>, n: nat, o: nat, x: nat) {
    Aligned(x, o) && forall u: nat :: x <= u < x + n ==> Free(bs, u)
  }

  ghost predicate NoSpot(bs: seq<Block>, n: nat, o: nat) { forall x: nat :: !Spot(bs, n, o, x) }

  ghost predicate LowestSpot(bs: seq<Block>, n: nat, o: nat, x: nat) {
    Spot(bs, n, o, x) && forall y: nat :: Spot(bs, n, o, y) ==> x <= y
  }

  /** No aligned unit lies nearer. */
  lemma {:induction false} DeltaLeast(cur: nat, o: nat, x: nat)
    requires Aligned(x, o) && cur <= x
    ensures cur + Delta(cur, o) <= x
  {
    RoundDownOk(cur + Pow2(o) - 1, o);
    if x < cur + Delta(cur, o) {
      AlignedApart(x, cur + Delta(cur, o), o);
    }
  }

  /** Free units in a row lie in one block. */
  lemma {:induction false} InOneBlock(bs: seq<Block>, lo: nat, n: nat, o: nat, x: nat) returns (i: nat)
    requires FreeList(bs, lo) && Spot(bs, n, o, x) && n > 0
    ensures i < |bs| && bs[i].start <= x && x + n <= End(bs[i])
  {
    assert Free(bs, x);
    if Holds(bs[0], x) {
      i := 0;
      NotBelow(bs[1..], End(bs[0]) + 1, End(bs[0]));
      assert End(bs[0]) < x + n ==> Free(bs, End(bs[0]));
    } else {
      NotAbove(bs[1..], End(bs[0]) + 1, x);
      forall u: nat | x <= u < x + n ensures Free(bs[1..], u) { assert Free(bs, u); }
      i := InOneBlock(bs[1..], End(bs[0]) + 1, n, o, x);
      i := i + 1;
    }
  }

  lemma {:induction false} NotAbove(bs: seq<Block>, lo: nat, x: nat)
    requires FreeList(bs, lo) && Free(bs, x)
    ensures x >= lo
  {
    if x < lo { NotBelow(bs, lo, x); }
  }

  lemma {:induction false} FitIsSpot(bs: seq<Block>, i: nat, n: nat, o: nat)
    requires FreeList(bs, 0) && i < |bs| && Fits(bs[i], n, o)
    ensures Spot(bs, n, o, bs[i].start + Delta(bs[i].start, o))
  {
    var a, b, c := bs[..i], bs[i], bs[i + 1..];
    assert bs == a + [b] + c;
    Parts(a, b, c);
    var x := b.start + Delta(b.start, o);
    forall u: nat | x <= u < x + n ensures Free(bs, u) {
      FreeParts(a, [b], c, u);
    }
  }

  lemma {:induction false} InOrder(bs: seq<Block>, i: nat, j: nat)
    requires FreeList(bs, 0) && i < j < |bs|
    ensures End(bs[i]) < bs[j].start
  {
    var a, b, c := bs[..i], bs[i], bs[i + 1..];
    assert bs == a + [b] + c;
    Parts(a, b, c);
    ListDown(c, End(b) + 1, 0);
    StartFree(c, j - i - 1);
    NotAbove(c, End(b) + 1, bs[j].start);
  }

  /** The first block with room holds the lowest spot, and if there is none there is no spot. */
  lemma {:induction false} FirstFitLowest(bs: seq<Block>, n: nat, o: nat)
    requires FreeList(bs, 0) && n > 0
    ensures var i := FirstFit(bs, n, o);
      if i == |bs| then NoSpot(bs, n, o) else LowestSpot(bs, n, o, bs[i].start + Delta(bs[i].start, o))
  {
    var i := FirstFit(bs, n, o);
    FirstFitIsFirst(bs, n, o);
    if i < |bs| { FitIsSpot(bs, i, n, o); }
    forall k | 0 <= k < i ensures !Fits(bs[k], n, o) { assert bs[k] in bs[..i]; }
    forall y: nat | Spot(bs, n, o, y) ensures i < |bs| && bs[i].start + Delta(bs[i].start, o) <= y {
      NotLower(bs, i, n, o, y);
    }
  }

  lemma {:induction false} NotLower(bs: seq<Block>, i: nat, n: nat, o: nat, y: nat)
    requires FreeList(bs, 0) && n > 0 && i <= |bs| && (forall k :: 0 <= k < i ==> !Fits(bs[k], n, o))
      && Spot(bs, n, o, y)
    requires i < |bs| ==> Fits(bs[i], n, o)
    ensures i < |bs| && bs[i].start + Delta(bs[i].start, o) <= y
  {
    var j := InOneBlock(bs, 0, n, o, y);
    DeltaLeast(bs[j].start, o, y);
    assert Fits(bs[j], n, o);
    if i < j { InOrder(bs, i, j); }
  }

  lemma {:induction false} LeaveFront(a: seq<Block>, b: Block, c: seq<Block>, n: nat)
    requires 0 < n <= b.size
    ensures b.size == n ==> a + Leave(b, 0, n) + c == a + c
    ensures b.size > n ==> a + Leave(b, 0, n) + c == a + [Block(b.start + n, b.size - n)] + c
  {
    assert b.size > n ==> Leave(b, 0, n) == [Block(b.start + n, b.size - n)];
    assert b.size == n ==> Leave(b, 0, n) == [];
  }

  lemma {:induction false} LeaveSplit(a: seq<Block>, cur: nat, avail: nat, c: seq<Block>, delta: nat, n: nat)
    requires 0 < n && 0 < delta && delta + n <= avail
    ensures a + [Block(cur, delta)] + Leave(Block(cur + delta, avail - delta), 0, n) + c ==
      a + Leave(Block(cur, avail), delta, n) + c
  {
    assert Leave(Block(cur, avail), delta, n) == [Block(cur, delta)] + Leave(Block(cur + delta, avail - delta), 0, n);
  }

  /** What the walk reads at block i. */
  lemma {:induction false} At(cells: seq<int>, bs: seq<Block>, i: nat)
    requires |cells| == PAGE_UNITS && Within(bs, 0, PAGE_UNITS) && Linked(cells, bs, PAGE_UNITS) && i < |bs|
    ensures Encodes(cells, bs[i], Head(bs[i + 1..], PAGE_UNITS)) && bs[i].start < Head(bs[i + 1..], PAGE_UNITS)
    ensures Head(bs[i + 1..], PAGE_UNITS) == PAGE_UNITS <==> i + 1 == |bs|
    ensures bs[i..][0] == bs[i] && bs[i..][1..] == bs[i + 1..]
  {
    var a, b, c := bs[..i], bs[i], bs[i + 1..];
    assert bs == a + [b] + c;
    Around(cells, a, b, c);
    AroundWithin(a, b, c);
    if c != [] { WithinRange(c, End(b), PAGE_UNITS); }
  }

  // ---- freeing ----

  /** No unit of [b, b + n) is free. */
  ghost predicate Taken(bs: seq<Block>, b: nat, n: nat) { forall x: nat :: b <= x < b + n ==> !Free(bs, x) }

  /** How many blocks come before b. */
  function Place(bs: seq<Block>, b: nat): (p: nat)
    ensures p <= |bs|
  {
    if bs == [] || b < bs[0].start then 0 else 1 + Place(bs[1..], b)
  }

  lemma {:induction false} PlaceOk(bs: seq<Block>, lo: nat, b: nat, n: nat)
    requires FreeList(bs, lo) && Taken(bs, b, n) && n > 0
    ensures var p := Place(bs, b); Below(bs[..p], lo, b + 1) && FreeList(bs[p..], b + n)
  {
    if bs != [] {
      assert !Free(bs, b);
      if b < bs[0].start {
        assert Free(bs, bs[0].start);
        ListDown(bs, bs[0].start, b + n);
      } else {
        forall x: nat | b <= x < b + n ensures !Free(bs[1..], x) { assert !Free(bs, x); }
        PlaceOk(bs[1..], End(bs[0]) + 1, b, n);
        var p := Place(bs[1..], b);
        assert bs[..p + 1] == [bs[0]] + bs[1..][..p] && bs[..p + 1][1..] == bs[1..][..p];
      }
    }
  }

  lemma {:induction false} StartFree(bs: seq<Block>, i: nat)
    requires FreeList(bs, 0) && i <= |bs|
    ensures i < |bs| ==> Free(bs, bs[i].start)
  {
    if i < |bs| {
      assert bs == bs[..i] + [bs[i]] + bs[i + 1..];
      Parts(bs[..i], bs[i], bs[i + 1..]);
      FreeParts(bs[..i], [bs[i]], bs[i + 1..], bs[i].start);
    }
  }

  lemma {:induction false} AfterHead(j: seq<Block>, lo: nat)
    requires j != [] && Within(j, lo, PAGE_UNITS)
    ensures End(j[0]) <= Head(j[1..], PAGE_UNITS) && j[0].size > 0
  {
    WithinRange(j, lo, PAGE_UNITS);
  }

  lemma {:induction false} FrameBefore(cells: seq<int>, cells': seq<int>, a: seq<Block>, l: Block, t: nat, lo: nat,
                            hi: nat)
    requires Linked(cells, a, l.start) && Encodes(cells, l, t) && Within(a, 0, Tail(a, 0)) && Tail(a, 0) <= l.start
    requires OnlyIn(cells, cells', lo, hi) && End(l) <= lo
    ensures Linked(cells', a, l.start) && Encodes(cells', l, t)
  {
    Frame(cells, cells', a, l.start, 0, Tail(a, 0), lo, hi);
  }

  lemma {:induction false} InsertAfterLast(a: seq<Block>, l: Block, b: nat, n: nat, c: seq<Block>)
    ensures var j := Joined(b, n, c);
      Insert(a + [l], b, n, c) == if End(l) == b then a + [Block(l.start, l.size + j[0].size)] + j[1..] else a + [l] + j
  {
    var j := Joined(b, n, c);
    InsertIsJoin(a + [l], b, n, c);
    assert (a + [l])[..|a|] == a;
    assert a + [Block(l.start, l.size + j[0].size)] + j[1..] == a + ([Block(l.start, l.size + j[0].size)] + j[1..]);
  }

  /** The list after has exactly the units of [b, b + n) more. */
  ghost predicate Released(bs: seq<Block>, b: nat, n: nat, bs': seq<Block>) {
    forall x: nat :: Free(bs', x) <==> Free(bs, x) || b <= x < b + n
  }

  /** Nothing on the page is in use but [b, b + n). */
  ghost predicate OnlyUse(bs: seq<Block>, b: nat, n: nat) {
    forall x: nat :: x < PAGE_UNITS ==> (Free(bs, x) <==> !(b <= x < b + n))
  }

  lemma {:induction false} InsertTaken(bs: seq<Block>, b: nat, n: nat, p: nat)
    requires FreeList(bs, 0) && Taken(bs, b, n) && n > 0 && b + n <= PAGE_UNITS && p == Place(bs, b)
    ensures var r := Insert(bs[..p], b, n, bs[p..]);
      FreeList(r, 0) && Units(r) == Units(bs) + n && Released(bs, b, n, r)
  {
    PlaceOk(bs, 0, b, n);
    assert bs == bs[..p] + bs[p..];
    UnitsJoin(bs[..p], bs[p..]);
    InsertOk(bs[..p], b, n, bs[p..], 0);
    forall x: nat ensures Free(Insert(bs[..p], b, n, bs[p..]), x) <==> Free(bs, x) || b <= x < b + n {
      InsertOk(bs[..p], b, n, bs[p..], x);
      FreeJoin(bs[..p], bs[p..], x);
    }
  }

  /** A list with every unit of the page is one block. */
  lemma {:induction false} Full(bs: seq<Block>, lo: nat)
    requires FreeList(bs, lo)
    ensures bs != [] ==> Units(bs) + lo <= PAGE_UNITS
    ensures bs != [] && Units(bs) + lo == PAGE_UNITS ==> bs == [Block(lo, PAGE_UNITS - lo)]
  {
    if bs != [] {
      Full(bs[1..], End(bs[0]) + 1);
    }
  }

  lemma {:induction false} LastUse(bs: seq<Block>, b: nat, n: nat, r: seq<Block>)
    requires Taken(bs, b, n) && FreeList(r, 0) && Units(r) == PAGE_UNITS && Released(bs, b, n, r)
    ensures OnlyUse(bs, b, n)
  {
    Full(r, 0);
    forall x: nat | x < PAGE_UNITS ensures Free(bs, x) <==> !(b <= x < b + n) {
      assert Free(r, x);
    }
  }

  lemma {:induction false} NoUnits(bs: seq<Block>, lo: nat)
    requires FreeList(bs, lo) && Units(bs) == 0
    ensures bs == []
  {
  }

  lemma {:induction false} HeadStays(bs: seq<Block>, b: nat, n: nat, p: nat)
    requires 0 < p <= |bs|
    ensures Head(Insert(bs[..p], b, n, bs[p..]), PAGE_UNITS) == Head(bs, PAGE_UNITS)
  {
  }

  /** The freed block written in front of c, joined with the first block of c if they touch. */
  lemma {:induction false} JoinedLinked(cells: seq<int>, cells': seq<int>, b: nat, n: nat, c: seq<Block>)
    requires |cells| == PAGE_UNITS && n > 0 && b + n <= PAGE_UNITS && FreeList(c, b + n) && Linked(cells, c, PAGE_UNITS)
    requires var j := Joined(b, n, c);
      OnlyIn(cells, cells', b, End(j[0])) && Encodes(cells', j[0], Head(j[1..], PAGE_UNITS))
    ensures Linked(cells', Joined(b, n, c), PAGE_UNITS) && Within(Joined(b, n, c), b, PAGE_UNITS)
  {
    var j := Joined(b, n, c);
    JoinedOk(b, n, c, 0);
    ListWithin(j, b);
    assert j[1..] == if c != [] && b + n == c[0].start then c[1..] else c;
    Frame(cells, cells', j[1..], PAGE_UNITS, End(j[0]), PAGE_UNITS, b, End(j[0]));
  }

  /** The block before grows by the first block of j. */
  lemma {:induction false} GrowLinked(cells: seq<int>, cells': seq<int>, a: seq<Block>, l: Block, j: seq<Block>)
    requires |cells| == PAGE_UNITS && j != [] && End(l) == j[0].start && l.size > 0
    requires Within(a, 0, Tail(a, 0)) && Tail(a, 0) <= l.start && Within(j, End(l), PAGE_UNITS)
    requires Linked(cells, a, l.start) && Linked(cells, j, PAGE_UNITS)
    requires var m := Block(l.start, l.size + j[0].size);
      OnlyIn(cells, cells', l.start, End(m)) && Encodes(cells', m, Head(j[1..], PAGE_UNITS))
    ensures Linked(cells', a + [Block(l.start, l.size + j[0].size)] + j[1..], PAGE_UNITS)
  {
    var m := Block(l.start, l.size + j[0].size);
    Frame(cells, cells', a, l.start, 0, Tail(a, 0), l.start, End(m));
    Frame(cells, cells', j[1..], PAGE_UNITS, End(m), PAGE_UNITS, l.start, End(m));
    Around(cells', a, m, j[1..]);
  }

  /** The block before is made to point to j. */
  lemma {:induction false} PointLinked(cells: seq<int>, cells': seq<int>, a: seq<Block>, l: Block, j: seq<Block>)
    requires |cells| == PAGE_UNITS && j != [] && l.size > 0 && End(l) <= j[0].start
    requires Within(a, 0, Tail(a, 0)) && Tail(a, 0) <= l.start && Within(j, End(l), PAGE_UNITS)
    requires Linked(cells, a, l.start) && Linked(cells, j, PAGE_UNITS)
    requires OnlyIn(cells, cells', l.start, End(l)) && Encodes(cells', l, j[0].start)
    ensures Linked(cells', a + [l] + j, PAGE_UNITS)
  {
    Frame(cells, cells', a, l.start, 0, Tail(a, 0), l.start, End(l));
    Frame(cells, cells', j, PAGE_UNITS, End(l), PAGE_UNITS, l.start, End(l));
    Around(cells', a, l, j);
  }

  class Page {
    const cells: array<int>
    var units: int
    var freelist: nat
    /** PageSlobFree: the page is on a list of partially free pages. */
    var onList: bool
    ghost var bs: seq<Block>

    /** The chain from freelist spells out list. */
    ghost predicate Spells(list: seq<Block>)
      reads this, cells
    {
      && cells.Length == PAGE_UNITS && Within(list, 0, PAGE_UNITS) && Linked(cells[..], list, PAGE_UNITS)
      && freelist == Head(list, PAGE_UNITS)
    }

    ghost predicate Valid()
      reads this, cells
    {
      && cells.Length == PAGE_UNITS && FreeList(bs, 0) && units == Units(bs) && (onList <==> units > 0)
      && (onList ==> Spells(bs))
    }

    /** set_slob() */
    method SetSlob(s: nat, size: nat, next: nat)
      requires cells.Length == PAGE_UNITS && size > 0 && s + size <= PAGE_UNITS
      modifies cells
      ensures OnlyIn(old(cells[..]), cells[..], s, s + size) && Encodes(cells[..], Block(s, size), next)
    {
      if size > 1 {
        cells[s] := size;
        cells[s + 1] := next;
      } else {
        cells[s] := -(next as int);
      }
    }

    /** slob_units() */
    method SlobUnits(s: nat, ghost b: Block, ghost next: nat) returns (n: nat)
      requires cells.Length == PAGE_UNITS && b.start == s && Encodes(cells[..], b, next)
      ensures n == b.size
    {
      n := if cells[s] > 0 then cells[s] else 1;
    }

    /** slob_next() */
    method SlobNext(s: nat, ghost b: Block, ghost next: nat) returns (n: nat)
      requires cells.Length == PAGE_UNITS && b.start == s && Encodes(cells[..], b, next) && next > s
      ensures n == next
    {
      if cells[s] < 0 {
        n := -cells[s];
      } else {
        n := cells[s + 1];
      }
    }

    /** Cutting a block at delta, to align what follows. */
    method SplitHead(ghost a: seq<Block>, cur: nat, avail: nat, delta: nat, ghost c: seq<Block>)
      requires Spells(a + [Block(cur, avail)] + c) && 0 < delta < avail
      modifies cells
      ensures Spells(a + [Block(cur, delta)] + [Block(cur + delta, avail - delta)] + c)
    {
      ghost var c0, b := cells[..], Block(cur, avail);
      Around(c0, a, b, c);
      AroundWithin(a, b, c);
      var next := SlobNext(cur, b, Head(c, PAGE_UNITS));
      SetSlob(cur + delta, avail - delta, next);
      ghost var c1 := cells[..];
      SetSlob(cur, delta, cur + delta);
      SplitLinked(c0, c1, cells[..], a, cur, avail, delta, c);
    }

    /** Makes the block before, or freelist if there is none, point to next. */
    method SetPrev(ghost a: seq<Block>, prev: int, next: nat, ghost t: nat)
      requires cells.Length == PAGE_UNITS && Linked(cells[..], a, t) && Within(a, 0, Tail(a, 0))
      requires if a == [] then prev == -1 else prev == a[|a| - 1].start
      modifies this`freelist, cells
      ensures OnlyIn(old(cells[..]), cells[..], 0, Tail(a, 0)) && Linked(cells[..], a, next)
      ensures freelist == if a == [] then next else old(freelist)
    {
      ghost var c0 := cells[..];
      if prev >= 0 {
        ghost var p, l := a[..|a| - 1], a[|a| - 1];
        assert a == p + [l];
        LinkedJoin(c0, p, [l], t);
        LinkedOne(c0, l, t);
        var n := SlobUnits(prev, l, t);
        SetSlob(prev, n, next);
        Relink(c0, cells[..], p, l, t, next);
      } else {
        freelist := next;
      }
    }

    /** Exact fit: the block goes. */
    method Unlink(ghost a: seq<Block>, prev: int, ghost b: Block, next: nat, ghost c: seq<Block>)
      requires Spells(a + [b] + c) && next == Head(c, PAGE_UNITS)
      requires if a == [] then prev == -1 else prev == a[|a| - 1].start
      modifies this`freelist, cells
      ensures Spells(a + c)
    {
      ghost var c0 := cells[..];
      Around(c0, a, b, c);
      AroundWithin(a, b, c);
      SetPrev(a, prev, next, b.start);
      Frame(c0, cells[..], c, PAGE_UNITS, End(b), PAGE_UNITS, 0, Tail(a, 0));
      LinkedJoin(cells[..], a, c, PAGE_UNITS);
      WithinDown(c, End(b), Tail(a, 0), PAGE_UNITS);
      WithinJoin(a, c, 0, Tail(a, 0), PAGE_UNITS);
    }

    /** The stores of a trim: the block before points past the n units, and the rest is written there. */
    method TrimStores(ghost a: seq<Block>, prev: int, cur: nat, avail: nat, next: nat, n: nat)
      returns (ghost c1: seq<int>)
      requires cells.Length == PAGE_UNITS && Linked(cells[..], a, cur) && Within(a, 0, Tail(a, 0)) && 0 < n < avail
        && cur + avail <= PAGE_UNITS
      requires if a == [] then prev == -1 else prev == a[|a| - 1].start
      modifies this`freelist, cells
      ensures OnlyIn(old(cells[..]), c1, 0, Tail(a, 0)) && Linked(c1, a, cur + n)
      ensures OnlyIn(c1, cells[..], cur + n, cur + avail) && Encodes(cells[..], Block(cur + n, avail - n), next)
      ensures freelist == if a == [] then cur + n else old(freelist)
    {
      SetPrev(a, prev, cur + n, cur);
      c1 := cells[..];
      SetSlob(cur + n, avail - n, next);
    }

    /** The block keeps all but its first n units. */
    method Trim(ghost a: seq<Block>, prev: int, cur: nat, avail: nat, next: nat, ghost c: seq<Block>, n: nat)
      requires Spells(a + [Block(cur, avail)] + c) && 0 < n < avail && next == Head(c, PAGE_UNITS)
      requires if a == [] then prev == -1 else prev == a[|a| - 1].start
      modifies this`freelist, cells
      ensures Spells(a + [Block(cur + n, avail - n)] + c)
    {
      ghost var c0 := cells[..];
      Around(c0, a, Block(cur, avail), c);
      AroundWithin(a, Block(cur, avail), c);
      ghost var c1 := TrimStores(a, prev, cur, avail, next, n);
      TrimLinked(c0, c1, cells[..], a, cur, avail, n, c);
    }

    /** Takes n units off the front of a block. */
    method TakeFront(ghost a: seq<Block>, prev: int, cur: nat, avail: nat, ghost c: seq<Block>, n: nat)
      requires Spells(a + [Block(cur, avail)] + c) && 0 < n <= avail
      requires if a == [] then prev == -1 else prev == a[|a| - 1].start
      modifies this`freelist, cells
      ensures Spells(a + Leave(Block(cur, avail), 0, n) + c)
    {
      ghost var b := Block(cur, avail);
      Around(cells[..], a, b, c);
      AroundWithin(a, b, c);
      var next := SlobNext(cur, b, Head(c, PAGE_UNITS));
      LeaveFront(a, b, c, n);
      if avail == n {
        Unlink(a, prev, b, next, c);
      } else {
        Trim(a, prev, cur, avail, next, c, n);
      }
    }

    /** Takes n units at delta inside a block. */
    method TakeAt(ghost a: seq<Block>, prev: int, cur: nat, avail: nat, ghost c: seq<Block>, delta: nat, n: nat)
      returns (r: nat)
      requires Spells(a + [Block(cur, avail)] + c) && 0 < n && delta + n <= avail
      requires if a == [] then prev == -1 else prev == a[|a| - 1].start
      modifies this`freelist, cells
      ensures Spells(a + Leave(Block(cur, avail), delta, n) + c) && r == cur + delta
    {
      r := cur + delta;
      if delta > 0 {
        SplitHead(a, cur, avail, delta, c);
        LeaveSplit(a, cur, avail, c, delta, n);
        TakeFront(a + [Block(cur, delta)], cur, cur + delta, avail - delta, c, n);
      } else {
        TakeFront(a, prev, cur, avail, c, n);
      }
    }

    /** The walk of slob_page_alloc(): the first block with room, and the block before it. */
    method FindFit(n: nat, o: nat) returns (found: bool, prev: int, cur: nat, avail: nat, delta: nat)
      requires Spells(bs) && bs != []
      ensures found <==> FirstFit(bs, n, o) < |bs|
      ensures found ==>
        var i := FirstFit(bs, n, o);
        && bs[i] == Block(cur, avail) && delta == Delta(cur, o)
          && (if i == 0 then prev == -1 else prev == bs[i - 1].start)
    {
      prev, cur := -1, freelist;
      ghost var i: nat := 0;
      assert bs[0..] == bs;
      while true
        invariant i < |bs| && cur == bs[i].start && (if i == 0 then prev == -1 else prev == bs[i - 1].start)
        invariant FirstFit(bs, n, o) == i + FirstFit(bs[i..], n, o)
        decreases |bs| - i
      {
        At(cells[..], bs, i);
        avail := SlobUnits(cur, bs[i], Head(bs[i + 1..], PAGE_UNITS));
        delta := Delta(cur, o);
        if avail >= n + delta {
          return true, prev, cur, avail, delta;
        }
        var next := SlobNext(cur, bs[i], Head(bs[i + 1..], PAGE_UNITS));
        if next == PAGE_UNITS {
          return false, prev, cur, avail, delta;
        }
        prev, cur, i := cur, next, i + 1;
      }
    }

    /** slob_page_alloc() for n units aligned to 2^o units; -1 when no block has room. */
    method PageAlloc(n: nat, o: nat) returns (r: int)
      requires Valid() && onList && n > 0
      modifies this, cells
      ensures Valid()
      ensures r == -1 <==> NoSpot(old(bs), n, o)
      ensures r != -1 ==> r >= 0 && LowestSpot(old(bs), n, o, r)
      ensures var i := FirstFit(old(bs), n, o);
        if i == |old(bs)| then r == -1 && bs == old(bs) && units == old(units)
        else
          && r == old(bs)[i].start + Delta(old(bs)[i].start, o)
          && bs == old(bs)[..i] + Leave(old(bs)[i], Delta(old(bs)[i].start, o), n) + old(bs)[i + 1..]
          && units == old(units) - n
    {
      FirstFitLowest(bs, n, o);
      var found, prev, cur, avail, delta := FindFit(n, o);
      if !found {
        return -1;
      }
      ghost var i := FirstFit(bs, n, o);
      r := TakeBlock(i, prev, cur, avail, delta, n);
    }

    /** Takes the n units out of the block found, number i of the list. */
    method TakeBlock(ghost i: nat, prev: int, cur: nat, avail: nat, delta: nat, n: nat) returns (r: nat)
      requires Valid() && onList && i < |bs| && bs[i] == Block(cur, avail) && delta + n <= avail && n > 0
      requires if i == 0 then prev == -1 else prev == bs[i - 1].start
      modifies this, cells
      ensures Valid() && r == cur + delta && units == old(units) - n
      ensures bs == old(bs)[..i] + Leave(old(bs)[i], delta, n) + old(bs)[i + 1..]
    {
      ghost var a, b, c := bs[..i], bs[i], bs[i + 1..];
      assert bs == a + [b] + c;
      AllocList(a, b, c, delta, n);
      r := TakeAt(a, prev, cur, avail, c, delta, n);
      units, bs := units - n, a + Leave(b, delta, n) + c;
      if units == 0 {
        onList := false;
      }
    }

    /** Writes the freed block in front of c, taking in the block at next if they touch. */
    method PutBefore(b: nat, n: nat, next: nat, ghost c: seq<Block>)
      requires cells.Length == PAGE_UNITS && n > 0 && b + n <= PAGE_UNITS && FreeList(c, b + n)
        && Linked(cells[..], c, PAGE_UNITS)
      requires next == Head(c, PAGE_UNITS)
      modifies cells
      ensures OnlyIn(old(cells[..]), cells[..], b, End(Joined(b, n, c)[0]))
        && Linked(cells[..], Joined(b, n, c), PAGE_UNITS)
      ensures Within(Joined(b, n, c), b, PAGE_UNITS)
    {
      ghost var c0 := cells[..];
      if next != PAGE_UNITS && b + n == next {
        ghost var t := Head(c[1..], PAGE_UNITS);
        var size := SlobUnits(next, c[0], t);
        var nn := SlobNext(next, c[0], t);
        SetSlob(b, n + size, nn);
      } else {
        SetSlob(b, n, next);
      }
      JoinedLinked(c0, cells[..], b, n, c);
    }

    /** Links the block before, l, to the freed block at b, or lets it grow by it. */
    method PutAfter(ghost a: seq<Block>, ghost l: Block, prev: nat, ghost j: seq<Block>, b: nat, ghost t: nat)
      requires cells.Length == PAGE_UNITS && j != [] && j[0].start == b && l.start == prev && End(l) <= b && l.size > 0
      requires Within(a, 0, Tail(a, 0)) && Tail(a, 0) <= l.start && Within(j, End(l), PAGE_UNITS)
      requires Linked(cells[..], a, l.start) && Encodes(cells[..], l, t) && Linked(cells[..], j, PAGE_UNITS)
      modifies cells
      ensures Linked(cells[..], if End(l) == b then a + [Block(prev, l.size + j[0].size)] + j[1..]
        else a + [l] + j, PAGE_UNITS)
    {
      ghost var c0, t' := cells[..], Head(j[1..], PAGE_UNITS);
      AfterHead(j, End(l));
      var size := SlobUnits(prev, l, t);
      if prev + size == b {
        var more := SlobUnits(b, j[0], t');
        var next := SlobNext(b, j[0], t');
        SetSlob(prev, more + size, next);
        GrowLinked(c0, cells[..], a, l, j);
      } else {
        SetSlob(prev, size, b);
        PointLinked(c0, cells[..], a, l, j);
      }
    }

    /** The walk of slob_free(): the last block before b, and what it points to. */
    method FindPlace(b: nat, n: nat) returns (prev: nat, next: nat)
      requires Spells(bs) && bs != [] && freelist <= b < PAGE_UNITS && FreeList(bs, 0) && Taken(bs, b, n) && n > 0
      ensures var p := Place(bs, b);
        && p > 0 && prev == bs[p - 1].start && next == Head(bs[p..], PAGE_UNITS)
    {
      ghost var i: nat := 0;
      At(cells[..], bs, 0);
      prev := freelist;
      next := SlobNext(prev, bs[0], Head(bs[1..], PAGE_UNITS));
      while b > next
        invariant i < |bs| && prev == bs[i].start && next == Head(bs[i + 1..], PAGE_UNITS)
        invariant Place(bs, b) == i + 1 + Place(bs[i + 1..], b)
        decreases |bs| - i
      {
        prev, i := next, i + 1;
        At(cells[..], bs, i);
        next := SlobNext(prev, bs[i], Head(bs[i + 1..], PAGE_UNITS));
      }
      StartFree(bs, i + 1);
      assert !Free(bs, b);
    }

    method FreeBetween(ghost a: seq<Block>, ghost l: Block, ghost c: seq<Block>, prev: nat, next: nat, b: nat, n: nat)
      requires cells.Length == PAGE_UNITS && Within(a + [l] + c, 0, PAGE_UNITS)
        && Linked(cells[..], a + [l] + c, PAGE_UNITS)
      requires prev == l.start && next == Head(c, PAGE_UNITS) && End(l) <= b && n > 0 && b + n <= PAGE_UNITS
        && FreeList(c, b + n)
      modifies cells
      ensures Linked(cells[..], Insert(a + [l], b, n, c), PAGE_UNITS)
    {
      ghost var c0, j := cells[..], Joined(b, n, c);
      Around(c0, a, l, c);
      AroundWithin(a, l, c);
      PutBefore(b, n, next, c);
      FrameBefore(c0, cells[..], a, l, next, b, End(j[0]));
      WithinDown(j, b, End(l), PAGE_UNITS);
      PutAfter(a, l, prev, j, b, next);
      InsertAfterLast(a, l, b, n, c);
    }

    /** slob_free() at or after freelist: the freed block goes between the blocks before and after it. */
    method FreeAfter(b: nat, n: nat)
      requires Spells(bs) && bs != [] && freelist <= b && b + n <= PAGE_UNITS && FreeList(bs, 0) && Taken(bs, b, n)
        && n > 0
      modifies cells
      ensures var p := Place(bs, b); Linked(cells[..], Insert(bs[..p], b, n, bs[p..]), PAGE_UNITS) && p > 0
    {
      ghost var p := Place(bs, b);
      var prev, next := FindPlace(b, n);
      PlaceOk(bs, 0, b, n);
      ghost var a, l, c := bs[..p - 1], bs[p - 1], bs[p..];
      assert bs == a + [l] + c && bs[..p] == a + [l] && l in bs[..p];
      FreeBetween(a, l, c, prev, next, b, n);
    }

    /** The freed block joins the list of a page that stays. */
    method PutBack(b: nat, n: nat)
      requires FreeList(bs, 0) && Taken(bs, b, n) && n > 0 && b + n <= PAGE_UNITS && cells.Length == PAGE_UNITS
      requires if onList then Spells(bs) && bs != [] else bs == []
      modifies this`freelist, cells
      ensures var p := Place(bs, b); Spells(Insert(bs[..p], b, n, bs[p..]))
    {
      ghost var p := Place(bs, b);
      InsertTaken(bs, b, n, p);
      ListWithin(Insert(bs[..p], b, n, bs[p..]), 0);
      if !onList {
        SetSlob(b, n, PAGE_UNITS);
        freelist := b;
        LinkedOne(cells[..], Block(b, n), PAGE_UNITS);
      } else if b < freelist {
        PlaceOk(bs, 0, b, n);
        assert bs[0..] == bs;
        PutBefore(b, n, freelist, bs);
        freelist := b;
        InsertIsJoin([], b, n, bs);
      } else {
        FreeAfter(b, n);
        HeadStays(bs, b, n, p);
      }
    }

    /** slob_free(): gone says that the page goes back to the page allocator. */
    method Release(b: nat, n: nat) returns (gone: bool)
      requires Valid() && Taken(bs, b, n) && n > 0 && b + n <= PAGE_UNITS
      modifies this, cells
      ensures gone <==> old(units) + n == PAGE_UNITS
      ensures gone ==> !onList && OnlyUse(old(bs), b, n)
      ensures !gone ==> Valid() && onList && units == old(units) + n && Released(old(bs), b, n, bs)
    {
      ghost var p := Place(bs, b);
      ghost var list := Insert(bs[..p], b, n, bs[p..]);
      InsertTaken(bs, b, n, p);
      if units + n == PAGE_UNITS {
        LastUse(bs, b, n, list);
        onList := false;
        return true;
      }
      if !onList { NoUnits(bs, 0); }
      PutBack(b, n);
      units, onList, bs := units + n, true, list;
      return false;
    }

    /** A fresh page: one free block. */
    constructor ()
      ensures Valid() && bs == [Block(0, PAGE_UNITS)] && onList
    {
      cells := new int[PAGE_UNITS](_ => 0);
      units, freelist, onList, bs := PAGE_UNITS, 0, true, [Block(0, PAGE_UNITS)];
      new;
      SetSlob(0, PAGE_UNITS, PAGE_UNITS);
      assert bs[1..] == [];
    }
  }

  lemma {:induction false} SplitLinked(c0: seq<int>, c1: seq<int>, c2: seq<int>, a: seq<Block>, cur: nat, avail: nat,
                            delta: nat, c: seq<Block>)
    requires |c0| == PAGE_UNITS && 0 < delta < avail && Within(a + [Block(cur, avail)] + c, 0, PAGE_UNITS)
    requires Linked(c0, a + [Block(cur, avail)] + c, PAGE_UNITS)
    requires OnlyIn(c0, c1, cur + delta, cur + avail)
      && Encodes(c1, Block(cur + delta, avail - delta), Head(c, PAGE_UNITS))
    requires OnlyIn(c1, c2, cur, cur + delta) && Encodes(c2, Block(cur, delta), cur + delta)
    ensures var r := a + [Block(cur, delta)] + [Block(cur + delta, avail - delta)] + c;
      && Within(r, 0, PAGE_UNITS) && Linked(c2, r, PAGE_UNITS) && Head(r, 0) == Head(a + [Block(cur, avail)] + c, 0)
  {
    var b, x, y := Block(cur, avail), Block(cur, delta), Block(cur + delta, avail - delta);
    Around(c0, a, b, c);
    AroundWithin(a, b, c);
    OnlyInTwice(c0, c1, c2, cur + delta, cur + avail, cur, cur + delta, cur, cur + avail);
    Frame(c0, c2, a, cur, 0, Tail(a, 0), cur, cur + avail);
    Frame(c0, c2, c, PAGE_UNITS, cur + avail, PAGE_UNITS, cur, cur + avail);
    LinkedOne(c1, y, Head(c, PAGE_UNITS));
    Frame(c1, c2, [y], Head(c, PAGE_UNITS), cur + delta, cur + avail, cur, cur + delta);
    LinkedOne(c2, y, Head(c, PAGE_UNITS));
    Around(c2, a + [x], y, c);
    LinkedJoin(c2, a, [x], y.start);
    LinkedOne(c2, x, y.start);
    PutTwo(a, x, y, c);
  }

  lemma {:induction false} TrimLinked(c0: seq<int>, c1: seq<int>, c2: seq<int>, a: seq<Block>, cur: nat, avail: nat,
                            n: nat, c: seq<Block>)
    requires |c0| == PAGE_UNITS && 0 < n < avail && Linked(c0, c, PAGE_UNITS)
    requires Within(a, 0, Tail(a, 0)) && Tail(a, 0) <= cur && Within(c, cur + avail, PAGE_UNITS)
    requires OnlyIn(c0, c1, 0, Tail(a, 0)) && Linked(c1, a, cur + n)
    requires OnlyIn(c1, c2, cur + n, cur + avail) && Encodes(c2, Block(cur + n, avail - n), Head(c, PAGE_UNITS))
    ensures var r := a + [Block(cur + n, avail - n)] + c; Within(r, 0, PAGE_UNITS) && Linked(c2, r, PAGE_UNITS)
  {
    var y := Block(cur + n, avail - n);
    Frame(c1, c2, a, cur + n, 0, Tail(a, 0), cur + n, cur + avail);
    Frame(c0, c1, c, PAGE_UNITS, cur + avail, PAGE_UNITS, 0, Tail(a, 0));
    Frame(c1, c2, c, PAGE_UNITS, cur + avail, PAGE_UNITS, cur + n, cur + avail);
    Around(c2, a, y, c);
    PutOne(a, y, c);
  }

  lemma {:induction false} PutOne(a: seq<Block>, y: Block, c: seq<Block>)
    requires Within(a, 0, Tail(a, 0)) && Tail(a, 0) <= y.start && y.size > 0 && Within(c, End(y), PAGE_UNITS)
    ensures Within(a + [y] + c, 0, PAGE_UNITS)
  {
    assert [y][1..] == [];
    WithinJoin(a, [y], 0, Tail(a, 0), End(y));
    WithinJoin(a + [y], c, 0, End(y), PAGE_UNITS);
  }

  lemma {:induction false} PutTwo(a: seq<Block>, x: Block, y: Block, c: seq<Block>)
    requires Within(a, 0, Tail(a, 0)) && Tail(a, 0) <= x.start && x.size > 0 && End(x) <= y.start && y.size > 0
      && Within(c, End(y), PAGE_UNITS)
    ensures Within(a + [x] + [y] + c, 0, PAGE_UNITS)
  {
    assert [x][1..] == [] && [y][1..] == [];
    WithinJoin(a, [x], 0, Tail(a, 0), End(x));
    WithinJoin(a + [x], [y], 0, End(x), End(y));
    WithinJoin(a + [x] + [y], c, 0, End(y), PAGE_UNITS);
  }

  /** Freeing what was just allocated gives the list back, unless the page goes away. */
  method AllocThenFree(page: Page, n: nat, o: nat) returns (r: int, gone: bool)
    requires page.Valid() && page.onList && n > 0
    modifies page, page.cells
    ensures gone <==> r >= 0 && old(page.units) == PAGE_UNITS
    ensures !gone ==> page.Valid() && page.bs == old(page.bs) && page.units == old(page.units)
  {
    r := page.PageAlloc(n, o);
    gone := false;
    if r >= 0 {
      ghost var bs0, bs1 := old(page.bs), page.bs;
      ghost var i := FirstFit(bs0, n, o);
      AllocTaken(bs0, i, Delta(bs0[i].start, o), n);
      gone := page.Release(r, n);
      if !gone {
        Restored(bs0, bs1, page.bs, r, n);
      }
    }
  }

  lemma {:induction false} AllocTaken(bs: seq<Block>, i: nat, delta: nat, n: nat)
    requires FreeList(bs, 0) && i < |bs| && delta + n <= bs[i].size && n > 0
    ensures var r := bs[..i] + Leave(bs[i], delta, n) + bs[i + 1..]; var b := bs[i].start + delta;
      Taken(r, b, n) && Released(r, b, n, bs) && b + n <= PAGE_UNITS
  {
    var r := bs[..i] + Leave(bs[i], delta, n) + bs[i + 1..];
    var b := bs[i].start + delta;
    assert bs == bs[..i] + [bs[i]] + bs[i + 1..];
    Parts(bs[..i], bs[i], bs[i + 1..]);
    forall x: nat ensures Free(r, x) <==> Free(bs, x) && !(b <= x < b + n) {
      AllocFree(bs[..i], bs[i], bs[i + 1..], delta, n, x);
    }
    forall x: nat ensures b <= x < b + n ==> Free(bs, x) {
      AllocFree(bs[..i], bs[i], bs[i + 1..], delta, n, x);
    }
  }

  lemma {:induction false} Restored(bs: seq<Block>, bs': seq<Block>, bs'': seq<Block>, b: nat, n: nat)
    requires FreeList(bs, 0) && FreeList(bs'', 0) && Released(bs', b, n, bs) && Released(bs', b, n, bs'')
    ensures bs'' == bs
  {
    forall x: nat ensures Free(bs'', x) <==> Free(bs, x) {
      assert Free(bs, x) <==> Free(bs', x) || b <= x < b + n;
    }
    Canonical(bs'', bs, 0);
  }
}
