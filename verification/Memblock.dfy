/** The region arrays of memblock (mm/memblock.c) as sequences, and the address map they stand for. */
module Memblock {
  import opened Basics

  const ULLONG_MAX := 0xffff_ffff_ffff_ffff
  const MAX_NUMNODES := 64

  type Addr = nat

  datatype Attr = Attr(nid: int, flags: int)
  datatype Region = Region(base: Addr, size: nat, attr: Attr)

  function End(r: Region): Addr { r.base + r.size }

  /** The region from lo up to hi. */
  function Span(lo: Addr, hi: Addr, a: Attr): (r: Region)
    requires lo <= hi
  {
    Region(lo, hi - lo, a)
  }

  predicate Holds(r: Region, x: Addr) { r.base <= x < End(r) }

  /** The node and flags of an address, if a region covers it. */
  function Lookup(rs: seq<Region>, x: Addr): (a: Option<Attr>) {
    if rs == [] then None else if Holds(rs[0], x) then Some(rs[0].attr) else Lookup(rs[1..], x)
  }

  function Total(rs: seq<Region>): (n: nat) {
    if rs == [] then 0 else rs[0].size + Total(rs[1..])
  }

  /** Regions start at lo or above, are not empty, ascend without overlap, and end at the address limit. */
  predicate Sorted(rs: seq<Region>, lo: Addr) {
    rs != [] ==> lo <= rs[0].base && rs[0].size > 0 && End(rs[0]) <= ULLONG_MAX && Sorted(rs[1..], End(rs[0]))
  }

  predicate Mergeable(a: Region, b: Region) { End(a) == b.base && a.attr == b.attr }

  /** No two neighbours could be one region. */
  predicate Apart(rs: seq<Region>) {
    |rs| >= 2 ==> !Mergeable(rs[0], rs[1]) && Apart(rs[1..])
  }

  predicate Minimal(rs: seq<Region>) { Sorted(rs, 0) && Apart(rs) }

  lemma {:induction false} LookupBelow(rs: seq<Region>, lo: Addr, x: Addr)
    requires Sorted(rs, lo) && x < lo
    ensures Lookup(rs, x) == None
  {
    if rs != [] {
      LookupBelow(rs[1..], End(rs[0]), x);
    }
  }

  lemma {:induction false} SortedDown(rs: seq<Region>, lo: Addr, lo': Addr)
    requires Sorted(rs, lo) && lo' <= lo
    ensures Sorted(rs, lo')
  {
  }

  // ---- a minimal array is determined by the addresses it covers ----

  lemma {:induction false} FirstRegion(rs: seq<Region>, lo: Addr)
    requires Sorted(rs, lo) && rs != [] && Apart(rs)
    ensures forall x: Addr :: Holds(rs[0], x) ==> Lookup(rs, x) == Some(rs[0].attr)
    ensures forall x: Addr :: x < rs[0].base ==> Lookup(rs, x) == None
    ensures Lookup(rs, End(rs[0])) != Some(rs[0].attr)
  {
    var e := End(rs[0]);
    forall x: Addr | x < rs[0].base ensures Lookup(rs, x) == None {
      assert Sorted(rs, rs[0].base);
      LookupBelow(rs, rs[0].base, x);
    }
    if |rs| > 1 && rs[1].base > e {
      LookupBelow(rs[1..], rs[1].base, e);
    }
  }

  lemma {:induction false} SameFirst(a: seq<Region>, b: seq<Region>, lo: Addr)
    requires Sorted(a, lo) && Sorted(b, lo) && Apart(a) && Apart(b) && a != [] && b != []
    requires forall x: Addr :: Lookup(a, x) == Lookup(b, x)
    ensures a[0] == b[0]
  {
    FirstRegion(a, lo);
    FirstRegion(b, lo);
    assert Lookup(a, a[0].base).Some? && Lookup(b, b[0].base).Some?;
    assert a[0].base == b[0].base;
    assert Lookup(a, a[0].base) == Lookup(b, a[0].base);
    assert Lookup(a, End(a[0])) == Lookup(b, End(a[0]));
    assert Lookup(a, End(b[0])) == Lookup(b, End(b[0]));
  }

  lemma {:induction false} Tail(rs: seq<Region>, lo: Addr, x: Addr)
    requires Sorted(rs, lo) && rs != []
    ensures Lookup(rs[1..], x) == if Holds(rs[0], x) then None else Lookup(rs, x)
  {
    if Holds(rs[0], x) {
      LookupBelow(rs[1..], End(rs[0]), x);
    }
  }

  /** Two minimal arrays that agree on every address are equal. */
  lemma {:induction false} Canonical(a: seq<Region>, b: seq<Region>, lo: Addr)
    requires Sorted(a, lo) && Sorted(b, lo) && Apart(a) && Apart(b)
    requires forall x: Addr :: Lookup(a, x) == Lookup(b, x)
    ensures a == b
  {
    if a == [] || b == [] {
      if a != [] { FirstRegion(a, lo); assert Holds(a[0], a[0].base); }
      if b != [] { FirstRegion(b, lo); assert Holds(b[0], b[0].base); }
    } else {
      SameFirst(a, b, lo);
      forall x: Addr ensures Lookup(a[1..], x) == Lookup(b[1..], x) {
        Tail(a, lo, x);
        Tail(b, lo, x);
      }
      Canonical(a[1..], b[1..], End(a[0]));
    }
  }

  // ---- memblock_merge_regions ----

  function Joined(a: Region, b: Region): Region { Region(a.base, a.size + b.size, a.attr) }

  function Merge(rs: seq<Region>): (r: seq<Region>)
    decreases |rs|
  {
    if |rs| < 2 then rs
    else if Mergeable(rs[0], rs[1]) then Merge([Joined(rs[0], rs[1])] + rs[2..])
    else [rs[0]] + Merge(rs[1..])
  }

  lemma {:induction false} MergeOk(rs: seq<Region>, lo: Addr)
    requires Sorted(rs, lo)
    ensures Sorted(Merge(rs), lo) && Apart(Merge(rs)) && Total(Merge(rs)) == Total(rs)
    ensures rs != [] ==> Merge(rs) != [] && Merge(rs)[0].base == rs[0].base && Merge(rs)[0].attr == rs[0].attr
    ensures forall x: Addr :: Lookup(Merge(rs), x) == Lookup(rs, x)
    decreases |rs|
  {
    if |rs| < 2 {
    } else if Mergeable(rs[0], rs[1]) {
      var j := [Joined(rs[0], rs[1])] + rs[2..];
      assert j[1..] == rs[2..] && rs[1..][1..] == rs[2..];
      MergeOk(j, lo);
      assert forall x: Addr :: Lookup(j, x) == Lookup(rs, x);
    } else {
      MergeOk(rs[1..], End(rs[0]));
      assert Merge(rs)[1..] == Merge(rs[1..]);
    }
  }

  // ---- memblock_add_range ----

  function Min(a: Addr, b: Addr): Addr { if a <= b then a else b }

  function New(base: Addr, end: Addr, a: Attr): (r: seq<Region>) {
    if base < end then [Span(base, end, a)] else []
  }

  /** The second pass: the uncovered parts of [base, end) go in between the regions. */
  function Insert(rs: seq<Region>, base: Addr, end: Addr, a: Attr): (r: seq<Region>) {
    if rs == [] || rs[0].base >= end then New(base, end, a) + rs
    else if End(rs[0]) <= base then [rs[0]] + Insert(rs[1..], base, end, a)
    else New(base, rs[0].base, a) + [rs[0]] + Insert(rs[1..], Min(End(rs[0]), end), end, a)
  }

  /** The first pass: how many regions the second will add. */
  function CountNew(rs: seq<Region>, base: Addr, end: Addr): (n: nat) {
    if rs == [] || rs[0].base >= end then if base < end then 1 else 0
    else if End(rs[0]) <= base then CountNew(rs[1..], base, end)
    else (if rs[0].base > base then 1 else 0) + CountNew(rs[1..], Min(End(rs[0]), end), end)
  }

  /** Addresses already covered keep their attributes; the rest of the range gets the new ones. */
  function Added(old_: Option<Attr>, base: Addr, end: Addr, a: Attr, x: Addr): Option<Attr> {
    if old_.Some? then old_ else if base <= x < end then Some(a) else None
  }

  lemma {:induction false} InsertOk(rs: seq<Region>, base: Addr, end: Addr, a: Attr, lo: Addr)
    requires Sorted(rs, lo) && base <= end <= ULLONG_MAX
    ensures Sorted(Insert(rs, base, end, a), if base < end then Min(lo, base) else lo)
    ensures |Insert(rs, base, end, a)| == |rs| + CountNew(rs, base, end)
    ensures forall x: Addr :: Lookup(Insert(rs, base, end, a), x) == Added(Lookup(rs, x), base, end, a, x)
  {
    if rs == [] || rs[0].base >= end {
      if base < end {
        assert Insert(rs, base, end, a)[1..] == rs;
        forall x: Addr | base <= x < end ensures Lookup(rs, x) == None { if rs != [] { LookupBelow(rs, end, x); } }
      } else {
        assert Insert(rs, base, end, a) == rs;
      }
    } else if End(rs[0]) <= base {
      InsertOk(rs[1..], base, end, a, End(rs[0]));
      assert Insert(rs, base, end, a)[1..] == Insert(rs[1..], base, end, a);
    } else {
      var b := Min(End(rs[0]), end);
      var rest := Insert(rs[1..], b, end, a);
      InsertOk(rs[1..], b, end, a, End(rs[0]));
      InsertMiddle(rs, rest, base, end, a, lo);
    }
  }

  lemma {:induction false} InsertMiddle(rs: seq<Region>, rest: seq<Region>, base: Addr, end: Addr, a: Attr, lo: Addr)
    requires Sorted(rs, lo) && base <= end <= ULLONG_MAX && rs != [] && rs[0].base < end && End(rs[0]) > base
    requires var b := Min(End(rs[0]), end);
      && Sorted(rest, End(rs[0]))
      && (forall x: Addr :: Lookup(rest, x) == Added(Lookup(rs[1..], x), b, end, a, x))
    ensures var r := New(base, rs[0].base, a) + [rs[0]] + rest;
      && Sorted(r, if base < end then Min(lo, base) else lo)
      && (forall x: Addr :: Lookup(r, x) == Added(Lookup(rs, x), base, end, a, x))
  {
    var tail := [rs[0]] + rest;
    assert tail[1..] == rest;
    assert Sorted(tail, rs[0].base);
    forall x: Addr ensures Lookup(tail, x) == Added(Lookup(rs, x), rs[0].base, end, a, x) {
      if x < rs[0].base {
        LookupBelow(rs[1..], End(rs[0]), x);
      }
    }
    if base < rs[0].base {
      var r := New(base, rs[0].base, a) + tail;
      assert r[1..] == tail;
      forall x: Addr | x < rs[0].base ensures Lookup(rs, x) == None {
        assert Sorted(rs, rs[0].base);
        LookupBelow(rs, rs[0].base, x);
      }
      assert r == New(base, rs[0].base, a) + [rs[0]] + rest;
    } else {
      assert New(base, rs[0].base, a) + [rs[0]] + rest == tail;
    }
  }

  lemma {:induction false} TotalJoin(a: seq<Region>, b: seq<Region>)
    ensures Total(a + b) == Total(a) + Total(b)
  {
    if a == [] {
      assert a + b == b;
    } else {
      assert (a + b)[1..] == a[1..] + b;
      TotalJoin(a[1..], b);
    }
  }

  lemma {:induction false} TotalInsert(rs: seq<Region>, i: nat, r: Region)
    requires i <= |rs|
    ensures Total(rs[..i] + [r] + rs[i..]) == Total(rs) + r.size
  {
    assert rs == rs[..i] + rs[i..] && [r][1..] == [];
    TotalJoin(rs[..i], rs[i..]);
    TotalJoin(rs[..i] + [r], rs[i..]);
    TotalJoin(rs[..i], [r]);
  }

  // ---- memblock_isolate_range and memblock_remove_range ----

  function Max(a: Addr, b: Addr): Addr { if a >= b then a else b }

  /** The regions below base, cut there. */
  function Low(rs: seq<Region>, base: Addr): (r: seq<Region>) {
    if rs == [] || rs[0].base >= base then []
    else if End(rs[0]) <= base then [rs[0]] + Low(rs[1..], base)
    else [Span(rs[0].base, base, rs[0].attr)]
  }

  /** The regions above end, cut there. */
  function High(rs: seq<Region>, end: Addr): (r: seq<Region>) {
    if rs == [] || rs[0].base >= end then rs
    else if End(rs[0]) <= end then High(rs[1..], end)
    else [Span(end, End(rs[0]), rs[0].attr)] + rs[1..]
  }

  /** The regions inside the range, cut at both ends. */
  function Mid(rs: seq<Region>, base: Addr, end: Addr): (r: seq<Region>)
    requires base < end
  {
    if rs == [] || rs[0].base >= end then []
    else if End(rs[0]) <= base then Mid(rs[1..], base, end)
    else [Span(Max(rs[0].base, base), Min(End(rs[0]), end), rs[0].attr)] + Mid(rs[1..], base, end)
  }

  /** memblock_isolate_range(): regions split where they cross base or end. */
  function Isolate(rs: seq<Region>, base: Addr, end: Addr): (r: seq<Region>)
    requires base < end
    decreases |rs|, if rs != [] && rs[0].base < base then 1 else 0
  {
    if rs == [] || rs[0].base >= end then rs
    else if End(rs[0]) <= base then [rs[0]] + Isolate(rs[1..], base, end)
    else if rs[0].base < base then
      [Span(rs[0].base, base, rs[0].attr)] + Isolate([Span(base, End(rs[0]), rs[0].attr)] + rs[1..], base, end)
    else if End(rs[0]) > end then [Span(rs[0].base, end, rs[0].attr), Span(end, End(rs[0]), rs[0].attr)] + rs[1..]
    else [rs[0]] + Isolate(rs[1..], base, end)
  }

  lemma {:induction false} LookupJoin(a: seq<Region>, b: seq<Region>, x: Addr)
    ensures Lookup(a + b, x) == if Lookup(a, x).Some? then Lookup(a, x) else Lookup(b, x)
  {
    if a == [] {
      assert a + b == b;
    } else {
      assert (a + b)[1..] == a[1..] + b;
      LookupJoin(a[1..], b, x);
    }
  }

  lemma {:induction false} LowOk(rs: seq<Region>, base: Addr, lo: Addr)
    requires Sorted(rs, lo)
    ensures Sorted(Low(rs, base), lo)
    ensures forall x: Addr :: Lookup(Low(rs, base), x) == if x < base then Lookup(rs, x) else None
    ensures Apart(rs) ==> Apart(Low(rs, base))
    ensures Low(rs, base) != [] ==> Low(rs, base)[0].base == rs[0].base && Low(rs, base)[0].attr == rs[0].attr
  {
    if rs == [] {
    } else if rs[0].base >= base {
      forall x: Addr | x < base
        ensures Lookup(rs, x) == None { assert Sorted(rs, rs[0].base); LookupBelow(rs, rs[0].base, x); }
    } else if End(rs[0]) <= base {
      LowOk(rs[1..], base, End(rs[0]));
      assert Low(rs, base)[1..] == Low(rs[1..], base);
    } else {
      forall x: Addr | x < base ensures Lookup(rs[1..], x) == None { LookupBelow(rs[1..], End(rs[0]), x); }
    }
  }

  lemma {:induction false} HighOk(rs: seq<Region>, end: Addr, lo: Addr)
    requires Sorted(rs, lo)
    ensures Sorted(High(rs, end), Max(end, lo))
    ensures forall x: Addr :: Lookup(High(rs, end), x) == if x >= end then Lookup(rs, x) else None
    ensures Apart(rs) ==> Apart(High(rs, end))
  {
    if rs == [] {
    } else if rs[0].base >= end {
      forall x: Addr | x < end
        ensures Lookup(rs, x) == None { assert Sorted(rs, rs[0].base); LookupBelow(rs, rs[0].base, x); }
    } else if End(rs[0]) <= end {
      HighOk(rs[1..], end, End(rs[0]));
    } else {
      var h := High(rs, end);
      assert h[1..] == rs[1..];
      forall x: Addr | x < end ensures Lookup(rs[1..], x) == None { LookupBelow(rs[1..], End(rs[0]), x); }
    }
  }

  /** The last region of a non-empty low part ends at base or before, so nothing above end adjoins it. */
  lemma {:induction false} LowHighOk(rs: seq<Region>, low: seq<Region>, high: seq<Region>, base: Addr, end: Addr,
                            lo: Addr)
    requires Sorted(rs, lo) && base < end && low == Low(rs, base) && lo <= base && Sorted(high, end) && Apart(rs)
      && Apart(high)
    ensures Sorted(low + high, lo) && Apart(low + high)
  {
    if low == [] {
      assert low + high == high;
    } else if End(rs[0]) <= base {
      LowHighOk(rs[1..], low[1..], high, base, end, End(rs[0]));
      LowOk(rs[1..], base, End(rs[0]));
      assert (low + high)[1..] == low[1..] + high;
    } else {
      assert (low + high)[1..] == high;
    }
  }

  /** Removing a range: what lies below base and what lies at end or above. */
  function Cut(rs: seq<Region>, base: Addr, end: Addr): (r: seq<Region>) { Low(rs, base) + High(rs, end) }

  lemma {:induction false} CutOk(rs: seq<Region>, base: Addr, end: Addr)
    requires Minimal(rs) && base < end
    ensures Minimal(Cut(rs, base, end))
    ensures forall x: Addr :: Lookup(Cut(rs, base, end), x) == if base <= x < end then None else Lookup(rs, x)
  {
    LowOk(rs, base, 0);
    HighOk(rs, end, 0);
    LowHighOk(rs, Low(rs, base), High(rs, end), base, end, 0);
    forall x: Addr ensures Lookup(Cut(rs, base, end), x) == if base <= x < end then None else Lookup(rs, x) {
      LookupJoin(Low(rs, base), High(rs, end), x);
    }
  }

  /** Isolating is low, mid and high in a row. */
  lemma {:induction false} IsolateParts(rs: seq<Region>, base: Addr, end: Addr, lo: Addr)
    requires Sorted(rs, lo) && base < end
    ensures Isolate(rs, base, end) == Low(rs, base) + Mid(rs, base, end) + High(rs, end)
    decreases |rs|, if rs != [] && rs[0].base < base then 1 else 0
  {
    if rs == [] || rs[0].base >= end {
    } else if End(rs[0]) <= base {
      IsolateParts(rs[1..], base, end, End(rs[0]));
      Assoc([rs[0]], Low(rs[1..], base), Mid(rs[1..], base, end), High(rs[1..], end));
    } else if rs[0].base < base {
      var rs' := [Span(base, End(rs[0]), rs[0].attr)] + rs[1..];
      CrossingParts(rs, rs', base, end);
      IsolateParts(rs', base, end, base);
      Assoc(Low(rs, base), [], Mid(rs, base, end), High(rs, end));
    } else if End(rs[0]) > end {
      var rest := rs[1..];
      assert rest == [] || rest[0].base >= end;
      assert Mid(rest, base, end) == [];
    } else {
      IsolateParts(rs[1..], base, end, End(rs[0]));
      assert Low(rs[1..], base) == [];
      Assoc([rs[0]], [], Mid(rs[1..], base, end), High(rs[1..], end));
    }
  }

  lemma {:induction false} Assoc(a: seq<Region>, b: seq<Region>, c: seq<Region>, d: seq<Region>)
    ensures a + (b + c + d) == (a + b) + c + d
    ensures b == [] ==> a + (b + c + d) == (a + c) + d && b + (a + c) + d == a + (b + c + d)
  {
  }

  lemma {:induction false} CrossingParts(rs: seq<Region>, rs': seq<Region>, base: Addr, end: Addr)
    requires rs != [] && rs[0].base < base < End(rs[0]) && base < end
      && rs' == [Span(base, End(rs[0]), rs[0].attr)] + rs[1..]
    ensures rs'[1..] == rs[1..] && Low(rs', base) == [] && Mid(rs', base, end) == Mid(rs, base, end)
      && High(rs', end) == High(rs, end)
  {
  }

  /** Isolating keeps the total and adds at most two regions. */
  lemma {:induction false} IsolateSize(rs: seq<Region>, base: Addr, end: Addr, lo: Addr)
    requires Sorted(rs, lo) && base < end
    ensures Total(Isolate(rs, base, end)) == Total(rs)
    ensures |Isolate(rs, base, end)| <= |rs| + 2 && (lo >= base ==> |Isolate(rs, base, end)| <= |rs| + 1)
    decreases |rs|, if rs != [] && rs[0].base < base then 1 else 0
  {
    var i := Isolate(rs, base, end);
    if rs == [] || rs[0].base >= end {
    } else if End(rs[0]) <= base {
      IsolateSize(rs[1..], base, end, End(rs[0]));
      assert i[1..] == Isolate(rs[1..], base, end);
    } else if rs[0].base < base {
      var rs' := [Span(base, End(rs[0]), rs[0].attr)] + rs[1..];
      assert rs'[1..] == rs[1..];
      IsolateSize(rs', base, end, base);
      assert i[1..] == Isolate(rs', base, end);
    } else if End(rs[0]) > end {
      assert i[1..] == [Span(end, End(rs[0]), rs[0].attr)] + rs[1..] && i[1..][1..] == rs[1..];
    } else {
      IsolateSize(rs[1..], base, end, End(rs[0]));
      assert i[1..] == Isolate(rs[1..], base, end);
    }
  }

  /** With nothing inside the range, cutting changes nothing. */
  lemma {:induction false} CutNothing(rs: seq<Region>, base: Addr, end: Addr, lo: Addr)
    requires Sorted(rs, lo) && base < end && Mid(rs, base, end) == []
    ensures Cut(rs, base, end) == rs
  {
    if rs == [] || rs[0].base >= end {
    } else {
      CutNothing(rs[1..], base, end, End(rs[0]));
      assert rs == [rs[0]] + rs[1..];
    }
  }
}
