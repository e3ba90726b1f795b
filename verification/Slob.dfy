/** The free list of one SLOB page (mm/slob.c) as a sequence of blocks, counted in slob units. */
module Slob {

  /** SLOB_UNITS(PAGE_SIZE) */
  const PAGE_UNITS := 2048

  datatype Block = Block(start: nat, size: nat)

  function End(b: Block): nat { b.start + b.size }

  /** Free blocks are sorted by address, disjoint, never adjacent, and inside the page. */
  predicate FreeList(bs: seq<Block>, lo: nat) {
    bs != [] ==> lo <= bs[0].start && bs[0].size > 0 && End(bs[0]) <= PAGE_UNITS && FreeList(bs[1..], End(bs[0]) + 1)
  }

  function Units(bs: seq<Block>): (n: nat) { if bs == [] then 0 else bs[0].size + Units(bs[1..]) }

  predicate Holds(b: Block, x: nat) { b.start <= x < End(b) }

  /** Unit x is free. */
  predicate Free(bs: seq<Block>, x: nat) { bs != [] && (Holds(bs[0], x) || Free(bs[1..], x)) }

  lemma {:induction false} ListDown(bs: seq<Block>, lo: nat, lo': nat)
    requires FreeList(bs, lo) && lo' <= lo
    ensures FreeList(bs, lo')
  {
  }

  lemma {:induction false} NotBelow(bs: seq<Block>, lo: nat, x: nat)
    requires FreeList(bs, lo) && x < lo
    ensures !Free(bs, x)
  {
    if bs != [] {
      NotBelow(bs[1..], End(bs[0]) + 1, x);
    }
  }

  /** Free lists over the same free units are equal. */
  lemma {:induction false} Canonical(a: seq<Block>, b: seq<Block>, lo: nat)
    requires FreeList(a, lo) && FreeList(b, lo) && (forall x: nat :: Free(a, x) <==> Free(b, x))
    ensures a == b
  {
    if a != [] {
      assert Free(a, a[0].start) && Free(b, a[0].start);
    }
    if b != [] {
      assert Free(a, b[0].start) && Free(b, b[0].start);
    }
    if a != [] && b != [] {
      SameStart(a, b, lo);
      SameEnd(a, b, lo);
      forall x: nat ensures Free(a[1..], x) <==> Free(b[1..], x) {
        if x < End(a[0]) + 1 {
          NotBelow(a[1..], End(a[0]) + 1, x);
          NotBelow(b[1..], End(b[0]) + 1, x);
        } else {
          assert Free(a, x) <==> Free(b, x);
        }
      }
      Canonical(a[1..], b[1..], End(a[0]) + 1);
    }
  }

  lemma {:induction false} SameStart(a: seq<Block>, b: seq<Block>, lo: nat)
    requires FreeList(a, lo) && FreeList(b, lo) && a != [] && b != [] && (forall x: nat :: Free(a, x) <==> Free(b, x))
    ensures a[0].start == b[0].start
  {
    assert Free(b, a[0].start) && Free(a, b[0].start);
    NotBefore(a, lo, b[0].start);
    NotBefore(b, lo, a[0].start);
  }

  lemma {:induction false} NotBefore(bs: seq<Block>, lo: nat, x: nat)
    requires FreeList(bs, lo) && bs != [] && Free(bs, x)
    ensures bs[0].start <= x
  {
    if x < bs[0].start {
      NotBelow(bs[1..], End(bs[0]) + 1, x);
    }
  }

  lemma {:induction false} SameEnd(a: seq<Block>, b: seq<Block>, lo: nat)
    requires FreeList(a, lo) && FreeList(b, lo) && a != [] && b != [] && (forall x: nat :: Free(a, x) <==> Free(b, x))
    requires a[0].start == b[0].start
    ensures a[0] == b[0]
  {
    NotBelow(a[1..], End(a[0]) + 1, End(a[0]));
    NotBelow(b[1..], End(b[0]) + 1, End(b[0]));
    assert Free(a, End(b[0])) <==> Free(b, End(b[0]));
    assert Free(a, End(a[0])) <==> Free(b, End(a[0]));
  }

  // ---- lists joined ----

  /** A list whose blocks all end before hi. */
  predicate Below(bs: seq<Block>, lo: nat, hi: nat) { FreeList(bs, lo) && forall b <- bs :: End(b) < hi }

  lemma {:induction false} ListJoin(a: seq<Block>, b: seq<Block>, lo: nat, mid: nat)
    requires Below(a, lo, mid) && FreeList(b, mid) && lo <= mid
    ensures FreeList(a + b, lo)
  {
    if a == [] {
      assert a + b == b;
      ListDown(b, mid, lo);
    } else {
      assert (a + b)[1..] == a[1..] + b && a[0] in a;
      assert forall x <- a[1..] :: x in a;
      ListJoin(a[1..], b, End(a[0]) + 1, mid);
    }
  }

  lemma {:induction false} ListSplit(a: seq<Block>, b: seq<Block>, lo: nat)
    requires FreeList(a + b, lo)
    ensures FreeList(a, lo) && FreeList(b, if a == [] then lo else End(a[|a| - 1]) + 1)
    ensures b != [] ==> Below(a, lo, b[0].start)
  {
    if a == [] {
      assert a + b == b;
    } else {
      assert (a + b)[1..] == a[1..] + b && (a + b)[0] == a[0];
      ListSplit(a[1..], b, End(a[0]) + 1);
      assert a == [a[0]] + a[1..];
      if b != [] {
        assert End(a[0]) < b[0].start by {
          if a[1..] != [] { assert a[1] in a[1..]; }
        }
      }
    }
  }

  lemma {:induction false} FreeJoin(a: seq<Block>, b: seq<Block>, x: nat)
    ensures Free(a + b, x) <==> Free(a, x) || Free(b, x)
  {
    if a == [] {
      assert a + b == b;
    } else {
      assert (a + b)[1..] == a[1..] + b;
      FreeJoin(a[1..], b, x);
    }
  }

  lemma {:induction false} UnitsJoin(a: seq<Block>, b: seq<Block>)
    ensures Units(a + b) == Units(a) + Units(b)
  {
    if a == [] {
      assert a + b == b;
    } else {
      assert (a + b)[1..] == a[1..] + b;
      UnitsJoin(a[1..], b);
    }
  }

  // ---- allocating and freeing ----

  /** What is left of a block after taking units at start + delta. */
  function Leave(b: Block, delta: nat, units: nat): (r: seq<Block>)
    requires delta + units <= b.size
  {
    (if delta > 0 then [Block(b.start, delta)] else [])
    + if b.size > delta + units then [Block(b.start + delta + units, b.size - delta - units)] else []
  }

  lemma {:induction false} LeaveOk(b: Block, delta: nat, units: nat, x: nat)
    requires delta + units <= b.size && units > 0 && End(b) <= PAGE_UNITS
    ensures var r := Leave(b, delta, units);
      && Below(r, b.start, End(b) + 1) && Units(r) == b.size - units
      && (Free(r, x) <==> Holds(b, x) && !(b.start + delta <= x < b.start + delta + units))
  {
    var h := if delta > 0 then [Block(b.start, delta)] else [];
    var t := if b.size > delta + units then [Block(b.start + delta + units, b.size - delta - units)] else [];
    OneBlock(h, b.start, x);
    OneBlock(t, b.start + delta + units, x);
    ListJoin(h, t, b.start, b.start + delta + units);
    UnitsJoin(h, t);
    FreeJoin(h, t, x);
  }

  lemma {:induction false} OneBlock(r: seq<Block>, lo: nat, x: nat)
    requires |r| <= 1 && (r != [] ==> r[0].start == lo && r[0].size > 0 && End(r[0]) <= PAGE_UNITS)
    ensures FreeList(r, lo) && Units(r) == (if r == [] then 0 else r[0].size)
      && (Free(r, x) <==> r != [] && Holds(r[0], x))
  {
    if r != [] {
      assert r[1..] == [];
    }
  }

  /** Taking units out of the block between a and c. */
  lemma {:induction false} AllocList(a: seq<Block>, b: Block, c: seq<Block>, delta: nat, units: nat)
    requires FreeList(a + [b] + c, 0) && delta + units <= b.size && units > 0
    ensures var r := a + Leave(b, delta, units) + c; FreeList(r, 0) && Units(r) == Units(a + [b] + c) - units
  {
    var l := Leave(b, delta, units);
    Parts(a, b, c);
    LeaveOk(b, delta, units, 0);
    ListJoin(l, c, b.start, End(b) + 1);
    ListJoin(a, l + c, 0, b.start);
    assert a + l + c == a + (l + c);
    UnitsParts(a, l, c);
    UnitsParts(a, [b], c);
    OneBlock([b], b.start, 0);
  }

  /** The free units are those before, without the ones taken. */
  lemma {:induction false} AllocFree(a: seq<Block>, b: Block, c: seq<Block>, delta: nat, units: nat, x: nat)
    requires FreeList(a + [b] + c, 0) && delta + units <= b.size && units > 0
    ensures Free(a + Leave(b, delta, units) + c, x) <==>
      Free(a + [b] + c, x) && !(b.start + delta <= x < b.start + delta + units)
    ensures b.start + delta <= x < b.start + delta + units ==> Free(a + [b] + c, x)
  {
    Parts(a, b, c);
    FreeParts(a, Leave(b, delta, units), c, x);
    FreeParts(a, [b], c, x);
    LeaveOk(b, delta, units, x);
    OneBlock([b], b.start, x);
    OutsideParts(a, b, c, x);
  }

  /** A list around one of its blocks. */
  lemma {:induction false} Parts(a: seq<Block>, b: Block, c: seq<Block>)
    requires FreeList(a + [b] + c, 0)
    ensures Below(a, 0, b.start) && b.size > 0 && End(b) <= PAGE_UNITS && FreeList(c, End(b) + 1)
  {
    assert a + [b] + c == a + ([b] + c);
    ListSplit(a, [b] + c, 0);
    assert ([b] + c)[1..] == c;
  }

  lemma {:induction false} OutsideParts(a: seq<Block>, b: Block, c: seq<Block>, x: nat)
    requires Below(a, 0, b.start) && FreeList(c, End(b) + 1)
    ensures Holds(b, x) ==> !Free(a, x) && !Free(c, x)
  {
    if Holds(b, x) {
      NotBelow(c, End(b) + 1, x);
      NotAbove(a, 0, b.start, x);
    }
  }

  lemma {:induction false} NotAbove(bs: seq<Block>, lo: nat, hi: nat, x: nat)
    requires Below(bs, lo, hi) && x + 1 >= hi
    ensures !Free(bs, x)
  {
    if bs != [] {
      assert bs[0] in bs && forall b <- bs[1..] :: b in bs;
      NotAbove(bs[1..], End(bs[0]) + 1, hi, x);
    }
  }

  lemma {:induction false} UnitsParts(a: seq<Block>, e: seq<Block>, c: seq<Block>)
    ensures Units(a + e + c) == Units(a) + Units(e) + Units(c)
  {
    UnitsJoin(a + e, c);
    UnitsJoin(a, e);
  }

  lemma {:induction false} FreeParts(a: seq<Block>, e: seq<Block>, c: seq<Block>, x: nat)
    ensures Free(a + e + c, x) <==> Free(a, x) || Free(e, x) || Free(c, x)
  {
    FreeJoin(a + e, c, x);
    FreeJoin(a, e, x);
  }

  /** The block [b, b + units) put back between a and c, joined with the neighbours it touches. */
  function Insert(a: seq<Block>, b: nat, units: nat, c: seq<Block>): (r: seq<Block>) {
    var (size, rest) := if c != [] && b + units == c[0].start then (units + c[0].size, c[1..]) else (units, c);
    if a != [] && End(a[|a| - 1]) == b then a[..|a| - 1] + [Block(a[|a| - 1].start, a[|a| - 1].size + size)] + rest
    else a + [Block(b, size)] + rest
  }

  /** The new block joined with what follows. */
  function Joined(b: nat, units: nat, c: seq<Block>): (r: seq<Block>) {
    if c != [] && b + units == c[0].start then [Block(b, units + c[0].size)] + c[1..] else [Block(b, units)] + c
  }

  lemma {:induction false} JoinedOk(b: nat, units: nat, c: seq<Block>, x: nat)
    requires units > 0 && b + units <= PAGE_UNITS && FreeList(c, b + units)
    ensures var r := Joined(b, units, c);
      && FreeList(r, b) && r[0].start == b && Units(r) == units + Units(c)
        && (Free(r, x) <==> b <= x < b + units || Free(c, x))
  {
    var r := Joined(b, units, c);
    if c != [] && b + units == c[0].start {
      assert r[1..] == c[1..];
    } else {
      assert r[1..] == c;
    }
  }

  lemma {:induction false} InsertIsJoin(a: seq<Block>, b: nat, units: nat, c: seq<Block>)
    ensures var j := Joined(b, units, c); var n := |a| - 1;
      Insert(a, b, units, c) ==
        if a != [] && End(a[n]) == b then a[..n] + ([Block(a[n].start, a[n].size + j[0].size)] + j[1..]) else a + j
  {
    var j := Joined(b, units, c);
    assert j == [j[0]] + j[1..];
  }

  /** Joining with the block before: l grows by the first block of j. */
  lemma {:induction false} Grow(p: seq<Block>, l: Block, j: seq<Block>, x: nat)
    requires FreeList(p + [l], 0) && j != [] && FreeList(j, End(l)) && j[0].start == End(l)
    ensures var m := [Block(l.start, l.size + j[0].size)] + j[1..];
      && FreeList(p + m, 0) && Units(p + m) == Units(p + [l]) + Units(j)
        && (Free(p + m, x) <==> Free(p + [l], x) || Free(j, x))
  {
    var m := [Block(l.start, l.size + j[0].size)] + j[1..];
    assert m[1..] == j[1..];
    assert p + [l] == p + [l] + [];
    Parts(p, l, []);
    ListJoin(p, m, 0, l.start);
    UnitsJoin(p, m);
    UnitsJoin(p, [l]);
    FreeJoin(p, m, x);
    FreeJoin(p, [l], x);
    OneBlock([l], l.start, x);
  }

  /** A freed block joins the list: sorted, disjoint, never adjacent, and with exactly its units added. */
  lemma {:induction false} InsertOk(a: seq<Block>, b: nat, units: nat, c: seq<Block>, x: nat)
    requires Below(a, 0, b + 1) && FreeList(c, b + units) && units > 0 && b + units <= PAGE_UNITS
    ensures var r := Insert(a, b, units, c);
      && FreeList(r, 0) && Units(r) == Units(a) + units + Units(c)
        && (Free(r, x) <==> Free(a, x) || b <= x < b + units || Free(c, x))
  {
    var (j, n) := (Joined(b, units, c), |a| - 1);
    JoinedOk(b, units, c, x);
    InsertIsJoin(a, b, units, c);
    if a != [] && End(a[n]) == b {
      assert a == a[..n] + [a[n]];
      Grow(a[..n], a[n], j, x);
    } else {
      LastMatters(a, 0, b);
      ListJoin(a, j, 0, b);
      UnitsJoin(a, j);
      FreeJoin(a, j, x);
    }
  }

  lemma {:induction false} LastMatters(a: seq<Block>, lo: nat, hi: nat)
    requires Below(a, lo, hi + 1) && (a != [] ==> End(a[|a| - 1]) < hi)
    ensures Below(a, lo, hi)
  {
    if |a| > 1 {
      assert forall b <- a[1..] :: b in a;
      LastMatters(a[1..], End(a[0]) + 1, hi);
      assert a[1] in a[1..];
      assert a == [a[0]] + a[1..];
    }
  }
}
