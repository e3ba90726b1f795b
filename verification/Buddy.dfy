/** The buddy allocator of one zone (mm/page_alloc.c), on values: which blocks are free. */
module Buddy {
  import opened Bits

  const MAX_ORDER := 11

  /** The pages marked PageBuddy, each with its order: one entry per free block. */
  type Blocks = map<int, nat>

  predicate Free(m: Blocks, p: int, o: nat) { p in m && m[p] == o }

  /** __find_buddy_index() as arithmetic on an aligned page: the other half of the block above. */
  function BuddyOf(p: int, o: nat): (b: int) {
    if Aligned(p, o + 1) then p + Pow2(o) else p - Pow2(o)
  }

  predicate Apart(p: int, o: nat, q: int, r: nat) { p + Pow2(o) <= q || q + Pow2(r) <= p }

  predicate BlockOk(p: int, o: nat) { p >= 0 && o < MAX_ORDER && Aligned(p, o) }

  /** Free blocks are aligned to their order and pairwise disjoint. */
  ghost predicate Sound(m: Blocks) {
    && (forall p <- m :: BlockOk(p, m[p]))
    && (forall p, q :: p in m && q in m && p != q ==> Apart(p, m[p], q, m[q]))
  }

  predicate HasTwin(m: Blocks, p: int)
    requires p in m
  {
    m[p] < MAX_ORDER - 1 && Free(m, BuddyOf(p, m[p]), m[p])
  }

  /** No two buddies of the same order are both free below the top order. */
  ghost predicate Coalesced(m: Blocks) { forall p <- m :: !HasTwin(m, p) }

  ghost predicate Canonical(m: Blocks) { Sound(m) && Coalesced(m) }

  // ---- the pages a set of blocks covers ----

  predicate In(m: Blocks, p: int, x: int) { p in m && InSpan(p, m[p], x) }

  ghost predicate Covered(m: Blocks, x: int) { exists p :: In(m, p, x) }

  predicate InSpan(p: int, o: nat, x: int) { p <= x < p + Pow2(o) }

  /** The n pages from p on. */
  ghost function Pages(p: int, n: nat): (s: set<int>)
    ensures |s| == n && forall x :: x in s <==> p <= x < p + n
  {
    if n == 0 then {} else Pages(p, n - 1) + {p + n - 1}
  }

  ghost function Block(p: int, o: nat): (s: set<int>)
    ensures |s| == Pow2(o) && forall x :: x in s <==> InSpan(p, o, x)
  {
    Pages(p, Pow2(o))
  }

  ghost predicate Covers(m: Blocks, pages: set<int>) { forall x :: x in pages <==> Covered(m, x) }

  /** Block (p, o) meets no free block. */
  ghost predicate Separate(m: Blocks, p: int, o: nat) { forall q <- m :: Apart(p, o, q, m[q]) }

  // ---- buddies ----

  lemma {:induction false} BuddyFacts(p: int, o: nat)
    requires p >= 0 && Aligned(p, o)
    ensures var b := BuddyOf(p, o); b >= 0 && Aligned(b, o) && BuddyOf(b, o) == p
    ensures var c := if BuddyOf(p, o) < p then BuddyOf(p, o) else p; Aligned(c, o + 1)
    decreases o
  {
    if o > 0 {
      var q, b := p / 2, BuddyOf(p / 2, o - 1);
      assert p == 2 * q;
      BuddyFacts(q, o - 1);
      Doubled(q, o - 1);
      Doubled(b, o - 1);
    }
  }

  lemma {:induction false} Doubled(q: int, o: nat)
    ensures BuddyOf(2 * q, o + 1) == 2 * BuddyOf(q, o)
    ensures (Aligned(2 * q, o + 1) <==> Aligned(q, o)) && (Aligned(2 * q, o + 2) <==> Aligned(q, o + 1))
  {
    assert 2 * q % 2 == 0 && 2 * q / 2 == q;
  }

  // ---- one step of merging, and the final insertion ----

  lemma {:induction false} MergeStep(m: Blocks, p: int, o: nat)
    requires Canonical(m) && Separate(m, p, o) && BlockOk(p, o) && o < MAX_ORDER - 1
    requires Free(m, BuddyOf(p, o), o)
    ensures var b := BuddyOf(p, o); var c := if b < p then b else p; var m' := m - {b};
      && Canonical(m') && BlockOk(c, o + 1) && Separate(m', c, o + 1)
      && forall x :: (Covered(m, x) || InSpan(p, o, x)) <==> (Covered(m', x) || InSpan(c, o + 1, x))
  {
    var b := BuddyOf(p, o);
    var c := if b < p then b else p;
    var m' := m - {b};
    BuddyFacts(p, o);
    forall q <- m' ensures Apart(c, o + 1, q, m'[q]) {
      assert Apart(b, o, q, m[q]) && Apart(p, o, q, m[q]);
      SpanApart(p, o, q, m[q]);
    }
    assert Coalesced(m') by {
      forall q <- m' ensures !HasTwin(m', q) { assert !HasTwin(m, q); }
    }
    RemoveCovers(m, b);
    assert forall x :: InSpan(c, o + 1, x) <==> InSpan(p, o, x) || InSpan(b, o, x);
  }

  /** A block apart from both halves is apart from the whole. */
  lemma {:induction false} SpanApart(p: int, o: nat, q: int, r: nat)
    requires p >= 0 && Aligned(p, o) && BlockOk(q, r)
    requires Apart(p, o, q, r) && Apart(BuddyOf(p, o), o, q, r)
    ensures Apart(if BuddyOf(p, o) < p then BuddyOf(p, o) else p, o + 1, q, r)
  {
    BuddyFacts(p, o);
    var c := if BuddyOf(p, o) < p then BuddyOf(p, o) else p;
    if r <= o + 1 {
      Nested(q, r, c, o + 1);
      if r <= o { Nested(q, r, c, o); Nested(q, r, c + Pow2(o), o); }
    } else {
      Nested(c, o + 1, q, r);
    }
  }

  lemma {:induction false} RemoveCovers(m: Blocks, b: int)
    requires Sound(m) && b in m
    ensures Sound(m - {b})
    ensures forall x :: Covered(m, x) <==> Covered(m - {b}, x) || InSpan(b, m[b], x)
    ensures Separate(m - {b}, b, m[b])
  {
    var m' := m - {b};
    forall x ensures Covered(m, x) <==> Covered(m', x) || InSpan(b, m[b], x) {
      if Covered(m, x) {
        var q :| In(m, q, x);
        assert q != b ==> In(m', q, x);
      }
      if Covered(m', x) {
        var q :| In(m', q, x);
        assert In(m, q, x);
      } else if InSpan(b, m[b], x) {
        assert In(m, b, x);
      }
    }
  }

  lemma {:induction false} AddCovers(m: Blocks, p: int, o: nat)
    requires Sound(m) && Separate(m, p, o) && BlockOk(p, o)
    ensures p !in m && Sound(m[p := o])
    ensures forall x :: Covered(m[p := o], x) <==> Covered(m, x) || InSpan(p, o, x)
  {
    assert p in m ==> Apart(p, o, p, m[p]);
    var m' := m[p := o];
    forall x ensures Covered(m', x) <==> Covered(m, x) || InSpan(p, o, x) {
      if Covered(m', x) {
        var q :| In(m', q, x);
        assert q != p ==> In(m, q, x);
      }
      if Covered(m, x) {
        var q :| In(m, q, x);
        assert In(m', q, x);
      } else if InSpan(p, o, x) {
        assert In(m', p, x);
      }
    }
  }

  lemma {:induction false} AddStep(m: Blocks, p: int, o: nat)
    requires Canonical(m) && Separate(m, p, o) && BlockOk(p, o)
    requires o == MAX_ORDER - 1 || !Free(m, BuddyOf(p, o), o)
    ensures p !in m && Canonical(m[p := o])
    ensures forall x :: Covered(m[p := o], x) <==> Covered(m, x) || InSpan(p, o, x)
  {
    AddCovers(m, p, o);
    var m' := m[p := o];
    BuddyFacts(p, o);
    forall q <- m' ensures !HasTwin(m', q) {
      if q != p {
        assert !HasTwin(m, q);
        assert BlockOk(q, m[q]);
        BuddyFacts(q, m[q]);
      }
    }
  }

  /** Removing a block keeps what remains canonical. */
  lemma {:induction false} TakeStep(m: Blocks, p: int)
    requires Canonical(m) && p in m
    ensures Canonical(m - {p}) && Separate(m - {p}, p, m[p])
    ensures forall x :: Covered(m, x) <==> Covered(m - {p}, x) || InSpan(p, m[p], x)
  {
    RemoveCovers(m, p);
    forall q <- m - {p} ensures !HasTwin(m - {p}, q) { assert !HasTwin(m, q); }
  }

  /** One round of expand(): the upper half of (p, h + 1) goes back to the free blocks. */
  lemma {:induction false} SplitStep(m: Blocks, p: int, h: nat)
    requires Canonical(m) && Separate(m, p, h + 1) && BlockOk(p, h + 1)
    ensures var u := p + Pow2(h); u !in m && Canonical(m[u := h]) && Separate(m[u := h], p, h) && BlockOk(p, h)
    ensures var u := p + Pow2(h);
      forall x :: Covered(m[u := h], x) || InSpan(p, h, x) <==> Covered(m, x) || InSpan(p, h + 1, x)
  {
    var u := p + Pow2(h);
    AlignedDown(p, h, h + 1);
    BuddyFacts(p, h);
    assert BuddyOf(p, h) == u;
    forall q <- m ensures Apart(u, h, q, m[q]) && Apart(p, h, q, m[q]) { assert Apart(p, h + 1, q, m[q]); }
    AddStep(m, u, h);
    assert forall x :: InSpan(p, h + 1, x) <==> InSpan(p, h, x) || InSpan(u, h, x);
  }

  // ---- the free blocks are determined by the free pages ----

  /** In a canonical state an aligned block whose pages are all free lies inside one free block. */
  lemma {:induction false} InsideOne(m: Blocks, p: int, o: nat) returns (q: int)
    requires Canonical(m) && BlockOk(p, o) && (forall x :: InSpan(p, o, x) ==> Covered(m, x))
    ensures q in m && o <= m[q] && q <= p && p + Pow2(o) <= q + Pow2(m[q])
    decreases o
  {
    if o == 0 {
      assert InSpan(p, o, p);
      q :| In(m, q, p);
      assert BlockOk(q, m[q]);
    } else {
      var h := o - 1;
      var u := p + Pow2(h);
      AlignedDown(p, h, o);
      BuddyFacts(p, h);
      assert BuddyOf(p, h) == u && BuddyOf(u, h) == p;
      assert forall x :: InSpan(p, h, x) || InSpan(u, h, x) ==> InSpan(p, o, x);
      q := InsideOne(m, p, h);
      var r := InsideOne(m, u, h);
      HalvesTogether(m, p, h, q, r);
      if m[q] == h {
        q := r;
      }
      assert BlockOk(q, m[q]);
      Nested(p, o, q, m[q]);
    }
  }

  /** The free blocks around the two halves of an aligned block are not both of half size. */
  lemma {:induction false} HalvesTogether(m: Blocks, p: int, h: nat, q: int, r: int)
    requires Canonical(m) && BlockOk(p, h + 1) && q in m && r in m && h <= m[q] && h <= m[r]
    requires q <= p && p + Pow2(h) <= q + Pow2(m[q]) && r <= p + Pow2(h) && p + Pow2(h) + Pow2(h) <= r + Pow2(m[r])
    ensures m[q] > h || m[r] > h
  {
    if m[q] == h && m[r] == h {
      AlignedDown(p, h, h + 1);
      assert q == p && r == p + Pow2(h) == BuddyOf(p, h);
      assert HasTwin(m, q);
    }
  }

  lemma {:induction false} SubBlocks(m: Blocks, m': Blocks, p: int)
    requires Canonical(m) && Canonical(m') && (forall x :: Covered(m, x) <==> Covered(m', x)) && p in m
    ensures Free(m', p, m[p])
  {
    assert BlockOk(p, m[p]);
    forall x | InSpan(p, m[p], x) ensures Covered(m', x) { assert In(m, p, x); }
    var q := InsideOne(m', p, m[p]);
    assert BlockOk(q, m'[q]);
    forall x | InSpan(q, m'[q], x) ensures Covered(m, x) { assert In(m', q, x); }
    var r := InsideOne(m, q, m'[q]);
    assert r != p ==> Apart(r, m[r], p, m[p]);
    assert q == p;
    SameSize(m[p], m'[q]);
  }

  lemma {:induction false} SameSize(a: nat, b: nat)
    requires a <= b && Pow2(b) <= Pow2(a)
    ensures a == b
  {
    Pow2Mono(a, b);
  }

  /** Canonicity: two fully coalesced states with the same free pages have the same free blocks. */
  lemma {:induction false} Canonicity(m: Blocks, m': Blocks)
    requires Canonical(m) && Canonical(m') && (forall x :: Covered(m, x) <==> Covered(m', x))
    ensures m == m'
  {
    forall p <- m ensures Free(m', p, m[p]) { SubBlocks(m, m', p); }
    forall p <- m' ensures Free(m, p, m'[p]) { SubBlocks(m', m, p); }
  }

  /** An aligned block of free pages exists exactly when some free block is at least that large. */
  lemma {:induction false} RoomIffLargeBlock(m: Blocks, o: nat)
    requires Canonical(m) && o < MAX_ORDER
    ensures (exists p :: BlockOk(p, o) && AllFree(m, p, o)) <==> (exists q :: q in m && o <= m[q])
  {
    if p :| BlockOk(p, o) && AllFree(m, p, o) {
      var q := InsideOne(m, p, o);
    }
    if q :| q in m && o <= m[q] {
      assert BlockOk(q, m[q]);
      AlignedDown(q, o, m[q]);
      Pow2Mono(o, m[q]);
      forall x | InSpan(q, o, x) ensures Covered(m, x) { assert In(m, q, x); }
      assert BlockOk(q, o) && AllFree(m, q, o);
    }
  }

  ghost predicate AllFree(m: Blocks, p: int, o: nat) { forall x :: InSpan(p, o, x) ==> Covered(m, x) }
}
