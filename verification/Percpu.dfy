/** The area map of a per-cpu chunk (mm/percpu.c) as a sequence: offsets in ascending order, with the low
    bit set where the area is in use, and an in-use entry at the end of the chunk. */
module Percpu {
  import opened Bits

  function Off(v: int): (o: int) { v - v % 2 }
  predicate Used(v: int) { v % 2 == 1 }

  /** Neighbouring entries x, y: an area and the start of the next. */
  ghost predicate Pair(m: seq<int>, x: int, y: int) { exists i :: 0 <= i < |m| - 1 && m[i] == x && m[i + 1] == y }

  predicate Step(x: int, y: int) { Off(x) < Off(y) && (Used(x) || Used(y)) }

  /** Offsets strictly increase from 0, no two neighbouring areas are both free, and the last entry, the end
      of the chunk, counts as in use. */
  ghost predicate MapOk(m: seq<int>) {
    && |m| >= 2 && Off(m[0]) == 0 && Used(m[|m| - 1])
    && (forall x, y :: Pair(m, x, y) ==> Step(x, y))
  }

  /** The size of area i. */
  function Size(m: seq<int>, i: nat): (n: int)
    requires i + 1 < |m|
  {
    Off(m[i + 1]) - Off(m[i])
  }

  /** The bytes in free areas. */
  function FreeSum(m: seq<int>): (n: int) {
    if |m| < 2 then 0 else (if Used(m[0]) then 0 else Off(m[1]) - m[0]) + FreeSum(m[1..])
  }

  /** No free area before index f. */
  predicate NoFreeBelow(m: seq<int>, f: int) { forall i :: 0 <= i < f && i < |m| - 1 ==> Used(m[i]) }

  /** No free area larger than c. */
  ghost predicate FreeAtMost(m: seq<int>, c: int) { forall x, y :: Pair(m, x, y) && !Used(x) ==> Off(y) - x <= c }

  /** Byte b lies in a free area. */
  ghost predicate FreeByte(m: seq<int>, b: int) { exists x, y :: Pair(m, x, y) && !Used(x) && x <= b < Off(y) }

  lemma {:induction false} PairAt(m: seq<int>, i: nat)
    requires i + 1 < |m|
    ensures Pair(m, m[i], m[i + 1])
  {
  }

  /** The pairs of two maps put together. */
  lemma {:induction false} PairJoin(a: seq<int>, b: seq<int>, x: int, y: int)
    ensures Pair(a + b, x, y) <==>
      Pair(a, x, y) || (a != [] && b != [] && x == a[|a| - 1] && y == b[0]) || Pair(b, x, y)
  {
    var m := a + b;
    if Pair(m, x, y) {
      var i :| 0 <= i < |m| - 1 && m[i] == x && m[i + 1] == y;
      if i + 1 < |a| {
        PairAt(a, i);
      } else if i >= |a| {
        PairAt(b, i - |a|);
      }
    }
    if Pair(a, x, y) {
      var i :| 0 <= i < |a| - 1 && a[i] == x && a[i + 1] == y;
      PairAt(m, i);
    }
    if a != [] && b != [] && x == a[|a| - 1] && y == b[0] {
      PairAt(m, |a| - 1);
    }
    if Pair(b, x, y) {
      var i :| 0 <= i < |b| - 1 && b[i] == x && b[i + 1] == y;
      PairAt(m, |a| + i);
    }
  }

  /** The pairs of three maps put together, the middle one not empty. */
  lemma {:induction false} PairParts(a: seq<int>, e: seq<int>, c: seq<int>, x: int, y: int)
    requires e != [] && c != []
    ensures Pair(a + e + c, x, y) <==>
      Pair(a, x, y) || Pair(e, x, y) || Pair(c, x, y)
      || (a != [] && x == a[|a| - 1] && y == e[0]) || (x == e[|e| - 1] && y == c[0])
  {
    PairJoin(a + e, c, x, y);
    PairJoin(a, e, x, y);
  }

  // ---- sums over a map with one stretch replaced ----

  /** Two maps that share an entry, joined there. */
  lemma {:induction false} FreeSumSplit(m: seq<int>, i: nat)
    requires i < |m|
    ensures FreeSum(m) == FreeSum(m[..i + 1]) + FreeSum(m[i..])
  {
    if i > 0 {
      FreeSumSplit(m[1..], i - 1);
      assert m[1..][..i] == m[..i + 1][1..] && m[1..][i - 1..] == m[i..];
      assert |m[..i + 1]| >= 2;
    } else {
      assert m[..1] == [m[0]] && m[0..] == m;
    }
  }

  /** Where the last area is in use, its end does not matter. */
  lemma {:induction false} FreeSumLast(a: seq<int>, v: int)
    requires a != [] ==> Used(a[|a| - 1])
    ensures FreeSum(a + [v]) == FreeSum(a)
  {
    if |a| > 1 {
      FreeSumLast(a[1..], v);
      assert (a + [v])[1..] == a[1..] + [v];
    } else {
      assert |a| == 1 ==> (a + [v])[1..] == [v];
    }
  }

  /** The free bytes of prefix + middle + rest, where prefix ends with an area in use. */
  lemma {:induction false} FreeSumParts(a: seq<int>, b: seq<int>, c: seq<int>)
    requires (a != [] ==> Used(a[|a| - 1])) && b != [] && c != []
    ensures FreeSum(a + b + c) == FreeSum(a) + FreeSum(b + [c[0]]) + FreeSum(c)
  {
    var m := a + b + c;
    FreeSumSplit(m, |a|);
    assert m[..|a| + 1] == a + [b[0]] && m[|a|..] == b + c;
    FreeSumLast(a, b[0]);
    FreeSumSplit(b + c, |b|);
    assert (b + c)[..|b| + 1] == b + [c[0]] && (b + c)[|b|..] == c;
  }

  // ---- allocating ----

  /** ALIGN(off, 1 << k) - off: the padding pcpu_fit_in_area() asks for. */
  function Head(off: nat, k: nat): (head: int) { RoundDown(off + Pow2(k) - 1, k) - off }

  lemma {:induction false} HeadOk(off: nat, k: nat)
    requires k >= 1 && off % 2 == 0
    ensures Head(off, k) >= 0 && Head(off, k) % 2 == 0 && Aligned(off + Head(off, k), k)
    ensures off == 0 ==> Head(off, k) == 0
  {
    RoundDownOk(off + Pow2(k) - 1, k);
    EvenHead(off, Head(off, k), k);
    if off == 0 {
      AlignedMod(0, k);
      HeadLeast(off, k, 0);
    }
  }

  lemma {:induction false} EvenHead(off: int, h: int, k: nat)
    requires k >= 1 && off % 2 == 0 && Aligned(off + h, k)
    ensures h % 2 == 0
  {
    var y := off + h;
    assert y % 2 == 0;
  }

  /** No aligned offset lies nearer. */
  lemma {:induction false} HeadLeast(off: nat, k: nat, h: nat)
    requires Aligned(off + h, k)
    ensures Head(off, k) <= h
  {
    var x := off + Pow2(k) - 1;
    RoundDownOk(x, k);
    if off + h < RoundDown(x, k) {
      AlignedApart(off + h, RoundDown(x, k), k);
    }
  }

  /** What becomes of a tail: less than 4 bytes are kept with the allocation. */
  function Tail(rest: int, size: int): (tail: int) { if rest - size < 4 then 0 else rest - size }

  /** The entries that replace a free area: a head of 4 bytes or more stays free, a smaller one goes to the
      area before; then the allocation; then the tail. */
  function Carve(off: int, thisSize: int, head: int, size: int): (e: seq<int>) {
    var tail := Tail(thisSize - head, size);
    (if head >= 4 then [off] else []) + [off + head + 1] + (if tail > 0 then [off + thisSize - tail] else [])
  }

  predicate CarveOk(off: int, thisSize: int, head: int, size: int) {
    && off >= 0 && off % 2 == 0 && thisSize % 2 == 0 && head % 2 == 0 && size % 2 == 0
    && 0 <= head && 0 < size && head + size <= thisSize
  }

  /** The pairs of a carved area. */
  lemma {:induction false} CarvePairs(off: int, thisSize: int, head: int, size: int, x: int, y: int)
    requires CarveOk(off, thisSize, head, size)
    ensures var e := Carve(off, thisSize, head, size); var tail := Tail(thisSize - head, size);
      Pair(e, x, y) <==>
        || (head >= 4 && x == off && y == off + head + 1)
        || (tail > 0 && x == off + head + 1 && y == off + thisSize - tail)
  {
    var (h, t) := (if head >= 4 then [off] else [], if Tail(thisSize - head, size) > 0 then
      [off + thisSize - Tail(thisSize - head, size)] else []);
    PairJoin(h + [off + head + 1], t, x, y);
    PairJoin(h, [off + head + 1], x, y);
  }

  /** Around a free area: a before it and c after it. */
  ghost predicate Around(a: seq<int>, off: int, c: seq<int>) {
    && c != [] && Used(c[|c| - 1]) && Off(if a == [] then off else a[0]) == 0 && !Used(off)
    && (forall x, y :: Pair(a, x, y) || Pair(c, x, y) ==> Step(x, y))
    && Used(c[0]) && off < Off(c[0]) && (a != [] ==> Used(a[|a| - 1]) && Off(a[|a| - 1]) < off)
  }

  lemma {:induction false} Split(a: seq<int>, off: int, c: seq<int>)
    requires c != [] && !Used(off)
    ensures MapOk(a + [off] + c) <==> Around(a, off, c)
  {
    var m := a + [off] + c;
    assert m[|m| - 1] == c[|c| - 1] && m[0] == if a == [] then off else a[0];
    forall x, y ensures Pair(m, x, y) <==>
      Pair(a, x, y) || Pair(c, x, y) || (a != [] && x == a[|a| - 1] && y == off) || (x == off && y == c[0]) {
      PairParts(a, [off], c, x, y);
    }
    if MapOk(m) {
      assert Step(off, c[0]) by { assert Pair(m, off, c[0]); }
      if a != [] {
        assert Step(a[|a| - 1], off) by { assert Pair(m, a[|a| - 1], off); }
      }
    }
  }

  /** An allocation in the free area between a and c. */
  lemma {:induction false} AllocMapOk(a: seq<int>, off: int, c: seq<int>, thisSize: int, head: int, size: int)
    requires Around(a, off, c) && thisSize == Off(c[0]) - off && CarveOk(off, thisSize, head, size)
      && (a == [] ==> head == 0)
    ensures MapOk(a + Carve(off, thisSize, head, size) + c)
  {
    var e := Carve(off, thisSize, head, size);
    var m' := a + e + c;
    forall x, y | Pair(m', x, y) ensures Step(x, y) {
      PairParts(a, e, c, x, y);
      CarvePairs(off, thisSize, head, size, x, y);
    }
    assert m'[|m'| - 1] == c[|c| - 1] && m'[0] == if a == [] then e[0] else a[0];
  }

  lemma {:induction false} CarveSum(off: int, thisSize: int, head: int, size: int, end: int)
    requires CarveOk(off, thisSize, head, size) && Off(end) == off + thisSize
    ensures FreeSum(Carve(off, thisSize, head, size) + [end]) == (if head >= 4 then head else 0) +
      Tail(thisSize - head, size)
  {
    var (e, tail, at) := (Carve(off, thisSize, head, size), Tail(thisSize - head, size), off + head + 1);
    var t := if tail > 0 then [off + thisSize - tail] else [];
    var rest := [at] + t + [end];
    FreeSumTail(at, t, end);
    if head >= 4 {
      assert e + [end] == [off] + rest && ([off] + rest)[1..] == rest && rest[0] == at;
    } else {
      assert e + [end] == rest;
    }
  }

  lemma {:induction false} AllocSum(a: seq<int>, off: int, c: seq<int>, thisSize: int, head: int, size: int)
    requires Around(a, off, c) && thisSize == Off(c[0]) - off && CarveOk(off, thisSize, head, size)
    ensures var tail := Tail(thisSize - head, size);
      FreeSum(a + Carve(off, thisSize, head, size) + c) ==
          FreeSum(a + [off] + c) - (thisSize - head - tail) - (if head < 4 then head else 0)
  {
    FreeSumParts(a, Carve(off, thisSize, head, size), c);
    FreeSumParts(a, [off], c);
    CarveSum(off, thisSize, head, size, c[0]);
    FreeSumTwo(off, c[0]);
    assert [off] + [c[0]] == [off, c[0]];
  }

  lemma {:induction false} FreeSumTwo(x: int, y: int)
    ensures FreeSum([x, y]) == if Used(x) then 0 else Off(y) - x
  {
    assert [x, y][1..] == [y];
  }

  lemma {:induction false} FreeSumTail(at: int, t: seq<int>, end: int)
    requires Used(at) && |t| <= 1 && (t != [] ==> !Used(t[0]))
    ensures FreeSum([at] + t + [end]) == if t == [] then 0 else Off(end) - t[0]
  {
    var m := [at] + t + [end];
    if t == [] {
      assert m == [at, end];
      FreeSumTwo(at, end);
    } else {
      assert m[1..] == [t[0], end];
      FreeSumTwo(t[0], end);
    }
  }

  /** In a map without neighbours out of order, every pair lies between the ends. */
  lemma {:induction false} PairBetween(m: seq<int>, x: int, y: int)
    requires (forall x, y :: Pair(m, x, y) ==> Step(x, y)) && Pair(m, x, y)
    ensures Off(m[0]) <= Off(x) < Off(y) <= Off(m[|m| - 1])
  {
    var i :| 0 <= i < |m| - 1 && m[i] == x && m[i + 1] == y;
    Ascends(m, 0, i);
    Ascends(m, i + 1, |m| - 1);
  }

  lemma {:induction false} Ascends(m: seq<int>, i: nat, j: nat)
    requires (forall x, y :: Pair(m, x, y) ==> Step(x, y)) && i <= j < |m|
    ensures Off(m[i]) <= Off(m[j]) && (i < j ==> Off(m[i]) < Off(m[j]))
    decreases j - i
  {
    if i < j {
      PairAt(m, i);
      assert Step(m[i], m[i + 1]);
      Ascends(m, i + 1, j);
    }
  }

  /** The free bytes around a stretch: before, in it, and after. */
  lemma {:induction false} BytesParts(a: seq<int>, e: seq<int>, c: seq<int>, b: int)
    requires e != [] && c != [] && (a != [] ==> Used(a[|a| - 1]))
    ensures FreeByte(a + e + c, b) <==> FreeByte(a, b) || FreeByte(e + [c[0]], b) || FreeByte(c, b)
  {
    forall x, y ensures Pair(a + e + c, x, y) <==>
      Pair(a, x, y) || Pair(e + [c[0]], x, y) || Pair(c, x, y) || (a != [] && x == a[|a| - 1] && y == e[0]) {
      PairParts(a, e, c, x, y);
      PairJoin(e, [c[0]], x, y);
    }
  }

  lemma {:induction false} CarveBytes(off: int, thisSize: int, head: int, size: int, end: int, b: int)
    requires CarveOk(off, thisSize, head, size) && Off(end) == off + thisSize
    ensures FreeByte(Carve(off, thisSize, head, size) + [end], b) <==>
      (head >= 4 && off <= b < off + head) || off + thisSize - Tail(thisSize - head, size) <= b < off + thisSize
  {
    var (e, tail) := (Carve(off, thisSize, head, size), Tail(thisSize - head, size));
    forall x, y ensures Pair(e + [end], x, y) <==>
      Pair(e, x, y) || (x == e[|e| - 1] && y == end) { PairJoin(e, [end], x, y); }
    forall x, y ensures Pair(e, x, y) <==>
      (head >= 4 && x == off && y == off + head + 1)
      || (tail > 0 && x == off + head + 1 && y == off + thisSize - tail) {
      CarvePairs(off, thisSize, head, size, x, y);
    }
    assert head >= 4 ==> Pair(e + [end], off, off + head + 1);
    assert tail > 0 ==> Pair(e + [end], off + thisSize - tail, end);
  }

  /** What an allocation takes: the free bytes of its area, and of a head too small to keep. */
  lemma {:induction false} AllocBytes(a: seq<int>, off: int, c: seq<int>, thisSize: int, head: int, size: int, b: int)
    requires Around(a, off, c) && thisSize == Off(c[0]) - off && CarveOk(off, thisSize, head, size)
    ensures var (lo, hi) := (if head < 4 then off else off + head, off + thisSize - Tail(thisSize - head, size));
      FreeByte(a + Carve(off, thisSize, head, size) + c, b) <==> FreeByte(a + [off] + c, b) && !(lo <= b < hi)
  {
    BytesParts(a, Carve(off, thisSize, head, size), c, b);
    BytesParts(a, [off], c, b);
    CarveBytes(off, thisSize, head, size, c[0], b);
    OneArea(off, c[0], b);
    if FreeByte(a, b) {
      var x, y :| Pair(a, x, y) && !Used(x) && x <= b < Off(y);
      PairBetween(a, x, y);
    }
    if FreeByte(c, b) {
      var x, y :| Pair(c, x, y) && !Used(x) && x <= b < Off(y);
      PairBetween(c, x, y);
    }
  }

  lemma {:induction false} TwoEntries(v: int, w: int)
    ensures forall x, y :: Pair([v, w], x, y) <==> x == v && y == w
  {
    var m := [v, w];
    forall x, y ensures Pair(m, x, y) <==> x == v && y == w {
      assert m == [v] + [w];
      PairJoin([v], [w], x, y);
    }
  }

  lemma {:induction false} OneArea(off: int, end: int, b: int)
    ensures FreeByte([off] + [end], b) <==> !Used(off) && off <= b < Off(end)
  {
    assert [off] + [end] == [off, end];
    TwoEntries(off, end);
    assert Pair([off, end], off, end);
  }

  // ---- freeing ----

  predicate FreeEnd(p: seq<int>) { p != [] && !Used(p[|p| - 1]) }

  /** Area off, in use between p and c, becomes free and joins its free neighbours. */
  function Release(p: seq<int>, off: int, c: seq<int>): (m: seq<int>) {
    (if FreeEnd(p) then p else p + [off]) + (if c != [] && !Used(c[0]) then c[1..] else c)
  }

  /** Around an area in use. */
  ghost predicate Within(p: seq<int>, off: int, c: seq<int>) { c != [] && !Used(off) && MapOk(p + [off + 1] + c) }

  lemma {:induction false} WithinParts(p: seq<int>, off: int, c: seq<int>)
    requires Within(p, off, c)
    ensures off < Off(c[0]) && Used(c[|c| - 1]) && (p != [] ==> Off(p[|p| - 1]) < off)
      && (if p == [] then off == 0 else Off(p[0]) == 0)
    ensures forall x, y :: Pair(p, x, y) || Pair(c, x, y) ==> Step(x, y)
  {
    var m := p + [off + 1] + c;
    assert m[|m| - 1] == c[|c| - 1] && m[0] == if p == [] then off + 1 else p[0];
    forall x, y ensures Pair(m, x, y) <==>
      Pair(p, x, y) || Pair(c, x, y) || (p != [] && x == p[|p| - 1] && y == off + 1) || (x == off + 1 && y == c[0]) {
      PairParts(p, [off + 1], c, x, y);
    }
    assert Step(off + 1, c[0]) by { assert Pair(m, off + 1, c[0]); }
    if p != [] {
      assert Step(p[|p| - 1], off + 1) by { assert Pair(m, p[|p| - 1], off + 1); }
    }
  }

  /** The first entry of what follows a released area is in use. */
  lemma {:induction false} AfterRelease(c: seq<int>)
    requires c != [] && Used(c[|c| - 1]) && (forall x, y :: Pair(c, x, y) ==> Step(x, y)) && !Used(c[0])
    ensures |c| >= 2 && Used(c[1]) && Off(c[0]) < Off(c[1]) && forall x, y :: Pair(c, x, y) <==>
      (x == c[0] && y == c[1]) || Pair(c[1..], x, y)
  {
    forall x, y ensures Pair(c, x, y) <==> (x == c[0] && y == c[1]) || Pair(c[1..], x, y) {
      assert c == [c[0]] + c[1..];
      PairJoin([c[0]], c[1..], x, y);
    }
    assert Step(c[0], c[1]) by { PairAt(c, 0); }
  }

  lemma {:induction false} ReleaseOk(p: seq<int>, off: int, c: seq<int>)
    requires Within(p, off, c)
    ensures MapOk(Release(p, off, c))
  {
    WithinParts(p, off, c);
    var a := if FreeEnd(p) then p else p + [off];
    var d := if !Used(c[0]) then c[1..] else c;
    if !Used(c[0]) { AfterRelease(c); }
    var m := a + d;
    assert m[0] == a[0] && m[|m| - 1] == d[|d| - 1];
    forall x, y | Pair(m, x, y) ensures Step(x, y) {
      PairJoin(a, d, x, y);
      PairJoin(p, [off], x, y);
    }
  }

  lemma {:induction false} FreeSumEnd(a: seq<int>, v: int, w: int)
    requires Off(v) == Off(w)
    ensures FreeSum(a + [v]) == FreeSum(a + [w])
  {
    if a != [] {
      FreeSumEnd(a[1..], v, w);
      assert (a + [v])[1..] == a[1..] + [v] && (a + [w])[1..] == a[1..] + [w];
      assert |a| == 1 ==> (a + [v])[1] == v && (a + [w])[1] == w;
    }
  }

  /** Two free neighbours count as much as the area they make. */
  lemma {:induction false} FreeSumMerge(q: seq<int>, x: int, y: int, d: seq<int>)
    requires !Used(x) && !Used(y) && d != []
    ensures FreeSum(q + [x] + [y] + d) == FreeSum(q + [x] + d)
  {
    var (m, n) := (q + [x] + [y] + d, q + [x] + d);
    FreeSumSplit(m, |q|);
    FreeSumSplit(n, |q|);
    assert m[..|q| + 1] == q + [x] == n[..|q| + 1];
    assert m[|q|..] == [x, y] + d && n[|q|..] == [x] + d;
    assert ([x, y] + d)[1..] == [y] + d && ([y] + d)[1..] == d && ([x] + d)[1..] == d;
  }

  /** Marking an area free adds its size. */
  lemma {:induction false} FreeSumMark(p: seq<int>, off: int, c: seq<int>)
    requires !Used(off) && c != []
    ensures FreeSum(p + [off] + c) == FreeSum(p + [off + 1] + c) + Off(c[0]) - off
  {
    var (m, n) := (p + [off] + c, p + [off + 1] + c);
    FreeSumSplit(m, |p|);
    FreeSumSplit(n, |p|);
    assert m[..|p| + 1] == p + [off] && n[..|p| + 1] == p + [off + 1];
    FreeSumEnd(p, off, off + 1);
    assert m[|p|..] == [off] + c && n[|p|..] == [off + 1] + c && ([off] + c)[1..] == c && ([off + 1] + c)[1..] == c;
  }

  lemma {:induction false} ReleaseSum(p: seq<int>, off: int, c: seq<int>)
    requires Within(p, off, c)
    ensures FreeSum(Release(p, off, c)) == FreeSum(p + [off + 1] + c) + Off(c[0]) - off
  {
    WithinParts(p, off, c);
    FreeSumMark(p, off, c);
    var d := c;
    if !Used(c[0]) {
      AfterRelease(c);
      d := c[1..];
      FreeSumMerge(p, off, c[0], d);
      assert p + [off] + [c[0]] + d == p + [off] + c;
    }
    if FreeEnd(p) {
      var n := |p| - 1;
      FreeSumMerge(p[..n], p[n], off, d);
      assert p[..n] + [p[n]] == p;
    }
  }

  lemma {:induction false} BytesMark(p: seq<int>, off: int, c: seq<int>, b: int)
    requires !Used(off) && c != []
    ensures FreeByte(p + [off] + c, b) <==> FreeByte(p + [off + 1] + c, b) || off <= b < Off(c[0])
  {
    var (m, n) := (p + [off] + c, p + [off + 1] + c);
    forall x, y ensures Pair(m, x, y) <==>
      Pair(p, x, y) || Pair(c, x, y) || (p != [] && x == p[|p| - 1] && y == off)
      || (x == off && y == c[0]) { PairParts(p, [off], c, x, y); }
    forall x, y ensures Pair(n, x, y) <==>
      Pair(p, x, y) || Pair(c, x, y) || (p != [] && x == p[|p| - 1] && y == off + 1)
      || (x == off + 1 && y == c[0]) { PairParts(p, [off + 1], c, x, y); }
    assert Pair(m, off, c[0]);
    if p != [] {
      assert Pair(m, p[|p| - 1], off) && Pair(n, p[|p| - 1], off + 1);
    }
  }

  lemma {:induction false} BytesMerge(q: seq<int>, x: int, y: int, d: seq<int>, b: int)
    requires !Used(x) && !Used(y) && d != [] && x <= y <= Off(d[0])
    ensures FreeByte(q + [x] + [y] + d, b) <==> FreeByte(q + [x] + d, b)
  {
    var (m, n) := (q + [x] + [y] + d, q + [x] + d);
    forall u, v ensures Pair(m, u, v) <==>
      Pair(q + [x], u, v) || Pair(d, u, v) || (u == x && v == y) || (u == y && v == d[0]) {
      PairParts(q + [x], [y], d, u, v);
    }
    forall u, v ensures Pair(n, u, v) <==>
      Pair(q + [x], u, v) || Pair(d, u, v) || (u == x && v == d[0]) { PairJoin(q + [x], d, u, v); }
    assert Pair(m, x, y) && Pair(m, y, d[0]) && Pair(n, x, d[0]);
  }

  /** Freeing an area frees exactly its bytes. */
  lemma {:induction false} ReleaseBytes(p: seq<int>, off: int, c: seq<int>, b: int)
    requires Within(p, off, c)
    ensures FreeByte(Release(p, off, c), b) <==> FreeByte(p + [off + 1] + c, b) || off <= b < Off(c[0])
  {
    WithinParts(p, off, c);
    BytesMark(p, off, c, b);
    var d := c;
    if !Used(c[0]) {
      AfterRelease(c);
      d := c[1..];
      BytesMerge(p, off, c[0], d, b);
      assert p + [off] + [c[0]] + d == p + [off] + c;
    }
    if FreeEnd(p) {
      var n := |p| - 1;
      BytesMerge(p[..n], p[n], off, d, b);
      assert p[..n] + [p[n]] == p;
    }
  }

  /** After a free, the only new area is the joined one. */
  lemma {:induction false} ReleaseAtMost(p: seq<int>, off: int, c: seq<int>, hint: int, size: int)
    requires Within(p, off, c) && FreeAtMost(p + [off + 1] + c, hint)
    requires var (x, d) := (if FreeEnd(p) then p[|p| - 1] else off, if Used(c[0]) then c else c[1..]);
      d != [] && size >= hint && size >= Off(d[0]) - x
    ensures FreeAtMost(Release(p, off, c), size)
  {
    WithinParts(p, off, c);
    if !Used(c[0]) { AfterRelease(c); }
    var (a, d) := (if FreeEnd(p) then p else p + [off], if Used(c[0]) then c else c[1..]);
    forall u, v | Pair(a + d, u, v) && !Used(u) ensures Off(v) - u <= size {
      PairJoin(a, d, u, v);
      PairJoin(p, [off], u, v);
      PairParts(p, [off + 1], c, u, v);
    }
  }

  /** After an allocation, the free areas are old ones, the head and the tail. */
  lemma {:induction false} AllocAtMost(a: seq<int>, off: int, c: seq<int>, thisSize: int, head: int, size: int,
                            most: int)
    requires Around(a, off, c) && thisSize == Off(c[0]) - off && CarveOk(off, thisSize, head, size)
    requires (forall x, y :: (Pair(a, x, y) || Pair(c, x, y)) && !Used(x) ==> Off(y) - x <= most)
    requires most >= Tail(thisSize - head, size) && (head >= 4 ==> most >= head)
    ensures FreeAtMost(a + Carve(off, thisSize, head, size) + c, most)
  {
    var e := Carve(off, thisSize, head, size);
    forall x, y | Pair(a + e + c, x, y) && !Used(x) ensures Off(y) - x <= most {
      PairParts(a, e, c, x, y);
      PairJoin(e, [c[0]], x, y);
      CarveAtMost(off, thisSize, head, size, c[0], x, y);
    }
  }

  lemma {:induction false} CarveAtMost(off: int, thisSize: int, head: int, size: int, end: int, x: int, y: int)
    requires CarveOk(off, thisSize, head, size) && Off(end) == off + thisSize
    ensures Pair(Carve(off, thisSize, head, size) + [end], x, y) && !Used(x) ==>
      (head >= 4 && Off(y) - x == head) || Off(y) - x == Tail(thisSize - head, size)
  {
    var e := Carve(off, thisSize, head, size);
    PairJoin(e, [end], x, y);
    CarvePairs(off, thisSize, head, size, x, y);
  }
}
