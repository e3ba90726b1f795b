/** struct pcpu_chunk: the area map in an array, with its hints (mm/percpu.c). */
module PercpuChunk {
  import opened Bits
  import opened Percpu

  const PCPU_DFL_MAP_ALLOC := 16
  const PCPU_ATOMIC_MAP_MARGIN_HIGH := 64

  function MaxOf(a: int, b: int): int { if a >= b then a else b }

  class Chunk {
    var map_: array<int>
    var mapUsed: nat
    var freeSize: int
    var contigHint: int
    var firstFree: int

    /** The area map with its end entry. */
    ghost function Map(): (m: seq<int>)
      requires mapUsed < map_.Length
      reads this`mapUsed, this`map_, map_
    {
      map_[..mapUsed + 1]
    }

    ghost predicate Valid()
      reads this, map_
    {
      && mapUsed < map_.Length && MapOk(Map())
      && freeSize == FreeSum(Map()) && FreeAtMost(Map(), contigHint) && contigHint >= 0
      && firstFree >= 0 && NoFreeBelow(Map(), firstFree)
    }

    /** A new chunk is one free area. */
    constructor (unitSize: int)
      requires unitSize > 0 && unitSize % 2 == 0
      ensures Valid() && fresh(map_) && Map() == [0, unitSize + 1]
    {
      var a := new int[PCPU_DFL_MAP_ALLOC];
      a[0], a[1] := 0, unitSize + 1;
      map_, mapUsed, freeSize, contigHint, firstFree := a, 1, unitSize, unitSize, 0;
      new;
      assert Map() == [0, unitSize + 1];
      FreeSumTwo(0, unitSize + 1);
      TwoEntries(0, unitSize + 1);
    }

    /** pcpu_need_to_extend(): the length the map should have, 0 if it will do. */
    method NeedToExtend(isAtomic: bool) returns (newAlloc: nat)
      requires mapUsed < map_.Length
      ensures newAlloc == 0 <==> map_.Length >= mapUsed + if isAtomic then 3 else PCPU_ATOMIC_MAP_MARGIN_HIGH
      ensures newAlloc != 0 ==> newAlloc > map_.Length && newAlloc >= mapUsed + if isAtomic then 3
        else PCPU_ATOMIC_MAP_MARGIN_HIGH
    {
      var margin := if isAtomic then 3 else PCPU_ATOMIC_MAP_MARGIN_HIGH;
      if map_.Length >= mapUsed + margin {
        return 0;
      }
      newAlloc := PCPU_DFL_MAP_ALLOC;
      while newAlloc < mapUsed + margin
        invariant newAlloc > 0
      {
        newAlloc := newAlloc * 2;
      }
    }

    /** pcpu_extend_area_map() */
    method ExtendAreaMap(newAlloc: nat)
      requires Valid()
      modifies this`map_
      ensures Valid() && Map() == old(Map()) && map_.Length == MaxOf(newAlloc, old(map_.Length))
      ensures map_ == old(map_) || fresh(map_)
    {
      if newAlloc <= map_.Length {
        return;
      }
      ghost var m := Map();
      var fresh_ := new int[newAlloc];
      forall i | 0 <= i < map_.Length { fresh_[i] := map_[i]; }
      map_ := fresh_;
      assert Map() == m;
    }

    /** Make room for n entries after index i. */
    method ShiftUp(i: nat, n: nat)
      requires i < mapUsed && mapUsed + n < map_.Length
      modifies map_, this`mapUsed
      ensures mapUsed == old(mapUsed) + n
      ensures forall j :: 0 <= j <= i ==> map_[j] == old(map_[j])
      ensures forall j :: i + n < j <= mapUsed ==> map_[j] == old(map_[j - n])
    {
      forall j | i + n < j <= mapUsed + n { map_[j] := map_[j - n]; }
      mapUsed := mapUsed + n;
    }

    /** Insert the sub-blocks of area i, which holds off: a head, the block, a tail. */
    method SplitArea(i: nat, off: int, head: int, size: int, tail: int) returns (i': nat)
      requires i < mapUsed && mapUsed + 3 <= map_.Length && map_[i] == off
      modifies map_, this`mapUsed
      ensures mapUsed == old(mapUsed) + (if head != 0 then 1 else 0) + (if tail != 0 then 1 else 0)
        && mapUsed < map_.Length
      ensures i' == i + (if head != 0 then 1 else 0) && map_[i'] == off + head
      ensures Map() == old(Map())[..i] + Blocks(off, head, off + head, off + head + size, tail) + old(Map())[i + 1..]
    {
      ghost var m := Map();
      i' := i;
      var n := (if head != 0 then 1 else 0) + if tail != 0 then 1 else 0;
      if n != 0 {
        ShiftUp(i, n);
        if head != 0 {
          i' := i + 1;
          map_[i'] := off + head;
        }
        if tail != 0 {
          map_[i' + 1] := off + head + size;
        }
      }
      ghost var (e, w) := (Blocks(off, head, off + head, off + head + size, tail), Map());
      assert |e| == n + 1 && e[0] == w[i] && (n > 0 ==> e[1] == w[i + 1]) && (n > 1 ==> e[2] == w[i + 2]);
      Spliced(w, m, i, e, n);
    }

    /** Split area i and mark the block in use. */
    method SplitAndMark(i: nat, off: int, head: int, size: int, tail: int) returns (i': nat)
      requires i < mapUsed && mapUsed + 3 <= map_.Length && map_[i] == off
      modifies map_, this`mapUsed
      ensures mapUsed == old(mapUsed) + (if head != 0 then 1 else 0) + (if tail != 0 then 1 else 0)
        && mapUsed < map_.Length
      ensures i' == i + (if head != 0 then 1 else 0)
      ensures Map() == old(Map())[..i] + Blocks(off, head, off + head + 1, off + head + size, tail) +
        old(Map())[i + 1..]
    {
      ghost var m := Map();
      i' := SplitArea(i, off, head, size, tail);
      ghost var w := Map();
      map_[i'] := map_[i'] + 1;
      assert Map() == w[i' := w[i'] + 1];
      Marked(m[..i], off, head, off + head, off + head + size, tail, m[i + 1..]);
    }

    /** A head of less than 4 bytes goes to the area before, which is in use. */
    method SmallHead(i: nat, head0: int) returns (off: int, thisSize: int, head: int)
      requires i < mapUsed < map_.Length && map_[i] % 2 == 0 && head0 % 2 == 0 && head0 >= 0
      modifies map_, this`freeSize
      ensures var small := if head0 < 4 then head0 else 0;
        && off == old(map_[i]) + small && map_[i] == off && head == head0 - small && freeSize == old(freeSize) - small
        && thisSize == old(Size(Map(), i)) - small
      ensures Map()[..i] == old(Map())[..i] && Map()[i + 1..] == old(Map())[i + 1..]
    {
      head := head0;
      off := map_[i];
      thisSize := Off(map_[i + 1]) - off;
      if head != 0 && head < 4 {
        off := off + head;
        map_[i] := off;
        freeSize := freeSize - head;
        thisSize := thisSize - head;
        head := 0;
      }
    }

    /** The part of pcpu_alloc_area() that takes area i, with head bytes of padding. */
    method TakeStores(i: nat, head0: int, size0: int, maxContig0: int, seenFree: bool) returns (off: int)
      requires i < mapUsed && mapUsed + 3 <= map_.Length && CarveOk(map_[i], Size(Map(), i), head0, size0)
        && maxContig0 >= 0
      modifies this, map_
      ensures map_ == old(map_) && off == old(map_[i]) + head0 && mapUsed < map_.Length
      ensures Map() == old(Map())[..i] + Carve(old(map_[i]), old(Size(Map(), i)), head0, size0) + old(Map())[i + 1..]
      ensures firstFree == if seenFree then old(firstFree) else if head0 >= 4 then i else i + 1
      ensures freeSize == old(freeSize) - Taken(old(Size(Map(), i)), head0, size0)
      ensures contigHint == Hint(old(contigHint), maxContig0, old(Size(Map(), i)), head0, size0, i + 1 == old(mapUsed))
    {
      ghost var (m, off0) := (Map(), map_[i]);
      var thisSize, head, size;
      off, thisSize, head := SmallHead(i, head0);
      size := size0;
      var tail := thisSize - head - size;
      if tail < 4 {
        tail := 0;
        size := thisSize - head;
      }
      var maxContig := maxContig0;
      var i' := SplitAndMark(i, off, head, size, tail);
      if head != 0 {
        if !seenFree {
          firstFree := i;
        }
        off := off + head;
        maxContig := MaxOf(head, maxContig);
      } else if !seenFree {
        firstFree := i + 1;
      }
      if tail != 0 {
        maxContig := MaxOf(tail, maxContig);
      }
      contigHint := if i' + 1 == mapUsed then maxContig else MaxOf(contigHint, maxContig);
      freeSize := freeSize - size;
      assert Carve(off0, Size(m, i), head0, size0) == Blocks(off - head, head, off + 1, off + size, tail);
    }

    /** Take area i for an allocation. */
    method Take(i: nat, head: int, size: int, maxContig: int, seenFree: bool) returns (off: int)
      requires Valid() && i < mapUsed && mapUsed + 3 <= map_.Length && CarveOk(map_[i], Size(Map(), i), head, size)
        && (i == 0 ==> head == 0)
      requires maxContig >= 0 && (forall j: nat :: j < i && !Used(map_[j]) ==> Size(Map(), j) <= maxContig)
      requires firstFree <= i && NoFreeBelow(Map(), if seenFree then firstFree else i)
      modifies this, map_
      ensures Valid() && map_ == old(map_) && off == old(map_[i]) + head && Allocated(old(Map()), Map(), off, size)
      ensures mapUsed <= old(mapUsed) + 2
    {
      ghost var m := Map();
      TakeOk(m, i, head, size, seenFree, firstFree);
      TakeHint(m, i, head, size, contigHint, maxContig);
      TakeBytes(m, i, head, size);
      off := TakeStores(i, head, size, maxContig, seenFree);
    }

    /** The scan of pcpu_alloc_area(): the first free area with room; first_free moves to the first free one. */
    method FindFit(size: int, k: nat) returns (found: bool, i: nat, head: int, maxContig: int, seenFree: bool)
      requires Valid() && k >= 1
      modifies this`firstFree
      ensures Valid() && maxContig >= 0 && Scanned(Map(), i, firstFree, maxContig, seenFree, size, k)
      ensures found ==> firstFree <= i < mapUsed && FitsIn(Map(), i, size, k) && head == Head(map_[i], k)
      ensures !found ==> i >= mapUsed
    {
      maxContig, seenFree, i := 0, false, firstFree;
      head := 0;
      ghost var m := Map();
      while i < mapUsed
        invariant 0 <= firstFree <= i && maxContig >= 0
        invariant Scanned(m, i, firstFree, maxContig, seenFree, size, k)
      {
        var off := map_[i];
        FreeEntry(m, i);
        if !Used(off) && Off(map_[i + 1]) - off >= Head(off, k) + size {
          return true, i, Head(off, k), maxContig, seenFree;
        }
        ScanNext(m, i, firstFree, maxContig, seenFree, size, k);
        if !Used(off) {
          if !seenFree {
            firstFree, seenFree := i, true;
          }
          maxContig := MaxOf(Off(map_[i + 1]) - off, maxContig);
        }
        i := i + 1;
      }
      found := false;
    }

    /** Take the area the scan found. */
    method TakeFound(i: nat, head: int, size: int, k: nat, maxContig: int, seenFree: bool) returns (off: int)
      requires Valid() && size > 0 && size % 2 == 0 && k >= 1 && map_.Length >= mapUsed + 3 && maxContig >= 0
      requires firstFree <= i < mapUsed && FitsIn(Map(), i, size, k) && head == Head(map_[i], k)
      requires Scanned(Map(), i, firstFree, maxContig, seenFree, size, k)
      modifies this, map_
      ensures Valid() && map_ == old(map_) && off >= 0 && Aligned(off, k) && Allocated(old(Map()), Map(), off, size)
      ensures FirstPlace(old(Map()), off, size, k)
      ensures mapUsed <= old(mapUsed) + 2
    {
      ghost var m := Map();
      FoundFits(m, i, head, firstFree, maxContig, seenFree, size, k);
      assert forall j :: 0 <= j < mapUsed ==> map_[j] == m[j];
      off := Take(i, head, size, maxContig, seenFree);
      assert off == m[i] + head;
    }

    /** pcpu_alloc_area() for a request that need not be populated: the lowest place in the first free area that has
        one, or -1 if none has. */
    method AllocArea(size: int, k: nat) returns (off: int)
      requires Valid() && size > 0 && size % 2 == 0 && k >= 1 && map_.Length >= mapUsed + 3
      modifies this, map_
      ensures Valid() && map_ == old(map_) && mapUsed <= old(mapUsed) + 2
      ensures off == -1 <==> NoPlace(old(Map()), size, k)
      ensures off == -1 ==> Map() == old(Map())
      ensures off != -1 ==>
        FirstPlace(old(Map()), off, size, k) && Aligned(off, k) && Allocated(old(Map()), Map(), off, size)
    {
      NoFitNoPlace(Map(), size, k);
      off := ScanAndTake(size, k);
    }

    /** Its body. */
    method ScanAndTake(size: int, k: nat) returns (off: int)
      requires Valid() && size > 0 && size % 2 == 0 && k >= 1 && map_.Length >= mapUsed + 3
      modifies this, map_
      ensures Valid() && map_ == old(map_) && mapUsed <= old(mapUsed) + 2
      ensures off == -1 <==> NoFit(old(Map()), size, k)
      ensures off == -1 ==> Map() == old(Map())
      ensures off != -1 ==>
        FirstPlace(old(Map()), off, size, k) && Aligned(off, k) && Allocated(old(Map()), Map(), off, size)
    {
      ghost var m := Map();
      var found, i, head, maxContig, seenFree := FindFit(size, k);
      if found {
        FitFound(m, i, size, k);
        off := TakeFound(i, head, size, k, maxContig, seenFree);
      } else {
        off := GiveUp(i, maxContig, seenFree, size, k);
        assert Map() == m;
      }
    }

    /** Nothing fits: contig_hint becomes exact. */
    method GiveUp(i: nat, maxContig: int, seenFree: bool, size: int, k: nat) returns (off: int)
      requires Valid() && i >= mapUsed && maxContig >= 0 && Scanned(Map(), i, firstFree, maxContig, seenFree, size, k)
      modifies this`contigHint
      ensures Valid() && off == -1 && NoFit(Map(), size, k)
    {
      ScannedAll(Map(), i, firstFree, maxContig, seenFree, size, k);
      contigHint := maxContig;
      off := -1;
    }

    /** The binary search of pcpu_free_area(). */
    method FindUsed(freeme: int) returns (i: nat)
      requires mapUsed < map_.Length && MapOk(Map()) && !Used(freeme)
      requires exists j :: 0 <= j < mapUsed && map_[j] == freeme + 1
      ensures i < mapUsed && map_[i] == freeme + 1
    {
      ghost var m := Map();
      ghost var at :| 0 <= at < mapUsed && map_[at] == freeme + 1;
      i := 0;
      var j := mapUsed;
      while i != j
        invariant 0 <= i <= at <= j <= mapUsed && (i == j ==> i == at) && (at == j ==> i == j)
        decreases j - i
      {
        var k := (i + j) / 2;
        var off := map_[k];
        if k < at { Ascends(m, k, at); }
        if at < k { Ascends(m, at, k); }
        if off < freeme + 1 {
          i := k + 1;
        } else if off > freeme + 1 {
          j := k;
        } else {
          i, j := k, k;
        }
      }
    }

    /** Drop the n entries after index i. */
    method ShiftDown(i: nat, n: nat)
      requires i + n <= mapUsed < map_.Length
      modifies map_, this`mapUsed
      ensures mapUsed == old(mapUsed) - n && Map() == old(Map())[..i + 1] + old(Map())[i + 1 + n..]
    {
      ghost var m := Map();
      mapUsed := mapUsed - n;
      forall j | i + 1 <= j <= mapUsed { map_[j] := map_[j + n]; }
      Joined(Map(), m, i + 1, n);
    }

    /** Clear the in-use bit of area i, and see which neighbours it joins. */
    method MarkFree(i0: nat) returns (i: nat, toFree: nat)
      requires i0 < mapUsed < map_.Length
      modifies map_, this`freeSize
      ensures var m := old(Map());
        && Map() == m[i0 := m[i0] - 1] && freeSize == old(freeSize) + Off(m[i0 + 1]) - (m[i0] - 1)
        && i == (if i0 > 0 && !Used(m[i0 - 1]) then i0 - 1 else i0)
          && toFree == (if Used(m[i0 + 1]) then 0 else 1) + (i0 - i)
    {
      i := i0;
      var off := map_[i] - 1;
      map_[i] := off;
      freeSize := freeSize + Off(map_[i + 1]) - off;
      toFree := 0;
      if !Used(map_[i + 1]) {
        toFree := toFree + 1;
      }
      if i > 0 && !Used(map_[i - 1]) {
        toFree := toFree + 1;
        i := i - 1;
      }
    }

    /** Free area i: join it with its free neighbours. */
    method ReleaseStores(i0: nat) returns (i: nat)
      requires i0 < mapUsed < map_.Length && Used(map_[i0]) && Used(map_[mapUsed])
      modifies map_, this`mapUsed, this`freeSize
      ensures var m := old(Map());
        && mapUsed < map_.Length && Map() == Release(m[..i0], m[i0] - 1, m[i0 + 1..])
          && freeSize == old(freeSize) + Size(m, i0)
        && i == (if FreeEnd(m[..i0]) then i0 - 1 else i0) && i + 1 <= mapUsed
    {
      ghost var m := Map();
      var toFree;
      i, toFree := MarkFree(i0);
      ReleaseShape(m, Map(), i0, m[i0] - 1, i, toFree);
      ShiftDown(i, toFree);
    }

    /** Free area i0: what the map is then, with i the joined area. */
    method Join(i0: nat) returns (i: nat)
      requires mapUsed < map_.Length && MapOk(Map()) && i0 < mapUsed && Used(map_[i0])
      requires firstFree >= 0 && NoFreeBelow(Map(), firstFree) && FreeAtMost(Map(), contigHint)
      modifies map_, this`mapUsed, this`freeSize
      ensures mapUsed < map_.Length && i < mapUsed && MapOk(Map()) && Freed(old(Map()), Map(), old(map_[i0]) - 1)
      ensures freeSize - FreeSum(Map()) == old(freeSize - FreeSum(Map()))
      ensures NoFreeBelow(Map(), if i0 < firstFree then i0 else firstFree)
        && FreeAtMost(Map(), MaxOf(map_[i + 1] - map_[i] - 1, contigHint))
    {
      ghost var m := Map();
      assert Used(m[mapUsed]);
      i := ReleaseStores(i0);
      ghost var w := Map();
      ReleaseFreed(m, w, i0);
      ReleaseHints(m, w, i0, firstFree, contigHint);
      assert map_[i + 1] == w[i + 1] && map_[i] == w[i];
    }

    /** Free area found, and keep the hints right. */
    method FreeFound(found: nat)
      requires Valid() && found < mapUsed && Used(map_[found])
      modifies this, map_
      ensures Valid() && map_ == old(map_) && Freed(old(Map()), Map(), old(map_[found]) - 1)
    {
      var i := Join(found);
      ghost var m := Map();
      if found < firstFree {
        firstFree := found;
      }
      contigHint := MaxOf(map_[i + 1] - map_[i] - 1, contigHint);
      assert Map() == m;
    }

    /** pcpu_free_area() of an area in use. */
    method FreeArea(freeme: int)
      requires Valid() && !Used(freeme) && HasArea(Map(), freeme)
      modifies this, map_
      ensures Valid() && map_ == old(map_) && Freed(old(Map()), Map(), freeme)
    {
      assert exists j :: 0 <= j < mapUsed && map_[j] == freeme + 1;
      var found := FindUsed(freeme);
      FreeFound(found);
    }
  }

  /** The bytes of the area at off, and no others, became free; every other area in use is still there. */
  ghost predicate Freed(m: seq<int>, m': seq<int>, off: int) {
    (exists j: nat :: j + 1 < |m| && m[j] == off + 1 && GaveBytes(m, m', off, off + Size(m, j)))
        && AreasLess(m, m', off)
  }

  ghost predicate AreasLess(m: seq<int>, m': seq<int>, off: int) {
    forall o :: !Used(o) ==> (HasArea(m', o) <==> HasArea(m, o) && o != off)
  }

  ghost predicate AreasMore(m: seq<int>, m': seq<int>, off: int) {
    forall o :: !Used(o) ==> (HasArea(m', o) <==> HasArea(m, o) || o == off)
  }

  ghost predicate GaveBytes(m: seq<int>, m': seq<int>, lo: int, hi: int) {
    forall b :: FreeByte(m', b) <==> FreeByte(m, b) || lo <= b < hi
  }

  lemma {:induction false} Joined(w: seq<int>, m: seq<int>, i: nat, n: nat)
    requires i + n <= |m| && |w| == |m| - n && (forall j :: 0 <= j < i ==> w[j] == m[j])
      && (forall j :: i <= j < |w| ==> w[j] == m[j + n])
    ensures w == m[..i] + m[i + n..]
  {
    assert w[..i] == m[..i] && w[i..] == m[i + n..];
    assert w == w[..i] + w[i..];
  }

  /** The entries left after the joins. */
  lemma {:induction false} ReleaseShape(m: seq<int>, w: seq<int>, i: nat, off: int, k: nat, n: nat)
    requires i + 1 < |m| && w == m[i := off] && Used(m[|m| - 1]) && k == (if i > 0 && !Used(m[i - 1]) then i - 1 else i)
    requires n == (if Used(m[i + 1]) then 0 else 1) + (i - k)
    ensures k + 1 + n < |m| && w[..k + 1] + w[k + 1 + n..] == Release(m[..i], off, m[i + 1..])
    ensures k == (if FreeEnd(m[..i]) then i - 1 else i)
  {
    var (p, c) := (m[..i], m[i + 1..]);
    assert w[..i] == p && w[..i + 1] == p + [off] && w[i + 1..] == c;
    if !Used(m[i + 1]) {
      assert w[i + 2..] == c[1..];
    }
  }

  /** The joined area and the entry after it. */
  lemma {:induction false} ReleaseEntries(p: seq<int>, off: int, c: seq<int>)
    requires c != [] && (!Used(c[0]) ==> |c| >= 2)
    ensures var (k, m') := (if FreeEnd(p) then |p| - 1 else |p|, Release(p, off, c));
      && k + 1 < |m'| && m'[k] == (if FreeEnd(p) then p[|p| - 1] else off) && m'[k + 1] == if Used(c[0]) then c[0]
        else c[1]
  {
  }

  lemma {:induction false} ReleaseHint(p: seq<int>, off: int, c: seq<int>, hint: int)
    requires Within(p, off, c) && FreeAtMost(p + [off + 1] + c, hint)
    ensures var (k, m') := (if FreeEnd(p) then |p| - 1 else |p|, Release(p, off, c));
      k + 1 < |m'| && FreeAtMost(m', MaxOf(m'[k + 1] - m'[k] - 1, hint))
  {
    WithinParts(p, off, c);
    if !Used(c[0]) { AfterRelease(c); }
    ReleaseEntries(p, off, c);
    var (k, m') := (if FreeEnd(p) then |p| - 1 else |p|, Release(p, off, c));
    ReleaseAtMost(p, off, c, hint, MaxOf(m'[k + 1] - m'[k] - 1, hint));
  }

  lemma {:induction false} ReleaseFreed(m: seq<int>, m': seq<int>, i: nat)
    requires MapOk(m) && i + 1 < |m| && Used(m[i]) && m' == Release(m[..i], m[i] - 1, m[i + 1..])
    ensures MapOk(m') && FreeSum(m') == FreeSum(m) + Size(m, i) && Freed(m, m', m[i] - 1)
  {
    var (p, off, c) := (m[..i], m[i] - 1, m[i + 1..]);
    assert m == p + [off + 1] + c;
    ReleaseOk(p, off, c);
    ReleaseSum(p, off, c);
    forall b ensures FreeByte(m', b) <==> FreeByte(m, b) || off <= b < off + Size(m, i) { ReleaseBytes(p, off, c, b); }
    assert GaveBytes(m, m', off, off + Size(m, i));
    forall o | !Used(o) ensures HasArea(m', o) <==> HasArea(m, o) && o != off { ReleaseAreas(m, m', i, o); }
  }

  lemma {:induction false} ReleaseHints(m: seq<int>, m': seq<int>, i: nat, firstFree: int, hint: int)
    requires MapOk(m) && i + 1 < |m| && Used(m[i]) && FreeAtMost(m, hint) && firstFree >= 0 && NoFreeBelow(m, firstFree)
    requires m' == Release(m[..i], m[i] - 1, m[i + 1..])
    ensures NoFreeBelow(m', if i < firstFree then i else firstFree)
    ensures var k := if FreeEnd(m[..i]) then i - 1 else i;
      k + 1 < |m'| && FreeAtMost(m', MaxOf(m'[k + 1] - m'[k] - 1, hint))
  {
    var (p, off, c) := (m[..i], m[i] - 1, m[i + 1..]);
    assert m == p + [off + 1] + c;
    ReleaseHint(p, off, c, hint);
  }

  /** A free area with room for an aligned block. */
  predicate FitsIn(m: seq<int>, i: nat, size: int, k: nat)
    requires i + 1 < |m|
  {
    m[i] >= 0 && !Used(m[i]) && Head(m[i], k) + size <= Size(m, i)
  }

  /** No free area has room. */
  ghost predicate NoFit(m: seq<int>, size: int, k: nat) { forall i: nat :: i + 1 < |m| ==> !FitsIn(m, i, size, k) }

  /** c is an aligned place for size bytes in free area j. */
  predicate Place(m: seq<int>, j: nat, c: int, size: int, k: nat) {
    j + 1 < |m| && !Used(m[j]) && Aligned(c, k) && m[j] <= c && c + size <= m[j] + Size(m, j)
  }

  /** The lowest place in the first free area that has one. */
  ghost predicate FirstPlace(m: seq<int>, c: int, size: int, k: nat) {
    exists j: nat ::
      && Place(m, j, c, size, k) && (forall d :: Place(m, j, d, size, k) ==> c <= d)
      && forall i: nat, d: int :: i < j ==> !Place(m, i, d, size, k)
  }

  ghost predicate NoPlace(m: seq<int>, size: int, k: nat) { forall j: nat, c: int :: !Place(m, j, c, size, k) }

  /** The padding asked for leads to the lowest place, if the area has any. */
  lemma {:induction false} FitsPlace(m: seq<int>, i: nat, size: int, k: nat)
    requires MapOk(m) && i + 1 < |m| && k >= 1
    ensures FitsIn(m, i, size, k) ==> Place(m, i, m[i] + Head(m[i], k), size, k)
    ensures forall c :: Place(m, i, c, size, k) ==> FitsIn(m, i, size, k) && m[i] + Head(m[i], k) <= c
  {
    FreeEntry(m, i);
    if !Used(m[i]) {
      HeadOk(m[i], k);
      forall c | Place(m, i, c, size, k) ensures FitsIn(m, i, size, k) && m[i] + Head(m[i], k) <= c {
        HeadLeast(m[i], k, c - m[i]);
      }
    }
  }

  lemma {:induction false} NoFitNoPlace(m: seq<int>, size: int, k: nat)
    requires MapOk(m) && k >= 1
    ensures NoFit(m, size, k) <==> NoPlace(m, size, k)
  {
    if NoFit(m, size, k) {
      forall j: nat, c: int ensures !Place(m, j, c, size, k) {
        if j + 1 < |m| { FitsPlace(m, j, size, k); }
      }
    } else {
      var i: nat :| i + 1 < |m| && FitsIn(m, i, size, k);
      FitsPlace(m, i, size, k);
    }
  }

  lemma {:induction false} FirstIsPlace(m: seq<int>, i: nat, firstFree: int, maxContig: int, seenFree: bool,
                            size: int, k: nat)
    requires MapOk(m) && i + 1 < |m| && k >= 1 && FitsIn(m, i, size, k)
      && Scanned(m, i, firstFree, maxContig, seenFree, size, k)
    ensures FirstPlace(m, m[i] + Head(m[i], k), size, k)
  {
    FitsPlace(m, i, size, k);
    forall j: nat, d: int | j < i ensures !Place(m, j, d, size, k) {
      FitsPlace(m, j, size, k);
    }
  }

  /** What the scan found can be carved. */
  lemma {:induction false} FoundFits(m: seq<int>, i: nat, head: int, firstFree: int, maxContig: int, seenFree: bool,
                            size: int, k: nat)
    requires MapOk(m) && i + 1 < |m| && k >= 1 && size > 0 && size % 2 == 0 && FitsIn(m, i, size, k)
      && head == Head(m[i], k)
    requires Scanned(m, i, firstFree, maxContig, seenFree, size, k)
    ensures CarveOk(m[i], Size(m, i), head, size) && (i == 0 ==> head == 0) && Aligned(m[i] + head, k)
    ensures forall j: nat :: j < i && !Used(m[j]) ==> Size(m, j) <= maxContig
    ensures NoFreeBelow(m, if seenFree then firstFree else i) && FirstPlace(m, m[i] + head, size, k)
  {
    FreeEntry(m, i);
    HeadOk(m[i], k);
    FirstIsPlace(m, i, firstFree, maxContig, seenFree, size, k);
  }

  lemma {:induction false} FitFound(m: seq<int>, i: nat, size: int, k: nat)
    requires i + 1 < |m| && FitsIn(m, i, size, k)
    ensures !NoFit(m, size, k)
  {
  }

  /** There is an area in use at off with at least size bytes, all of them free before and none after; at
      most 3 bytes more on either side went with it. It is new, and the areas in use before are all still there. */
  ghost predicate Allocated(m: seq<int>, m': seq<int>, off: int, size: int) {
    && (exists lo, hi :: TookBytes(m, m', lo, hi) && lo <= off < lo + 4 && off + size <= hi < off + size + 4)
    && !HasArea(m, off) && HasArea(m', off) && AreasMore(m, m', off)
  }

  lemma {:induction false} AreaParts(a: seq<int>, e: seq<int>, c: seq<int>, o: int)
    requires c != []
    ensures HasArea(a + e + c, o) <==> o + 1 in a || o + 1 in e || HasArea(c, o)
  {
    var m := a + e + c;
    if o + 1 in a { var j :| 0 <= j < |a| && a[j] == o + 1; assert m[j] == o + 1; }
    if o + 1 in e { var j :| 0 <= j < |e| && e[j] == o + 1; assert m[|a| + j] == o + 1; }
    if HasArea(c, o) { var j :| 0 <= j < |c| - 1 && c[j] == o + 1; assert m[|a| + |e| + j] == o + 1; }
    if HasArea(m, o) {
      var j :| 0 <= j < |m| - 1 && m[j] == o + 1;
      if j < |a| { assert a[j] == o + 1; } else if j < |a| + |e| { assert e[j - |a|] == o + 1; }
        else { assert c[j - |a| - |e|] == o + 1; }
    }
  }

  /** An area starts at one place. */
  lemma {:induction false} AreaOnce(m: seq<int>, i: nat, j: nat)
    requires MapOk(m) && i < |m| && j < |m| && m[i] == m[j]
    ensures i == j
  {
    if i < j { Ascends(m, i, j); } else if j < i { Ascends(m, j, i); }
  }

  lemma {:induction false} TakeAreas(m: seq<int>, m': seq<int>, i: nat, head: int, size: int, o: int)
    requires MapOk(m) && i + 1 < |m| && CarveOk(m[i], Size(m, i), head, size) && !Used(o)
    requires m' == m[..i] + Carve(m[i], Size(m, i), head, size) + m[i + 1..]
    ensures HasArea(m', o) <==> HasArea(m, o) || o == m[i] + head
  {
    var (a, off, c) := (m[..i], m[i], m[i + 1..]);
    assert m == a + [off] + c;
    AreaParts(a, [off], c, o);
    AreaParts(a, Carve(off, Size(m, i), head, size), c, o);
  }

  /** Nothing in use starts inside a free area. */
  lemma {:induction false} NotYet(m: seq<int>, i: nat, off: int)
    requires MapOk(m) && i + 1 < |m| && !Used(m[i]) && m[i] <= off < m[i] + Size(m, i) && !Used(off)
    ensures !HasArea(m, off)
  {
    if HasArea(m, off) {
      var j :| 0 <= j < |m| - 1 && m[j] == off + 1;
      if j < i { Ascends(m, j, i); } else if i + 1 < j { Ascends(m, i + 1, j); }
    }
  }

  lemma {:induction false} ReleaseAreas(m: seq<int>, m': seq<int>, i: nat, o: int)
    requires MapOk(m) && i + 1 < |m| && Used(m[i]) && m' == Release(m[..i], m[i] - 1, m[i + 1..]) && MapOk(m')
      && !Used(o)
    ensures HasArea(m', o) <==> HasArea(m, o) && o != m[i] - 1
  {
    var (p, off, c) := (m[..i], m[i] - 1, m[i + 1..]);
    assert m == p + [off + 1] + c;
    AreaParts(p, [off + 1], c, o);
    var e := if FreeEnd(p) then [] else [off];
    var c' := if !Used(c[0]) then c[1..] else c;
    assert m' == p + e + c';
    AreaParts(p, e, c', o);
    SkipFree(c, o);
    if o == off { ElsewhereNot(m, i); }
  }

  lemma {:induction false} SkipFree(c: seq<int>, o: int)
    requires c != [] && !Used(o) && (!Used(c[0]) ==> |c| >= 2)
    ensures HasArea(if !Used(c[0]) then c[1..] else c, o) <==> HasArea(c, o)
  {
    if !Used(c[0]) {
      assert c == [] + [c[0]] + c[1..];
      AreaParts([], [c[0]], c[1..], o);
    }
  }

  lemma {:induction false} ElsewhereNot(m: seq<int>, i: nat)
    requires MapOk(m) && i + 1 < |m|
    ensures m[i] !in m[..i] && !HasArea(m[i + 1..], m[i] - 1)
  {
    if m[i] in m[..i] { var j :| 0 <= j < i && m[..i][j] == m[i]; AreaOnce(m, i, j); }
    if HasArea(m[i + 1..], m[i] - 1) {
      var j :| 0 <= j < |m[i + 1..]| - 1 && m[i + 1..][j] == m[i];
      AreaOnce(m, i, i + 1 + j);
    }
  }

  /** An area in use starts at off. */
  ghost predicate HasArea(m: seq<int>, off: int) { exists j :: 0 <= j < |m| - 1 && m[j] == off + 1 }

  ghost predicate TookBytes(m: seq<int>, m': seq<int>, lo: int, hi: int) {
    forall b :: (FreeByte(m', b) <==> FreeByte(m, b) && !(lo <= b < hi)) && (lo <= b < hi ==> FreeByte(m, b))
  }

  /** What the scan knows about the areas before i. */
  ghost predicate Scanned(m: seq<int>, i: nat, firstFree: int, maxContig: int, seenFree: bool, size: int, k: nat) {
    && (forall j: nat :: j < i && j + 1 < |m| && !Used(m[j]) ==> Size(m, j) <= maxContig && !FitsIn(m, j, size, k))
    && NoFreeBelow(m, if seenFree then firstFree else i)
  }

  /** Area i is in use, or free without room. */
  lemma {:induction false} ScanNext(m: seq<int>, i: nat, firstFree: int, maxContig: int, seenFree: bool, size: int,
                            k: nat)
    requires i + 1 < |m| && Scanned(m, i, firstFree, maxContig, seenFree, size, k) && !FitsIn(m, i, size, k)
    ensures Used(m[i]) ==> Scanned(m, i + 1, firstFree, maxContig, seenFree, size, k)
    ensures !Used(m[i]) ==>
      Scanned(m, i + 1, if seenFree then firstFree else i, MaxOf(Size(m, i), maxContig), true, size, k)
  {
  }

  lemma {:induction false} FreeEntry(m: seq<int>, i: nat)
    requires MapOk(m) && i + 1 < |m|
    ensures m[i] >= 0 && Size(m, i) > 0 && Size(m, i) % 2 == 0 && (i == 0 ==> Off(m[i]) == 0)
  {
    Ascends(m, 0, i);
    Ascends(m, i, i + 1);
  }

  lemma {:induction false} ScannedAll(m: seq<int>, i: nat, firstFree: int, maxContig: int, seenFree: bool, size: int,
                            k: nat)
    requires MapOk(m) && i + 1 >= |m| && Scanned(m, i, firstFree, maxContig, seenFree, size, k)
    ensures FreeAtMost(m, maxContig) && NoFit(m, size, k)
  {
    forall x, y | Pair(m, x, y) && !Used(x) ensures Off(y) - x <= maxContig {
      var j: nat :| j < |m| - 1 && m[j] == x && m[j + 1] == y;
      assert Size(m, j) <= maxContig;
    }
  }

  /** A map cut at a free area. */
  lemma {:induction false} CutAt(m: seq<int>, i: nat)
    requires MapOk(m) && i + 1 < |m| && !Used(m[i])
    ensures m == m[..i] + [m[i]] + m[i + 1..] && Around(m[..i], m[i], m[i + 1..])
      && Size(m, i) == Off(m[i + 1..][0]) - m[i]
  {
    assert m == m[..i] + [m[i]] + m[i + 1..];
    Split(m[..i], m[i], m[i + 1..]);
  }

  lemma {:induction false} PartsAtMost(m: seq<int>, i: nat, hint: int, maxContig: int, most: int)
    requires i + 1 < |m| && FreeAtMost(m, hint) && (forall j: nat :: j < i && !Used(m[j]) ==> Size(m, j) <= maxContig)
    requires most >= maxContig && (most >= hint || i + 2 == |m|)
    ensures forall x, y :: (Pair(m[..i], x, y) || Pair(m[i + 1..], x, y)) && !Used(x) ==> Off(y) - x <= most
  {
    var (a, c) := (m[..i], m[i + 1..]);
    forall x, y | (Pair(a, x, y) || Pair(c, x, y)) && !Used(x) ensures Off(y) - x <= most {
      if Pair(a, x, y) {
        var j: nat :| j < |a| - 1 && a[j] == x && a[j + 1] == y;
        assert Size(m, j) <= maxContig;
      } else {
        var j: nat :| j < |c| - 1 && c[j] == x && c[j + 1] == y;
        PairAt(m, i + 1 + j);
      }
    }
  }

  lemma {:induction false} TakeHint(m: seq<int>, i: nat, head: int, size: int, hint: int, maxContig: int)
    requires MapOk(m) && i + 1 < |m| && CarveOk(m[i], Size(m, i), head, size)
    requires FreeAtMost(m, hint) && (forall j: nat :: j < i && !Used(m[j]) ==> Size(m, j) <= maxContig)
    ensures FreeAtMost(m[..i] + Carve(m[i], Size(m, i), head, size) + m[i + 1..],
      Hint(hint, maxContig, Size(m, i), head, size, i + 2 == |m|))
  {
    var most := Hint(hint, maxContig, Size(m, i), head, size, i + 2 == |m|);
    CutAt(m, i);
    PartsAtMost(m, i, hint, maxContig, most);
    AllocAtMost(m[..i], m[i], m[i + 1..], Size(m, i), head, size, most);
  }

  lemma {:induction false} TakeBytes(m: seq<int>, i: nat, head: int, size: int)
    requires MapOk(m) && i + 1 < |m| && CarveOk(m[i], Size(m, i), head, size)
    ensures Allocated(m, m[..i] + Carve(m[i], Size(m, i), head, size) + m[i + 1..], m[i] + head, size)
  {
    var (a, off, c, thisSize) := (m[..i], m[i], m[i + 1..], Size(m, i));
    CutAt(m, i);
    var m' := a + Carve(off, thisSize, head, size) + c;
    var (lo, hi) := (if head < 4 then off else off + head, off + thisSize - Tail(thisSize - head, size));
    forall b ensures (FreeByte(m', b) <==> FreeByte(m, b) && !(lo <= b < hi)) && (lo <= b < hi ==> FreeByte(m, b)) {
      AllocBytes(a, off, c, thisSize, head, size, b);
      PairAt(m, i);
    }
    assert TookBytes(m, m', lo, hi);
    forall o | !Used(o) ensures HasArea(m', o) <==>
      HasArea(m, o) || o == off + head { TakeAreas(m, m', i, head, size, o); }
    NotYet(m, i, off + head);
  }

  lemma {:induction false} TakeOk(m: seq<int>, i: nat, head: int, size: int, seenFree: bool, firstFree: int)
    requires MapOk(m) && i + 1 < |m| && CarveOk(m[i], Size(m, i), head, size) && (i == 0 ==> head == 0)
    requires 0 <= firstFree <= i && NoFreeBelow(m, if seenFree then firstFree else i)
    ensures var m' := m[..i] + Carve(m[i], Size(m, i), head, size) + m[i + 1..];
      && MapOk(m') && FreeSum(m') == FreeSum(m) - Taken(Size(m, i), head, size)
      && NoFreeBelow(m', if seenFree then firstFree else if head >= 4 then i else i + 1)
  {
    var (a, off, c) := (m[..i], m[i], m[i + 1..]);
    CutAt(m, i);
    AllocMapOk(a, off, c, Size(m, i), head, size);
    AllocSum(a, off, c, Size(m, i), head, size);
    StillNoFree(m, i, Carve(off, Size(m, i), head, size), if seenFree then firstFree else i);
  }

  lemma {:induction false} StillNoFree(m: seq<int>, i: nat, e: seq<int>, f: int)
    requires i + 1 < |m| && 0 <= f <= i && NoFreeBelow(m, f) && e != []
    ensures var m' := m[..i] + e + m[i + 1..]; NoFreeBelow(m', f) && (f == i && Used(e[0]) ==> NoFreeBelow(m', i + 1))
  {
  }

  /** The free bytes an allocation takes. */
  function Taken(thisSize: int, head: int, size: int): int {
    (if head < 4 then head else 0) + thisSize - head - Tail(thisSize - head, size)
  }

  /** The new contig_hint: exact when nothing is left to scan. */
  function Hint(hint: int, maxContig: int, thisSize: int, head: int, size: int, last: bool): int {
    var tail := Tail(thisSize - head, size);
    var seen := MaxOf(tail, if head >= 4 then MaxOf(head, maxContig) else maxContig);
    if last && tail == 0 then seen else MaxOf(hint, seen)
  }

  lemma {:induction false} Marked(a: seq<int>, off: int, head: int, at: int, end: int, tail: int, c: seq<int>)
    ensures var i := |a| + (if head != 0 then 1 else 0); var w := a + Blocks(off, head, at, end, tail) + c;
      i < |w| && w[i] == at && w[i := at + 1] == a + Blocks(off, head, at + 1, end, tail) + c
  {
  }

  lemma {:induction false} Spliced(w: seq<int>, m: seq<int>, i: nat, e: seq<int>, n: nat)
    requires i < |m| && |w| == |m| + n && |e| == n + 1 && n <= 2 && (forall j :: 0 <= j < i ==> w[j] == m[j])
    requires e[0] == w[i] && (n > 0 ==> e[1] == w[i + 1]) && (n > 1 ==> e[2] == w[i + 2])
      && (forall j :: i + n < j < |w| ==> w[j] == m[j - n])
    ensures w == m[..i] + e + m[i + 1..]
  {
    assert w[..i] == m[..i] && w[i..i + |e|] == e && w[i + |e|..] == m[i + 1..];
    assert w == w[..i] + w[i..i + |e|] + w[i + |e|..];
  }

  function Blocks(off: int, head: int, at: int, end: int, tail: int): seq<int> {
    (if head != 0 then [off] else []) + [at] + (if tail != 0 then [end] else [])
  }

  /** Freeing one allocation leaves another in place, and it can be freed in turn: what was in use before both is in use
      again, and nothing else. */
  method FreeInTurn(chunk: Chunk, size: int, k: nat, size': int, k': nat) returns (ok: bool)
    requires chunk.Valid() && chunk.map_.Length >= chunk.mapUsed + 5
    requires size > 0 && size % 2 == 0 && k >= 1 && size' > 0 && size' % 2 == 0 && k' >= 1
    modifies chunk, chunk.map_
    ensures chunk.Valid() && SameAreas(old(chunk.Map()), chunk.Map()) && (ok <==> !NoPlace(old(chunk.Map()), size, k))
  {
    ghost var m0 := chunk.Map();
    var x := chunk.AllocArea(size, k);
    ok := x != -1;
    if ok {
      ghost var m1 := chunk.Map();
      EvenOffset(x, k);
      var y := AllocThenFree(chunk, x, size', k');
      ghost var m2 := chunk.Map();
      if y != -1 {
        EvenOffset(y, k');
        chunk.FreeArea(y);
      }
      AreasBack(m0, m1, m2, chunk.Map(), x, y);
    }
  }

  /** A second allocation, and the first one freed. */
  method AllocThenFree(chunk: Chunk, x: int, size: int, k: nat) returns (y: int)
    requires chunk.Valid() && chunk.map_.Length >= chunk.mapUsed + 3 && size > 0 && size % 2 == 0 && k >= 1
    requires !Used(x) && HasArea(chunk.Map(), x)
    modifies chunk, chunk.map_
    ensures chunk.Valid() && chunk.map_ == old(chunk.map_) && Swapped(old(chunk.Map()), chunk.Map(), x, y)
    ensures y != -1 ==> Aligned(y, k) && HasArea(chunk.Map(), y)
  {
    y := chunk.AllocArea(size, k);
    if y != -1 { EvenOffset(y, k); }
    chunk.FreeArea(x);
  }

  ghost predicate SameAreas(m: seq<int>, m': seq<int>) { forall o :: !Used(o) ==> (HasArea(m', o) <==> HasArea(m, o)) }

  /** Area y came, if it is one, and area x went. */
  ghost predicate Swapped(m: seq<int>, m': seq<int>, x: int, y: int) {
    && (y != -1 ==> y != x && !HasArea(m, y))
    && forall o :: !Used(o) ==> (HasArea(m', o) <==> (HasArea(m, o) || (y != -1 && o == y)) && o != x)
  }

  lemma {:induction false} AreasBack(m0: seq<int>, m1: seq<int>, m2: seq<int>, m3: seq<int>, x: int, y: int)
    requires !HasArea(m0, x) && AreasMore(m0, m1, x) && Swapped(m1, m2, x, y) && !Used(x) && (y != -1 ==> !Used(y))
    requires if y == -1 then m3 == m2 else AreasLess(m2, m3, y)
    ensures SameAreas(m0, m3)
  {
  }

  lemma {:induction false} EvenOffset(x: int, k: nat)
    requires Aligned(x, k) && k >= 1
    ensures !Used(x)
  {
  }
}
