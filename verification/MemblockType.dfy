/** struct memblock_type as memblock_add_range() and memblock_remove_range() update it in place. */
module MemblockType {
  import opened Basics
  import opened Memblock

  /** The single dummy entry of an empty array. */
  predicate Dummy(rs: seq<Region>) { |rs| == 1 && rs[0].size == 0 && rs[0].base == 0 }

  function Live(rs: seq<Region>): (r: seq<Region>) { if Dummy(rs) then [] else rs }

  lemma {:induction false} LiveLookup(rs: seq<Region>, x: Addr)
    ensures Lookup(Live(rs), x) == Lookup(rs, x)
  {
  }

  lemma {:induction false} InsertNothing(rs: seq<Region>, base: Addr, end: Addr, a: Attr)
    requires CountNew(rs, base, end) == 0
    ensures Insert(rs, base, end, a) == rs
  {
    if rs == [] || rs[0].base >= end {
    } else {
      assert rs == [rs[0]] + rs[1..];
      InsertNothing(rs[1..], if End(rs[0]) <= base then base else Min(End(rs[0]), end), end, a);
    }
  }

  lemma {:induction false} MergeNothing(rs: seq<Region>)
    requires Apart(rs)
    ensures Merge(rs) == rs
  {
    if |rs| >= 2 {
      MergeNothing(rs[1..]);
    }
  }

  /** memblock_add_range() on a non-empty array. */
  function AddTo(rs: seq<Region>, base: Addr, end: Addr, a: Attr): (r: seq<Region>) { Merge(Insert(rs, base, end, a)) }

  lemma {:induction false} AddOk(rs: seq<Region>, base: Addr, end: Addr, a: Attr)
    requires Minimal(rs) && base < end <= ULLONG_MAX
    ensures var r := AddTo(rs, base, end, a); Minimal(r) && r != [] && Total(r) == Total(Insert(rs, base, end, a))
    ensures forall x: Addr :: Lookup(AddTo(rs, base, end, a), x) == Added(Lookup(rs, x), base, end, a, x)
    ensures CountNew(rs, base, end) == 0 ==> AddTo(rs, base, end, a) == rs
  {
    InsertOk(rs, base, end, a, 0);
    MergeOk(Insert(rs, base, end, a), 0);
    if CountNew(rs, base, end) == 0 {
      InsertNothing(rs, base, end, a);
      MergeNothing(rs);
    }
    assert Lookup(AddTo(rs, base, end, a), base).Some?;
  }

  /** Removing a range just added over free addresses restores the array, whatever was split and merged. */
  lemma {:induction false} AddThenRemove(rs: seq<Region>, base: Addr, end: Addr, a: Attr)
    requires Minimal(rs) && base < end <= ULLONG_MAX && (forall x: Addr :: base <= x < end ==> Lookup(rs, x) == None)
    ensures Cut(AddTo(rs, base, end, a), base, end) == rs
  {
    var r := AddTo(rs, base, end, a);
    AddOk(rs, base, end, a);
    CutOk(r, base, end);
    forall x: Addr ensures Lookup(Cut(r, base, end), x) == Lookup(rs, x) {
      assert Lookup(r, x) == Added(Lookup(rs, x), base, end, a, x);
    }
    Canonical(Cut(r, base, end), rs, 0);
  }

  /** memmove(&buf[from + 1], &buf[from], n) */
  method MoveUp(buf: array<Region>, from: nat, n: nat)
    requires from + n < buf.Length
    modifies buf
    ensures forall j :: 0 <= j < buf.Length ==> buf[j] == if from < j <= from + n then old(buf[j - 1]) else old(buf[j])
  {
    var k := from + n;
    while k > from
      invariant from <= k <= from + n
      invariant forall j :: 0 <= j < buf.Length ==> buf[j] == if k < j <= from + n then old(buf[j - 1]) else old(buf[j])
    {
      buf[k] := buf[k - 1];
      k := k - 1;
    }
  }

  /** memmove(&buf[to], &buf[to + 1], n) */
  method MoveDown(buf: array<Region>, to: nat, n: nat)
    requires to + n < buf.Length
    modifies buf
    ensures forall j :: 0 <= j < buf.Length ==> buf[j] == if to <= j < to + n then old(buf[j + 1]) else old(buf[j])
  {
    var k := to;
    while k < to + n
      invariant to <= k <= to + n
      invariant forall j :: 0 <= j < buf.Length ==> buf[j] == if to <= j < k then old(buf[j + 1]) else old(buf[j])
    {
      buf[k] := buf[k + 1];
      k := k + 1;
    }
  }

  lemma {:induction false} MergeSkip(rs: seq<Region>, i: nat, goal: seq<Region>)
    requires i + 1 < |rs| && !Mergeable(rs[i], rs[i + 1]) && rs[..i] + Merge(rs[i..]) == goal
    ensures rs[..i + 1] + Merge(rs[i + 1..]) == goal
  {
    assert rs[i..][1..] == rs[i + 1..] && rs[..i] + [rs[i]] == rs[..i + 1];
    Regroup(rs[..i], [rs[i]], Merge(rs[i + 1..]));
  }

  lemma {:induction false} MergeJoin(rs: seq<Region>, i: nat, goal: seq<Region>)
    requires i + 1 < |rs| && Mergeable(rs[i], rs[i + 1]) && rs[..i] + Merge(rs[i..]) == goal
    ensures var rs' := rs[..i] + [Joined(rs[i], rs[i + 1])] + rs[i + 2..]; rs'[..i] + Merge(rs'[i..]) == goal
  {
    var rs' := rs[..i] + [Joined(rs[i], rs[i + 1])] + rs[i + 2..];
    assert rs'[..i] == rs[..i] && rs'[i..] == [Joined(rs[i], rs[i + 1])] + rs[i + 2..];
    assert rs[i..][2..] == rs[i + 2..];
  }

  class RegionArray {
    const buf: array<Region>
    var cnt: nat
    var totalSize: int
    const max: nat
    /** The regions in use. */
    ghost var regions: seq<Region>

    ghost predicate Held()
      reads this, buf
    {
      cnt <= buf.Length == max && buf[..cnt] == regions
    }

    ghost predicate Valid()
      reads this, buf
    {
      && Held() && 1 <= cnt && totalSize == Total(regions)
      && (Dummy(regions) || Minimal(regions))
    }

    constructor (capacity: nat)
      requires capacity >= 1
      ensures Valid() && max == capacity && Live(regions) == [] && fresh(buf)
    {
      buf := new Region[capacity](_ => Region(0, 0, Attr(MAX_NUMNODES, 0)));
      cnt, totalSize, max := 1, 0, capacity;
      regions := [Region(0, 0, Attr(MAX_NUMNODES, 0))];
    }

    /** Overwrites the region at idx. */
    method Store(idx: nat, r: Region)
      requires Held() && idx < cnt
      modifies this`regions, buf
      ensures Held() && regions == old(regions)[idx := r]
    {
      buf[idx] := r;
      regions := regions[idx := r];
      assert forall j :: 0 <= j < cnt ==> buf[j] == regions[j];
    }

    /** memblock_insert_region(): the regions from idx on move up by one. */
    method InsertRegion(idx: nat, base: Addr, size: nat, a: Attr)
      requires Held() && idx <= cnt < max
      modifies this, buf
      ensures Held() && regions == old(regions[..idx] + [Region(base, size, a)] + regions[idx..])
      ensures totalSize == old(totalSize) + size
    {
      assert forall j :: 0 <= j < cnt ==> buf[j] == regions[j];
      MoveUp(buf, idx, cnt - idx);
      buf[idx] := Region(base, size, a);
      cnt := cnt + 1;
      totalSize := totalSize + size;
      regions := regions[..idx] + [Region(base, size, a)] + regions[idx..];
      assert forall j :: 0 <= j < cnt ==> buf[j] == regions[j];
    }

    /** The region at r dropped: those above move down by one. */
    method Drop(r: nat)
      requires Held() && r < cnt
      modifies this`cnt, this`regions, buf
      ensures Held() && regions == old(regions[..r] + regions[r + 1..])
    {
      assert forall j :: 0 <= j < cnt ==> buf[j] == regions[j];
      MoveDown(buf, r, cnt - (r + 1));
      cnt := cnt - 1;
      regions := regions[..r] + regions[r + 1..];
      assert forall j :: 0 <= j < cnt ==> buf[j] == regions[j];
    }

    /** Merging the region at i with the next. */
    method JoinNext(i: nat)
      requires Held() && i + 1 < cnt
      modifies this`cnt, this`regions, buf
      ensures Held() && regions == old(regions[..i]) + [Joined(old(regions)[i], old(regions)[i + 1])] +
        old(regions[i + 2..])
    {
      ghost var rs := regions;
      assert buf[i] == buf[..cnt][i] && buf[i + 1] == buf[..cnt][i + 1];
      Store(i, Joined(buf[i], buf[i + 1]));
      Drop(i + 1);
      assert rs[i := Joined(rs[i], rs[i + 1])][..i + 1] == rs[..i] + [Joined(rs[i], rs[i + 1])];
    }

    /** memblock_merge_regions() */
    method MergeRegions()
      requires Held() && cnt > 0
      modifies this`cnt, this`regions, buf
      ensures Held() && regions == Merge(old(regions))
    {
      var i := 0;
      ghost var goal := Merge(regions);
      while i < cnt - 1
        invariant 0 <= i < cnt && Held()
        invariant regions[..i] + Merge(regions[i..]) == goal
        decreases cnt - i
      {
        assert buf[i] == buf[..cnt][i] && buf[i + 1] == buf[..cnt][i + 1];
        if !Mergeable(buf[i], buf[i + 1]) {
          MergeSkip(regions, i, goal);
          i := i + 1;
        } else {
          MergeJoin(regions, i, goal);
          JoinNext(i);
        }
      }
      assert regions[i..] == [regions[i]];
      assert regions == regions[..i] + [regions[i]];
    }

    /** The first pass of memblock_add_range(). */
    method CountPass(base0: Addr, end: Addr) returns (n: nat)
      requires Held()
      ensures n == CountNew(regions, base0, end)
    {
      var base: Addr, idx := base0, 0;
      n := 0;
      while idx < cnt
        invariant 0 <= idx <= |regions|
        invariant n + CountNew(regions[idx..], base, end) == CountNew(regions, base0, end)
      {
        assert buf[idx] == buf[..cnt][idx];
        var r := buf[idx];
        assert regions[idx..][1..] == regions[idx + 1..];
        if r.base >= end {
          break;
        }
        if End(r) > base {
          if r.base > base {
            n := n + 1;
          }
          base := Min(End(r), end);
        }
        idx := idx + 1;
      }
      if base < end {
        n := n + 1;
      }
    }

    /** Insert [base, end) before idx, if it is not empty. */
    method InsertGap(idx: nat, base: Addr, end: Addr, a: Attr) returns (idx': nat)
      requires Held() && idx <= cnt && (base < end ==> cnt < max) && totalSize == Total(regions)
      modifies this, buf
      ensures regions == old(regions[..idx]) + New(base, end, a) + old(regions[idx..])
        && idx' == |old(regions[..idx]) + New(base, end, a)|
      ensures Held() && totalSize == Total(regions)
    {
      ghost var done, todo := regions[..idx], regions[idx..];
      assert regions == done + todo;
      if base < end {
        TotalInsert(regions, idx, Span(base, end, a));
        InsertRegion(idx, base, end - base, a);
        idx' := idx + 1;
      } else {
        assert New(base, end, a) == [] && done + [] == done;
        idx' := idx;
      }
    }

    /** One turn of the second pass: what region idx leaves uncovered below it goes before it. */
    method InsertBefore(idx0: nat, base0: Addr, end: Addr, a: Attr, ghost goal: seq<Region>)
      returns (idx: nat, base: Addr)
      requires Held() && idx0 < cnt && totalSize == Total(regions) && regions[idx0].base < end
      requires regions[..idx0] + Insert(regions[idx0..], base0, end, a) == goal
      requires cnt + CountNew(regions[idx0..], base0, end) <= max
      modifies this, buf
      ensures Held() && idx <= cnt && cnt - idx < old(cnt) - idx0 && totalSize == Total(regions)
      ensures regions[..idx] + Insert(regions[idx..], base, end, a) == goal
      ensures cnt + CountNew(regions[idx..], base, end) <= max
    {
      idx, base := idx0, base0;
      assert buf[idx] == buf[..cnt][idx];
      var r := buf[idx];
      ghost var done, todo := regions[..idx], regions[idx..];
      assert todo[1..] == regions[idx + 1..];
      if End(r) > base {
        idx := InsertGap(idx, base, r.base, a);
        TakeStep(done, todo, base, end, a);
        Advance(regions, done + New(base, r.base, a), todo);
        base := Min(End(r), end);
      } else {
        SkipStep(done, todo, base, end, a);
        Advance(regions, done, todo);
      }
      idx := idx + 1;
    }

    /** The second pass of memblock_add_range(). */
    method InsertPass(base0: Addr, end: Addr, a: Attr)
      requires Held() && cnt + CountNew(regions, base0, end) <= max && totalSize == Total(regions)
      modifies this, buf
      ensures Held() && regions == Insert(old(regions), base0, end, a) && totalSize == Total(regions)
    {
      var base: Addr, idx := base0, 0;
      ghost var rs, goal := regions, Insert(regions, base0, end, a);
      while idx < cnt
        invariant 0 <= idx <= cnt && Held() && totalSize == Total(regions)
        invariant regions[..idx] + Insert(regions[idx..], base, end, a) == goal
        invariant cnt + CountNew(regions[idx..], base, end) <= max
        decreases cnt - idx
      {
        assert buf[idx] == buf[..cnt][idx];
        if buf[idx].base >= end {
          break;
        }
        idx, base := InsertBefore(idx, base, end, a, goal);
      }
      LastGap(regions[..idx], regions[idx..], base, end, a);
      idx := InsertGap(idx, base, end, a);
    }

    /** memblock_add_range(); false when the array is full. */
    method AddRange(base: Addr, size0: nat, a: Attr) returns (ok: bool)
      requires Valid() && base <= ULLONG_MAX
      modifies this, buf
      ensures Valid() && (!ok ==> regions == old(regions))
      ensures var end := base + Min(size0, ULLONG_MAX - base);
        && (ok <==> |Live(old(regions))| + (if base < end then CountNew(Live(old(regions)), base, end) else 0) <= max)
        && (ok ==> forall x: Addr :: Lookup(regions, x) == Added(Lookup(old(regions), x), base, end, a, x))
    {
      var size := Min(size0, ULLONG_MAX - base);
      var end := base + size;
      if size == 0 {
        return true;
      }
      assert buf[0] == buf[..cnt][0];
      if buf[0].size == 0 {
        Store(0, Region(base, size, a));
        totalSize := size;
        OneRegion(Region(base, size, a));
        return true;
      }
      AddOk(regions, base, end, a);
      var n := CountPass(base, end);
      if n == 0 {
        return true;
      }
      if cnt + n > max {
        return false;
      }
      InsertOk(regions, base, end, a, 0);
      MergeShorter(Insert(regions, base, end, a));
      InsertPass(base, end, a);
      MergeRegions();
      return true;
    }

    /** The loop of memblock_isolate_range(). */
    method IsolateLoop(base: Addr, end: Addr) returns (first: nat, last: nat)
      requires Held() && Sorted(regions, 0) && totalSize == Total(regions) && base < end && cnt + 2 <= max
      modifies this, buf
      ensures Held() && regions == Isolate(old(regions), base, end) && totalSize == Total(regions)
      ensures Found(old(regions), base, end, first, last)
    {
      var idx := 0;
      first, last := 0, 0;
      ghost var rs := regions;
      IsolateSize(rs, base, end, 0);
      IsolateStart(rs, base, end);
      while idx < cnt
        invariant 0 <= idx <= cnt && Held() && totalSize == Total(regions)
        invariant Isolating(regions[..idx], regions[idx..], base, end, rs, first, last)
        decreases Weight(regions[idx..], base, end)
      {
        assert buf[idx] == buf[..cnt][idx];
        if buf[idx].base >= end {
          break;
        }
        idx, first, last := IsolateOne(idx, base, end, first, last, rs);
      }
      SplitAt(regions, idx);
      IsolateEnd(regions[..idx], regions[idx..], base, end, rs, first, last);
    }

    /** memblock_isolate_range(): the regions inside the range are [first, last). */
    method IsolateRange(base: Addr, end: Addr) returns (ok: bool, first: nat, last: nat)
      requires Valid() && base < end
      modifies this, buf
      ensures Held() && (ok <==> old(cnt) + 2 <= max)
      ensures !ok ==> regions == old(regions)
      ensures ok ==> regions == (if Dummy(old(regions)) then old(regions) else Isolate(old(regions), base, end))
      ensures totalSize == Total(regions)
      ensures ok ==> Found(Live(old(regions)), base, end, first, last)
    {
      first, last, ok := 0, 0, true;
      if cnt + 2 > max {
        return false, 0, 0;
      }
      assert buf[0] == buf[..cnt][0];
      if buf[0].size == 0 {
        // the dummy entry ends at 0, below any range
        return;
      }
      first, last := IsolateLoop(base, end);
    }

    /** memblock_remove_region() */
    method RemoveRegion(r: nat)
      requires Held() && r < cnt && totalSize == Total(regions)
      modifies this, buf
      ensures var rest := old(regions[..r] + regions[r + 1..]);
        if rest == [] then Dummy(regions) else regions == rest
      ensures Held() && totalSize == Total(regions)
    {
      ghost var rest := regions[..r] + regions[r + 1..];
      TotalInsert(rest, r, regions[r]);
      assert regions == rest[..r] + [regions[r]] + rest[r..];
      assert buf[r] == buf[..cnt][r];
      totalSize := totalSize - buf[r].size;
      Drop(r);
      if cnt == 0 {
        cnt := 1;
        buf[0] := Region(0, 0, Attr(MAX_NUMNODES, 0));
        regions := [Region(0, 0, Attr(MAX_NUMNODES, 0))];
      }
    }

    /** The loop of memblock_remove_range(): drop the regions [first, last). */
    method RemoveRegions(first: nat, last: nat)
      requires Held() && first <= last <= cnt && totalSize == Total(regions)
      modifies this, buf
      ensures var rest := old(regions[..first] + regions[last..]);
        if first < last && rest == [] then Dummy(regions) else regions == rest
      ensures Held() && totalSize == Total(regions)
    {
      var i := last;
      ghost var rs := regions;
      assert rs == rs[..last] + rs[last..];
      while i > first
        invariant first <= i <= last && Held() && totalSize == Total(regions)
        invariant if i == 0 < last && last == |rs| then Dummy(regions) else regions == rs[..i] + rs[last..]
      {
        i := i - 1;
        assert (rs[..i + 1] + rs[last..])[..i] + (rs[..i + 1] + rs[last..])[i + 1..] == rs[..i] + rs[last..];
        RemoveRegion(i);
      }
    }

    /** memblock_remove_range(); false when the array has no room to split. */
    method RemoveRange(base: Addr, size0: nat) returns (ok: bool)
      requires Valid() && base <= ULLONG_MAX
      modifies this, buf
      ensures Valid() && (!ok ==> regions == old(regions))
      ensures ok <==> size0 == 0 || base == ULLONG_MAX || old(cnt) + 2 <= max
      ensures ok ==> forall x: Addr :: Lookup(regions, x) == if base <= x < base + Min(size0, ULLONG_MAX - base) then
        None else Lookup(old(regions), x)
    {
      var size := Min(size0, ULLONG_MAX - base);
      if size == 0 {
        return true;
      }
      var end := base + size;
      var first, last;
      ghost var rs := regions;
      ok, first, last := IsolateRange(base, end);
      if !ok {
        return;
      }
      RemoveOk(rs, regions, base, end, first, last);
      RemoveRegions(first, last);
    }

    /** One turn of the loop of memblock_isolate_range(). */
    method IsolateOne(idx0: nat, base: Addr, end: Addr, first0: nat, last0: nat, ghost rs: seq<Region>)
      returns (idx: nat, first: nat, last: nat)
      requires Held() && idx0 < cnt && base < end && regions[idx0].base < end && totalSize == Total(regions)
      requires Isolating(regions[..idx0], regions[idx0..], base, end, rs, first0, last0)
        && |Isolate(rs, base, end)| <= max
      modifies this, buf
      ensures Held() && idx <= cnt && totalSize == Total(regions)
      ensures Isolating(regions[..idx], regions[idx..], base, end, rs, first, last)
      ensures Weight(regions[idx..], base, end) < Weight(old(regions[idx0..]), base, end)
    {
      idx, first, last := idx0, first0, last0;
      assert buf[idx] == buf[..cnt][idx];
      var r := buf[idx];
      ghost var done, todo := regions[..idx], regions[idx..];
      if End(r) <= base {
        IsolateSkip(done, todo, base, end, rs, first, last);
        Advance(regions, done, todo);
        idx := idx + 1;
      } else if r.base < base {
        SplitLow(idx, base, end, first, last, rs);
        idx := idx + 1;
      } else if End(r) > end {
        SplitHigh(idx, base, end, first, last, rs);
      } else {
        IsolateTake(done, todo, base, end, rs, first, last);
        Advance(regions, done, todo);
        if last == 0 {
          first := idx;
        }
        last := idx + 1;
        idx := idx + 1;
      }
    }

    /** A region that reaches into the range from below: its lower half is done with. */
    method SplitLow(idx: nat, base: Addr, end: Addr, ghost first: nat, ghost last: nat, ghost rs: seq<Region>)
      requires Held() && idx < cnt && base < end && regions[idx].base < base < End(regions[idx])
        && totalSize == Total(regions)
      requires Isolating(regions[..idx], regions[idx..], base, end, rs, first, last) && |Isolate(rs, base, end)| <= max
      modifies this, buf
      ensures Held() && idx < cnt && totalSize == Total(regions)
      ensures Isolating(regions[..idx + 1], regions[idx + 1..], base, end, rs, first, last)
      ensures Weight(regions[idx + 1..], base, end) < Weight(old(regions[idx..]), base, end)
    {
      ghost var r, done, todo := regions[idx], regions[..idx], regions[idx..];
      IsolateLow(done, todo, base, end, rs, first, last);
      SplitRegion(idx, base);
      Halves(regions, done, Span(r.base, base, r.attr), Span(base, End(r), r.attr), todo[1..]);
    }

    /** A region inside the range that reaches above it: its lower half is looked at again. */
    method SplitHigh(idx: nat, base: Addr, end: Addr, ghost first: nat, ghost last: nat, ghost rs: seq<Region>)
      requires Held() && idx < cnt && base <= regions[idx].base < end < End(regions[idx]) && totalSize == Total(regions)
      requires Isolating(regions[..idx], regions[idx..], base, end, rs, first, last) && |Isolate(rs, base, end)| <= max
      modifies this, buf
      ensures Held() && idx < cnt && totalSize == Total(regions)
      ensures Isolating(regions[..idx], regions[idx..], base, end, rs, first, last)
      ensures Weight(regions[idx..], base, end) < Weight(old(regions[idx..]), base, end)
    {
      ghost var r, done, todo := regions[idx], regions[..idx], regions[idx..];
      IsolateHigh(done, todo, base, end, rs, first, last);
      SplitRegion(idx, end);
      Halves(regions, done, Span(r.base, end, r.attr), Span(end, End(r), r.attr), todo[1..]);
    }

    /** Cut the region at idx in two. */
    method SplitRegion(idx: nat, at: Addr)
      requires Held() && idx < cnt < max && regions[idx].base < at < End(regions[idx]) && totalSize == Total(regions)
      modifies this, buf
      ensures var r := old(regions)[idx];
        regions == old(regions[..idx]) + [Span(r.base, at, r.attr), Span(at, End(r), r.attr)] + old(regions[idx + 1..])
      ensures Held() && totalSize == Total(regions)
    {
      assert buf[idx] == buf[..cnt][idx];
      var r := buf[idx];
      ghost var done, rest := regions[..idx], regions[idx + 1..];
      assert regions == done + [r] + rest;
      Store(idx, Span(at, End(r), r.attr));
      totalSize := totalSize - (at - r.base);
      assert regions[..idx] == done && regions[idx..] == [Span(at, End(r), r.attr)] + rest;
      InsertRegion(idx, r.base, at - r.base, r.attr);
      assert regions == done + [Span(r.base, at, r.attr), Span(at, End(r), r.attr)] + rest;
      TotalSplit(done, r, Span(r.base, at, r.attr), Span(at, End(r), r.attr), rest);
    }
  }

  lemma {:induction false} SplitAt(rs: seq<Region>, i: nat)
    requires i <= |rs|
    ensures rs == rs[..i] + rs[i..]
  {
  }

  lemma {:induction false} CutLive(rs: seq<Region>, base: Addr, end: Addr)
    requires (Dummy(rs) || Minimal(rs)) && base < end
    ensures Minimal(Cut(Live(rs), base, end)) && |Cut(Live(rs), base, end)| <= |rs| + 2
    ensures forall x: Addr :: Lookup(Cut(Live(rs), base, end), x) == if base <= x < end then None else Lookup(rs, x)
  {
    var r := Live(rs);
    assert Dummy(rs) ==> Minimal(r);
    CutOk(r, base, end);
    forall x: Addr ensures Lookup(r, x) == Lookup(rs, x) { LiveLookup(rs, x); }
    IsolateParts(r, base, end, 0);
    IsolateSize(r, base, end, 0);
  }

  /** Dropping what memblock_isolate_range() found leaves the array cut at both ends. */
  lemma {:induction false} RemoveOk(rs: seq<Region>, iso: seq<Region>, base: Addr, end: Addr, first: nat, last: nat)
    requires (Dummy(rs) || Minimal(rs)) && base < end && iso == (if Dummy(rs) then rs else Isolate(rs, base, end))
    requires rs != [] && Found(Live(rs), base, end, first, last)
    ensures first <= last <= |iso|
    ensures var rest := iso[..first] + iso[last..];
      && |rest| <= |rs| + 2
      && (if first < last then Minimal(rest) else rest == rs)
      && (forall x: Addr :: Lookup(rest, x) == if base <= x < end then None else Lookup(rs, x))
  {
    CutLive(rs, base, end);
    if first < last {
      DropsMiddle(rs, base, end, first, last);
    } else {
      assert iso[..0] + iso[0..] == iso;
      NothingInside(rs, base, end, first, last);
      forall x: Addr ensures Lookup(Live(rs), x) == Lookup(rs, x) { LiveLookup(rs, x); }
    }
  }

  lemma {:induction false} DropsMiddle(rs: seq<Region>, base: Addr, end: Addr, first: nat, last: nat)
    requires Minimal(rs) && base < end && Found(rs, base, end, first, last) && first < last
    ensures var iso := Isolate(rs, base, end); last <= |iso| && iso[..first] + iso[last..] == Cut(rs, base, end)
  {
    IsolateParts(rs, base, end, 0);
    var iso := Isolate(rs, base, end);
    assert iso[..first] == Low(rs, base) && iso[last..] == High(rs, end);
  }

  lemma {:induction false} NothingInside(rs: seq<Region>, base: Addr, end: Addr, first: nat, last: nat)
    requires (Dummy(rs) || Minimal(rs)) && base < end && Found(Live(rs), base, end, first, last) && first == last
    ensures Cut(Live(rs), base, end) == Live(rs) && (!Dummy(rs) ==> Isolate(rs, base, end) == rs)
  {
    if !Dummy(rs) {
      IsolateParts(rs, base, end, 0);
      CutNothing(rs, base, end, 0);
    }
  }

  lemma {:induction false} TotalSplit(done: seq<Region>, r: Region, a: Region, b: Region, rest: seq<Region>)
    requires a.size + b.size == r.size
    ensures Total(done + [a, b] + rest) == Total(done + [r] + rest)
  {
    TotalJoin(done + [a, b], rest);
    TotalJoin(done, [a, b]);
    TotalJoin(done + [r], rest);
    TotalJoin(done, [r]);
    assert [a, b][1..] == [b] && [b][1..] == [] && [r][1..] == [];
  }

  lemma {:induction false} Halves(rs: seq<Region>, done: seq<Region>, a: Region, b: Region, rest: seq<Region>)
    requires rs == done + [a, b] + rest
    ensures rs[..|done|] == done && rs[|done|..] == [a, b] + rest
    ensures rs[..|done| + 1] == done + [a] && rs[|done| + 1..] == [b] + rest
  {
  }

  /** A measure for the isolating loop: a region that still crosses a boundary weighs more. */
  function Weight(rs: seq<Region>, base: Addr, end: Addr): nat {
    if rs == [] then 0
    else
      1 + (if rs[0].base < base < End(rs[0]) then 2 else 0) + (if rs[0].base < end < End(rs[0]) then 2 else 0) +
      Weight(rs[1..], base, end)
  }

  /** Regions already looked at and still to look at in memblock_isolate_range(). */
  ghost predicate Isolating(done: seq<Region>, todo: seq<Region>, base: Addr, end: Addr, rs: seq<Region>, first: nat,
                            last: nat)
    requires base < end
  {
    && done + Isolate(todo, base, end) == Isolate(rs, base, end)
    && (last == 0 ==>
          && first == 0 && Sorted(todo, 0) && done + Low(todo, base) == Low(rs, base)
          && Mid(todo, base, end) == Mid(rs, base, end))
    && (last > 0 ==> Sorted(todo, base + 1) && first == |Low(rs, base)| && last == |done| && last > first
                     && done[first..] + Mid(todo, base, end) == Mid(rs, base, end))
  }

  lemma {:induction false} IsolateSkip(done: seq<Region>, todo: seq<Region>, base: Addr, end: Addr, rs: seq<Region>,
                            first: nat, last: nat)
    requires base < end && todo != [] && todo[0].base < end && Isolating(done, todo, base, end, rs, first, last)
    requires End(todo[0]) <= base
    ensures Isolating(done + [todo[0]], todo[1..], base, end, rs, first, last)
      && Weight(todo[1..], base, end) < Weight(todo, base, end)
  {
    var (r, rest) := (todo[0], todo[1..]);
    Regroup(done, [r], Isolate(rest, base, end));
    Regroup(done, [r], Low(rest, base));
    SortedDown(rest, End(r), 0);
  }

  lemma {:induction false} IsolateLow(done: seq<Region>, todo: seq<Region>, base: Addr, end: Addr, rs: seq<Region>,
                            first: nat, last: nat)
    requires base < end && todo != [] && todo[0].base < end && Isolating(done, todo, base, end, rs, first, last)
    requires todo[0].base < base < End(todo[0])
    ensures var todo' := [Span(base, End(todo[0]), todo[0].attr)] + todo[1..];
      && |done| + |todo| < |Isolate(rs, base, end)| && Weight(todo', base, end) < Weight(todo, base, end)
      && Isolating(done + [Span(todo[0].base, base, todo[0].attr)], todo', base, end, rs, first, last)
  {
    var (r, rest) := (todo[0], todo[1..]);
    var (l, todo') := ([Span(r.base, base, r.attr)], [Span(base, End(r), r.attr)] + rest);
    CrossingParts(todo, todo', base, end);
    IsolateGrows(todo', base, end);
    Regroup(done, l, Isolate(todo', base, end));
    assert (done + l) + [] == done + l;
  }

  lemma {:induction false} IsolateHigh(done: seq<Region>, todo: seq<Region>, base: Addr, end: Addr, rs: seq<Region>,
                            first: nat, last: nat)
    requires base < end && todo != [] && todo[0].base < end && Isolating(done, todo, base, end, rs, first, last)
    requires base <= todo[0].base && End(todo[0]) > end
    ensures var todo' := [Span(todo[0].base, end, todo[0].attr), Span(end, End(todo[0]), todo[0].attr)] + todo[1..];
      && |done| + |todo| < |Isolate(rs, base, end)| && Weight(todo', base, end) < Weight(todo, base, end)
      && Isolating(done, todo', base, end, rs, first, last)
  {
    var r := todo[0];
    var todo' := [Span(r.base, end, r.attr), Span(end, End(r), r.attr)] + todo[1..];
    TopCut(todo, todo', base, end, if last == 0 then 0 else base + 1);
  }

  /** A region that crosses end is cut there; what lies above is done with. */
  lemma {:induction false} TopCut(todo: seq<Region>, todo': seq<Region>, base: Addr, end: Addr, lo: Addr)
    requires base < end && todo != [] && base <= todo[0].base < end < End(todo[0]) && Sorted(todo, lo)
    requires todo' == [Span(todo[0].base, end, todo[0].attr), Span(end, End(todo[0]), todo[0].attr)] + todo[1..]
    ensures Isolate(todo', base, end) == Isolate(todo, base, end) == todo'
      && Mid(todo', base, end) == Mid(todo, base, end)
    ensures Low(todo, base) == Low(todo', base) == [] && Sorted(todo', lo)
      && Weight(todo', base, end) < Weight(todo, base, end)
  {
    var (r, rest) := (todo[0], todo[1..]);
    var (a, b) := (Span(r.base, end, r.attr), Span(end, End(r), r.attr));
    assert todo'[1..] == [b] + rest && ([b] + rest)[1..] == rest;
    assert rest == [] || rest[0].base >= end;
    assert Mid(rest, base, end) == [] && Mid(todo', base, end) == [a];
  }

  lemma {:induction false} IsolateTake(done: seq<Region>, todo: seq<Region>, base: Addr, end: Addr, rs: seq<Region>,
                            first: nat, last: nat)
    requires base < end && todo != [] && todo[0].base < end && Isolating(done, todo, base, end, rs, first, last)
    requires base <= todo[0].base && End(todo[0]) <= end && End(todo[0]) > base
    ensures Isolating(done + [todo[0]], todo[1..], base, end, rs, if last == 0 then |done| else first, |done| + 1)
    ensures Weight(todo[1..], base, end) < Weight(todo, base, end)
  {
    var (r, rest) := (todo[0], todo[1..]);
    InsideHead(todo, base, end);
    Regroup(done, [r], Isolate(rest, base, end));
    SortedDown(rest, End(r), base + 1);
    if last == 0 {
      assert done + [] == done;
      assert (done + [r])[|done|..] == [r];
    } else {
      assert (done + [r])[first..] == done[first..] + [r];
      Regroup(done[first..], [r], Mid(rest, base, end));
    }
  }

  /** A region inside the range is all of the middle part so far. */
  lemma {:induction false} InsideHead(todo: seq<Region>, base: Addr, end: Addr)
    requires base < end && todo != [] && base <= todo[0].base < end && base < End(todo[0]) <= end
    ensures Isolate(todo, base, end) == [todo[0]] + Isolate(todo[1..], base, end)
      && Mid(todo, base, end) == [todo[0]] + Mid(todo[1..], base, end)
    ensures Low(todo, base) == [] && Weight(todo[1..], base, end) < Weight(todo, base, end)
  {
  }

  lemma {:induction false} IsolateGrows(rs: seq<Region>, base: Addr, end: Addr)
    requires base < end
    ensures |Isolate(rs, base, end)| >= |rs|
    decreases |rs|, if rs != [] && rs[0].base < base then 1 else 0
  {
    if rs == [] || rs[0].base >= end {
    } else if rs[0].base < base < End(rs[0]) {
      IsolateGrows([Span(base, End(rs[0]), rs[0].attr)] + rs[1..], base, end);
    } else {
      IsolateGrows(rs[1..], base, end);
    }
  }

  lemma {:induction false} IsolateStart(rs: seq<Region>, base: Addr, end: Addr)
    requires Sorted(rs, 0) && base < end
    ensures Isolating(rs[..0], rs[0..], base, end, rs, 0, 0)
  {
    assert rs[..0] == [] && rs[0..] == rs;
  }

  lemma {:induction false} IsolateEnd(done: seq<Region>, todo: seq<Region>, base: Addr, end: Addr, rs: seq<Region>,
                            first: nat, last: nat)
    requires base < end && (todo == [] || todo[0].base >= end) && Isolating(done, todo, base, end, rs, first, last)
    ensures done + todo == Isolate(rs, base, end)
    ensures Found(rs, base, end, first, last)
  {
  }

  /** [first, last) are the indices of the regions inside the range. */
  ghost predicate Found(rs: seq<Region>, base: Addr, end: Addr, first: nat, last: nat)
    requires base < end
  {
    var n := |Mid(rs, base, end)|;
    if n == 0 then first == last == 0 else first == |Low(rs, base)| && last == first + n
  }

  lemma {:induction false} OneRegion(r: Region)
    requires r.size > 0 && End(r) <= ULLONG_MAX
    ensures Minimal([r]) && Total([r]) == r.size
  {
    assert [r][1..] == [];
  }

  lemma {:induction false} MergeShorter(rs: seq<Region>)
    ensures |Merge(rs)| <= |rs|
    decreases |rs|
  {
    if |rs| < 2 {
    } else if Mergeable(rs[0], rs[1]) {
      MergeShorter([Joined(rs[0], rs[1])] + rs[2..]);
    } else {
      MergeShorter(rs[1..]);
    }
  }

  lemma {:induction false} Advance(rs: seq<Region>, done: seq<Region>, todo: seq<Region>)
    requires rs == done + todo && todo != []
    ensures rs[..|done| + 1] == done + [todo[0]] && rs[|done| + 1..] == todo[1..]
  {
  }

  /** Past the range only the gap up to its end is left. */
  lemma {:induction false} LastGap(done: seq<Region>, todo: seq<Region>, base: Addr, end: Addr, a: Attr)
    requires todo == [] || todo[0].base >= end
    ensures done + Insert(todo, base, end, a) == done + New(base, end, a) + todo
    ensures CountNew(todo, base, end) == if base < end then 1 else 0
  {
  }

  lemma {:induction false} SkipStep(done: seq<Region>, todo: seq<Region>, base: Addr, end: Addr, a: Attr)
    requires todo != [] && todo[0].base < end && End(todo[0]) <= base
    ensures done + Insert(todo, base, end, a) == (done + [todo[0]]) + Insert(todo[1..], base, end, a)
  {
  }

  lemma {:induction false} TakeStep(done: seq<Region>, todo: seq<Region>, base: Addr, end: Addr, a: Attr)
    requires todo != [] && todo[0].base < end && End(todo[0]) > base
    ensures done + Insert(todo, base, end, a) == (done + New(base, todo[0].base, a) + [todo[0]]) +
      Insert(todo[1..], Min(End(todo[0]), end), end, a)
  {
  }
}
