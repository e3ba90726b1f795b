/** The radix tree of lib/radix-tree.c on values: its shape, the map it stands for, and why the shape is
    determined by the map. */
module Radix {

  const MAP_SIZE := 64
  const MAX_PATH := 11
  const ULONG_MAX := 0xffff_ffff_ffff_ffff

  /** NULL, an item, or a node. */
  datatype Slot = Empty | Item(v: nat) | Node(slots: seq<Slot>)

  function Pow64(h: nat): (n: nat)
    ensures n > 0
  {
    if h == 0 then 1 else 64 * Pow64(h - 1)
  }

  /** __maxindex(): the largest key a tree of height h holds; 11 levels cover all 64 bits. */
  function MaxIndex(h: nat): (n: nat) { if h >= MAX_PATH then ULONG_MAX else Pow64(h) - 1 }

  /** (index >> shift) & MAP_MASK at level h, where shift is (h - 1) * MAP_SHIFT. */
  function Digit(index: nat, h: nat): (d: nat)
    requires h > 0
    ensures d < MAP_SIZE
    decreases h
  {
    if h == 1 then index % 64 else Digit(index / 64, h - 1)
  }

  type Path = seq<nat>

  predicate Digits(path: Path) { forall i :: 0 <= i < |path| ==> path[i] < MAP_SIZE }

  /** The offsets met on the way down. */
  function PathOf(index: nat, h: nat): (p: Path)
    ensures |p| == h
    ensures Digits(p)
    decreases h
  {
    if h == 0 then [] else PathOf(index / 64, h - 1) + [index % 64]
  }

  function KeyOf(path: Path): (index: nat) {
    if path == [] then 0 else KeyOf(path[..|path| - 1]) * 64 + path[|path| - 1]
  }

  lemma {:induction false} PathHead(index: nat, h: nat)
    requires h > 0
    ensures PathOf(index, h) == [Digit(index, h)] + PathOf(index, h - 1)
    decreases h
  {
    if h > 1 {
      PathHead(index / 64, h - 1);
    }
  }

  lemma {:induction false} KeyPath(index: nat, h: nat)
    requires index < Pow64(h)
    ensures KeyOf(PathOf(index, h)) == index
    decreases h
  {
    if h > 0 {
      KeyPath(index / 64, h - 1);
      assert PathOf(index, h)[..h - 1] == PathOf(index / 64, h - 1);
    }
  }

  lemma {:induction false} PathKey(path: Path)
    requires Digits(path)
    ensures KeyOf(path) < Pow64(|path|) && PathOf(KeyOf(path), |path|) == path
  {
    if path != [] {
      var (rest, d) := (path[..|path| - 1], path[|path| - 1]);
      PathKey(rest);
      var k := KeyOf(rest) * 64 + d;
      assert k / 64 == KeyOf(rest) && k % 64 == d;
      assert path == rest + [d];
    }
  }

  // ---- shape ----

  predicate Some(slots: seq<Slot>) { exists i :: 0 <= i < |slots| && slots[i] != Empty }

  /** Nodes have 64 slots, at least one in use; items sit at height 0. */
  predicate Ok(s: Slot, h: nat)
    decreases h
  {
    match s
    case Empty => true
    case Item(v) => h == 0 && v != 0
    case Node(slots) => h > 0 && |slots| == MAP_SIZE && Some(slots) && forall i :: 0 <= i < |slots| ==>
        Ok(slots[i], h - 1)
  }

  /** The item a path leads to, 0 if none. */
  function Get(s: Slot, path: Path): (v: nat)
    decreases |path|
  {
    if path == [] then if s.Item? then s.v else 0
    else if s.Node? && path[0] < |s.slots| then Get(s.slots[path[0]], path[1..]) else 0
  }

  lemma {:induction false} GetEmpty(path: Path)
    ensures Get(Empty, path) == 0
  {
  }

  /** A slot in use holds an item somewhere. */
  lemma {:induction false} HasItem(s: Slot, h: nat) returns (path: Path)
    requires Ok(s, h) && s != Empty
    ensures |path| == h && Digits(path) && Get(s, path) != 0
    decreases h
  {
    if h == 0 {
      path := [];
    } else {
      var i :| 0 <= i < |s.slots| && s.slots[i] != Empty;
      var rest := HasItem(s.slots[i], h - 1);
      path := [i] + rest;
      assert path[1..] == rest;
    }
  }

  /** Two subtrees of the same height with the same items are equal. */
  lemma {:induction false} SameItems(s: Slot, t: Slot, h: nat)
    requires Ok(s, h) && Ok(t, h)
    requires forall path: Path :: |path| == h && Digits(path) ==> Get(s, path) == Get(t, path)
    ensures s == t
    decreases h
  {
    if s == Empty {
      if t != Empty { var path := HasItem(t, h); }
    } else if t == Empty {
      var path := HasItem(s, h);
    } else if h == 0 {
      var path: Path := [];
      assert Get(s, path) == Get(t, path);
    } else {
      forall i | 0 <= i < MAP_SIZE ensures s.slots[i] == t.slots[i] {
        forall path: Path | |path| == h - 1 && Digits(path) ensures Get(s.slots[i], path) == Get(t.slots[i], path) {
          var full := [i] + path;
          assert full[1..] == path && Get(s, full) == Get(t, full);
        }
        SameItems(s.slots[i], t.slots[i], h - 1);
      }
      assert s.slots == t.slots;
    }
  }

  // ---- the root ----

  datatype Root = Root(height: nat, rnode: Slot)

  /** Some slot past the first is in use, so the height is needed. */
  predicate Tall(s: Slot) { s.Node? && exists i :: 0 < i < |s.slots| && s.slots[i] != Empty }

  /** At the top level only 4 bits of the index are left. */
  predicate TopOk(s: Slot) { s.Node? ==> forall i :: 16 <= i < |s.slots| ==> s.slots[i] == Empty }

  predicate Valid(r: Root) {
    && r.height <= MAX_PATH && Ok(r.rnode, r.height)
    && (r.height > 0 ==> Tall(r.rnode)) && (r.height == MAX_PATH ==> TopOk(r.rnode))
  }

  /** radix_tree_lookup() */
  function Lookup(r: Root, index: nat): (v: nat) {
    if index > MaxIndex(r.height) then 0 else Get(r.rnode, PathOf(index, r.height))
  }

  // ---- the root is determined by the map ----

  /** a with n zero digits after it. */
  function Lead(a: nat, n: nat): (k: nat) { if n == 0 then a else 64 * Lead(a, n - 1) }

  lemma {:induction false} LeadMono(a: nat, b: nat, n: nat)
    requires a <= b
    ensures Lead(a, n) <= Lead(b, n) && Lead(1, n) == Pow64(n)
  {
    if n > 0 {
      LeadMono(a, b, n - 1);
    }
  }

  /** The first offset gives the key up to the levels below. */
  lemma {:induction false} KeyHead(path: Path)
    requires Digits(path) && path != []
    ensures Lead(path[0], |path| - 1) <= KeyOf(path) < Lead(path[0] + 1, |path| - 1)
  {
    if |path| == 1 {
      assert path[..0] == [];
    } else {
      KeyHead(path[..|path| - 1]);
    }
  }

  lemma {:induction false} MaxIndexOk(h: nat)
    requires h <= MAX_PATH
    ensures h < MAX_PATH ==> Pow64(h) - 1 <= ULONG_MAX
    ensures MaxIndex(h) < Pow64(h)
  {
    Pow64Mono(h, 10);
    assert Pow64(10) == 0x1000_0000_0000_0000;
  }

  lemma {:induction false} Pow64Mono(a: nat, b: nat)
    ensures a <= b ==> Pow64(a) <= Pow64(b)
    decreases b
  {
    if a < b {
      Pow64Mono(a, b - 1);
    }
  }

  /** Past the largest key of the top level there is nothing. */
  lemma {:induction false} BeyondTop(s: Slot, path: Path)
    requires TopOk(s) && |path| == MAX_PATH && Digits(path) && KeyOf(path) > ULONG_MAX
    ensures Get(s, path) == 0
  {
    KeyHead(path);
    assert Lead(16, 10) == ULONG_MAX + 1;
    if path[0] < 16 {
      LeadMono(path[0] + 1, 16, 10);
    }
  }

  lemma {:induction false} SameRnode(r: Root, q: Root)
    requires Valid(r) && Valid(q) && r.height == q.height
    requires forall index: nat :: index <= ULONG_MAX ==> Lookup(r, index) == Lookup(q, index)
    ensures r == q
  {
    var h := r.height;
    forall path: Path | |path| == h && Digits(path) ensures Get(r.rnode, path) == Get(q.rnode, path) {
      var index := KeyOf(path);
      PathKey(path);
      MaxIndexOk(h);
      if index <= MaxIndex(h) {
        assert Lookup(r, index) == Lookup(q, index);
      } else {
        BeyondTop(r.rnode, path);
        BeyondTop(q.rnode, path);
      }
    }
    SameItems(r.rnode, q.rnode, h);
  }

  /** A tree of height h > 0 holds a key that height h - 1 could not. */
  lemma {:induction false} NeedsHeight(r: Root) returns (index: nat)
    requires Valid(r) && r.height > 0
    ensures MaxIndex(r.height - 1) < index <= ULONG_MAX && Lookup(r, index) != 0
  {
    var h := r.height;
    var i :| 0 < i < |r.rnode.slots| && r.rnode.slots[i] != Empty;
    var rest := HasItem(r.rnode.slots[i], h - 1);
    var path := [i] + rest;
    assert path[1..] == rest;
    index := KeyOf(path);
    KeyHead(path);
    PathKey(path);
    MaxIndexOk(h - 1);
    LeadMono(1, i, h - 1);
    InTree(r, path);
  }

  /** The key of an item in the tree is one the tree can hold. */
  lemma {:induction false} InTree(r: Root, path: Path)
    requires Valid(r) && |path| == r.height && Digits(path) && Get(r.rnode, path) != 0
    ensures KeyOf(path) <= MaxIndex(r.height) <= ULONG_MAX && Lookup(r, KeyOf(path)) != 0
  {
    PathKey(path);
    MaxIndexOk(r.height);
    if KeyOf(path) > MaxIndex(r.height) {
      BeyondTop(r.rnode, path);
    }
  }

  /** Canonical shape: valid trees that hold the same map are equal, height and all. */
  lemma {:induction false} Canonical(r: Root, q: Root)
    requires Valid(r) && Valid(q)
    requires forall index: nat :: index <= ULONG_MAX ==> Lookup(r, index) == Lookup(q, index)
    ensures r == q
  {
    if r.height == q.height {
      SameRnode(r, q);
    } else {
      var (lo, hi) := if r.height < q.height then (r, q) else (q, r);
      var index := NeedsHeight(hi);
      MaxIndexMono(lo.height, hi.height - 1);
    }
  }

  lemma {:induction false} MaxIndexMono(a: nat, b: nat)
    requires a <= b <= MAX_PATH
    ensures MaxIndex(a) <= MaxIndex(b)
  {
    Pow64Mono(a, b);
    MaxIndexOk(a);
  }

  // ---- inserting and deleting below a node ----

  function NewSlots(): (sl: seq<Slot>)
    ensures |sl| == MAP_SIZE && forall i :: 0 <= i < |sl| ==> sl[i] == Empty
  {
    seq(MAP_SIZE, _ => Empty)
  }

  function SlotsOf(s: Slot): (sl: seq<Slot>) { if s.Node? then s.slots else NewSlots() }

  /** The missing nodes on the path are created, and the item stored. */
  function Put(s: Slot, path: Path, v: nat): (t: Slot)
    decreases |path|
  {
    if path == [] then Item(v)
    else
      var sl := SlotsOf(s);
      if path[0] >= |sl| then s else Node(sl[path[0] := Put(sl[path[0]], path[1..], v)])
  }

  function Prune(sl: seq<Slot>): (s: Slot) { if Some(sl) then Node(sl) else Empty }

  /** The item is removed, and the nodes on the path that become empty. */
  function Del(s: Slot, path: Path): (t: Slot)
    decreases |path|
  {
    if path == [] then Empty
    else if !s.Node? || path[0] >= |s.slots| then s
    else Prune(s.slots[path[0] := Del(s.slots[path[0]], path[1..])])
  }

  lemma {:induction false} PutOk(s: Slot, h: nat, path: Path, v: nat)
    requires Ok(s, h) && |path| == h && Digits(path) && v != 0
    ensures Put(s, path, v) != Empty && Ok(Put(s, path, v), h)
    ensures forall q: Path :: |q| == h && Digits(q) ==> Get(Put(s, path, v), q) == if q == path then v else Get(s, q)
    decreases h
  {
    if h > 0 {
      var (sl, d, rest) := (SlotsOf(s), path[0], path[1..]);
      PutOk(sl[d], h - 1, rest, v);
      var t := Put(s, path, v);
      assert t.slots[d] != Empty;
      assert path == [d] + rest;
      forall q: Path | |q| == h && Digits(q) ensures Get(t, q) == if q == path then v else Get(s, q) {
        assert q == [q[0]] + q[1..];
        assert Get(t, q) == Get(t.slots[q[0]], q[1..]) && Get(s, q) == Get(sl[q[0]], q[1..]);
      }
    }
  }

  lemma {:induction false} DelOk(s: Slot, h: nat, path: Path)
    requires Ok(s, h) && |path| == h && Digits(path)
    ensures Ok(Del(s, path), h)
    ensures forall q: Path :: |q| == h && Digits(q) ==> Get(Del(s, path), q) == if q == path then 0 else Get(s, q)
    decreases h
  {
    if h > 0 && s.Node? {
      var (sl, d, rest) := (s.slots, path[0], path[1..]);
      DelOk(sl[d], h - 1, rest);
      var sl' := sl[d := Del(sl[d], rest)];
      assert path == [d] + rest;
      forall q: Path | |q| == h && Digits(q) ensures Get(Del(s, path), q) == if q == path then 0 else Get(s, q) {
        assert q == [q[0]] + q[1..];
        if q[0] != d {
          assert sl'[q[0]] == sl[q[0]];
        }
        assert Some(sl') || sl'[q[0]] == Empty;
      }
    }
  }

  // ---- height ----

  /** The tree one level higher: the old root in the first slot. */
  function Wrap(s: Slot): (t: Slot) { Node(NewSlots()[0 := s]) }

  /** radix_tree_extend() up to height h. */
  function Extend(r: Root, h: nat): (r': Root)
    decreases h - r.height
  {
    if r.rnode == Empty then Root(h, Empty)
    else if r.height >= h then r
    else Extend(Root(r.height + 1, Wrap(r.rnode)), h)
  }

  /** The first height from h on that holds the key. */
  function Least(h: nat, index: nat): (h': nat)
    requires h <= MAX_PATH && index <= ULONG_MAX
    ensures h <= h' <= MAX_PATH && index <= MaxIndex(h') && (h' > h ==> index > MaxIndex(h' - 1))
    decreases MAX_PATH - h
  {
    if index <= MaxIndex(h) then h else Least(h + 1, index)
  }

  /** The top offset of a key is 0 exactly when the level is not needed. */
  lemma {:induction false} DigitTop(index: nat, h: nat)
    requires index < Pow64(h + 1)
    ensures Digit(index, h + 1) == 0 <==> index < Pow64(h)
    ensures h == 10 && index <= ULONG_MAX ==> Digit(index, h + 1) < 16
    decreases h
  {
    if h > 0 {
      DigitTop(index / 64, h - 1);
    }
    if h == 10 && index <= ULONG_MAX {
      TopDigit(index);
    }
  }

  lemma {:induction false} TopDigit(index: nat)
    requires index <= ULONG_MAX
    ensures Digit(index, 11) < 16
  {
    var path := PathOf(index, 11);
    PathHead(index, 11);
    assert Pow64(11) > ULONG_MAX;
    KeyPath(index, 11);
    KeyHead(path);
    assert Lead(16, 10) == ULONG_MAX + 1;
    if path[0] >= 16 {
      LeadMono(16, path[0], 10);
    }
  }

  lemma {:induction false} WrapLookup(r: Root, index: nat)
    requires r.height < MAX_PATH && index <= ULONG_MAX
    ensures Lookup(Root(r.height + 1, Wrap(r.rnode)), index) == Lookup(r, index)
  {
    var h := r.height;
    MaxIndexOk(h);
    MaxIndexOk(h + 1);
    MaxIndexMono(h, h + 1);
    if index <= MaxIndex(h + 1) {
      PathHead(index, h + 1);
      DigitTop(index, h);
      assert PathOf(index, h + 1)[1..] == PathOf(index, h);
      GetEmpty(PathOf(index, h));
    }
  }

  /** What holds of a tree that may be too high. */
  predicate Loose(r: Root) {
    r.height <= MAX_PATH && Ok(r.rnode, r.height) && (r.height == MAX_PATH ==> TopOk(r.rnode))
  }

  lemma {:induction false} ExtendOk(r: Root, h: nat)
    requires Loose(r) && r.height <= h <= MAX_PATH
    ensures Loose(Extend(r, h)) && Extend(r, h).height == h && SameMap(r, Extend(r, h))
    decreases h - r.height
  {
    if r.rnode == Empty {
      forall index: nat | index <= ULONG_MAX ensures Lookup(Extend(r, h), index) == Lookup(r, index) {
        GetEmpty(PathOf(index, h));
        GetEmpty(PathOf(index, r.height));
      }
    } else if r.height < h {
      var w := Root(r.height + 1, Wrap(r.rnode));
      assert w.rnode.slots[0] != Empty;
      ExtendOk(w, h);
      forall index: nat | index <= ULONG_MAX ensures Lookup(w, index) == Lookup(r, index) { WrapLookup(r, index); }
    }
  }

  /** radix_tree_insert() of a key not in the tree. */
  function Insert(r: Root, index: nat, v: nat): (r': Root)
    requires r.height <= MAX_PATH && index <= ULONG_MAX
  {
    var g := Roomy(r, index);
    Root(g.height, Put(g.rnode, PathOf(index, g.height), v))
  }

  /** The tree high enough for the key. */
  function Roomy(r: Root, index: nat): (g: Root)
    requires r.height <= MAX_PATH && index <= ULONG_MAX
  {
    if index > MaxIndex(r.height) then Extend(r, Least(r.height, index)) else r
  }

  /** radix_tree_shrink() */
  function Shrink(r: Root): (r': Root)
    decreases r.height
  {
    if r.height > 0 && r.rnode.Node? && !Tall(r.rnode) && r.rnode.slots != [] && r.rnode.slots[0] != Empty
    then Shrink(Root(r.height - 1, r.rnode.slots[0])) else r
  }

  /** radix_tree_delete() */
  function Delete(r: Root, index: nat): (r': Root) {
    if index > MaxIndex(r.height) then r
    else
      var d := Del(r.rnode, PathOf(index, r.height));
      if d == Empty then Root(0, Empty) else Shrink(Root(r.height, d))
  }

  lemma {:induction false} PutLookup(g: Root, index: nat, v: nat)
    requires Loose(g) && index <= MaxIndex(g.height) && v != 0
    ensures var r := Root(g.height, Put(g.rnode, PathOf(index, g.height), v));
      && Ok(r.rnode, r.height) && r.rnode != Empty
      && OneMore(g, r, index, v)
  {
    var (h, path) := (g.height, PathOf(index, g.height));
    PutOk(g.rnode, h, path, v);
    MaxIndexOk(h);
    KeyPath(index, h);
    forall j: nat | j <= MaxIndex(h) ensures (PathOf(j, h) == path) == (j == index) { KeyPath(j, h); }
  }

  lemma {:induction false} FirstOffset(index: nat, h: nat)
    requires 0 < h <= MAX_PATH && index <= MaxIndex(h)
    ensures PathOf(index, h)[0] < MAP_SIZE && (index > MaxIndex(h - 1) ==> PathOf(index, h)[0] > 0)
    ensures h == MAX_PATH ==> PathOf(index, h)[0] < 16
  {
    PathHead(index, h);
    MaxIndexOk(h);
    MaxIndexOk(h - 1);
    DigitTop(index, h - 1);
  }

  lemma {:induction false} PutTall(g: Root, index: nat, v: nat)
    requires Loose(g) && g.height > 0 && index <= MaxIndex(g.height) && v != 0
    ensures var s := Put(g.rnode, PathOf(index, g.height), v);
      && (Tall(g.rnode) || index > MaxIndex(g.height - 1) ==> Tall(s)) && (g.height == MAX_PATH ==> TopOk(s))
  {
    var (h, path, sl) := (g.height, PathOf(index, g.height), SlotsOf(g.rnode));
    FirstOffset(index, h);
    PutAtTop(g.rnode, sl, h, path, v);
  }

  lemma {:induction false} PutAtTop(s: Slot, sl: seq<Slot>, h: nat, path: Path, v: nat)
    requires Ok(s, h) && sl == SlotsOf(s) && |path| == h > 0 && Digits(path) && v != 0
    ensures Tall(s) || path[0] > 0 ==> Tall(Put(s, path, v))
    ensures TopOk(s) && path[0] < 16 ==> TopOk(Put(s, path, v))
  {
    var (d, t) := (path[0], Put(s, path, v));
    PutOk(sl[d], h - 1, path[1..], v);
    assert t.slots[d] != Empty;
    if Tall(s) {
      var i :| 0 < i < |sl| && sl[i] != Empty;
      assert t.slots[i] != Empty;
    }
  }

  /** Inserting adds one entry to the map and keeps the shape valid. */
  lemma {:induction false} InsertOk(r: Root, index: nat, v: nat)
    requires Valid(r) && index <= ULONG_MAX && v != 0
    ensures Valid(Insert(r, index, v)) && OneMore(r, Insert(r, index, v), index, v)
  {
    var g := Roomy(r, index);
    RoomyOk(r, index);
    PutOver(g, index, v);
    Chained(r, g, Insert(r, index, v), index, v);
  }

  ghost predicate SameMap(r: Root, r': Root) { forall j: nat :: j <= ULONG_MAX ==> Lookup(r', j) == Lookup(r, j) }

  ghost predicate OneMore(r: Root, r': Root, index: nat, v: nat) {
    forall j: nat :: j <= ULONG_MAX ==> Lookup(r', j) == if j == index then v else Lookup(r, j)
  }

  lemma {:induction false} Chained(r: Root, g: Root, r': Root, index: nat, v: nat)
    requires SameMap(r, g) && OneMore(g, r', index, v)
    ensures OneMore(r, r', index, v)
  {
  }

  lemma {:induction false} LeastHigher(h: nat, index: nat)
    requires h <= MAX_PATH && MaxIndex(h) < index <= ULONG_MAX
    ensures Least(h, index) > h && index > MaxIndex(Least(h, index) - 1)
  {
  }

  /** A root that may be too high is just high enough for the key. */
  ghost predicate HighEnough(g: Root, index: nat) {
    && Loose(g) && index <= MaxIndex(g.height) && (g.height > 0 ==> Tall(g.rnode) || index > MaxIndex(g.height - 1))
  }

  lemma {:induction false} ExtendedHigh(r: Root, index: nat)
    requires Loose(r) && MaxIndex(r.height) < index <= ULONG_MAX
    ensures var g := Extend(r, Least(r.height, index)); HighEnough(g, index) && SameMap(r, g)
  {
    LeastHigher(r.height, index);
    ExtendOk(r, Least(r.height, index));
  }

  lemma {:induction false} RoomyOk(r: Root, index: nat)
    requires Valid(r) && index <= ULONG_MAX
    ensures HighEnough(Roomy(r, index), index) && SameMap(r, Roomy(r, index))
  {
    if index > MaxIndex(r.height) {
      ExtendedHigh(r, index);
    }
  }

  /** Storing in a tree just high enough for the key. */
  lemma {:induction false} PutOver(g: Root, index: nat, v: nat)
    requires HighEnough(g, index) && v != 0
    ensures var r := Root(g.height, Put(g.rnode, PathOf(index, g.height), v));
      Valid(r) && OneMore(g, r, index, v)
  {
    PutLookup(g, index, v);
    if g.height > 0 {
      PutTall(g, index, v);
    }
  }

  lemma {:induction false} ShrinkOk(r: Root)
    requires Loose(r) && r.rnode != Empty
    ensures Valid(Shrink(r))
    ensures forall j: nat :: j <= ULONG_MAX ==> Lookup(Shrink(r), j) == Lookup(r, j)
    decreases r.height
  {
    if r.height > 0 && !Tall(r.rnode) {
      var (sl, s) := (r.rnode.slots, Root(r.height - 1, r.rnode.slots[0]));
      var i :| 0 <= i < |sl| && sl[i] != Empty;
      assert i == 0;
      assert Wrap(sl[0]).slots == sl;
      forall j: nat | j <= ULONG_MAX ensures Lookup(s, j) == Lookup(r, j) { WrapLookup(s, j); }
      assert s.height == MAX_PATH ==> TopOk(s.rnode);
      ShrinkOk(s);
    }
  }

  /** Deleting removes one entry from the map and keeps the shape valid. */
  lemma {:induction false} DeleteOk(r: Root, index: nat)
    requires Valid(r) && index <= ULONG_MAX
    ensures Valid(Delete(r, index))
    ensures forall j: nat :: j <= ULONG_MAX ==> Lookup(Delete(r, index), j) == if j == index then 0 else Lookup(r, j)
  {
    var h := r.height;
    if index <= MaxIndex(h) {
      var (path, d) := (PathOf(index, h), Del(r.rnode, PathOf(index, h)));
      DelOk(r.rnode, h, path);
      MaxIndexOk(h);
      KeyPath(index, h);
      forall j: nat | j <= MaxIndex(h) ensures (PathOf(j, h) == path) == (j == index) { KeyPath(j, h); }
      if d == Empty {
        forall j: nat ensures Lookup(Root(0, Empty), j) == Get(d, PathOf(j, h)) { GetEmpty(PathOf(j, h));
          GetEmpty(PathOf(j, 0)); }
      } else {
        if h == MAX_PATH { DelTop(r.rnode, path); }
        ShrinkOk(Root(h, d));
      }
    }
  }

  lemma {:induction false} DelTop(s: Slot, path: Path)
    requires TopOk(s) || path == []
    ensures TopOk(Del(s, path))
  {
    if path != [] && s.Node? && path[0] < |s.slots| && path[0] >= 16 {
      assert s.slots[path[0]] == Empty;
      assert Del(Empty, path[1..]) == Empty;
    }
  }

  /** Inserting an absent key and deleting it restores the same shape. */
  lemma {:induction false} InsertThenDelete(r: Root, index: nat, v: nat)
    requires Valid(r) && index <= ULONG_MAX && v != 0 && Lookup(r, index) == 0
    ensures Delete(Insert(r, index, v), index) == r
  {
    InsertOk(r, index, v);
    DeleteOk(Insert(r, index, v), index);
    Canonical(Delete(Insert(r, index, v), index), r);
  }
}
