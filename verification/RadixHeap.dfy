/** struct radix_tree_root and its nodes as lib/radix-tree.c updates them in place: slots, counts, parent
    pointers and height, in an arena of nodes. */
module RadixHeap {
  import opened Radix

  /** 0 is NULL. In a node of height 1 the slots hold items, above that nodes. */
  type Ptr = nat
  datatype TreeNode = TreeNode(height: nat, offset: nat, parent: Ptr, count: int, slots: seq<Ptr>)
  type Arena = map<Ptr, TreeNode>

  function Count(slots: seq<Ptr>): (n: nat) {
    if slots == [] then 0 else Count(slots[..|slots| - 1]) + if slots[|slots| - 1] != 0 then 1 else 0
  }

  lemma {:induction false} CountUpdate(slots: seq<Ptr>, d: nat, x: Ptr)
    requires d < |slots|
    ensures Count(slots[d := x]) == Count(slots) - (if slots[d] != 0 then 1 else 0) + if x != 0 then 1 else 0
  {
    var n := |slots| - 1;
    if d < n {
      CountUpdate(slots[..n], d, x);
      assert slots[d := x][..n] == slots[..n][d := x];
    } else {
      assert slots[d := x][..n] == slots[..n];
    }
  }

  lemma {:induction false} CountZero(slots: seq<Ptr>)
    ensures Count(slots) == 0 <==> forall i :: 0 <= i < |slots| ==> slots[i] == 0
  {
    if slots != [] {
      CountZero(slots[..|slots| - 1]);
    }
  }

  // ---- how nodes are linked; pos is the path from the root ----

  predicate LinkUp(h: Arena, pos: map<Ptr, Path>, rnode: Ptr, p: Ptr)
    requires p in h && p in pos
  {
    var q := h[p].parent;
    if pos[p] == [] then p == rnode && q == 0 && h[p].offset == 0
    else
      q in h && q in pos && pos[p] == pos[q] + [h[p].offset] && h[p].offset < |h[q].slots|
      && h[q].slots[h[p].offset] == p
  }

  predicate LinkDown(h: Arena, pos: map<Ptr, Path>, p: Ptr)
    requires p in h && p in pos
  {
    h[p].height > 1 ==> forall i :: 0 <= i < |h[p].slots| && h[p].slots[i] != 0 ==>
      h[p].slots[i] in h && h[p].slots[i] in pos && pos[h[p].slots[i]] == pos[p] + [i]
  }

  predicate NodeOk(h: Arena, pos: map<Ptr, Path>, rnode: Ptr, height: nat, p: Ptr)
    requires p in h
  {
    && p != 0 && p in pos && |pos[p]| < height && Digits(pos[p])
    && h[p].height == height - |pos[p]| && |h[p].slots| == MAP_SIZE && h[p].count == Count(h[p].slots)
    && LinkUp(h, pos, rnode, p) && LinkDown(h, pos, p)
  }

  /** p is allocated; a name for it keeps proofs from following every link of the tree. */
  predicate Has(h: Arena, p: Ptr) { p in h }

  predicate Live(h: Arena, pos: map<Ptr, Path>, rnode: Ptr, height: nat, p: Ptr) {
    p in h && NodeOk(h, pos, rnode, height, p)
  }

  ghost predicate Wf(h: Arena, pos: map<Ptr, Path>, rnode: Ptr, height: nat) {
    && (forall p: Ptr :: Has(h, p) ==> NodeOk(h, pos, rnode, height, p))
    && (height > 0 && rnode != 0 ==> rnode in h && rnode in pos && pos[rnode] == [])
    && (rnode == 0 ==> h == map[])
  }

  lemma {:induction false} GetLive(h: Arena, pos: map<Ptr, Path>, rnode: Ptr, height: nat, p: Ptr)
    requires Wf(h, pos, rnode, height) && p in h
    ensures Live(h, pos, rnode, height, p)
  {
    assert Has(h, p);
  }

  // ---- the tree an arena holds ----

  function Abs(h: Arena, p: Ptr, height: nat): (s: Slot)
    decreases height
  {
    if p == 0 then Empty
    else if height == 0 then Item(p)
    else if p !in h then Empty
    else Node(seq(|h[p].slots|, i requires 0 <= i < |h[p].slots| => Abs(h, h[p].slots[i], height - 1)))
  }

  /** Outside q itself, only nodes below its slot d may have changed. */
  ghost predicate OnlyAt(h: Arena, h': Arena, pos: map<Ptr, Path>, q: Ptr, d: nat)
    requires q in pos
  {
    forall y <- h :: y != q && y in pos && !(pos[q] + [d] <= pos[y]) ==> y in h' && h'[y] == h[y]
  }

  predicate Unrelated(a: Path, b: Path) { !(a <= b) && !(b <= a) }

  /** A change at slot d of q is not seen from a node off its path. */
  lemma {:induction false} OffPath(h: Arena, h': Arena, pos: map<Ptr, Path>, rnode: Ptr, top: nat, p: Ptr, q: Ptr,
                            d: nat)
    requires Wf(h, pos, rnode, top) && Live(h, pos, rnode, top, p) && q in pos && Unrelated(pos[p], pos[q] + [d])
      && OnlyAt(h, h', pos, q, d)
    ensures Abs(h', p, h[p].height) == Abs(h, p, h[p].height)
    decreases h[p].height
  {
    var (ht, w) := (h[p].height, pos[q] + [d]);
    assert pos[q] <= w;
    assert h'[p] == h[p];
    forall i | 0 <= i < |h[p].slots| ensures Abs(h', h[p].slots[i], ht - 1) == Abs(h, h[p].slots[i], ht - 1) {
      var c := h[p].slots[i];
      if c != 0 && ht > 1 {
        assert c in h && pos[c] == pos[p] + [i];
        GetLive(h, pos, rnode, top, c);
        StillUnrelated(pos[p], w, i);
        OffPath(h, h', pos, rnode, top, c, q, d);
      }
    }
  }

  lemma {:induction false} StillUnrelated(a: Path, w: Path, i: nat)
    requires Unrelated(a, w)
    ensures Unrelated(a + [i], w)
  {
    assert a + [i] <= w ==> a <= w;
    assert w <= a + [i] ==> w <= a || w == a + [i];
    assert w == a + [i] ==> a <= w;
  }

  /** The subtree at a path replaced. */
  function Replace(s: Slot, path: Path, t: Slot): (r: Slot)
    decreases |path|
  {
    if path == [] then t
    else if s.Node? && path[0] < |s.slots| then Node(s.slots[path[0] := Replace(s.slots[path[0]], path[1..], t)])
    else s
  }

  /** A path leads to one node. */
  lemma {:induction false} SamePos(h: Arena, pos: map<Ptr, Path>, rnode: Ptr, top: nat, p: Ptr, q: Ptr)
    requires Wf(h, pos, rnode, top) && Live(h, pos, rnode, top, p) && Live(h, pos, rnode, top, q) && pos[p] == pos[q]
    ensures p == q
    decreases |pos[p]|
  {
    if pos[p] != [] {
      var (a, b) := (h[p].parent, h[q].parent);
      GetLive(h, pos, rnode, top, a);
      GetLive(h, pos, rnode, top, b);
      assert pos[a] == pos[p][..|pos[p]| - 1] && pos[b] == pos[q][..|pos[q]| - 1];
      SamePos(h, pos, rnode, top, a, b);
    }
  }

  /** The child of p on the way to q. */
  lemma {:induction false} OnPath(h: Arena, pos: map<Ptr, Path>, rnode: Ptr, top: nat, p: Ptr, q: Ptr)
    requires Wf(h, pos, rnode, top) && Live(h, pos, rnode, top, p) && Live(h, pos, rnode, top, q) && pos[p] < pos[q]
    ensures pos[q][|pos[p]|] < |h[p].slots|
    ensures var e := pos[q][|pos[p]|]; var c := h[p].slots[e];
      c in h && c in pos && pos[c] == pos[p] + [e] && pos[c] <= pos[q] && c != 0
    decreases |pos[q]|
  {
    var r := h[q].parent;
    GetLive(h, pos, rnode, top, r);
    assert pos[r] == pos[q][..|pos[q]| - 1];
    if pos[r] == pos[p] {
      SamePos(h, pos, rnode, top, r, p);
    } else {
      OnPath(h, pos, rnode, top, p, r);
    }
  }

  /** Seen from p, a change at slot d of q shows only in the slot that leads to it. */
  lemma {:induction false} SiblingsSame(h: Arena, h': Arena, pos: map<Ptr, Path>, rnode: Ptr, top: nat, p: Ptr,
                            q: Ptr, d: nat, path: Path)
    requires Wf(h, pos, rnode, top) && Live(h, pos, rnode, top, p) && q in pos && pos[p] + path == pos[q] + [d]
      && path != []
    requires OnlyAt(h, h', pos, q, d)
    ensures forall i :: 0 <= i < |h[p].slots| && i != path[0] ==>
      Abs(h', h[p].slots[i], h[p].height - 1) == Abs(h, h[p].slots[i], h[p].height - 1)
  {
    forall i | 0 <= i < |h[p].slots| && i != path[0]
      ensures Abs(h', h[p].slots[i], h[p].height - 1) == Abs(h, h[p].slots[i], h[p].height - 1)
    {
      var c := h[p].slots[i];
      if c != 0 && h[p].height > 1 {
        GetLive(h, pos, rnode, top, c);
        assert (pos[p] + path)[|pos[p]|] == path[0] && pos[c][|pos[p]|] == i;
        OffPath(h, h', pos, rnode, top, c, q, d);
      }
    }
  }

  lemma {:induction false} StoreHere(h: Arena, h': Arena, pos: map<Ptr, Path>, rnode: Ptr, top: nat, q: Ptr, d: nat,
                            x: Ptr)
    requires Wf(h, pos, rnode, top) && Live(h, pos, rnode, top, q) && d < MAP_SIZE
    requires q in h' && h'[q].slots == h[q].slots[d := x] && OnlyAt(h, h', pos, q, d)
    ensures Abs(h', q, h[q].height) == Replace(Abs(h, q, h[q].height), [d], Abs(h', x, h[q].height - 1))
  {
    SiblingsSame(h, h', pos, rnode, top, q, q, d, [d]);
    AbsUpdate(h, h', q, h[q].height, d, Abs(h', x, h[q].height - 1));
  }

  /** Storing x in slot d of q replaces the subtree there, and nothing else. */
  lemma {:induction false} StoreAbs(h: Arena, h': Arena, pos: map<Ptr, Path>, rnode: Ptr, top: nat, p: Ptr, q: Ptr,
                            d: nat, x: Ptr, path: Path)
    requires Wf(h, pos, rnode, top) && Live(h, pos, rnode, top, p) && Live(h, pos, rnode, top, q) && d < MAP_SIZE
    requires q in h' && h'[q].slots == h[q].slots[d := x] && OnlyAt(h, h', pos, q, d)
      && pos[p] + path == pos[q] + [d] && path != []
    ensures Abs(h', p, h[p].height) == Replace(Abs(h, p, h[p].height), path, Abs(h', x, h[q].height - 1))
    decreases h[p].height
  {
    PathEnds(pos[p], path, pos[q], d);
    if |path| == 1 {
      SamePos(h, pos, rnode, top, p, q);
      StoreHere(h, h', pos, rnode, top, q, d, x);
    } else {
      OnPath(h, pos, rnode, top, p, q);
      var c := h[p].slots[path[0]];
      GetLive(h, pos, rnode, top, c);
      assert pos[c] + path[1..] == pos[p] + path;
      StoreAbs(h, h', pos, rnode, top, c, q, d, x, path[1..]);
      SiblingsSame(h, h', pos, rnode, top, p, q, d, path);
      assert !(pos[q] + [d] <= pos[p]);
      ReplaceStep(h, h', p, h[p].height, path, Abs(h', x, h[q].height - 1));
    }
  }

  lemma {:induction false} PathEnds(a: Path, path: Path, b: Path, d: nat)
    requires a + path == b + [d] && path != []
    ensures a <= b && (|path| == 1 ==> a == b && path == [d]) && (|path| > 1 ==> a < b && b[|a|] == path[0])
  {
    var w := a + path;
    assert w[..|b|] == b && w[..|a|] == a;
    assert |path| > 1 ==> w[|a|] == path[0];
    assert w[|b|] == d;
  }

  lemma {:induction false} ReplaceStep(h: Arena, h': Arena, p: Ptr, ht: nat, path: Path, sub: Slot)
    requires p != 0 && ht > 0 && p in h && p in h' && h'[p] == h[p] && path != [] && path[0] < |h[p].slots|
    requires forall i :: 0 <= i < |h[p].slots| && i != path[0] ==>
      Abs(h', h[p].slots[i], ht - 1) == Abs(h, h[p].slots[i], ht - 1)
    requires var c := h[p].slots[path[0]]; Abs(h', c, ht - 1) == Replace(Abs(h, c, ht - 1), path[1..], sub)
    ensures Abs(h', p, ht) == Replace(Abs(h, p, ht), path, sub)
  {
    AbsUpdate(h, h', p, ht, path[0], Replace(Abs(h, h[p].slots[path[0]], ht - 1), path[1..], sub));
  }

  lemma {:induction false} AbsUpdate(h: Arena, h': Arena, p: Ptr, ht: nat, e: nat, t: Slot)
    requires p != 0 && ht > 0 && p in h && p in h' && e < |h[p].slots| == |h'[p].slots|
    requires forall i :: 0 <= i < |h[p].slots| && i != e ==>
      h'[p].slots[i] == h[p].slots[i] && Abs(h', h[p].slots[i], ht - 1) == Abs(h, h[p].slots[i], ht - 1)
    requires Abs(h', h'[p].slots[e], ht - 1) == t
    ensures Abs(h, p, ht).Node? && |Abs(h, p, ht).slots| == |h[p].slots|
    ensures Abs(h', p, ht) == Node(Abs(h, p, ht).slots[e := t])
      && Abs(h, p, ht).slots[e] == Abs(h, h[p].slots[e], ht - 1)
  {
    assert Abs(h', p, ht).slots == Abs(h, p, ht).slots[e := t];
  }

  // ---- what each update keeps ----

  function Zeros(): (z: seq<Ptr>)
    ensures |z| == MAP_SIZE && forall i :: 0 <= i < |z| ==> z[i] == 0
  {
    seq(MAP_SIZE, _ => 0)
  }

  /** A node with slot d changed, and its count. */
  function WithSlot(n: TreeNode, d: nat, x: Ptr): TreeNode
    requires d < |n.slots|
  {
    n.(slots := n.slots[d := x], count := n.count - (if n.slots[d] != 0 then 1 else 0) + if x != 0 then 1 else 0)
  }

  /** Storing or clearing an item in a bottom node. */
  lemma {:induction false} ItemWf(h: Arena, pos: map<Ptr, Path>, rnode: Ptr, top: nat, q: Ptr, d: nat, x: Ptr)
    requires Wf(h, pos, rnode, top) && Live(h, pos, rnode, top, q) && h[q].height == 1 && d < MAP_SIZE
    ensures Wf(h[q := WithSlot(h[q], d, x)], pos, rnode, top)
  {
    var h' := h[q := WithSlot(h[q], d, x)];
    CountUpdate(h[q].slots, d, x);
    forall p: Ptr | Has(h', p) ensures NodeOk(h', pos, rnode, top, p) {
      GetLive(h, pos, rnode, top, p);
    }
  }

  function ChildArena(h: Arena, q: Ptr, d: nat, n: Ptr): Arena
    requires q in h && d < |h[q].slots| && h[q].height > 0
  {
    h[q := WithSlot(h[q], d, n)][n := TreeNode(h[q].height - 1, d, q, 0, Zeros())]
  }

  /** A new empty node in slot d of q. */
  lemma {:induction false} ChildWf(h: Arena, pos: map<Ptr, Path>, rnode: Ptr, top: nat, q: Ptr, d: nat, n: Ptr)
    requires Wf(h, pos, rnode, top) && Live(h, pos, rnode, top, q) && h[q].height > 1 && d < MAP_SIZE
      && h[q].slots[d] == 0
    requires n !in h && n != 0
    ensures Wf(ChildArena(h, q, d, n), pos[n := pos[q] + [d]], rnode, top)
  {
    var (h', pos') := (ChildArena(h, q, d, n), pos[n := pos[q] + [d]]);
    forall p: Ptr | Has(h', p) ensures NodeOk(h', pos', rnode, top, p) {
      if p == n {
        CountZero(Zeros());
        assert NodeOk(h', pos', rnode, top, n);
      } else {
        GetLive(h, pos, rnode, top, p);
        OldNode(h, pos, rnode, top, q, d, n, p);
      }
    }
  }

  /** The tree gets an empty node there. */
  lemma {:induction false} ChildAbs(h: Arena, pos: map<Ptr, Path>, rnode: Ptr, top: nat, q: Ptr, d: nat, n: Ptr)
    requires Wf(h, pos, rnode, top) && q in h && h[q].height > 1 && d < MAP_SIZE == |h[q].slots| && h[q].slots[d] == 0
    requires n !in h && n != 0 && rnode != 0 && q in pos
    ensures Wf(ChildArena(h, q, d, n), pos[n := pos[q] + [d]], rnode, top)
    ensures Abs(ChildArena(h, q, d, n), rnode, top) == Replace(Abs(h, rnode, top), pos[q] + [d], Node(NewSlots()))
  {
    GetLive(h, pos, rnode, top, q);
    GetLive(h, pos, rnode, top, rnode);
    ChildWf(h, pos, rnode, top, q, d, n);
    var h' := ChildArena(h, q, d, n);
    assert Abs(h', n, h[q].height - 1).slots == NewSlots();
    StoreAbs(h, h', pos, rnode, top, rnode, q, d, n, pos[q] + [d]);
  }

  lemma {:induction false} OldNode(h: Arena, pos: map<Ptr, Path>, rnode: Ptr, top: nat, q: Ptr, d: nat, n: Ptr, p: Ptr)
    requires Live(h, pos, rnode, top, q) && h[q].height > 1 && d < MAP_SIZE && h[q].slots[d] == 0
    requires n !in h && n != 0 && Live(h, pos, rnode, top, p)
    ensures Live(ChildArena(h, q, d, n), pos[n := pos[q] + [d]], rnode, top, p)
  {
    CountUpdate(h[q].slots, d, n);
  }

  /** The first node of an empty tree. */
  lemma {:induction false} FirstWf(top: nat, n: Ptr)
    requires top > 0 && n != 0
    ensures Wf(map[n := TreeNode(top, 0, 0, 0, Zeros())], map[n := []], n, top)
  {
    CountZero(Zeros());
  }

  /** Freeing the node in slot d of q, which has no entries left. */
  lemma {:induction false} FreeWf(h: Arena, pos: map<Ptr, Path>, rnode: Ptr, top: nat, q: Ptr, d: nat, c: Ptr)
    requires Wf(h, pos, rnode, top) && Live(h, pos, rnode, top, q) && Live(h, pos, rnode, top, c)
    requires h[c].parent == q && h[c].offset == d && pos[c] != [] && h[c].count == 0
    ensures d < MAP_SIZE && c != q && Wf(h[q := WithSlot(h[q], d, 0)] - {c}, pos, rnode, top)
  {
    var h' := h[q := WithSlot(h[q], d, 0)] - {c};
    CountUpdate(h[q].slots, d, 0);
    CountZero(h[c].slots);
    forall p: Ptr | Has(h', p) ensures NodeOk(h', pos, rnode, top, p) {
      GetLive(h, pos, rnode, top, p);
      forall i | 0 <= i < MAP_SIZE && h[p].height > 1 && h[p].slots[i] == c ensures p == q && i == d {
        OnlyParent(h, pos, rnode, top, p, i, c);
      }
      if pos[p] != [] {
        assert h[p].parent != c;
      }
    }
  }

  lemma {:induction false} OnlyParent(h: Arena, pos: map<Ptr, Path>, rnode: Ptr, top: nat, p: Ptr, i: nat, c: Ptr)
    requires Wf(h, pos, rnode, top) && Live(h, pos, rnode, top, p) && Live(h, pos, rnode, top, c) && i < MAP_SIZE
    requires h[p].height > 1 && h[p].slots[i] == c
    ensures p == h[c].parent && i == h[c].offset && pos[c] != []
  {
    var q := h[c].parent;
    assert pos[c] == pos[p] + [i];
    GetLive(h, pos, rnode, top, q);
    assert pos[q] == pos[c][..|pos[c]| - 1] == pos[p];
    SamePos(h, pos, rnode, top, p, q);
  }

  /** Nodes below p keep their slots, so p stands for the same tree. */
  lemma {:induction false} AbsUnder(h: Arena, h': Arena, pos: map<Ptr, Path>, rnode: Ptr, top: nat, p: Ptr)
    requires Wf(h, pos, rnode, top) && Live(h, pos, rnode, top, p) && SameUnder(h, h', pos, pos[p])
    ensures Abs(h', p, h[p].height) == Abs(h, p, h[p].height)
    decreases h[p].height
  {
    var ht := h[p].height;
    assert h'[p].slots == h[p].slots;
    forall i | 0 <= i < |h[p].slots| ensures Abs(h', h[p].slots[i], ht - 1) == Abs(h, h[p].slots[i], ht - 1) {
      var c := h[p].slots[i];
      if c != 0 && ht > 1 {
        GetLive(h, pos, rnode, top, c);
        assert pos[c] == pos[p] + [i];
        assert forall y <- h :: y in pos && pos[c] <= pos[y] ==> pos[p] <= pos[y];
        AbsUnder(h, h', pos, rnode, top, c);
      }
    }
  }

  ghost predicate SameUnder(h: Arena, h': Arena, pos: map<Ptr, Path>, w: Path) {
    forall y <- h :: y in pos && w <= pos[y] ==> y in h' && h'[y].slots == h[y].slots
  }

  /** radix_tree_extend(): a new root n above the old one. */
  function ExtendArena(h: Arena, rnode: Ptr, top: nat, n: Ptr): Arena
    requires top > 0 ==> rnode in h
  {
    (if top > 0 then h[rnode := h[rnode].(parent := n)] else h)[n := TreeNode(top + 1, 0, 0, 1, Zeros()[0 := rnode])]
  }

  function ExtendPos(h: Arena, pos: map<Ptr, Path>, n: Ptr): (pos': map<Ptr, Path>) {
    (map p: Ptr | p in h && p in pos :: [0] + pos[p])[n := []]
  }

  lemma {:induction false} ExtendWf(h: Arena, pos: map<Ptr, Path>, rnode: Ptr, top: nat, n: Ptr)
    requires Wf(h, pos, rnode, top) && rnode != 0 && n !in h && n != 0
    ensures Wf(ExtendArena(h, rnode, top, n), ExtendPos(h, pos, n), n, top + 1)
  {
    var (h', pos') := (ExtendArena(h, rnode, top, n), ExtendPos(h, pos, n));
    forall p: Ptr | Has(h', p) ensures NodeOk(h', pos', n, top + 1, p) {
      if p == n {
        CountZero(Zeros());
        CountUpdate(Zeros(), 0, rnode);
        assert NodeOk(h', pos', n, top + 1, n);
      } else {
        ExtendNode(h, pos, rnode, top, n, p);
      }
    }
  }

  lemma {:induction false} ExtendNode(h: Arena, pos: map<Ptr, Path>, rnode: Ptr, top: nat, n: Ptr, p: Ptr)
    requires Wf(h, pos, rnode, top) && rnode != 0 && n !in h && n != 0 && p in h
    ensures Live(ExtendArena(h, rnode, top, n), ExtendPos(h, pos, n), n, top + 1, p)
  {
    GetLive(h, pos, rnode, top, p);
    var (h', pos') := (ExtendArena(h, rnode, top, n), ExtendPos(h, pos, n));
    assert pos'[p] == [0] + pos[p];
    if pos[p] != [] {
      GetLive(h, pos, rnode, top, h[p].parent);
    }
    forall i | 0 <= i < MAP_SIZE && h[p].height > 1 && h[p].slots[i] != 0
      ensures h[p].slots[i] in h' && h[p].slots[i] in pos' && pos'[h[p].slots[i]] == pos'[p] + [i] {
      GetLive(h, pos, rnode, top, h[p].slots[i]);
    }
  }

  lemma {:induction false} ExtendAbs(h: Arena, pos: map<Ptr, Path>, rnode: Ptr, top: nat, n: Ptr)
    requires Wf(h, pos, rnode, top) && rnode != 0 && n !in h && n != 0
    ensures Abs(ExtendArena(h, rnode, top, n), n, top + 1) == Wrap(Abs(h, rnode, top))
  {
    var h' := ExtendArena(h, rnode, top, n);
    if top > 0 {
      GetLive(h, pos, rnode, top, rnode);
      AbsUnder(h, h', pos, rnode, top, rnode);
    }
    assert Abs(h', n, top + 1).slots == NewSlots()[0 := Abs(h, rnode, top)];
  }

  /** radix_tree_shrink(): the only child of the root becomes the root. */
  function ShrinkArena(h: Arena, rnode: Ptr, top: nat): Arena
    requires rnode in h && h[rnode].slots != [] && (top > 1 ==> h[rnode].slots[0] in h)
  {
    var c := h[rnode].slots[0];
    (if top > 1 then h[c := h[c].(parent := 0)] else h) - {rnode}
  }

  function ShrinkPos(h: Arena, pos: map<Ptr, Path>, rnode: Ptr): (pos': map<Ptr, Path>) {
    map p: Ptr | p in h && p in pos && pos[p] != [] && p != rnode :: pos[p][1..]
  }

  predicate OnlyFirst(slots: seq<Ptr>) { slots != [] && slots[0] != 0 && forall i :: 0 < i < |slots| ==> slots[i] == 0 }

  /** count == 1 with the first slot in use. */
  lemma {:induction false} CountOne(slots: seq<Ptr>)
    requires slots != []
    ensures Count(slots) == 1 && slots[0] != 0 <==> OnlyFirst(slots)
  {
    var z := slots[0 := 0];
    CountUpdate(slots, 0, 0);
    CountZero(z);
    assert forall i :: 0 < i < |slots| ==> z[i] == slots[i];
    if OnlyFirst(slots) {
      assert forall i :: 0 <= i < |z| ==> z[i] == 0;
    }
  }

  /** Below a root with only its first slot in use, every path starts with 0. */
  lemma {:induction false} FirstOnly(h: Arena, pos: map<Ptr, Path>, rnode: Ptr, top: nat, p: Ptr)
    requires Wf(h, pos, rnode, top) && rnode in h && OnlyFirst(h[rnode].slots) && p in h && p != rnode
    ensures Live(h, pos, rnode, top, p) && pos[p] != [] && pos[p][0] == 0
  {
    GetLive(h, pos, rnode, top, p);
    GetLive(h, pos, rnode, top, rnode);
    assert pos[rnode] == [] by { assert Wf(h, pos, rnode, top); }
    OnPath(h, pos, rnode, top, rnode, p);
  }

  lemma {:induction false} ShrinkNode(h: Arena, pos: map<Ptr, Path>, rnode: Ptr, top: nat, p: Ptr)
    requires Wf(h, pos, rnode, top) && top > 1 && rnode in h && OnlyFirst(h[rnode].slots) && p in h && p != rnode
      && h[rnode].slots[0] in h
    ensures Live(ShrinkArena(h, rnode, top), ShrinkPos(h, pos, rnode), h[rnode].slots[0], top - 1, p)
  {
    FirstOnly(h, pos, rnode, top, p);
    GetLive(h, pos, rnode, top, rnode);
    var c := h[rnode].slots[0];
    assert pos[c] == [0];
    var (h', pos', q) := (ShrinkArena(h, rnode, top), ShrinkPos(h, pos, rnode), h[p].parent);
    assert pos[p] == [0] + pos'[p];
    if pos'[p] == [] {
      GetLive(h, pos, rnode, top, c);
      SamePos(h, pos, rnode, top, p, c);
    } else {
      GetLive(h, pos, rnode, top, q);
      assert pos[q] == pos[p][..|pos[p]| - 1] && pos[q] != [];
      assert p != c;
    }
    forall i | 0 <= i < MAP_SIZE && h[p].height > 1 && h[p].slots[i] != 0
      ensures h[p].slots[i] in h' && h[p].slots[i] in pos' && pos'[h[p].slots[i]] == pos'[p] + [i] {
      GetLive(h, pos, rnode, top, h[p].slots[i]);
    }
  }

  lemma {:induction false} ShrinkWf(h: Arena, pos: map<Ptr, Path>, rnode: Ptr, top: nat)
    requires Wf(h, pos, rnode, top) && top > 0 && rnode in h && OnlyFirst(h[rnode].slots)
    ensures top > 1 ==> h[rnode].slots[0] in h
    ensures Wf(ShrinkArena(h, rnode, top), ShrinkPos(h, pos, rnode), h[rnode].slots[0], top - 1)
    ensures Abs(h, rnode, top).Node? && Abs(h, rnode, top).slots != []
    ensures Abs(ShrinkArena(h, rnode, top), h[rnode].slots[0], top - 1) == Abs(h, rnode, top).slots[0]
  {
    GetLive(h, pos, rnode, top, rnode);
    var (c, pos') := (h[rnode].slots[0], ShrinkPos(h, pos, rnode));
    var h' := ShrinkArena(h, rnode, top);
    forall p: Ptr | Has(h', p) ensures NodeOk(h', pos', c, top - 1, p) {
      FirstOnly(h, pos, rnode, top, p);
      ShrinkNode(h, pos, rnode, top, p);
    }
    if top > 1 {
      GetLive(h, pos, rnode, top, c);
      assert !(pos[c] <= pos[rnode]);
      AbsUnder(h, h', pos, rnode, top, c);
    }
  }

  // ---- building and pruning along a path ----

  /** The subtree at a path. */
  function At(s: Slot, path: Path): (t: Slot)
    decreases |path|
  {
    if path == [] then s else if s.Node? && path[0] < |s.slots| then At(s.slots[path[0]], path[1..]) else Empty
  }

  lemma {:induction false} AtAbs(h: Arena, pos: map<Ptr, Path>, rnode: Ptr, top: nat, p: Ptr, q: Ptr, path: Path)
    requires Wf(h, pos, rnode, top) && Live(h, pos, rnode, top, p) && Live(h, pos, rnode, top, q)
      && pos[q] == pos[p] + path
    ensures At(Abs(h, p, h[p].height), path) == Abs(h, q, h[q].height)
    decreases |path|
  {
    if path == [] {
      SamePos(h, pos, rnode, top, p, q);
    } else {
      OnPath(h, pos, rnode, top, p, q);
      var c := h[p].slots[path[0]];
      GetLive(h, pos, rnode, top, c);
      assert pos[q] == pos[c] + path[1..];
      AtAbs(h, pos, rnode, top, c, q, path[1..]);
    }
  }

  /** An empty node on the way changes nothing for the item to come. */
  lemma {:induction false} PutFresh(s: Slot, a: Path, b: Path, v: nat)
    requires At(s, a) == Empty && b != [] && Digits(b)
    ensures Put(Replace(s, a, Node(NewSlots())), a + b, v) == Put(s, a + b, v)
    decreases |a|
  {
    if a == [] {
      assert a + b == b && SlotsOf(Node(NewSlots())) == SlotsOf(Empty);
    } else if s.Node? && a[0] < |s.slots| {
      PutFresh(s.slots[a[0]], a[1..], b, v);
      assert (a + b)[1..] == a[1..] + b;
    }
  }

  lemma {:induction false} PutStore(s: Slot, a: Path, d: nat, v: nat)
    requires At(s, a).Node? && d < |At(s, a).slots|
    ensures Put(s, a + [d], v) == Replace(s, a + [d], Item(v))
    decreases |a|
  {
    if a == [] {
      assert a + [d] == [d] && [d][1..] == [];
    } else {
      PutStore(s.slots[a[0]], a[1..], d, v);
      assert (a + [d])[1..] == a[1..] + [d];
    }
  }

  /** Nodes along the path are dropped when nothing is left in them. */
  function PruneUp(s: Slot, path: Path): (t: Slot)
    decreases |path|
  {
    if !s.Node? then s
    else if path == [] then Prune(s.slots)
    else if path[0] < |s.slots| then Prune(s.slots[path[0] := PruneUp(s.slots[path[0]], path[1..])])
    else s
  }

  lemma {:induction false} UpdateTwice(sl: seq<Slot>, i: nat, x: Slot, y: Slot)
    requires i < |sl|
    ensures sl[i := x][i := y] == sl[i := y]
  {
  }

  lemma {:induction false} DelIsPrune(s: Slot, a: Path, d: nat)
    requires At(s, a).Node? && d < |At(s, a).slots|
    ensures Del(s, a + [d]) == PruneUp(Replace(s, a + [d], Empty), a)
    decreases |a|
  {
    if a == [] {
      assert a + [d] == [d] && [d][1..] == [];
    } else {
      assert (a + [d])[1..] == a[1..] + [d];
      DelIsPrune(s.slots[a[0]], a[1..], d);
      UpdateTwice(s.slots, a[0], Replace(s.slots[a[0]], a[1..] + [d], Empty), Del(s.slots[a[0]], a[1..] + [d]));
    }
  }

  /** Dropping an empty node, then going on one level up. */
  lemma {:induction false} PruneStep(s: Slot, a: Path, d: nat)
    requires At(s, a).Node? && d < |At(s, a).slots| && At(s, a + [d]).Node? && !Some(At(s, a + [d]).slots)
    ensures PruneUp(s, a + [d]) == PruneUp(Replace(s, a + [d], Empty), a)
    decreases |a|
  {
    if a == [] {
      assert a + [d] == [d] && [d][1..] == [];
    } else {
      assert (a + [d])[1..] == a[1..] + [d];
      PruneStep(s.slots[a[0]], a[1..], d);
      UpdateTwice(s.slots, a[0], Replace(s.slots[a[0]], a[1..] + [d], Empty), PruneUp(s.slots[a[0]], a[1..] + [d]));
    }
  }

  /** Where something is left, nothing above is dropped. */
  lemma {:induction false} PruneStops(s: Slot, a: Path)
    requires At(s, a).Node? && Some(At(s, a).slots)
    ensures PruneUp(s, a) == s
    decreases |a|
  {
    if a != [] {
      PruneStops(s.slots[a[0]], a[1..]);
      assert s.slots[a[0]] != Empty;
      assert s.slots[a[0] := s.slots[a[0]]] == s.slots;
    }
  }

  // ---- the code ----

  /** The lower levels of a path. */
  lemma {:induction false} PathTail(index: nat, top: nat, ht: nat)
    requires ht <= top
    ensures PathOf(index, top)[top - ht..] == PathOf(index, ht)
    decreases top
  {
    if ht < top {
      PathHead(index, top);
      PathTail(index, top - 1, ht);
      assert PathOf(index, top)[1..][top - 1 - ht..] == PathOf(index, top)[top - ht..];
    } else {
      assert PathOf(index, top)[0..] == PathOf(index, top);
    }
  }

  /** Storing at path makes both the same. */
  ghost predicate SamePuts(s: Slot, s': Slot, path: Path) { forall v: nat :: Put(s', path, v) == Put(s, path, v) }

  lemma {:induction false} SamePutsOn(r: Slot, s: Slot, t: Slot, path: Path)
    requires SamePuts(r, s, path) && SamePuts(s, t, path)
    ensures SamePuts(r, t, path)
  {
  }

  /** The loop of radix_tree_extend() that finds the height to reach. */
  method FindHeight(height: nat, index: nat) returns (target: nat)
    requires height <= MAX_PATH && MaxIndex(height) < index <= ULONG_MAX
    ensures height < target <= MAX_PATH && target == Least(height, index)
  {
    target := height + 1;
    while index > MaxIndex(target)
      invariant height < target <= MAX_PATH && Least(height, index) == Least(target, index)
      decreases MAX_PATH - target
    {
      target := target + 1;
    }
  }

  class RadixTreeRoot {
    var h: Arena
    var rnode: Ptr
    var height: nat
    /** All pointers from here on are free. */
    var brk: Ptr
    ghost var pos: map<Ptr, Path>

    ghost predicate Linked()
      reads this
    {
      Wf(h, pos, rnode, height) && height <= MAX_PATH && brk > 0 && forall p <- h :: p < brk
    }

    ghost function View(): (r: Root)
      reads this
    {
      Root(height, Abs(h, rnode, height))
    }

    ghost predicate Valid()
      reads this
    {
      Linked() && Radix.Valid(View())
    }

    constructor ()
      ensures Valid() && forall index: nat :: Lookup(View(), index) == 0
    {
      h, rnode, height, brk, pos := map[], 0, 0, 1, map[];
      new;
      forall index: nat ensures Lookup(View(), index) == 0 { GetEmpty(PathOf(index, 0)); }
    }

    /** One level down: what the node holds for the key, 0 when the key is absent. */
    method Below(index: nat, ht: nat, node: Ptr) returns (slot: Ptr)
      requires Linked() && 0 < ht <= height && node in h && node in pos
        && pos[node] == PathOf(index, height)[..height - ht]
      requires PathOf(index, height)[height - ht..] == PathOf(index, ht)
      ensures Get(Abs(h, slot, ht - 1), PathOf(index, ht - 1)) == Get(Abs(h, node, ht), PathOf(index, ht))
      ensures slot == 0 ==> Get(Abs(h, node, ht), PathOf(index, ht)) == 0
      ensures slot != 0 && ht > 1 ==> slot in h && slot in pos && pos[slot] == PathOf(index, height)[..height - ht + 1]
      ensures PathOf(index, height)[height - ht + 1..] == PathOf(index, ht - 1)
    {
      ghost var path := PathOf(index, height);
      GetLive(h, pos, rnode, height, node);
      PathHead(index, ht);
      var d := Digit(index, ht);
      slot := h[node].slots[d];
      assert PathOf(index, ht)[1..] == PathOf(index, ht - 1);
      assert path[..height - ht + 1] == path[..height - ht] + [d];
      if slot == 0 {
        GetEmpty(PathOf(index, ht - 1));
      }
    }

    /** __radix_tree_lookup(): the item, and the node that holds it. */
    method LookupNode(index: nat) returns (v: nat, node: Ptr)
      requires Linked() && (height > 0 ==> rnode != 0)
      ensures v == Lookup(View(), index)
      ensures v != 0 && height > 0 ==> node in h && node in pos && pos[node] == PathOf(index, height)[..height - 1]
      ensures height == 0 ==> node == 0
    {
      v, node := 0, 0;
      if rnode == 0 {
        GetEmpty(PathOf(index, 0));
        return;
      }
      if height == 0 {
        if index > 0 {
          return;
        }
        return rnode, 0;
      }
      if index > MaxIndex(height) {
        return;
      }
      var ht, slot := height, rnode;
      ghost var path := PathOf(index, height);
      while ht > 0
        invariant 0 <= ht <= height
        invariant ht < height ==> node in h && node in pos && pos[node] == path[..height - ht - 1]
        invariant ht > 0 ==> slot in h && slot in pos && pos[slot] == path[..height - ht]
        invariant slot != 0 && Get(Abs(h, slot, ht), PathOf(index, ht)) == Get(Abs(h, rnode, height), path)
        invariant path[height - ht..] == PathOf(index, ht)
      {
        node := slot;
        slot := Below(index, ht, node);
        if slot == 0 {
          return 0, 0;
        }
        ht := ht - 1;
      }
      v := slot;
    }

    /** radix_tree_extend() */
    method Extend(index: nat)
      requires Linked() && MaxIndex(height) < index <= ULONG_MAX
      modifies this
      ensures Linked() && View() == Radix.Extend(old(View()), Least(old(height), index))
      ensures old(rnode) != 0 ==> rnode != 0
    {
      var target := FindHeight(height, index);
      if rnode == 0 {
        height := target;
      } else {
        GrowTo(target);
      }
    }

    /** New roots up to the height wanted. */
    method GrowTo(target: nat)
      requires Linked() && rnode != 0 && height <= target <= MAX_PATH
      modifies this
      ensures Linked() && rnode != 0 && View() == Radix.Extend(old(View()), target)
    {
      ghost var r0 := View();
      while height < target
        invariant Linked() && rnode != 0 && height <= target && Radix.Extend(View(), target) == Radix.Extend(r0, target)
        decreases target - height
      {
        ExtendOnce();
      }
    }

    /** A new root above the old one. */
    method ExtendOnce()
      requires Linked() && rnode != 0 && height < MAX_PATH
      modifies this
      ensures Linked() && rnode != 0 && View() == Root(old(height) + 1, Wrap(old(View()).rnode))
    {
      var n := brk;
      ExtendWf(h, pos, rnode, height, n);
      ExtendAbs(h, pos, rnode, height, n);
      pos := ExtendPos(h, pos, n);
      h := ExtendArena(h, rnode, height, n);
      rnode, height, brk := n, height + 1, brk + 1;
    }

    /** radix_tree_node_alloc() for the first node of a tree. */
    method AllocRoot()
      requires Linked() && rnode == 0 && height > 0
      modifies this
      ensures Linked() && height == old(height) && View().rnode == Node(NewSlots())
      ensures rnode in h && rnode in pos && pos[rnode] == [] && h[rnode].slots == Zeros()
    {
      var n := brk;
      FirstWf(height, n);
      h, pos := map[n := TreeNode(height, 0, 0, 0, Zeros())], map[n := []];
      rnode, brk := n, brk + 1;
      assert Abs(h, rnode, height).slots == NewSlots();
    }

    /** radix_tree_node_alloc() for a child of node. */
    method AllocChild(node: Ptr, offset: nat) returns (n: Ptr)
      requires Linked() && node in h && node in pos && h[node].height > 1 && offset < MAP_SIZE
      requires |h[node].slots| == MAP_SIZE && h[node].slots[offset] == 0 && rnode != 0
      modifies this
      ensures Linked() && height == old(height) && rnode == old(rnode) && node in pos && pos[node] == old(pos)[node]
      ensures View().rnode == Replace(old(View()).rnode, old(pos)[node] + [offset], Node(NewSlots()))
      ensures n in h && n in pos && pos[n] == pos[node] + [offset] && h[n].slots == Zeros() && n != 0
    {
      n := brk;
      ChildAbs(h, pos, rnode, height, node, offset, n);
      pos := pos[n := pos[node] + [offset]];
      h := h[node := WithSlot(h[node], offset, n)][n := TreeNode(h[node].height - 1, offset, node, 0, Zeros())];
      brk := brk + 1;
    }

    /** Where the descent to a key has got to: slot is what the last node on the path holds for it. */
    ghost predicate Reached(path: Path, k: nat, node: Ptr, offset: nat, slot: Ptr)
      reads this
    {
      && |path| == height && k <= height && Digits(path)
      && (if k == 0 then node == 0 && slot == rnode else
          && rnode != 0 && node in h && node in pos && |h[node].slots| == MAP_SIZE
          && pos[node] == path[..k - 1] && offset == path[k - 1] && slot == h[node].slots[offset])
    }

    /** Go a level down: make the node for slot if there is none. */
    method MakeNode(node: Ptr, offset: nat, slot: Ptr, ghost path: Path, ghost k: nat) returns (child: Ptr)
      requires Linked() && Reached(path, k, node, offset, slot) && k < height
      modifies this
      ensures Linked() && height == old(height) && rnode != 0
      ensures child in h && child in pos && pos[child] == path[..k]
      ensures SamePuts(old(View()).rnode, View().rnode, path)
      ensures slot != 0 ==> View() == old(View()) && child == slot && h == old(h)
      ensures slot == 0 ==> h[child].slots == Zeros()
    {
      child := slot;
      assert k > 0 ==> path[..k] == path[..k - 1] + [path[k - 1]];
      if k > 0 {
        GetLive(h, pos, rnode, height, node);
      }
      if slot == 0 {
        ghost var (a, b, s) := (path[..k], path[k..], View().rnode);
        assert a + b == path;
        if node != 0 {
          GetLive(h, pos, rnode, height, rnode);
          AtSlot(h, pos, rnode, height, node, offset);
          child := AllocChild(node, offset);
        } else {
          AllocRoot();
          child := rnode;
        }
        assert View().rnode == Replace(s, a, Node(NewSlots()));
        forall v: nat ensures Put(View().rnode, path, v) == Put(s, path, v) { PutFresh(s, a, b, v); }
      }
    }

    /** One turn of the loop of __radix_tree_create(). */
    method Down(index: nat, ht: nat, node0: Ptr, offset0: nat, slot0: Ptr, ghost path: Path)
      returns (node: Ptr, offset: nat, slot: Ptr)
      requires Linked() && 0 < ht <= height && Reached(path, height - ht, node0, offset0, slot0)
        && path[height - ht..] == PathOf(index, ht)
      modifies this
      ensures Linked() && height == old(height) && Reached(path, height - ht + 1, node, offset, slot)
        && path[height - ht + 1..] == PathOf(index, ht - 1)
      ensures SamePuts(old(View()).rnode, View().rnode, path)
      ensures Get(Abs(h, slot, ht - 1), PathOf(index, ht - 1)) == old(Get(Abs(h, slot0, ht), PathOf(index, ht)))
      ensures slot0 != 0 ==> View() == old(View())
    {
      GetEmpty(PathOf(index, ht));
      GetEmpty(PathOf(index, ht - 1));
      var child := MakeNode(node0, offset0, slot0, path, height - ht);
      GetLive(h, pos, rnode, height, child);
      PathHead(index, ht);
      node, offset := child, Digit(index, ht);
      slot := h[node].slots[offset];
      assert path[height - ht] == offset;
      assert PathOf(index, ht)[1..] == PathOf(index, ht - 1);
    }

    /** The loop of __radix_tree_create(): the slot for a key, with the nodes on the way. */
    method Descend(index: nat) returns (node: Ptr, offset: nat, slot: Ptr)
      requires Linked() && index <= MaxIndex(height)
      modifies this
      ensures Linked() && height == old(height) && Reached(PathOf(index, height), height, node, offset, slot)
      ensures SamePuts(old(View()).rnode, View().rnode, PathOf(index, height))
      ensures slot == Lookup(old(View()), index) && (slot != 0 ==> View() == old(View()))
    {
      node, offset, slot := 0, 0, rnode;
      var ht := height;
      ghost var r0 := View();
      WayStarts(index);
      while ht > 0
        invariant 0 <= ht <= height == old(height) && OnWay(index, ht, node, offset, slot, r0)
      {
        node, offset, slot := DownOn(index, ht, node, offset, slot, r0);
        ht := ht - 1;
      }
      WayEnds(index, node, offset, slot, r0);
    }

    /** Where the loop stands: the nodes made so far change nothing but for the key to come. */
    ghost predicate OnWay(index: nat, ht: nat, node: Ptr, offset: nat, slot: Ptr, r0: Root)
      reads this
    {
      && Linked() && ht <= height == r0.height && Reached(PathOf(index, height), height - ht, node, offset, slot)
      && SamePuts(r0.rnode, View().rnode, PathOf(index, height))
      && Get(Abs(h, slot, ht), PathOf(index, ht)) == Lookup(r0, index) && (Lookup(r0, index) != 0 ==> View() == r0)
    }

    lemma {:induction false} WayStarts(index: nat)
      requires Linked() && index <= MaxIndex(height)
      ensures OnWay(index, height, 0, 0, rnode, View())
    {
    }

    lemma {:induction false} WayEnds(index: nat, node: Ptr, offset: nat, slot: Ptr, r0: Root)
      requires OnWay(index, 0, node, offset, slot, r0)
      ensures Reached(PathOf(index, height), height, node, offset, slot) && slot == Lookup(r0, index)
    {
    }

    method DownOn(index: nat, ht: nat, node0: Ptr, offset0: nat, slot0: Ptr, ghost r0: Root)
      returns (node: Ptr, offset: nat, slot: Ptr)
      requires 0 < ht && OnWay(index, ht, node0, offset0, slot0, r0)
      modifies this
      ensures height == old(height) && OnWay(index, ht - 1, node, offset, slot, r0)
    {
      GetEmpty(PathOf(index, ht));
      PathTail(index, height, ht);
      ghost var s := View().rnode;
      node, offset, slot := Down(index, ht, node0, offset0, slot0, PathOf(index, height));
      SamePutsOn(r0.rnode, s, View().rnode, PathOf(index, height));
    }

    /** Store an item in the slot found for a key. */
    method StoreItem(index: nat, node: Ptr, offset: nat, item: nat)
      requires Linked() && item != 0 && Reached(PathOf(index, height), height, node, offset, 0)
      modifies this
      ensures Linked() && View() == Root(old(height), Put(old(View()).rnode, PathOf(index, height), item))
    {
      if height > 0 {
        GetLive(h, pos, rnode, height, node);
      }
      if node != 0 {
        ghost var path := PathOf(index, height);
        GetLive(h, pos, rnode, height, rnode);
        ItemWf(h, pos, rnode, height, node, offset, item);
        assert pos[node] + [offset] == path;
        AtAbs(h, pos, rnode, height, rnode, node, pos[node]);
        PutStore(Abs(h, rnode, height), pos[node], offset, item);
        ghost var h' := h[node := WithSlot(h[node], offset, item)];
        StoreAbs(h, h', pos, rnode, height, rnode, node, offset, item, path);
        h := h[node := WithSlot(h[node], offset, item)];
      } else {
        rnode := item;
      }
    }

    /** radix_tree_insert(); false stands for -EEXIST */
    method Insert(index: nat, item: nat) returns (ok: bool)
      requires Valid() && index <= ULONG_MAX && item != 0
      modifies this
      ensures Valid() && (ok <==> Lookup(old(View()), index) == 0)
      ensures !ok ==> View() == old(View())
      ensures ok ==> View() == Radix.Insert(old(View()), index, item)
      ensures forall j: nat :: j <= ULONG_MAX ==> Lookup(View(), j) == if ok && j == index then item
        else Lookup(old(View()), j)
    {
      ghost var r0 := View();
      Radix.InsertOk(r0, index, item);
      if index > MaxIndex(height) {
        ExtendOk(r0, Least(height, index));
        Extend(index);
      }
      var node, offset, slot := Descend(index);
      if slot != 0 {
        return false;
      }
      StoreItem(index, node, offset, item);
      ok := true;
    }

    /** One round of radix_tree_shrink(). */
    method ShrinkOnce()
      requires Linked() && height > 0 && rnode in h && OnlyFirst(h[rnode].slots)
      modifies this
      ensures Linked() && rnode != 0 && height == old(height) - 1 && old(View()).rnode.Node?
        && old(View()).rnode.slots != []
      ensures View().rnode == old(View()).rnode.slots[0]
    {
      ShrinkWf(h, pos, rnode, height);
      var c := h[rnode].slots[0];
      pos := ShrinkPos(h, pos, rnode);
      h := ShrinkArena(h, rnode, height);
      rnode, height := c, height - 1;
    }

    /** radix_tree_shrink() */
    method Shrink()
      requires Linked() && (height > 0 ==> rnode != 0)
      modifies this
      ensures Linked() && View() == Radix.Shrink(old(View())) && (old(rnode) != 0 ==> rnode != 0)
    {
      ghost var r0 := View();
      while height > 0
        invariant Linked() && (height > 0 ==> rnode != 0) && Radix.Shrink(View()) == Radix.Shrink(r0)
          && (old(rnode) != 0 ==> rnode != 0)
        decreases height
      {
        GetLive(h, pos, rnode, height, rnode);
        var n := h[rnode];
        CountOne(n.slots);
        SlotsInUse(h, pos, rnode, height, rnode);
        if n.count != 1 || n.slots[0] == 0 {
          break;
        }
        ShrinkOnce();
      }
    }

    /** Free an empty node: its parent loses the slot. */
    method FreeChild(node: Ptr)
      requires Linked() && rnode != 0 && Live(h, pos, rnode, height, node) && h[node].count == 0 && pos[node] != []
      modifies this`h
      ensures Linked() && View().rnode == Replace(old(View()).rnode, pos[node], Empty)
      ensures old(h[node].parent) in h && old(h[node].parent) in pos
        && pos[old(h[node].parent)] == pos[node][..|pos[node]| - 1]
    {
      var (parent, offset) := (h[node].parent, h[node].offset);
      GetLive(h, pos, rnode, height, parent);
      GetLive(h, pos, rnode, height, rnode);
      FreeWf(h, pos, rnode, height, parent, offset, node);
      ghost var h' := h[parent := WithSlot(h[parent], offset, 0)] - {node};
      StoreAbs(h, h', pos, rnode, height, rnode, parent, offset, 0, pos[node]);
      h := h[parent := WithSlot(h[parent], offset, 0)];
      h := h - {node};
    }

    /** A node still in use ends the walk; the root may be too high then. */
    method StopAt(node: Ptr)
      requires Linked() && height > 0 && rnode != 0 && node in h && node in pos && h[node].count != 0
      requires node != rnode ==> Tall(View().rnode)
      modifies this
      ensures Linked() && (height > 0 ==> rnode != 0)
      ensures View() == Pruned(old(View()), old(pos)[node])
    {
      GetLive(h, pos, rnode, height, node);
      GetLive(h, pos, rnode, height, rnode);
      AtAbs(h, pos, rnode, height, rnode, node, pos[node]);
      SlotsInUse(h, pos, rnode, height, node);
      PruneStops(View().rnode, pos[node]);
      if node == rnode {
        Shrink();
      }
    }

    /** __radix_tree_delete_node(): free what the cleared slot leaves empty, then shrink. */
    method DeleteNode(node0: Ptr)
      requires Linked() && height > 0 && rnode != 0 && node0 in h && node0 in pos
      requires node0 != rnode ==> Tall(View().rnode)
      modifies this
      ensures Linked() && (height > 0 ==> rnode != 0)
      ensures View() == Pruned(old(View()), old(pos)[node0])
    {
      var node := node0;
      ghost var (r0, path) := (View(), pos[node0]);
      while true
        invariant Linked() && height > 0 && rnode != 0 && node in h && node in pos
        invariant node != rnode ==> Tall(View().rnode)
        invariant Pruned(View(), pos[node]) == Pruned(r0, path)
        decreases |pos[node]|
      {
        if h[node].count != 0 {
          StopAt(node);
          return;
        }
        GetLive(h, pos, rnode, height, node);
        GetLive(h, pos, rnode, height, rnode);
        AtAbs(h, pos, rnode, height, rnode, node, pos[node]);
        SlotsInUse(h, pos, rnode, height, node);
        var parent := h[node].parent;
        if pos[node] != [] {
          GetLive(h, pos, rnode, height, parent);
          PruneParent(h, pos, rnode, height, node);
        }
        if parent == 0 {
          h, rnode, height, pos := map[], 0, 0, map[];
          return;
        }
        FreeChild(node);
        node := parent;
      }
    }

    /** Clear the slot of a key in its node. */
    method ClearSlot(index: nat, node: Ptr)
      requires Linked() && height > 0 && rnode != 0 && node in h && node in pos
        && pos[node] == PathOf(index, height)[..height - 1]
      modifies this`h
      ensures Linked() && node in h && View().rnode == Replace(old(View()).rnode, PathOf(index, height), Empty)
      ensures PruneUp(View().rnode, pos[node]) == Del(old(View()).rnode, PathOf(index, height))
    {
      ghost var (path, s) := (PathOf(index, height), View().rnode);
      GetLive(h, pos, rnode, height, node);
      GetLive(h, pos, rnode, height, rnode);
      var offset := index % 64;
      assert path == pos[node] + [offset];
      ItemWf(h, pos, rnode, height, node, offset, 0);
      AtAbs(h, pos, rnode, height, rnode, node, pos[node]);
      DelIsPrune(s, pos[node], offset);
      StoreAbs(h, h[node := WithSlot(h[node], offset, 0)], pos, rnode, height, rnode, node, offset, 0, path);
      h := h[node := WithSlot(h[node], offset, 0)];
    }

    /** Clear the slot of a key in its node, then tidy up. */
    method DeleteAt(index: nat, node: Ptr)
      requires Linked() && height > 0 && rnode != 0 && Tall(View().rnode) && index <= MaxIndex(height)
      requires node in h && node in pos && pos[node] == PathOf(index, height)[..height - 1]
      modifies this
      ensures Linked() && View() == Radix.Delete(old(View()), index)
    {
      ghost var s := View().rnode;
      if node != rnode {
        GetLive(h, pos, rnode, height, node);
        assert height >= 2;
        TallDeep(s, PathOf(index, height), Empty);
      }
      ClearSlot(index, node);
      DeleteNode(node);
    }

    /** radix_tree_delete_item(); item 0 stands for any. Returns the deleted item, 0 if none. */
    method DeleteItem(index: nat, item: nat) returns (v: nat)
      requires Valid() && index <= ULONG_MAX
      modifies this
      ensures Valid()
      ensures var found := Lookup(old(View()), index); v == if item == 0 || found == item then found else 0
      ensures View() == if v != 0 then Radix.Delete(old(View()), index) else old(View())
      ensures forall j: nat :: j <= ULONG_MAX ==> Lookup(View(), j) == if v != 0 && j == index then 0
        else Lookup(old(View()), j)
    {
      ghost var r0 := View();
      Radix.DeleteOk(r0, index);
      var entry, node := LookupNode(index);
      if entry == 0 || (item != 0 && entry != item) {
        return 0;
      }
      if height > 0 {
        GetLive(h, pos, rnode, height, node);
      }
      if node == 0 {
        rnode := 0;
        h, pos := map[], map[];
      } else {
        DeleteAt(index, node);
      }
      return entry;
    }
  }

  /** A tree pruned along a path, and made no higher than it need be. */
  function Pruned(r: Root, path: Path): (r': Root) {
    var d := PruneUp(r.rnode, path);
    if d == Empty then Root(0, Empty) else Radix.Shrink(Root(r.height, d))
  }

  lemma {:induction false} TallDeep(s: Slot, path: Path, t: Slot)
    requires Tall(s) && |path| >= 2
    ensures Tall(Replace(s, path, t))
  {
    var i :| 0 < i < |s.slots| && s.slots[i] != Empty;
    assert Replace(s, path, t).slots[i] != Empty;
  }

  /** Freeing an empty node is one step of pruning. */
  lemma {:induction false} PruneParent(h: Arena, pos: map<Ptr, Path>, rnode: Ptr, top: nat, node: Ptr)
    requires Wf(h, pos, rnode, top) && Live(h, pos, rnode, top, rnode) && Live(h, pos, rnode, top, node)
      && pos[node] != []
    requires h[node].count == 0 && Live(h, pos, rnode, top, h[node].parent)
    ensures var (s, q) := (Abs(h, rnode, top), h[node].parent);
      && q != 0 && PruneUp(s, pos[node]) == PruneUp(Replace(s, pos[node], Empty), pos[q])
      && (q != rnode && Tall(s) ==> Tall(Replace(s, pos[node], Empty)))
  {
    var (s, q, d) := (Abs(h, rnode, top), h[node].parent, h[node].offset);
    AtAbs(h, pos, rnode, top, rnode, node, pos[node]);
    AtAbs(h, pos, rnode, top, rnode, q, pos[q]);
    SlotsInUse(h, pos, rnode, top, node);
    SlotsInUse(h, pos, rnode, top, q);
    PruneStep(s, pos[q], d);
    if q != rnode && Tall(s) {
      assert pos[q] != [];
      TallDeep(s, pos[node], Empty);
    }
  }

  /** A slot of a node is in use exactly when its subtree is not empty. */
  lemma {:induction false} SlotsInUse(h: Arena, pos: map<Ptr, Path>, rnode: Ptr, top: nat, p: Ptr)
    requires Wf(h, pos, rnode, top) && Live(h, pos, rnode, top, p)
    ensures var s := Abs(h, p, h[p].height);
      && s.Node? && |s.slots| == MAP_SIZE
        && (forall i :: 0 <= i < MAP_SIZE ==> (s.slots[i] != Empty <==> h[p].slots[i] != 0))
      && (Some(s.slots) <==> h[p].count != 0) && (OnlyFirst(h[p].slots) <==> s.slots[0] != Empty && !Tall(s))
  {
    var s := Abs(h, p, h[p].height);
    CountZero(h[p].slots);
    forall i | 0 <= i < MAP_SIZE ensures s.slots[i] != Empty <==> h[p].slots[i] != 0 {
      assert s.slots[i] == Abs(h, h[p].slots[i], h[p].height - 1);
      if h[p].height > 1 && h[p].slots[i] != 0 {
        GetLive(h, pos, rnode, top, h[p].slots[i]);
      }
    }
    if h[p].count != 0 {
      var i :| 0 <= i < MAP_SIZE && h[p].slots[i] != 0;
      assert s.slots[i] != Empty;
    }
    if i :| 0 < i < MAP_SIZE && h[p].slots[i] != 0 {
      assert s.slots[i] != Empty;
    }
  }

  /** The subtree in an empty slot is empty. */
  lemma {:induction false} AtSlot(h: Arena, pos: map<Ptr, Path>, rnode: Ptr, top: nat, q: Ptr, d: nat)
    requires Wf(h, pos, rnode, top) && Live(h, pos, rnode, top, rnode) && Live(h, pos, rnode, top, q) && d < MAP_SIZE
    ensures At(Abs(h, rnode, top), pos[q] + [d]) == Abs(h, h[q].slots[d], h[q].height - 1)
  {
    assert pos[rnode] == [] && pos[q] == [] + pos[q];
    AtAbs(h, pos, rnode, top, rnode, q, pos[q]);
    AtLast(Abs(h, rnode, top), pos[q], d);
  }

  lemma {:induction false} AtLast(s: Slot, a: Path, d: nat)
    requires At(s, a).Node? && d < |At(s, a).slots|
    ensures At(s, a + [d]) == At(s, a).slots[d]
    decreases |a|
  {
    if a == [] {
      assert a + [d] == [d] && [d][1..] == [];
    } else {
      assert (a + [d])[1..] == a[1..] + [d];
      AtLast(s.slots[a[0]], a[1..], d);
    }
  }
}
