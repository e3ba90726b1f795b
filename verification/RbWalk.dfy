/** Walking a red-black tree without recursion: rb_first(), rb_last(), rb_next(), rb_prev() (lib/rbtree.c).
    Direction R gives rb_first() and rb_next(), direction L their mirror images. */
module RbWalk {
  import opened Basics
  import opened RbTree
  import opened RbHeap

  /** The nodes of a tree towards side d. */
  function Along(d: Dir, t: Tree): (s: seq<Ptr>) {
    if t.Nil? then [] else Along(d, Sub(t, Opp(d))) + [t.id] + Along(d, Sub(t, d))
  }

  /** What comes after the hole of a context. */
  function After(d: Dir, k: Ctx): (s: seq<Ptr>)
    decreases k
  {
    if k.Top? then [] else if k.d == d then After(d, k.up) else [k.id] + Along(d, k.sib) + After(d, k.up)
  }

  /** What comes before it. */
  function Before(d: Dir, k: Ctx): (s: seq<Ptr>)
    decreases k
  {
    if k.Top? then [] else if k.d == d then Before(d, k.up) + (Along(d, k.sib) + [k.id]) else Before(d, k.up)
  }

  /** The walk after the node in hand. */
  function Rest(d: Dir, t: Tree, k: Ctx): (s: seq<Ptr>)
    requires t.T?
  {
    Along(d, Sub(t, d)) + After(d, k)
  }

  lemma {:induction false} Assoc4(p: seq<Ptr>, a: seq<Ptr>, x: seq<Ptr>, s: seq<Ptr>, z: seq<Ptr>)
    ensures p + (a + x + s) + z == p + a + (x + s + z)
  {
    Regroup(a, x, s);
    Regroup(p, a, x + s);
    Regroup(p + a, x + s, z);
  }

  lemma {:induction false} AlongInOrder(t: Tree)
    ensures Along(R, t) == InOrder(t)
  {
    if t.T? {
      AlongInOrder(t.l);
      AlongInOrder(t.r);
    }
  }

  function Reverse(s: seq<Ptr>): (r: seq<Ptr>) { if s == [] then [] else Reverse(s[1..]) + [s[0]] }

  lemma {:induction false} ReverseJoin(a: seq<Ptr>, b: seq<Ptr>)
    ensures Reverse(a + b) == Reverse(b) + Reverse(a)
  {
    if a == [] {
      assert a + b == b;
    } else {
      assert (a + b)[1..] == a[1..] + b;
      ReverseJoin(a[1..], b);
      Regroup(Reverse(b), Reverse(a[1..]), [a[0]]);
    }
  }

  /** rb_prev() goes through the same nodes backwards. */
  lemma {:induction false} AlongReversed(t: Tree)
    ensures Along(L, t) == Reverse(InOrder(t))
  {
    if t.T? {
      AlongReversed(t.l);
      AlongReversed(t.r);
      ReverseJoin(InOrder(t.l) + [t.id], InOrder(t.r));
      ReverseJoin(InOrder(t.l), [t.id]);
      assert Reverse([t.id]) == [t.id];
      Regroup(Reverse(InOrder(t.r)), [t.id], Reverse(InOrder(t.l)));
    }
  }

  lemma {:induction false} AlongZip(d: Dir, t: Tree, k: Ctx)
    ensures Along(d, Zip(t, k)) == Before(d, k) + Along(d, t) + After(d, k)
    decreases k
  {
    if k.Step? {
      var m := Mk(k.d, t, k.id, k.sib, k.c);
      AlongZip(d, m, k.up);
      var (a, s, x, z) := (Along(d, t), Along(d, k.sib), [k.id], After(d, k.up));
      if k.d == d {
        assert Along(d, m) == s + x + a;
        Regroup(Before(d, k.up), s + x, a);
      } else {
        assert Along(d, m) == a + x + s;
        Assoc4(Before(d, k.up), a, x, s, z);
      }
    }
  }

  /** A step down on the near side keeps the walk: the node left behind comes next. */
  lemma {:induction false} DownNear(d: Dir, t: Tree, k: Ctx)
    requires t.T?
    ensures var k' := Step(k, Opp(d), t.id, t.c, Sub(t, d));
      Along(d, Sub(t, Opp(d))) + After(d, k') == Along(d, t) + After(d, k)
    ensures Zip(Sub(t, Opp(d)), Step(k, Opp(d), t.id, t.c, Sub(t, d))) == Zip(t, k)
  {
    var (a, x, b, z) := (Along(d, Sub(t, Opp(d))), [t.id], Along(d, Sub(t, d)), After(d, k));
    assert a + (x + b + z) == a + x + b + z;
    assert Mk(Opp(d), Sub(t, Opp(d)), t.id, Sub(t, d), t.c) == t;
  }

  lemma {:induction false} DownFar(d: Dir, t: Tree, k: Ctx)
    requires t.T?
    ensures After(d, Step(k, d, t.id, t.c, Sub(t, Opp(d)))) == After(d, k)
    ensures Zip(Sub(t, d), Step(k, d, t.id, t.c, Sub(t, Opp(d)))) == Zip(t, k)
  {
    assert Mk(d, Sub(t, d), t.id, Sub(t, Opp(d)), t.c) == t;
  }

  /** The walk from a node without a near child starts there. */
  lemma {:induction false} NoNear(d: Dir, t: Tree, k: Ctx)
    requires t.T? && Sub(t, Opp(d)).Nil?
    ensures Along(d, t) + After(d, k) == [t.id] + Rest(d, t, k)
  {
    assert [] + [t.id] == [t.id];
    Regroup([t.id], Along(d, Sub(t, d)), After(d, k));
  }

  /** Going up from the near side, the parent comes next. */
  lemma {:induction false} UpNear(d: Dir, t: Tree, k: Ctx)
    requires k.Step? && k.d != d
    ensures var m := Mk(k.d, t, k.id, k.sib, k.c); After(d, k) == [k.id] + Rest(d, m, k.up) && m.T? && m.id == k.id
  {
    Regroup([k.id], Along(d, k.sib), After(d, k.up));
  }

  /** What the arena says at a node. */
  lemma {:induction false} NodeReads(h: Heap, root: Ptr, t: Tree, k: Ctx, d: Dir)
    requires Shape(h, root, t, k) && t.T?
    ensures t.id in h && t.id != 0 && h[t.id].parent == KId(k) != t.id
    ensures Kid(h[t.id], d) == Id(Sub(t, d)) && (Kid(h[t.id], d) == 0 <==> Sub(t, d).Nil?)
  {
    IdsIn(h, t, KId(k));
    KIdsIn(h, root, k, t.id);
    if Sub(t, d).T? { assert Sub(t, d).id in Ids(t); }
  }

  /** What it says at the parent. */
  lemma {:induction false} ParentReads(h: Heap, root: Ptr, t: Tree, k: Ctx, d: Dir)
    requires Shape(h, root, t, k) && t.T?
    ensures KId(k) == 0 <==> k.Top?
    ensures k.Step? ==> k.id in h && (Kid(h[k.id], d) == t.id <==> k.d == d)
  {
    KIdsIn(h, root, k, t.id);
    if k.Step? && k.sib.T? {
      IdsIn(h, k.sib, k.id);
      assert k.sib.id in KIds(k) && t.id in Ids(t);
    }
  }

  /** The node the walk is at: t in its place k of the tree w. */
  ghost predicate InHand(h: Heap, root: Ptr, n: Ptr, t: Tree, k: Ctx, w: Tree) {
    Shape(h, root, t, k) && t.T? && t.id == n && Zip(t, k) == w
  }

  /** Down the near side as far as it goes; the loop of rb_first() and of rb_next(). */
  method GoDown(h: Heap, n0: Ptr, d: Dir, ghost root: Ptr, ghost t: Tree, ghost k: Ctx, ghost w: Tree)
    returns (n: Ptr, ghost t': Tree, ghost k': Ctx)
    requires InHand(h, root, n0, t, k, w)
    ensures InHand(h, root, n, t', k', w) && Along(d, t) + After(d, k) == [n] + Rest(d, t', k')
  {
    n, t', k' := n0, t, k;
    NodeReads(h, root, t', k', Opp(d));
    while Kid(h[n], Opp(d)) != 0
      invariant InHand(h, root, n, t', k', w) && n in h && (Kid(h[n], Opp(d)) == 0 <==> Sub(t', Opp(d)).Nil?)
      invariant Kid(h[n], Opp(d)) == Id(Sub(t', Opp(d)))
      invariant Along(d, t') + After(d, k') == Along(d, t) + After(d, k)
      decreases t'
    {
      DownNear(d, t', k');
      ghost var k1 := Step(k', Opp(d), t'.id, t'.c, Sub(t', d));
      ShapeDown(h, root, Sub(t', Opp(d)), k1);
      n := Kid(h[n], Opp(d));
      t', k' := Sub(t', Opp(d)), k1;
      NodeReads(h, root, t', k', Opp(d));
    }
    NoNear(d, t', k');
  }

  /** rb_first() for direction R, rb_last() for L. */
  method First(h: Heap, root: Ptr, d: Dir, ghost w: Tree) returns (n: Ptr, ghost t: Tree, ghost k: Ctx)
    requires Shape(h, root, w, Top)
    ensures w.Nil? ==> n == 0
    ensures w.T? ==> InHand(h, root, n, t, k, w) && Along(d, w) == [n] + Rest(d, t, k)
  {
    n, t, k := root, w, Top;
    if n == 0 {
      if w.T? { NodeReads(h, root, w, Top, d); }
      return;
    }
    n, t, k := GoDown(h, n, d, root, w, Top, w);
    assert Along(d, w) + [] == Along(d, w);
  }

  /** Up past every parent on whose far side the node hangs: the loop of rb_next(). */
  method GoUp(h: Heap, n0: Ptr, d: Dir, ghost root: Ptr, ghost t0: Tree, ghost k0: Ctx, ghost w: Tree)
    returns (n: Ptr, ghost t': Tree, ghost k': Ctx)
    requires InHand(h, root, n0, t0, k0, w)
    ensures After(d, k0) == [] ==> n == 0
    ensures After(d, k0) != [] ==> InHand(h, root, n, t', k', w) && After(d, k0) == [n] + Rest(d, t', k')
  {
    ghost var t, k := t0, k0;
    n := n0;
    NodeReads(h, root, t, k, d);
    ParentReads(h, root, t, k, d);
    while h[n].parent != 0 && n == Kid(h[h[n].parent], d)
      invariant InHand(h, root, n, t, k, w) && n in h && h[n].parent == KId(k) && After(d, k) == After(d, k0)
      invariant (KId(k) == 0 <==> k.Top?) && (k.Step? ==> k.id in h && (Kid(h[k.id], d) == n <==> k.d == d))
      decreases k
    {
      ShapeUp(h, root, t, k);
      n := h[n].parent;
      t, k := Mk(k.d, t, k.id, k.sib, k.c), k.up;
      NodeReads(h, root, t, k, d);
      ParentReads(h, root, t, k, d);
    }
    n := h[n].parent;
    t', k' := t, k;
    if k.Step? {
      UpNear(d, t, k);
      ShapeUp(h, root, t, k);
      t', k' := Mk(k.d, t, k.id, k.sib, k.c), k.up;
    }
  }

  /** rb_next() for direction R, rb_prev() for L: the node after n on the walk, NULL after the last. */
  method Next(h: Heap, n0: Ptr, d: Dir, ghost root: Ptr, ghost t: Tree, ghost k: Ctx, ghost w: Tree)
    returns (n: Ptr, ghost t': Tree, ghost k': Ctx)
    requires n0 in h && (h[n0].parent != n0 ==> InHand(h, root, n0, t, k, w))
    ensures h[n0].parent == n0 ==> n == 0
    ensures h[n0].parent != n0 && Rest(d, t, k) == [] ==> n == 0
    ensures h[n0].parent != n0 && Rest(d, t, k) != [] ==>
      InHand(h, root, n, t', k', w) && Rest(d, t, k) == [n] + Rest(d, t', k')
  {
    t', k' := t, k;
    if h[n0].parent == n0 {
      return 0, t', k';
    }
    NodeReads(h, root, t, k, d);
    if Kid(h[n0], d) != 0 {
      DownFar(d, t, k);
      ghost var k1 := Step(k, d, t.id, t.c, Sub(t, Opp(d)));
      ShapeDown(h, root, Sub(t, d), k1);
      n, t', k' := GoDown(h, Kid(h[n0], d), d, root, Sub(t, d), k1, w);
    } else {
      assert Rest(d, t, k) == After(d, k);
      n, t', k' := GoUp(h, n0, d, root, t, k, w);
    }
  }

  /** From the first node, next by next, the walk visits every node once and in order. */
  method ForEach(h: Heap, root: Ptr, d: Dir, ghost w: Tree) returns (out: seq<Ptr>)
    requires Shape(h, root, w, Top)
    ensures out == if d == R then InOrder(w) else Reverse(InOrder(w))
  {
    out := [];
    ghost var t, k;
    var n: Ptr;
    n, t, k := First(h, root, d, w);
    if d == R { AlongInOrder(w); } else { AlongReversed(w); }
    while n != 0
      invariant n != 0 ==> InHand(h, root, n, t, k, w) && out + ([n] + Rest(d, t, k)) == Along(d, w)
      invariant n == 0 ==> out == Along(d, w)
      decreases if n == 0 then 0 else 1 + |Rest(d, t, k)|
    {
      NodeReads(h, root, t, k, d);
      Regroup(out, [n], Rest(d, t, k));
      out := out + [n];
      n, t, k := Next(h, n, d, root, t, k, w);
    }
  }
}
