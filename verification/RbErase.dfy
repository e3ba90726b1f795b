/** Inserting and erasing whole: rb_link_node() with rb_insert_color(), and rb_erase() with
    __rb_erase_augmented() (include/lego/rbtree.h, lib/rbtree.c). */
module RbErase {
  import opened Basics
  import opened RbTree
  import opened RbHeap
  import opened RbWalk

  // ---- values ----

  /** What a valid tree says about a node and the path above it. */
  lemma {:induction false} Unzip(t: Tree, k: Ctx)
    requires Valid(Zip(t, k))
    ensures Finished(t, k)
    decreases k
  {
    if k.Step? {
      Unzip(Mk(k.d, t, k.id, k.sib, k.c), k.up);
    }
  }

  lemma {:induction false} Rezip(t: Tree, k: Ctx)
    requires Finished(t, k)
    ensures Valid(Zip(t, k))
  {
    ZipValid(t, k, BlackHeight(t));
  }

  /** The context sp below the context base. */
  function Over(sp: Ctx, base: Ctx): (k: Ctx)
    decreases sp
  {
    if sp.Top? then base else Step(Over(sp.up, base), sp.d, sp.id, sp.c, sp.sib)
  }

  lemma {:induction false} ZipOver(x: Tree, sp: Ctx, base: Ctx)
    ensures Zip(x, Over(sp, base)) == Zip(Zip(x, sp), base)
    decreases sp
  {
    if sp.Step? {
      ZipOver(Mk(sp.d, x, sp.id, sp.sib, sp.c), sp.up, base);
    }
  }

  /** The in-order sequence around a node. */
  lemma {:induction false} SplitOrder(t: Tree, k: Ctx)
    ensures InOrder(Zip(t, k)) == Before(R, k) + InOrder(t) + After(R, k)
  {
    AlongZip(R, t, k);
    AlongInOrder(Zip(t, k));
    AlongInOrder(t);
  }

  /** b is a without the node id. */
  ghost predicate Erased(a: seq<Ptr>, b: seq<Ptr>, id: Ptr) {
    exists x: seq<Ptr>, y: seq<Ptr> :: Joins(a, x, id, y) && b == x + y
  }

  ghost predicate Joins(a: seq<Ptr>, x: seq<Ptr>, id: Ptr, y: seq<Ptr>) { a == x + [id] + y }

  lemma {:induction false} ErasedAt(t: Tree, k: Ctx, t': Tree, k': Ctx)
    requires t.T? && InOrder(Zip(t', k')) == Before(R, k) + (InOrder(t.l) + InOrder(t.r)) + After(R, k)
    ensures Erased(InOrder(Zip(t, k)), InOrder(Zip(t', k')), t.id)
  {
    SplitOrder(t, k);
    var (p, l, r, z) := (Before(R, k), InOrder(t.l), InOrder(t.r), After(R, k));
    Around5(p, l, [t.id], r, z);
    Around5(p, l, [], r, z);
    assert l + [] + r == l + r && p + l + [] + (r + z) == p + l + (r + z);
    assert Joins(InOrder(Zip(t, k)), p + l, t.id, r + z);
  }

  lemma {:induction false} Around5(p: seq<Ptr>, l: seq<Ptr>, x: seq<Ptr>, r: seq<Ptr>, z: seq<Ptr>)
    ensures p + (l + x + r) + z == p + l + x + (r + z)
  {
    Regroup(l, x, r);
    Regroup(p, l, x + r);
    Regroup(p + l, x + r, z);
    Regroup(x, r, z);
    Regroup(p + l, x, r + z);
  }

  // ---- the arena ----

  lemma {:induction false} ShapeFrame(h: Heap, h': Heap, root: Ptr, t: Tree, k: Ctx, x: Ptr)
    requires Shape(h, root, t, k) && SameBut(h, h', {x}) && x !in Ids(t) && x !in KIds(k)
    ensures Shape(h', root, t, k)
  {
    IdsIn(h, t, KId(k));
    KIdsIn(h, root, k, Id(t));
    SameOf(h, h', {x}, Ids(t));
    SameOf(h, h', {x}, KIds(k));
    AtFrame(h, h', t, KId(k));
    CtxFrame(h, h', root, k, Id(t));
  }

  /** A subtree of the node in hand takes its place, in colour c. */
  lemma {:induction false} Promote(h: Heap, h': Heap, root: Ptr, root': Ptr, t: Tree, k: Ctx, d: Dir, c: Color)
    requires Shape(h, root, t, k) && t.T? && SameBut(h, h', {Id(Sub(t, d)), KId(k)})
      && Refilled(h, h', root, root', k, Id(Sub(t, d)))
    requires var x := Sub(t, d); x.T? ==> x.id in h && Has(h', x.id, h[x.id].(parent := KId(k), c := c))
    ensures Shape(h', root', Paint(Sub(t, d), c), k)
  {
    var x := Sub(t, d);
    var changed := {Id(x), KId(k)};
    IdsIn(h, t, KId(k));
    KIdsIn(h, root, k, t.id);
    IdsIn(h, x, t.id);
    assert forall y <- Ids(x) :: y in Ids(t);
    if x.T? {
      PromoteTree(h, h', x, t.id, KId(k), c, changed);
    }
    SameOf(h, h', changed, KIds(k) - {KId(k)});
    CtxRefill(h, h', root, root', k, t.id, Id(x));
  }

  lemma {:induction false} PromoteTree(h: Heap, h': Heap, x: Tree, par: Ptr, par': Ptr, c: Color, changed: set<Ptr>)
    requires At(h, x, par) && x.T? && Uniq(x) && SameBut(h, h', changed) && changed * Ids(x) <= {x.id}
    requires x.id in h && Has(h', x.id, h[x.id].(parent := par', c := c))
    ensures At(h', Paint(x, c), par') && Uniq(Paint(x, c)) && Ids(Paint(x, c)) == Ids(x)
  {
    IdsIn(h, x, par);
    SameOf(h, h', changed, Ids(x.l));
    SameOf(h, h', changed, Ids(x.r));
    AtFrame(h, h', x.l, x.id);
    AtFrame(h, h', x.r, x.id);
  }

  /** Node s takes the place of the node in hand: its children, parent and colour. */
  lemma {:induction false} Rename(h: Heap, h': Heap, root: Ptr, root': Ptr, t: Tree, k: Ctx, s: Ptr)
    requires Shape(h, root, t, k) && t.T? && s in h && s != 0 && s !in Ids(t) && s !in KIds(k)
    requires SameBut(h, h', {s, Id(t.l), Id(t.r), KId(k)}) && Refilled(h, h', root, root', k, s)
    requires Has(h', s, h[t.id]) && Reparented(h, h', t.l, s) && Reparented(h, h', t.r, s)
    ensures Shape(h', root', T(t.l, s, t.r, t.c), k)
  {
    var changed := {s, Id(t.l), Id(t.r), KId(k)};
    IdsIn(h, t, KId(k));
    KIdsIn(h, root, k, t.id);
    IdsIn(h, t.l, t.id);
    IdsIn(h, t.r, t.id);
    SameOf(h, h', changed, Ids(t.l) - {Id(t.l)});
    AtReparent(h, h', t.l, t.id, s);
    SameOf(h, h', changed, Ids(t.r) - {Id(t.r)});
    AtReparent(h, h', t.r, t.id, s);
    SameOf(h, h', changed, KIds(k) - {KId(k)});
    CtxRefill(h, h', root, root', k, t.id, s);
  }

  /** From a node down a relative path. */
  lemma {:induction false} ShapeInto(h: Heap, root: Ptr, x: Tree, sp: Ctx, base: Ctx)
    requires Shape(h, root, Zip(x, sp), base)
    ensures Shape(h, root, x, Over(sp, base))
    decreases sp
  {
    if sp.Step? {
      ShapeInto(h, root, Mk(sp.d, x, sp.id, sp.sib, sp.c), sp.up, base);
      ShapeDown(h, root, x, Over(sp, base));
    }
  }

  lemma {:induction false} ShapeOut(h: Heap, root: Ptr, x: Tree, sp: Ctx, base: Ctx)
    requires Shape(h, root, x, Over(sp, base))
    ensures Shape(h, root, Zip(x, sp), base)
    decreases sp
  {
    if sp.Step? {
      ShapeUp(h, root, x, Over(sp, base));
      ShapeOut(h, root, Mk(sp.d, x, sp.id, sp.sib, sp.c), sp.up, base);
    }
  }

  // ---- which rules the cases leave ----

  /** Case 1: at most one child, on side d. */
  lemma {:induction false} OneChild(t: Tree, k: Ctx, d: Dir)
    requires t.T? && Sub(t, Opp(d)).Nil? && Valid(Zip(t, k))
    ensures var x := Paint(Sub(t, d), t.c);
      && (if x.Nil? && t.c == Black && k.Step? then Short(x, k, 1) else Finished(x, k))
      && Erased(InOrder(Zip(t, k)), InOrder(Zip(x, k)), t.id)
  {
    var x := Paint(Sub(t, d), t.c);
    Unzip(t, k);
    OnlyChild(t, d);
    SplitOrder(x, k);
    assert InOrder(x) == InOrder(t.l) + InOrder(t.r) by { assert InOrder(x) + [] == [] + InOrder(x) == InOrder(x); }
    ErasedAt(t, k, x, k);
  }

  /** An only child is red, and its parent black. */
  lemma {:induction false} OnlyChild(t: Tree, d: Dir)
    requires t.T? && Sub(t, Opp(d)).Nil? && Sound(t)
    ensures Sound(Paint(Sub(t, d), t.c))
      && (Sub(t, d).T? ==> t.c == Black && BlackHeight(Paint(Sub(t, d), t.c)) == BlackHeight(t))
    ensures BlackHeight(Sub(t, d)) == 0 && BlackHeight(t) == Unit(t.c)
  {
    SubSound(t, d);
    SubSound(t, Opp(d));
  }

  predicate LeftSpine(sp: Ctx)
    decreases sp
  {
    sp.Step? ==> sp.d == L && LeftSpine(sp.up)
  }

  lemma {:induction false} SpineOrder(sp: Ctx, s: Ptr, c2: Tree, cs: Color)
    requires LeftSpine(sp)
    ensures InOrder(Zip(T(Nil, s, c2, cs), sp)) == [s] + InOrder(Zip(Paint(c2, Black), sp))
  {
    SpineStart(sp);
    SplitOrder(T(Nil, s, c2, cs), sp);
    SplitOrder(Paint(c2, Black), sp);
    assert InOrder(T(Nil, s, c2, cs)) == [s] + InOrder(c2);
    Regroup([s], InOrder(c2), After(R, sp));
    assert [] + ([s] + InOrder(c2)) == [s] + InOrder(c2) && [] + InOrder(c2) == InOrder(c2);
  }

  lemma {:induction false} SpineStart(sp: Ctx)
    requires LeftSpine(sp)
    ensures Before(R, sp) == []
    decreases sp
  {
    if sp.Step? { SpineStart(sp.up); }
  }

  /** Another name in the path changes no colour. */
  lemma {:induction false} FitsRenamed(sp: Ctx, k: Ctx, id: Ptr, id': Ptr, c: Color, l: Tree, b: nat)
    ensures Fits(Over(sp, Step(k, R, id, c, l)), b) <==> Fits(Over(sp, Step(k, R, id', c, l)), b)
    decreases sp
  {
    if sp.Step? {
      FitsRenamed(sp.up, k, id, id', c, l, b + Unit(sp.c));
    }
  }

  /** Cases 2 and 3: the successor s, with child c2, takes the place of the node. */
  lemma {:induction false} TwoChildren(t: Tree, k: Ctx, sp: Ctx, s: Ptr, c2: Tree, cs: Color)
    requires t.T? && t.r == Zip(T(Nil, s, c2, cs), sp) && LeftSpine(sp) && Valid(Zip(t, k))
    ensures var (x, k') := (Paint(c2, Black), Over(sp, Step(k, R, s, t.c, t.l)));
      && (if x.Nil? && cs == Black then Short(x, k', 1) else Finished(x, k'))
      && Erased(InOrder(Zip(t, k)), InOrder(Zip(x, k')), t.id)
  {
    var (x, k') := (Paint(c2, Black), Over(sp, Step(k, R, s, t.c, t.l)));
    TwoColours(t, k, sp, s, c2, cs);
    ZipOver(x, sp, Step(k, R, s, t.c, t.l));
    var m := T(t.l, s, Zip(x, sp), t.c);
    SplitOrder(m, k);
    SpineOrder(sp, s, c2, cs);
    Regroup(InOrder(t.l), [s], InOrder(Zip(x, sp)));
    ErasedAt(t, k, x, k');
  }

  lemma {:induction false} TwoColours(t: Tree, k: Ctx, sp: Ctx, s: Ptr, c2: Tree, cs: Color)
    requires t.T? && t.r == Zip(T(Nil, s, c2, cs), sp) && Valid(Zip(t, k))
    ensures var (x, k') := (Paint(c2, Black), Over(sp, Step(k, R, s, t.c, t.l)));
      if x.Nil? && cs == Black then Short(x, k', 1) else Finished(x, k')
  {
    var base := Step(k, R, t.id, t.c, t.l);
    var n := T(Nil, s, c2, cs);
    ZipOver(n, sp, base);
    Unzip(n, Over(sp, base));
    OnlyChild(n, R);
    FitsRenamed(sp, k, t.id, s, t.c, t.l, BlackHeight(n));
    OverStep(sp, base);
    OverStep(sp, Step(k, R, s, t.c, t.l));
  }

  lemma {:induction false} OverStep(sp: Ctx, base: Ctx)
    requires base.Step?
    ensures Over(sp, base).Step? && Over(sp, base).c == if sp.Step? then sp.c else base.c
  {
  }

  // ---- the stores ----

  /** __rb_change_child() */
  method ChangeChild(rt: Root, old_: Ptr, new_: Ptr, parent: Ptr, ghost k: Ctx)
    requires parent == KId(k)
      && (k.Step? ==> k.id in rt.h && k.id != 0 && Kid(rt.h[k.id], k.d) == old_ && Kid(rt.h[k.id], Opp(k.d)) != old_)
    modifies rt
    ensures Refilled(old(rt.h), rt.h, old(rt.node), rt.node, k, new_)
    ensures SameBut(old(rt.h), rt.h, {parent})
    ensures k.Step? ==> rt.h == old(rt.h)[parent := WithKid(old(rt.h)[parent], k.d, new_)]
    ensures k.Top? ==> rt.h == old(rt.h)
  {
    if parent != 0 {
      if rt.h[parent].left == old_ {
        rt.SetKid(parent, L, new_);
      } else {
        rt.SetKid(parent, R, new_);
      }
    } else {
      rt.node := new_;
    }
  }

  /** What __rb_change_child() reads at the parent. */
  lemma {:induction false} HoleReads(h: Heap, root: Ptr, t: Tree, k: Ctx)
    requires Shape(h, root, t, k) && t.T?
    ensures h[t.id].parent == KId(k) && h[t.id].c == t.c && KId(k) != t.id && t.id in h && t.id != 0
    ensures k.Step? ==> k.id in h && k.id != 0 && Kid(h[k.id], k.d) == t.id && Kid(h[k.id], Opp(k.d)) != t.id
    ensures k.Step? ==> k.id !in Ids(t)
  {
    NodeReads(h, root, t, k, L);
    ParentReads(h, root, t, k, L);
    ParentReads(h, root, t, k, R);
    KIdsIn(h, root, k, t.id);
  }

  /** Case 1 of __rb_erase_augmented(): the only child, on side d, or NULL takes the place of nd. */
  method EraseOne(rt: Root, nd: Ptr, d: Dir, child: Ptr, ghost t: Tree, ghost k: Ctx) returns (rebalance: Ptr)
    requires Shape(rt.h, rt.node, t, k) && t.T? && t.id == nd && child == Id(Sub(t, d))
    modifies rt
    ensures Shape(rt.h, rt.node, Paint(Sub(t, d), t.c), k)
    ensures rebalance == if child == 0 && t.c == Black then KId(k) else 0
  {
    ghost var h0, x := rt.h, Sub(t, d);
    HoleReads(h0, rt.node, t, k);
    ChildReads(h0, rt.node, t, k, d);
    var parent, c := rt.h[nd].parent, rt.h[nd].c;
    ghost var r0 := rt.node;
    ChangeChild(rt, nd, child, parent, k);
    if child != 0 {
      rt.SetParentColor(child, parent, c);
      rebalance := 0;
    } else {
      rebalance := if c == Black then parent else 0;
    }
    Promote(h0, rt.h, r0, rt.node, t, k, d, t.c);
  }

  lemma {:induction false} ChildReads(h: Heap, root: Ptr, t: Tree, k: Ctx, d: Dir)
    requires Shape(h, root, t, k) && t.T?
    ensures var x := Sub(t, d); (Id(x) == 0 <==> x.Nil?) && (x.T? ==> x.id in h && x.id != KId(k) && x.id != t.id)
  {
    var x := Sub(t, d);
    IdsIn(h, t, KId(k));
    KIdsIn(h, root, k, t.id);
    if x.T? { assert x.id in Ids(t); }
  }

  // ---- two children ----

  lemma {:induction false} ZipIds(x: Tree, sp: Ctx)
    requires Uniq(Zip(x, sp))
    ensures Uniq(x) && KUniq(sp) && Ids(x) !! KIds(sp) && Ids(Zip(x, sp)) == Ids(x) + KIds(sp)
    decreases sp
  {
    if sp.Step? {
      ZipIds(Mk(sp.d, x, sp.id, sp.sib, sp.c), sp.up);
      MkAt(map[], sp.d, x, sp.id, sp.sib, sp.c, 0);
    }
  }

  /** The root of a tree seen down a path is on the path. */
  lemma {:induction false} ZipRoot(x: Tree, sp: Ctx)
    ensures sp.Step? ==> Zip(x, sp).T? && Zip(x, sp).id in KIds(sp)
    ensures sp.Top? ==> Zip(x, sp) == x
    decreases sp
  {
    if sp.Step? {
      ZipRoot(Mk(sp.d, x, sp.id, sp.sib, sp.c), sp.up);
      if sp.up.Top? { assert Zip(x, sp).id == sp.id; }
    }
  }

  /** The node, its left child, the path to the successor, the successor and its child are all different. */
  ghost predicate Apart(h: Heap, t: Tree, k: Ctx, sp: Ctx, s: Ptr, c2: Tree) {
    && t.T? && t.l.T? && t.r.T? && 0 !in h
    && s in h && t.id in h && t.l.id in h && s != t.id && s != t.l.id && s != KId(k) && t.id != t.l.id
      && t.l.id != KId(k) && t.id != KId(k)
    && (k.Step? ==> k.id in h)
    && (c2.T? ==> c2.id in h && c2.id != t.id && c2.id != s && c2.id != t.l.id && c2.id != KId(k) && c2.id !in KIds(sp))
    && (forall x <- KIds(sp) :: x in h && x != t.id && x != s && x != t.l.id && x != KId(k))
    && (sp.Step? ==> sp.id in KIds(sp) && t.r.id in KIds(sp)) && (sp.Top? ==> t.r.id == s)
  }

  lemma {:induction false} AllApart(h: Heap, root: Ptr, t: Tree, k: Ctx, sp: Ctx, s: Ptr, c2: Tree, cs: Color)
    requires Shape(h, root, t, k) && t.T? && t.l.T? && t.r == Zip(T(Nil, s, c2, cs), sp)
    ensures Apart(h, t, k, sp, s, c2)
  {
    ZipIds(T(Nil, s, c2, cs), sp);
    ZipRoot(T(Nil, s, c2, cs), sp);
    IdsIn(h, t, KId(k));
    KIdsIn(h, root, k, t.id);
    assert forall x <- Ids(t.r) :: x in Ids(t);
    assert t.l.id in Ids(t.l) && s in Ids(t.r);
    assert forall x <- KIds(sp) :: x in Ids(t.r);
    if c2.T? { assert c2.id in Ids(c2) && c2.id in Ids(t.r); }
  }

  /** The loop of case 3: the leftmost node under child, and its parent. */
  method FindSuccessor(rt: Root, child: Ptr, ghost t: Tree, ghost k: Ctx)
    returns (successor: Ptr, parent: Ptr, ghost sp: Ctx, ghost c2: Tree, ghost cs: Color)
    requires Shape(rt.h, rt.node, t, k) && t.T? && t.r.T? && child == t.r.id
    ensures t.r == Zip(T(Nil, successor, c2, cs), sp) && LeftSpine(sp) && parent == if sp.Top? then successor else sp.id
  {
    ghost var base, x := Step(k, R, t.id, t.c, t.l), t.r;
    successor, parent, sp := child, child, Top;
    ShapeDown(rt.h, rt.node, t.r, base);
    NodeReads(rt.h, rt.node, x, Over(sp, base), L);
    var tmp := rt.h[child].left;
    while tmp != 0
      invariant Shape(rt.h, rt.node, x, Over(sp, base)) && x.T? && x.id == successor && t.r == Zip(x, sp)
        && LeftSpine(sp)
      invariant parent == if sp.Top? then successor else sp.id
      invariant tmp == Id(x.l) && (tmp == 0 <==> x.l.Nil?)
      decreases x
    {
      ghost var sp' := Step(sp, L, x.id, x.c, x.r);
      assert Mk(L, x.l, x.id, x.r, x.c) == x && Over(sp', base) == Step(Over(sp, base), L, x.id, x.c, x.r);
      ShapeDown(rt.h, rt.node, x.l, Over(sp', base));
      parent := successor;
      successor := tmp;
      x, sp := x.l, sp';
      NodeReads(rt.h, rt.node, x, Over(sp, base), L);
      tmp := rt.h[tmp].left;
    }
    c2, cs := x.r, x.c;
    assert x == T(Nil, successor, c2, cs);
  }

  /** The parent p of the successor loses it, and the right child r of the node hangs below it. */
  ghost predicate SpineMoved(h: Heap, h': Heap, p: Ptr, r: Ptr, x: Ptr, s: Ptr) {
    && p in h && r in h
    && if p == r then Has(h', p, h[p].(left := x, parent := s))
      else Has(h', p, h[p].(left := x)) && Has(h', r, h[r].(parent := s))
  }

  /** What the stores of cases 2 and 3 leave. */
  ghost predicate Moved(h: Heap, h': Heap, root: Ptr, root': Ptr, t: Tree, k: Ctx, sp: Ctx, s: Ptr, c2: Tree)
    requires t.T? && t.l.T? && t.r.T?
  {
    && SameBut(h, h', {s, t.l.id, t.r.id, KId(sp), Id(c2), KId(k)}) && Refilled(h, h', root, root', k, s)
    && Has(h', s, Node(t.l.id, if sp.Top? then Id(c2) else t.r.id, KId(k), t.c))
    && t.l.id in h && Has(h', t.l.id, h[t.l.id].(parent := s))
    && (c2.T? ==> c2.id in h && Has(h', c2.id, h[c2.id].(parent := if sp.Top? then s else sp.id, c := Black)))
    && (sp.Step? ==> SpineMoved(h, h', sp.id, t.r.id, Id(c2), s))
  }

  /** The stores of case 3 alone. */
  method SpineStores(rt: Root, p: Ptr, r: Ptr, x: Ptr, s: Ptr)
    requires p in rt.h && r in rt.h && s in rt.h && p != s && r != s
    modifies rt`h
    ensures SpineMoved(old(rt.h), rt.h, p, r, x, s) && SameBut(old(rt.h), rt.h, {p, r, s})
      && Has(rt.h, s, old(rt.h)[s].(right := r))
  {
    rt.SetKid(p, L, x);
    rt.SetKid(s, R, r);
    rt.SetParentColor(r, s, rt.h[r].c);
  }

  /** What the code reads at the node and at its successor. */
  ghost predicate TwoReads(h: Heap, t: Tree, k: Ctx, s: Ptr, c2: Tree, cs: Color)
    requires t.T? && t.l.T? && t.r.T?
  {
    && t.id in h && s in h && h[t.id] == Node(t.l.id, t.r.id, KId(k), t.c)
    && h[s].left == 0 && h[s].right == Id(c2) && h[s].c == cs && (Id(c2) == 0 <==> c2.Nil?)
    && (k.Step? ==> k.id in h && k.id != 0 && Kid(h[k.id], k.d) == t.id && Kid(h[k.id], Opp(k.d)) != t.id)
  }

  lemma {:induction false} TwoRead(h: Heap, root: Ptr, t: Tree, k: Ctx, sp: Ctx, s: Ptr, c2: Tree, cs: Color)
    requires Shape(h, root, t, k) && t.T? && t.l.T? && t.r.T? && t.r == Zip(T(Nil, s, c2, cs), sp)
    ensures TwoReads(h, t, k, s, c2, cs)
  {
    var (x, base) := (T(Nil, s, c2, cs), Step(k, R, t.id, t.c, t.l));
    HoleReads(h, root, t, k);
    ShapeDown(h, root, t.r, base);
    ShapeInto(h, root, x, sp, base);
    NodeReads(h, root, x, Over(sp, base), R);
  }

  /** The successor takes over the left child, the parent and the colour of nd. */
  method PlaceStores(rt: Root, nd: Ptr, s: Ptr, l: Ptr, ghost k: Ctx) returns (pc2: Color)
    requires nd in rt.h && s in rt.h && l in rt.h && rt.h[nd].left == l && rt.h[nd].parent == KId(k) && 0 !in rt.h
    requires s != l && s != nd && l != nd && s != KId(k) && l != KId(k) && nd != KId(k)
    requires k.Step? ==> k.id in rt.h && Kid(rt.h[k.id], k.d) == nd && Kid(rt.h[k.id], Opp(k.d)) != nd
    modifies rt
    ensures pc2 == old(rt.h)[s].c && SameBut(old(rt.h), rt.h, {s, l, KId(k)})
      && Refilled(old(rt.h), rt.h, old(rt.node), rt.node, k, s)
    ensures Has(rt.h, s, old(rt.h)[s].(left := l, parent := KId(k), c := old(rt.h)[nd].c))
      && Has(rt.h, l, old(rt.h)[l].(parent := s))
  {
    var tmp := rt.h[nd].left;
    rt.SetKid(s, L, tmp);
    rt.SetParentColor(tmp, s, rt.h[tmp].c);
    ChangeChild(rt, nd, s, rt.h[nd].parent, k);
    pc2 := rt.h[s].c;
    rt.SetParentColor(s, rt.h[nd].parent, rt.h[nd].c);
  }

  /** The child of the successor, if any, turns black below parent. */
  method ChildStores(rt: Root, child2: Ptr, parent: Ptr, pc2: Color) returns (rebalance: Ptr)
    requires child2 != 0 ==> child2 in rt.h
    modifies rt`h
    ensures child2 != 0 ==>
      rt.h == old(rt.h)[child2 := old(rt.h)[child2].(parent := parent, c := Black)] && rebalance == 0
    ensures child2 == 0 ==> rt.h == old(rt.h) && rebalance == if pc2 == Black then parent else 0
  {
    if child2 != 0 {
      rt.SetParentColor(child2, parent, Black);
      rebalance := 0;
    } else {
      rebalance := if pc2 == Black then parent else 0;
    }
  }

  /** The successor moves into the place of nd. */
  method MoveStores(rt: Root, nd: Ptr, child: Ptr, s: Ptr, parent: Ptr, ghost t: Tree, ghost k: Ctx, ghost sp: Ctx,
                    ghost c2: Tree, ghost cs: Color)
    returns (rebalance: Ptr)
    requires Apart(rt.h, t, k, sp, s, c2) && TwoReads(rt.h, t, k, s, c2, cs)
    requires t.id == nd && child == t.r.id && parent == if sp.Top? then s else sp.id
    modifies rt
    ensures Moved(old(rt.h), rt.h, old(rt.node), rt.node, t, k, sp, s, c2)
    ensures rebalance == if c2.Nil? && cs == Black then parent else 0
  {
    ghost var h0 := rt.h;
    var child2 := rt.h[s].right;
    if parent != s {
      SpineStores(rt, parent, child, child2, s);
    }
    ghost var h1 := rt.h;
    assert SpineDone(h0, h1, t, sp, s, c2);
    var pc2 := PlaceStores(rt, nd, s, rt.h[nd].left, k);
    ghost var h2 := rt.h;
    rebalance := ChildStores(rt, child2, parent, pc2);
    MovedIn(h0, h1, h2, rt.h, old(rt.node), rt.node, t, k, sp, s, c2, cs);
  }

  /** After the stores of case 3, if it is case 3. */
  ghost predicate SpineDone(h: Heap, h1: Heap, t: Tree, sp: Ctx, s: Ptr, c2: Tree)
    requires t.T? && t.r.T? && s in h
  {
    if sp.Top? then h1 == h
    else
      SpineMoved(h, h1, sp.id, t.r.id, Id(c2), s) && SameBut(h, h1, {sp.id, t.r.id, s})
      && Has(h1, s, h[s].(right := t.r.id))
  }

  lemma {:induction false} MovedIn(h: Heap, h1: Heap, h2: Heap, h3: Heap, root: Ptr, root': Ptr, t: Tree, k: Ctx,
                            sp: Ctx, s: Ptr, c2: Tree, cs: Color)
    requires Apart(h, t, k, sp, s, c2) && TwoReads(h, t, k, s, c2, cs) && SpineDone(h, h1, t, sp, s, c2)
    requires SameBut(h1, h2, {s, t.l.id, KId(k)}) && Refilled(h1, h2, root, root', k, s)
    requires Has(h2, s, h1[s].(left := t.l.id, parent := KId(k), c := t.c)) && Has(h2, t.l.id, h1[t.l.id].(parent := s))
    requires h3 == if c2.T? then h2[c2.id := h2[c2.id].(parent := if sp.Top? then s else sp.id, c := Black)] else h2
    ensures Moved(h, h3, root, root', t, k, sp, s, c2)
  {
    assert SameBut(h, h3, {s, t.l.id, t.r.id, KId(sp), Id(c2), KId(k)});
    assert k.Step? ==> h1[k.id] == h[k.id];
  }

  // ---- the arena after the move ----

  lemma {:induction false} ZipSameRoot(x: Tree, y: Tree, sp: Ctx)
    requires sp.Step?
    ensures Zip(x, sp).T? && Zip(y, sp).T? && Zip(x, sp).id == Zip(y, sp).id
    decreases sp
  {
    var (x', y') := (Mk(sp.d, x, sp.id, sp.sib, sp.c), Mk(sp.d, y, sp.id, sp.sib, sp.c));
    if sp.up.Step? { ZipSameRoot(x', y', sp.up); }
  }

  /** The arena with the successor taken out of its place. */
  ghost function TakenOut(h: Heap, t: Tree, sp: Ctx, c2: Tree): Heap
    requires t.T? && t.id in h && (sp.Step? ==> sp.id in h) && (c2.T? ==> c2.id in h)
  {
    var p := if sp.Top? then t.id else sp.id;
    var h1 := h[p := WithKid(h[p], if sp.Top? then R else L, Id(c2))];
    if c2.T? then h1[c2.id := h[c2.id].(parent := p, c := Black)] else h1
  }

  lemma {:induction false} TakeOut(h: Heap, root: Ptr, t: Tree, k: Ctx, sp: Ctx, s: Ptr, c2: Tree, cs: Color)
    requires Shape(h, root, t, k) && t.T? && t.l.T? && t.r == Zip(T(Nil, s, c2, cs), sp) && LeftSpine(sp)
      && Apart(h, t, k, sp, s, c2)
    ensures Shape(TakenOut(h, t, sp, c2), root, T(t.l, t.id, Zip(Paint(c2, Black), sp), t.c), k)
  {
    var (x, base) := (T(Nil, s, c2, cs), Step(k, R, t.id, t.c, t.l));
    var hA := TakenOut(h, t, sp, c2);
    ShapeDown(h, root, t.r, base);
    ShapeInto(h, root, x, sp, base);
    var ks := Over(sp, base);
    assert KId(ks) == (if sp.Top? then t.id else sp.id) && ks.d == if sp.Top? then R else L;
    Promote(h, hA, root, root, x, ks, R, Black);
    ShapeOut(hA, root, Paint(c2, Black), sp, base);
    ShapeUp(hA, root, Zip(Paint(c2, Black), sp), base);
  }

  /** Putting it in the place of the node is a renaming. */
  lemma {:induction false} PutIn(h: Heap, h': Heap, root: Ptr, root': Ptr, t: Tree, k: Ctx, sp: Ctx, s: Ptr,
                            c2: Tree, cs: Color)
    requires Shape(h, root, t, k) && t.T? && t.l.T? && t.r == Zip(T(Nil, s, c2, cs), sp) && LeftSpine(sp)
    requires Apart(h, t, k, sp, s, c2) && TwoReads(h, t, k, s, c2, cs) && Moved(h, h', root, root', t, k, sp, s, c2)
    ensures var (hA, r) := (TakenOut(h, t, sp, c2), Zip(Paint(c2, Black), sp)); var hB := h'[t.id := hA[t.id]];
      && SameBut(hA, hB, {s, t.l.id, Id(r), KId(k)}) && Refilled(hA, hB, root, root', k, s)
      && Has(hB, s, hA[t.id]) && Reparented(hA, hB, t.l, s) && Reparented(hA, hB, r, s)
  {
    var (hA, r) := (TakenOut(h, t, sp, c2), Zip(Paint(c2, Black), sp));
    if sp.Step? {
      ZipSameRoot(T(Nil, s, c2, cs), Paint(c2, Black), sp);
    }
    assert Id(r) == if sp.Top? then Id(c2) else t.r.id;
  }

  lemma {:induction false} SuccessorGone(h: Heap, root: Ptr, t: Tree, k: Ctx, sp: Ctx, s: Ptr, c2: Tree, cs: Color)
    requires Shape(h, root, t, k) && t.T? && t.r == Zip(T(Nil, s, c2, cs), sp)
    ensures var t1 := T(t.l, t.id, Zip(Paint(c2, Black), sp), t.c);
      s !in Ids(t1) && s !in KIds(k) && s != 0 && (Uniq(t1) ==> t.id !in Ids(T(t.l, s, t1.r, t.c)))
  {
    var x := Paint(c2, Black);
    ZipIds(T(Nil, s, c2, cs), sp);
    assert s in Ids(T(Nil, s, c2, cs)) && s in Ids(t.r);
    IdsOver(x, sp);
    assert Ids(x) == Ids(c2);
  }

  lemma {:induction false} IdsOver(x: Tree, sp: Ctx)
    ensures Ids(Zip(x, sp)) == Ids(x) + KIds(sp)
    decreases sp
  {
    if sp.Step? {
      IdsOver(Mk(sp.d, x, sp.id, sp.sib, sp.c), sp.up);
      MkAt(map[], sp.d, x, sp.id, sp.sib, sp.c, 0);
    }
  }

  lemma {:induction false} MovedShape(h: Heap, h': Heap, root: Ptr, root': Ptr, t: Tree, k: Ctx, sp: Ctx, s: Ptr,
                            c2: Tree, cs: Color)
    requires Shape(h, root, t, k) && t.T? && t.l.T? && t.r == Zip(T(Nil, s, c2, cs), sp) && LeftSpine(sp)
    requires Apart(h, t, k, sp, s, c2) && TwoReads(h, t, k, s, c2, cs) && Moved(h, h', root, root', t, k, sp, s, c2)
    ensures Shape(h', root', Paint(c2, Black), Over(sp, Step(k, R, s, t.c, t.l)))
  {
    var (hA, x) := (TakenOut(h, t, sp, c2), Paint(c2, Black));
    var t1 := T(t.l, t.id, Zip(x, sp), t.c);
    TakeOut(h, root, t, k, sp, s, c2, cs);
    PutIn(h, h', root, root', t, k, sp, s, c2, cs);
    var hB := h'[t.id := hA[t.id]];
    SuccessorGone(h, root, t, k, sp, s, c2, cs);
    Rename(hA, hB, root, root', t1, k, s);
    ShapeFrame(hB, h', root', T(t.l, s, t1.r, t.c), k, t.id);
    ShapeDown(h', root', Zip(x, sp), Step(k, R, s, t.c, t.l));
    ShapeInto(h', root', x, sp, Step(k, R, s, t.c, t.l));
  }

  // ---- the whole operations ----

  /** A node of a tree, in its place. */
  lemma {:induction false} Focus(w: Tree, base: Ctx, nd: Ptr) returns (t: Tree, k: Ctx)
    requires nd in Ids(w)
    ensures t.T? && t.id == nd && Zip(t, k) == Zip(w, base)
    decreases w
  {
    if w.id == nd {
      t, k := w, base;
    } else if nd in Ids(w.l) {
      assert Mk(L, w.l, w.id, w.r, w.c) == w;
      t, k := Focus(w.l, Step(base, L, w.id, w.c, w.r), nd);
    } else {
      assert Mk(R, w.r, w.id, w.l, w.c) == w;
      t, k := Focus(w.r, Step(base, R, w.id, w.c, w.l), nd);
    }
  }

  lemma {:induction false} OverTop(k: Ctx)
    ensures Over(k, Top) == k
    decreases k
  {
    if k.Step? { OverTop(k.up); }
  }

  /** Cases 2 and 3 of __rb_erase_augmented(). */
  method EraseTwo(rt: Root, nd: Ptr, child: Ptr, ghost t: Tree, ghost k: Ctx)
    returns (rebalance: Ptr, ghost x: Tree, ghost k': Ctx)
    requires Shape(rt.h, rt.node, t, k) && t.T? && t.id == nd && t.l.T? && t.r.T? && child == t.r.id && Valid(Zip(t, k))
    modifies rt
    ensures Shape(rt.h, rt.node, x, k') && Erased(InOrder(Zip(t, k)), InOrder(Zip(x, k')), nd)
    ensures if rebalance == 0 then Finished(x, k') else x.Nil? && Short(x, k', 1) && rebalance == k'.id
  {
    var s, parent;
    ghost var sp, c2, cs;
    s, parent, sp, c2, cs := FindSuccessor(rt, child, t, k);
    AllApart(rt.h, rt.node, t, k, sp, s, c2, cs);
    TwoRead(rt.h, rt.node, t, k, sp, s, c2, cs);
    ghost var h0, r0 := rt.h, rt.node;
    rebalance := MoveStores(rt, nd, child, s, parent, t, k, sp, c2, cs);
    MovedShape(h0, rt.h, r0, rt.node, t, k, sp, s, c2, cs);
    TwoChildren(t, k, sp, s, c2, cs);
    x, k' := Paint(c2, Black), Over(sp, Step(k, R, s, t.c, t.l));
    assert parent != 0 && k'.id == parent;
  }

  /** __rb_erase_augmented(): nd is gone; rebalance is the parent to start from when a black node is missing. */
  method EraseAugmented(rt: Root, nd: Ptr, ghost t: Tree, ghost k: Ctx)
    returns (rebalance: Ptr, ghost x: Tree, ghost k': Ctx)
    requires Shape(rt.h, rt.node, t, k) && t.T? && t.id == nd && Valid(Zip(t, k))
    modifies rt
    ensures Shape(rt.h, rt.node, x, k') && Erased(InOrder(Zip(t, k)), InOrder(Zip(x, k')), nd)
    ensures if rebalance == 0 then Finished(x, k') else x.Nil? && Short(x, k', 1) && rebalance == k'.id
  {
    NodeReads(rt.h, rt.node, t, k, L);
    NodeReads(rt.h, rt.node, t, k, R);
    ParentReads(rt.h, rt.node, t, k, L);
    var child, tmp := rt.h[nd].right, rt.h[nd].left;
    if tmp == 0 {
      OneChild(t, k, R);
      rebalance := EraseOne(rt, nd, R, child, t, k);
      x, k' := Paint(t.r, t.c), k;
    } else if child == 0 {
      OneChild(t, k, L);
      rebalance := EraseOne(rt, nd, L, tmp, t, k);
      x, k' := Paint(t.l, t.c), k;
    } else {
      rebalance, x, k' := EraseTwo(rt, nd, child, t, k);
    }
  }

  /** rb_erase(): a red-black tree with the same nodes in the same order, without nd. */
  method Erase(rt: Root, nd: Ptr, ghost w0: Tree) returns (ghost w: Tree)
    requires Shape(rt.h, rt.node, w0, Top) && Valid(w0) && nd in Ids(w0)
    modifies rt
    ensures Shape(rt.h, rt.node, w, Top) && Valid(w) && Erased(InOrder(w0), InOrder(w), nd)
  {
    ghost var t, k := Focus(w0, Top, nd);
    OverTop(k);
    ShapeInto(rt.h, rt.node, t, k, Top);
    var rebalance;
    ghost var x, k';
    rebalance, x, k' := EraseAugmented(rt, nd, t, k);
    if rebalance != 0 {
      w := rt.EraseColor(rebalance, x, k', 1);
    } else {
      w := Zip(x, k');
      ShapeZip(rt.h, rt.node, x, k');
      Rezip(x, k');
    }
  }

  /** rb_link_node(): nd becomes a red leaf below parent, on side d; the link of an empty tree is the root. */
  method LinkNode(rt: Root, nd: Ptr, parent: Ptr, d: Dir, ghost k: Ctx)
    requires Shape(rt.h, rt.node, Nil, k) && nd != 0 && nd !in KIds(k) && parent == KId(k) && (k.Step? ==> k.d == d)
    modifies rt
    ensures Shape(rt.h, rt.node, T(Nil, nd, Nil, Red), k)
  {
    ghost var h0, r0 := rt.h, rt.node;
    KIdsIn(h0, r0, k, 0);
    rt.h := rt.h[nd := Node(0, 0, parent, Red)];
    ghost var h1 := rt.h;
    CtxFrame(h0, h1, r0, k, 0);
    if parent == 0 {
      rt.node := nd;
    } else {
      rt.SetKid(parent, d, nd);
    }
    CtxRefill(h1, rt.h, r0, rt.node, k, 0, nd);
  }

  /** rb_link_node() and rb_insert_color(): a red-black tree with nd at the place of the link. */
  method Insert(rt: Root, nd: Ptr, parent: Ptr, d: Dir, ghost w0: Tree, ghost k: Ctx) returns (ghost w: Tree)
    requires Shape(rt.h, rt.node, w0, Top) && Valid(w0) && Zip(Nil, k) == w0 && nd != 0 && nd !in Ids(w0)
    requires parent == KId(k) && (k.Step? ==> k.d == d)
    modifies rt
    ensures Shape(rt.h, rt.node, w, Top) && Valid(w)
    ensures InOrder(w0) == Before(R, k) + After(R, k) && InOrder(w) == Before(R, k) + [nd] + After(R, k)
  {
    OverTop(k);
    ShapeInto(rt.h, rt.node, Nil, k, Top);
    IdsOver(Nil, k);
    Unzip(Nil, k);
    SplitOrder(Nil, k);
    assert Before(R, k) + [] == Before(R, k);
    LinkNode(rt, nd, parent, d, k);
    ghost var t := T(Nil, nd, Nil, Red);
    SplitOrder(t, k);
    assert InOrder(t) == [nd];
    w := rt.InsertColor(nd, t, k);
  }
}
