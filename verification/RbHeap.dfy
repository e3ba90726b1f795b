/** struct rb_node and struct rb_root as lib/rbtree.c rewrites them: child, parent and colour fields in
    an arena of nodes, related to the trees and contexts of module RbTree. */
module RbHeap {
  import opened RbTree

  /** 0 is NULL. */
  datatype Node = Node(left: Ptr, right: Ptr, parent: Ptr, c: Color)
  type Heap = map<Ptr, Node>

  function Kid(n: Node, d: Dir): (p: Ptr) { if d == L then n.left else n.right }

  function WithKid(n: Node, d: Dir, p: Ptr): (m: Node) { if d == L then n.(left := p) else n.(right := p) }

  function Id(t: Tree): Ptr { if t.Nil? then 0 else t.id }
  function KId(k: Ctx): Ptr { if k.Top? then 0 else k.id }

  ghost function Ids(t: Tree): set<Ptr> { if t.Nil? then {} else Ids(t.l) + {t.id} + Ids(t.r) }

  ghost function KIds(k: Ctx): set<Ptr>
    decreases k
  {
    if k.Top? then {} else KIds(k.up) + {k.id} + Ids(k.sib)
  }

  /** No node occurs twice, and none is NULL. */
  ghost predicate Uniq(t: Tree) {
    t.T? ==> t.id != 0 && t.id !in Ids(t.l) && t.id !in Ids(t.r) && Ids(t.l) !! Ids(t.r) && Uniq(t.l) && Uniq(t.r)
  }

  ghost predicate KUniq(k: Ctx)
    decreases k
  {
    k.Step? ==>
        k.id != 0 && k.id !in KIds(k.up) && k.id !in Ids(k.sib) && KIds(k.up) !! Ids(k.sib) && Uniq(k.sib)
        && KUniq(k.up)
  }

  ghost predicate Has(h: Heap, x: Ptr, n: Node) { x in h && h[x] == n }

  /** The arena holds tree t below parent par. */
  ghost predicate At(h: Heap, t: Tree, par: Ptr) {
    t.T? ==> Has(h, t.id, Node(Id(t.l), Id(t.r), par, t.c)) && At(h, t.l, t.id) && At(h, t.r, t.id)
  }

  /** A node with child x on side d and y on the other. */
  function MkNode(d: Dir, x: Ptr, y: Ptr, par: Ptr, c: Color): (n: Node) {
    if d == L then Node(x, y, par, c) else Node(y, x, par, c)
  }

  function StepNode(k: Ctx, hole: Ptr): Node
    requires k.Step?
  {
    MkNode(k.d, hole, Id(k.sib), KId(k.up), k.c)
  }

  /** The arena holds context k, with the pointer hole in its hole. */
  ghost predicate CtxAt(h: Heap, root: Ptr, k: Ctx, hole: Ptr)
    decreases k
  {
    if k.Top? then root == hole
    else Has(h, k.id, StepNode(k, hole)) && At(h, k.sib, k.id) && CtxAt(h, root, k.up, k.id)
  }

  /** Tree t in hand, context k above it. */
  ghost predicate Shape(h: Heap, root: Ptr, t: Tree, k: Ctx) {
    && 0 !in h && At(h, t, KId(k)) && CtxAt(h, root, k, Id(t))
    && Uniq(t) && KUniq(k) && Ids(t) !! KIds(k)
  }

  /** What holding a node with given children means. */
  lemma {:induction false} MkAt(h: Heap, e: Dir, a: Tree, n: Ptr, b: Tree, c: Color, par: Ptr)
    ensures At(h, Mk(e, a, n, b, c), par) <==> Has(h, n, MkNode(e, Id(a), Id(b), par, c)) && At(h, a, n) && At(h, b, n)
    ensures Ids(Mk(e, a, n, b, c)) == Ids(a) + {n} + Ids(b)
    ensures Uniq(Mk(e, a, n, b, c)) <==>
      n != 0 && n !in Ids(a) && n !in Ids(b) && Ids(a) !! Ids(b) && Uniq(a) && Uniq(b)
  {
  }

  // ---- frames ----

  ghost predicate Same(h: Heap, h': Heap, s: set<Ptr>) { forall x <- s :: x in h && x in h' && h'[x] == h[x] }

  lemma {:induction false} AtFrame(h: Heap, h': Heap, t: Tree, par: Ptr)
    requires At(h, t, par) && Same(h, h', Ids(t))
    ensures At(h', t, par)
  {
    if t.T? {
      assert t.id in Ids(t);
      AtFrame(h, h', t.l, t.id);
      AtFrame(h, h', t.r, t.id);
    }
  }

  lemma {:induction false} AtReparent(h: Heap, h': Heap, t: Tree, par: Ptr, par': Ptr)
    requires At(h, t, par) && Uniq(t) && Same(h, h', Ids(t) - {Id(t)})
    requires t.T? ==> Has(h', t.id, h[t.id].(parent := par'))
    ensures At(h', t, par')
  {
    if t.T? {
      AtFrame(h, h', t.l, t.id);
      AtFrame(h, h', t.r, t.id);
    }
  }

  lemma {:induction false} CtxFrame(h: Heap, h': Heap, root: Ptr, k: Ctx, hole: Ptr)
    requires CtxAt(h, root, k, hole) && Same(h, h', KIds(k))
    ensures CtxAt(h', root, k, hole)
    decreases k
  {
    if k.Step? {
      assert k.id in KIds(k);
      AtFrame(h, h', k.sib, k.id);
      CtxFrame(h, h', root, k.up, k.id);
    }
  }

  /** __rb_change_child() puts another pointer in the hole. */
  lemma {:induction false} CtxRefill(h: Heap, h': Heap, root: Ptr, root': Ptr, k: Ctx, hole: Ptr, hole': Ptr)
    requires CtxAt(h, root, k, hole) && KUniq(k) && Same(h, h', KIds(k) - {KId(k)})
    requires if k.Top? then root' == hole' else root' == root && Has(h', k.id, WithKid(h[k.id], k.d, hole'))
    ensures CtxAt(h', root', k, hole')
  {
    if k.Step? {
      AtFrame(h, h', k.sib, k.id);
      CtxFrame(h, h', root, k.up, k.id);
    }
  }

  /** Moving the focus one step up or down the path. */
  lemma {:induction false} ShapeUp(h: Heap, root: Ptr, t: Tree, k: Ctx)
    requires Shape(h, root, t, k) && k.Step?
    ensures Shape(h, root, Mk(k.d, t, k.id, k.sib, k.c), k.up)
  {
  }

  lemma {:induction false} ShapeDown(h: Heap, root: Ptr, t: Tree, k: Ctx)
    requires k.Step? && Shape(h, root, Mk(k.d, t, k.id, k.sib, k.c), k.up)
    ensures Shape(h, root, t, k)
  {
  }

  lemma {:induction false} ShapeZip(h: Heap, root: Ptr, t: Tree, k: Ctx)
    requires Shape(h, root, t, k)
    ensures Shape(h, root, Zip(t, k), Top)
    decreases k
  {
    if k.Step? {
      ShapeUp(h, root, t, k);
      ShapeZip(h, root, Mk(k.d, t, k.id, k.sib, k.c), k.up);
    }
  }

  /** The same arena looked at from the sibling. */
  lemma {:induction false} ShapeSide(h: Heap, root: Ptr, t: Tree, k: Ctx)
    requires Shape(h, root, t, k) && k.Step?
    ensures Shape(h, root, k.sib, Step(k.up, Opp(k.d), k.id, k.c, t))
  {
    ShapeUp(h, root, t, k);
    ShapeDown(h, root, k.sib, Step(k.up, Opp(k.d), k.id, k.c, t));
  }

  lemma {:induction false} IdsIn(h: Heap, t: Tree, par: Ptr)
    requires At(h, t, par) && Uniq(t)
    ensures 0 !in Ids(t) && (t.T? ==> Id(t) in Ids(t)) && forall x <- Ids(t) :: x in h
  {
    if t.T? {
      IdsIn(h, t.l, t.id);
      IdsIn(h, t.r, t.id);
    }
  }

  lemma {:induction false} KIdsIn(h: Heap, root: Ptr, k: Ctx, hole: Ptr)
    requires CtxAt(h, root, k, hole) && KUniq(k)
    ensures 0 !in KIds(k) && (k.Step? ==> KId(k) in KIds(k)) && forall x <- KIds(k) :: x in h
    decreases k
  {
    if k.Step? {
      IdsIn(h, k.sib, k.id);
      KIdsIn(h, root, k.up, k.id);
    }
  }

  ghost predicate SameBut(h: Heap, h': Heap, changed: set<Ptr>) {
    h'.Keys == h.Keys && forall x <- h :: x !in changed ==> h'[x] == h[x]
  }

  /** Only the colour of the root of the tree in hand changes. */
  lemma {:induction false} ShapePaint(h: Heap, root: Ptr, t: Tree, k: Ctx, c: Color)
    requires Shape(h, root, t, k) && t.T?
    ensures t.id in h && Shape(h[t.id := h[t.id].(c := c)], root, Paint(t, c), k)
  {
    var h' := h[t.id := h[t.id].(c := c)];
    IdsIn(h, t, KId(k));
    KIdsIn(h, root, k, t.id);
    AtFrame(h, h', t.l, t.id);
    AtFrame(h, h', t.r, t.id);
    CtxFrame(h, h', root, k, t.id);
  }

  // ---- rotations ----

  /** __rb_change_child(): the hole of k now holds new. */
  ghost predicate Refilled(h: Heap, h': Heap, root: Ptr, root': Ptr, k: Ctx, new_: Ptr) {
    if k.Top? then root' == new_ else root' == root && k.id in h && Has(h', k.id, WithKid(h[k.id], k.d, new_))
  }

  ghost predicate Reparented(h: Heap, h': Heap, t: Tree, par: Ptr) {
    t.T? ==> t.id in h && Has(h', t.id, h[t.id].(parent := par))
  }

  /** The single rotation at o: its child n on side e takes its place and colour. */
  ghost predicate Rotated(h: Heap, h': Heap, e: Dir, n: Ptr, o: Ptr, b: Tree, c: Color) {
    && n in h && o in h
    && Has(h', n, WithKid(h[n], Opp(e), o).(parent := h[o].parent, c := h[o].c))
    && Has(h', o, WithKid(h[o], e, Id(b)).(parent := n, c := c))
    && Reparented(h, h', b, o)
  }

  lemma {:induction false} RotateIds(e: Dir, a: Tree, n: Ptr, b: Tree, cn: Color, o: Ptr, r: Tree, co: Color, c: Color)
    requires Uniq(Mk(e, Mk(e, a, n, b, cn), o, r, co))
    ensures var t, t' := Mk(e, Mk(e, a, n, b, cn), o, r, co), Mk(e, a, n, Mk(e, b, o, r, c), co);
      Uniq(t') && Ids(t') == Ids(t)
  {
    var h: Heap := map[];
    MkAt(h, e, a, n, b, cn, o);
    MkAt(h, e, Mk(e, a, n, b, cn), o, r, co, 0);
    MkAt(h, e, b, o, r, c, n);
    MkAt(h, e, a, n, Mk(e, b, o, r, c), co, 0);
  }

  lemma {:induction false} SameOf(h: Heap, h': Heap, changed: set<Ptr>, s: set<Ptr>)
    requires SameBut(h, h', changed) && s !! changed && forall x <- s :: x in h
    ensures Same(h, h', s)
  {
  }

  /** The parts of a tree about to be rotated. */
  ghost predicate RotateGiven(h: Heap, root: Ptr, e: Dir, a: Tree, n: Ptr, b: Tree, cn: Color, o: Ptr, r: Tree,
                            co: Color, k: Ctx) {
    && At(h, a, n) && At(h, b, n) && At(h, r, o) && CtxAt(h, root, k, o) && Uniq(b) && KUniq(k)
    && Has(h, n, MkNode(e, Id(a), Id(b), o, cn)) && Has(h, o, MkNode(e, n, Id(r), KId(k), co))
    && (forall x <- Ids(a) + Ids(b) + Ids(r) + KIds(k) :: x in h && x != n && x != o && x != 0) && n != o
    && Ids(a) !! Ids(b) !! Ids(r) !! KIds(k)
    && (b.T? ==> Id(b) in Ids(b)) && (k.Step? ==> KId(k) in KIds(k))
  }

  lemma {:induction false} RotateTake(h: Heap, root: Ptr, e: Dir, a: Tree, n: Ptr, b: Tree, cn: Color, o: Ptr,
                            r: Tree, co: Color, k: Ctx)
    requires Shape(h, root, Mk(e, Mk(e, a, n, b, cn), o, r, co), k)
    ensures RotateGiven(h, root, e, a, n, b, cn, o, r, co, k)
  {
    MkAt(h, e, a, n, b, cn, o);
    MkAt(h, e, Mk(e, a, n, b, cn), o, r, co, KId(k));
    IdsIn(h, a, n);
    IdsIn(h, b, n);
    IdsIn(h, r, o);
    KIdsIn(h, root, k, o);
  }

  lemma {:induction false} RotateKept(h: Heap, h': Heap, root: Ptr, root': Ptr, e: Dir, a: Tree, n: Ptr, b: Tree,
                            cn: Color, o: Ptr, r: Tree, co: Color, k: Ctx, c: Color)
    requires RotateGiven(h, root, e, a, n, b, cn, o, r, co, k)
    requires SameBut(h, h', {n, o, Id(b), KId(k)}) && Rotated(h, h', e, n, o, b, c)
      && Refilled(h, h', root, root', k, n)
    ensures At(h', a, n) && At(h', r, o)
  {
    SameOf(h, h', {n, o, Id(b), KId(k)}, Ids(a));
    AtFrame(h, h', a, n);
    SameOf(h, h', {n, o, Id(b), KId(k)}, Ids(r));
    AtFrame(h, h', r, o);
  }

  lemma {:induction false} RotateInner(h: Heap, h': Heap, root: Ptr, root': Ptr, e: Dir, a: Tree, n: Ptr, b: Tree,
                            cn: Color, o: Ptr, r: Tree, co: Color, k: Ctx, c: Color)
    requires RotateGiven(h, root, e, a, n, b, cn, o, r, co, k)
    requires SameBut(h, h', {n, o, Id(b), KId(k)}) && Rotated(h, h', e, n, o, b, c)
      && Refilled(h, h', root, root', k, n)
    ensures At(h', b, o)
  {
    SameOf(h, h', {n, o, Id(b), KId(k)}, Ids(b) - {Id(b)});
    AtReparent(h, h', b, n, o);
  }

  lemma {:induction false} RotateHole(h: Heap, h': Heap, root: Ptr, root': Ptr, e: Dir, a: Tree, n: Ptr, b: Tree,
                            cn: Color, o: Ptr, r: Tree, co: Color, k: Ctx, c: Color)
    requires RotateGiven(h, root, e, a, n, b, cn, o, r, co, k)
    requires SameBut(h, h', {n, o, Id(b), KId(k)}) && Rotated(h, h', e, n, o, b, c)
      && Refilled(h, h', root, root', k, n)
    ensures CtxAt(h', root', k, n)
  {
    SameOf(h, h', {n, o, Id(b), KId(k)}, KIds(k) - {KId(k)});
    CtxRefill(h, h', root, root', k, o, n);
  }

  lemma {:induction false} RotateParts(h: Heap, h': Heap, root: Ptr, root': Ptr, e: Dir, a: Tree, n: Ptr, b: Tree,
                            cn: Color, o: Ptr, r: Tree, co: Color, k: Ctx, c: Color)
    requires Shape(h, root, Mk(e, Mk(e, a, n, b, cn), o, r, co), k)
    requires SameBut(h, h', {n, o, Id(b), KId(k)}) && Rotated(h, h', e, n, o, b, c)
      && Refilled(h, h', root, root', k, n)
    ensures 0 !in h' && At(h', a, n) && At(h', b, o) && At(h', r, o) && CtxAt(h', root', k, n)
    ensures Has(h', n, MkNode(e, Id(a), o, KId(k), co)) && Has(h', o, MkNode(e, Id(b), Id(r), n, c))
  {
    RotateTake(h, root, e, a, n, b, cn, o, r, co, k);
    RotateKept(h, h', root, root', e, a, n, b, cn, o, r, co, k, c);
    RotateInner(h, h', root, root', e, a, n, b, cn, o, r, co, k, c);
    RotateHole(h, h', root, root', e, a, n, b, cn, o, r, co, k, c);
  }

  lemma {:induction false} RotateOk(h: Heap, h': Heap, root: Ptr, root': Ptr, e: Dir, a: Tree, n: Ptr, b: Tree,
                            cn: Color, o: Ptr, r: Tree, co: Color, k: Ctx, c: Color)
    requires Shape(h, root, Mk(e, Mk(e, a, n, b, cn), o, r, co), k)
    requires SameBut(h, h', {n, o, Id(b), KId(k)}) && Rotated(h, h', e, n, o, b, c)
      && Refilled(h, h', root, root', k, n)
    ensures Shape(h', root', Mk(e, a, n, Mk(e, b, o, r, c), co), k)
  {
    RotateParts(h, h', root, root', e, a, n, b, cn, o, r, co, k, c);
    RotateIds(e, a, n, b, cn, o, r, co, c);
    MkAt(h', e, b, o, r, c, n);
    MkAt(h', e, a, n, Mk(e, b, o, r, c), co, KId(k));
  }

  /** The double rotation at o: n, the inner child of its child m on side e, takes its place and colour. */
  ghost predicate Twisted(h: Heap, h': Heap, e: Dir, m: Ptr, b: Tree, n: Ptr, x: Tree, o: Ptr, cm: Color, c: Color) {
    && m in h && n in h && o in h
    && Has(h', m, WithKid(h[m], Opp(e), Id(b)).(parent := n, c := cm))
    && Has(h', n, MkNode(e, m, o, h[o].parent, h[o].c))
    && Has(h', o, WithKid(h[o], e, Id(x)).(parent := n, c := c))
    && Reparented(h, h', b, m) && Reparented(h, h', x, o)
  }

  /** The nodes a double rotation rewrites are all different. */
  ghost predicate TwistApart(m: Ptr, b: Tree, n: Ptr, x: Tree, o: Ptr, k: Ctx) {
    && m != n && m != o && n != o && m != 0 && n != 0 && o != 0
    && Id(b) != m && Id(b) != n && Id(b) != o && (b.T? ==> Id(b) != 0 && Id(b) != Id(x) && Id(b) != KId(k))
    && Id(x) != m && Id(x) != n && Id(x) != o && (x.T? ==> Id(x) != 0 && Id(x) != KId(k))
    && KId(k) != m && KId(k) != n && KId(k) != o
  }

  ghost predicate TwistPre(h: Heap, e: Dir, a: Tree, m: Ptr, b: Tree, n: Ptr, x: Tree, cn: Color, cm0: Color, o: Ptr,
                           r: Tree, co: Color, k: Ctx) {
    && TwistApart(m, b, n, x, o, k)
    && Has(h, n, MkNode(e, Id(b), Id(x), m, cn)) && Has(h, m, MkNode(e, Id(a), n, o, cm0))
      && Has(h, o, MkNode(e, m, Id(r), KId(k), co))
    && (b.T? ==> Id(b) in h) && (x.T? ==> Id(x) in h) && (k.Step? ==> KId(k) in h)
  }

  lemma {:induction false} TwistIsApart(h: Heap, root: Ptr, e: Dir, a: Tree, m: Ptr, b: Tree, n: Ptr, x: Tree,
                            cn: Color, cm0: Color, o: Ptr, r: Tree, co: Color, k: Ctx)
    requires Shape(h, root, Mk(e, a, m, Mk(e, b, n, x, cn), cm0), Step(k, e, o, co, r))
    ensures 0 !in h && TwistPre(h, e, a, m, b, n, x, cn, cm0, o, r, co, k)
  {
    var k1 := Step(k, e, o, co, r);
    ChildApart(h, e, a, m, b, n, x, cn, cm0, o);
    KIdsIn(h, root, k1, m);
    assert k.Step? ==> KId(k) in KIds(k);
  }

  lemma {:induction false} ChildApart(h: Heap, e: Dir, a: Tree, m: Ptr, b: Tree, n: Ptr, x: Tree, cn: Color,
                            cm0: Color, o: Ptr)
    requires var child := Mk(e, a, m, Mk(e, b, n, x, cn), cm0); At(h, child, o) && Uniq(child)
    ensures var child := Mk(e, a, m, Mk(e, b, n, x, cn), cm0);
      m in Ids(child) && n in Ids(child) && (b.T? ==> Id(b) in Ids(child)) && (x.T? ==> Id(x) in Ids(child))
    ensures m != n && m != 0 && n != 0
    ensures Id(b) != m && Id(b) != n && (b.T? ==> Id(b) in h && Id(b) != 0 && Id(b) != Id(x))
    ensures Id(x) != m && Id(x) != n && (x.T? ==> Id(x) in h && Id(x) != 0)
    ensures Has(h, n, MkNode(e, Id(b), Id(x), m, cn)) && Has(h, m, MkNode(e, Id(a), n, o, cm0))
  {
    MkAt(h, e, a, m, Mk(e, b, n, x, cn), cm0, o);
    MkAt(h, e, b, n, x, cn, m);
    IdsIn(h, b, n);
    IdsIn(h, x, n);
  }

  /** The arena between the two single rotations. */
  ghost function TwistHalf(h: Heap, h': Heap, e: Dir, m: Ptr, b: Tree, n: Ptr, x: Tree, o: Ptr, cm0: Color): (h1: Heap)
    requires m in h' && o in h && (b.T? ==> Id(b) in h')
  {
    var h1 := h[m := h'[m]][n := MkNode(e, m, Id(x), o, cm0)][o := WithKid(h[o], e, n)];
    if b.T? then h1[Id(b) := h'[Id(b)]] else h1
  }

  lemma {:induction false} TwistFirst(h: Heap, h': Heap, root: Ptr, e: Dir, a: Tree, m: Ptr, b: Tree, n: Ptr,
                            x: Tree, cn: Color, cm0: Color, o: Ptr, r: Tree, co: Color, k: Ctx, cm: Color, c: Color)
    requires 0 !in h && TwistPre(h, e, a, m, b, n, x, cn, cm0, o, r, co, k) && Twisted(h, h', e, m, b, n, x, o, cm, c)
    ensures var h1 := TwistHalf(h, h', e, m, b, n, x, o, cm0); var k1 := Step(k, e, o, co, r);
      SameBut(h, h1, {n, m, Id(b), KId(k1)}) && Rotated(h, h1, Opp(e), n, m, b, cm)
          && Refilled(h, h1, root, root, k1, n)
  {
  }

  lemma {:induction false} TwistSecondSame(h: Heap, h': Heap, e: Dir, a: Tree, m: Ptr, b: Tree, n: Ptr, x: Tree,
                            cn: Color, cm0: Color, o: Ptr, r: Tree, co: Color, k: Ctx)
    requires 0 !in h && TwistPre(h, e, a, m, b, n, x, cn, cm0, o, r, co, k)
    requires SameBut(h, h', {m, n, o, Id(b), Id(x), KId(k)})
    ensures SameBut(TwistHalf(h, h', e, m, b, n, x, o, cm0), h', {n, o, Id(x), KId(k)})
  {
    var h1 := TwistHalf(h, h', e, m, b, n, x, o, cm0);
    assert h1.Keys == h.Keys;
    forall y <- h1 | y != n && y != o && y != Id(x) && y != KId(k) ensures h'[y] == h1[y] {
      if y != m && y != Id(b) {
        assert h'[y] == h[y];
      }
    }
  }

  lemma {:induction false} HalfLookup(h: Heap, h': Heap, e: Dir, a: Tree, m: Ptr, b: Tree, n: Ptr, x: Tree,
                            cn: Color, cm0: Color, o: Ptr, r: Tree, co: Color, k: Ctx)
    requires TwistPre(h, e, a, m, b, n, x, cn, cm0, o, r, co, k) && m in h' && (b.T? ==> Id(b) in h')
    ensures var h1 := TwistHalf(h, h', e, m, b, n, x, o, cm0);
      && Has(h1, n, MkNode(e, m, Id(x), o, cm0)) && Has(h1, o, WithKid(h[o], e, n))
      && (x.T? ==> Has(h1, Id(x), h[Id(x)])) && (k.Step? ==> Has(h1, KId(k), h[KId(k)]))
  {
  }

  lemma {:induction false} TwistSecond(h: Heap, h1: Heap, h': Heap, root: Ptr, root': Ptr, e: Dir, m: Ptr, b: Tree,
                            n: Ptr, x: Tree, cm0: Color, o: Ptr, k: Ctx, cm: Color, c: Color)
    requires Twisted(h, h', e, m, b, n, x, o, cm, c) && Refilled(h, h', root, root', k, n)
    requires Has(h1, n, MkNode(e, m, Id(x), o, cm0)) && Has(h1, o, WithKid(h[o], e, n))
    requires (x.T? ==> Has(h1, Id(x), h[Id(x)])) && (k.Step? ==> Has(h1, KId(k), h[KId(k)]))
    ensures Rotated(h1, h', e, n, o, x, c) && Refilled(h1, h', root, root', k, n)
  {
  }

  lemma {:induction false} TwistStart(h: Heap, h': Heap, root: Ptr, e: Dir, a: Tree, m: Ptr, b: Tree, n: Ptr,
                            x: Tree, cn: Color, cm0: Color, o: Ptr, r: Tree, co: Color, k: Ctx, cm: Color, c: Color)
    requires Shape(h, root, Mk(e, a, m, Mk(e, b, n, x, cn), cm0), Step(k, e, o, co, r))
    requires TwistPre(h, e, a, m, b, n, x, cn, cm0, o, r, co, k) && Twisted(h, h', e, m, b, n, x, o, cm, c)
    ensures Shape(TwistHalf(h, h', e, m, b, n, x, o, cm0), root, Mk(e, Mk(e, a, m, b, cm), n, x, cm0),
      Step(k, e, o, co, r))
  {
    var f := Opp(e);
    TwistFirst(h, h', root, e, a, m, b, n, x, cn, cm0, o, r, co, k, cm, c);
    assert Mk(e, a, m, Mk(e, b, n, x, cn), cm0) == Mk(f, Mk(f, x, n, b, cn), m, a, cm0);
    RotateOk(h, TwistHalf(h, h', e, m, b, n, x, o, cm0), root, root, f, x, n, b, cn, m, a, cm0, Step(k, e, o, co, r),
        cm);
    assert Mk(f, x, n, Mk(f, b, m, a, cm), cm0) == Mk(e, Mk(e, a, m, b, cm), n, x, cm0);
  }

  /** A double rotation is two single ones: n above m, then n above o. */
  lemma {:induction false} TwistOk(h: Heap, h': Heap, root: Ptr, root': Ptr, e: Dir, a: Tree, m: Ptr, b: Tree,
                            n: Ptr, x: Tree, cn: Color, cm0: Color, o: Ptr, r: Tree, co: Color, k: Ctx, cm: Color,
                            c: Color)
    requires Shape(h, root, Mk(e, a, m, Mk(e, b, n, x, cn), cm0), Step(k, e, o, co, r))
    requires SameBut(h, h', {m, n, o, Id(b), Id(x), KId(k)}) && Twisted(h, h', e, m, b, n, x, o, cm, c)
      && Refilled(h, h', root, root', k, n)
    ensures Shape(h', root', Mk(e, Mk(e, a, m, b, cm), n, Mk(e, x, o, r, c), co), k)
  {
    TwistIsApart(h, root, e, a, m, b, n, x, cn, cm0, o, r, co, k);
    var h1 := TwistHalf(h, h', e, m, b, n, x, o, cm0);
    TwistStart(h, h', root, e, a, m, b, n, x, cn, cm0, o, r, co, k, cm, c);
    ShapeUp(h1, root, Mk(e, Mk(e, a, m, b, cm), n, x, cm0), Step(k, e, o, co, r));
    HalfLookup(h, h', e, a, m, b, n, x, cn, cm0, o, r, co, k);
    TwistSecond(h, h1, h', root, root', e, m, b, n, x, cm0, o, k, cm, c);
    TwistSecondSame(h, h', e, a, m, b, n, x, cn, cm0, o, r, co, k);
    RotateOk(h1, h', root, root', e, Mk(e, a, m, b, cm), n, x, cm0, o, r, co, k, c);
  }

  /** What the code reads before a single rotation: b is the inner child of n, k the context of o. */
  ghost predicate RotatePre(h: Heap, e: Dir, n: Ptr, b: Tree, o: Ptr, k: Ctx) {
    && n in h && o in h && Kid(h[n], Opp(e)) == Id(b) && h[o].parent == KId(k)
    && n != o && n != 0 && o != 0 && Id(b) != n && Id(b) != o && KId(k) != n && KId(k) != o
    && (b.T? ==> Id(b) != 0 && Id(b) in h && h[Id(b)].c == b.c && Id(b) != KId(k))
    && ParentPre(h, o, k)
  }

  ghost predicate ParentPre(h: Heap, o: Ptr, k: Ctx) {
    k.Step? ==> KId(k) != 0 && KId(k) in h && (if h[KId(k)].left == o then L else R) == k.d
  }

  lemma {:induction false} RotateReads(h: Heap, root: Ptr, e: Dir, a: Tree, n: Ptr, b: Tree, cn: Color, o: Ptr,
                            r: Tree, co: Color, k: Ctx)
    requires Shape(h, root, Mk(e, Mk(e, a, n, b, cn), o, r, co), k)
    ensures RotatePre(h, e, n, b, o, k)
  {
    MkAt(h, e, a, n, b, cn, o);
    MkAt(h, e, Mk(e, a, n, b, cn), o, r, co, KId(k));
    IdsIn(h, b, n);
    KIdsIn(h, root, k, o);
    if k.Step? {
      assert k.sib.T? ==> k.sib.id in Ids(k.sib);
    }
  }

  // ---- the code ----

  class Root {
    var h: Heap
    var node: Ptr

    /** rb_set_parent_color() */
    method SetParentColor(x: Ptr, p: Ptr, c: Color)
      requires x in h
      modifies this`h
      ensures h == old(h)[x := old(h[x]).(parent := p, c := c)]
    {
      h := h[x := h[x].(parent := p, c := c)];
    }

    /** WRITE_ONCE(x->rb_left, y) or WRITE_ONCE(x->rb_right, y) */
    method SetKid(x: Ptr, d: Dir, y: Ptr)
      requires x in h
      modifies this`h
      ensures h == old(h)[x := WithKid(old(h[x]), d, y)]
    {
      h := h[x := WithKid(h[x], d, y)];
    }

    /** __rb_rotate_set_parents(), with __rb_change_child() */
    method RotateSetParents(o: Ptr, n: Ptr, c: Color)
      requires o in h && n in h && o != n && o != 0 && n != 0
      requires h[o].parent != 0 ==> h[o].parent in h && h[o].parent != o && h[o].parent != n
      modifies this
      ensures h.Keys == old(h.Keys)
      ensures h[n] == old(h[n].(parent := h[o].parent, c := h[o].c)) && h[o] == old(h[o]).(parent := n, c := c)
      ensures forall x <- h :: x != o && x != n && x != old(h[o].parent) ==> h[x] == old(h)[x]
      ensures var p := old(h[o].parent);
        if p == 0 then node == n
          else node == old(node) && h[p] == WithKid(old(h)[p], if old(h)[p].left == o then L else R, n)
    {
      var parent := h[o].parent;
      SetParentColor(n, h[o].parent, h[o].c);
      SetParentColor(o, n, c);
      if parent != 0 {
        if h[parent].left == o {
          SetKid(parent, L, n);
        } else {
          SetKid(parent, R, n);
        }
      } else {
        node := n;
      }
    }

    /** The stores of a single rotation: n, on side e of o, takes its place and colour; the inner child of
        n moves to o, painted black if asked. */
    method RotateStores(e: Dir, n: Ptr, o: Ptr, c: Color, paint: bool, ghost b: Tree, ghost k: Ctx)
      requires RotatePre(h, e, n, b, o, k) && (paint ==> !IsRed(b))
      modifies this
      ensures SameBut(old(h), h, {n, o, Id(b), KId(k)}) && Rotated(old(h), h, e, n, o, b, c)
        && Refilled(old(h), h, old(node), node, k, n)
    {
      var tmp := Kid(h[n], Opp(e));
      SetKid(o, e, tmp);
      SetKid(n, Opp(e), o);
      if tmp != 0 {
        SetParentColor(tmp, o, if paint then Black else h[tmp].c);
      }
      RotateSetParents(o, n, c);
    }

    /** The rotation of __rb_insert() case 3 and of ____rb_erase_color() cases 1 and 4. */
    method Rotate(e: Dir, n: Ptr, o: Ptr, c: Color, paint: bool, ghost a: Tree, ghost b: Tree, ghost cn: Color,
                  ghost r: Tree, ghost co: Color, ghost k: Ctx)
      requires Shape(h, node, Mk(e, Mk(e, a, n, b, cn), o, r, co), k) && (paint ==> !IsRed(b))
      modifies this
      ensures Shape(h, node, Mk(e, a, n, Mk(e, b, o, r, c), co), k)
    {
      RotateReads(h, node, e, a, n, b, cn, o, r, co, k);
      RotateStores(e, n, o, c, paint, b, k);
      RotateOk(old(h), h, old(node), node, e, a, n, b, cn, o, r, co, k, c);
    }

    /** The first stores of a double rotation: m goes below n on side e and takes over its child there. */
    method LowerStores(e: Dir, m: Ptr, n: Ptr, cm: Color, ghost b: Tree)
      requires m in h && n in h && m != n && n != 0 && Kid(h[n], e) == Id(b) && Id(b) != m && Id(b) != n && !IsRed(b)
      requires b.T? ==> Id(b) != 0 && Id(b) in h && h[Id(b)].c == b.c
      modifies this`h
      ensures SameBut(old(h), h, {m, n, Id(b)}) && Reparented(old(h), h, b, m)
      ensures h[m] == WithKid(old(h)[m], Opp(e), Id(b)).(parent := n, c := cm) && h[n] == WithKid(old(h)[n], e, m)
    {
      var tmp := Kid(h[n], e);
      SetKid(m, Opp(e), tmp);
      SetKid(n, e, m);
      if tmp != 0 {
        SetParentColor(tmp, m, Black);
      }
      SetParentColor(m, n, cm);
    }

    /** The stores of __rb_insert() cases 2 and 3, and of ____rb_erase_color() cases 3 and 4. */
    method TwistStores(e: Dir, m: Ptr, n: Ptr, o: Ptr, c: Color, paint: bool, ghost a: Tree, ghost b: Tree,
                       ghost x: Tree, ghost cn: Color, ghost cm: Color, ghost r: Tree, ghost co: Color, ghost k: Ctx)
      requires 0 !in h && TwistPre(h, e, a, m, b, n, x, cn, cm, o, r, co, k) && ColorsPre(h, b, x) && ParentPre(h, o, k)
      requires !IsRed(b) && (paint ==> !IsRed(x))
      modifies this
      ensures SameBut(old(h), h, {m, n, o, Id(b), Id(x), KId(k)}) && Twisted(old(h), h, e, m, b, n, x, o, c, c)
        && Refilled(old(h), h, old(node), node, k, n)
    {
      ghost var h0, root0 := h, node;
      LowerStores(e, m, n, c, b);
      ghost var h1 := h;
      LoweredReads(h0, h1, e, a, m, b, n, x, cn, cm, o, r, co, k);
      RotateStores(e, n, o, c, paint, x, k);
      LoweredTwisted(h0, h1, h, e, a, m, b, n, x, cn, cm, o, r, co, k, c);
      LoweredSame(h0, h1, h, root0, node, m, b, n, x, o, k);
    }

    /** __rb_insert() cases 2 and 3: n, the inner child of m, goes above m and then above o. */
    method TwistInsert(e: Dir, m: Ptr, n: Ptr, o: Ptr, ghost a: Tree, ghost b: Tree, ghost x: Tree, ghost cn: Color,
                       ghost cm: Color, ghost r: Tree, ghost co: Color, ghost k: Ctx)
      requires Shape(h, node, Mk(e, a, m, Mk(e, b, n, x, cn), cm), Step(k, e, o, co, r)) && !IsRed(b) && !IsRed(x)
      modifies this
      ensures Shape(h, node, Mk(e, Mk(e, a, m, b, Red), n, Mk(e, x, o, r, Red), co), k)
    {
      TwistReads(h, node, e, a, m, b, n, x, cn, cm, o, r, co, k);
      TwistStores(e, m, n, o, Red, true, a, b, x, cn, cm, r, co, k);
      TwistOk(old(h), h, old(node), node, e, a, m, b, n, x, cn, cm, o, r, co, k, Red, Red);
    }

    /** ____rb_erase_color() cases 3 and 4. */
    method TwistErase(e: Dir, m: Ptr, n: Ptr, o: Ptr, ghost a: Tree, ghost b: Tree, ghost x: Tree, ghost cn: Color,
                      ghost cm: Color, ghost r: Tree, ghost co: Color, ghost k: Ctx)
      requires Shape(h, node, Mk(e, a, m, Mk(e, b, n, x, cn), cm), Step(k, e, o, co, r)) && !IsRed(b)
      modifies this
      ensures Shape(h, node, Mk(e, Mk(e, a, m, b, Black), n, Mk(e, x, o, r, Black), co), k)
    {
      TwistReads(h, node, e, a, m, b, n, x, cn, cm, o, r, co, k);
      TwistStores(e, m, n, o, Black, false, a, b, x, cn, cm, r, co, k);
      TwistOk(old(h), h, old(node), node, e, a, m, b, n, x, cn, cm, o, r, co, k, Black, Black);
    }

    /** __rb_insert() case 1: parent and uncle turn black, the grandparent red. */
    method FlipInsert(p: Ptr, u: Ptr, g: Ptr, ghost t: Tree, ghost k: Ctx)
      requires Shape(h, node, t, k) && k.Step? && k.up.Step? && IsRed(k.up.sib) && p == k.id && g == k.up.id
        && u == k.up.sib.id
      modifies this`h
      ensures Shape(h, node, Mk(k.up.d, Mk(k.d, t, p, k.sib, Black), g, Paint(k.up.sib, Black), Red), k.up.up)
    {
      ghost var k1 := k.up;
      ghost var pt := Mk(k.d, t, p, k.sib, k.c);
      ShapeUp(h, node, t, k);
      ShapeSide(h, node, pt, k1);
      ghost var side := Step(k1.up, Opp(k1.d), g, k1.c, pt);
      ShapePaint(h, node, k1.sib, side, Black);
      SetParentColor(u, g, Black);
      ghost var u1 := Paint(k1.sib, Black);
      ShapeSide(h, node, u1, side);
      ShapePaint(h, node, pt, Step(k1.up, k1.d, g, k1.c, u1), Black);
      SetParentColor(p, g, Black);
      ghost var pt1 := Paint(pt, Black);
      ShapeUp(h, node, pt1, Step(k1.up, k1.d, g, k1.c, u1));
      ShapePaint(h, node, Mk(k1.d, pt1, g, u1, k1.c), k1.up, Red);
      SetParentColor(g, h[g].parent, Red);
    }

    /** What the code reads at the node in hand, its parent and its grandparent. */
    lemma {:induction false} InsertReads(t: Tree, k: Ctx)
      requires Shape(h, node, t, k) && t.T? && k.Step?
      ensures k.id != 0 && k.id in h && h[k.id].c == k.c && h[k.id].parent == KId(k.up)
      ensures Kid(h[k.id], k.d) == t.id && Kid(h[k.id], Opp(k.d)) == Id(k.sib) && t.id != Id(k.sib) && t.id != 0
      ensures k.sib.T? ==> Id(k.sib) != 0 && Id(k.sib) in h && h[Id(k.sib)].c == k.sib.c
    {
      KIdsIn(h, node, k, t.id);
      IdsIn(h, t, k.id);
      IdsIn(h, k.sib, k.id);
    }

    /** One turn of the loop of __rb_insert() at the red node nd. */
    method InsertTurn(nd: Ptr, ghost t: Tree, ghost k: Ctx) returns (more: bool, next: Ptr)
      requires Shape(h, node, t, k) && RedInHand(t, k, nd)
      modifies this
      ensures var n := InsertStep(t, k); Shape(h, node, n.t, n.k) && more == n.More? && (more ==> next == n.t.id)
    {
      next, more := nd, false;
      IdsIn(h, t, KId(k));
      var parent := h[nd].parent;
      if parent == 0 {
        assert k.Top? by { if k.Step? { InsertReads(t, k); } }
        ShapePaint(h, node, t, k, Black);
        SetParentColor(nd, 0, Black);
        return;
      }
      InsertReads(t, k);
      if h[parent].c == Black {
        return;
      }
      var gparent := h[parent].parent;
      ghost var pt := Mk(k.d, t, k.id, k.sib, k.c);
      ShapeUp(h, node, t, k);
      InsertReads(pt, k.up);
      ghost var up := k.up;
      var e := if parent != h[gparent].right then L else R;
      assert e == up.d;
      var tmp := Kid(h[gparent], Opp(e));
      if tmp != 0 && h[tmp].c == Red {
        FlipInsert(parent, tmp, gparent, t, k);
        return true, gparent;
      }
      tmp := Kid(h[parent], Opp(e));
      if nd == tmp {
        assert k.d == Opp(e);
        assert pt == Mk(e, k.sib, parent, Mk(e, Sub(t, e), nd, Sub(t, Opp(e)), Red), Red);
        TwistInsert(e, parent, nd, gparent, k.sib, Sub(t, e), Sub(t, Opp(e)), Red, Red, up.sib, up.c, up.up);
      } else {
        assert k.d == e;
        ShapeUp(h, node, pt, up);
        Rotate(e, parent, gparent, Red, true, t, k.sib, Red, up.sib, up.c, up.up);
      }
    }

    /** __rb_insert(): rebalance after nd was linked as a red leaf. */
    method InsertColor(nd: Ptr, ghost t0: Tree, ghost k0: Ctx) returns (ghost w: Tree)
      requires Shape(h, node, t0, k0) && RedInHand(t0, k0, nd)
      modifies this
      ensures Shape(h, node, w, Top) && Valid(w) && InOrder(w) == InOrder(Zip(t0, k0))
    {
      ghost var t, k := t0, k0;
      var cur, more := nd, true;
      w := InsertFix(t0, k0);
      InsertFixOk(t0, k0, BlackHeight(t0));
      while more
        invariant Shape(h, node, t, k)
        invariant if more then RedInHand(t, k, cur) && InsertFix(t, k) == w else Zip(t, k) == w
        decreases if more then 1 + Depth(k) else 0
      {
        ghost var n := InsertNext(t, k, cur);
        more, cur := InsertTurn(cur, t, k);
        t, k := n.t, n.k;
      }
      ShapeZip(h, node, t, k);
    }

    /** ____rb_erase_color() case 1: a red sibling goes above the parent. */
    method EraseRotate(e: Dir, sibling: Ptr, parent: Ptr, ghost t: Tree, ghost k: Ctx)
      requires Shape(h, node, t, k) && k.Step? && IsRed(k.sib) && Sound(k.sib) && e == Opp(k.d)
        && sibling == k.sib.id && parent == k.id
      modifies this
      ensures Shape(h, node, t, EraseTurn(k))
    {
      ghost var (d, near, far) := (k.d, Sub(k.sib, k.d), Sub(k.sib, e));
      ShapeUp(h, node, t, k);
      assert Mk(d, t, k.id, k.sib, k.c) == Mk(e, Mk(e, far, sibling, near, Red), parent, t, k.c);
      SubSound(k.sib, d);
      Rotate(e, sibling, parent, Red, true, far, near, Red, t, k.c, k.up);
      ghost var k1 := Step(k.up, d, sibling, k.c, far);
      assert Mk(e, far, sibling, Mk(e, near, parent, t, Red), k.c) ==
        Mk(d, Mk(d, t, parent, near, Red), sibling, far, k.c);
      ShapeDown(h, node, Mk(d, t, parent, near, Red), k1);
      ShapeDown(h, node, t, Step(k1, d, parent, Red, near));
    }

    /** Case 4: the sibling goes above the parent, its outer child turns black. */
    method EraseLast(e: Dir, sibling: Ptr, parent: Ptr, outer: Ptr, ghost t: Tree, ghost k: Ctx)
      requires Shape(h, node, t, k) && k.Step? && k.sib.T? && e == Opp(k.d) && sibling == k.sib.id && parent == k.id
      requires Sub(k.sib, e).T? && outer == Sub(k.sib, e).id
      modifies this
      ensures var (d, near, far) := (k.d, Sub(k.sib, k.d), Sub(k.sib, e));
        Shape(h, node, Mk(d, Mk(d, t, parent, near, Black), sibling, Paint(far, Black), k.c), k.up)
    {
      ghost var (d, near, far, sc) := (k.d, Sub(k.sib, k.d), Sub(k.sib, e), k.sib.c);
      ShapeSide(h, node, t, k);
      ghost var side := Step(k.up, e, parent, k.c, t);
      assert k.sib == Mk(e, far, sibling, near, sc);
      ShapeDown(h, node, far, Step(side, e, sibling, sc, near));
      ShapePaint(h, node, far, Step(side, e, sibling, sc, near), Black);
      SetParentColor(outer, sibling, Black);
      ghost var far1 := Paint(far, Black);
      ShapeUp(h, node, far1, Step(side, e, sibling, sc, near));
      ShapeUp(h, node, Mk(e, far1, sibling, near, sc), side);
      Rotate(e, sibling, parent, Black, false, far1, near, sc, t, k.c, k.up);
      assert Mk(e, far1, sibling, Mk(e, near, parent, t, Black), k.c) ==
        Mk(d, Mk(d, t, parent, near, Black), sibling, far1, k.c);
    }

    /** Case 2: the sibling turns red, the parent black if it was red. */
    method EraseFlip(sibling: Ptr, parent: Ptr, ghost t: Tree, ghost k: Ctx)
      requires Shape(h, node, t, k) && k.Step? && k.sib.T? && sibling == k.sib.id && parent == k.id
      modifies this
      ensures Shape(h, node, Mk(k.d, t, parent, Paint(k.sib, Red), Black), k.up)
    {
      ShapeSide(h, node, t, k);
      ghost var side := Step(k.up, Opp(k.d), parent, k.c, t);
      ShapePaint(h, node, k.sib, side, Red);
      SetParentColor(sibling, parent, Red);
      ghost var s1 := Paint(k.sib, Red);
      ShapeUp(h, node, s1, side);
      ghost var pt := Mk(k.d, t, parent, s1, k.c);
      assert pt == Mk(Opp(k.d), s1, parent, t, k.c);
      ShapePaint(h, node, pt, k.up, Black);
      if h[parent].c == Red {
        SetParentColor(parent, h[parent].parent, Black);
      }
    }

    /** What the code reads at the parent and the sibling. */
    lemma {:induction false} EraseReads(t: Tree, k: Ctx)
      requires Shape(h, node, t, k) && k.Step? && k.sib.T?
      ensures k.id != 0 && k.id in h && h[k.id].c == k.c && h[k.id].parent == KId(k.up)
        && (k.up.Step? ==> KId(k.up) != 0)
      ensures Kid(h[k.id], k.d) == Id(t) && Kid(h[k.id], Opp(k.d)) == Id(k.sib) && Id(t) != Id(k.sib)
      ensures Has(h, k.sib.id, Node(Id(k.sib.l), Id(k.sib.r), k.id, k.sib.c)) && k.sib.id != 0
      ensures var x := Sub(k.sib, k.d);
        Kid(h[k.sib.id], k.d) == Id(x) && (x.T? ==> Id(x) != 0 && Id(x) in h && h[Id(x)].c == x.c)
      ensures var x := Sub(k.sib, Opp(k.d));
        Kid(h[k.sib.id], Opp(k.d)) == Id(x) && (x.T? ==> Id(x) != 0 && Id(x) in h && h[Id(x)].c == x.c)
    {
      KIdsIn(h, node, k, Id(t));
      IdsIn(h, t, k.id);
      IdsIn(h, k.sib, k.id);
      IdsIn(h, k.sib.l, k.sib.id);
      IdsIn(h, k.sib.r, k.sib.id);
    }

    /** Cases 2 to 4, with a black sibling. */
    method EraseCases(d: Dir, sibling: Ptr, parent: Ptr, ghost t: Tree, ghost k: Ctx) returns (more: bool, parent': Ptr)
      requires Shape(h, node, t, k) && k.Step? && k.sib.T? && Sound(k.sib) && d == k.d && sibling == k.sib.id
        && parent == k.id
      modifies this
      ensures var n := EraseFinish(t, k);
        Shape(h, node, n.t, n.k) && more == n.More? && (more ==> parent == Id(n.t) && n.k.Step? && parent' == n.k.id)
    {
      more, parent' := false, parent;
      EraseReads(t, k);
      var tmp1 := Kid(h[sibling], Opp(d));
      if tmp1 == 0 || h[tmp1].c == Black {
        var tmp2 := Kid(h[sibling], d);
        if tmp2 == 0 || h[tmp2].c == Black {
          var wasRed := h[parent].c == Red;
          var up := h[parent].parent;
          EraseFlip(sibling, parent, t, k);
          if !wasRed {
            parent', more := up, up != 0;
          }
        } else {
          EraseInner(d, sibling, tmp2, parent, t, k);
        }
      } else {
        EraseLast(Opp(d), sibling, parent, tmp1, t, k);
      }
    }

    /** One turn of the loop of ____rb_erase_color(): nd, below parent, is one black node short. */
    method EraseTurns(nd: Ptr, parent: Ptr, ghost t: Tree, ghost k: Ctx, ghost b: nat)
      returns (more: bool, nd': Ptr, parent': Ptr)
      requires Shape(h, node, t, k) && Short(t, k, b) && HasSibling(k) && nd == Id(t) && parent == k.id
      modifies this
      ensures var n := EraseStep(t, k);
        Shape(h, node, n.t, n.k) && more == n.More? && (more ==> nd' == Id(n.t) && n.k.Step? && parent' == n.k.id)
    {
      EraseReads(t, k);
      TurnSound(t, k, b);
      var d := if nd != h[parent].right then L else R;
      var sibling := Kid(h[parent], Opp(d));
      if h[sibling].c == Red {
        var tmp1 := Kid(h[sibling], d);
        EraseRotate(Opp(d), sibling, parent, t, k);
        sibling := tmp1;
      }
      nd' := parent;
      more, parent' := EraseCases(d, sibling, parent, t, EraseTurn(k));
    }

    /** Cases 3 and 4: the inner child of the sibling goes above the sibling and then above the parent. */
    method EraseInner(d: Dir, sibling: Ptr, inner: Ptr, parent: Ptr, ghost t: Tree, ghost k: Ctx)
      requires Shape(h, node, t, k) && k.Step? && k.sib.T? && d == k.d && sibling == k.sib.id && parent == k.id
        && Sound(k.sib)
      requires IsRed(Sub(k.sib, d)) && inner == Sub(k.sib, d).id
      modifies this
      ensures var (near, far) := (Sub(k.sib, d), Sub(k.sib, Opp(d)));
        Shape(h, node, Mk(d, Mk(d, t, parent, Sub(near, d), Black), inner,
            Mk(d, Sub(near, Opp(d)), sibling, far, Black), k.c), k.up)
    {
      var e := Opp(d);
      ghost var (near, far) := (Sub(k.sib, d), Sub(k.sib, e));
      ShapeSide(h, node, t, k);
      SubSound(k.sib, d);
      SubSound(near, e);
      assert k.sib == Mk(e, far, sibling, Mk(e, Sub(near, e), inner, Sub(near, d), Red), k.sib.c);
      TwistErase(e, sibling, inner, parent, far, Sub(near, e), Sub(near, d), Red, k.sib.c, t, k.c, k.up);
    }

    /** ____rb_erase_color(): restore the rules from a tree one black node short below the parent. */
    method EraseColor(parent0: Ptr, ghost t0: Tree, ghost k0: Ctx, ghost b0: nat) returns (ghost w: Tree)
      requires Shape(h, node, t0, k0) && Short(t0, k0, b0) && t0.Nil? && parent0 == k0.id
      modifies this
      ensures Shape(h, node, w, Top) && Valid(w) && InOrder(w) == InOrder(Zip(t0, k0))
    {
      ghost var t, k, b := t0, k0, b0;
      var nd, parent, more := 0, parent0, true;
      w := EraseFix(t0, k0);
      EraseFixOk(t0, k0, b0);
      while more
        invariant Shape(h, node, t, k)
        invariant if more then ShortInHand(t, k, b, nd, parent) && EraseFix(t, k) == w else Zip(t, k) == w
        decreases if more then 1 + Depth(k) else 0
      {
        ghost var n := EraseNext(t, k, b, nd, parent);
        more, nd, parent := EraseTurns(nd, parent, t, k, b);
        t, k, b := n.t, n.k, b + 1;
      }
      ShapeZip(h, node, t, k);
    }
  }

  ghost predicate ShortInHand(t: Tree, k: Ctx, b: nat, nd: Ptr, parent: Ptr) {
    Short(t, k, b) && nd == Id(t) && parent == k.id
  }

  lemma {:induction false} EraseNext(t: Tree, k: Ctx, b: nat, nd: Ptr, parent: Ptr) returns (n: Next)
    requires ShortInHand(t, k, b, nd, parent)
    ensures HasSibling(k) && n == EraseStep(t, k)
    ensures n.More? ==> Short(n.t, n.k, b + 1) && EraseFix(n.t, n.k) == EraseFix(t, k) && Depth(n.k) < Depth(k)
    ensures n.Done? ==> Zip(n.t, n.k) == EraseFix(t, k)
  {
    ShortHasSibling(t, k, b);
    n := EraseStep(t, k);
    TurnSound(t, k, b);
    FinishSound(t, EraseTurn(k), b);
    if n.More? {
      StepShrinks(t, k);
    }
  }

  /** nd is a red node, sound below and fitting but for its colour above. */
  ghost predicate RedInHand(t: Tree, k: Ctx, nd: Ptr) {
    IsRed(t) && t.id == nd && Sound(t) && Fits(k, BlackHeight(t))
  }

  function Depth(k: Ctx): nat
    decreases k
  {
    if k.Top? then 0 else 1 + Depth(k.up)
  }

  lemma {:induction false} InsertNext(t: Tree, k: Ctx, nd: Ptr) returns (n: Next)
    requires RedInHand(t, k, nd)
    ensures n == InsertStep(t, k)
    ensures n.More? ==> RedInHand(n.t, n.k, n.t.id) && InsertFix(n.t, n.k) == InsertFix(t, k) && Depth(n.k) < Depth(k)
    ensures n.Done? ==> Zip(n.t, n.k) == InsertFix(t, k)
  {
    n := InsertStep(t, k);
    InsertStepSound(t, k, BlackHeight(t));
  }

  lemma {:induction false} LoweredReads(h0: Heap, h1: Heap, e: Dir, a: Tree, m: Ptr, b: Tree, n: Ptr, x: Tree,
                            cn: Color, cm: Color, o: Ptr, r: Tree, co: Color, k: Ctx)
    requires 0 !in h0 && TwistPre(h0, e, a, m, b, n, x, cn, cm, o, r, co, k) && ColorsPre(h0, b, x)
      && ParentPre(h0, o, k)
    requires SameBut(h0, h1, {m, n, Id(b)}) && h1[n] == WithKid(h0[n], e, m)
    ensures RotatePre(h1, e, n, x, o, k)
  {
    assert h1[o] == h0[o];
    assert x.T? ==> h1[Id(x)] == h0[Id(x)];
    assert k.Step? ==> h1[KId(k)] == h0[KId(k)];
  }

  lemma {:induction false} LoweredTwisted(h0: Heap, h1: Heap, h2: Heap, e: Dir, a: Tree, m: Ptr, b: Tree, n: Ptr,
                            x: Tree, cn: Color, cm: Color, o: Ptr, r: Tree, co: Color, k: Ctx, c: Color)
    requires 0 !in h0 && TwistPre(h0, e, a, m, b, n, x, cn, cm, o, r, co, k)
    requires SameBut(h0, h1, {m, n, Id(b)}) && Reparented(h0, h1, b, m)
    requires h1[m] == WithKid(h0[m], Opp(e), Id(b)).(parent := n, c := c) && h1[n] == WithKid(h0[n], e, m)
    requires SameBut(h1, h2, {n, o, Id(x), KId(k)}) && Rotated(h1, h2, e, n, o, x, c)
    ensures Twisted(h0, h2, e, m, b, n, x, o, c, c)
  {
    assert h1[o] == h0[o];
    assert h2[m] == h1[m];
    assert x.T? ==> h1[Id(x)] == h0[Id(x)];
    assert b.T? ==> h2[Id(b)] == h1[Id(b)];
  }

  lemma {:induction false} LoweredSame(h0: Heap, h1: Heap, h2: Heap, root0: Ptr, root: Ptr, m: Ptr, b: Tree, n: Ptr,
                            x: Tree, o: Ptr, k: Ctx)
    requires 0 !in h0 && TwistApart(m, b, n, x, o, k) && (k.Step? ==> k.id in h0)
    requires SameBut(h0, h1, {m, n, Id(b)}) && SameBut(h1, h2, {n, o, Id(x), KId(k)})
      && Refilled(h1, h2, root0, root, k, n)
    ensures SameBut(h0, h2, {m, n, o, Id(b), Id(x), KId(k)}) && Refilled(h0, h2, root0, root, k, n)
  {
    assert k.Step? ==> h1[KId(k)] == h0[KId(k)];
  }

  ghost predicate ColorsPre(h: Heap, b: Tree, x: Tree) {
    (b.T? ==> Id(b) in h && h[Id(b)].c == b.c) && (x.T? ==> Id(x) in h && h[Id(x)].c == x.c)
  }

  lemma {:induction false} TwistReads(h: Heap, root: Ptr, e: Dir, a: Tree, m: Ptr, b: Tree, n: Ptr, x: Tree,
                            cn: Color, cm: Color, o: Ptr, r: Tree, co: Color, k: Ctx)
    requires Shape(h, root, Mk(e, a, m, Mk(e, b, n, x, cn), cm), Step(k, e, o, co, r))
    ensures 0 !in h && TwistPre(h, e, a, m, b, n, x, cn, cm, o, r, co, k)
    ensures ColorsPre(h, b, x) && ParentPre(h, o, k)
  {
    TwistIsApart(h, root, e, a, m, b, n, x, cn, cm, o, r, co, k);
    MkAt(h, e, a, m, Mk(e, b, n, x, cn), cm, o);
    MkAt(h, e, b, n, x, cn, m);
    KIdsIn(h, root, k, o);
    if k.Step? {
      assert k.sib.T? ==> k.sib.id in Ids(k.sib);
    }
  }
}
