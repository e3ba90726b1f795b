/** Red-black rebalancing (lib/rbtree.c) on values: a tree and the context above the node in hand.
    The two mirrored branches of the code are one branch with a direction. */
module RbTree {

  type Ptr = nat
  datatype Color = Red | Black
  datatype Dir = L | R

  function Opp(d: Dir): Dir { if d == L then R else L }

  datatype Tree = Nil | T(l: Tree, id: Ptr, r: Tree, c: Color)

  /** A node with children given by direction: a on side d, b on the other. */
  function Mk(d: Dir, a: Tree, id: Ptr, b: Tree, c: Color): (t: Tree) {
    if d == L then T(a, id, b, c) else T(b, id, a, c)
  }

  function Sub(t: Tree, d: Dir): (s: Tree)
    requires t.T?
  {
    if d == L then t.l else t.r
  }

  /** The path from a node up to the root: the node hangs on side d of id; sib is on the other. */
  datatype Ctx = Top | Step(up: Ctx, d: Dir, id: Ptr, c: Color, sib: Tree)

  function Zip(t: Tree, k: Ctx): (w: Tree)
    decreases k
  {
    if k.Top? then t else Zip(Mk(k.d, t, k.id, k.sib, k.c), k.up)
  }

  function InOrder(t: Tree): (s: seq<Ptr>) {
    if t.Nil? then [] else InOrder(t.l) + [t.id] + InOrder(t.r)
  }

  function Around(d: Dir, s: seq<Ptr>, id: Ptr, sib: seq<Ptr>): seq<Ptr> {
    if d == L then s + [id] + sib else sib + [id] + s
  }

  /** The in-order sequence of a context around the sequence of its hole. */
  function Wrap(k: Ctx, s: seq<Ptr>): (w: seq<Ptr>)
    decreases k
  {
    if k.Top? then s else Wrap(k.up, Around(k.d, s, k.id, InOrder(k.sib)))
  }

  lemma {:induction false} ZipInOrder(t: Tree, k: Ctx)
    ensures InOrder(Zip(t, k)) == Wrap(k, InOrder(t))
    decreases k
  {
    if k.Step? {
      ZipInOrder(Mk(k.d, t, k.id, k.sib, k.c), k.up);
    }
  }

  // ---- the rules ----

  predicate IsRed(t: Tree) { t.T? && t.c == Red }

  function Unit(c: Color): nat { if c == Black then 1 else 0 }

  function BlackHeight(t: Tree): nat { if t.Nil? then 0 else BlackHeight(t.l) + Unit(t.c) }

  /** Rules 4 and 5 below a node: red nodes have black children, all paths have as many black nodes. */
  predicate Sound(t: Tree) {
    t.T? ==> Sound(t.l) && Sound(t.r) && BlackHeight(t.l) == BlackHeight(t.r) && (t.c == Red ==>
        !IsRed(t.l) && !IsRed(t.r))
  }

  lemma {:induction false} MkSound(d: Dir, a: Tree, id: Ptr, b: Tree, c: Color)
    requires Sound(a) && Sound(b) && BlackHeight(a) == BlackHeight(b) && (c == Red ==> !IsRed(a) && !IsRed(b))
    ensures Sound(Mk(d, a, id, b, c)) && BlackHeight(Mk(d, a, id, b, c)) == BlackHeight(a) + Unit(c)
  {
  }

  lemma {:induction false} SubSound(t: Tree, d: Dir)
    requires Sound(t) && t.T?
    ensures Sound(Sub(t, d)) && BlackHeight(Sub(t, d)) + Unit(t.c) == BlackHeight(t)
      && (t.c == Red ==> !IsRed(Sub(t, d)))
    ensures Sound(Paint(t, Black)) && BlackHeight(Paint(t, Black)) == BlackHeight(Sub(t, d)) + 1
  {
  }

  /** A red-black tree: sound, with a black root. */
  predicate Valid(t: Tree) { Sound(t) && !IsRed(t) }

  /** A context that makes a valid tree from any black-rooted subtree of black height b. */
  predicate Fits(k: Ctx, b: nat)
    decreases k
  {
    k.Step? ==>
      && Sound(k.sib) && BlackHeight(k.sib) == b
      && (k.c == Red ==> !IsRed(k.sib) && k.up.Step? && k.up.c == Black)
      && Fits(k.up, b + Unit(k.c))
  }

  /** A subtree whose root colour the context tolerates. */
  lemma {:induction false} ZipValid(t: Tree, k: Ctx, b: nat)
    requires Sound(t) && BlackHeight(t) == b && Fits(k, b)
    requires IsRed(t) ==> k.Step? && k.c == Black
    ensures Valid(Zip(t, k))
    decreases k
  {
    if k.Step? {
      ZipValid(Mk(k.d, t, k.id, k.sib, k.c), k.up, b + Unit(k.c));
    }
  }

  function Paint(t: Tree, c: Color): (p: Tree) { if t.T? then t.(c := c) else t }

  // ---- __rb_insert ----

  /** Where rebalancing goes from a red node in hand: on with its grandparent, or done. */
  datatype Next = More(t: Tree, k: Ctx) | Done(t: Tree, k: Ctx)

  function InsertStep(t: Tree, k: Ctx): (n: Next)
    requires IsRed(t)
  {
    if k.Top? then Done(Paint(t, Black), k)
    else if k.c == Black || k.up.Top? then Done(t, k)
    else
      var (p, s, d) := (k.id, k.sib, k.d);
      var (g, e, gc, u, up) := (k.up.id, k.up.d, k.up.c, k.up.sib, k.up.up);
      if IsRed(u) then More(Mk(e, Mk(d, t, p, s, Black), g, Paint(u, Black), Red), up)
      else if d != e then
        Done(Mk(e, Mk(e, s, p, Sub(t, e), Red), t.id, Mk(e, Sub(t, d), g, u, Red), gc), up)
      else Done(Mk(e, t, p, Mk(e, s, g, u, Red), gc), up)
  }

  function InsertFix(t: Tree, k: Ctx): (w: Tree)
    requires IsRed(t)
    decreases k
  {
    var n := InsertStep(t, k);
    if n.More? then InsertFix(n.t, n.k) else Zip(n.t, n.k)
  }

  lemma {:induction false} InsertStepSound(t: Tree, k: Ctx, b: nat)
    requires IsRed(t) && Sound(t) && BlackHeight(t) == b && Fits(k, b)
    ensures var n := InsertStep(t, k);
      && Sound(n.t) && Fits(n.k, BlackHeight(n.t))
      && (n.More? ==> IsRed(n.t))
      && (n.Done? ==> IsRed(n.t) ==> n.k.Step? && n.k.c == Black)
  {
    if k.Step? && k.c == Red {
      var (p, s, d) := (k.id, k.sib, k.d);
      var (g, e, u, up) := (k.up.id, k.up.d, k.up.sib, k.up.up);
      if IsRed(u) {
        MkSound(d, t, p, s, Black);
        SubSound(u, d);
        MkSound(e, Mk(d, t, p, s, Black), g, Paint(u, Black), Red);
      } else if d != e {
        SubSound(t, e);
        SubSound(t, d);
        MkSound(e, s, p, Sub(t, e), Red);
        MkSound(e, Sub(t, d), g, u, Red);
        MkSound(e, Mk(e, s, p, Sub(t, e), Red), t.id, Mk(e, Sub(t, d), g, u, Red), Black);
      } else {
        MkSound(e, s, g, u, Red);
        MkSound(e, t, p, Mk(e, s, g, u, Red), Black);
      }
    }
  }

  lemma {:induction false} Rotate(d: Dir, a: seq<Ptr>, x: Ptr, b: seq<Ptr>, y: Ptr, c: seq<Ptr>)
    ensures Around(d, a, x, Around(d, b, y, c)) == Around(d, Around(d, a, x, b), y, c)
  {
    assert a + [x] + (b + [y] + c) == (a + [x] + b) + [y] + c;
    assert (c + [y] + b) + [x] + a == c + [y] + (b + [x] + a);
  }

  lemma {:induction false} InsertStepOrder(t: Tree, k: Ctx)
    requires IsRed(t)
    ensures var n := InsertStep(t, k); Wrap(n.k, InOrder(n.t)) == Wrap(k, InOrder(t))
  {
    if k.Step? && k.c == Red && k.up.Step? && !IsRed(k.up.sib) {
      var (p, s, g, e, u) := (k.id, InOrder(k.sib), k.up.id, k.up.d, InOrder(k.up.sib));
      if k.d == e {
        Rotate(e, InOrder(t), p, s, g, u);
      } else {
        var (a, b) := (InOrder(Sub(t, e)), InOrder(Sub(t, k.d)));
        assert Around(k.d, InOrder(t), p, s) == Around(e, s, p, Around(e, a, t.id, b));
        Rotate(e, s, p, a, t.id, b);
        Rotate(e, Around(e, s, p, a), t.id, b, g, u);
      }
    }
  }

  /** From a tree valid but for one red node under a red parent, rebalancing gives a red-black tree
      with the same in-order sequence. */
  lemma {:induction false} InsertFixOk(t: Tree, k: Ctx, b: nat)
    requires IsRed(t) && Sound(t) && BlackHeight(t) == b && Fits(k, b)
    ensures Valid(InsertFix(t, k)) && InOrder(InsertFix(t, k)) == InOrder(Zip(t, k))
    decreases k
  {
    var n := InsertStep(t, k);
    InsertStepSound(t, k, b);
    InsertStepOrder(t, k);
    ZipInOrder(t, k);
    ZipInOrder(n.t, n.k);
    if n.More? {
      InsertFixOk(n.t, n.k, BlackHeight(n.t));
    } else {
      ZipValid(n.t, n.k, BlackHeight(n.t));
    }
  }

  // ---- ____rb_erase_color ----

  /** Case 1: a red sibling is rotated above the parent, which turns red. */
  function EraseTurn(k: Ctx): (k': Ctx)
    requires k.Step?
  {
    if IsRed(k.sib) then Step(Step(k.up, k.d, k.sib.id, k.c, Sub(k.sib, Opp(k.d))), k.d, k.id, Red, Sub(k.sib, k.d))
      else k
  }

  /** Cases 2 to 4, with a black sibling: the sibling turns red and the parent is the new node in hand,
      or one or two rotations finish. */
  function EraseFinish(t: Tree, k: Ctx): (n: Next)
    requires k.Step? && k.sib.T?
  {
    var (d, p, s) := (k.d, k.id, k.sib);
    var (near, far) := (Sub(s, d), Sub(s, Opp(d)));
    if IsRed(far) then Done(Mk(d, Mk(d, t, p, near, Black), s.id, Paint(far, Black), k.c), k.up)
    else if IsRed(near) then
      Done(Mk(d, Mk(d, t, p, Sub(near, d), Black), near.id, Mk(d, Sub(near, Opp(d)), s.id, far, Black), k.c), k.up)
    else
      var flipped := Mk(d, t, p, Paint(s, Red), Black);
      if k.c == Red || k.up.Top? then Done(flipped, k.up) else More(flipped, k.up)
  }

  predicate HasSibling(k: Ctx) { k.Step? && k.sib.T? && (IsRed(k.sib) ==> Sub(k.sib, k.d).T?) }

  function EraseStep(t: Tree, k: Ctx): (n: Next)
    requires HasSibling(k)
  {
    EraseFinish(t, EraseTurn(k))
  }

  function EraseFix(t: Tree, k: Ctx): (w: Tree)
    decreases k
  {
    if !HasSibling(k) then Zip(t, k)
    else
      var n := EraseStep(t, k);
      if n.More? then StepShrinks(t, k); EraseFix(n.t, n.k) else Zip(n.t, n.k)
  }

  lemma {:induction false} StepShrinks(t: Tree, k: Ctx)
    requires HasSibling(k) && EraseStep(t, k).More?
    ensures EraseStep(t, k).k == k.up
  {
  }

  /** A subtree one black node short of what its context wants. */
  predicate Short(t: Tree, k: Ctx, b: nat) { Sound(t) && !IsRed(t) && BlackHeight(t) + 1 == b && k.Step? && Fits(k, b) }

  lemma {:induction false} ShortHasSibling(t: Tree, k: Ctx, b: nat)
    requires Short(t, k, b)
    ensures HasSibling(k)
  {
  }

  lemma {:induction false} TurnSound(t: Tree, k: Ctx, b: nat)
    requires Short(t, k, b)
    ensures var k' := EraseTurn(k);
      Short(t, k', b) && k'.sib.T? && !IsRed(k'.sib) && Wrap(k', InOrder(t)) == Wrap(k, InOrder(t))
  {
    if IsRed(k.sib) {
      Rotate(k.d, InOrder(t), k.id, InOrder(Sub(k.sib, k.d)), k.sib.id, InOrder(Sub(k.sib, Opp(k.d))));
    }
  }

  /** What the finished subtree must satisfy. */
  predicate Finished(t: Tree, k: Ctx) { Sound(t) && Fits(k, BlackHeight(t)) && (IsRed(t) ==> k.Step? && k.c == Black) }

  /** Case 4: the outer child of the sibling is red. */
  lemma {:induction false} FinishFar(t: Tree, k: Ctx, b: nat)
    requires Short(t, k, b) && k.sib.T? && !IsRed(k.sib) && IsRed(Sub(k.sib, Opp(k.d)))
    ensures var n := EraseFinish(t, k); n.Done? && Finished(n.t, n.k)
  {
    var (d, p, s) := (k.d, k.id, k.sib);
    var (near, far) := (Sub(s, d), Sub(s, Opp(d)));
    SubSound(s, d);
    SubSound(s, Opp(d));
    SubSound(far, d);
    MkSound(d, t, p, near, Black);
    MkSound(d, Mk(d, t, p, near, Black), s.id, Paint(far, Black), k.c);
  }

  /** Case 3: only its inner child is red. */
  lemma {:induction false} FinishNear(t: Tree, k: Ctx, b: nat)
    requires Short(t, k, b) && k.sib.T? && !IsRed(k.sib) && !IsRed(Sub(k.sib, Opp(k.d))) && IsRed(Sub(k.sib, k.d))
    ensures var n := EraseFinish(t, k); n.Done? && Finished(n.t, n.k)
  {
    var (d, p, s) := (k.d, k.id, k.sib);
    var (near, far) := (Sub(s, d), Sub(s, Opp(d)));
    SubSound(s, d);
    SubSound(s, Opp(d));
    SubSound(near, d);
    SubSound(near, Opp(d));
    MkSound(d, t, p, Sub(near, d), Black);
    MkSound(d, Sub(near, Opp(d)), s.id, far, Black);
    MkSound(d, Mk(d, t, p, Sub(near, d), Black), near.id, Mk(d, Sub(near, Opp(d)), s.id, far, Black), k.c);
  }

  /** Case 2: both are black. */
  lemma {:induction false} FinishFlip(t: Tree, k: Ctx, b: nat)
    requires Short(t, k, b) && k.sib.T? && !IsRed(k.sib) && !IsRed(Sub(k.sib, Opp(k.d))) && !IsRed(Sub(k.sib, k.d))
    ensures var n := EraseFinish(t, k); if n.More? then Short(n.t, n.k, b + 1) else Finished(n.t, n.k)
  {
    var (d, p, s) := (k.d, k.id, k.sib);
    var (near, far) := (Sub(s, d), Sub(s, Opp(d)));
    SubSound(s, d);
    SubSound(s, Opp(d));
    MkSound(d, near, s.id, far, Red);
    assert Paint(s, Red) == Mk(d, near, s.id, far, Red);
    MkSound(d, t, p, Paint(s, Red), Black);
  }

  lemma {:induction false} FinishSound(t: Tree, k: Ctx, b: nat)
    requires Short(t, k, b) && k.sib.T? && !IsRed(k.sib)
    ensures var n := EraseFinish(t, k); if n.More? then Short(n.t, n.k, b + 1) else Finished(n.t, n.k)
  {
    if IsRed(Sub(k.sib, Opp(k.d))) {
      FinishFar(t, k, b);
    } else if IsRed(Sub(k.sib, k.d)) {
      FinishNear(t, k, b);
    } else {
      FinishFlip(t, k, b);
    }
  }

  lemma {:induction false} FinishOrder(t: Tree, k: Ctx)
    requires k.Step? && k.sib.T?
    ensures var n := EraseFinish(t, k); Wrap(n.k, InOrder(n.t)) == Wrap(k, InOrder(t))
  {
    var (d, p, s, w) := (k.d, k.id, k.sib, InOrder(t));
    var (near, far) := (Sub(s, d), Sub(s, Opp(d)));
    if IsRed(far) {
      Rotate(d, w, p, InOrder(near), s.id, InOrder(far));
    } else if IsRed(near) {
      var (a, b) := (InOrder(Sub(near, d)), InOrder(Sub(near, Opp(d))));
      Rotate(d, a, near.id, b, s.id, InOrder(far));
      Rotate(d, w, p, a, near.id, Around(d, b, s.id, InOrder(far)));
    }
  }

  /** From a tree one black short below the parent, rebalancing restores the rules and keeps the order. */
  lemma {:induction false} EraseFixOk(t: Tree, k: Ctx, b: nat)
    requires Short(t, k, b)
    ensures Valid(EraseFix(t, k)) && InOrder(EraseFix(t, k)) == InOrder(Zip(t, k))
    decreases k
  {
    ShortHasSibling(t, k, b);
    var k' := EraseTurn(k);
    TurnSound(t, k, b);
    var n := EraseFinish(t, k');
    FinishSound(t, k', b);
    FinishOrder(t, k');
    ZipInOrder(t, k);
    ZipInOrder(n.t, n.k);
    if n.More? {
      StepShrinks(t, k);
      EraseFixOk(n.t, n.k, b + 1);
    } else {
      ZipValid(n.t, n.k, BlackHeight(n.t));
    }
  }
}
