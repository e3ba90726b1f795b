/** Sequences of queued futex entries: the ones a call looks for, and what is left without some of them. */
module FutexChains {
  import opened Basics
  import opened Futex

  /** v waits on key with one of the bits. */
  ghost predicate Hit(qs: seq<Entry>, key: nat, bits: Option<set<int>>, v: nat) {
    v < |qs| && qs[v].key == key && (bits.Some? ==> exists x :: x in qs[v].bitset && x in bits.value)
  }

  /** The entries of a chain that a call looks for, in order. */
  ghost function Hits(qs: seq<Entry>, key: nat, bits: Option<set<int>>, c: seq<nat>): (r: seq<nat>) {
    if c == [] then [] else (if Hit(qs, key, bits, c[0]) then [c[0]] else []) + Hits(qs, key, bits, c[1..])
  }

  lemma {:induction false} HitsJoin(qs: seq<Entry>, key: nat, bits: Option<set<int>>, a: seq<nat>, b: seq<nat>)
    ensures Hits(qs, key, bits, a + b) == Hits(qs, key, bits, a) + Hits(qs, key, bits, b)
  {
    if a == [] {
      assert a + b == b;
    } else {
      HitsJoin(qs, key, bits, a[1..], b);
      assert (a + b)[1..] == a[1..] + b;
      Regroup(if Hit(qs, key, bits, a[0]) then [a[0]] else [], Hits(qs, key, bits, a[1..]), Hits(qs, key, bits, b));
    }
  }

  lemma {:induction false} HitsIn(qs: seq<Entry>, key: nat, bits: Option<set<int>>, c: seq<nat>, x: nat)
    ensures x in Hits(qs, key, bits, c) <==> x in c && Hit(qs, key, bits, x)
  {
    if c != [] {
      HitsIn(qs, key, bits, c[1..], x);
      assert c == [c[0]] + c[1..];
    }
  }

  /** One entry more of the chain. */
  lemma {:induction false} HitsNext(qs: seq<Entry>, key: nat, bits: Option<set<int>>, c: seq<nat>, p: nat)
    requires p < |c|
    ensures Hits(qs, key, bits, c[..p + 1]) ==
      Hits(qs, key, bits, c[..p]) + if Hit(qs, key, bits, c[p]) then [c[p]] else []
  {
    assert c[..p + 1] == c[..p] + [c[p]] && [c[p]][1..] == [];
    HitsJoin(qs, key, bits, c[..p], [c[p]]);
  }

  // ---- a chain without some entries ----

  ghost function Without(c: seq<nat>, rem: set<nat>): (r: seq<nat>) {
    if c == [] then [] else (if c[0] in rem then [] else [c[0]]) + Without(c[1..], rem)
  }

  lemma {:induction false} WithoutJoin(a: seq<nat>, b: seq<nat>, rem: set<nat>)
    ensures Without(a + b, rem) == Without(a, rem) + Without(b, rem)
  {
    if a == [] {
      assert a + b == b;
    } else {
      WithoutJoin(a[1..], b, rem);
      assert (a + b)[1..] == a[1..] + b;
      Regroup(if a[0] in rem then [] else [a[0]], Without(a[1..], rem), Without(b, rem));
    }
  }

  lemma {:induction false} WithoutNone(c: seq<nat>, rem: set<nat>)
    requires forall x <- c :: x !in rem
    ensures Without(c, rem) == c
  {
    if c != [] {
      WithoutNone(c[1..], rem);
    }
  }

  lemma {:induction false} WithoutOne(c: seq<nat>, v: nat, i: nat)
    requires Distinct(c) && i < |c| && c[i] == v
    ensures Without(c, {v}) == DropAt(c, i) && v !in DropAt(c, i)
  {
    if i == 0 {
      WithoutNone(c[1..], {v});
      assert DropAt(c, i) == c[1..];
    } else {
      WithoutOne(c[1..], v, i - 1);
      assert DropAt(c, i) == [c[0]] + DropAt(c[1..], i - 1);
    }
  }

  lemma {:induction false} WithoutIn(c: seq<nat>, rem: set<nat>, x: nat)
    ensures x in Without(c, rem) <==> x in c && x !in rem
  {
    if c != [] {
      WithoutIn(c[1..], rem, x);
      assert c == [c[0]] + c[1..];
    }
  }

  /** Leaving out one that is not there. */
  lemma {:induction false} WithoutMore(c: seq<nat>, rem: set<nat>, v: nat)
    requires v !in c
    ensures Without(c, rem + {v}) == Without(c, rem)
  {
    if c != [] {
      WithoutMore(c[1..], rem, v);
    }
  }

  /** Linking one that is left out anyway. */
  lemma {:induction false} WithoutInsert(c: seq<nat>, k: nat, v: nat, rem: set<nat>)
    requires k <= |c| && v in rem
    ensures Without(InsertAt(c, k, v), rem) == Without(c, rem)
  {
    assert [v][1..] == [];
    WithoutJoin(c[..k] + [v], c[k..], rem);
    WithoutJoin(c[..k], [v], rem);
    WithoutJoin(c[..k], c[k..], rem);
    assert c == c[..k] + c[k..];
  }

  // ---- a walk along a chain that takes entries out ----

  /** The first p entries of c0 are behind the walk, those of rem were taken out, and i of them are left. */
  ghost predicate Passed(c0: seq<nat>, rem: set<nat>, chain: seq<nat>, i: nat, p: nat) {
    && p <= |c0| && Distinct(c0) && (forall x <- rem :: x in c0[..p])
    && chain == Without(c0[..p], rem) + c0[p..] && i == |Without(c0[..p], rem)|
  }

  lemma {:induction false} PassedNone(c0: seq<nat>)
    requires Distinct(c0)
    ensures Passed(c0, {}, c0, 0, 0)
  {
    assert c0[..0] == [] && c0[0..] == c0;
  }

  lemma {:induction false} PassedHere(c0: seq<nat>, rem: set<nat>, chain: seq<nat>, i: nat, p: nat)
    requires Passed(c0, rem, chain, i, p)
    ensures i < |chain| <==> p < |c0|
    ensures p < |c0| ==> chain[i] == c0[p] && c0[p] !in rem
  {
    if p < |c0| {
      assert forall x <- c0[..p] :: x != c0[p];
    }
  }

  lemma {:induction false} PassedSkip(c0: seq<nat>, rem: set<nat>, chain: seq<nat>, i: nat, p: nat)
    requires Passed(c0, rem, chain, i, p) && p < |c0|
    ensures Passed(c0, rem, chain, i + 1, p + 1)
  {
    PassedHere(c0, rem, chain, i, p);
    assert c0[..p + 1] == c0[..p] + [c0[p]] && [c0[p]][1..] == [];
    WithoutJoin(c0[..p], [c0[p]], rem);
    assert c0[p..] == [c0[p]] + c0[p + 1..];
    assert Without([c0[p]], rem) == [c0[p]];
    Regroup(Without(c0[..p], rem), [c0[p]], c0[p + 1..]);
  }

  lemma {:induction false} PassedDrop(c0: seq<nat>, rem: set<nat>, chain: seq<nat>, i: nat, p: nat)
    requires Passed(c0, rem, chain, i, p) && p < |c0|
    ensures i < |chain| && Passed(c0, rem + {c0[p]}, DropAt(chain, i), i, p + 1)
  {
    var v, a := c0[p], c0[..p];
    PassedHere(c0, rem, chain, i, p);
    assert forall x <- a :: x != v;
    WithoutMore(a, rem, v);
    assert c0[..p + 1] == a + [v] && [v][1..] == [];
    WithoutJoin(a, [v], rem + {v});
    assert Without([v], rem + {v}) == [];
    assert Without(a, rem) + [] == Without(a, rem);
    assert DropAt(chain, i) == Without(a, rem) + c0[p + 1..];
  }

  /** At any time the chain is what is left of c0. */
  lemma {:induction false} PassedIs(c0: seq<nat>, rem: set<nat>, chain: seq<nat>, i: nat, p: nat)
    requires Passed(c0, rem, chain, i, p)
    ensures chain == Without(c0, rem)
  {
    var a, b := c0[..p], c0[p..];
    assert c0 == a + b;
    WithoutJoin(a, b, rem);
    assert forall x <- b :: x !in a;
    WithoutNone(b, rem);
  }
}
