/** The two-level priority list of lib/plist.c: all nodes on one ring behind the head, and the
    first node of each priority on a second ring. */
module Plist {
  import opened Basics
  import opened Lists

  const HEAD: Addr := 0

  type Prios = map<Addr, int>

  /** The `prio` field of a node. */
  function P(prio: Prios, a: Addr): int { if a in prio then prio[a] else 0 }

  ghost predicate Sorted(c: seq<Addr>, prio: Prios)
  {
    forall i, j :: 0 <= i < j < |c| ==> P(prio, c[i]) <= P(prio, c[j])
  }

  /** The first node of every run of equal priorities, in chain order. */
  ghost function Firsts(c: seq<Addr>, prio: Prios): (r: seq<Addr>)
  {
    if c == [] then []
    else
      var z := |c| - 1;
      if z > 0 && P(prio, c[z - 1]) == P(prio, c[z]) then Firsts(c[..z], prio)
      else Firsts(c[..z], prio) + [c[z]]
  }

  /** k splits the chain into the nodes at or before priority p and those after it. */
  ghost predicate SplitsAt(c: seq<Addr>, prio: Prios, p: int, k: nat) {
    && k <= |c|
    && (forall i :: 0 <= i < k ==> P(prio, c[i]) <= p)
    && (forall i :: k <= i < |c| ==> P(prio, c[i]) > p)
  }

  /** The chain with n put in front of entry k. */
  function InsertAt(c: seq<Addr>, k: nat, n: Addr): seq<Addr>
    requires k <= |c|
  {
    c[..k] + [n] + c[k..]
  }

  /** The chain without its entry k. */
  function DropAt(c: seq<Addr>, k: nat): seq<Addr>
    requires k < |c|
  {
    c[..k] + c[k + 1..]
  }

  /** Stable insertion of n: after every node of the same or an earlier priority, before the rest. */
  ghost predicate StableInsert(c: seq<Addr>, prio: Prios, n: Addr, c': seq<Addr>) {
    exists k: nat :: SplitsAt(c, prio, P(prio, n), k) && c' == InsertAt(c, k, n)
  }

  /** There is only one stable insertion. */
  lemma {:induction false} StableInsertUnique(c: seq<Addr>, prio: Prios, n: Addr, c1: seq<Addr>, c2: seq<Addr>)
    requires StableInsert(c, prio, n, c1) && StableInsert(c, prio, n, c2)
    ensures c1 == c2
  {
    var k1: nat :| SplitsAt(c, prio, P(prio, n), k1) && c1 == InsertAt(c, k1, n);
    var k2: nat :| SplitsAt(c, prio, P(prio, n), k2) && c2 == InsertAt(c, k2, n);
    assert !(k1 < k2) by { assert k1 < |c| ==> P(prio, c[k1]) > P(prio, n); }
    assert !(k2 < k1) by { assert k2 < |c| ==> P(prio, c[k2]) > P(prio, n); }
  }

  lemma {:induction false} InsertSorted(c: seq<Addr>, prio: Prios, n: Addr, k: nat)
    requires Sorted(c, prio) && SplitsAt(c, prio, P(prio, n), k)
    ensures Sorted(InsertAt(c, k, n), prio)
  {
    var r := InsertAt(c, k, n);
    forall i, j | 0 <= i < j < |r| ensures P(prio, r[i]) <= P(prio, r[j]) {
      assert r[i] == (if i < k then c[i] else if i == k then n else c[i - 1]);
      assert r[j] == (if j < k then c[j] else if j == k then n else c[j - 1]);
    }
  }

  // ---- properties of Firsts ----

  lemma {:induction false} FirstsBasic(c: seq<Addr>, prio: Prios)
    ensures forall x :: x in Firsts(c, prio) ==> x in c
    ensures Distinct(c) ==> Distinct(Firsts(c, prio))
    ensures c != [] ==> Firsts(c, prio) != [] && Firsts(c, prio)[0] == c[0]
    ensures c != [] ==> P(prio, Firsts(c, prio)[|Firsts(c, prio)| - 1]) == P(prio, c[|c| - 1])
  {
    if c != [] {
      var z := |c| - 1;
      FirstsBasic(c[..z], prio);
      assert forall x :: x in c[..z] ==> x in c;
      if Distinct(c) { assert c[z] !in c[..z]; }
    }
  }

  /** Firsts of a concatenation: the second part loses its first node when its run continues. */
  lemma {:induction false} FirstsJoin(a: seq<Addr>, b: seq<Addr>, prio: Prios)
    requires b != []
    ensures Firsts(b, prio) != []
    ensures a == [] || P(prio, a[|a| - 1]) != P(prio, b[0]) ==> Firsts(a + b, prio) == Firsts(a, prio) + Firsts(b, prio)
    ensures a != [] && P(prio, a[|a| - 1]) == P(prio, b[0]) ==>
      Firsts(a + b, prio) == Firsts(a, prio) + Firsts(b, prio)[1..]
  {
    FirstsBasic(b, prio);
    var z := |b| - 1;
    var c := a + b;
    assert c[..|c| - 1] == a + b[..z];
    if z == 0 {
      assert a + b[..z] == a;
      assert Firsts(b, prio) == [b[0]];
    } else {
      FirstsJoin(a, b[..z], prio);
      FirstsBasic(b[..z], prio);
    }
  }

  /** A node starts a run exactly when it is first or its predecessor has another priority. */
  lemma {:induction false} FirstsMember(c: seq<Addr>, prio: Prios, k: nat)
    requires Distinct(c) && k < |c|
    ensures c[k] in Firsts(c, prio) <==> k == 0 || P(prio, c[k - 1]) != P(prio, c[k])
  {
    var z := |c| - 1;
    FirstsBasic(c[..z], prio);
    assert c[z] !in c[..z];
    if k < z { FirstsMember(c[..z], prio, k); }
  }

  lemma {:induction false} FirstsSamePrio(c: seq<Addr>, p: Prios, q: Prios)
    requires forall i :: 0 <= i < |c| ==> P(p, c[i]) == P(q, c[i])
    ensures Firsts(c, p) == Firsts(c, q)
  {
    if c != [] { FirstsSamePrio(c[..|c| - 1], p, q); }
  }

  // ---- the two rings ----

  /** The priority ring holds exactly the first node of each priority; the others are unlinked there. */
  ghost predicate PrioRing(pl: Links, prio: Prios, chain: seq<Addr>)
  {
    && (chain != [] ==> Ring(pl, Firsts(chain, prio)))
    && (forall x :: x in chain && x !in Firsts(chain, prio) ==> SelfLinked(pl, x))
  }

  ghost predicate NodeRing(nl: Links, chain: seq<Addr>) {
    Ring(nl, [HEAD] + chain)
  }

  lemma {:induction false} NodeRingFacts(nl: Links, chain: seq<Addr>)
    requires NodeRing(nl, chain)
    ensures Distinct(chain) && Known(nl, HEAD) && nl.next[HEAD] == if chain == [] then HEAD else chain[0]
    ensures forall k :: 0 <= k < |chain| ==>
      Known(nl, chain[k]) && nl.next[chain[k]] == if k + 1 < |chain| then chain[k + 1] else HEAD
  {
    var s := [HEAD] + chain;
    assert s[0] == HEAD;
    assert forall i :: 0 <= i < |chain| ==> s[i + 1] == chain[i];
    forall k | 0 <= k < |chain|
      ensures Known(nl, chain[k]) && nl.next[chain[k]] == if k + 1 < |chain| then chain[k + 1] else HEAD
    {
      assert s[k + 1] == chain[k];
    }
  }

  lemma {:induction false} PrioRingFacts(pl: Links, prio: Prios, chain: seq<Addr>)
    requires PrioRing(pl, prio, chain)
    ensures forall x :: x in chain ==> Known(pl, x)
  {
    forall x | x in chain ensures Known(pl, x) {
      if x in Firsts(chain, prio) {
        var i :| 0 <= i < |Firsts(chain, prio)| && Firsts(chain, prio)[i] == x;
      }
    }
  }

  /** list_add_tail on the node ring at the insertion point. */
  lemma {:induction false} AddNodeRing(nl: Links, chain: seq<Addr>, n: Addr, k: nat)
    requires NodeRing(nl, chain) && n != HEAD && n !in chain && k <= |chain|
    ensures var pos := if k < |chain| then chain[k] else HEAD;
            Known(nl, pos) && NodeRing(AddTail(nl, n, pos), chain[..k] + [n] + chain[k..])
  {
    var s := [HEAD] + chain;
    var i := if k < |chain| then k + 1 else 0;
    assert n !in s;
    assert s[i] == if k < |chain| then chain[k] else HEAD;
    RingAddTail(nl, s, i, n);
    if k < |chain| {
      assert s[..i] + [n] + s[i..] == [HEAD] + (chain[..k] + [n] + chain[k..]);
    } else {
      assert s + [n] == [HEAD] + (chain[..k] + [n] + chain[k..]);
    }
  }

  /** Inserting n joins the run before it or starts a new one just before chain[k]. */
  lemma {:induction false} FirstsInsert(chain: seq<Addr>, prio: Prios, n: Addr, k: nat)
    requires SplitsAt(chain, prio, P(prio, n), k)
    ensures var f := Firsts(chain[..k], prio);
            var g := Firsts(chain[k..], prio);
            && Firsts(chain, prio) == f + g
            && Firsts(InsertAt(chain, k, n), prio) == if JoinsRun(chain, prio, n, k) then f + g else f + [n] + g
  {
    var a, b := chain[..k], chain[k..];
    assert chain == a + b;
    assert (a + [n])[..k] == a;
    if b == [] {
      assert a + [n] + b == a + [n];
      assert chain == a;
    } else {
      FirstsJoin(a, b, prio);
      FirstsJoin(a + [n], b, prio);
    }
  }

  /** The node before position k already carries n's priority. */
  ghost predicate JoinsRun(chain: seq<Addr>, prio: Prios, n: Addr, k: nat)
    requires k <= |chain|
  {
    k > 0 && P(prio, chain[k - 1]) == P(prio, n)
  }

  /** A node that joins an existing run leaves the priority ring alone. */
  lemma {:induction false} JoinRun(pl: Links, prio: Prios, chain: seq<Addr>, n: Addr, k: nat)
    requires PrioRing(pl, prio, chain) && SelfLinked(pl, n) && SplitsAt(chain, prio, P(prio, n), k)
    requires chain == [] || JoinsRun(chain, prio, n, k)
    ensures PrioRing(pl, prio, InsertAt(chain, k, n))
  {
    var c := InsertAt(chain, k, n);
    FirstsInsert(chain, prio, n, k);
    if chain == [] {
      assert c == [n] && [n][..0] == [];
      assert Firsts(c, prio) == [n];
      assert Ring(pl, [n]);
    } else {
      assert Firsts(c, prio) == Firsts(chain, prio);
      assert forall x :: x in c ==> x in chain || x == n;
    }
  }

  /** Where in the priority ring the run that starts at chain[k] (or the wrap-around) sits. */
  lemma {:induction false} RunPosition(chain: seq<Addr>, prio: Prios, n: Addr, k: nat) returns (i: nat)
    requires chain != [] && SplitsAt(chain, prio, P(prio, n), k) && !JoinsRun(chain, prio, n, k)
    ensures var r := Firsts(chain, prio);
            && i < |r| && r[i] == (if k < |chain| then chain[k] else chain[0])
            && Firsts(InsertAt(chain, k, n), prio) == if k < |chain| then r[..i] + [n] + r[i..] else r + [n]
    ensures k == |chain| ==> i == 0
  {
    var r := Firsts(chain, prio);
    FirstsInsert(chain, prio, n, k);
    FirstsBasic(chain, prio);
    if k < |chain| {
      FirstsBasic(chain[k..], prio);
      i := |Firsts(chain[..k], prio)|;
    } else {
      i := 0;
    }
  }

  /** A node that starts a run is linked into the priority ring just before the next run. */
  lemma {:induction false} StartRun(pl: Links, prio: Prios, chain: seq<Addr>, n: Addr, k: nat)
    requires chain != [] && PrioRing(pl, prio, chain) && n !in chain
    requires SplitsAt(chain, prio, P(prio, n), k) && !JoinsRun(chain, prio, n, k)
    ensures var pos := if k < |chain| then chain[k] else chain[0];
            Known(pl, pos) && PrioRing(AddTail(pl, n, pos), prio, InsertAt(chain, k, n))
  {
    var i := RunPosition(chain, prio, n, k);
    var r := Firsts(chain, prio);
    var f := Firsts(InsertAt(chain, k, n), prio);
    var pl' := AddTail(pl, n, r[i]);
    assert n !in r by { FirstsBasic(chain, prio); }
    RingAddTail(pl, r, i, n);
    RingOf(pl', if k < |chain| then r[..i] + [n] + r[i..] else r + [n], f);
    FrameAddTail(pl, r, i, n);
    StillAlone(pl, pl', r, f, chain, InsertAt(chain, k, n), n, i);
  }

  /** Nodes that start no run stay unlinked in the priority ring. */
  lemma {:induction false} StillAlone(pl: Links, pl': Links, r: seq<Addr>, f: seq<Addr>, chain: seq<Addr>,
                            chain': seq<Addr>, n: Addr, i: nat)
    requires i <= |r| && (f == r[..i] + [n] + r[i..] || f == r + [n]) && Untouched(pl, pl', r + [n])
    requires (forall x :: x in chain && x !in r ==> SelfLinked(pl, x)) && exists k ::
      0 <= k <= |chain| && chain' == InsertAt(chain, k, n)
    ensures forall x :: x in chain' && x !in f ==> SelfLinked(pl', x)
  {
    assert r == r[..i] + r[i..];
    assert forall x :: x in f <==> x in r + [n];
    assert forall x :: x in chain' ==> x in chain || x == n;
  }

  // ---- removal ----

  ghost predicate StartsRun(c: seq<Addr>, prio: Prios, k: nat)
    requires k < |c|
  {
    k == 0 || P(prio, c[k - 1]) != P(prio, c[k])
  }

  /** The next node has the same priority. */
  ghost predicate RunContinues(c: seq<Addr>, prio: Prios, k: nat)
    requires k < |c|
  {
    k + 1 < |c| && P(prio, c[k + 1]) == P(prio, c[k])
  }

  lemma {:induction false} DelNodeRing(nl: Links, chain: seq<Addr>, k: nat)
    requires NodeRing(nl, chain) && k < |chain|
    ensures Known(nl, chain[k]) && NodeRing(DelInit(nl, chain[k]), DropAt(chain, k))
    ensures SelfLinked(DelInit(nl, chain[k]), chain[k])
  {
    var s := [HEAD] + chain;
    assert s[k + 1] == chain[k];
    RingDel(nl, s, k + 1);
    assert s[..k + 1] + s[k + 2..] == [HEAD] + DropAt(chain, k);
  }

  /** A node that starts no run can go without a trace in the priority ring. */
  lemma {:induction false} FirstsDropInner(c: seq<Addr>, prio: Prios, k: nat)
    requires k < |c| && !StartsRun(c, prio, k)
    ensures Firsts(DropAt(c, k), prio) == Firsts(c, prio)
  {
    var a, b := c[..k], c[k + 1..];
    var a1 := c[..k + 1];
    assert a1[..k] == a && Firsts(a1, prio) == Firsts(a, prio);
    assert c == a1 + b && DropAt(c, k) == a + b;
    if b == [] {
      assert a1 + b == a1 && a + b == a;
    } else {
      FirstsJoin(a1, b, prio);
      FirstsJoin(a, b, prio);
    }
  }

  /** A node that starts a run is replaced by its successor in the run, or just removed:
      f are the runs before it, g the runs of what follows. */
  lemma {:induction false} FirstsDropFirst(c: seq<Addr>, prio: Prios, k: nat) returns (f: seq<Addr>, g: seq<Addr>)
    requires k < |c| && Sorted(c, prio) && StartsRun(c, prio, k)
    ensures Firsts(DropAt(c, k), prio) == f + g
    ensures k + 1 < |c| ==> g != [] && g[0] == c[k + 1]
    ensures k + 1 == |c| ==> g == []
    ensures Firsts(c, prio) == f + [c[k]] + if RunContinues(c, prio, k) then g[1..] else g
  {
    var a, b := c[..k], c[k + 1..];
    var a1 := a + [c[k]];
    f, g := Firsts(a, prio), Firsts(b, prio);
    assert a1[..k] == a;
    assert Firsts(a1, prio) == f + [c[k]];
    assert c == a1 + b && DropAt(c, k) == a + b;
    if b == [] {
      assert a1 + b == a1 && a + b == a;
    } else {
      FirstsJoin(a1, b, prio);
      assert k > 0 ==> P(prio, c[k - 1]) != P(prio, b[0]);
      FirstsJoin(a, b, prio);
      FirstsBasic(b, prio);
    }
  }

  /** plist_del's work on the priority ring. */
  function DelPrio(nl: Links, pl: Links, n: Addr): Links
    requires Known(nl, n) && Known(pl, n) && (nl.next[n] != HEAD ==> Known(pl, nl.next[n]))
  {
    if SelfLinked(pl, n) then pl
    else
      var next := nl.next[n];
      var pl1 := if next != HEAD && SelfLinked(pl, next) then Add(pl, next, n) else pl;
      if Known(pl1, n) then DelInit(pl1, n) else pl1
  }

  /** On a ring of two or more, no entry looks empty. */
  lemma {:induction false} RingNotEmpty(l: Links, s: seq<Addr>, i: nat)
    requires Ring(l, s) && i < |s|
    ensures SelfLinked(l, s[i]) <==> |s| == 1
  {
    if |s| > 1 {
      if i + 1 < |s| { assert l.next[s[i]] == s[i + 1]; } else { assert l.next[s[i]] == s[0]; }
    }
  }

  lemma {:induction false} AddBehind(pl: Links, f: seq<Addr>, n: Addr, next: Addr, h: seq<Addr>)
    requires Ring(pl, f + [n] + h) && next !in f + [n] + h
    ensures Known(pl, n) && Ring(Add(pl, next, n), f + [n, next] + h)
      && Untouched(pl, Add(pl, next, n), f + [n, next] + h)
  {
    var r := f + [n] + h;
    assert r[|f|] == n;
    RingAdd(pl, r, |f|, next);
    FrameAdd(pl, r, |f|, next);
    assert r[..|f| + 1] + [next] + r[|f| + 1..] == f + [n, next] + h;
  }

  lemma {:induction false} DelPrioReplace(pl: Links, f: seq<Addr>, n: Addr, next: Addr, h: seq<Addr>)
    requires Ring(pl, f + [n] + h) && next !in f + [n] + h
    ensures Known(pl, n) && Known(Add(pl, next, n), n)
    ensures var pl' := DelInit(Add(pl, next, n), n);
            Ring(pl', f + [next] + h) && SelfLinked(pl', n) && Untouched(pl, pl', f + [n, next] + h)
  {
    AddBehind(pl, f, n, next, h);
    assert f + [n] + ([next] + h) == f + [n, next] + h && f + ([next] + h) == f + [next] + h;
    DelPrioDrop(Add(pl, next, n), f, n, [next] + h);
  }

  lemma {:induction false} DelPrioDrop(pl: Links, f: seq<Addr>, n: Addr, h: seq<Addr>)
    requires Ring(pl, f + [n] + h) && f + h != []
    ensures Known(pl, n)
    ensures Ring(DelInit(pl, n), f + h) && SelfLinked(DelInit(pl, n), n) && Untouched(pl, DelInit(pl, n), f + [n] + h)
  {
    var r := f + [n] + h;
    assert r[|f|] == n;
    RingDel(pl, r, |f|);
    FrameDel(pl, r, |f|);
    assert r[..|f|] + r[|f| + 1..] == f + h;
  }

  /** After plist_del the priority ring again holds exactly the first node of each priority. */
  lemma {:induction false} DelPrioRing(nl: Links, pl: Links, prio: Prios, chain: seq<Addr>, k: nat)
    requires Sorted(chain, prio) && Distinct(chain) && HEAD !in chain && k < |chain|
    requires NodeRing(nl, chain) && PrioRing(pl, prio, chain)
    requires forall x :: x in chain ==> Known(pl, x)
    ensures var n := chain[k];
            && Known(nl, n) && (nl.next[n] != HEAD ==> Known(pl, nl.next[n]))
            && PrioRing(DelPrio(nl, pl, n), prio, DropAt(chain, k)) && SelfLinked(DelPrio(nl, pl, n), n)
  {
    NodeRingFacts(nl, chain);
    if k + 1 < |chain| { assert chain[k + 1] in chain; }
    if StartsRun(chain, prio, k) {
      DelPrioRingFirst(nl, pl, prio, chain, k);
    } else {
      DelInner(pl, prio, chain, k);
    }
  }

  /** A node inside a run is not on the priority ring. */
  lemma {:induction false} DelInner(pl: Links, prio: Prios, chain: seq<Addr>, k: nat)
    requires Distinct(chain) && k < |chain| && PrioRing(pl, prio, chain) && !StartsRun(chain, prio, k)
    ensures SelfLinked(pl, chain[k]) && PrioRing(pl, prio, DropAt(chain, k))
  {
    FirstsMember(chain, prio, k);
    FirstsDropInner(chain, prio, k);
    assert forall x :: x in DropAt(chain, k) ==> x in chain;
  }

  /** Reading the new ring back as the priority ring of the shorter chain. */
  lemma {:induction false} PrioRingAfter(pl: Links, pl': Links, prio: Prios, chain: seq<Addr>, k: nat, r: seq<Addr>,
                            touched: seq<Addr>)
    requires k < |chain| && Distinct(chain) && PrioRing(pl, prio, chain)
    requires r == Firsts(DropAt(chain, k), prio)
    requires r != [] ==> Ring(pl', r)
    requires Untouched(pl, pl', touched)
    requires forall x :: x in touched ==> x == chain[k] || x in r
    requires forall x :: x in Firsts(chain, prio) ==> x == chain[k] || x in r
    ensures PrioRing(pl', prio, DropAt(chain, k))
  {
    var c := DropAt(chain, k);
    FirstsBasic(c, prio);
    assert forall x :: x in c ==> x in chain && x != chain[k];
  }

  lemma {:induction false} DelPrioRingFirst(nl: Links, pl: Links, prio: Prios, chain: seq<Addr>, k: nat)
    requires Sorted(chain, prio) && Distinct(chain) && HEAD !in chain && k < |chain|
    requires Known(nl, chain[k]) && nl.next[chain[k]] == if k + 1 < |chain| then chain[k + 1] else HEAD
    requires PrioRing(pl, prio, chain) && StartsRun(chain, prio, k)
    requires forall x :: x in chain ==> Known(pl, x)
    ensures PrioRing(DelPrio(nl, pl, chain[k]), prio, DropAt(chain, k))
      && SelfLinked(DelPrio(nl, pl, chain[k]), chain[k])
  {
    var f, g := FirstsDropFirst(chain, prio, k);
    if k + 1 < |chain| { FirstsMember(chain, prio, k + 1); }
    DelFirst(nl, pl, prio, chain, k, f, g);
  }

  /** The three ways a run can lose its first node. */
  lemma {:induction false} DelFirst(nl: Links, pl: Links, prio: Prios, chain: seq<Addr>, k: nat, f: seq<Addr>,
                            g: seq<Addr>)
    requires Distinct(chain) && HEAD !in chain && k < |chain| && PrioRing(pl, prio, chain)
    requires Known(nl, chain[k]) && nl.next[chain[k]] == if k + 1 < |chain| then chain[k + 1] else HEAD
    requires forall x :: x in chain ==> Known(pl, x)
    requires Firsts(DropAt(chain, k), prio) == f + g
    requires if k + 1 < |chain| then g != [] && g[0] == chain[k + 1] else g == []
    requires Firsts(chain, prio) == f + [chain[k]] + if RunContinues(chain, prio, k) then g[1..] else g
    requires k + 1 < |chain| ==> (chain[k + 1] in Firsts(chain, prio) <==> !RunContinues(chain, prio, k))
    ensures PrioRing(DelPrio(nl, pl, chain[k]), prio, DropAt(chain, k))
      && SelfLinked(DelPrio(nl, pl, chain[k]), chain[k])
  {
    var r := Firsts(chain, prio);
    assert r[|f|] == chain[k];
    RingNotEmpty(pl, r, |f|);
    if |r| == 1 {
      DelFirstAlone(pl, prio, chain, k, f, g);
    } else if RunContinues(chain, prio, k) {
      DelFirstReplace(pl, prio, chain, k, f, g);
    } else {
      if k + 1 < |chain| {
        assert r[|f| + 1] == chain[k + 1];
        RingNotEmpty(pl, r, |f| + 1);
      }
      DelFirstDrop(pl, prio, chain, k, f, g);
    }
  }

  /** The only run: its second node, if any, becomes a ring of its own. */
  lemma {:induction false} DelFirstAlone(pl: Links, prio: Prios, chain: seq<Addr>, k: nat, f: seq<Addr>, g: seq<Addr>)
    requires k < |chain| && Distinct(chain) && PrioRing(pl, prio, chain)
    requires Firsts(DropAt(chain, k), prio) == f + g && Firsts(chain, prio) == [chain[k]]
    requires f == [] && (g == [] || (k + 1 < |chain| && g == [chain[k + 1]] && chain[k + 1] !in Firsts(chain, prio)))
    ensures PrioRing(pl, prio, DropAt(chain, k))
  {
    if g != [] { assert chain[k + 1] in chain; }
    PrioRingAfter(pl, pl, prio, chain, k, f + g, []);
  }

  lemma {:induction false} DelFirstDrop(pl: Links, prio: Prios, chain: seq<Addr>, k: nat, f: seq<Addr>, g: seq<Addr>)
    requires k < |chain| && Distinct(chain) && PrioRing(pl, prio, chain) && f + g != []
    requires Firsts(DropAt(chain, k), prio) == f + g && Firsts(chain, prio) == f + [chain[k]] + g
    ensures Known(pl, chain[k]) && PrioRing(DelInit(pl, chain[k]), prio, DropAt(chain, k))
    ensures SelfLinked(DelInit(pl, chain[k]), chain[k])
  {
    DelPrioDrop(pl, f, chain[k], g);
    PrioRingAfter(pl, DelInit(pl, chain[k]), prio, chain, k, f + g, f + [chain[k]] + g);
  }

  lemma {:induction false} DelFirstReplace(pl: Links, prio: Prios, chain: seq<Addr>, k: nat, f: seq<Addr>, g: seq<Addr>)
    requires k + 1 < |chain| && Distinct(chain) && PrioRing(pl, prio, chain)
    requires Firsts(DropAt(chain, k), prio) == f + g && g != [] && g[0] == chain[k + 1]
    requires Firsts(chain, prio) == f + [chain[k]] + g[1..] && chain[k + 1] !in Firsts(chain, prio)
    ensures Known(pl, chain[k]) && Known(Add(pl, chain[k + 1], chain[k]), chain[k])
    ensures var pl' := DelInit(Add(pl, chain[k + 1], chain[k]), chain[k]);
            PrioRing(pl', prio, DropAt(chain, k)) && SelfLinked(pl', chain[k])
  {
    var n, next, h := chain[k], chain[k + 1], g[1..];
    DelPrioReplace(pl, f, n, next, h);
    assert f + [next] + h == f + g;
    PrioRingAfter(pl, DelInit(Add(pl, next, n), n), prio, chain, k, f + g, f + [n, next] + h);
  }

  // ---- plist_add's walk over the priority ring ----

  /** The run that starts at chain[k] is entry number |Firsts(chain[..k])| of the priority ring. */
  lemma {:induction false} RunIndex(chain: seq<Addr>, prio: Prios, k: nat)
    requires k < |chain| && StartsRun(chain, prio, k)
    ensures var j := |Firsts(chain[..k], prio)|;
            && j < |Firsts(chain, prio)| && Firsts(chain, prio)[j] == chain[k]
            && (j == 0 <==> k == 0)
            && (j > 0 ==> P(prio, chain[k - 1]) == P(prio, Firsts(chain, prio)[j - 1]))
  {
    assert chain == chain[..k] + chain[k..];
    FirstsJoin(chain[..k], chain[k..], prio);
    FirstsBasic(chain[..k], prio);
    FirstsBasic(chain[k..], prio);
  }

  /** The walk stops at the first run after p: where the new node belongs. */
  lemma {:induction false} ScanStops(chain: seq<Addr>, prio: Prios, p: int, j: nat) returns (k: nat)
    requires Sorted(chain, prio) && Distinct(chain) && j < |Firsts(chain, prio)|
    requires P(prio, Firsts(chain, prio)[j]) > p
    requires j > 0 ==> P(prio, Firsts(chain, prio)[j - 1]) <= p
    ensures k < |chain| && chain[k] == Firsts(chain, prio)[j] && SplitsAt(chain, prio, p, k)
    ensures j == 0 <==> k == 0
    ensures j > 0 ==> P(prio, chain[k - 1]) == P(prio, Firsts(chain, prio)[j - 1])
  {
    var r := Firsts(chain, prio);
    assert r[j] in r;
    assert r[j] in chain && Distinct(r) by { FirstsBasic(chain, prio); }
    k :| 0 <= k < |chain| && chain[k] == r[j];
    FirstsMember(chain, prio, k);
    RunIndex(chain, prio, k);
    assert |Firsts(chain[..k], prio)| == j;
  }

  /** The walk came full circle: every node is at or before p. */
  lemma {:induction false} ScanWraps(chain: seq<Addr>, prio: Prios, p: int)
    requires Sorted(chain, prio) && chain != [] && Firsts(chain, prio) != []
    requires P(prio, Firsts(chain, prio)[|Firsts(chain, prio)| - 1]) <= p
    ensures SplitsAt(chain, prio, p, |chain|)
    ensures P(prio, chain[|chain| - 1]) == P(prio, Firsts(chain, prio)[|Firsts(chain, prio)| - 1])
  {
    FirstsBasic(chain, prio);
  }

  /** What the links say about the chain. */
  ghost predicate Rep(nl: Links, pl: Links, prio: Prios, chain: seq<Addr>) {
    HEAD !in chain && Sorted(chain, prio) && NodeRing(nl, chain) && PrioRing(pl, prio, chain)
  }

  lemma {:induction false} RepFacts(nl: Links, pl: Links, prio: Prios, chain: seq<Addr>)
    requires Rep(nl, pl, prio, chain)
    ensures Distinct(chain) && forall x :: x in chain ==> Known(pl, x)
    ensures Known(nl, HEAD) && nl.next[HEAD] == if chain == [] then HEAD else chain[0]
    ensures forall k :: 0 <= k < |chain| ==>
      Known(nl, chain[k]) && nl.next[chain[k]] == if k + 1 < |chain| then chain[k + 1] else HEAD
  {
    NodeRingFacts(nl, chain);
    PrioRingFacts(pl, prio, chain);
  }

  lemma {:induction false} HeadFacts(nl: Links, pl: Links, prio: Prios, chain: seq<Addr>)
    requires Rep(nl, pl, prio, chain)
    ensures Known(nl, HEAD) && (nl.next[HEAD] == HEAD <==> chain == [])
  {
    RepFacts(nl, pl, prio, chain);
    if chain != [] { assert chain[0] in chain; }
  }

  lemma {:induction false} InitRep(nl: Links, pl: Links, prio: Prios, chain: seq<Addr>, n: Addr, p: int)
    requires Rep(nl, pl, prio, chain) && n != HEAD && n !in chain
    ensures Rep(Init(nl, n), Init(pl, n), prio[n := p], chain)
  {
    FirstsSamePrio(chain, prio, prio[n := p]);
    FirstsBasic(chain, prio);
    var s := [HEAD] + chain;
    assert n !in s;
  }

  /** `struct plist_head` with the nodes linked to it. */
  class Head {
    var nodeList: Links
    var prioList: Links
    var prio: Prios
    ghost var chain: seq<Addr>

    ghost predicate Valid()
      reads this
    {
      Rep(nodeList, prioList, prio, chain)
    }

    /** A node set up by plist_node_init and not on the list. */
    ghost predicate Fresh(n: Addr)
      reads this
    {
      n != HEAD && n !in chain && SelfLinked(prioList, n)
    }

    /** plist_head_init */
    constructor ()
      ensures Valid() && chain == []
    {
      nodeList := Init(Links(map[], map[]), HEAD);
      prioList := Links(map[], map[]);
      prio := map[];
      chain := [];
    }

    /** plist_node_init on a node that is not on the list. */
    method InitNode(n: Addr, p: int)
      requires Valid() && n != HEAD && n !in chain
      modifies this
      ensures Valid() && Fresh(n) && chain == old(chain) && prio == old(prio)[n := p]
    {
      InitRep(nodeList, prioList, prio, chain, n, p);
      prio := prio[n := p];
      nodeList := Init(nodeList, n);
      prioList := Init(prioList, n);
    }

    /** The walk over the priority ring: where n goes on either ring. */
    method FindPosition(n: Addr) returns (nodeNext: Addr, iter: Addr, prev: Option<Addr>, ghost k: nat)
      requires Valid() && chain != []
      ensures SplitsAt(chain, prio, P(prio, n), k)
      ensures nodeNext == (if k < |chain| then chain[k] else HEAD)
      ensures iter == (if k < |chain| then chain[k] else chain[0])
      ensures (prev.None? || P(prio, prev.value) != P(prio, n)) <==> !JoinsRun(chain, prio, n, k)
    {
      RepFacts(nodeList, prioList, prio, chain);
      ghost var r := Firsts(chain, prio);
      FirstsBasic(chain, prio);
      var first := nodeList.next[HEAD];
      nodeNext, iter, prev := HEAD, first, None;
      ghost var j := 0;
      while true
        invariant 0 <= j < |r| && iter == r[j]
        invariant prev == if j == 0 then None else Some(r[j - 1])
        invariant j > 0 ==> P(prio, r[j - 1]) <= P(prio, n)
        invariant nodeNext == HEAD
        decreases |r| - j
      {
        if P(prio, n) < P(prio, iter) {
          nodeNext := iter;
          k := ScanStops(chain, prio, P(prio, n), j);
          break;
        }
        prev := Some(iter);
        assert prioList.next[r[j]] == if j + 1 < |r| then r[j + 1] else r[0];
        iter := prioList.next[iter];
        if iter == first {
          k := |chain|;
          ScanWraps(chain, prio, P(prio, n));
          break;
        }
        j := j + 1;
      }
    }

    /** plist_add: one step per priority in use, stable insertion as the result. */
    method Add(n: Addr)
      requires Valid() && Fresh(n)
      modifies this
      ensures Valid() && StableInsert(old(chain), prio, n, chain) && prio == old(prio)
    {
      HeadFacts(nodeList, prioList, prio, chain);
      if nodeList.next[HEAD] == HEAD {
        AddRep(nodeList, prioList, prio, chain, n, 0);
        Splice(n, HEAD, prioList, 0);
      } else {
        var nodeNext, iter, prev, k := FindPosition(n);
        AddRep(nodeList, prioList, prio, chain, n, k);
        if prev.None? || P(prio, prev.value) != P(prio, n) {
          Splice(n, nodeNext, AddTail(prioList, n, iter), k);
        } else {
          Splice(n, nodeNext, prioList, k);
        }
      }
    }

    /** The final list_add_tail on the node ring. */
    method Splice(n: Addr, nodeNext: Addr, pl: Links, ghost k: nat)
      requires Known(nodeList, nodeNext) && SplitsAt(chain, prio, P(prio, n), k)
      requires Rep(AddTail(nodeList, n, nodeNext), pl, prio, InsertAt(chain, k, n))
      modifies this
      ensures Valid() && StableInsert(old(chain), prio, n, chain) && prio == old(prio)
    {
      nodeList := AddTail(nodeList, n, nodeNext);
      prioList := pl;
      chain := InsertAt(chain, k, n);
    }

    /** plist_del: the remaining nodes keep their order. */
    method Del(n: Addr)
      requires Valid() && n in chain
      modifies this
      ensures Valid() && Fresh(n) && prio == old(prio)
      ensures exists k :: 0 <= k < |old(chain)| && old(chain)[k] == n && chain == DropAt(old(chain), k)
    {
      ghost var k :| 0 <= k < |chain| && chain[k] == n;
      DelRep(nodeList, prioList, prio, chain, k);
      prioList := DelPrio(nodeList, prioList, n);
      nodeList := DelInit(nodeList, n);
      chain := DropAt(chain, k);
    }

    /** plist_requeue's walk past the rest of n's run, which starts at chain[j]. */
    method SkipRun(n: Addr, start: Addr, ghost j: nat) returns (nodeNext: Addr, ghost k: nat)
      requires Valid() && j < |chain| && start == chain[j] && P(prio, start) == P(prio, n)
      ensures SplitsAt(chain, prio, P(prio, n), k) && JoinsRun(chain, prio, n, k)
      ensures nodeNext == if k < |chain| then chain[k] else HEAD
    {
      RepFacts(nodeList, prioList, prio, chain);
      k := j + 1;
      nodeNext := nodeList.next[start];
      while nodeNext != HEAD && P(prio, nodeNext) == P(prio, n)
        invariant j < k <= |chain| && P(prio, chain[k - 1]) == P(prio, n)
        invariant nodeNext == if k < |chain| then chain[k] else HEAD
        decreases |chain| - k
      {
        nodeNext := nodeList.next[nodeNext];
        k := k + 1;
      }
    }

    /** plist_requeue: the same as plist_del followed by plist_add. */
    method Requeue(n: Addr)
      requires Valid() && n in chain
      modifies this
      ensures Valid() && prio == old(prio)
      ensures exists k ::
        0 <= k < |old(chain)| && old(chain)[k] == n && StableInsert(DropAt(old(chain), k), prio, n, chain)
    {
      ghost var k :| 0 <= k < |chain| && chain[k] == n;
      NodeFacts(nodeList, prioList, prio, chain, k);
      var iter := nodeList.next[n];
      if iter == HEAD || P(prio, n) != P(prio, iter) {
        InPlace(chain, prio, k);
        return;
      }
      Del(n);
      DropAtUnique(old(chain), n, k, chain);
      var nodeNext, m := SkipRun(n, iter, k);
      AddRep(nodeList, prioList, prio, chain, n, m);
      Splice(n, nodeNext, prioList, m);
    }
  }

  lemma {:induction false} NodeFacts(nl: Links, pl: Links, prio: Prios, chain: seq<Addr>, k: nat)
    requires Rep(nl, pl, prio, chain) && k < |chain|
    ensures Known(nl, chain[k]) && Distinct(chain)
    ensures nl.next[chain[k]] == if k + 1 < |chain| then chain[k + 1] else HEAD
    ensures nl.next[chain[k]] == HEAD <==> k + 1 == |chain|
  {
    RepFacts(nl, pl, prio, chain);
    if k + 1 < |chain| { assert chain[k + 1] in chain; }
  }

  /** The last node of its run is already where stable insertion would put it. */
  lemma {:induction false} InPlace(c: seq<Addr>, prio: Prios, k: nat)
    requires Sorted(c, prio) && k < |c| && !RunContinues(c, prio, k)
    ensures StableInsert(DropAt(c, k), prio, c[k], c)
  {
    var d := DropAt(c, k);
    assert forall i :: 0 <= i < |d| ==> d[i] == c[if i < k then i else i + 1];
    assert SplitsAt(d, prio, P(prio, c[k]), k);
    assert c == InsertAt(d, k, c[k]);
  }

  lemma {:induction false} DropAtUnique(c: seq<Addr>, n: Addr, k: nat, d: seq<Addr>)
    requires Distinct(c) && k < |c| && c[k] == n
    requires exists i :: 0 <= i < |c| && c[i] == n && d == DropAt(c, i)
    ensures d == DropAt(c, k) && (k + 1 < |c| ==> k < |d| && d[k] == c[k + 1])
  {}

  lemma {:induction false} AddRep(nl: Links, pl: Links, prio: Prios, chain: seq<Addr>, n: Addr, k: nat)
    requires Rep(nl, pl, prio, chain) && n != HEAD && n !in chain && SelfLinked(pl, n)
    requires SplitsAt(chain, prio, P(prio, n), k)
    ensures var c := InsertAt(chain, k, n);
            var nodeNext := if k < |chain| then chain[k] else HEAD;
            && Known(nl, nodeNext)
            && if chain == [] || JoinsRun(chain, prio, n, k) then Rep(AddTail(nl, n, nodeNext), pl, prio, c)
               else var iter := if k < |chain| then chain[k] else chain[0];
                    Known(pl, iter) && Rep(AddTail(nl, n, nodeNext), AddTail(pl, n, iter), prio, c)
  {
    AddNodeRing(nl, chain, n, k);
    InsertSorted(chain, prio, n, k);
    if chain == [] || JoinsRun(chain, prio, n, k) {
      JoinRun(pl, prio, chain, n, k);
    } else {
      StartRun(pl, prio, chain, n, k);
    }
  }

  lemma {:induction false} DelRep(nl: Links, pl: Links, prio: Prios, chain: seq<Addr>, k: nat)
    requires Rep(nl, pl, prio, chain) && k < |chain|
    ensures var n := chain[k];
            && Known(nl, n) && Known(pl, n) && (nl.next[n] != HEAD ==> Known(pl, nl.next[n]))
            && Rep(DelInit(nl, n), DelPrio(nl, pl, n), prio, DropAt(chain, k))
            && SelfLinked(DelPrio(nl, pl, n), n) && n !in DropAt(chain, k) && n != HEAD
  {
    RepFacts(nl, pl, prio, chain);
    DelPrioRing(nl, pl, prio, chain, k);
    DelNodeRing(nl, chain, k);
    DropSorted(chain, prio, k);
  }

  lemma {:induction false} DropSorted(c: seq<Addr>, prio: Prios, k: nat)
    requires Sorted(c, prio) && k < |c|
    ensures Sorted(DropAt(c, k), prio)
  {
    var r := DropAt(c, k);
    assert forall i :: 0 <= i < |r| ==> r[i] == c[if i < k then i else i + 1];
  }
}
