/** The wake order of futex_wake (kernel/futex.c) on a chain kept by lib/plist.c. */
module FutexWake {
  import opened Basics
  import Plist

  /** What futex_wake looks at in a queued entry. */
  datatype Waiter = Waiter(key: int, bitset: set<int>)

  predicate Matches(q: map<nat, Waiter>, key: int, bits: set<int>, v: nat) {
    v in q && q[v].key == key && q[v].bitset * bits != {}
  }

  /** The matching entries of a chain, in order. */
  function Hits(q: map<nat, Waiter>, key: int, bits: set<int>, c: seq<nat>): seq<nat> {
    if c == [] then [] else (if Matches(q, key, bits, c[0]) then [c[0]] else []) + Hits(q, key, bits, c[1..])
  }

  /** The other entries, in order. */
  function Misses(q: map<nat, Waiter>, key: int, bits: set<int>, c: seq<nat>): seq<nat> {
    if c == [] then [] else (if Matches(q, key, bits, c[0]) then [] else [c[0]]) + Misses(q, key, bits, c[1..])
  }

  function AtLeastOne(n: int): int { if n < 1 then 1 else n }

  /** The scan ran over the first m entries, woke the hits among them, and stopped there because
      the chain ended or the quota max(1, nr_wake) was reached. */
  ghost predicate WokeFirst(q: map<nat, Waiter>, key: int, bits: set<int>, nrWake: int,
                            chain: seq<nat>, woken: seq<nat>, rest: seq<nat>, m: nat)
  {
    && m <= |chain|
    && woken == Hits(q, key, bits, chain[..m])
    && rest == Misses(q, key, bits, chain[..m]) + chain[m..]
    && |woken| <= AtLeastOne(nrWake)
    && (m == |chain| || |woken| == AtLeastOne(nrWake))
  }

  /** No matching entry left behind has a better priority than one that was woken. */
  ghost predicate InOrder(q: map<nat, Waiter>, key: int, bits: set<int>, prio: map<nat, int>, woken: seq<nat>,
                          rest: seq<nat>) {
    forall x, y :: x in woken && y in rest && Matches(q, key, bits, y) ==> Plist.P(prio, x) <= Plist.P(prio, y)
  }

  /** What a caller asks of a waiter: it waits on the key and has one of the bits. */
  ghost predicate Asked(q: map<nat, Waiter>, key: int, bits: set<int>, v: nat) {
    v in q && q[v].key == key && exists e :: e in q[v].bitset && e in bits
  }

  /** Only waiters asked for were woken, at most nr_wake of them but one at least, and if fewer then all. */
  ghost predicate WokeAsked(q: map<nat, Waiter>, key: int, bits: set<int>, nrWake: int, chain: seq<nat>,
                            woken: seq<nat>,
                            rest: seq<nat>) {
    && (forall v <- woken :: v in chain && Asked(q, key, bits, v))
    && (|woken| <= 1 || |woken| <= nrWake)
    && ((exists v :: v in rest && Asked(q, key, bits, v)) ==> |woken| >= 1 && |woken| >= nrWake)
  }

  /** One hash bucket: its counter, its priority list and the entries of its waiters. */
  class Bucket {
    var waiters: int
    var q: map<nat, Waiter>
    const chain: Plist.Head

    constructor ()
      ensures chain.Valid() && chain.chain == [] && waiters == 0 && fresh(chain)
    {
      q := map[];
      chain := new Plist.Head();
      waiters := 0;
    }

    /** queue_lock() and queue_me(): the entry goes behind every waiter of the same or a better priority. */
    method Queue(v: nat, w: Waiter, p: int)
      requires chain.Valid() && v != Plist.HEAD && v !in chain.chain
      modifies this, chain
      ensures chain.Valid() && chain.prio == old(chain.prio)[v := p] && q == old(q)[v := w]
        && waiters == old(waiters) + 1
      ensures Plist.StableInsert(old(chain.chain), chain.prio, v, chain.chain)
    {
      waiters := waiters + 1;
      q := q[v := w];
      chain.InitNode(v, p);
      chain.Add(v);
    }

    /** The entry after this one, by the links of the node ring. */
    method Following(this_: nat, ghost i: nat) returns (next: nat)
      requires chain.Valid() && i < |chain.chain| && this_ == chain.chain[i]
      ensures next == if i + 1 < |chain.chain| then chain.chain[i + 1] else Plist.HEAD
    {
      Plist.NodeFacts(chain.nodeList, chain.prioList, chain.prio, chain.chain, i);
      next := chain.nodeList.next[this_];
    }

    /** mark_wake_futex(): the entry leaves the list and the counter. */
    method Mark(v: nat, ghost i: nat)
      requires chain.Valid() && i < |chain.chain| && v == chain.chain[i]
      modifies this`waiters, chain
      ensures chain.Valid() && chain.prio == old(chain.prio) && waiters == old(waiters) - 1
      ensures chain.chain == old(chain.chain)[..i] + old(chain.chain)[i + 1..]
    {
      ghost var c := chain.chain;
      Plist.NodeFacts(chain.nodeList, chain.prioList, chain.prio, chain.chain, i);
      chain.Del(v);
      Plist.DropAtUnique(c, v, i, chain.chain);
      waiters := waiters - 1;
    }

    /** Where the walk stands: before entry i of the list, at the head when all are done. */
    ghost predicate At(this_: nat, i: nat)
      reads chain
    {
      i <= |chain.chain| && this_ == if i < |chain.chain| then chain.chain[i] else Plist.HEAD
    }

    method First() returns (this_: nat)
      requires chain.Valid()
      ensures At(this_, 0)
    {
      Plist.RepFacts(chain.nodeList, chain.prioList, chain.prio, chain.chain);
      this_ := chain.nodeList.next[Plist.HEAD];
    }

    /** One turn of the loop of futex_wake: the successor is read before the entry may leave. */
    method Visit(key: int, bits: set<int>, this_: nat, woken: seq<nat>, ghost c0: seq<nat>, ghost i: nat, ghost m: nat)
      returns (next: nat, woken': seq<nat>, ghost i': nat, ghost m': nat)
      requires chain.Valid() && this_ != Plist.HEAD && At(this_, i)
        && Scanned(q, key, bits, c0, woken, chain.chain, i, m)
      modifies this`waiters, chain
      ensures chain.Valid() && chain.prio == old(chain.prio) && m < m' <= |c0|
      ensures Scanned(q, key, bits, c0, woken', chain.chain, i', m') && At(next, i')
      ensures |woken| <= |woken'| <= |woken| + 1 && waiters == old(waiters) - (|woken'| - |woken|)
    {
      next := Following(this_, i);
      Shifted(chain.chain, i);
      m' := m + 1;
      ScanOne(q, key, bits, c0, woken, chain.chain, i, m);
      if Matches(q, key, bits, this_) {
        Mark(this_, i);
        woken', i' := woken + [this_], i;
      } else {
        woken', i' := woken, i + 1;
      }
    }

    /** The loop of futex_wake under the bucket lock; returns the threads in the order they were marked. */
    method WakeLoop(key: int, bits: set<int>, nrWake: int)
      returns (ret: int, woken: seq<nat>, ghost i: nat, ghost m: nat)
      requires chain.Valid()
      modifies this`waiters, chain
      ensures chain.Valid() && chain.prio == old(chain.prio)
      ensures Scanned(q, key, bits, old(chain.chain), woken, chain.chain, i, m)
      ensures |woken| <= AtLeastOne(nrWake) && (i >= |chain.chain| || |woken| == AtLeastOne(nrWake))
      ensures ret == |woken| && waiters == old(waiters) - |woken|
    {
      ret, woken := 0, [];
      ghost var c0 := chain.chain;
      i, m := 0, 0;
      var this_ := First();
      while this_ != Plist.HEAD
        invariant chain.Valid() && chain.prio == old(chain.prio)
        invariant Scanned(q, key, bits, c0, woken, chain.chain, i, m) && At(this_, i)
        invariant ret == |woken| && waiters == old(waiters) - ret
        invariant ret == 0 || ret < nrWake
        decreases |c0| - m
      {
        this_, woken, i, m := Visit(key, bits, this_, woken, c0, i, m);
        if |woken| > ret {
          ret := ret + 1;
          if ret >= nrWake {
            break;
          }
        }
      }
    }

    /** futex_wake() under the bucket lock: the best waiters that match, in the order of the list. */
    method Wake(key: int, bits: set<int>, nrWake: int) returns (ret: int, woken: seq<nat>)
      requires chain.Valid()
      modifies this`waiters, chain
      ensures chain.Valid() && chain.prio == old(chain.prio)
      ensures exists m: nat :: WokeFirst(q, key, bits, nrWake, old(chain.chain), woken, chain.chain, m)
      ensures InOrder(q, key, bits, chain.prio, woken, chain.chain)
      ensures WokeAsked(q, key, bits, nrWake, old(chain.chain), woken, chain.chain)
      ensures ret == |woken| && waiters == old(waiters) - |woken|
    {
      ghost var c0, i, m := chain.chain, 0, 0;
      ret, woken, i, m := WakeLoop(key, bits, nrWake);
      ScanEnds(q, key, bits, nrWake, c0, woken, chain.chain, i, m);
      WakeOrder(q, key, bits, nrWake, c0, woken, chain.chain, m, chain.prio);
      WakeAsked(q, key, bits, nrWake, c0, woken, chain.chain, m);
    }
  }

  /** Once an entry has left, its successor stands in its place. */
  lemma {:induction false} Shifted(c: seq<nat>, i: nat)
    requires i < |c|
    ensures var d := c[..i] + c[i + 1..]; |d| == |c| - 1 && (i < |d| ==> d[i] == c[i + 1])
  {
  }

  /** The first m entries of c0 are sorted out: the hits are woken, the misses are the first i left. */
  ghost predicate Scanned(q: map<nat, Waiter>, key: int, bits: set<int>,
                          c0: seq<nat>, woken: seq<nat>, chain: seq<nat>, i: nat, m: nat)
    decreases m
  {
    if m == 0 then woken == [] && i == 0 && chain == c0
    else if c0 == [] then false
    else if Matches(q, key, bits, c0[0]) then
      woken != [] && woken[0] == c0[0] && Scanned(q, key, bits, c0[1..], woken[1..], chain, i, m - 1)
    else chain != [] && i > 0 && chain[0] == c0[0] && Scanned(q, key, bits, c0[1..], woken, chain[1..], i - 1, m - 1)
  }

  lemma {:induction false} ScanOne(q: map<nat, Waiter>, key: int, bits: set<int>,
                                   c0: seq<nat>, woken: seq<nat>, chain: seq<nat>, i: nat, m: nat)
    requires Scanned(q, key, bits, c0, woken, chain, i, m) && i < |chain|
    ensures m < |c0| && chain[i] == c0[m]
    ensures Matches(q, key, bits, chain[i]) ==>
              Scanned(q, key, bits, c0, woken + [chain[i]], chain[..i] + chain[i + 1..], i, m + 1)
    ensures !Matches(q, key, bits, chain[i]) ==> Scanned(q, key, bits, c0, woken, chain, i + 1, m + 1)
  {
    if m == 0 {
      assert chain[..0] + chain[1..] == chain[1..];
    } else if Matches(q, key, bits, c0[0]) {
      ScanOne(q, key, bits, c0[1..], woken[1..], chain, i, m - 1);
      assert (woken + [chain[i]])[1..] == woken[1..] + [chain[i]];
    } else {
      ScanOne(q, key, bits, c0[1..], woken, chain[1..], i - 1, m - 1);
      assert (chain[..i] + chain[i + 1..])[1..] == chain[1..][..i - 1] + chain[1..][i..];
    }
  }

  lemma {:induction false} ScanParts(q: map<nat, Waiter>, key: int, bits: set<int>,
                                     c0: seq<nat>, woken: seq<nat>, chain: seq<nat>, i: nat, m: nat)
    requires Scanned(q, key, bits, c0, woken, chain, i, m)
    ensures m <= |c0| && i + |c0| - m == |chain|
    ensures woken == Hits(q, key, bits, c0[..m]) && chain == Misses(q, key, bits, c0[..m]) + c0[m..]
  {
    if m > 0 {
      if Matches(q, key, bits, c0[0]) {
        ScanParts(q, key, bits, c0[1..], woken[1..], chain, i, m - 1);
        assert woken == [c0[0]] + woken[1..];
      } else {
        ScanParts(q, key, bits, c0[1..], woken, chain[1..], i - 1, m - 1);
        assert chain == [c0[0]] + chain[1..];
      }
      assert c0[..m][1..] == c0[1..][..m - 1] && c0[1..][m - 1..] == c0[m..];
    }
  }

  /** The scan ended at the head of the list or at the quota. */
  lemma {:induction false} ScanEnds(q: map<nat, Waiter>, key: int, bits: set<int>, nrWake: int,
                                    c0: seq<nat>, woken: seq<nat>, chain: seq<nat>, i: nat, m: nat)
    requires Scanned(q, key, bits, c0, woken, chain, i, m) && |woken| <= AtLeastOne(nrWake)
    requires i >= |chain| || |woken| == AtLeastOne(nrWake)
    ensures WokeFirst(q, key, bits, nrWake, c0, woken, chain, m)
  {
    ScanParts(q, key, bits, c0, woken, chain, i, m);
  }

  lemma {:induction false} HitsFromPrefix(q: map<nat, Waiter>, key: int, bits: set<int>, c: seq<nat>)
    ensures forall x :: x in Hits(q, key, bits, c) <==> x in c && Matches(q, key, bits, x)
    ensures forall x :: x in Misses(q, key, bits, c) <==> x in c && !Matches(q, key, bits, x)
  {
    if c != [] {
      HitsFromPrefix(q, key, bits, c[1..]);
      assert c == [c[0]] + c[1..];
    }
  }

  /** On a chain in priority order, no waiter left behind that matches has a better priority than
      one that was woken; and all matching waiters are woken when they fit the quota. */
  lemma {:induction false} WakeOrder(q: map<nat, Waiter>, key: int, bits: set<int>, nrWake: int,
                                     chain: seq<nat>, woken: seq<nat>, rest: seq<nat>, m: nat, prio: map<nat, int>)
    requires WokeFirst(q, key, bits, nrWake, chain, woken, rest, m) && Plist.Sorted(chain, prio)
    ensures forall x, y :: x in woken && y in rest && Matches(q, key, bits, y) ==> Plist.P(prio, x) <= Plist.P(prio, y)
    ensures |Hits(q, key, bits, chain)| <= AtLeastOne(nrWake) ==> forall y :: y in rest ==> !Matches(q, key, bits, y)
    ensures forall x :: x in woken ==> x in chain && Matches(q, key, bits, x)
  {
    var a, b := chain[..m], chain[m..];
    assert chain == a + b;
    HitsFromPrefix(q, key, bits, a);
    forall x, y | x in woken && y in rest && Matches(q, key, bits, y) ensures Plist.P(prio, x) <= Plist.P(prio, y) {
      assert x in a && y in b;
      var i :| 0 <= i < |a| && a[i] == x;
      var j :| 0 <= j < |b| && b[j] == y;
      assert chain[i] == x && chain[m + j] == y;
    }
    if |Hits(q, key, bits, chain)| <= AtLeastOne(nrWake) {
      HitsJoin(q, key, bits, a, b);
      HitsFromPrefix(q, key, bits, b);
      if m < |chain| {
        assert Hits(q, key, bits, b) == [];
      }
    }
  }

  lemma {:induction false} AskedMatches(q: map<nat, Waiter>, key: int, bits: set<int>, v: nat)
    ensures Asked(q, key, bits, v) <==> Matches(q, key, bits, v)
  {
    if v in q { Meets(q[v].bitset, bits); }
  }

  lemma {:induction false} WakeAsked(q: map<nat, Waiter>, key: int, bits: set<int>, nrWake: int,
                                     chain: seq<nat>, woken: seq<nat>, rest: seq<nat>, m: nat)
    requires WokeFirst(q, key, bits, nrWake, chain, woken, rest, m)
    ensures WokeAsked(q, key, bits, nrWake, chain, woken, rest)
  {
    HitsFromPrefix(q, key, bits, chain[..m]);
    forall v ensures Asked(q, key, bits, v) <==> Matches(q, key, bits, v) { AskedMatches(q, key, bits, v); }
    if m == |chain| {
      assert chain[m..] == [];
    }
  }

  lemma {:induction false} HitsJoin(q: map<nat, Waiter>, key: int, bits: set<int>, a: seq<nat>, b: seq<nat>)
    ensures Hits(q, key, bits, a + b) == Hits(q, key, bits, a) + Hits(q, key, bits, b)
  {
    if a == [] {
      assert a + b == b;
    } else {
      HitsJoin(q, key, bits, a[1..], b);
      assert (a + b)[1..] == a[1..] + b;
    }
  }
}
