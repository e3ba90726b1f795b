/** What a whole call of futex_wake() or futex_requeue() does to the queues, on runs with any other threads
    (kernel/futex.c). */
module FutexCalls {
  import opened Basics
  import opened Futex
  import opened FutexChains

  /** A call under its locks: whom it looks for, in which bucket, where to move them, how many of them it wakes
      (none: all) and how many it takes (none: all). */
  datatype Call = Call(key: nat, bits: Option<set<int>>, b1: nat, b2: nat, key2: nat, wakes: Option<nat>,
                       total: Option<nat>)

  function AtLeast(lo: int, n: int): int { if n < lo then lo else n }

  /** futex_wake() takes nr_wake waiters, but at least one; futex_requeue() wakes nr_wake and moves nr_requeue more. */
  function CallOf(j: Job): Call {
    match j
    case Waking(w) =>
      Call(w.key, w.bits, w.b, w.b, w.key, None, if w.limit.None? then None else Some(AtLeast(1, w.limit.value)))
    case Requeueing(r) =>
      Call(r.key1, None, r.b1, r.b2, r.key2, Some(AtLeast(0, r.nrWake)), Some(AtLeast(0, r.nrWake + r.nrRequeue)))
  }

  function Upto(n: nat, bound: Option<nat>): nat { if bound.Some? && bound.value < n then bound.value else n }

  // ---- who may touch an entry ----

  /** v is on a chain whose lock t holds, or in the hands of t. */
  ghost predicate Near(s: State, t: nat, v: nat)
    requires t < |s.pcs|
  {
    exists b: nat :: Holds(s.pcs[t], b) && (OnChain(s.chains, b, v) || InHand(s.pcs[t], b, v))
  }

  /** Nobody else is near it. */
  lemma {:induction false} NearOnce(s: State, t: nat, u: nat, v: nat)
    requires LockInv(s.locks, s.pcs) && QueueInv(s) && PcsWf(ShapeOf(s), s.pcs) && t < |s.pcs| && u < |s.pcs|
    requires Near(s, t, v) && Near(s, u, v)
    ensures t == u
  {
    var b: nat :| Holds(s.pcs[t], b) && (OnChain(s.chains, b, v) || InHand(s.pcs[t], b, v));
    var d: nat :| Holds(s.pcs[u], d) && (OnChain(s.chains, d, v) || InHand(s.pcs[u], d, v));
    assert InHand(s.pcs[t], b, v) ==> HeldOk(s, b, v);
    assert InHand(s.pcs[u], d, v) ==> HeldOk(s, d, v);
    assert OnChain(s.chains, b, v) <==> OnChain(s.chains, d, v);
    assert b == d;
    BothHold(s, t, u, b);
  }

  lemma {:induction false} BothHold(s: State, t: nat, u: nat, b: nat)
    requires LockInv(s.locks, s.pcs) && ShapeWf(s) && PcsWf(ShapeOf(s), s.pcs) && t < |s.pcs| && u < |s.pcs|
    requires Holds(s.pcs[t], b) && Holds(s.pcs[u], b)
    ensures t == u
  {
    assert PcWf(ShapeOf(s), s.pcs[t]);
    assert b < |s.locks|;
    assert s.locks[b] == Some(t) && s.locks[b] == Some(u);
  }

  /** A step writes only its own idle entry, or one it is near. */
  ghost predicate TouchOk(s: State, t: nat, u: Update)
    requires t < |s.pcs|
  {
    && (u.entry.Some? ==> (u.entry.value.0 == t && s.pcs[t].Idle?) || Near(s, t, u.entry.value.0))
    && (u.ptr.Some? ==> (u.ptr.value.0 == t && s.pcs[t].Idle?) || Near(s, t, u.ptr.value.0))
  }

  lemma {:induction false} TouchesStart(s: State, t: nat, a: Action)
    requires Local(s, t) && CanStart(s, t, a)
    ensures TouchOk(s, t, Start(s, t, a))
  {}

  lemma {:induction false} TouchesWaiter(s: State, t: nat, c: nat)
    requires Local(s, t) && CanStep(s, t, c) && Waiting(s.pcs[t])
    ensures TouchOk(s, t, WaiterStep(s, t, c))
  {}

  lemma {:induction false} TouchesScan(s: State, t: nat)
    requires Local(s, t) && s.pcs[t].Scan?
    ensures TouchOk(s, t, ScanStep(s, t))
  {
    var u := ScanStep(s, t);
    if u.entry.Some? {
      var b := Src(s.pcs[t].j);
      assert Holds(s.pcs[t], b) && OnChain(s.chains, b, u.entry.value.0);
    }
  }

  lemma {:induction false} TouchesWaker(s: State, t: nat, c: nat)
    requires Local(s, t) && CanStep(s, t, c) && !Waiting(s.pcs[t]) && !s.pcs[t].Scan? && QueueInv(s) && KeyInv(s)
    ensures TouchOk(s, t, WakerStep(s, t, c))
  {
    var pc := s.pcs[t];
    if pc.MarkNull? {
      assert Holds(pc, Src(pc.j)) && InHand(pc, Src(pc.j), pc.v);
    } else if pc.MovePtr? {
      assert Relinked(pc, Src(pc.j), Dst(pc.j), pc.v);
      assert RelinkOk(s, Src(pc.j), Dst(pc.j), pc.v);
      assert Holds(pc, Dst(pc.j)) && OnChain(s.chains, Dst(pc.j), pc.v);
    } else if pc.MoveKey? {
      assert Holds(pc, Dst(pc.j)) && OnChain(s.chains, Dst(pc.j), pc.v);
    }
  }

  lemma {:induction false} Touches(s: State, t: nat, a: Action)
    requires Inv(s) && Enabled(s, t, a)
    ensures TouchOk(s, t, Plan(s, t, a))
  {
    if !a.Step? { TouchesStart(s, t, a); }
    else if Waiting(s.pcs[t]) { TouchesWaiter(s, t, a.c); }
    else if s.pcs[t].Scan? { TouchesScan(s, t); }
    else { TouchesWaker(s, t, a.c); }
  }

  lemma {:induction false} NearQueued(s: State, t: nat, v: nat)
    requires QueueInv(s) && t < |s.pcs| && Near(s, t, v)
    ensures v < |s.pcs| && Queued(s.pcs[v])
  {
    var b: nat :| Holds(s.pcs[t], b) && (OnChain(s.chains, b, v) || InHand(s.pcs[t], b, v));
    if InHand(s.pcs[t], b, v) { assert HeldOk(s, b, v); } else { assert ChainedOk(s, b, v); }
  }

  /** What t is near, nobody else writes. */
  lemma {:induction false} NearKept(s: State, u: nat, a: Action, t: nat, v: nat)
    requires Inv(s) && Enabled(s, u, a) && UpdateWf(s, u, Plan(s, u, a)) && t < |s.pcs| && t != u && Near(s, t, v)
    ensures v < |s.qs| == |s.ptrs| && Do(s, u, Plan(s, u, a)).qs[v] == s.qs[v]
      && Do(s, u, Plan(s, u, a)).ptrs[v] == s.ptrs[v]
  {
    var p := Plan(s, u, a);
    Touches(s, u, a);
    NearQueued(s, t, v);
    if (p.entry.Some? && p.entry.value.0 == v && Near(s, u, v))
      || (p.ptr.Some? && p.ptr.value.0 == v && Near(s, u, v)) {
      NearOnce(s, t, u, v);
    }
  }

  // ---- how far a scan has got ----

  ghost function SetOf(s: seq<nat>): set<nat> { set x | x in s }

  /** Entries that are off the source chain for good or in hand. */
  ghost function Rem(call: Call, w: seq<nat>, mv: seq<nat>): set<nat> {
    SetOf(w) + if call.b1 == call.b2 then {} else SetOf(mv)
  }

  predicate InTransit(pc: Pc) { pc.MoveDec? || pc.MoveInc? || pc.MoveAdd? }

  ghost predicate CountOk(call: Call, w: seq<nat>, mv: seq<nat>) {
    |w| == Upto(|w| + |mv|, call.wakes) && |w| + |mv| == Upto(|w| + |mv|, call.total)
  }

  ghost predicate VictimOk(pc: Pc, w: seq<nat>, mv: seq<nat>) {
    && (Marking(pc) ==> w != [] && mv == [] && pc.v == w[|w| - 1])
    && (Moving(pc) ==> mv != [] && pc.v == mv[|mv| - 1])
  }

  /** The moved entries are on the other chain, the one in transit excepted, and nothing else changed there. */
  ghost predicate DestOk(pc: Pc, call: Call, d0: seq<nat>, d: seq<nat>, mv: seq<nat>) {
    call.b1 != call.b2 ==> Without(d, SetOf(mv)) == d0 && forall v <- mv :: v in d <==> !(InTransit(pc) && v == pc.v)
  }

  /** The entry and the lock_ptr of v as the call leaves them. */
  ghost predicate EntryNow(pc: Pc, call: Call, e0: Entry, e: Entry, p0: Option<nat>, p: Option<nat>, mv: seq<nat>,
                           v: nat) {
    if v !in mv then e == e0 && p == p0
    else if Moving(pc) && v == pc.v then e == e0.(moved := true) && p == if pc.MoveKey? then Some(call.b2) else p0
    else e == e0.(key := call.key2, moved := true) && p == Some(call.b2)
  }

  ghost predicate EntriesOk(s0: State, s: State, pc: Pc, call: Call, w: seq<nat>, mv: seq<nat>)
    requires call.b1 < |s0.chains| && call.b2 < |s0.chains|
  {
    forall v: nat :: (v in s0.chains[call.b1] || v in s0.chains[call.b2]) && v !in w ==>
      && v < |s.qs| && v < |s0.qs| && v < |s.ptrs| && v < |s0.ptrs|
      && EntryNow(pc, call, s0.qs[v], s.qs[v], s0.ptrs[v], s.ptrs[v], mv, v)
  }

  /** Since s0, when the call began to scan, it has looked at p entries, i of which are left in place: it woke w and
      moved mv, pc saying where the last one is. */
  ghost predicate Core(s0: State, s: State, pc: Pc, call: Call, i: nat, p: nat, w: seq<nat>, mv: seq<nat>) {
    && ShapeOf(s) == ShapeOf(s0) && call.b1 < |s.chains| && call.b2 < |s.chains|
    && p <= |s0.chains[call.b1]| && w + mv == Hits(s0.qs, call.key, call.bits, s0.chains[call.b1][..p])
    && CountOk(call, w, mv) && VictimOk(pc, w, mv)
    && Passed(s0.chains[call.b1], Rem(call, w, mv), s.chains[call.b1], i, p)
    && DestOk(pc, call, s0.chains[call.b2], s.chains[call.b2], mv)
    && EntriesOk(s0, s, pc, call, w, mv)
  }

  /** A wake that scans on has not reached its quota. */
  ghost predicate Wanting(pc: Pc, call: Call, n: int) {
    pc.Scan? && call.wakes.None? && call.total.Some? ==> n < call.total.value
  }

  ghost predicate Prog(s0: State, s: State, t: nat, j: Job, p: nat, w: seq<nat>, mv: seq<nat>) {
    && t < |s.pcs| && JobWf(ShapeOf(s0), j) && InJob(s.pcs[t]) && !s.pcs[t].JobUnlock? && s.pcs[t].j == j
    && s.pcs[t].n == |w| + |mv| && Wanting(s.pcs[t], CallOf(j), s.pcs[t].n)
    && Core(s0, s, s.pcs[t], CallOf(j), s.pcs[t].i, p, w, mv)
  }

  /** The scan is over: the chain ended or the quota is reached. */
  ghost predicate Over(s0: State, s: State, t: nat, j: Job, i: nat, p: nat, w: seq<nat>, mv: seq<nat>) {
    && t < |s.pcs| && s.pcs[t] == JobUnlock(j) && Core(s0, s, s.pcs[t], CallOf(j), i, p, w, mv)
    && (p == |s0.chains[CallOf(j).b1]| || CallOf(j).total == Some(|w| + |mv|))
  }

  // ---- steps of other threads ----

  lemma {:induction false} CoreNear(s0: State, s: State, t: nat, j: Job, i: nat, p: nat, w: seq<nat>, mv: seq<nat>,
                            v: nat)
    requires t < |s.pcs| && InJob(s.pcs[t]) && s.pcs[t].j == j && Core(s0, s, s.pcs[t], CallOf(j), i, p, w, mv)
    requires (v in s0.chains[CallOf(j).b1] || v in s0.chains[CallOf(j).b2]) && v !in w
    ensures Near(s, t, v)
  {
    var call, pc := CallOf(j), s.pcs[t];
    var rem := Rem(call, w, mv);
    assert call.b1 == Src(j) && call.b2 == Dst(j) && Holds(pc, call.b1) && Holds(pc, call.b2);
    PassedIs(s0.chains[call.b1], rem, s.chains[call.b1], i, p);
    WithoutIn(s0.chains[call.b1], rem, v);
    WithoutIn(s.chains[call.b2], SetOf(mv), v);
    if v in s.chains[call.b1] {
      assert OnChain(s.chains, call.b1, v);
    } else if v in s.chains[call.b2] {
      assert OnChain(s.chains, call.b2, v);
    } else {
      assert v in mv && InTransit(pc) && v == pc.v;
      assert InHand(pc, call.b1, v);
    }
  }

  lemma {:induction false} OthersCore(s0: State, s: State, u: nat, a: Action, t: nat, j: Job, i: nat, p: nat,
                            w: seq<nat>, mv: seq<nat>)
    requires Inv(s) && Enabled(s, u, a) && UpdateWf(s, u, Plan(s, u, a)) && u != t
    requires t < |s.pcs| && InJob(s.pcs[t]) && s.pcs[t].j == j && Core(s0, s, s.pcs[t], CallOf(j), i, p, w, mv)
    ensures Core(s0, Do(s, u, Plan(s, u, a)), s.pcs[t], CallOf(j), i, p, w, mv)
  {
    var s', call := Do(s, u, Plan(s, u, a)), CallOf(j);
    assert call.b1 == Src(j) && call.b2 == Dst(j);
    Guarding(s, u, a);
    ChainKept(s, u, Plan(s, u, a), t, call.b1);
    ChainKept(s, u, Plan(s, u, a), t, call.b2);
    forall v: nat | (v in s0.chains[call.b1] || v in s0.chains[call.b2]) && v !in w
      ensures v < |s'.qs| && v < |s'.ptrs| && s'.qs[v] == s.qs[v] && s'.ptrs[v] == s.ptrs[v]
    {
      CoreNear(s0, s, t, j, i, p, w, mv, v);
      NearKept(s, u, a, t, v);
    }
  }

  // ---- the scan ----

  /** What the scan relies on. */
  ghost predicate Locked(s: State) { LockInv(s.locks, s.pcs) && QueueInv(s) && PcsWf(ShapeOf(s), s.pcs) }

  /** The entry the scan looks at is as it was, and its lock_ptr names the bucket. */
  lemma {:induction false} Looked(s0: State, s: State, t: nat, j: Job, p: nat, w: seq<nat>, mv: seq<nat>)
    requires Locked(s) && Prog(s0, s, t, j, p, w, mv) && s.pcs[t].Scan?
    ensures var (c0, c, i) := (s0.chains[CallOf(j).b1], s.chains[CallOf(j).b1], s.pcs[t].i);
      && (i < |c| <==> p < |c0|)
      && (p < |c0| ==>
            var v := c0[p];
            && c[i] == v && v !in w && v !in mv && v < |s.qs| && v < |s0.qs| && v < |s.ptrs| && v < |s0.ptrs|
            && s.qs[v] == s0.qs[v] && s.ptrs[v] == s0.ptrs[v] == Some(CallOf(j).b1)
            && (Matches(s.qs, j, v) <==> Hit(s0.qs, CallOf(j).key, CallOf(j).bits, v)))
  {
    var call := CallOf(j);
    var c0, c := s0.chains[call.b1], s.chains[call.b1];
    PassedHere(c0, Rem(call, w, mv), c, s.pcs[t].i, p);
    if p < |c0| {
      var v := c0[p];
      NotTaken(s0.qs, call, c0, p, w + mv);
      assert v in c0 && v !in w && v !in mv;
      assert OnChain(s.chains, call.b1, v);
      assert ChainedOk(s, call.b1, v);
      if s.ptrs[v] != Some(call.b1) {
        var u: nat, b: nat :| u < |s.pcs| && Relinked(s.pcs[u], b, call.b1, v);
        BothHold(s, t, u, call.b1);
      }
      if call.bits.Some? { Meets(s.qs[v].bitset, call.bits.value); }
    }
  }

  /** An entry not yet passed was not taken. */
  lemma {:induction false} NotTaken(qs: seq<Entry>, call: Call, c0: seq<nat>, p: nat, h: seq<nat>)
    requires Distinct(c0) && p < |c0| && h == Hits(qs, call.key, call.bits, c0[..p])
    ensures c0[p] !in h
  {
    HitsIn(qs, call.key, call.bits, c0[..p], c0[p]);
    assert forall x <- c0[..p] :: x != c0[p];
  }

  lemma {:induction false} RemGrows(call: Call, w: seq<nat>, mv: seq<nat>, v: nat)
    ensures Rem(call, w + [v], mv) == Rem(call, w, mv) + {v}
    ensures Rem(call, w, mv + [v]) == if call.b1 == call.b2 then Rem(call, w, mv) else Rem(call, w, mv) + {v}
  {
  }

  /** Nothing in the chains or entries of the call changed, nor where its victim is. */
  lemma {:induction false} SameCore(s0: State, s: State, s': State, pc: Pc, pc': Pc, call: Call, i: nat, p: nat,
                            w: seq<nat>, mv: seq<nat>)
    requires Core(s0, s, pc, call, i, p, w, mv) && ShapeOf(s') == ShapeOf(s) && s'.chains == s.chains && s'.qs == s.qs
    requires |s'.ptrs| == |s.ptrs| && forall v: nat :: v < |s.ptrs| && v !in w ==> s'.ptrs[v] == s.ptrs[v]
    requires InTransit(pc) <==> InTransit(pc')
    requires (Moving(pc) <==> Moving(pc')) && (pc.MoveKey? <==> pc'.MoveKey?)
    requires Moving(pc) ==> pc'.v == pc.v
    requires Marking(pc') ==> Marking(pc) && pc'.v == pc.v
    ensures Core(s0, s', pc', call, i, p, w, mv)
  {
    SameEntries(s0, s, s', pc, pc', call, w, mv);
  }

  lemma {:induction false} SameEntries(s0: State, s: State, s': State, pc: Pc, pc': Pc, call: Call, w: seq<nat>,
                            mv: seq<nat>)
    requires call.b1 < |s0.chains| && call.b2 < |s0.chains| && EntriesOk(s0, s, pc, call, w, mv) && s'.qs == s.qs
    requires |s'.ptrs| == |s.ptrs| && forall v: nat :: v < |s.ptrs| && v !in w ==> s'.ptrs[v] == s.ptrs[v]
    requires (Moving(pc) <==> Moving(pc')) && (pc.MoveKey? <==> pc'.MoveKey?)
    requires Moving(pc) ==> pc'.v == pc.v
    ensures EntriesOk(s0, s', pc', call, w, mv)
  {
    forall x: nat | (x in s0.chains[call.b1] || x in s0.chains[call.b2]) && x !in w
      ensures x < |s'.qs| && x < |s0.qs| && x < |s'.ptrs| && x < |s0.ptrs|
        && EntryNow(pc', call, s0.qs[x], s'.qs[x], s0.ptrs[x], s'.ptrs[x], mv, x)
    {
      assert EntryNow(pc, call, s0.qs[x], s.qs[x], s0.ptrs[x], s.ptrs[x], mv, x);
    }
  }

  /** The entry at hand is passed over. */
  lemma {:induction false} ScanSkip(s0: State, s: State, t: nat, j: Job, p: nat, w: seq<nat>, mv: seq<nat>)
    requires Prog(s0, s, t, j, p, w, mv) && s.pcs[t].Scan? && p < |s0.chains[CallOf(j).b1]|
    requires !Hit(s0.qs, CallOf(j).key, CallOf(j).bits, s0.chains[CallOf(j).b1][p])
    ensures Core(s0, s, s.pcs[t], CallOf(j), s.pcs[t].i + 1, p + 1, w, mv)
  {
    var call := CallOf(j);
    var c0 := s0.chains[call.b1];
    PassedSkip(c0, Rem(call, w, mv), s.chains[call.b1], s.pcs[t].i, p);
    HitsNext(s0.qs, call.key, call.bits, c0, p);
  }

  /** The entry at hand is unlinked for waking. */
  lemma {:induction false} ScanWake(s0: State, s: State, s': State, t: nat, j: Job, p: nat, w: seq<nat>,
                            mv: seq<nat>, pc': Pc)
    requires Prog(s0, s, t, j, p, w, mv) && s.pcs[t].Scan? && p < |s0.chains[CallOf(j).b1]|
    requires Hit(s0.qs, CallOf(j).key, CallOf(j).bits, s0.chains[CallOf(j).b1][p])
    requires mv == [] && CountOk(CallOf(j), w + [s0.chains[CallOf(j).b1][p]], mv)
    requires s.pcs[t].i < |s.chains[CallOf(j).b1]| && ShapeOf(s') == ShapeOf(s) && s'.qs == s.qs && s'.ptrs == s.ptrs
    requires s'.chains == s.chains[CallOf(j).b1 := DropAt(s.chains[CallOf(j).b1], s.pcs[t].i)]
    requires pc'.MarkDec? && pc'.v == s0.chains[CallOf(j).b1][p]
    ensures Core(s0, s', pc', CallOf(j), s.pcs[t].i, p + 1, w + [s0.chains[CallOf(j).b1][p]], mv)
  {
    var call := CallOf(j);
    var c0 := s0.chains[call.b1];
    var v := c0[p];
    PassedDrop(c0, Rem(call, w, mv), s.chains[call.b1], s.pcs[t].i, p);
    RemGrows(call, w, mv, v);
    HitsNext(s0.qs, call.key, call.bits, c0, p);
    assert w + [v] + mv == w + mv + [v];
  }

  /** The entry at hand gets its new key where it is. */
  lemma {:induction false} ScanRekey(s0: State, s: State, s': State, t: nat, j: Job, p: nat, w: seq<nat>,
                            mv: seq<nat>, pc': Pc)
    requires Locked(s) && Prog(s0, s, t, j, p, w, mv) && s.pcs[t].Scan? && p < |s0.chains[CallOf(j).b1]|
    requires Hit(s0.qs, CallOf(j).key, CallOf(j).bits, s0.chains[CallOf(j).b1][p]) && CallOf(j).b1 == CallOf(j).b2
    requires CountOk(CallOf(j), w, mv + [s0.chains[CallOf(j).b1][p]])
    requires ShapeOf(s') == ShapeOf(s) && s'.chains == s.chains && s'.ptrs == s.ptrs
    requires var v := s0.chains[CallOf(j).b1][p];
      v < |s.qs| && s'.qs == s.qs[v := s.qs[v].(key := CallOf(j).key2, moved := true)]
    requires pc'.Scan?
    ensures Core(s0, s', pc', CallOf(j), s.pcs[t].i + 1, p + 1, w, mv + [s0.chains[CallOf(j).b1][p]])
  {
    var call := CallOf(j);
    var c0 := s0.chains[call.b1];
    var v := c0[p];
    Looked(s0, s, t, j, p, w, mv);
    PassedSkip(c0, Rem(call, w, mv), s.chains[call.b1], s.pcs[t].i, p);
    RemGrows(call, w, mv, v);
    HitsNext(s0.qs, call.key, call.bits, c0, p);
    assert w + (mv + [v]) == w + mv + [v];
    RekeyEntries(s0, s, s', s.pcs[t], pc', call, w, mv, v);
  }

  lemma {:induction false} RekeyEntries(s0: State, s: State, s': State, pc: Pc, pc': Pc, call: Call, w: seq<nat>,
                            mv: seq<nat>, v: nat)
    requires call.b1 < |s0.chains| && call.b2 < |s0.chains| && EntriesOk(s0, s, pc, call, w, mv)
    requires pc.Scan? && pc'.Scan? && v < |s.qs| && v < |s0.qs| && v < |s.ptrs| && v < |s0.ptrs|
    requires s.qs[v] == s0.qs[v] && s.ptrs[v] == Some(call.b2) && s'.ptrs == s.ptrs
    requires s'.qs == s.qs[v := s.qs[v].(key := call.key2, moved := true)]
    ensures EntriesOk(s0, s', pc', call, w, mv + [v])
  {
    forall x: nat | (x in s0.chains[call.b1] || x in s0.chains[call.b2]) && x !in w
      ensures x < |s'.qs| && x < |s0.qs| && x < |s'.ptrs| && x < |s0.ptrs|
        && EntryNow(pc', call, s0.qs[x], s'.qs[x], s0.ptrs[x], s'.ptrs[x], mv + [v], x)
    {
      assert EntryNow(pc, call, s0.qs[x], s.qs[x], s0.ptrs[x], s.ptrs[x], mv, x);
      assert x != v ==> (x in mv + [v] <==> x in mv);
    }
  }

  /** The entry at hand is unlinked to be moved. */
  lemma {:induction false} ScanTake(s0: State, s: State, s': State, t: nat, j: Job, p: nat, w: seq<nat>,
                            mv: seq<nat>, pc': Pc)
    requires Locked(s) && Prog(s0, s, t, j, p, w, mv) && s.pcs[t].Scan? && p < |s0.chains[CallOf(j).b1]|
    requires Hit(s0.qs, CallOf(j).key, CallOf(j).bits, s0.chains[CallOf(j).b1][p]) && CallOf(j).b1 != CallOf(j).b2
    requires CountOk(CallOf(j), w, mv + [s0.chains[CallOf(j).b1][p]])
    requires s.pcs[t].i < |s.chains[CallOf(j).b1]| && ShapeOf(s') == ShapeOf(s) && s'.ptrs == s.ptrs
    requires s'.chains == s.chains[CallOf(j).b1 := DropAt(s.chains[CallOf(j).b1], s.pcs[t].i)]
    requires var v := s0.chains[CallOf(j).b1][p]; v < |s.qs| && s'.qs == s.qs[v := s.qs[v].(moved := true)]
    requires pc'.MoveDec? && pc'.v == s0.chains[CallOf(j).b1][p]
    ensures Core(s0, s', pc', CallOf(j), s.pcs[t].i, p + 1, w, mv + [s0.chains[CallOf(j).b1][p]])
  {
    var call := CallOf(j);
    var c0, d := s0.chains[call.b1], s.chains[call.b2];
    var v := c0[p];
    Looked(s0, s, t, j, p, w, mv);
    PassedDrop(c0, Rem(call, w, mv), s.chains[call.b1], s.pcs[t].i, p);
    RemGrows(call, w, mv, v);
    HitsNext(s0.qs, call.key, call.bits, c0, p);
    assert w + (mv + [v]) == w + mv + [v];
    assert OnChain(s.chains, call.b1, v) && !OnChain(s.chains, call.b2, v);
    TakeDest(s.pcs[t], pc', call, s0.chains[call.b2], d, mv, v);
    TakeEntries(s0, s, s', s.pcs[t], pc', call, w, mv, v);
  }

  lemma {:induction false} TakeDest(pc: Pc, pc': Pc, call: Call, d0: seq<nat>, d: seq<nat>, mv: seq<nat>, v: nat)
    requires call.b1 != call.b2 && DestOk(pc, call, d0, d, mv) && pc.Scan? && pc'.MoveDec? && pc'.v == v && v !in d
      && v !in mv
    ensures DestOk(pc', call, d0, d, mv + [v])
  {
    assert SetOf(mv + [v]) == SetOf(mv) + {v};
    WithoutMore(d, SetOf(mv), v);
  }

  lemma {:induction false} TakeEntries(s0: State, s: State, s': State, pc: Pc, pc': Pc, call: Call, w: seq<nat>,
                            mv: seq<nat>, v: nat)
    requires call.b1 < |s0.chains| && call.b2 < |s0.chains| && EntriesOk(s0, s, pc, call, w, mv)
    requires pc.Scan? && pc'.MoveDec? && pc'.v == v && v !in mv && v < |s.qs| && v < |s0.qs| && v < |s.ptrs|
      && v < |s0.ptrs|
    requires s.qs[v] == s0.qs[v] && s.ptrs[v] == s0.ptrs[v] && s'.ptrs == s.ptrs
    requires s'.qs == s.qs[v := s.qs[v].(moved := true)]
    ensures EntriesOk(s0, s', pc', call, w, mv + [v])
  {
    forall x: nat | (x in s0.chains[call.b1] || x in s0.chains[call.b2]) && x !in w
      ensures x < |s'.qs| && x < |s0.qs| && x < |s'.ptrs| && x < |s0.ptrs|
        && EntryNow(pc', call, s0.qs[x], s'.qs[x], s0.ptrs[x], s'.ptrs[x], mv + [v], x)
    {
      assert EntryNow(pc, call, s0.qs[x], s.qs[x], s0.ptrs[x], s.ptrs[x], mv, x);
      assert x != v ==> (x in mv + [v] <==> x in mv);
    }
  }

  /** Numbers stay within the quotas. */
  lemma {:induction false} Counts(j: Job, n: int, w: seq<nat>, mv: seq<nat>, v: nat)
    requires CountOk(CallOf(j), w, mv) && n == |w| + |mv|
    ensures j.Waking? && Wanting(Scan(j, 0, n), CallOf(j), n) ==> mv == [] && CountOk(CallOf(j), w + [v], mv)
    ensures j.Requeueing? && n - j.r.nrWake < j.r.nrRequeue && n + 1 <= j.r.nrWake ==>
      mv == [] && CountOk(CallOf(j), w + [v], mv)
    ensures j.Requeueing? && n - j.r.nrWake < j.r.nrRequeue && n + 1 > j.r.nrWake ==> CountOk(CallOf(j), w, mv + [v])
    ensures j.Requeueing? && n - j.r.nrWake >= j.r.nrRequeue ==> CallOf(j).total == Some(n)
  {
  }

  /** A step of the scan itself. */
  lemma {:induction false} OwnScan(s0: State, s: State, t: nat, j: Job, p: nat, w: seq<nat>, mv: seq<nat>)
    returns (i: nat, p': nat, w': seq<nat>, mv': seq<nat>)
    requires Locked(s) && Local(s, t) && Prog(s0, s, t, j, p, w, mv) && s.pcs[t].Scan? && UpdateWf(s, t, ScanStep(s, t))
    ensures var s' := Do(s, t, ScanStep(s, t)); Prog(s0, s', t, j, p', w', mv') || Over(s0, s', t, j, i, p', w', mv')
    ensures w' == if ScanStep(s, t).pc.MarkDec? then w + [ScanStep(s, t).pc.v] else w
  {
    var u, call := ScanStep(s, t), CallOf(j);
    var s', c0 := Do(s, t, u), s0.chains[call.b1];
    i, p', w', mv' := s.pcs[t].i, p, w, mv;
    Looked(s0, s, t, j, p, w, mv);
    if ScanDone(s, j, i, s.pcs[t].n) {
      OwnEnd(s0, s, s', t, j, p, w, mv);
    } else if !Hit(s0.qs, call.key, call.bits, c0[p]) {
      p' := p + 1;
      OwnSkip(s0, s, s', t, j, p, w, mv);
    } else {
      p' := p + 1;
      w', mv' := OwnHit(s0, s, t, j, p, w, mv);
    }
  }

  lemma {:induction false} OwnEnd(s0: State, s: State, s': State, t: nat, j: Job, p: nat, w: seq<nat>, mv: seq<nat>)
    requires Prog(s0, s, t, j, p, w, mv) && s.pcs[t].Scan? && ScanDone(s, j, s.pcs[t].i, s.pcs[t].n)
    requires s.pcs[t].i >= |s.chains[CallOf(j).b1]| ==> p == |s0.chains[CallOf(j).b1]|
    requires SameQueues(s, s') && ShapeOf(s') == ShapeOf(s) && t < |s'.pcs| && s'.pcs[t] == JobUnlock(j)
    ensures Over(s0, s', t, j, s.pcs[t].i, p, w, mv)
  {
    SameCore(s0, s, s', s.pcs[t], s'.pcs[t], CallOf(j), s.pcs[t].i, p, w, mv);
    Counts(j, s.pcs[t].n, w, mv, 0);
  }

  lemma {:induction false} OwnSkip(s0: State, s: State, s': State, t: nat, j: Job, p: nat, w: seq<nat>, mv: seq<nat>)
    requires Prog(s0, s, t, j, p, w, mv) && s.pcs[t].Scan? && p < |s0.chains[CallOf(j).b1]|
    requires !Hit(s0.qs, CallOf(j).key, CallOf(j).bits, s0.chains[CallOf(j).b1][p])
    requires SameQueues(s, s') && ShapeOf(s') == ShapeOf(s) && t < |s'.pcs|
      && s'.pcs[t] == Scan(j, s.pcs[t].i + 1, s.pcs[t].n)
    ensures Prog(s0, s', t, j, p + 1, w, mv)
  {
    ScanSkip(s0, s, t, j, p, w, mv);
    SameCore(s0, s, s', s.pcs[t], s'.pcs[t], CallOf(j), s.pcs[t].i + 1, p + 1, w, mv);
  }

  /** The scan has found an entry. */
  lemma {:induction false} OwnHit(s0: State, s: State, t: nat, j: Job, p: nat, w: seq<nat>, mv: seq<nat>)
    returns (w': seq<nat>, mv': seq<nat>)
    requires Locked(s) && Local(s, t) && Prog(s0, s, t, j, p, w, mv) && s.pcs[t].Scan? && UpdateWf(s, t, ScanStep(s, t))
    requires !ScanDone(s, j, s.pcs[t].i, s.pcs[t].n) && p < |s0.chains[CallOf(j).b1]|
    requires Hit(s0.qs, CallOf(j).key, CallOf(j).bits, s0.chains[CallOf(j).b1][p])
    ensures Prog(s0, Do(s, t, ScanStep(s, t)), t, j, p + 1, w', mv')
    ensures w' == if ScanStep(s, t).pc.MarkDec? then w + [ScanStep(s, t).pc.v] else w
  {
    var u, call := ScanStep(s, t), CallOf(j);
    var s', v := Do(s, t, u), s0.chains[call.b1][p];
    Looked(s0, s, t, j, p, w, mv);
    Counts(j, s.pcs[t].n, w, mv, v);
    w', mv' := w, mv;
    if u.pc.MarkDec? {
      w' := w + [v];
      ScanWake(s0, s, s', t, j, p, w, mv, u.pc);
    } else {
      mv' := mv + [v];
      if call.b1 == call.b2 {
        ScanRekey(s0, s, s', t, j, p, w, mv, u.pc);
      } else {
        ScanTake(s0, s, s', t, j, p, w, mv, u.pc);
      }
    }
  }

  // ---- the entry in hand ----

  lemma {:induction false} OwnMark(s0: State, s: State, t: nat, j: Job, p: nat, w: seq<nat>, mv: seq<nat>, c: nat)
    requires Local(s, t) && Prog(s0, s, t, j, p, w, mv) && Marking(s.pcs[t]) && CanStep(s, t, c)
      && UpdateWf(s, t, WakerStep(s, t, c))
    ensures var s' := Do(s, t, WakerStep(s, t, c));
      Prog(s0, s', t, j, p, w, mv) || Over(s0, s', t, j, s.pcs[t].i, p, w, mv)
  {
    var u, call := WakerStep(s, t, c), CallOf(j);
    var s' := Do(s, t, u);
    assert s.pcs[t].v in w;
    SameCore(s0, s, s', s.pcs[t], u.pc, call, s.pcs[t].i, p, w, mv);
  }

  lemma {:induction false} OwnMove(s0: State, s: State, t: nat, j: Job, p: nat, w: seq<nat>, mv: seq<nat>, c: nat)
    requires Local(s, t) && Prog(s0, s, t, j, p, w, mv) && Moving(s.pcs[t]) && CanStep(s, t, c)
      && UpdateWf(s, t, WakerStep(s, t, c))
    ensures Prog(s0, Do(s, t, WakerStep(s, t, c)), t, j, p, w, mv)
  {
    if s.pcs[t].MoveAdd? {
      OwnLink(s0, s, t, j, p, w, mv, c);
    } else if s.pcs[t].MovePtr? || s.pcs[t].MoveKey? {
      OwnWrite(s0, s, t, j, p, w, mv, c);
    } else {
      var u := WakerStep(s, t, c);
      SameCore(s0, s, Do(s, t, u), s.pcs[t], u.pc, CallOf(j), s.pcs[t].i, p, w, mv);
    }
  }

  lemma {:induction false} OwnLink(s0: State, s: State, t: nat, j: Job, p: nat, w: seq<nat>, mv: seq<nat>, c: nat)
    requires Local(s, t) && Prog(s0, s, t, j, p, w, mv) && s.pcs[t].MoveAdd? && CanStep(s, t, c)
      && UpdateWf(s, t, WakerStep(s, t, c))
    ensures Prog(s0, Do(s, t, WakerStep(s, t, c)), t, j, p, w, mv)
  {
    var u, call, pc := WakerStep(s, t, c), CallOf(j), s.pcs[t];
    assert call.b1 != call.b2 && call.b1 == Src(j) && call.b2 == Dst(j);
    MoveLinks(pc, u.pc, call, s0.chains[call.b2], s.chains[call.b2], mv, pc.v, c);
    SameEntries(s0, s, Do(s, t, u), pc, u.pc, call, w, mv);
  }

  lemma {:induction false} OwnWrite(s0: State, s: State, t: nat, j: Job, p: nat, w: seq<nat>, mv: seq<nat>, c: nat)
    requires Local(s, t) && Prog(s0, s, t, j, p, w, mv) && (s.pcs[t].MovePtr? || s.pcs[t].MoveKey?) && CanStep(s, t, c)
    requires UpdateWf(s, t, WakerStep(s, t, c))
    ensures Prog(s0, Do(s, t, WakerStep(s, t, c)), t, j, p, w, mv)
  {
    var u, call, pc := WakerStep(s, t, c), CallOf(j), s.pcs[t];
    assert call.b1 != call.b2 && call.b1 == Src(j) && call.b2 == Dst(j);
    MoveWrites(s0, s, Do(s, t, u), pc, u.pc, call, w, mv, pc.v);
  }

  lemma {:induction false} MoveLinks(pc: Pc, pc': Pc, call: Call, d0: seq<nat>, d: seq<nat>, mv: seq<nat>, v: nat,
                            k: nat)
    requires call.b1 != call.b2 && DestOk(pc, call, d0, d, mv) && pc.MoveAdd? && pc'.MovePtr? && pc.v == pc'.v == v
      && v in mv && k <= |d|
    ensures DestOk(pc', call, d0, InsertAt(d, k, v), mv)
  {
    WithoutInsert(d, k, v, SetOf(mv));
    forall x <- mv ensures x in InsertAt(d, k, v) { InsertMember(d, k, v, x); }
  }

  lemma {:induction false} MoveWrites(s0: State, s: State, s': State, pc: Pc, pc': Pc, call: Call, w: seq<nat>,
                            mv: seq<nat>, v: nat)
    requires call.b1 < |s0.chains| && call.b2 < |s0.chains| && EntriesOk(s0, s, pc, call, w, mv) && v in mv
    requires (pc.MovePtr? || pc.MoveKey?) && pc.v == v
    requires v < |s.qs| && v < |s.ptrs|
    requires
      || (pc.MovePtr? && pc'.MoveKey? && pc'.v == v && s'.qs == s.qs && s'.ptrs == s.ptrs[v := Some(call.b2)])
      || (pc.MoveKey? && pc'.Scan? && s'.ptrs == s.ptrs && s'.qs == s.qs[v := s.qs[v].(key := call.key2)])
    ensures EntriesOk(s0, s', pc', call, w, mv)
  {
    forall x: nat | (x in s0.chains[call.b1] || x in s0.chains[call.b2]) && x !in w
      ensures x < |s'.qs| && x < |s0.qs| && x < |s'.ptrs| && x < |s0.ptrs|
        && EntryNow(pc', call, s0.qs[x], s'.qs[x], s0.ptrs[x], s'.ptrs[x], mv, x)
    {
      assert EntryNow(pc, call, s0.qs[x], s.qs[x], s0.ptrs[x], s.ptrs[x], mv, x);
    }
  }

  // ---- whole runs ----

  /** The waiters whose lock_ptr thread t has cleared on the way from run[i] to run[m], in order. */
  function WokenBy(run: seq<State>, i: nat, m: nat, t: nat): (w: seq<nat>)
    requires m < |run|
    decreases m
  {
    if m <= i then [] else WokenBy(run, i, m - 1, t) + Nulled(run[m - 1], run[m], t)
  }

  function Nulled(s: State, s': State, t: nat): (w: seq<nat>) {
    if t < |s.pcs| && t < |s'.pcs| && s.pcs[t].MarkNull? && s'.pcs[t] != s.pcs[t]
       && s.pcs[t].v < |s'.ptrs| && s'.ptrs[s.pcs[t].v].None? then [s.pcs[t].v] else []
  }

  /** The waiters woken so far: all but one just unlinked. */
  ghost function Cleared(pc: Pc, w: seq<nat>): seq<nat> {
    if Marking(pc) && w != [] then w[..|w| - 1] else w
  }

  /** The list of woken waiters grows when one is unlinked for waking. */
  ghost predicate Grown(pc: Pc, pc': Pc, w: seq<nat>, w': seq<nat>) {
    w' == if pc.Scan? && pc'.MarkDec? then w + [pc'.v] else w
  }

  /** One step of any thread. */
  lemma {:induction false} CallStep(s0: State, s: State, s': State, t: nat, j: Job, p: nat, w: seq<nat>, mv: seq<nat>)
    returns (i: nat, p': nat, w': seq<nat>, mv': seq<nat>)
    requires Inv(s) && Next(s, s') && Prog(s0, s, t, j, p, w, mv)
    ensures Prog(s0, s', t, j, p', w', mv') || Over(s0, s', t, j, i, p', w', mv')
    ensures t < |s'.pcs| && Grown(s.pcs[t], s'.pcs[t], w, w')
  {
    var u: nat, a: Action :| Enabled(s, u, a) && UpdateWf(s, u, Plan(s, u, a)) && s' == Do(s, u, Plan(s, u, a));
    if u != t {
      i, p', w', mv' := 0, p, w, mv;
      OthersCore(s0, s, u, a, t, j, s.pcs[t].i, p, w, mv);
    } else {
      i, p', w', mv' := OwnStep(s0, s, a, t, j, p, w, mv);
    }
  }

  lemma {:induction false} OwnStep(s0: State, s: State, a: Action, t: nat, j: Job, p: nat, w: seq<nat>, mv: seq<nat>)
    returns (i: nat, p': nat, w': seq<nat>, mv': seq<nat>)
    requires Locked(s) && Enabled(s, t, a) && UpdateWf(s, t, Plan(s, t, a)) && Prog(s0, s, t, j, p, w, mv)
    ensures var s' := Do(s, t, Plan(s, t, a)); Prog(s0, s', t, j, p', w', mv') || Over(s0, s', t, j, i, p', w', mv')
    ensures Grown(s.pcs[t], Plan(s, t, a).pc, w, w')
  {
    assert a.Step? && !Waiting(s.pcs[t]);
    if s.pcs[t].Scan? {
      i, p', w', mv' := OwnScan(s0, s, t, j, p, w, mv);
    } else {
      i, p', w', mv' := s.pcs[t].i, p, w, mv;
      if Marking(s.pcs[t]) { OwnMark(s0, s, t, j, p, w, mv, a.c); } else { OwnMove(s0, s, t, j, p, w, mv, a.c); }
    }
  }

  /** An entry unlinked for waking stays in hand until its lock_ptr is cleared. */
  ghost predicate MarkFlow(pc: Pc, u: Update) {
    && (pc.MarkNull? ==> !Marking(u.pc) && u.ptr == Some((pc.v, None)))
    && (pc.MarkDec? ==> u.pc.MarkNull? && u.pc.v == pc.v)
    && (!Marking(pc) && Marking(u.pc) ==> pc.Scan? && u.pc.MarkDec?)
  }

  lemma {:induction false} MarkFlows(s: State, t: nat, c: nat)
    requires Local(s, t) && InJob(s.pcs[t]) && CanStep(s, t, c)
    ensures MarkFlow(s.pcs[t], WakerStep(s, t, c))
  {
  }

  /** Clearing a lock_ptr is what adds to the waiters woken. */
  lemma {:induction false} TraceStep(pc: Pc, pc': Pc, nulled: seq<nat>, w: seq<nat>, w': seq<nat>, mv: seq<nat>)
    requires VictimOk(pc, w, mv) && Grown(pc, pc', w, w')
      && nulled == (if pc.MarkNull? && pc' != pc then [pc.v] else [])
    requires pc' != pc ==>
      !(pc.MarkNull? && Marking(pc')) && (pc.MarkDec? ==> Marking(pc'))
      && (!Marking(pc) && Marking(pc') ==> pc.Scan? && pc'.MarkDec?)
    ensures Cleared(pc, w) + nulled == Cleared(pc', w')
  {
    if w != [] { assert w == w[..|w| - 1] + [w[|w| - 1]]; }
  }

  lemma {:induction false} CallTrace(s: State, s': State, t: nat, w: seq<nat>, w': seq<nat>, mv: seq<nat>)
    requires Wf(s) && Next(s, s') && t < |s.pcs| == |s'.pcs| && InJob(s.pcs[t]) && VictimOk(s.pcs[t], w, mv)
    requires Grown(s.pcs[t], s'.pcs[t], w, w')
    ensures Cleared(s.pcs[t], w) + Nulled(s, s', t) == Cleared(s'.pcs[t], w')
  {
    MarkMoves(s, s', t);
    TraceStep(s.pcs[t], s'.pcs[t], Nulled(s, s', t), w, w', mv);
  }

  /** Only the thread that steps moves, and inside a call by a step of the waker. */
  lemma {:induction false} PcMoves(s: State, s': State, t: nat, u: nat, a: Action)
    requires Enabled(s, u, a) && UpdateWf(s, u, Plan(s, u, a)) && s' == Do(s, u, Plan(s, u, a))
    requires t < |s.pcs| && InJob(s.pcs[t])
    ensures u != t ==> s'.pcs[t] == s.pcs[t]
    ensures u == t ==> Local(s, t) && CanStep(s, t, a.c) && !Waiting(s.pcs[t]) && s'.pcs[t] == WakerStep(s, t, a.c).pc
  {
  }

  lemma {:induction false} MarkMoves(s: State, s': State, t: nat)
    requires Wf(s) && Next(s, s') && t < |s.pcs| == |s'.pcs| && InJob(s.pcs[t])
    ensures var pc, pc' := s.pcs[t], s'.pcs[t];
      pc' != pc ==>
        && !(pc.MarkNull? && Marking(pc')) && (pc.MarkDec? ==> Marking(pc'))
        && (!Marking(pc) && Marking(pc') ==> pc.Scan? && pc'.MarkDec?)
  {
    var u: nat, a: Action :| Enabled(s, u, a) && UpdateWf(s, u, Plan(s, u, a)) && s' == Do(s, u, Plan(s, u, a));
    PcMoves(s, s', t, u, a);
    if u == t { MarkFlows(s, t, a.c); }
  }

  /** The scan begins. */
  lemma {:induction false} CallBegins(s: State, t: nat, j: Job)
    requires QueueInv(s) && PcsWf(ShapeOf(s), s.pcs) && t < |s.pcs| && s.pcs[t] == Scan(j, 0, 0)
    ensures Prog(s, s, t, j, 0, [], [])
  {
    var call := CallOf(j);
    assert PcWf(ShapeOf(s), s.pcs[t]);
    assert call.b1 == Src(j) && call.b2 == Dst(j);
    PassedNone(s.chains[call.b1]);
    assert s.chains[call.b1][..0] == [] && Rem(call, [], []) == {} && SetOf([]) == {};
    WithoutNone(s.chains[call.b2], {});
    ChainBound(s, call.b1);
    ChainBound(s, call.b2);
  }

  lemma {:induction false} ChainBound(s: State, b: nat)
    requires QueueInv(s) && b < |s.chains|
    ensures forall v <- s.chains[b] :: v < |s.qs| && v < |s.ptrs|
  {
    forall v <- s.chains[b] ensures v < |s.qs| && v < |s.ptrs| {
      assert OnChain(s.chains, b, v);
      assert ChainedOk(s, b, v);
    }
  }

  /** Where the call of t stands in run[m], and what it has done since run[i]. */
  ghost predicate Stands(run: seq<State>, i: nat, m: nat, t: nat, j: Job, k: nat, p: nat, w: seq<nat>, mv: seq<nat>)
    requires i < |run| && m < |run|
  {
    && (Prog(run[i], run[m], t, j, p, w, mv) || Over(run[i], run[m], t, j, k, p, w, mv))
    && WokenBy(run, i, m, t) == Cleared(run[m].pcs[t], w)
  }

  lemma {:induction false} StandsOn(run: seq<State>, i: nat, m: nat, t: nat, j: Job, p: nat, w: seq<nat>, mv: seq<nat>)
    returns (k: nat, p': nat, w': seq<nat>, mv': seq<nat>)
    requires i <= m && m + 1 < |run| && Inv(run[m]) && Next(run[m], run[m + 1]) && Prog(run[i], run[m], t, j, p, w, mv)
    requires WokenBy(run, i, m, t) == Cleared(run[m].pcs[t], w)
    ensures Stands(run, i, m + 1, t, j, k, p', w', mv')
  {
    k, p', w', mv' := CallStep(run[i], run[m], run[m + 1], t, j, p, w, mv);
    CallTrace(run[m], run[m + 1], t, w, w', mv);
  }

  /** From run[i] to run[m], step by step. */
  ghost predicate StepsTo(run: seq<State>, i: nat, m: nat, t: nat)
    decreases m
  {
    && m < |run|
    && (i < m ==>
          && Inv(run[m - 1]) && Next(run[m - 1], run[m]) && (t < |run[m - 1].pcs| ==> !run[m - 1].pcs[t].JobUnlock?)
          && StepsTo(run, i, m - 1, t))
  }

  lemma {:induction false} RunSteps(run: seq<State>, i: nat, m: nat, t: nat)
    requires IsRun(run) && m < |run| && forall x: nat :: i <= x < m && t < |run[x].pcs| ==> !run[x].pcs[t].JobUnlock?
    ensures StepsTo(run, i, m, t)
    decreases m
  {
    if i < m {
      var n := m - 1;
      RunSteps(run, i, n, t);
      RunInv(run, n);
      StepOf(run, n);
    }
  }

  lemma {:induction false} RunStands(run: seq<State>, i: nat, m: nat, t: nat, j: Job)
    returns (k: nat, p: nat, w: seq<nat>, mv: seq<nat>)
    requires i <= m && StepsTo(run, i, m, t) && Prog(run[i], run[i], t, j, 0, [], []) && run[i].pcs[t].Scan?
    ensures Stands(run, i, m, t, j, k, p, w, mv)
    decreases m
  {
    if m == i {
      k, p, w, mv := 0, 0, [], [];
    } else {
      var n := m - 1;
      k, p, w, mv := RunStands(run, i, n, t, j);
      k, p, w, mv := StandsOn(run, i, n, t, j, p, w, mv);
    }
  }

  // ---- what a call achieves ----

  /** A moved entry waits on the new key in the new bucket, any other is as it was. */
  ghost predicate EntryAfter(call: Call, e0: Entry, e: Entry, p0: Option<nat>, p: Option<nat>, moved: bool) {
    if moved then e == e0.(key := call.key2, moved := true) && p == Some(call.b2) else e == e0 && p == p0
  }

  /** From s0 to s, the first entries the call looked for, up to its quota, were taken: of these the first were
      woken, the rest wait on the other key in the other bucket. All others are in place, in order and as they were. */
  ghost predicate Done(s0: State, s: State, call: Call, w: seq<nat>, mv: seq<nat>)
    requires call.b1 < |s0.chains| == |s.chains| && call.b2 < |s.chains|
  {
    var h := Hits(s0.qs, call.key, call.bits, s0.chains[call.b1]);
    && w + mv == h[..Upto(|h|, call.total)] && |w| == Upto(|w| + |mv|, call.wakes)
    && s.chains[call.b1] == Without(s0.chains[call.b1], Rem(call, w, mv))
    && (call.b1 != call.b2 ==>
          Without(s.chains[call.b2], SetOf(mv)) == s0.chains[call.b2] && forall v <- mv :: v in s.chains[call.b2])
    && forall v: nat :: (v in s0.chains[call.b1] || v in s0.chains[call.b2]) && v !in w ==>
      && v < |s.qs| && v < |s0.qs| && v < |s.ptrs| && v < |s0.ptrs|
      && EntryAfter(call, s0.qs[v], s.qs[v], s0.ptrs[v], s.ptrs[v], v in mv)
  }

  lemma {:induction false} OverDone(s0: State, s: State, t: nat, j: Job, i: nat, p: nat, w: seq<nat>, mv: seq<nat>)
    requires Over(s0, s, t, j, i, p, w, mv) && ShapeOf(s) == ShapeOf(s0)
    ensures Done(s0, s, CallOf(j), w, mv)
  {
    var call := CallOf(j);
    var c0 := s0.chains[call.b1];
    var h := Hits(s0.qs, call.key, call.bits, c0);
    PassedIs(c0, Rem(call, w, mv), s.chains[call.b1], i, p);
    assert c0 == c0[..p] + c0[p..];
    HitsJoin(s0.qs, call.key, call.bits, c0[..p], c0[p..]);
    assert w + mv == h[..|w| + |mv|];
    if p == |c0| { assert c0[p..] == []; }
    forall v: nat | (v in s0.chains[call.b1] || v in s0.chains[call.b2]) && v !in w
      ensures v < |s.qs| && v < |s0.qs| && v < |s.ptrs| && v < |s0.ptrs|
        && EntryAfter(call, s0.qs[v], s.qs[v], s0.ptrs[v], s.ptrs[v], v in mv)
    {
      assert EntryNow(s.pcs[t], call, s0.qs[v], s.qs[v], s0.ptrs[v], s.ptrs[v], mv, v);
    }
  }

  /** From the start of its scan, under its locks, to the unlock. */
  lemma {:induction false} ScanDoes(run: seq<State>, i: nat, m: nat, t: nat, j: Job) returns (mv: seq<nat>)
    requires IsRun(run) && i <= m < |run| && t < |run[i].pcs| && run[i].pcs[t] == Scan(j, 0, 0)
    requires t < |run[m].pcs| && run[m].pcs[t] == JobUnlock(j)
    requires forall x: nat :: i <= x < m && t < |run[x].pcs| ==> !run[x].pcs[t].JobUnlock?
    ensures ShapeOf(run[m]) == ShapeOf(run[i]) && CallOf(j).b1 < |run[m].chains| && CallOf(j).b2 < |run[m].chains|
    ensures Done(run[i], run[m], CallOf(j), WokenBy(run, i, m, t), mv)
  {
    RunBegins(run, i, t, j);
    RunSteps(run, i, m, t);
    mv := StandsDone(run, i, m, t, j);
  }

  lemma {:induction false} RunBegins(run: seq<State>, i: nat, t: nat, j: Job)
    requires IsRun(run) && i < |run| && t < |run[i].pcs| && run[i].pcs[t] == Scan(j, 0, 0)
    ensures Prog(run[i], run[i], t, j, 0, [], [])
  {
    RunInv(run, i);
    CallBegins(run[i], t, j);
  }

  lemma {:induction false} StandsDone(run: seq<State>, i: nat, m: nat, t: nat, j: Job) returns (mv: seq<nat>)
    requires i <= m && StepsTo(run, i, m, t) && Prog(run[i], run[i], t, j, 0, [], []) && run[i].pcs[t].Scan?
    requires t < |run[m].pcs| && run[m].pcs[t] == JobUnlock(j)
    ensures ShapeOf(run[m]) == ShapeOf(run[i]) && CallOf(j).b1 < |run[m].chains| && CallOf(j).b2 < |run[m].chains|
    ensures Done(run[i], run[m], CallOf(j), WokenBy(run, i, m, t), mv)
  {
    var k, p, w;
    k, p, w, mv := RunStands(run, i, m, t, j);
    OverDone(run[i], run[m], t, j, k, p, w, mv);
  }

  /** Thread t takes a step with choice c. */
  ghost predicate Steps(s: State, s': State, t: nat, c: nat) {
    Enabled(s, t, Step(c)) && UpdateWf(s, t, Plan(s, t, Step(c))) && s' == Do(s, t, Plan(s, t, Step(c)))
  }

  predicate SameQueues(s: State, s': State) { s'.chains == s.chains && s'.qs == s.qs && s'.ptrs == s.ptrs }

  /** Done speaks of the chains, entries and lock pointers at the start only. */
  lemma {:induction false} DoneFrom(s0: State, s1: State, s: State, call: Call, w: seq<nat>, mv: seq<nat>)
    requires SameQueues(s0, s1) && call.b1 < |s1.chains| == |s.chains| && call.b2 < |s.chains|
      && Done(s1, s, call, w, mv)
    ensures Done(s0, s, call, w, mv)
  {
  }

  lemma {:induction false} WokenFrom(run: seq<State>, n: nat, m: nat, t: nat)
    requires n < m < |run| && (t < |run[n].pcs| ==> !run[n].pcs[t].MarkNull?)
    ensures WokenBy(run, n, m, t) == WokenBy(run, n + 1, m, t)
    decreases m
  {
    var k := m - 1;
    assert WokenBy(run, n, m, t) == WokenBy(run, n, k, t) + Nulled(run[k], run[m], t);
    if n < k {
      WokenFrom(run, n, k, t);
      assert WokenBy(run, n + 1, m, t) == WokenBy(run, n + 1, k, t) + Nulled(run[k], run[m], t);
    } else {
      assert WokenBy(run, n, k, t) == [] && Nulled(run[k], run[m], t) == [];
    }
  }

  /** A step into the scan that leaves the queues alone, and the scan. */
  lemma {:induction false} ScanFrom(run: seq<State>, n: nat, m: nat, t: nat, j: Job) returns (mv: seq<nat>)
    requires IsRun(run) && n < m < |run| && t < |run[n].pcs| && !run[n].pcs[t].MarkNull?
    requires SameQueues(run[n], run[n + 1]) && t < |run[n + 1].pcs| && run[n + 1].pcs[t] == Scan(j, 0, 0)
    requires t < |run[m].pcs| && run[m].pcs[t] == JobUnlock(j)
    requires forall x: nat :: n < x < m && t < |run[x].pcs| ==> !run[x].pcs[t].JobUnlock?
    ensures |run[m].chains| == |run[n].chains| && CallOf(j).b1 < |run[m].chains| && CallOf(j).b2 < |run[m].chains|
    ensures Done(run[n], run[m], CallOf(j), WokenBy(run, n, m, t), mv)
  {
    mv := ScanDoes(run, n + 1, m, t, j);
    WokenFrom(run, n, m, t);
    DoneFrom(run[n], run[n + 1], run[m], CallOf(j), WokenBy(run, n, m, t), mv);
  }

  /** The comparison of futex_requeue(), c being 0 when the word cannot be read. */
  lemma {:induction false} TestStep(s: State, s': State, t: nat, r: RequeueCall, c: nat)
    requires t < |s.pcs| && s.pcs[t] == RTest(r) && Steps(s, s', t, c)
    ensures SameQueues(s, s') && |s'.pcs| == |s.pcs| && r.key1 < |s.words| && r.b1 < |s.chains| && r.b2 < |s.chains|
    ensures s'.pcs[t] == if r.cmp.Some? && (c == 0 || s.words[r.key1] != r.cmp.value) then JobUnlock(Requeueing(r))
      else Scan(Requeueing(r), 0, 0)
  {
    assert PcWf(ShapeOf(s), s.pcs[t]);
  }

  /** futex_requeue() from the comparison, under both locks, to the unlock. If the word differs from the value
      given, or cannot be read, nothing is changed. Otherwise the first nr_wake waiters on the first word were
      woken, and the next ones, up to nr_requeue, wait on the second; the others are in place, in order and as they
      were. */
  lemma {:induction false} RequeueDoes(run: seq<State>, n: nat, m: nat, t: nat, r: RequeueCall, c: nat)
    returns (mv: seq<nat>)
    requires IsRun(run) && n < m < |run| && t < |run[n].pcs| && run[n].pcs[t] == RTest(r)
      && Steps(run[n], run[n + 1], t, c)
    requires t < |run[m].pcs| && run[m].pcs[t] == JobUnlock(Requeueing(r))
    requires forall x: nat :: n < x < m && t < |run[x].pcs| ==> !run[x].pcs[t].JobUnlock?
    ensures r.key1 < |run[n].words| && r.b1 < |run[n].chains| == |run[m].chains| && r.b2 < |run[n].chains|
    ensures r.cmp.Some? && (c == 0 || run[n].words[r.key1] != r.cmp.value) ==>
      m == n + 1 && SameQueues(run[n], run[m]) && WokenBy(run, n, m, t) == []
    ensures !(r.cmp.Some? && (c == 0 || run[n].words[r.key1] != r.cmp.value)) ==>
      Done(run[n], run[m], CallOf(Requeueing(r)), WokenBy(run, n, m, t), mv)
  {
    TestStep(run[n], run[n + 1], t, r, c);
    mv := [];
    if run[n + 1].pcs[t].Scan? {
      mv := ScanFrom(run, n, m, t, Requeueing(r));
    } else {
      assert m == n + 1;
      WokenFrom(run, n, m, t);
    }
  }

  /** futex_wake() from its lock to the unlock: the first max(1, nr_wake) waiters on the word with one of the bits
      were woken, all without a limit, and the others are in place, in order and as they were. */
  lemma {:induction false} WakeDoes(run: seq<State>, n: nat, m: nat, t: nat, w: WakeCall, c: nat)
    requires IsRun(run) && n < m < |run| && t < |run[n].pcs| && run[n].pcs[t] == KLock(w)
      && Steps(run[n], run[n + 1], t, c)
    requires t < |run[m].pcs| && run[m].pcs[t] == JobUnlock(Waking(w))
    requires forall x: nat :: n < x < m && t < |run[x].pcs| ==> !run[x].pcs[t].JobUnlock?
    ensures w.b < |run[n].chains| == |run[m].chains|
    ensures Done(run[n], run[m], CallOf(Waking(w)), WokenBy(run, n, m, t), [])
  {
    assert SameQueues(run[n], run[n + 1]) && run[n + 1].pcs[t] == Scan(Waking(w), 0, 0);
    var mv := ScanFrom(run, n, m, t, Waking(w));
    assert mv == [];
  }

  /** futex_wake() returns without its lock only when nobody is queued in the bucket. */
  lemma {:induction false} WakeSkips(run: seq<State>, n: nat, t: nat, w: WakeCall, c: nat)
    requires IsRun(run) && n + 1 < |run| && t < |run[n].pcs| && run[n].pcs[t] == KTest(w)
      && Steps(run[n], run[n + 1], t, c)
    ensures w.b < |run[n].chains| && t < |run[n + 1].pcs|
    ensures run[n + 1].pcs[t] == KLock(w) || (run[n + 1].pcs[t].Idle? && run[n].chains[w.b] == [])
  {
    RunInv(run, n);
    assert PcWf(ShapeOf(run[n]), run[n].pcs[t]);
    assert run[n].waiters[w.b] == |run[n].chains[w.b]| + Total(run[n].pcs, w.b);
  }

  /** futex_wait() goes on to queue itself exactly when it could read the value expected; c is 0 when it could not
      read. */
  lemma {:induction false} WaitTests(run: seq<State>, n: nat, t: nat, b: nat, c: nat)
    requires IsRun(run) && n + 1 < |run| && t < |run[n].pcs| && run[n].pcs[t] == WRead(b)
      && Steps(run[n], run[n + 1], t, c)
    ensures t < |run[n].qs| && run[n].qs[t].key < |run[n].words| && t < |run[n + 1].pcs|
    ensures run[n + 1].pcs[t] ==
      if c != 0 && run[n].words[run[n].qs[t].key] == run[n].qs[t].val then WQueue(b) else WUnlock(b)
  {
  }

  /** unqueue_me() under the lock it took: if the waiter is still on that bucket it leaves the chain and the others
      stay in order; else it looks again. */
  lemma {:induction false} WaitUnqueues(run: seq<State>, n: nat, t: nat, b: nat, c: nat)
    requires IsRun(run) && n + 1 < |run| && t < |run[n].pcs| && run[n].pcs[t] == WVerify(b)
      && Steps(run[n], run[n + 1], t, c)
    ensures t < |run[n].ptrs| && b < |run[n].chains| == |run[n + 1].chains| && t < |run[n + 1].pcs|
    ensures run[n].ptrs[t] != Some(b) ==> run[n + 1].pcs[t].WCheck? && run[n + 1].chains == run[n].chains
    ensures run[n].ptrs[t] == Some(b) ==>
      && run[n + 1].pcs[t].WDel? && t in run[n].chains[b] && t !in run[n + 1].chains[b]
      && Without(run[n].chains[b], {t}) == run[n + 1].chains[b]
  {
    assert PcWf(ShapeOf(run[n]), run[n].pcs[t]);
    if run[n].ptrs[t] == Some(b) {
      UnqueueIsSafe(run, n, t, b);
      RunInv(run, n);
      WithoutOne(run[n].chains[b], t, IndexOf(run[n].chains[b], t));
    }
  }

  /** A queued waiter goes back to its caller exactly when it finds its lock_ptr cleared, or after unqueue_me()
      itself. */
  lemma {:induction false} WaitReturns(run: seq<State>, n: nat, t: nat, c: nat)
    requires IsRun(run) && n + 1 < |run| && t < |run[n].pcs| && Queued(run[n].pcs[t]) && Steps(run[n], run[n + 1], t, c)
    ensures t < |run[n].ptrs| && t < |run[n + 1].pcs|
    ensures run[n + 1].pcs[t].Idle? <==> run[n].pcs[t].WCheck? && run[n].ptrs[t].None?
  {
  }

  /** queue_me() puts the waiter on the chain of its key and leaves the others in order. */
  lemma {:induction false} WaitQueues(run: seq<State>, n: nat, t: nat, b: nat, c: nat)
    requires IsRun(run) && n + 1 < |run| && t < |run[n].pcs| && run[n].pcs[t] == WQueue(b)
      && Steps(run[n], run[n + 1], t, c)
    ensures t < |run[n].qs| && run[n].qs[t].key < |run[n].hash|
      && run[n].hash[run[n].qs[t].key] == b < |run[n + 1].chains|
    ensures run[n + 1].pcs[t].WSleep? && t in run[n + 1].chains[b]
      && Without(run[n + 1].chains[b], {t}) == run[n].chains[b]
  {
    RunInv(run, n);
    var d := run[n].chains[b];
    assert OnChain(run[n].chains, b, t) ==> ChainedOk(run[n], b, t);
    InsertMember(d, c, t, t);
    WithoutInsert(d, c, t, {t});
    WithoutNone(d, {t});
  }
}
