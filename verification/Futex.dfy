/** The hashed futex queues of kernel/futex.c as interleaved atomic steps.
    A step is one access to a bucket's `waiters` counter, one access to a futex word, one store
    to `lock_ptr`, or one change of a chain under its bucket lock. */
module Futex {
  import opened Basics

  /** `struct futex_q` of a thread (without lock_ptr), the value it expects, and whether a
      requeue ever took hold of it. */
  datatype Entry = Entry(key: nat, val: int, bitset: set<int>, moved: bool)

  /** One call of futex_wake; no limit is nr_wake = INT_MAX, no bits is FUTEX_BITSET_MATCH_ANY. stored says that the
      caller stored to the word just before. */
  datatype WakeCall = WakeCall(key: nat, b: nat, limit: Option<int>, bits: Option<set<int>>, stored: bool)

  /** One call of futex_requeue. */
  datatype RequeueCall = RequeueCall(key1: nat, key2: nat, b1: nat, b2: nat, nrWake: int, nrRequeue: int,
                                     cmp: Option<int>)

  datatype Job = Waking(w: WakeCall) | Requeueing(r: RequeueCall)

  datatype Pc =
    | Idle
    // futex_wait_setup and queue_me
    | WLock(b: nat) | WRead(b: nat) | WUnlock(b: nat) | WDec(b: nat) | WQueue(b: nat)
    // schedule and unqueue_me
    | WSleep | WCheck | WRelock(b: nat) | WVerify(b: nat) | WDel(b: nat) | WRelease(b: nat)
    // futex_wake up to its lock; futex_requeue around its locks
    | KTest(w: WakeCall) | KLock(w: WakeCall)
    | RLock(r: RequeueCall) | RTest(r: RequeueCall) | RFin(r: RequeueCall)
    // the scan of a chain: position i, n entries taken so far, v the entry in hand
    | Scan(j: Job, i: nat, n: int) | MarkDec(j: Job, i: nat, n: int, v: nat) | MarkNull(j: Job, i: nat, n: int, v: nat)
    | MoveDec(j: Job, i: nat, n: int, v: nat) | MoveInc(j: Job, i: nat, n: int, v: nat)
    | MoveAdd(j: Job, i: nat, n: int, v: nat) | MovePtr(j: Job, i: nat, n: int, v: nat)
    | MoveKey(j: Job, i: nat, n: int, v: nat)
    | JobUnlock(j: Job)

  /** `waiters`, `locks` and `chains` are the three fields of the hash buckets; `pcs`, `qs` and
      `ptrs` are the program counter, the queue entry and its lock_ptr of each thread. */
  datatype State = State(words: seq<int>, hash: seq<nat>, waiters: seq<int>, locks: seq<Option<nat>>,
                         chains: seq<seq<nat>>,
                         pcs: seq<Pc>, qs: seq<Entry>, ptrs: seq<Option<nat>>)

  /** What an idle thread may start, or Step to go on; c settles page faults and queue positions. */
  datatype Action =
    | Wait(key: nat, val: int, bitset: set<int>)
    | StoreAndWakeAll(key: nat, val: int)
    | Wake(key: nat, limit: Option<int>, bits: Option<set<int>>)
    | Requeue(key1: nat, key2: nat, nrWake: int, nrRequeue: int, cmp: Option<int>)
    | Step(c: nat)

  // ---- well-formed states ----

  function Src(j: Job): nat { match j case Waking(w) => w.b case Requeueing(r) => r.b1 }
  function Dst(j: Job): nat { match j case Waking(w) => w.b case Requeueing(r) => r.b2 }
  function Key(j: Job): nat { match j case Waking(w) => w.key case Requeueing(r) => r.key1 }

  /** What never changes during a run: the hash function and the number of buckets and threads. */
  datatype Shape = Shape(hash: seq<nat>, buckets: nat, threads: nat)

  function ShapeOf(s: State): Shape { Shape(s.hash, |s.chains|, |s.pcs|) }

  predicate KeyWf(d: Shape, key: nat, b: nat) { key < |d.hash| && d.hash[key] == b < d.buckets }

  predicate CallWf(d: Shape, w: WakeCall) { KeyWf(d, w.key, w.b) }

  predicate RequeueWf(d: Shape, r: RequeueCall) { KeyWf(d, r.key1, r.b1) && KeyWf(d, r.key2, r.b2) }

  predicate JobWf(d: Shape, j: Job) {
    match j case Waking(w) => CallWf(d, w) case Requeueing(r) => RequeueWf(d, r)
  }

  predicate Moving(pc: Pc) { pc.MoveDec? || pc.MoveInc? || pc.MoveAdd? || pc.MovePtr? || pc.MoveKey? }

  predicate Marking(pc: Pc) { pc.MarkDec? || pc.MarkNull? }

  predicate HasVictim(pc: Pc) { Marking(pc) || Moving(pc) }

  predicate InJob(pc: Pc) { pc.Scan? || HasVictim(pc) || pc.JobUnlock? }

  predicate Setup(pc: Pc) { pc.WLock? || pc.WRead? || pc.WUnlock? || pc.WDec? || pc.WQueue? }

  /** Between queue_me and the end of unqueue_me. */
  predicate Queued(pc: Pc) { pc.WSleep? || pc.WCheck? || pc.WRelock? || pc.WVerify? }

  predicate PcWf(d: Shape, pc: Pc) {
    match pc
    case Idle => true
    case WSleep => true
    case WCheck => true
    case WLock(b) => b < d.buckets
    case WRead(b) => b < d.buckets
    case WUnlock(b) => b < d.buckets
    case WDec(b) => b < d.buckets
    case WQueue(b) => b < d.buckets
    case WRelock(b) => b < d.buckets
    case WVerify(b) => b < d.buckets
    case WDel(b) => b < d.buckets
    case WRelease(b) => b < d.buckets
    case KTest(w) => CallWf(d, w)
    case KLock(w) => CallWf(d, w)
    case RLock(r) => RequeueWf(d, r)
    case RTest(r) => RequeueWf(d, r)
    case RFin(r) => RequeueWf(d, r)
    case Scan(j, _, _) => JobWf(d, j)
    case JobUnlock(j) => JobWf(d, j)
    case MarkDec(j, _, _, v) => JobWf(d, j) && v < d.threads
    case MarkNull(j, _, _, v) => JobWf(d, j) && v < d.threads
    case _ => JobWf(d, pc.j) && pc.j.Requeueing? && pc.j.r.b1 != pc.j.r.b2 && pc.v < d.threads
  }

  predicate ShapeWf(s: State) {
    && |s.pcs| == |s.qs| == |s.ptrs| && |s.hash| == |s.words|
    && |s.waiters| == |s.locks| == |s.chains|
    && (forall a: nat :: a < |s.hash| ==> s.hash[a] < |s.chains|)
  }

  ghost predicate PcsWf(d: Shape, pcs: seq<Pc>) {
    forall t: nat :: t < |pcs| ==> PcWf(d, pcs[t])
  }

  ghost predicate KeysWf(d: Shape, qs: seq<Entry>) {
    forall t: nat :: t < |qs| ==> qs[t].key < |d.hash|
  }

  ghost predicate PtrsWf(d: Shape, ptrs: seq<Option<nat>>) {
    forall t: nat :: t < |ptrs| && ptrs[t].Some? ==> ptrs[t].value < d.buckets
  }

  predicate ChainWf(d: Shape, c: seq<nat>) {
    forall i: nat :: i < |c| ==> c[i] < d.threads
  }

  ghost predicate ChainsWf(d: Shape, chains: seq<seq<nat>>) {
    forall b: nat :: b < |chains| ==> ChainWf(d, chains[b])
  }

  ghost predicate Wf(s: State) {
    && ShapeWf(s)
    && PcsWf(ShapeOf(s), s.pcs) && KeysWf(ShapeOf(s), s.qs) && PtrsWf(ShapeOf(s), s.ptrs)
    && ChainsWf(ShapeOf(s), s.chains)
  }

  // ---- one atomic step ----

  function DropAt(c: seq<nat>, i: nat): seq<nat>
    requires i < |c|
  { c[..i] + c[i + 1..] }

  function InsertAt(c: seq<nat>, i: nat, t: nat): seq<nat>
    requires i <= |c|
  { c[..i] + [t] + c[i..] }

  datatype ChainOp = Keep | Drop(b: nat, i: nat) | Insert(b: nat, i: nat, v: nat)

  /** What one step does: the next program counter, and at most one access of each kind. */
  datatype Update = Update(
    pc: Pc,
    nameonly word: Option<(nat, int)> := None,
    nameonly count: Option<(nat, int)> := None,
    nameonly take: set<nat> := {},
    nameonly give: set<nat> := {},
    nameonly chain: ChainOp := Keep,
    nameonly entry: Option<(nat, Entry)> := None,
    nameonly ptr: Option<(nat, Option<nat>)> := None)

  predicate UpdateWf(s: State, t: nat, u: Update) {
    && ShapeWf(s) && t < |s.pcs|
    && (u.word.Some? ==> u.word.value.0 < |s.words|)
    && (u.count.Some? ==> u.count.value.0 < |s.waiters|)
    && (u.chain.Drop? ==> u.chain.b < |s.chains| && u.chain.i < |s.chains[u.chain.b]|)
    && (u.chain.Insert? ==> u.chain.b < |s.chains| && u.chain.i <= |s.chains[u.chain.b]|)
    && (u.entry.Some? ==> u.entry.value.0 < |s.qs|)
    && (u.ptr.Some? ==> u.ptr.value.0 < |s.ptrs|)
  }

  function Waiters(waiters: seq<int>, u: Update): seq<int>
    requires u.count.Some? ==> u.count.value.0 < |waiters|
  {
    if u.count.Some? then waiters[u.count.value.0 := waiters[u.count.value.0] + u.count.value.1] else waiters
  }

  function Locks(locks: seq<Option<nat>>, t: nat, u: Update): seq<Option<nat>> {
    seq(|locks|, b requires 0 <= b < |locks| => if b in u.take then Some(t) else if b in u.give then None else locks[b])
  }

  function Chains(chains: seq<seq<nat>>, u: Update): seq<seq<nat>>
    requires u.chain.Drop? ==> u.chain.b < |chains| && u.chain.i < |chains[u.chain.b]|
    requires u.chain.Insert? ==> u.chain.b < |chains| && u.chain.i <= |chains[u.chain.b]|
  {
    match u.chain
    case Keep => chains
    case Drop(b, i) => chains[b := DropAt(chains[b], i)]
    case Insert(b, i, v) => chains[b := InsertAt(chains[b], i, v)]
  }

  function Do(s: State, t: nat, u: Update): State
    requires UpdateWf(s, t, u)
  {
    State(if u.word.Some? then s.words[u.word.value.0 := u.word.value.1] else s.words,
          s.hash,
          Waiters(s.waiters, u),
          Locks(s.locks, t, u),
          Chains(s.chains, u),
          s.pcs[t := u.pc],
          if u.entry.Some? then s.qs[u.entry.value.0 := u.entry.value.1] else s.qs,
          if u.ptr.Some? then s.ptrs[u.ptr.value.0 := u.ptr.value.1] else s.ptrs)
  }

  /** The place of t in a chain (its length if absent). */
  function IndexOf(c: seq<nat>, t: nat): (i: nat)
    ensures i <= |c|
    ensures i < |c| ==> c[i] == t
    ensures t in c ==> i < |c|
  {
    if c == [] then 0 else if c[0] == t then 0 else 1 + IndexOf(c[1..], t)
  }

  predicate Matches(qs: seq<Entry>, j: Job, v: nat)
    requires v < |qs|
  {
    && qs[v].key == Key(j)
    && (j.Waking? && j.w.bits.Some? ==> qs[v].bitset * j.w.bits.value != {})
  }

  /** The state as far as a step of t needs it. */
  predicate Local(s: State, t: nat) {
    && t < |s.pcs| && ShapeWf(s) && PcWf(ShapeOf(s), s.pcs[t]) && s.qs[t].key < |s.words|
    && (s.pcs[t].Scan? ==> ChainWf(ShapeOf(s), s.chains[Src(s.pcs[t].j)]))
  }

  predicate CanStart(s: State, t: nat, a: Action)
    requires Local(s, t)
  {
    s.pcs[t].Idle? &&
    match a
    case Wait(key, _, bits) => key < |s.words| && bits != {}
    case StoreAndWakeAll(key, _) => key < |s.words|
    case Wake(key, _, _) => key < |s.words|
    case Requeue(key1, key2, _, _, _) => key1 < |s.words| && key2 < |s.words|
    case Step(_) => false
  }

  /** Locks are taken when free; a queue position exists. */
  predicate CanStep(s: State, t: nat, c: nat)
    requires Local(s, t)
  {
    match s.pcs[t]
    case Idle => false
    case WLock(b) => s.locks[b].None?
    case WRelock(b) => s.locks[b].None?
    case KLock(w) => s.locks[w.b].None?
    case RLock(r) => s.locks[r.b1].None? && s.locks[r.b2].None?
    case WQueue(b) => c <= |s.chains[b]|
    case MoveAdd(j, _, _, _) => c <= |s.chains[Dst(j)]|
    case _ => true
  }

  predicate Enabled(s: State, t: nat, a: Action) {
    Local(s, t) && if a.Step? then CanStep(s, t, a.c) else CanStart(s, t, a)
  }

  /** A thread enters the futex code: queue_lock's increment, a store by user space, nothing, or
      futex_requeue's increment of the destination counter. */
  function Start(s: State, t: nat, a: Action): Update
    requires Local(s, t) && CanStart(s, t, a)
  {
    match a
    case Wait(key, val, bits) =>
      var b := s.hash[key];
      Update(WLock(b), count := Some((b, 1)), entry := Some((t, Entry(key, val, bits, false))),
          ptr := Some((t, Some(b))))
    case StoreAndWakeAll(key, val) =>
      Update(KTest(WakeCall(key, s.hash[key], None, None, true)), word := Some((key, val)))
    case Wake(key, limit, bits) =>
      Update(KTest(WakeCall(key, s.hash[key], limit, bits, false)))
    case Requeue(key1, key2, nw, nr, cmp) =>
      var r := RequeueCall(key1, key2, s.hash[key1], s.hash[key2], nw, nr, cmp);
      Update(RLock(r), count := Some((r.b2, 1)))
  }

  /** futex_wait: set-up, queue_me, schedule, unqueue_me; c = 0 at the read is a page fault. */
  function WaiterStep(s: State, t: nat, c: nat): Update
    requires Local(s, t) && CanStep(s, t, c) && Waiting(s.pcs[t])
  {
    match s.pcs[t]
    case WLock(b) => Update(WRead(b), take := {b})
    case WRead(b) => Update(if c != 0 && s.words[s.qs[t].key] == s.qs[t].val then WQueue(b) else WUnlock(b))
    case WUnlock(b) => Update(WDec(b), give := {b})
    case WDec(b) => Update(Idle, count := Some((b, -1)))
    case WQueue(b) => Update(WSleep, chain := Insert(b, c, t), give := {b})
    case WSleep => Update(WCheck)
    case WCheck => Update(if s.ptrs[t].None? then Idle else WRelock(s.ptrs[t].value))
    case WRelock(b) => Update(WVerify(b), take := {b})
    case WVerify(b) =>
      var i := IndexOf(s.chains[b], t);
      if s.ptrs[t] != Some(b) then Update(WCheck, give := {b})
      else if i < |s.chains[b]| then Update(WDel(b), chain := Drop(b, i))
      else Update(WRelease(b))
    case WDel(b) => Update(WRelease(b), count := Some((b, -1)))
    case WRelease(b) => Update(Idle, give := {b})
  }

  predicate Waiting(pc: Pc) { Setup(pc) || Queued(pc) || pc.WDel? || pc.WRelease? }

  /** The loop test at the head of either scan. */
  predicate ScanDone(s: State, j: Job, i: nat, n: int)
    requires JobWf(ShapeOf(s), j)
  {
    i >= |s.chains[Src(j)]| || (j.Requeueing? && n - j.r.nrWake >= j.r.nrRequeue)
  }

  /** One entry of the chain: skip it, take it off for waking, or take it off for requeueing. */
  function ScanStep(s: State, t: nat): Update
    requires Local(s, t) && s.pcs[t].Scan?
  {
    var Scan(j, i, n) := s.pcs[t];
    var c := s.chains[Src(j)];
    if ScanDone(s, j, i, n) then Update(JobUnlock(j))
    else if !Matches(s.qs, j, c[i]) then Update(Scan(j, i + 1, n))
    else if j.Waking? || n + 1 <= j.r.nrWake then Update(MarkDec(j, i, n + 1, c[i]), chain := Drop(Src(j), i))
    else if j.r.b1 == j.r.b2 then
      Update(Scan(j, i + 1, n + 1), entry := Some((c[i], s.qs[c[i]].(key := j.r.key2, moved := true))))
    else
      Update(MoveDec(j, i, n + 1, c[i]), chain := Drop(Src(j), i), entry := Some((c[i], s.qs[c[i]].(moved := true))))
  }

  /** futex_wake and futex_requeue: the lockless test, the locks, mark_wake_futex and requeue_futex
      after the unlink, the unlock, and the final decrement of a requeue. */
  function WakerStep(s: State, t: nat, c: nat): Update
    requires Local(s, t) && CanStep(s, t, c) && !Waiting(s.pcs[t])
  {
    match s.pcs[t]
    case KTest(w) => Update(if s.waiters[w.b] == 0 then Idle else KLock(w))
    case KLock(w) => Update(Scan(Waking(w), 0, 0), take := {w.b})
    case RLock(r) => Update(RTest(r), take := {r.b1, r.b2})
    case RTest(r) =>
      Update(if r.cmp.None? || (c != 0 && s.words[r.key1] == r.cmp.value) then Scan(Requeueing(r), 0, 0)
             else JobUnlock(Requeueing(r)))
    case Scan(_, _, _) => ScanStep(s, t)
    case MarkDec(j, i, n, v) => Update(MarkNull(j, i, n, v), count := Some((Src(j), -1)))
    case MarkNull(j, i, n, v) =>
      Update(if j.Waking? && j.w.limit.Some? && n >= j.w.limit.value then JobUnlock(j) else Scan(j, i, n),
             ptr := Some((v, None)))
    case MoveDec(j, i, n, v) => Update(MoveInc(j, i, n, v), count := Some((j.r.b1, -1)))
    case MoveInc(j, i, n, v) => Update(MoveAdd(j, i, n, v), count := Some((j.r.b2, 1)))
    case MoveAdd(j, i, n, v) => Update(MovePtr(j, i, n, v), chain := Insert(j.r.b2, c, v))
    case MovePtr(j, i, n, v) => Update(MoveKey(j, i, n, v), ptr := Some((v, Some(j.r.b2))))
    case MoveKey(j, i, n, v) => Update(Scan(j, i, n), entry := Some((v, s.qs[v].(key := j.r.key2))))
    case JobUnlock(j) => Update(if j.Waking? then Idle else RFin(j.r), give := {Src(j), Dst(j)})
    case RFin(r) => Update(Idle, count := Some((r.b2, -1)))
  }

  function Plan(s: State, t: nat, a: Action): Update
    requires Enabled(s, t, a)
  {
    if !a.Step? then Start(s, t, a)
    else if Waiting(s.pcs[t]) then WaiterStep(s, t, a.c)
    else WakerStep(s, t, a.c)
  }

  // ---- runs ----

  ghost predicate Init(s: State) {
    && ShapeWf(s) && KeysWf(ShapeOf(s), s.qs) && PtrsWf(ShapeOf(s), s.ptrs)
    && (forall b: nat :: b < |s.chains| ==> s.waiters[b] == 0 && s.locks[b] == None && s.chains[b] == [])
    && (forall t: nat :: t < |s.pcs| ==> s.pcs[t].Idle?)
  }

  ghost predicate Next(s: State, s': State) {
    exists t: nat, a: Action :: Enabled(s, t, a) && UpdateWf(s, t, Plan(s, t, a)) && s' == Do(s, t, Plan(s, t, a))
  }

  ghost predicate IsRun(run: seq<State>) {
    && |run| > 0 && Init(run[0])
    && forall i :: 0 <= i < |run| - 1 ==> Next(run[i], run[i + 1])
  }

  // ---- every step stays within the bounds ----

  predicate BoundsOk(d: Shape, u: Update) {
    && PcWf(d, u.pc)
    && (u.entry.Some? ==> u.entry.value.1.key < |d.hash|)
    && (u.ptr.Some? && u.ptr.value.1.Some? ==> u.ptr.value.1.value < d.buckets)
    && (u.chain.Insert? ==> u.chain.v < d.threads)
  }

  lemma {:induction false} BoundsStart(s: State, t: nat, a: Action)
    requires Local(s, t) && CanStart(s, t, a)
    requires PtrsWf(ShapeOf(s), s.ptrs)
    ensures UpdateWf(s, t, Start(s, t, a)) && BoundsOk(ShapeOf(s), Start(s, t, a))
  {}

  lemma {:induction false} BoundsWaiter(s: State, t: nat, c: nat)
    requires Local(s, t) && CanStep(s, t, c) && Waiting(s.pcs[t])
    requires PtrsWf(ShapeOf(s), s.ptrs)
    ensures UpdateWf(s, t, WaiterStep(s, t, c)) && BoundsOk(ShapeOf(s), WaiterStep(s, t, c))
  {}

  lemma {:induction false} BoundsScan(s: State, t: nat)
    requires Local(s, t) && s.pcs[t].Scan?
    requires PtrsWf(ShapeOf(s), s.ptrs)
    ensures UpdateWf(s, t, ScanStep(s, t)) && BoundsOk(ShapeOf(s), ScanStep(s, t))
  {}

  lemma {:induction false} BoundsWaker(s: State, t: nat, c: nat)
    requires Local(s, t) && CanStep(s, t, c) && !Waiting(s.pcs[t]) && !s.pcs[t].Scan?
    requires PtrsWf(ShapeOf(s), s.ptrs)
    ensures UpdateWf(s, t, WakerStep(s, t, c)) && BoundsOk(ShapeOf(s), WakerStep(s, t, c))
  {
    if Moving(s.pcs[t]) { BoundsMove(s, t, c); } else { BoundsWake(s, t, c); }
  }

  lemma {:induction false} BoundsMove(s: State, t: nat, c: nat)
    requires Local(s, t) && CanStep(s, t, c) && Moving(s.pcs[t])
    ensures UpdateWf(s, t, WakerStep(s, t, c)) && BoundsOk(ShapeOf(s), WakerStep(s, t, c))
  {}

  lemma {:induction false} BoundsWake(s: State, t: nat, c: nat)
    requires Local(s, t) && CanStep(s, t, c) && !Waiting(s.pcs[t]) && !s.pcs[t].Scan? && !Moving(s.pcs[t])
    ensures UpdateWf(s, t, WakerStep(s, t, c)) && BoundsOk(ShapeOf(s), WakerStep(s, t, c))
  {}

  lemma {:induction false} Bounds(s: State, t: nat, a: Action)
    requires Enabled(s, t, a)
    requires PtrsWf(ShapeOf(s), s.ptrs)
    ensures UpdateWf(s, t, Plan(s, t, a)) && BoundsOk(ShapeOf(s), Plan(s, t, a))
  {
    if !a.Step? { BoundsStart(s, t, a); }
    else if Waiting(s.pcs[t]) { BoundsWaiter(s, t, a.c); }
    else if s.pcs[t].Scan? { BoundsScan(s, t); }
    else { BoundsWaker(s, t, a.c); }
  }

  lemma {:induction false} WfStep(s: State, t: nat, u: Update)
    requires Wf(s) && UpdateWf(s, t, u) && BoundsOk(ShapeOf(s), u)
    ensures Wf(Do(s, t, u)) && ShapeOf(Do(s, t, u)) == ShapeOf(s)
  {}

  // ---- bucket locks ----

  predicate Holds(pc: Pc, b: nat) {
    || ((pc.WRead? || pc.WUnlock? || pc.WQueue? || pc.WVerify? || pc.WDel? || pc.WRelease?) && pc.b == b)
    || (pc.RTest? && (b == pc.r.b1 || b == pc.r.b2))
    || (InJob(pc) && (b == Src(pc.j) || b == Dst(pc.j)))
  }

  ghost predicate LockInv(locks: seq<Option<nat>>, pcs: seq<Pc>) {
    && (forall b: nat :: b < |locks| && locks[b].Some? ==> locks[b].value < |pcs|)
    && (forall b: nat, t: nat :: b < |locks| && t < |pcs| ==> (locks[b] == Some(t) <==> Holds(pcs[t], b)))
  }

  /** Thread t takes only free locks, gives back only its own, and holds what it says. */
  ghost predicate LocksOk(locks: seq<Option<nat>>, pc: Pc, u: Update) {
    forall b: nat :: b < |locks| ==>
      && (b in u.take ==> locks[b].None?)
      && (b in u.give ==> Holds(pc, b))
      && (Holds(u.pc, b) <==> b in u.take || (Holds(pc, b) && b !in u.give))
  }

  lemma {:induction false} LockingStart(s: State, t: nat, a: Action)
    requires Local(s, t) && CanStart(s, t, a)
    ensures LocksOk(s.locks, s.pcs[t], Start(s, t, a))
  {}

  lemma {:induction false} LockingWaiter(s: State, t: nat, c: nat)
    requires Local(s, t) && CanStep(s, t, c) && Waiting(s.pcs[t])
    ensures LocksOk(s.locks, s.pcs[t], WaiterStep(s, t, c))
  {}

  lemma {:induction false} LockingScan(s: State, t: nat)
    requires Local(s, t) && s.pcs[t].Scan?
    ensures LocksOk(s.locks, s.pcs[t], ScanStep(s, t))
  {}

  lemma {:induction false} LockingWaker(s: State, t: nat, c: nat)
    requires Local(s, t) && CanStep(s, t, c) && !Waiting(s.pcs[t]) && !s.pcs[t].Scan?
    ensures LocksOk(s.locks, s.pcs[t], WakerStep(s, t, c))
  {}

  lemma {:induction false} Locking(s: State, t: nat, a: Action)
    requires Enabled(s, t, a)
    ensures LocksOk(s.locks, s.pcs[t], Plan(s, t, a))
  {
    if !a.Step? { LockingStart(s, t, a); }
    else if Waiting(s.pcs[t]) { LockingWaiter(s, t, a.c); }
    else if s.pcs[t].Scan? { LockingScan(s, t); }
    else { LockingWaker(s, t, a.c); }
  }

  lemma {:induction false} LockInvStep(s: State, t: nat, u: Update)
    requires UpdateWf(s, t, u) && LockInv(s.locks, s.pcs) && LocksOk(s.locks, s.pcs[t], u)
    ensures LockInv(Do(s, t, u).locks, Do(s, t, u).pcs)
  {
    var locks', pcs' := Do(s, t, u).locks, Do(s, t, u).pcs;
    forall b: nat, v: nat | b < |locks'| && v < |pcs'| ensures locks'[b] == Some(v) <==> Holds(pcs'[v], b) {
      LockStep(s.locks, s.pcs, t, u, b, v);
    }
    forall b: nat | b < |locks'| && locks'[b].Some? ensures locks'[b].value < |pcs'| {
      assert locks'[b] == if b in u.take then Some(t) else if b in u.give then None else s.locks[b];
    }
  }

  lemma {:induction false} LockStep(locks: seq<Option<nat>>, pcs: seq<Pc>, t: nat, u: Update, b: nat, v: nat)
    requires t < |pcs| && LockInv(locks, pcs) && LocksOk(locks, pcs[t], u) && b < |locks| && v < |pcs|
    ensures Locks(locks, t, u)[b] == Some(v) <==> Holds(pcs[t := u.pc][v], b)
  {
    assert locks[b] == Some(v) <==> Holds(pcs[v], b);
    assert locks[b] == Some(t) <==> Holds(pcs[t], b);
    assert Holds(u.pc, b) <==> b in u.take || (Holds(pcs[t], b) && b !in u.give);
  }

  // ---- the waiters counter ----

  function One(p: bool): nat { if p then 1 else 0 }

  /** What a thread at pc adds to the counter of bucket b beyond the entries on its chain: a waiter
      between queue_lock and queue_me or queue_unlock, an unlinked entry whose decrement is still
      to come, a requeue towards b, an entry about to be linked there. */
  function Extra(pc: Pc, b: nat): nat {
    One(Setup(pc) && pc.b == b)
    + One(pc.WDel? && pc.b == b)
    + One((pc.RLock? || pc.RTest? || pc.RFin?) && pc.r.b2 == b)
    + One(InJob(pc) && pc.j.Requeueing? && pc.j.r.b2 == b)
    + One((pc.MarkDec? || pc.MoveDec?) && Src(pc.j) == b)
    + One(pc.MoveAdd? && Dst(pc.j) == b)
  }

  function Total(pcs: seq<Pc>, b: nat): nat {
    if pcs == [] then 0 else Total(pcs[..|pcs| - 1], b) + Extra(pcs[|pcs| - 1], b)
  }

  lemma {:induction false} TotalUpdate(pcs: seq<Pc>, t: nat, pc: Pc, b: nat)
    requires t < |pcs|
    ensures Total(pcs[t := pc], b) == Total(pcs, b) - Extra(pcs[t], b) + Extra(pc, b)
  {
    var z := |pcs| - 1;
    if t < z {
      TotalUpdate(pcs[..z], t, pc, b);
      assert pcs[t := pc][..z] == pcs[..z][t := pc];
    } else {
      assert pcs[t := pc][..z] == pcs[..z];
    }
  }

  lemma {:induction false} TotalAtLeast(pcs: seq<Pc>, t: nat, b: nat)
    requires t < |pcs|
    ensures Total(pcs, b) >= Extra(pcs[t], b)
  {
    if t < |pcs| - 1 { TotalAtLeast(pcs[..|pcs| - 1], t, b); }
  }

  ghost predicate CountInv(waiters: seq<int>, chains: seq<seq<nat>>, pcs: seq<Pc>) {
    && |waiters| == |chains|
    && forall b: nat :: b < |chains| ==> waiters[b] == |chains[b]| + Total(pcs, b)
  }

  function CountDelta(u: Update, b: nat): int {
    if u.count.Some? && u.count.value.0 == b then u.count.value.1 else 0
  }

  function LengthDelta(u: Update, b: nat): int {
    match u.chain
    case Keep => 0
    case Drop(b', _) => if b == b' then -1 else 0
    case Insert(b', _, _) => if b == b' then 1 else 0
  }

  ghost predicate CountOk(pc: Pc, u: Update) {
    forall b: nat :: Extra(u.pc, b) - Extra(pc, b) == CountDelta(u, b) - LengthDelta(u, b)
  }

  lemma {:induction false} CountInvStep(s: State, t: nat, u: Update)
    requires UpdateWf(s, t, u) && CountInv(s.waiters, s.chains, s.pcs) && CountOk(s.pcs[t], u)
    ensures CountInv(Do(s, t, u).waiters, Do(s, t, u).chains, Do(s, t, u).pcs)
  {
    var s' := Do(s, t, u);
    forall b: nat | b < |s'.chains| ensures s'.waiters[b] == |s'.chains[b]| + Total(s'.pcs, b) {
      TotalUpdate(s.pcs, t, u.pc, b);
      assert |s'.chains[b]| == |s.chains[b]| + LengthDelta(u, b);
      assert Extra(u.pc, b) - Extra(s.pcs[t], b) == CountDelta(u, b) - LengthDelta(u, b);
    }
  }

  lemma {:induction false} CountingStart(s: State, t: nat, a: Action)
    requires Local(s, t) && CanStart(s, t, a)
    ensures CountOk(s.pcs[t], Start(s, t, a))
  {}

  lemma {:induction false} CountingWaiter(s: State, t: nat, c: nat)
    requires Local(s, t) && CanStep(s, t, c) && Waiting(s.pcs[t])
    ensures CountOk(s.pcs[t], WaiterStep(s, t, c))
  {}

  lemma {:induction false} CountingScan(s: State, t: nat)
    requires Local(s, t) && s.pcs[t].Scan?
    ensures CountOk(s.pcs[t], ScanStep(s, t))
  {}

  lemma {:induction false} CountingWaker(s: State, t: nat, c: nat)
    requires Local(s, t) && CanStep(s, t, c) && !Waiting(s.pcs[t]) && !s.pcs[t].Scan?
    ensures CountOk(s.pcs[t], WakerStep(s, t, c))
  {}

  lemma {:induction false} Counting(s: State, t: nat, a: Action)
    requires Enabled(s, t, a)
    ensures CountOk(s.pcs[t], Plan(s, t, a))
  {
    if !a.Step? { CountingStart(s, t, a); }
    else if Waiting(s.pcs[t]) { CountingWaiter(s, t, a.c); }
    else if s.pcs[t].Scan? { CountingScan(s, t); }
    else { CountingWaker(s, t, a.c); }
  }

  // ---- where a queue entry is, and what its lock_ptr says ----

  /** v is off every chain, in the hands of a scan of bucket b; its lock_ptr still names b. */
  predicate InHand(pc: Pc, b: nat, v: nat) {
    (Marking(pc) || pc.MoveDec? || pc.MoveInc? || pc.MoveAdd?) && pc.v == v && Src(pc.j) == b
  }

  /** v is already on chain b but its lock_ptr still names the source bucket b1. */
  predicate Relinked(pc: Pc, b1: nat, b: nat, v: nat) {
    pc.MovePtr? && pc.v == v && Src(pc.j) == b1 && Dst(pc.j) == b
  }

  predicate OnChain(chains: seq<seq<nat>>, b: nat, v: nat) { b < |chains| && v in chains[b] }

  ghost predicate OffChains(chains: seq<seq<nat>>, v: nat) {
    forall b: nat :: b < |chains| ==> v !in chains[b]
  }

  /** A chained entry belongs to a queued thread and its lock_ptr names the chain's bucket,
      unless a requeue is about to store it. */
  ghost predicate ChainedOk(s: State, b: nat, v: nat) {
    && v < |s.pcs| == |s.ptrs| && Queued(s.pcs[v])
    && (s.ptrs[v] == Some(b) || exists u: nat, b1: nat :: u < |s.pcs| && Relinked(s.pcs[u], b1, b, v))
  }

  ghost predicate ChainedInv(s: State) {
    forall b: nat, v: nat :: OnChain(s.chains, b, v) ==> ChainedOk(s, b, v)
  }

  predicate Distinct(c: seq<nat>) { forall i, j :: 0 <= i < j < |c| ==> c[i] != c[j] }

  ghost predicate OnceInv(chains: seq<seq<nat>>) {
    && (forall b: nat :: b < |chains| ==> Distinct(chains[b]))
    && (forall b: nat, b': nat, v: nat :: OnChain(chains, b, v) && OnChain(chains, b', v) ==> b == b')
  }

  ghost predicate HeldOk(s: State, b: nat, v: nat) {
    v < |s.pcs| == |s.ptrs| && Queued(s.pcs[v]) && s.ptrs[v] == Some(b) && OffChains(s.chains, v)
  }

  ghost predicate RelinkOk(s: State, b1: nat, b: nat, v: nat) {
    v < |s.ptrs| && s.ptrs[v] == Some(b1) && OnChain(s.chains, b, v)
  }

  ghost predicate HandInv(s: State) {
    && (forall u: nat, b: nat, v: nat :: u < |s.pcs| && InHand(s.pcs[u], b, v) ==> HeldOk(s, b, v))
    && (forall u: nat, b1: nat, b: nat, v: nat :: u < |s.pcs| && Relinked(s.pcs[u], b1, b, v) ==> RelinkOk(s, b1, b, v))
  }

  /** A queued thread's lock_ptr is honest: the entry is on that chain, or in someone's hands
      under that bucket's lock. */
  ghost predicate PtrOk(s: State, b: nat, v: nat) {
    || OnChain(s.chains, b, v)
    || (exists u: nat :: u < |s.pcs| && InHand(s.pcs[u], b, v))
    || (exists u: nat, b2: nat :: u < |s.pcs| && Relinked(s.pcs[u], b, b2, v))
  }

  ghost predicate PtrInv(s: State) {
    && |s.pcs| == |s.ptrs|
    && (forall v: nat :: v < |s.pcs| && Queued(s.pcs[v]) && s.ptrs[v].Some? ==> PtrOk(s, s.ptrs[v].value, v))
    && (forall v: nat :: v < |s.pcs| && Setup(s.pcs[v]) ==> s.ptrs[v] == Some(s.pcs[v].b))
  }

  ghost predicate QueueInv(s: State) {
    ShapeWf(s) && ChainedInv(s) && OnceInv(s.chains) && HandInv(s) && PtrInv(s)
  }

  /** No entry is linked, unlinked or retargeted by the step. */
  ghost predicate Plain(pc: Pc, u: Update) {
    && u.chain.Keep? && u.ptr.None?
    && (Queued(u.pc) <==> Queued(pc))
    && (Setup(u.pc) ==> Setup(pc) && u.pc.b == pc.b)
    && !pc.MovePtr? && !u.pc.MovePtr?
    && (forall b: nat, v: nat :: InHand(u.pc, b, v) <==> InHand(pc, b, v))
  }

  lemma {:induction false} PlainChained(s: State, t: nat, u: Update, b: nat, v: nat)
    requires UpdateWf(s, t, u) && ChainedOk(s, b, v) && Plain(s.pcs[t], u)
    ensures ChainedOk(Do(s, t, u), b, v)
  {
    var s' := Do(s, t, u);
    if s.ptrs[v] != Some(b) {
      var w: nat, b1: nat :| w < |s.pcs| && Relinked(s.pcs[w], b1, b, v);
      assert Relinked(s'.pcs[w], b1, b, v);
    }
  }

  lemma {:induction false} PlainPtr(s: State, t: nat, u: Update, b: nat, v: nat)
    requires UpdateWf(s, t, u) && PtrOk(s, b, v) && Plain(s.pcs[t], u)
    ensures PtrOk(Do(s, t, u), b, v)
  {
    var s' := Do(s, t, u);
    if !OnChain(s.chains, b, v) {
      if w: nat :| w < |s.pcs| && InHand(s.pcs[w], b, v) {
        assert InHand(s'.pcs[w], b, v);
      } else {
        var w: nat, b2: nat :| w < |s.pcs| && Relinked(s.pcs[w], b, b2, v);
        assert Relinked(s'.pcs[w], b, b2, v);
      }
    }
  }

  lemma {:induction false} PlainHand(s: State, t: nat, u: Update)
    requires UpdateWf(s, t, u) && HandInv(s) && Plain(s.pcs[t], u)
    ensures HandInv(Do(s, t, u))
  {
    var s' := Do(s, t, u);
    forall w: nat, b: nat, v: nat | w < |s'.pcs| && InHand(s'.pcs[w], b, v) ensures HeldOk(s', b, v) {
      assert InHand(s.pcs[w], b, v);
      assert HeldOk(s, b, v);
    }
    forall w: nat, b1: nat, b: nat, v: nat | w < |s'.pcs| && Relinked(s'.pcs[w], b1, b, v)
      ensures RelinkOk(s', b1, b, v) {
      assert Relinked(s.pcs[w], b1, b, v);
      assert RelinkOk(s, b1, b, v);
    }
  }

  lemma {:induction false} PlainStep(s: State, t: nat, u: Update)
    requires UpdateWf(s, t, u) && QueueInv(s) && Plain(s.pcs[t], u)
    ensures QueueInv(Do(s, t, u))
  {
    var s' := Do(s, t, u);
    PlainHand(s, t, u);
    forall b: nat, v: nat | OnChain(s'.chains, b, v) ensures ChainedOk(s', b, v) {
      assert OnChain(s.chains, b, v);
      PlainChained(s, t, u, b, v);
    }
    forall v: nat | v < |s'.pcs| && Queued(s'.pcs[v]) && s'.ptrs[v].Some? ensures PtrOk(s', s'.ptrs[v].value, v) {
      PlainPtr(s, t, u, s.ptrs[v].value, v);
    }
  }

  /** A thread outside futex_wait has no entry anywhere. */
  lemma {:induction false} Absent(s: State, t: nat)
    requires QueueInv(s) && t < |s.pcs| && (!Queued(s.pcs[t]) || s.ptrs[t].None?)
    ensures OffChains(s.chains, t)
    ensures forall u: nat, b: nat :: u < |s.pcs| ==> !InHand(s.pcs[u], b, t)
    ensures forall u: nat, b: nat, c: nat :: u < |s.pcs| ==> !Relinked(s.pcs[u], b, c, t)
  {
    forall u: nat, b: nat | u < |s.pcs| ensures !InHand(s.pcs[u], b, t) {
      assert InHand(s.pcs[u], b, t) ==> HeldOk(s, b, t);
    }
    forall u: nat, b1: nat, b: nat | u < |s.pcs| ensures !Relinked(s.pcs[u], b1, b, t) {
      assert Relinked(s.pcs[u], b1, b, t) ==> RelinkOk(s, b1, b, t);
      assert OnChain(s.chains, b, t) ==> ChainedOk(s, b, t);
    }
    forall b: nat | b < |s.chains| ensures t !in s.chains[b] {
      assert OnChain(s.chains, b, t) ==> ChainedOk(s, b, t);
    }
  }

  /** Thread at pc has entry v off its source chain b, its lock_ptr not yet rewritten. */
  predicate Grips(pc: Pc, b: nat, v: nat) {
    (Marking(pc) || pc.MoveDec? || pc.MoveInc? || pc.MoveAdd? || pc.MovePtr?) && pc.v == v && Src(pc.j) == b
  }

  lemma {:induction false} GripPtr(s: State, u: nat, b: nat, v: nat)
    requires QueueInv(s) && u < |s.pcs| && Grips(s.pcs[u], b, v)
    ensures v < |s.ptrs| && s.ptrs[v] == Some(b) && Holds(s.pcs[u], b)
  {
    if s.pcs[u].MovePtr? {
      assert Relinked(s.pcs[u], b, Dst(s.pcs[u].j), v);
      assert RelinkOk(s, b, Dst(s.pcs[u].j), v);
    } else {
      assert InHand(s.pcs[u], b, v);
      assert HeldOk(s, b, v);
    }
  }

  /** An entry is in the hands of one thread at most: whoever has it holds the bucket its lock_ptr names. */
  lemma {:induction false} OneHand(s: State, u: nat, b: nat, v: nat, u': nat, b': nat)
    requires QueueInv(s) && LockInv(s.locks, s.pcs) && PtrsWf(ShapeOf(s), s.ptrs)
    requires u < |s.pcs| && u' < |s.pcs| && Grips(s.pcs[u], b, v) && Grips(s.pcs[u'], b', v)
    ensures u == u'
  {
    GripPtr(s, u, b, v);
    GripPtr(s, u', b', v);
    assert s.locks[b] == Some(u) && s.locks[b] == Some(u');
  }

  // ---- the steps that link, unlink or retarget an entry ----

  lemma {:induction false} OnChainInserted(chains: seq<seq<nat>>, b: nat, i: nat, x: nat, b': nat, v: nat)
    requires b < |chains| && i <= |chains[b]|
    ensures OnChain(chains[b := InsertAt(chains[b], i, x)], b', v) <==> OnChain(chains, b', v) || (b' == b && v == x)
  {
    InsertMember(chains[b], i, x, v);
    if b' == b { assert chains[b := InsertAt(chains[b], i, x)][b'] == InsertAt(chains[b], i, x); }
  }

  lemma {:induction false} OnChainInsert(chains: seq<seq<nat>>, b: nat, i: nat, x: nat)
    requires b < |chains| && i <= |chains[b]|
    ensures forall b': nat, v: nat :: OnChain(chains[b := InsertAt(chains[b], i, x)], b', v) <==>
                                      OnChain(chains, b', v) || (b' == b && v == x)
  {
    forall b': nat, v: nat ensures OnChain(chains[b := InsertAt(chains[b], i, x)], b', v) <==>
                                   OnChain(chains, b', v) || (b' == b && v == x) {
      OnChainInserted(chains, b, i, x, b', v);
    }
  }

  lemma {:induction false} InsertMember(c: seq<nat>, i: nat, x: nat, v: nat)
    requires i <= |c|
    ensures v in InsertAt(c, i, x) <==> v in c || v == x
  {
    var r := InsertAt(c, i, x);
    assert r[i] == x && (forall k :: 0 <= k < i ==> r[k] == c[k]) && (forall k :: i <= k < |c| ==> r[k + 1] == c[k]);
    assert forall k :: i < k < |r| ==> r[k] == c[k - 1];
  }

  lemma {:induction false} OnChainDrop(chains: seq<seq<nat>>, b: nat, i: nat)
    requires b < |chains| && i < |chains[b]| && Distinct(chains[b])
    ensures forall b': nat, v: nat :: OnChain(chains[b := DropAt(chains[b], i)], b', v) <==>
                                      OnChain(chains, b', v) && !(b' == b && v == chains[b][i])
  {
    var c := chains[b];
    forall v: nat ensures v in DropAt(c, i) <==> v in c && v != c[i] {
      assert c == c[..i] + [c[i]] + c[i + 1..];
    }
    forall b': nat, v: nat ensures OnChain(chains[b := DropAt(c, i)], b', v) <==>
      OnChain(chains, b', v) && !(b' == b && v == c[i]) {
      assert v in DropAt(c, i) <==> v in c && v != c[i];
    }
  }

  lemma {:induction false} OnceInsert(chains: seq<seq<nat>>, chains': seq<seq<nat>>, b: nat, i: nat, x: nat)
    requires OnceInv(chains) && b < |chains| && i <= |chains[b]| && OffChains(chains, x)
    requires chains' == chains[b := InsertAt(chains[b], i, x)]
    ensures OnceInv(chains')
  {
    OnChainInsert(chains, b, i, x);
    assert x !in chains[b];
    assert Distinct(chains'[b]);
    forall b1: nat, b2: nat, v: nat | OnChain(chains', b1, v) && OnChain(chains', b2, v) ensures b1 == b2 {
      if v != x {
        assert OnChain(chains, b1, v) && OnChain(chains, b2, v);
      } else {
        assert !OnChain(chains, b1, x) && !OnChain(chains, b2, x);
      }
    }
  }

  lemma {:induction false} OnceDrop(chains: seq<seq<nat>>, chains': seq<seq<nat>>, b: nat, i: nat)
    requires OnceInv(chains) && b < |chains| && i < |chains[b]|
    requires chains' == chains[b := DropAt(chains[b], i)]
    ensures OnceInv(chains') && OffChains(chains', chains[b][i])
  {
    OnChainDrop(chains, b, i);
    assert Distinct(chains'[b]);
    var v := chains[b][i];
    assert OnChain(chains, b, v);
    forall b1: nat, b2: nat, w: nat | OnChain(chains', b1, w) && OnChain(chains', b2, w) ensures b1 == b2 {
      assert OnChain(chains, b1, w) && OnChain(chains, b2, w);
    }
    forall b': nat | b' < |chains'| ensures v !in chains'[b'] {
      assert OnChain(chains', b', v) ==> OnChain(chains, b', v);
    }
  }

  /** What a step must leave alone for every entry other than v: its chain and its lock_ptr. */
  ghost predicate OthersKept(s: State, s': State, v: nat) {
    && |s'.pcs| == |s.pcs| && |s'.ptrs| == |s.ptrs| && |s'.chains| == |s.chains|
    && (forall w: nat :: w < |s.ptrs| && w != v ==> s'.ptrs[w] == s.ptrs[w])
    && (forall b: nat, w: nat :: w != v ==> (OnChain(s'.chains, b, w) <==> OnChain(s.chains, b, w)))
    && (forall w: nat :: w < |s.pcs| && w != v ==> (Queued(s'.pcs[w]) <==> Queued(s.pcs[w])))
    && (forall w: nat :: w < |s.pcs| && w != v && Setup(s'.pcs[w]) ==> Setup(s.pcs[w]) && s'.pcs[w].b == s.pcs[w].b)
    && (forall u: nat, b: nat, w: nat :: u < |s.pcs| && w != v ==>
      (InHand(s'.pcs[u], b, w) <==> InHand(s.pcs[u], b, w)))
    && (forall u: nat, b: nat, c: nat, w: nat :: u < |s.pcs| && w != v ==>
          (Relinked(s'.pcs[u], b, c, w) <==> Relinked(s.pcs[u], b, c, w)))
  }

  /** So only v needs looking at. */
  lemma {:induction false} OthersStep(s: State, s': State, v: nat)
    requires QueueInv(s) && ShapeWf(s') && OthersKept(s, s', v) && OnceInv(s'.chains)
    requires forall b: nat :: OnChain(s'.chains, b, v) ==> ChainedOk(s', b, v)
    requires forall u: nat, b: nat :: u < |s'.pcs| && InHand(s'.pcs[u], b, v) ==> HeldOk(s', b, v)
    requires forall u: nat, b: nat, c: nat :: u < |s'.pcs| && Relinked(s'.pcs[u], b, c, v) ==> RelinkOk(s', b, c, v)
    requires v < |s'.pcs| && Queued(s'.pcs[v]) && s'.ptrs[v].Some? ==> PtrOk(s', s'.ptrs[v].value, v)
    requires v < |s'.pcs| && Setup(s'.pcs[v]) ==> s'.ptrs[v] == Some(s'.pcs[v].b)
    ensures QueueInv(s')
  {
    forall b: nat, w: nat | OnChain(s'.chains, b, w) ensures ChainedOk(s', b, w) {
      if w != v {
        assert OnChain(s.chains, b, w);
        assert ChainedOk(s, b, w);
      }
    }
    forall u: nat, b: nat, w: nat | u < |s'.pcs| && InHand(s'.pcs[u], b, w) ensures HeldOk(s', b, w) {
      if w != v {
        assert HeldOk(s, b, w);
        forall c: nat | c < |s'.chains| ensures w !in s'.chains[c] { assert !OnChain(s.chains, c, w); }
      }
    }
    forall u: nat, b: nat, c: nat, w: nat | u < |s'.pcs| && Relinked(s'.pcs[u], b, c, w) ensures RelinkOk(s', b, c, w) {
      if w != v { assert RelinkOk(s, b, c, w); }
    }
    forall w: nat | w < |s'.pcs| && Queued(s'.pcs[w]) && s'.ptrs[w].Some? ensures PtrOk(s', s'.ptrs[w].value, w) {
      if w != v { assert PtrOk(s, s.ptrs[w].value, w); }
    }
  }

  /** futex_wait begins: the entry is initialised while it is nowhere. */
  lemma {:induction false} QueueStart(s: State, t: nat, u: Update)
    requires UpdateWf(s, t, u) && QueueInv(s) && s.pcs[t].Idle? && u.pc.WLock?
    requires u.chain.Keep? && u.ptr == Some((t, Some(u.pc.b)))
    ensures QueueInv(Do(s, t, u))
  {
    Absent(s, t);
    OthersStep(s, Do(s, t, u), t);
  }

  /** queue_me links the entry. */
  lemma {:induction false} QueueLink(s: State, t: nat, u: Update)
    requires UpdateWf(s, t, u) && QueueInv(s) && s.pcs[t].WQueue? && u.pc.WSleep?
    requires u.chain.Insert? && u.chain.b == s.pcs[t].b && u.chain.v == t && u.ptr.None?
    ensures QueueInv(Do(s, t, u))
  {
    Absent(s, t);
    OnChainInsert(s.chains, u.chain.b, u.chain.i, t);
    OnceInsert(s.chains, Do(s, t, u).chains, u.chain.b, u.chain.i, t);
    OthersStep(s, Do(s, t, u), t);
  }

  /** unqueue_me finds lock_ptr NULL: the entry is already gone. */
  lemma {:induction false} QueueGone(s: State, t: nat, u: Update)
    requires UpdateWf(s, t, u) && QueueInv(s) && s.pcs[t].WCheck? && s.ptrs[t].None? && u.pc.Idle?
    requires u.chain.Keep? && u.ptr.None?
    ensures QueueInv(Do(s, t, u))
  {
    Absent(s, t);
    OthersStep(s, Do(s, t, u), t);
  }

  /** unqueue_me with the lock its lock_ptr names really finds its entry on that chain. */
  lemma {:induction false} VerifyFinds(s: State, t: nat, b: nat)
    requires QueueInv(s) && LockInv(s.locks, s.pcs) && t < |s.pcs| && b < |s.locks|
    requires s.pcs[t] == WVerify(b) && s.ptrs[t] == Some(b)
    ensures OnChain(s.chains, b, t)
    ensures forall u: nat, c: nat :: u < |s.pcs| ==> !InHand(s.pcs[u], c, t)
    ensures forall u: nat, c: nat, d: nat :: u < |s.pcs| ==> !Relinked(s.pcs[u], c, d, t)
  {
    assert s.locks[b] == Some(t);
    forall u: nat, c: nat | u < |s.pcs| ensures !InHand(s.pcs[u], c, t) {
      assert InHand(s.pcs[u], c, t) ==> HeldOk(s, c, t);
      assert Holds(s.pcs[u], b) ==> s.locks[b] == Some(u);
    }
    forall u: nat, c: nat, d: nat | u < |s.pcs| ensures !Relinked(s.pcs[u], c, d, t) {
      assert Relinked(s.pcs[u], c, d, t) ==> RelinkOk(s, c, d, t);
      assert Holds(s.pcs[u], b) ==> s.locks[b] == Some(u);
    }
    assert PtrOk(s, b, t);
  }

  lemma {:induction false} QueueUnlink(s: State, t: nat, u: Update, b: nat)
    requires UpdateWf(s, t, u) && QueueInv(s) && LockInv(s.locks, s.pcs) && b < |s.locks|
    requires s.pcs[t] == WVerify(b) && s.ptrs[t] == Some(b) && u.pc.WDel? && u.ptr.None?
    requires u.chain.Drop? && u.chain.b == b && s.chains[b][u.chain.i] == t
    ensures QueueInv(Do(s, t, u))
  {
    VerifyFinds(s, t, b);
    OnceDrop(s.chains, Do(s, t, u).chains, b, u.chain.i);
    OnChainDrop(s.chains, b, u.chain.i);
    OthersStep(s, Do(s, t, u), t);
  }

  /** The scan of bucket b finds v there with an honest lock_ptr and in nobody's hands. */
  lemma {:induction false} ScanFinds(s: State, t: nat, b: nat, v: nat)
    requires QueueInv(s) && LockInv(s.locks, s.pcs) && t < |s.pcs| && b < |s.locks|
    requires s.pcs[t].Scan? && Src(s.pcs[t].j) == b && OnChain(s.chains, b, v)
    ensures v < |s.pcs| && v != t && Queued(s.pcs[v]) && s.ptrs[v] == Some(b)
    ensures forall u: nat, c: nat :: u < |s.pcs| ==> !InHand(s.pcs[u], c, v)
    ensures forall u: nat, c: nat, d: nat :: u < |s.pcs| ==> !Relinked(s.pcs[u], c, d, v)
  {
    assert s.locks[b] == Some(t) by { assert Holds(s.pcs[t], b); }
    forall u: nat, c: nat | u < |s.pcs| ensures !InHand(s.pcs[u], c, v) {
      assert InHand(s.pcs[u], c, v) ==> HeldOk(s, c, v);
    }
    forall u: nat, c: nat, d: nat | u < |s.pcs| ensures !Relinked(s.pcs[u], c, d, v) {
      assert Relinked(s.pcs[u], c, d, v) ==> RelinkOk(s, c, d, v);
      assert OnChain(s.chains, d, v) ==> d == b;
      assert Holds(s.pcs[u], b) ==> s.locks[b] == Some(u);
    }
    assert ChainedOk(s, b, v);
  }

  /** A scan takes v off the chain. */
  lemma {:induction false} QueueTake(s: State, t: nat, u: Update, b: nat, v: nat)
    requires UpdateWf(s, t, u) && QueueInv(s) && LockInv(s.locks, s.pcs) && b < |s.locks|
    requires s.pcs[t].Scan? && Src(s.pcs[t].j) == b && InHand(u.pc, b, v) && u.ptr.None?
    requires u.chain.Drop? && u.chain.b == b && s.chains[b][u.chain.i] == v
    ensures QueueInv(Do(s, t, u))
  {
    assert OnChain(s.chains, b, v);
    ScanFinds(s, t, b, v);
    var s' := Do(s, t, u);
    OnceDrop(s.chains, s'.chains, b, u.chain.i);
    OnChainDrop(s.chains, b, u.chain.i);
    assert InHand(s'.pcs[t], b, v);
    OthersStep(s, s', v);
  }

  /** Only t has v. */
  lemma {:induction false} OnlyMine(s: State, t: nat, b: nat, v: nat)
    requires QueueInv(s) && LockInv(s.locks, s.pcs) && PtrsWf(ShapeOf(s), s.ptrs) && t < |s.pcs|
    requires Grips(s.pcs[t], b, v)
    ensures forall u: nat, c: nat :: u < |s.pcs| && u != t ==> !InHand(s.pcs[u], c, v)
    ensures forall u: nat, c: nat, d: nat :: u < |s.pcs| && u != t ==> !Relinked(s.pcs[u], c, d, v)
  {
    forall u: nat, c: nat | u < |s.pcs| && u != t ensures !InHand(s.pcs[u], c, v) {
      if Grips(s.pcs[u], c, v) { OneHand(s, t, b, v, u, c); }
    }
    forall u: nat, c: nat, d: nat | u < |s.pcs| && u != t ensures !Relinked(s.pcs[u], c, d, v) {
      if Grips(s.pcs[u], c, v) { OneHand(s, t, b, v, u, c); }
    }
  }

  /** mark_wake_futex clears lock_ptr. */
  lemma {:induction false} QueueNull(s: State, t: nat, u: Update, v: nat)
    requires UpdateWf(s, t, u) && QueueInv(s) && LockInv(s.locks, s.pcs) && PtrsWf(ShapeOf(s), s.ptrs)
    requires s.pcs[t].MarkNull? && s.pcs[t].v == v && (u.pc.Scan? || u.pc.JobUnlock?)
    requires u.chain.Keep? && u.ptr == Some((v, None))
    ensures QueueInv(Do(s, t, u))
  {
    var b := Src(s.pcs[t].j);
    assert InHand(s.pcs[t], b, v);
    assert HeldOk(s, b, v);
    OnlyMine(s, t, b, v);
    OthersStep(s, Do(s, t, u), v);
  }

  /** requeue_futex links v into the destination chain. */
  lemma {:induction false} QueueRelink(s: State, t: nat, u: Update, v: nat)
    requires UpdateWf(s, t, u) && QueueInv(s) && LockInv(s.locks, s.pcs) && PtrsWf(ShapeOf(s), s.ptrs)
    requires s.pcs[t].MoveAdd? && s.pcs[t].v == v && u.pc.MovePtr? && u.pc.v == v && u.pc.j == s.pcs[t].j
    requires u.chain.Insert? && u.chain.v == v && u.chain.b == Dst(u.pc.j) && u.ptr.None?
    ensures QueueInv(Do(s, t, u))
  {
    var b, d := Src(u.pc.j), Dst(u.pc.j);
    var s' := Do(s, t, u);
    assert InHand(s.pcs[t], b, v);
    assert HeldOk(s, b, v);
    OnlyMine(s, t, b, v);
    OnChainInsert(s.chains, d, u.chain.i, v);
    OnceInsert(s.chains, s'.chains, d, u.chain.i, v);
    assert Relinked(s'.pcs[t], b, d, v);
    forall c: nat | OnChain(s'.chains, c, v) ensures c == d {
      assert !OnChain(s.chains, c, v);
    }
    OthersStep(s, s', v);
  }

  /** requeue_futex points lock_ptr at the destination bucket. */
  lemma {:induction false} QueueRetarget(s: State, t: nat, u: Update, v: nat)
    requires UpdateWf(s, t, u) && QueueInv(s) && LockInv(s.locks, s.pcs) && PtrsWf(ShapeOf(s), s.ptrs)
    requires s.pcs[t].MovePtr? && s.pcs[t].v == v && u.pc.MoveKey?
    requires u.chain.Keep? && u.ptr == Some((v, Some(Dst(s.pcs[t].j))))
    ensures QueueInv(Do(s, t, u))
  {
    var b, d := Src(s.pcs[t].j), Dst(s.pcs[t].j);
    var s' := Do(s, t, u);
    assert Relinked(s.pcs[t], b, d, v);
    assert RelinkOk(s, b, d, v);
    assert ChainedOk(s, d, v);
    OnlyMine(s, t, b, v);
    assert OnChain(s'.chains, d, v);
    OthersStep(s, s', v);
  }

  /** The waiter steps that touch no chain and no lock_ptr. */
  predicate PlainWaiter(s: State, t: nat)
    requires Local(s, t)
  {
    Waiting(s.pcs[t]) && !s.pcs[t].WQueue? && !(s.pcs[t].WCheck? && s.ptrs[t].None?)
    && !(s.pcs[t].WVerify? && s.ptrs[t] == Some(s.pcs[t].b))
  }

  lemma {:induction false} PlainWaiterStep(s: State, t: nat, c: nat)
    requires Local(s, t) && CanStep(s, t, c) && PlainWaiter(s, t)
    ensures Plain(s.pcs[t], WaiterStep(s, t, c))
  {}

  predicate PlainWaker(s: State, t: nat)
    requires Local(s, t)
  {
    !Waiting(s.pcs[t]) && !s.pcs[t].Scan? && !s.pcs[t].MarkNull? && !s.pcs[t].MoveAdd? && !s.pcs[t].MovePtr?
  }

  lemma {:induction false} PlainWakerStep(s: State, t: nat, c: nat)
    requires Local(s, t) && CanStep(s, t, c) && PlainWaker(s, t)
    ensures Plain(s.pcs[t], WakerStep(s, t, c))
  {}

  lemma {:induction false} QueueWaiter(s: State, t: nat, c: nat)
    requires LockInv(s.locks, s.pcs) && QueueInv(s) && Local(s, t) && CanStep(s, t, c)
    requires Waiting(s.pcs[t]) && !PlainWaiter(s, t) && UpdateWf(s, t, WaiterStep(s, t, c))
    ensures QueueInv(Do(s, t, WaiterStep(s, t, c)))
  {
    var u := WaiterStep(s, t, c);
    if s.pcs[t].WQueue? {
      QueueLink(s, t, u);
    } else if s.pcs[t].WCheck? {
      QueueGone(s, t, u);
    } else {
      VerifyFinds(s, t, s.pcs[t].b);
      QueueUnlink(s, t, u, s.pcs[t].b);
    }
  }

  lemma {:induction false} QueueScan(s: State, t: nat)
    requires LockInv(s.locks, s.pcs) && QueueInv(s) && Local(s, t) && s.pcs[t].Scan? && UpdateWf(s, t, ScanStep(s, t))
    ensures QueueInv(Do(s, t, ScanStep(s, t)))
  {
    var u := ScanStep(s, t);
    var b := Src(s.pcs[t].j);
    if u.chain.Drop? {
      QueueTake(s, t, u, b, s.chains[b][s.pcs[t].i]);
    } else {
      assert Plain(s.pcs[t], u);
      PlainStep(s, t, u);
    }
  }

  lemma {:induction false} QueueWaker(s: State, t: nat, c: nat)
    requires LockInv(s.locks, s.pcs) && QueueInv(s) && PtrsWf(ShapeOf(s), s.ptrs) && Local(s, t) && CanStep(s, t, c)
    requires s.pcs[t].MarkNull? || s.pcs[t].MoveAdd? || s.pcs[t].MovePtr?
    requires UpdateWf(s, t, WakerStep(s, t, c))
    ensures QueueInv(Do(s, t, WakerStep(s, t, c)))
  {
    var u := WakerStep(s, t, c);
    if s.pcs[t].MarkNull? {
      QueueNull(s, t, u, s.pcs[t].v);
    } else if s.pcs[t].MoveAdd? {
      QueueRelink(s, t, u, s.pcs[t].v);
    } else {
      QueueRetarget(s, t, u, s.pcs[t].v);
    }
  }

  lemma {:induction false} QueueInvStep(s: State, t: nat, a: Action)
    requires Wf(s) && LockInv(s.locks, s.pcs) && QueueInv(s) && Enabled(s, t, a) && UpdateWf(s, t, Plan(s, t, a))
    ensures QueueInv(Do(s, t, Plan(s, t, a)))
  {
    if !a.Step? {
      if a.Wait? { QueueStart(s, t, Plan(s, t, a)); } else { PlainStep(s, t, Plan(s, t, a)); }
    } else if PlainWaiter(s, t) {
      PlainWaiterStep(s, t, a.c);
      PlainStep(s, t, Plan(s, t, a));
    } else if Waiting(s.pcs[t]) {
      QueueWaiter(s, t, a.c);
    } else if PlainWaker(s, t) {
      PlainWakerStep(s, t, a.c);
      PlainStep(s, t, Plan(s, t, a));
    } else if s.pcs[t].Scan? {
      QueueScan(s, t);
    } else {
      QueueWaker(s, t, a.c);
    }
  }

  // ---- chains change only under their lock; entries only as futex_wait and requeue_futex do ----

  function ChainBucket(u: Update): Option<nat> {
    match u.chain case Keep => None case Drop(b, _) => Some(b) case Insert(b, _, _) => Some(b)
  }

  ghost predicate GuardOk(pc: Pc, u: Update) {
    u.chain.Keep? || Holds(pc, ChainBucket(u).value)
  }

  lemma {:induction false} GuardingStart(s: State, t: nat, a: Action)
    requires Local(s, t) && CanStart(s, t, a)
    ensures GuardOk(s.pcs[t], Start(s, t, a))
  {}

  lemma {:induction false} GuardingWaiter(s: State, t: nat, c: nat)
    requires Local(s, t) && CanStep(s, t, c) && Waiting(s.pcs[t])
    ensures GuardOk(s.pcs[t], WaiterStep(s, t, c))
  {}

  lemma {:induction false} GuardingScan(s: State, t: nat)
    requires Local(s, t) && s.pcs[t].Scan?
    ensures GuardOk(s.pcs[t], ScanStep(s, t))
  {}

  lemma {:induction false} GuardingWaker(s: State, t: nat, c: nat)
    requires Local(s, t) && CanStep(s, t, c) && !Waiting(s.pcs[t]) && !s.pcs[t].Scan?
    ensures GuardOk(s.pcs[t], WakerStep(s, t, c))
  {}

  lemma {:induction false} Guarding(s: State, t: nat, a: Action)
    requires Enabled(s, t, a)
    ensures GuardOk(s.pcs[t], Plan(s, t, a))
  {
    if !a.Step? { GuardingStart(s, t, a); }
    else if Waiting(s.pcs[t]) { GuardingWaiter(s, t, a.c); }
    else if s.pcs[t].Scan? { GuardingScan(s, t); }
    else { GuardingWaker(s, t, a.c); }
  }

  lemma {:induction false} ChainKept(s: State, t: nat, u: Update, k: nat, b: nat)
    requires UpdateWf(s, t, u) && LockInv(s.locks, s.pcs) && GuardOk(s.pcs[t], u)
    requires k < |s.pcs| && k != t && b < |s.chains| && Holds(s.pcs[k], b)
    ensures Do(s, t, u).chains[b] == s.chains[b]
  {
    assert s.locks[b] == Some(k);
    assert !Holds(s.pcs[t], b);
  }

  /** Which bucket an entry's key hashes to, as long as no requeue has taken hold of it. */
  ghost predicate KeyInv(s: State) {
    && ShapeWf(s)
    && (forall t: nat :: t < |s.pcs| && Setup(s.pcs[t]) ==>
          !s.qs[t].moved && s.qs[t].key < |s.hash| && s.hash[s.qs[t].key] == s.pcs[t].b)
    && (forall b: nat, v: nat :: OnChain(s.chains, b, v) && v < |s.qs| && !s.qs[v].moved ==>
          s.qs[v].key < |s.hash| && s.hash[s.qs[v].key] == b)
    && (forall u: nat :: u < |s.pcs| && Moving(s.pcs[u]) ==> s.pcs[u].v < |s.qs| && s.qs[s.pcs[u].v].moved)
    && (forall u: nat :: u < |s.pcs| && s.pcs[u].MoveKey? ==> OnChain(s.chains, Dst(s.pcs[u].j), s.pcs[u].v))
  }

  /** An entry is written by its idle owner, or marked as moved while its owner is queued. */
  ghost predicate EntryOk(s: State, t: nat, u: Update)
    requires t < |s.pcs| == |s.qs| && |s.hash| == |s.words|
  {
    && (u.entry.Some? ==>
          var (x, e) := u.entry.value;
          || (x == t && s.pcs[t].Idle? && u.pc.WLock? && !e.moved && e.key < |s.hash| && s.hash[e.key] == u.pc.b)
          || (x < |s.pcs| && e.moved && Queued(s.pcs[x])))
    && (Setup(u.pc) ==> if s.pcs[t].Idle? then u.entry.Some? && u.entry.value.0 == t
      else u.entry.None? && Setup(s.pcs[t]) && u.pc.b == s.pcs[t].b)
    && (u.chain.Insert? ==> u.entry.None? && u.word.None?)
    && (u.chain.Insert? ==>
      (u.chain.v == t && s.pcs[t] == WQueue(u.chain.b)) || (s.pcs[t].MoveAdd? && s.pcs[t].v == u.chain.v))
    && (Moving(u.pc) ==>
          || (Moving(s.pcs[t]) && u.pc.v == s.pcs[t].v)
          || (u.entry.Some? && u.entry.value.0 == u.pc.v && u.entry.value.1.moved))
    && (u.pc.MoveKey? ==> u.chain.Keep? && OnChain(s.chains, Dst(u.pc.j), u.pc.v))
  }

  lemma {:induction false} KeyInvStep(s: State, t: nat, u: Update)
    requires UpdateWf(s, t, u) && QueueInv(s) && KeyInv(s) && LockInv(s.locks, s.pcs)
    requires EntryOk(s, t, u) && GuardOk(s.pcs[t], u) && PcsWf(ShapeOf(s), s.pcs)
    ensures KeyInv(Do(s, t, u))
  {
    var s' := Do(s, t, u);
    forall b: nat, v: nat | OnChain(s'.chains, b, v) && v < |s'.qs| && !s'.qs[v].moved
      ensures s'.qs[v].key < |s'.hash| && s'.hash[s'.qs[v].key] == b
    {
      KeyChained(s, t, u, b, v);
    }
    forall w: nat | w < |s'.pcs| && s'.pcs[w].MoveKey? ensures OnChain(s'.chains, Dst(s'.pcs[w].j), s'.pcs[w].v) {
      if w != t {
        assert PcWf(ShapeOf(s), s.pcs[w]);
        ChainKept(s, t, u, w, Dst(s.pcs[w].j));
      }
    }
    forall w: nat | w < |s'.pcs| && Moving(s'.pcs[w]) ensures s'.pcs[w].v < |s'.qs| && s'.qs[s'.pcs[w].v].moved {
      if Moving(s.pcs[w]) { MovingQueued(s, w); }
    }
    forall w: nat | w < |s'.pcs| && Setup(s'.pcs[w])
      ensures !s'.qs[w].moved && s'.qs[w].key < |s'.hash| && s'.hash[s'.qs[w].key] == s'.pcs[w].b
    {
      if w != t { assert Setup(s.pcs[w]); }
    }
  }

  /** The owner of an entry being moved waits in unqueue_me. */
  lemma {:induction false} MovingQueued(s: State, w: nat)
    requires QueueInv(s) && KeyInv(s) && w < |s.pcs| && Moving(s.pcs[w])
    ensures s.pcs[w].v < |s.pcs| && Queued(s.pcs[s.pcs[w].v])
  {
    var v, b, d := s.pcs[w].v, Src(s.pcs[w].j), Dst(s.pcs[w].j);
    assert InHand(s.pcs[w], b, v) ==> HeldOk(s, b, v);
    assert Relinked(s.pcs[w], b, d, v) ==> RelinkOk(s, b, d, v);
    assert OnChain(s.chains, d, v) ==> ChainedOk(s, d, v);
  }

  lemma {:induction false} KeyChained(s: State, t: nat, u: Update, b: nat, v: nat)
    requires UpdateWf(s, t, u) && QueueInv(s) && KeyInv(s) && EntryOk(s, t, u)
    requires OnChain(Do(s, t, u).chains, b, v) && v < |s.qs| && !Do(s, t, u).qs[v].moved
    ensures Do(s, t, u).qs[v].key < |s.hash| && s.hash[Do(s, t, u).qs[v].key] == b
  {
    match u.chain
    case Keep =>
      assert ChainedOk(s, b, v);
    case Drop(b', i) =>
      OnChainDrop(s.chains, b', i);
      assert OnChain(s.chains, b, v);
      assert ChainedOk(s, b, v);
    case Insert(b', i, x) =>
      OnChainInsert(s.chains, b', i, x);
      assert OnChain(s.chains, b, v) || (b == b' && v == x);
      if OnChain(s.chains, b, v) { assert ChainedOk(s, b, v); }
  }

  lemma {:induction false} EntriesStart(s: State, t: nat, a: Action)
    requires Local(s, t) && CanStart(s, t, a)
    ensures EntryOk(s, t, Start(s, t, a))
  {}

  lemma {:induction false} EntriesWaiter(s: State, t: nat, c: nat)
    requires Local(s, t) && CanStep(s, t, c) && Waiting(s.pcs[t])
    ensures EntryOk(s, t, WaiterStep(s, t, c))
  {}

  lemma {:induction false} EntriesScan(s: State, t: nat)
    requires Local(s, t) && s.pcs[t].Scan? && QueueInv(s)
    ensures EntryOk(s, t, ScanStep(s, t))
  {
    var b := Src(s.pcs[t].j);
    if s.pcs[t].i < |s.chains[b]| {
      var v := s.chains[b][s.pcs[t].i];
      assert OnChain(s.chains, b, v);
      assert ChainedOk(s, b, v);
    }
  }

  lemma {:induction false} EntriesWaker(s: State, t: nat, c: nat)
    requires Local(s, t) && CanStep(s, t, c) && !Waiting(s.pcs[t]) && !s.pcs[t].Scan? && QueueInv(s) && KeyInv(s)
    ensures EntryOk(s, t, WakerStep(s, t, c))
  {
    if Moving(s.pcs[t]) {
      MovingQueued(s, t);
      var b, d, v := Src(s.pcs[t].j), Dst(s.pcs[t].j), s.pcs[t].v;
      assert Relinked(s.pcs[t], b, d, v) ==> RelinkOk(s, b, d, v);
    }
  }

  lemma {:induction false} Entries(s: State, t: nat, a: Action)
    requires Enabled(s, t, a) && QueueInv(s) && KeyInv(s)
    ensures EntryOk(s, t, Plan(s, t, a))
  {
    if !a.Step? { EntriesStart(s, t, a); }
    else if Waiting(s.pcs[t]) { EntriesWaiter(s, t, a.c); }
    else if s.pcs[t].Scan? { EntriesScan(s, t); }
    else { EntriesWaker(s, t, a.c); }
  }

  // ---- no lost wake-up ----

  /** A call of a thread that stored to the word and then wakes all its waiters. */
  predicate WakesAll(w: WakeCall) { w.stored && w.limit.None? && w.bits.None? }

  /** A wake-all on this key that has not begun its scan. */
  predicate Early(pc: Pc, key: nat) {
    (pc.KTest? || pc.KLock?) && WakesAll(pc.w) && pc.w.key == key
  }

  /** Entry v is at position i of chain c or later. */
  predicate Ahead(c: seq<nat>, i: nat, v: nat) { i <= |c| && v in c[i..] }

  /** A wake-all on this key whose scan has v still ahead of it. */
  predicate Late(chains: seq<seq<nat>>, pc: Pc, key: nat, v: nat) {
    && (pc.Scan? || Marking(pc)) && pc.j.Waking? && WakesAll(pc.j.w) && pc.j.w.key == key
    && pc.j.w.b < |chains| && Ahead(chains[pc.j.w.b], pc.i, v)
  }

  predicate WillWake(chains: seq<seq<nat>>, pc: Pc, key: nat, v: nat) {
    Early(pc, key) || Late(chains, pc, key, v)
  }

  /** The futex word no longer holds the value that thread v expects. */
  predicate Stale(s: State, v: nat)
    requires v < |s.qs|
  {
    s.qs[v].key < |s.words| && s.words[s.qs[v].key] != s.qs[v].val
  }

  ghost predicate WakerPending(s: State, key: nat, v: nat) {
    exists k: nat :: k < |s.pcs| && WillWake(s.chains, s.pcs[k], key, v)
  }

  ghost predicate WakeInv(s: State) {
    && (forall v: nat :: v < |s.pcs| == |s.qs| && s.pcs[v].WQueue? && Stale(s, v) ==>
          exists k: nat :: k < |s.pcs| && Early(s.pcs[k], s.qs[v].key))
    && (forall b: nat, v: nat :: OnChain(s.chains, b, v) && v < |s.qs| && !s.qs[v].moved && Stale(s, v) ==>
          WakerPending(s, s.qs[v].key, v))
  }

  /** A wake-all keeps v in its sights until v is off the chain. */
  lemma {:induction false} SightScan(s: State, t: nat, b: nat, v: nat)
    requires Local(s, t) && s.pcs[t].Scan? && OnceInv(s.chains) && UpdateWf(s, t, ScanStep(s, t))
    requires v < |s.qs| && OnChain(s.chains, b, v) && OnChain(Do(s, t, ScanStep(s, t)).chains, b, v)
    requires Late(s.chains, s.pcs[t], s.qs[v].key, v)
    ensures Late(Do(s, t, ScanStep(s, t)).chains, ScanStep(s, t).pc, s.qs[v].key, v)
  {
    var u := ScanStep(s, t);
    var s' := Do(s, t, u);
    var i, d := s.pcs[t].i, s.pcs[t].j.w.b;
    var c := s.chains[d];
    assert OnChain(s.chains, d, v);
    assert i < |c| && c[i..] == [c[i]] + c[i + 1..];
    if Matches(s.qs, s.pcs[t].j, c[i]) {
      OnChainDrop(s.chains, d, i);
      assert v != c[i];
      assert DropAt(c, i)[i..] == c[i + 1..];
    } else {
      assert v != c[i];
    }
  }

  lemma {:induction false} SightWaker(s: State, t: nat, c: nat, b: nat, v: nat)
    requires Local(s, t) && CanStep(s, t, c) && !Waiting(s.pcs[t]) && !s.pcs[t].Scan?
    requires UpdateWf(s, t, WakerStep(s, t, c)) && CountInv(s.waiters, s.chains, s.pcs)
    requires v < |s.qs| && OnChain(s.chains, b, v) && s.qs[v].key < |s.hash| && s.hash[s.qs[v].key] == b
    requires WillWake(s.chains, s.pcs[t], s.qs[v].key, v)
    ensures WillWake(Do(s, t, WakerStep(s, t, c)).chains, WakerStep(s, t, c).pc, s.qs[v].key, v)
  {
    if s.pcs[t].KTest? { assert s.waiters[b] == |s.chains[b]| + Total(s.pcs, b); }
    if s.pcs[t].KLock? { assert s.chains[b][0..] == s.chains[b]; }
  }

  /** All invariants together. */
  ghost predicate Inv(s: State) {
    && Wf(s) && LockInv(s.locks, s.pcs) && CountInv(s.waiters, s.chains, s.pcs)
    && QueueInv(s) && KeyInv(s) && WakeInv(s)
  }

  /** A waiter about to queue itself holds the bucket lock and is counted: no wake-all on its key
      can pass it by. */
  lemma {:induction false} EarlyStays(s: State, t: nat, a: Action, v: nat)
    requires Inv(s) && Enabled(s, t, a) && UpdateWf(s, t, Plan(s, t, a))
    requires v < |s.pcs| && v != t && s.pcs[v].WQueue? && Early(s.pcs[t], s.qs[v].key)
    ensures Early(Plan(s, t, a).pc, s.qs[v].key)
  {
    var b := s.pcs[v].b;
    assert s.hash[s.qs[v].key] == b;
    assert PcWf(ShapeOf(s), s.pcs[t]) && PcWf(ShapeOf(s), s.pcs[v]);
    TotalAtLeast(s.pcs, v, b);
    assert s.waiters[b] >= 1;
    assert Holds(s.pcs[v], b);
    assert s.locks[b] == Some(v);
  }

  /** A store is always followed by a wake-all on the word; a waiter queues only on the value it saw. */
  ghost predicate WordOk(s: State, t: nat, u: Update)
    requires t < |s.qs|
  {
    && (u.word.Some? ==> Early(u.pc, u.word.value.0))
    && (u.pc.WQueue? ==> u.word.None? && u.entry.None? && !Stale(s, t))
  }

  lemma {:induction false} WordingStart(s: State, t: nat, a: Action)
    requires Local(s, t) && CanStart(s, t, a)
    ensures WordOk(s, t, Start(s, t, a))
  {}

  lemma {:induction false} WordingWaiter(s: State, t: nat, c: nat)
    requires Local(s, t) && CanStep(s, t, c) && Waiting(s.pcs[t])
    ensures WordOk(s, t, WaiterStep(s, t, c))
  {}

  lemma {:induction false} WordingScan(s: State, t: nat)
    requires Local(s, t) && s.pcs[t].Scan?
    ensures WordOk(s, t, ScanStep(s, t))
  {}

  lemma {:induction false} WordingWaker(s: State, t: nat, c: nat)
    requires Local(s, t) && CanStep(s, t, c) && !Waiting(s.pcs[t]) && !s.pcs[t].Scan?
    ensures WordOk(s, t, WakerStep(s, t, c))
  {}

  lemma {:induction false} Wording(s: State, t: nat, a: Action)
    requires Enabled(s, t, a)
    ensures WordOk(s, t, Plan(s, t, a))
  {
    if !a.Step? { WordingStart(s, t, a); }
    else if Waiting(s.pcs[t]) { WordingWaiter(s, t, a.c); }
    else if s.pcs[t].Scan? { WordingScan(s, t); }
    else { WordingWaker(s, t, a.c); }
  }

  lemma {:induction false} QueuerStep(s: State, t: nat, u: Update, v: nat)
    requires UpdateWf(s, t, u) && WakeInv(s) && EntryOk(s, t, u) && WordOk(s, t, u)
    requires v < |s.pcs| && Do(s, t, u).pcs[v].WQueue? && Stale(Do(s, t, u), v)
    requires v != t && Early(s.pcs[t], s.qs[v].key) ==> Early(u.pc, s.qs[v].key)
    ensures exists k: nat :: k < |s.pcs| && Early(Do(s, t, u).pcs[k], Do(s, t, u).qs[v].key)
  {
    var s' := Do(s, t, u);
    assert v != t;
    assert s'.qs[v] == s.qs[v];
    if u.word.Some? && u.word.value.0 == s.qs[v].key {
      assert Early(s'.pcs[t], s.qs[v].key);
    } else {
      assert Stale(s, v);
      var k: nat :| k < |s.pcs| && Early(s.pcs[k], s.qs[v].key);
      assert Early(s'.pcs[k], s.qs[v].key);
    }
  }

  /** Another thread's scan is not disturbed: it holds the chain's lock. */
  lemma {:induction false} SightOther(s: State, t: nat, u: Update, k: nat, key: nat, v: nat)
    requires UpdateWf(s, t, u) && LockInv(s.locks, s.pcs) && GuardOk(s.pcs[t], u)
    requires k < |s.pcs| && k != t && WillWake(s.chains, s.pcs[k], key, v)
    ensures WillWake(Do(s, t, u).chains, Do(s, t, u).pcs[k], key, v)
  {
    if !Early(s.pcs[k], key) {
      ChainKept(s, t, u, k, s.pcs[k].j.w.b);
    }
  }

  lemma {:induction false} SightMine(s: State, t: nat, a: Action, b: nat, v: nat)
    requires Inv(s) && Enabled(s, t, a) && UpdateWf(s, t, Plan(s, t, a))
    requires v < |s.qs| && OnChain(s.chains, b, v) && OnChain(Do(s, t, Plan(s, t, a)).chains, b, v) && !s.qs[v].moved
    requires WillWake(s.chains, s.pcs[t], s.qs[v].key, v)
    ensures WillWake(Do(s, t, Plan(s, t, a)).chains, Plan(s, t, a).pc, s.qs[v].key, v)
  {
    if s.pcs[t].Scan? { SightScan(s, t, b, v); } else { SightWaker(s, t, a.c, b, v); }
  }

  lemma {:induction false} ChainedStep(s: State, t: nat, u: Update, b: nat, v: nat)
    requires UpdateWf(s, t, u) && LockInv(s.locks, s.pcs) && WakeInv(s) && WordOk(s, t, u) && GuardOk(s.pcs[t], u)
    requires v < |s.qs| && OnChain(s.chains, b, v) && !s.qs[v].moved
    requires Do(s, t, u).qs[v] == s.qs[v] && Stale(Do(s, t, u), v)
    requires WillWake(s.chains, s.pcs[t], s.qs[v].key, v) ==> WillWake(Do(s, t, u).chains, u.pc, s.qs[v].key, v)
    ensures WakerPending(Do(s, t, u), s.qs[v].key, v)
  {
    var s' := Do(s, t, u);
    if u.word.Some? && u.word.value.0 == s.qs[v].key {
      assert WillWake(s'.chains, s'.pcs[t], s.qs[v].key, v);
    } else {
      assert Stale(s, v);
      var k: nat :| k < |s.pcs| && WillWake(s.chains, s.pcs[k], s.qs[v].key, v);
      if k != t { SightOther(s, t, u, k, s.qs[v].key, v); }
      assert WillWake(s'.chains, s'.pcs[k], s.qs[v].key, v);
    }
  }

  /** The entry being linked: its own thread saw the expected value under the lock, and any store
      since then has its wake-all still to come. */
  lemma {:induction false} LinkedStep(s: State, t: nat, u: Update, b: nat, v: nat)
    requires UpdateWf(s, t, u) && WakeInv(s) && KeyInv(s) && EntryOk(s, t, u)
    requires v < |s.qs| && !OnChain(s.chains, b, v) && OnChain(Do(s, t, u).chains, b, v)
    requires !Do(s, t, u).qs[v].moved && Stale(Do(s, t, u), v)
    ensures WakerPending(Do(s, t, u), s.qs[v].key, v) && Do(s, t, u).qs[v] == s.qs[v]
  {
    var s' := Do(s, t, u);
    assert u.chain.Insert? && u.chain.v == v by {
      if u.chain.Insert? {
        OnChainInsert(s.chains, u.chain.b, u.chain.i, u.chain.v);
      }
    }
    assert v == t && s.pcs[t].WQueue? && Stale(s, t);
    var k: nat :| k < |s.pcs| && Early(s.pcs[k], s.qs[v].key);
    assert WillWake(s'.chains, s'.pcs[k], s.qs[v].key, v);
  }

  lemma {:induction false} EntryKept(s: State, t: nat, u: Update, b: nat, v: nat)
    requires UpdateWf(s, t, u) && QueueInv(s) && EntryOk(s, t, u)
    requires v < |s.qs| && OnChain(s.chains, b, v) && !Do(s, t, u).qs[v].moved
    ensures Do(s, t, u).qs[v] == s.qs[v]
  {
    assert ChainedOk(s, b, v);
  }

  lemma {:induction false} WakeInvStep(s: State, t: nat, a: Action)
    requires Inv(s) && Enabled(s, t, a) && UpdateWf(s, t, Plan(s, t, a))
    ensures WakeInv(Do(s, t, Plan(s, t, a)))
  {
    var u := Plan(s, t, a);
    var s' := Do(s, t, u);
    Entries(s, t, a);
    Guarding(s, t, a);
    Wording(s, t, a);
    forall v: nat | v < |s'.pcs| == |s'.qs| && s'.pcs[v].WQueue? && Stale(s', v)
      ensures exists k: nat :: k < |s'.pcs| && Early(s'.pcs[k], s'.qs[v].key)
    {
      if v != t && Early(s.pcs[t], s.qs[v].key) { EarlyStays(s, t, a, v); }
      QueuerStep(s, t, u, v);
    }
    forall b: nat, v: nat | OnChain(s'.chains, b, v) && v < |s'.qs| && !s'.qs[v].moved && Stale(s', v)
      ensures WakerPending(s', s'.qs[v].key, v)
    {
      if OnChain(s.chains, b, v) {
        EntryKept(s, t, u, b, v);
        if WillWake(s.chains, s.pcs[t], s.qs[v].key, v) { SightMine(s, t, a, b, v); }
        ChainedStep(s, t, u, b, v);
      } else {
        LinkedStep(s, t, u, b, v);
      }
    }
  }

  lemma {:induction false} InvStep(s: State, t: nat, a: Action)
    requires Inv(s) && Enabled(s, t, a)
    ensures UpdateWf(s, t, Plan(s, t, a)) && Inv(Do(s, t, Plan(s, t, a)))
  {
    var u := Plan(s, t, a);
    Bounds(s, t, a);
    WfStep(s, t, u);
    Locking(s, t, a);
    LockInvStep(s, t, u);
    Counting(s, t, a);
    CountInvStep(s, t, u);
    QueueInvStep(s, t, a);
    Entries(s, t, a);
    Guarding(s, t, a);
    KeyInvStep(s, t, u);
    WakeInvStep(s, t, a);
  }

  lemma {:induction false} TotalQuiet(pcs: seq<Pc>, b: nat)
    requires forall t: nat :: t < |pcs| ==> pcs[t].Idle? || pcs[t].WSleep?
    ensures Total(pcs, b) == 0
  {
    if pcs != [] { TotalQuiet(pcs[..|pcs| - 1], b); }
  }

  lemma {:induction false} InitInv(s: State)
    requires Init(s)
    ensures Inv(s)
  {
    forall b: nat | b < |s.chains| ensures s.waiters[b] == |s.chains[b]| + Total(s.pcs, b) {
      TotalQuiet(s.pcs, b);
    }
  }

  lemma {:induction false} StepOf(run: seq<State>, i: nat)
    requires IsRun(run) && i + 1 < |run|
    ensures Next(run[i], run[i + 1])
  {}

  lemma {:induction false} RunInv(run: seq<State>, i: nat)
    requires IsRun(run) && i < |run|
    ensures Inv(run[i])
  {
    if i == 0 {
      InitInv(run[0]);
    } else {
      RunInv(run, i - 1);
      assert Next(run[i - 1], run[i - 1 + 1]);
      var s := run[i - 1];
      var t: nat, a: Action :| Enabled(s, t, a) && UpdateWf(s, t, Plan(s, t, a)) && run[i] == Do(s, t, Plan(s, t, a));
      InvStep(s, t, a);
    }
  }

  // ---- what holds in every state of every run ----

  /** Each bucket's counter is its chain length plus the threads between queue_lock and queue_me or
      queue_unlock, the pending decrements, and the requeues on their way to it. */
  lemma {:induction false} Bookkeeping(run: seq<State>, i: nat, b: nat)
    requires IsRun(run) && i < |run| && b < |run[i].chains|
    ensures |run[i].waiters| == |run[i].chains| && run[i].waiters[b] == |run[i].chains[b]| + Total(run[i].pcs, b)
  {
    RunInv(run, i);
  }

  /** unqueue_me unlinks only from the chain whose lock it holds, and always finds its entry there. */
  lemma {:induction false} UnqueueIsSafe(run: seq<State>, i: nat, t: nat, b: nat)
    requires IsRun(run) && i < |run| && t < |run[i].pcs|
    requires run[i].pcs[t] == WVerify(b) && t < |run[i].ptrs| && run[i].ptrs[t] == Some(b)
    ensures b < |run[i].locks| && run[i].locks[b] == Some(t) && OnChain(run[i].chains, b, t)
    ensures forall c: nat :: OnChain(run[i].chains, c, t) ==> c == b
  {
    RunInv(run, i);
    assert PcWf(ShapeOf(run[i]), run[i].pcs[t]);
    VerifyFinds(run[i], t, b);
    assert Holds(run[i].pcs[t], b);
  }

  /** A chained entry's lock_ptr names the bucket of its chain, or a requeue that holds that
      bucket's lock is about to store it. */
  lemma {:induction false} LockPtrNamesBucket(run: seq<State>, i: nat, b: nat, v: nat)
    requires IsRun(run) && i < |run| && OnChain(run[i].chains, b, v)
    ensures v < |run[i].ptrs| && b < |run[i].locks|
    ensures || run[i].ptrs[v] == Some(b)
            || (run[i].locks[b].Some? && run[i].locks[b].value < |run[i].pcs|
                && run[i].pcs[run[i].locks[b].value].MovePtr? && run[i].pcs[run[i].locks[b].value].v == v)
  {
    RunInv(run, i);
    var s := run[i];
    assert ChainedOk(s, b, v);
    if s.ptrs[v] != Some(b) {
      var u: nat, b1: nat :| u < |s.pcs| && Relinked(s.pcs[u], b1, b, v);
      assert Holds(s.pcs[u], b);
    }
  }

  /** No lost wake-up: a waiter still queued on its own futex while the word differs from the value
      it expects has a wake-all, by a thread that stored to that word, still on its way to it. */
  lemma {:induction false} NoLostWakeup(run: seq<State>, i: nat, b: nat, v: nat)
    requires IsRun(run) && i < |run| && OnChain(run[i].chains, b, v)
    requires v < |run[i].qs| && !run[i].qs[v].moved && Stale(run[i], v)
    ensures WakerPending(run[i], run[i].qs[v].key, v)
  {
    RunInv(run, i);
  }

  /** Once every thread is asleep in futex_wait or outside the futex code, every waiter that no
      requeue has moved is still waiting for the value its futex word holds. */
  lemma {:induction false} NobodyLeftAsleep(run: seq<State>, i: nat, b: nat, v: nat)
    requires IsRun(run) && i < |run| && OnChain(run[i].chains, b, v) && v < |run[i].qs| && !run[i].qs[v].moved
    requires forall t: nat :: t < |run[i].pcs| ==> run[i].pcs[t].Idle? || run[i].pcs[t].WSleep?
    ensures !Stale(run[i], v)
      && run[i].waiters == seq(|run[i].chains|, c requires 0 <= c < |run[i].chains| => |run[i].chains[c]|)
  {
    RunInv(run, i);
    var s := run[i];
    assert !WakerPending(s, s.qs[v].key, v);
    forall c: nat | c < |s.chains| ensures s.waiters[c] == |s.chains[c]| {
      TotalQuiet(s.pcs, c);
    }
  }
}
