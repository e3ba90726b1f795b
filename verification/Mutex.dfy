/** The sleeping mutex of kernel/mutex.c as interleaved atomic steps.
    Each step is one access to `count`, or one critical section on `wait_list`.
    Threads are the indices of `pcs`; there are arbitrarily many of them. */
module Mutex {
  import opened Basics

  datatype Pc =
    | Idle
    // mutex_lock slow path, in program order
    | SlowEnter               // count went negative; about to take wait_lock
    | SlowTest                // mutex_is_locked()
    | SlowXchg                // atomic_xchg(count, 0)
    | SlowGot                 // skip_wait: lock taken, wait_lock still held
    | Enlist                  // list_add_tail
    | LoopTest                // atomic_read(count) >= 0
    | LoopXchg                // atomic_xchg(count, -1)
    | SignalTest              // signal_pending_state(); then sleep or give up
    | Interrupted             // err: leave the list
    | Sleeping                // schedule(), wait_lock released
    | Woken                   // runnable again; about to retake wait_lock
    | Unlist                  // lock taken in the loop: mutex_remove_waiter
    | ClearCount              // no waiters left: atomic_set(count, 0)
    | Leave                   // release wait_lock
    | Holding                 // the critical section
    // mutex_unlock slow path
    | ReleaseStore            // atomic_set(count, 1)
    | PickWaiter              // take wait_lock, look at the first waiter
    | Wake(waiter: nat)       // wake_up_q

  datatype State = State(count: int, lock: Option<nat>, list: seq<nat>, pcs: seq<Pc>, interruptible: seq<bool>)

  datatype Action = Lock(interruptible: bool) | TryLock | Unlock | Proceed | Signal

  /** The wait_lock is held exactly at these points. */
  predicate UnderLock(pc: Pc) {
    pc.SlowTest? || pc.SlowXchg? || pc.SlowGot? || pc.Enlist? || pc.LoopTest? || pc.LoopXchg? ||
    pc.SignalTest? || pc.Interrupted? || pc.Unlist? || pc.ClearCount? || pc.Leave?
  }

  /** The waiter sits on wait_list exactly at these points. */
  predicate Listed(pc: Pc) {
    pc.LoopTest? || pc.LoopXchg? || pc.SignalTest? || pc.Interrupted? || pc.Sleeping? || pc.Woken? || pc.Unlist?
  }

  /** From winning the count to giving it back. */
  predicate Owns(pc: Pc) {
    pc.SlowGot? || pc.Unlist? || pc.ClearCount? || pc.Leave? || pc.Holding? || pc.ReleaseStore?
  }

  predicate Wf(s: State) {
    && |s.pcs| == |s.interruptible|
    && (s.lock.Some? ==> s.lock.value < |s.pcs|)
    && (forall t <- s.list :: t < |s.pcs|)
    && (forall t: nat :: t < |s.pcs| && s.pcs[t].Wake? ==> s.pcs[t].waiter < |s.pcs|)
  }

  predicate Enabled(s: State, t: nat, a: Action)
    requires Wf(s)
  {
    t < |s.pcs| &&
    match a
    case Lock(_) => s.pcs[t].Idle?
    case TryLock => s.pcs[t].Idle?
    case Unlock => s.pcs[t].Holding?
    case Signal => s.pcs[t].Sleeping? || (s.pcs[t].SignalTest? && s.interruptible[t])
    case Proceed =>
      match s.pcs[t]
      case Idle => false
      case Holding => false
      case Sleeping => false
      case SlowEnter => s.lock.None?
      case Woken => s.lock.None?
      case PickWaiter => s.lock.None?
      case _ => true
  }

  function At(s: State, t: nat, pc: Pc): State
    requires t < |s.pcs|
  {
    s.(pcs := s.pcs[t := pc])
  }

  /** list_del of the (single) entry of t. */
  function Without(list: seq<nat>, t: nat): (r: seq<nat>)
    ensures forall u :: u in r <==> u in list && u != t
  {
    if list == [] then []
    else if list[0] == t then Without(list[1..], t)
    else [list[0]] + Without(list[1..], t)
  }

  /** __mutex_lock_common, one access at a time. */
  function LockStep(s: State, t: nat): (s': State)
    requires Wf(s) && Enabled(s, t, Proceed)
  {
    match s.pcs[t]
    case SlowEnter => At(s.(lock := Some(t)), t, SlowTest)
    case SlowTest => At(s, t, if s.count == 1 then SlowXchg else Enlist)
    case SlowXchg => At(s.(count := 0), t, if s.count == 1 then SlowGot else Enlist)
    case SlowGot => At(s.(lock := None), t, Holding)
    case Enlist => At(s.(list := s.list + [t]), t, LoopTest)
    case LoopTest => At(s, t, if s.count >= 0 then LoopXchg else SignalTest)
    case LoopXchg => At(s.(count := -1), t, if s.count == 1 then Unlist else SignalTest)
    case SignalTest => At(s.(lock := None), t, Sleeping)
    case Interrupted => At(s.(list := Without(s.list, t), lock := None), t, Idle)
    case Woken => At(s.(lock := Some(t)), t, LoopTest)
    case Unlist =>
      var l := Without(s.list, t);
      At(s.(list := l), t, if l == [] then ClearCount else Leave)
    case ClearCount => At(s.(count := 0), t, Leave)
    case Leave => At(s.(lock := None), t, Holding)
    case _ => s
  }

  /** __mutex_unlock_common_slowpath: store, pick the first waiter, wake it. */
  function UnlockStep(s: State, t: nat): (s': State)
    requires Wf(s) && Enabled(s, t, Proceed)
  {
    match s.pcs[t]
    case ReleaseStore => At(s.(count := 1), t, PickWaiter)
    case PickWaiter => At(s, t, if s.list == [] then Idle else Wake(s.list[0]))
    case Wake(w) =>
      var s1 := At(s, t, Idle);
      if s1.pcs[w].Sleeping? then At(s1, w, Woken) else s1
    case _ => s
  }

  predicate Unlocking(pc: Pc) { pc.ReleaseStore? || pc.PickWaiter? || pc.Wake? }

  /** One atomic step of thread t: a fast path, a signal, or the next slow-path access. */
  function Apply(s: State, t: nat, a: Action): (s': State)
    requires Wf(s) && Enabled(s, t, a)
  {
    match a
    case Lock(i) =>
      At(s.(count := s.count - 1, interruptible := s.interruptible[t := i]), t,
         if s.count - 1 < 0 then SlowEnter else Holding)
    case TryLock =>
      if s.count == 1 then At(s.(count := 0), t, Holding) else s
    case Unlock =>
      At(s.(count := s.count + 1), t, if s.count + 1 > 0 then Idle else ReleaseStore)
    case Signal =>
      At(s, t, if s.pcs[t].Sleeping? then Woken else Interrupted)
    case Proceed =>
      if Unlocking(s.pcs[t]) then UnlockStep(s, t) else LockStep(s, t)
  }

  ghost predicate Init(s: State) {
    && s.count == 1 && s.lock == None && s.list == [] && |s.pcs| == |s.interruptible|
    && forall t: nat :: t < |s.pcs| ==> s.pcs[t].Idle?
  }

  ghost predicate Next(s: State, s': State) {
    Wf(s) && exists t: nat, a: Action :: Enabled(s, t, a) && s' == Apply(s, t, a)
  }

  /** Any finite run, of any length, with any interleaving. */
  ghost predicate IsRun(run: seq<State>) {
    && |run| > 0 && Init(run[0])
    && forall i :: 0 <= i < |run| - 1 ==> Next(run[i], run[i + 1])
  }

  // ---- the invariant ----

  ghost predicate LockInv(s: State) {
    && Wf(s)
    && (forall t: nat :: t < |s.pcs| ==> (s.lock == Some(t) <==> UnderLock(s.pcs[t])))
  }

  ghost predicate ListInv(s: State) {
    && Wf(s)
    && (forall t: nat :: t < |s.pcs| ==> (t in s.list <==> Listed(s.pcs[t])))
  }

  ghost predicate OwnerInv(s: State) {
    && s.count <= 1
    && (forall t: nat :: t < |s.pcs| && Owns(s.pcs[t]) ==> s.count <= 0)
    && (forall t: nat, u: nat :: t < |s.pcs| && u < |s.pcs| && Owns(s.pcs[t]) && Owns(s.pcs[u]) ==> t == u)
    && (s.count <= 0 ==> exists t: nat :: t < |s.pcs| && Owns(s.pcs[t]))
  }

  /** An unlocker that has released the count but not yet looked at the list. */
  ghost predicate UnlockerPending(s: State) {
    exists u: nat :: u < |s.pcs| && (s.pcs[u].ReleaseStore? || s.pcs[u].PickWaiter?)
  }

  /** An unlocker about to wake a thread that is still on the list. */
  ghost predicate WakePending(s: State)
    requires Wf(s)
  {
    exists u: nat :: u < |s.pcs| && s.pcs[u].Wake? && s.pcs[u].waiter in s.list
  }

  /** A listed thread that is awake and will still try for the count. */
  ghost predicate WaiterAwake(s: State)
    requires Wf(s)
  {
    exists w: nat :: w < |s.pcs| && Awake(s.pcs[w])
  }

  ghost predicate SomeoneActs(s: State)
    requires Wf(s)
  {
    UnlockerPending(s) || WakePending(s) || WaiterAwake(s)
  }

  ghost predicate WakeInv(s: State)
    requires Wf(s)
  {
    && (s.list != [] && s.count >= 0 ==> SomeoneActs(s))
    && (forall t: nat :: t < |s.pcs| && s.pcs[t].SlowXchg? && s.list != [] ==> SomeoneActs(s))
    && (forall t: nat :: t < |s.pcs| && (s.pcs[t].SignalTest? || s.pcs[t].Interrupted?) ==>
      s.count < 0 || UnlockerPending(s))
    && (forall t: nat :: t < |s.pcs| && s.pcs[t].Unlist? ==> s.count < 0)
    && (forall t: nat :: t < |s.pcs| && s.pcs[t].ClearCount? ==> s.list == [])
  }

  ghost predicate Inv(s: State) {
    LockInv(s) && ListInv(s) && OwnerInv(s) && WakeInv(s)
  }

  lemma InitInv(s: State)
    requires Init(s)
    ensures Inv(s)
  {}

  lemma WfStep(s: State, t: nat, a: Action)
    requires Wf(s) && Enabled(s, t, a)
    ensures Wf(Apply(s, t, a)) && |Apply(s, t, a).pcs| == |s.pcs|
  {
    var s' := Apply(s, t, a);
    if a.Proceed? && s.pcs[t].PickWaiter? && s.list != [] {
      assert s.list[0] in s.list;
    }
    forall u: nat | u < |s'.pcs| && s'.pcs[u].Wake? ensures s'.pcs[u].waiter < |s'.pcs| {
      assert u != t ==> s.pcs[u].Wake?;
    }
  }

  lemma LockInvStep(s: State, t: nat, a: Action)
    requires LockInv(s) && Enabled(s, t, a)
    ensures LockInv(Apply(s, t, a))
  {
    WfStep(s, t, a);
  }

  lemma ListInvStep(s: State, t: nat, a: Action)
    requires LockInv(s) && ListInv(s) && Enabled(s, t, a)
    ensures ListInv(Apply(s, t, a))
  {
    WfStep(s, t, a);
  }

  /** Ownership moves between the count and one thread, never duplicated. */
  lemma OwnerFrame(s: State, s': State, t: nat)
    requires OwnerInv(s) && t < |s.pcs| == |s'.pcs|
    requires forall u: nat :: u < |s.pcs| && u != t ==> Owns(s'.pcs[u]) == Owns(s.pcs[u])
    requires s'.count <= 1
    requires
      || (Owns(s'.pcs[t]) == Owns(s.pcs[t]) && (s'.count <= 0 <==> s.count <= 0))
      || (Owns(s'.pcs[t]) && s.count == 1 && s'.count <= 0)
      || (Owns(s.pcs[t]) && !Owns(s'.pcs[t]) && s'.count == 1)
    ensures OwnerInv(s')
  {
    if s'.count <= 0 && !Owns(s'.pcs[t]) {
      var h: nat :| h < |s.pcs| && Owns(s.pcs[h]);
      assert Owns(s'.pcs[h]);
    }
  }

  lemma OwnerInvStep(s: State, t: nat, a: Action)
    requires Wf(s) && OwnerInv(s) && WakeInv(s) && Enabled(s, t, a)
    ensures OwnerInv(Apply(s, t, a))
  {
    OwnerFrame(s, Apply(s, t, a), t);
  }

  predicate Awake(pc: Pc) { pc.Woken? || pc.LoopTest? || pc.LoopXchg? }

  /** Whoever was going to act still is, if only t moved and t gave nothing up. */
  lemma ActsPersist(s: State, s': State, t: nat)
    requires Wf(s) && Wf(s') && t < |s.pcs| == |s'.pcs|
    requires forall u: nat :: u < |s.pcs| && u != t ==> s'.pcs[u] == s.pcs[u]
    requires forall u :: u in s.list ==> u in s'.list
    requires s.pcs[t].Wake? ==> s'.pcs[t] == s.pcs[t]
    requires s.pcs[t].ReleaseStore? || s.pcs[t].PickWaiter? ==> s'.pcs[t].PickWaiter?
    requires Awake(s.pcs[t]) ==> Awake(s'.pcs[t])
    requires SomeoneActs(s)
    ensures SomeoneActs(s')
  {
    if UnlockerPending(s) {
      UnlockerPersists(s, s', t);
    } else if WakePending(s) {
      var u: nat :| u < |s.pcs| && s.pcs[u].Wake? && s.pcs[u].waiter in s.list;
      assert s'.pcs[u].Wake? && s'.pcs[u].waiter in s'.list;
    } else {
      var w: nat :| w < |s.pcs| && Awake(s.pcs[w]);
      assert Awake(s'.pcs[w]);
    }
  }

  lemma UnlockerPersists(s: State, s': State, t: nat)
    requires t < |s.pcs| == |s'.pcs|
    requires forall u: nat :: u < |s.pcs| && u != t ==> s'.pcs[u] == s.pcs[u] || s.pcs[u].Sleeping?
    requires s.pcs[t].ReleaseStore? || s.pcs[t].PickWaiter? ==> s'.pcs[t].PickWaiter?
    requires UnlockerPending(s)
    ensures UnlockerPending(s')
  {
    var u: nat :| u < |s.pcs| && (s.pcs[u].ReleaseStore? || s.pcs[u].PickWaiter?);
    assert s'.pcs[u].ReleaseStore? || s'.pcs[u].PickWaiter?;
  }

  /** The fast paths and signals keep the wake-up guarantee. */
  lemma WakeInvEntry(s: State, t: nat, a: Action)
    requires Inv(s) && Enabled(s, t, a) && !a.Proceed?
    ensures Wf(Apply(s, t, a)) && WakeInv(Apply(s, t, a))
  {
    WfStep(s, t, a);
    var s' := Apply(s, t, a);
    assert forall u: nat :: u < |s.pcs| && u != t ==> s'.pcs[u] == s.pcs[u];
    if UnlockerPending(s) { UnlockerPersists(s, s', t); }
    if s'.pcs[t].ReleaseStore? { assert UnlockerPending(s'); }
    else if s'.pcs[t].Woken? { assert Awake(s'.pcs[t]); }
    else if SomeoneActs(s) { ActsPersist(s, s', t); }
  }

  /** A locker that keeps wait_lock, or has just taken it. */
  lemma WakeInvLock(s: State, t: nat)
    requires Inv(s) && Enabled(s, t, Proceed) && !Unlocking(s.pcs[t])
    ensures Wf(LockStep(s, t)) && WakeInv(LockStep(s, t))
  {
    WfStep(s, t, Proceed);
    var s' := LockStep(s, t);
    assert forall u: nat :: u < |s.pcs| && u != t ==> s'.pcs[u] == s.pcs[u];
    if UnlockerPending(s) { UnlockerPersists(s, s', t); }
    if Awake(s'.pcs[t]) {
      assert WaiterAwake(s');
    } else if SomeoneActs(s) && !Listed(s.pcs[t]) {
      ActsPersist(s, s', t);
    }
  }

  /** The unlock slow path: store, pick, wake. */
  lemma WakeInvUnlock(s: State, t: nat)
    requires Inv(s) && Enabled(s, t, Proceed) && Unlocking(s.pcs[t])
    ensures Wf(UnlockStep(s, t)) && WakeInv(UnlockStep(s, t))
  {
    WfStep(s, t, Proceed);
    var s' := UnlockStep(s, t);
    match s.pcs[t]
    case ReleaseStore =>
      assert s'.pcs[t].PickWaiter?;
    case PickWaiter =>
      if s.list != [] { assert s'.pcs[t].waiter in s'.list; }
    case Wake(w) =>
      if UnlockerPending(s) { UnlockerPersists(s, s', t); }
      if SomeoneActs(s) && !UnlockerPending(s) {
        WakeReaches(s, t, w);
      }
  }

  /** Waking w leaves someone to act, unless w already holds wait_lock on its way out. */
  lemma WakeReaches(s: State, t: nat, w: nat)
    requires Inv(s) && Enabled(s, t, Proceed) && s.pcs[t] == Wake(w)
    requires SomeoneActs(s) && !UnlockerPending(s) && Wf(UnlockStep(s, t))
    ensures SomeoneActs(UnlockStep(s, t)) || (Listed(s.pcs[w]) && UnderLock(s.pcs[w]) && s.count < 0)
  {
    var s' := UnlockStep(s, t);
    if w in s.list {
      assert Listed(s.pcs[w]);
      if !(UnderLock(s.pcs[w]) && !Awake(s.pcs[w])) { assert Awake(s'.pcs[w]); }
    } else if WakePending(s) {
      var u: nat :| u < |s.pcs| && s.pcs[u].Wake? && s.pcs[u].waiter in s.list;
      assert s'.pcs[u].Wake? && s'.pcs[u].waiter in s'.list;
    } else {
      var v: nat :| v < |s.pcs| && Awake(s.pcs[v]);
      assert Awake(s'.pcs[v]);
    }
  }

  lemma InvStep(s: State, t: nat, a: Action)
    requires Inv(s) && Enabled(s, t, a)
    ensures Inv(Apply(s, t, a))
  {
    LockInvStep(s, t, a);
    ListInvStep(s, t, a);
    OwnerInvStep(s, t, a);
    if !a.Proceed? { WakeInvEntry(s, t, a); }
    else if Unlocking(s.pcs[t]) { WakeInvUnlock(s, t); }
    else { WakeInvLock(s, t); }
  }

  lemma {:induction false} RunInv(run: seq<State>, i: nat)
    requires IsRun(run) && i < |run|
    ensures Inv(run[i])
  {
    if i == 0 {
      InitInv(run[0]);
    } else {
      RunInv(run, i - 1);
      assert Next(run[i - 1], run[i - 1 + 1]);
      var t: nat, a: Action :| Enabled(run[i - 1], t, a) && run[i] == Apply(run[i - 1], t, a);
      InvStep(run[i - 1], t, a);
    }
  }

  // ---- what holds in every state of every run ----

  /** At most one thread is inside the critical section. */
  lemma MutualExclusion(run: seq<State>, i: nat, t: nat, u: nat)
    requires IsRun(run) && i < |run|
    requires t < |run[i].pcs| && u < |run[i].pcs|
    requires run[i].pcs[t].Holding? && run[i].pcs[u].Holding?
    ensures t == u && run[i].count <= 0
  {
    RunInv(run, i);
  }

  /** No lost wake-up: while threads wait and the count is not negative, an unlocker
      still has its wake step to do or a listed waiter is awake. */
  lemma NoLostWakeup(run: seq<State>, i: nat)
    requires IsRun(run) && i < |run|
    requires run[i].list != [] && run[i].count >= 0
    ensures Wf(run[i]) && SomeoneActs(run[i])
    ensures forall w: nat :: w < |run[i].pcs| && Awake(run[i].pcs[w]) ==> w in run[i].list
  {
    RunInv(run, i);
  }

  /** Nobody sleeps on a free mutex: once every thread has either left the mutex or gone
      to sleep, no thread is asleep and the mutex is free. */
  lemma NobodyLeftAsleep(run: seq<State>, i: nat)
    requires IsRun(run) && i < |run|
    requires forall t: nat :: t < |run[i].pcs| ==> run[i].pcs[t].Idle? || run[i].pcs[t].Sleeping?
    ensures run[i].count == 1 && run[i].list == []
    ensures forall t: nat :: t < |run[i].pcs| ==> run[i].pcs[t].Idle?
  {
    RunInv(run, i);
    var s := run[i];
    assert s.count == 1;
    assert !WaiterAwake(s) && !UnlockerPending(s) && !WakePending(s);
    assert s.list == [];
  }

  /** Deadlock freedom: while any thread is still in the mutex code, some thread can step
      on its own (without the help of a signal). */
  lemma DeadlockFree(run: seq<State>, i: nat, v: nat)
    requires IsRun(run) && i < |run|
    requires v < |run[i].pcs| && !run[i].pcs[v].Idle?
    ensures Wf(run[i]) && exists t: nat, a: Action :: (a == Proceed || a == Unlock) && Enabled(run[i], t, a)
  {
    RunInv(run, i);
    var s := run[i];
    if s.lock.Some? {
      assert Enabled(s, s.lock.value, Proceed);
    } else if u: nat :| u < |s.pcs| && s.pcs[u].Holding? {
      assert Enabled(s, u, Unlock);
    } else if u: nat :| u < |s.pcs| && !s.pcs[u].Idle? && !s.pcs[u].Sleeping? {
      assert Enabled(s, u, Proceed);
    } else {
      NobodyLeftAsleep(run, i);
      assert false;
    }
  }
}
