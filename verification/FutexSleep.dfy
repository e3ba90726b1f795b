/** Sleeping and the deferred wake-up around the futex queues (kernel/futex.c, kernel/sched/core.c): a waker
    collects the threads it unlinks on a wake queue of its own and wakes them after it has dropped the bucket locks. */
module FutexSleep {
  import opened Basics
  import opened Futex

  /** The futex state, and of each thread: whether its task state says it is to sleep, whether it is inside
      schedule(), the thread its scan has just put on a wake queue, its wake queue, and the thread wake_up_q() has taken
      off it. Tasks on wake queues of other kernel code are in other. */
  datatype Sleep = Sleep(base: State, stopped: seq<bool>, sched: seq<bool>, armed: seq<Option<nat>>,
                         queues: seq<seq<nat>>, waking: seq<Option<nat>>, other: set<nat>)

  datatype Move =
    | Base(t: nat, a: Action)
    // wake_q_add(), before the entry is unlinked
    | Arm(t: nat)
    // plist_node_empty() before schedule()
    | Test(t: nat)
    // wake_up_q(): take a task off the queue, then wake it
    | Pop(t: nat) | WakeUp(t: nat)
    // a signal, and wake queues elsewhere
    | Poke(v: nat) | AddElsewhere(v: nat) | WakeElsewhere(v: nat)

  predicate Sized(s: Sleep) {
    |s.base.pcs| == |s.stopped| == |s.sched| == |s.armed| == |s.queues| == |s.waking|
  }

  /** The entry a scan is about to unlink for waking. */
  function ToMark(s: State, t: nat): (v: Option<nat>) {
    if Local(s, t) && s.pcs[t].Scan? && ScanStep(s, t).pc.MarkDec? then Some(ScanStep(s, t).pc.v) else None
  }

  ghost predicate OnQueue(s: Sleep, v: nat) {
    v in s.other || (exists u: nat :: u < |s.queues| && v in s.queues[u])
  }

  ghost predicate Can(s: Sleep, m: Move) {
    && Sized(s)
    && match m
       case Base(t, a) =>
         && Enabled(s.base, t, a) && (!a.Step? || s.base.pcs[t].RFin? ==> s.queues[t] == [] && s.waking[t].None?)
         && (s.base.pcs[t].WSleep? ==> !s.stopped[t] || (!s.sched[t] && OffChains(s.base.chains, t)))
         && (ToMark(s.base, t).Some? ==> s.armed[t] == ToMark(s.base, t))
       case Arm(t) => t < |s.armed| && ToMark(s.base, t).Some? && s.armed[t] != ToMark(s.base, t)
       case Test(t) => t < |s.sched| && s.base.pcs[t].WSleep? && !OffChains(s.base.chains, t)
       case Pop(t) => t < |s.queues| && (s.base.pcs[t].Idle? || s.base.pcs[t].RFin?) && s.queues[t] != []
           && s.waking[t].None?
       case WakeUp(t) => t < |s.waking| && s.waking[t].Some? && s.waking[t].value < |s.stopped|
       case Poke(v) => v < |s.stopped|
       case AddElsewhere(v) => v < |s.stopped| && !OnQueue(s, v)
       case WakeElsewhere(v) => v < |s.stopped| && v in s.other
  }

  /** What a step of the futex code does to a task state: set_current_state() before queue_me(), running again after
      schedule(). */
  function Stopped(s: Sleep, t: nat): bool
    requires Sized(s) && t < |s.stopped|
  {
    if s.base.pcs[t].WQueue? then true else if s.base.pcs[t].WSleep? then false else s.stopped[t]
  }

  ghost function Apply(s: Sleep, m: Move): Sleep
    requires Can(s, m) && (m.Base? ==> UpdateWf(s.base, m.t, Plan(s.base, m.t, m.a)))
  {
    match m
    case Base(t, a) =>
      s.(base := Do(s.base, t, Plan(s.base, t, a)), stopped := s.stopped[t := Stopped(s, t)],
          sched := s.sched[t := false],
         armed := s.armed[t := None])
    case Arm(t) =>
      var v := ToMark(s.base, t).value;
      s.(armed := s.armed[t := Some(v)], queues := if OnQueue(s, v) then s.queues else s.queues[t := s.queues[t] + [v]])
    case Test(t) => s.(sched := s.sched[t := true])
    case Pop(t) => s.(waking := s.waking[t := Some(s.queues[t][0])], queues := s.queues[t := s.queues[t][1..]])
    case WakeUp(t) => s.(stopped := s.stopped[s.waking[t].value := false], waking := s.waking[t := None])
    case Poke(v) => s.(stopped := s.stopped[v := false])
    case AddElsewhere(v) => s.(other := s.other + {v})
    case WakeElsewhere(v) => s.(stopped := s.stopped[v := false], other := s.other - {v})
  }

  // ---- the invariant ----

  /** v runs, or somebody still has its wake-up to do. */
  ghost predicate Woken(s: Sleep, v: nat) {
    || (v < |s.stopped| && !s.stopped[v])
    || OnQueue(s, v)
    || (exists u: nat :: u < |s.waking| && s.waking[u] == Some(v))
  }

  ghost predicate MarkInv(s: Sleep) {
    forall u: nat :: u < |s.base.pcs| && Marking(s.base.pcs[u]) ==> Woken(s, s.base.pcs[u].v)
  }

  ghost predicate ArmedOk(s: Sleep, u: nat, v: nat)
    requires u < |s.base.pcs|
  {
    s.base.pcs[u].Scan? && OnChain(s.base.chains, Src(s.base.pcs[u].j), v) && Woken(s, v)
  }

  ghost predicate ArmInv(s: Sleep)
    requires Sized(s)
  {
    forall u: nat :: u < |s.armed| && s.armed[u].Some? ==> ArmedOk(s, u, s.armed[u].value)
  }

  /** A queued thread whose lock_ptr was cleared is awake or about to be woken. */
  ghost predicate NullInv(s: Sleep) {
    forall v: nat :: v < |s.base.pcs| == |s.base.ptrs| && Queued(s.base.pcs[v]) && s.base.ptrs[v].None? ==> Woken(s, v)
  }

  ghost predicate InRange(s: Sleep) {
    && (forall u: nat, i: nat :: u < |s.queues| && i < |s.queues[u]| ==> s.queues[u][i] < |s.stopped|)
    && (forall u: nat :: u < |s.waking| && s.waking[u].Some? ==> s.waking[u].value < |s.stopped|)
  }

  ghost predicate SleepInv(s: Sleep) {
    Sized(s) && Inv(s.base) && InRange(s) && MarkInv(s) && ArmInv(s) && NullInv(s)
  }

  // ---- steps of the futex code ----

  /** How a step changes marks, lock pointers and the queued state. */
  ghost predicate PlanOk(pc: Pc, u: Update) {
    && (u.ptr.Some? && u.ptr.value.1.None? ==> pc.MarkNull? && u.ptr.value.0 == pc.v)
    && (Marking(u.pc) ==> (Marking(pc) && u.pc.v == pc.v) || (pc.Scan? && u.pc.MarkDec?))
    && (Queued(u.pc) && !Queued(pc) ==> pc.WQueue?)
    && (pc.WQueue? ==> u.ptr.None?)
  }

  lemma {:induction false} PlanStart(s: State, t: nat, a: Action)
    requires Local(s, t) && CanStart(s, t, a)
    ensures PlanOk(s.pcs[t], Start(s, t, a))
  {}

  lemma {:induction false} PlanWaiter(s: State, t: nat, c: nat)
    requires Local(s, t) && CanStep(s, t, c) && Waiting(s.pcs[t])
    ensures PlanOk(s.pcs[t], WaiterStep(s, t, c))
  {}

  lemma {:induction false} PlanScan(s: State, t: nat)
    requires Local(s, t) && s.pcs[t].Scan?
    ensures PlanOk(s.pcs[t], ScanStep(s, t))
  {}

  lemma {:induction false} PlanWaker(s: State, t: nat, c: nat)
    requires Local(s, t) && CanStep(s, t, c) && !Waiting(s.pcs[t]) && !s.pcs[t].Scan?
    ensures PlanOk(s.pcs[t], WakerStep(s, t, c))
  {}

  lemma {:induction false} Planned(s: State, t: nat, a: Action)
    requires Enabled(s, t, a)
    ensures PlanOk(s.pcs[t], Plan(s, t, a))
  {
    if !a.Step? { PlanStart(s, t, a); }
    else if Waiting(s.pcs[t]) { PlanWaiter(s, t, a.c); }
    else if s.pcs[t].Scan? { PlanScan(s, t); }
    else { PlanWaker(s, t, a.c); }
  }

  /** A step of t takes nobody's wake-up away but its own, when it is about to sleep. */
  lemma {:induction false} WokenBase(s: Sleep, t: nat, a: Action, v: nat)
    requires Can(s, Base(t, a)) && UpdateWf(s.base, t, Plan(s.base, t, a)) && Woken(s, v)
      && (s.base.pcs[t].WQueue? ==> v != t)
    ensures Woken(Apply(s, Base(t, a)), v)
  {
    var s' := Apply(s, Base(t, a));
    if OnQueue(s, v) { assert OnQueue(s', v); }
    else if u: nat :| u < |s.waking| && s.waking[u] == Some(v) { assert s'.waking[u] == Some(v); }
  }

  /** The entry a scan unlinks for waking was put on a wake queue before. */
  lemma {:induction false} NewMark(s: Sleep, t: nat, a: Action)
    requires SleepInv(s) && Can(s, Base(t, a)) && s.base.pcs[t].Scan? && Plan(s.base, t, a).pc.MarkDec?
    ensures Woken(s, Plan(s.base, t, a).pc.v)
  {
    assert ToMark(s.base, t) == Some(Plan(s.base, t, a).pc.v);
    assert ArmedOk(s, t, s.armed[t].value);
  }

  /** The entry a waker has in hand belongs to a queued thread. */
  lemma {:induction false} MarkedQueued(s: State, u: nat)
    requires Inv(s) && u < |s.pcs| && Marking(s.pcs[u])
    ensures s.pcs[u].v < |s.pcs| && Queued(s.pcs[s.pcs[u].v])
  {
    assert InHand(s.pcs[u], Src(s.pcs[u].j), s.pcs[u].v);
    assert HeldOk(s, Src(s.pcs[u].j), s.pcs[u].v);
  }

  lemma {:induction false} BaseMark(s: Sleep, t: nat, a: Action)
    requires SleepInv(s) && Can(s, Base(t, a)) && UpdateWf(s.base, t, Plan(s.base, t, a))
      && PlanOk(s.base.pcs[t], Plan(s.base, t, a))
    ensures MarkInv(Apply(s, Base(t, a)))
  {
    var s' := Apply(s, Base(t, a));
    forall u: nat | u < |s'.base.pcs| && Marking(s'.base.pcs[u]) ensures Woken(s', s'.base.pcs[u].v) {
      if u == t && s.base.pcs[t].Scan? { NewMark(s, t, a); } else { MarkedQueued(s.base, u); }
      WokenBase(s, t, a, s'.base.pcs[u].v);
    }
  }

  lemma {:induction false} BaseArm(s: Sleep, t: nat, a: Action)
    requires SleepInv(s) && Can(s, Base(t, a)) && UpdateWf(s.base, t, Plan(s.base, t, a))
      && GuardOk(s.base.pcs[t], Plan(s.base, t, a))
    ensures ArmInv(Apply(s, Base(t, a)))
  {
    var s' := Apply(s, Base(t, a));
    forall u: nat | u < |s'.armed| && s'.armed[u].Some? ensures ArmedOk(s', u, s'.armed[u].value) {
      var v := s.armed[u].value;
      assert u != t && ArmedOk(s, u, v);
      var b := Src(s.base.pcs[u].j);
      ChainKept(s.base, t, Plan(s.base, t, a), u, b);
      assert ChainedOk(s.base, b, v);
      WokenBase(s, t, a, v);
    }
  }

  lemma {:induction false} BaseNull(s: Sleep, t: nat, a: Action)
    requires SleepInv(s) && Can(s, Base(t, a)) && UpdateWf(s.base, t, Plan(s.base, t, a))
      && PlanOk(s.base.pcs[t], Plan(s.base, t, a))
    ensures NullInv(Apply(s, Base(t, a)))
  {
    var s', u := Apply(s, Base(t, a)), Plan(s.base, t, a);
    forall v: nat | v < |s'.base.pcs| == |s'.base.ptrs| && Queued(s'.base.pcs[v]) && s'.base.ptrs[v].None?
      ensures Woken(s', v) {
      if s.base.ptrs[v].Some? {
        assert u.ptr == Some((v, None));
        assert Woken(s, v);
        WokenBase(s, t, a, v);
      } else {
        assert Setup(s.base.pcs[v]) ==> s.base.ptrs[v] == Some(s.base.pcs[v].b);
        assert Queued(s.base.pcs[v]);
        WokenBase(s, t, a, v);
      }
    }
  }

  lemma {:induction false} BaseStep(s: Sleep, t: nat, a: Action)
    requires SleepInv(s) && Can(s, Base(t, a))
    ensures UpdateWf(s.base, t, Plan(s.base, t, a)) && SleepInv(Apply(s, Base(t, a)))
  {
    InvStep(s.base, t, a);
    Planned(s.base, t, a);
    Guarding(s.base, t, a);
    BaseMark(s, t, a);
    BaseArm(s, t, a);
    BaseNull(s, t, a);
  }

  // ---- steps of the scheduler side ----

  /** Adding to a wake queue, taking off it and waking leave every wake-up done or still to do. */
  lemma {:induction false} WokenOther(s: Sleep, m: Move, v: nat)
    requires Can(s, m) && !m.Base? && Woken(s, v)
    ensures Woken(Apply(s, m), v)
  {
    var s' := Apply(s, m);
    if v in s.other {
      assert v in s'.other || !s'.stopped[v];
    } else if u: nat :| u < |s.queues| && v in s.queues[u] {
      assert m.Pop? && u == m.t && v !in s'.queues[u] ==> s'.waking[u] == Some(v);
      assert v in s'.queues[u] || s'.waking[u] == Some(v);
    } else if u: nat :| u < |s.waking| && s.waking[u] == Some(v) {
      assert s'.waking[u] == Some(v) || !s'.stopped[v];
    }
  }

  /** The thread wake_q_add() was called for is on a wake queue, whoever put it there. */
  lemma {:induction false} Armed(s: Sleep, t: nat)
    requires SleepInv(s) && Can(s, Arm(t))
    ensures ArmedOk(Apply(s, Arm(t)), t, ToMark(s.base, t).value) && ToMark(s.base, t).value < |s.stopped|
  {
    var s', v, b := Apply(s, Arm(t)), ToMark(s.base, t).value, Src(s.base.pcs[t].j);
    assert v in s.base.chains[b];
    assert ChainedOk(s.base, b, v);
    if !OnQueue(s, v) { assert v in s'.queues[t]; }
  }

  lemma {:induction false} OtherArm(s: Sleep, m: Move)
    requires SleepInv(s) && Can(s, m) && !m.Base?
    ensures ArmInv(Apply(s, m))
  {
    var s' := Apply(s, m);
    forall u: nat | u < |s'.armed| && s'.armed[u].Some? ensures ArmedOk(s', u, s'.armed[u].value) {
      if m.Arm? && u == m.t {
        Armed(s, u);
      } else {
        assert ArmedOk(s, u, s.armed[u].value);
        WokenOther(s, m, s.armed[u].value);
      }
    }
  }

  lemma {:induction false} OtherRange(s: Sleep, m: Move)
    requires SleepInv(s) && Can(s, m) && !m.Base?
    ensures InRange(Apply(s, m))
  {
    if m.Arm? { Armed(s, m.t); }
    if m.Pop? {
      var s' := Apply(s, m);
      forall u: nat, i: nat | u < |s'.queues| && i < |s'.queues[u]| ensures s'.queues[u][i] < |s'.stopped| {
        assert u == m.t ==> s'.queues[u][i] == s.queues[u][i + 1];
      }
    }
  }

  lemma {:induction false} OtherStep(s: Sleep, m: Move)
    requires SleepInv(s) && Can(s, m) && !m.Base?
    ensures SleepInv(Apply(s, m))
  {
    var s' := Apply(s, m);
    OtherRange(s, m);
    OtherArm(s, m);
    forall u: nat | u < |s'.base.pcs| && Marking(s'.base.pcs[u]) ensures Woken(s', s'.base.pcs[u].v) {
      WokenOther(s, m, s.base.pcs[u].v);
    }
    forall v: nat | v < |s'.base.pcs| == |s'.base.ptrs| && Queued(s'.base.pcs[v]) && s'.base.ptrs[v].None?
      ensures Woken(s', v) {
      WokenOther(s, m, v);
    }
  }

  // ---- whole runs ----

  ghost predicate SleepInit(s: Sleep) {
    && Sized(s) && Init(s.base) && s.other == {}
    && (forall u: nat :: u < |s.queues| ==> s.queues[u] == [])
    && (forall u: nat :: u < |s.armed| ==> s.armed[u].None? && s.waking[u].None?)
  }

  ghost predicate Moved(s: Sleep, s': Sleep, m: Move) {
    Can(s, m) && (m.Base? ==> UpdateWf(s.base, m.t, Plan(s.base, m.t, m.a))) && s' == Apply(s, m)
  }

  ghost predicate SleepNext(s: Sleep, s': Sleep) { exists m: Move :: Moved(s, s', m) }

  ghost predicate IsSleepRun(run: seq<Sleep>) {
    && |run| > 0 && SleepInit(run[0])
    && forall i :: 0 <= i < |run| - 1 ==> SleepNext(run[i], run[i + 1])
  }

  lemma {:induction false} NextSleepInv(s: Sleep, s': Sleep)
    requires SleepInv(s) && SleepNext(s, s')
    ensures SleepInv(s')
  {
    var m: Move :| Moved(s, s', m);
    if m.Base? { BaseStep(s, m.t, m.a); } else { OtherStep(s, m); }
  }

  lemma {:induction false} SleepRunInv(run: seq<Sleep>, i: nat)
    requires IsSleepRun(run) && i < |run|
    ensures SleepInv(run[i])
  {
    if i == 0 {
      InitInv(run[0].base);
    } else {
      SleepRunInv(run, i - 1);
      assert SleepNext(run[i - 1], run[i - 1 + 1]);
      NextSleepInv(run[i - 1], run[i]);
    }
  }

  /** A waiter that was taken off its futex, so that its lock_ptr is null, runs or is on a wake queue that somebody
      still has to serve. */
  lemma {:induction false} TakenIsWoken(run: seq<Sleep>, i: nat, v: nat)
    requires IsSleepRun(run) && i < |run| && v < |run[i].base.pcs|
    requires Queued(run[i].base.pcs[v]) && v < |run[i].base.ptrs| && run[i].base.ptrs[v].None?
    ensures Woken(run[i], v)
  {
    SleepRunInv(run, i);
  }

  /** Every thread is outside the futex code or asleep in it, and every wake queue has been served. */
  ghost predicate Quiet(s: Sleep) {
    && Sized(s) && s.other == {}
    && forall u: nat :: u < |s.base.pcs| ==>
      && s.queues[u] == [] && s.waking[u].None?
      && (s.base.pcs[u].Idle? || (s.base.pcs[u].WSleep? && s.stopped[u] && s.sched[u]))
  }

  /** In a quiet state nobody has an entry in hand. */
  lemma {:induction false} QuietPtr(s: Sleep, v: nat)
    requires SleepInv(s) && Quiet(s) && v < |s.base.pcs| && s.base.pcs[v].WSleep?
    ensures s.base.ptrs[v].Some? && OnChain(s.base.chains, s.base.ptrs[v].value, v)
  {
    assert !Woken(s, v);
    assert PtrOk(s.base, s.base.ptrs[v].value, v);
  }

  /** When the wakers have finished, every thread still asleep is on the chain of the bucket its lock_ptr names, and
      unless a requeue moved it its futex word still holds the value it waits on: nobody sleeps that a waker has
      taken. */
  lemma {:induction false} SleepersAreQueued(run: seq<Sleep>, i: nat, v: nat)
    requires IsSleepRun(run) && i < |run| && Quiet(run[i]) && v < |run[i].base.pcs| && run[i].base.pcs[v].WSleep?
    ensures v < |run[i].base.ptrs| == |run[i].base.qs| && run[i].base.ptrs[v].Some?
    ensures OnChain(run[i].base.chains, run[i].base.ptrs[v].value, v)
    ensures !run[i].base.qs[v].moved ==> !Stale(run[i].base, v)
  {
    SleepRunInv(run, i);
    var s := run[i];
    QuietPtr(s, v);
    assert !WakerPending(s.base, s.base.qs[v].key, v);
  }
}
