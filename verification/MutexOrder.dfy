/** What a call on the mutex of kernel/mutex.c achieves: who gets the lock, who is handed it next, and who may give
    up. */
module MutexOrder {
  import opened Mutex

  /** The step of the run that last put x on the wait list, 0 if none did. */
  function Arrived(run: seq<State>, i: nat, x: nat): (k: nat)
    requires i < |run|
    ensures k <= i
  {
    if i == 0 then 0 else if x in run[i].list && x !in run[i - 1].list then i else Arrived(run, i - 1, x)
  }

  /** The list is in the order of arrival. */
  ghost predicate InOrder(run: seq<State>, i: nat, list: seq<nat>)
    requires i < |run|
  {
    forall a, b :: 0 <= a < b < |list| ==> Arrived(run, i, list[a]) < Arrived(run, i, list[b])
  }

  lemma {:induction false} WithoutInOrder(run: seq<State>, i: nat, list: seq<nat>, x: nat)
    requires i < |run| && InOrder(run, i, list)
    ensures InOrder(run, i, Without(list, x))
  {
    if list != [] {
      var rest, r := list[1..], Without(list[1..], x);
      assert forall a :: 0 <= a < |rest| ==> rest[a] == list[a + 1];
      WithoutInOrder(run, i, rest, x);
      if list[0] != x {
        forall b | 0 <= b < |r| ensures Arrived(run, i, list[0]) < Arrived(run, i, r[b]) {
          assert r[b] in rest;
          var a :| 0 <= a < |rest| && rest[a] == r[b];
          assert list[a + 1] == r[b];
        }
      }
    }
  }

  /** What a step does to the list: nothing, one entry more at its end, or one fewer. */
  ghost predicate ListStep(s: State, s': State) {
    || s'.list == s.list
    || (exists x :: x !in s.list && s'.list == s.list + [x])
    || (exists x :: s'.list == Without(s.list, x))
  }

  lemma {:induction false} StepList(s: State, t: nat, a: Action)
    requires Inv(s) && Enabled(s, t, a)
    ensures ListStep(s, Apply(s, t, a))
  {
    var s' := Apply(s, t, a);
    if a.Proceed? && s.pcs[t].Enlist? { assert t !in s.list && s'.list == s.list + [t]; }
    else if a.Proceed? && (s.pcs[t].Interrupted? || s.pcs[t].Unlist?) { assert s'.list == Without(s.list, t); }
  }

  /** Who stays on the list keeps its arrival. */
  lemma {:induction false} SameArrivals(run: seq<State>, i: nat, l: seq<nat>)
    requires i + 1 < |run| && InOrder(run, i, l) && forall x :: x in l ==> x in run[i].list
    ensures InOrder(run, i + 1, l)
  {
    forall a, b | 0 <= a < b < |l| ensures Arrived(run, i + 1, l[a]) < Arrived(run, i + 1, l[b]) {
      assert l[a] in l && l[b] in l;
    }
  }

  lemma {:induction false} Appended(run: seq<State>, i: nat, l: seq<nat>, x: nat)
    requires i < |run| && InOrder(run, i, l) && forall y :: y in l ==> Arrived(run, i, y) < Arrived(run, i, x)
    ensures InOrder(run, i, l + [x])
  {
    var l' := l + [x];
    forall a, b | 0 <= a < b < |l'| ensures Arrived(run, i, l'[a]) < Arrived(run, i, l'[b]) {
      assert l'[a] == l[a] && l[a] in l;
    }
  }

  lemma {:induction false} OrderStep(run: seq<State>, i: nat)
    requires i + 1 < |run| && InOrder(run, i, run[i].list) && ListStep(run[i], run[i + 1])
    ensures InOrder(run, i + 1, run[i + 1].list)
  {
    var l, l' := run[i].list, run[i + 1].list;
    if l' == l {
      SameArrivals(run, i, l);
    } else if x :| x !in l && l' == l + [x] {
      SameArrivals(run, i, l);
      assert Arrived(run, i + 1, x) == i + 1;
      Appended(run, i + 1, l, x);
    } else {
      var x :| l' == Without(l, x);
      WithoutInOrder(run, i, l, x);
      SameArrivals(run, i, l');
    }
  }

  lemma {:induction false} StepAt(run: seq<State>, i: nat) returns (t: nat, a: Action)
    requires IsRun(run) && i + 1 < |run|
    ensures Wf(run[i]) && Enabled(run[i], t, a) && run[i + 1] == Apply(run[i], t, a)
  {
    assert Next(run[i], run[i + 1]);
    t, a :| Enabled(run[i], t, a) && run[i + 1] == Apply(run[i], t, a);
  }

  lemma {:induction false} RunList(run: seq<State>, i: nat)
    requires IsRun(run) && i + 1 < |run|
    ensures ListStep(run[i], run[i + 1])
  {
    RunInv(run, i);
    var t, a := StepAt(run, i);
    StepList(run[i], t, a);
  }

  /** What RunList says, at every step before i. */
  ghost predicate ListSteps(run: seq<State>, i: nat)
    requires i < |run|
  {
    i > 0 ==> ListStep(run[i - 1], run[i]) && ListSteps(run, i - 1)
  }

  lemma {:induction false} RunLists(run: seq<State>, i: nat)
    requires IsRun(run) && i < |run|
    ensures ListSteps(run, i)
  {
    if i > 0 {
      var k := i - 1;
      RunLists(run, k);
      RunList(run, k);
    }
  }

  lemma {:induction false} OrderSteps(run: seq<State>, i: nat)
    requires i < |run| && run[0].list == [] && ListSteps(run, i)
    ensures InOrder(run, i, run[i].list)
  {
    if i > 0 {
      var k := i - 1;
      OrderSteps(run, k);
      OrderStep(run, k);
    }
  }

  lemma {:induction false} RunOrder(run: seq<State>, i: nat)
    requires IsRun(run) && i < |run|
    ensures InOrder(run, i, run[i].list)
  {
    RunLists(run, i);
    OrderSteps(run, i);
  }

  /** Only t itself moves t, but for the wake-up or the signal that makes a sleeper runnable. */
  lemma {:induction false} MovedBy(s: State, u: nat, a: Action, t: nat)
    requires Wf(s) && Enabled(s, u, a) && t < |s.pcs| && !s.pcs[t].Sleeping?
    requires t >= |Apply(s, u, a).pcs| || Apply(s, u, a).pcs[t] != s.pcs[t]
    ensures u == t
  {
  }

  lemma {:induction false} WhoMoved(run: seq<State>, i: nat, t: nat) returns (a: Action)
    requires IsRun(run) && i + 1 < |run| && t < |run[i].pcs| && |run[i + 1].pcs| == |run[i].pcs|
    requires !run[i].pcs[t].Sleeping? && run[i + 1].pcs[t] != run[i].pcs[t]
    ensures Wf(run[i]) && Enabled(run[i], t, a) && run[i + 1] == Apply(run[i], t, a)
  {
    var u;
    u, a := StepAt(run, i);
    MovedBy(run[i], u, a, t);
  }

  /** Hand-off in order of arrival: an unlocker that looks at the list wakes the thread that has been on it longest, and
      nobody exactly when it is empty. */
  lemma {:induction false} HandOff(run: seq<State>, i: nat, t: nat)
    requires IsRun(run) && i + 1 < |run| && t < |run[i].pcs| && |run[i + 1].pcs| == |run[i].pcs|
    requires run[i].pcs[t].PickWaiter? && run[i + 1].pcs[t] != run[i].pcs[t]
    ensures run[i + 1].pcs[t].Idle? <==> run[i].list == []
    ensures run[i].list != [] ==>
      && run[i + 1].pcs[t].Wake? && run[i + 1].pcs[t].waiter in run[i].list
      && forall x <- run[i].list :: x != run[i + 1].pcs[t].waiter ==>
        Arrived(run, i, run[i + 1].pcs[t].waiter) < Arrived(run, i, x)
  {
    RunOrder(run, i);
    var a := WhoMoved(run, i, t);
  }

  /** mutex_trylock() takes the mutex exactly when nobody owns it, and otherwise leaves everything as it was. */
  lemma {:induction false} TryLockTakes(run: seq<State>, i: nat, t: nat)
    requires IsRun(run) && i + 1 < |run| && Wf(run[i]) && Enabled(run[i], t, TryLock)
    requires run[i + 1] == Apply(run[i], t, TryLock)
    ensures run[i + 1].pcs[t].Holding? <==> forall u: nat :: u < |run[i].pcs| ==> !Owns(run[i].pcs[u])
    ensures !run[i + 1].pcs[t].Holding? ==> run[i + 1] == run[i]
  {
    RunInv(run, i);
  }

  /** mutex_lock() on a mutex nobody owns takes it at once. */
  lemma {:induction false} LockTakes(run: seq<State>, i: nat, t: nat, interruptible: bool)
    requires IsRun(run) && i + 1 < |run| && Wf(run[i]) && Enabled(run[i], t, Lock(interruptible))
    requires run[i + 1] == Apply(run[i], t, Lock(interruptible))
    ensures run[i + 1].pcs[t].Holding? <==> forall u: nat :: u < |run[i].pcs| ==> !Owns(run[i].pcs[u])
  {
    RunInv(run, i);
  }

  /** Between the call of mutex_lock() and its return. */
  predicate Locking(pc: Pc) { !pc.Idle? && !pc.Holding? && !Unlocking(pc) }

  /** mutex_lock() returns with the mutex held; only the interruptible form may give up. */
  lemma {:induction false} LockReturns(run: seq<State>, i: nat, t: nat)
    requires IsRun(run) && i + 1 < |run| && t < |run[i].pcs| && |run[i + 1].pcs| == |run[i].pcs|
    requires Locking(run[i].pcs[t]) && !Locking(run[i + 1].pcs[t])
    ensures run[i + 1].pcs[t].Holding?
      || (run[i].pcs[t].Interrupted? && run[i + 1].pcs[t].Idle? && t !in run[i + 1].list)
    ensures run[i].pcs[t].Interrupted? ==> t < |run[i].interruptible| && run[i].interruptible[t]
  {
    if run[i].pcs[t].Sleeping? {
      var u, a := StepAt(run, i);
    } else {
      var a := WhoMoved(run, i, t);
      RunInterruptible(run, i);
    }
  }

  ghost predicate OnlyInterruptible(s: State) {
    |s.pcs| == |s.interruptible| && forall t: nat :: t < |s.pcs| && s.pcs[t].Interrupted? ==> s.interruptible[t]
  }

  lemma {:induction false} InterruptibleStep(s: State, u: nat, a: Action)
    requires Wf(s) && Enabled(s, u, a) && OnlyInterruptible(s)
    ensures OnlyInterruptible(Apply(s, u, a))
  {
    WfStep(s, u, a);
  }

  lemma {:induction false} RunInterruptible(run: seq<State>, i: nat)
    requires IsRun(run) && i < |run|
    ensures OnlyInterruptible(run[i])
  {
    if i > 0 {
      var k := i - 1;
      RunInterruptible(run, k);
      var u, a := StepAt(run, k);
      InterruptibleStep(run[k], u, a);
    }
  }
}
