/** What one call on the signals of a thread group achieves, said without the functions that compute it
    (kernel/signal.c). */
module SignalEffects {
  import opened Basics
  import opened Signal

  // ---- taking a signal ----

  /** Entry k is the oldest of sig. */
  predicate OldestAt(list: seq<Info>, sig: int, k: nat) {
    k < |list| && list[k].signo == sig && forall i :: 0 <= i < k ==> list[i].signo != sig
  }

  predicate HasEntry(list: seq<Info>, sig: int) { exists i :: 0 <= i < |list| && list[i].signo == sig }

  /** The oldest entry of sig left the queue, if there was one, and info is it. No other entry and no other bit
      changed, and the bit of sig stays exactly while an entry remains. */
  ghost predicate OneTaken(p: Pending, p': Pending, sig: int, info: Option<Info>) {
    && (HasEntry(p.list, sig) ==>
          exists k: nat :: OldestAt(p.list, sig,
              k) && info == Some(p.list[k]) && p'.list == p.list[..k] + p.list[k + 1..])
    && (!HasEntry(p.list, sig) ==> info == None && p'.list == p.list)
    && (forall x :: x != sig ==> (x in p'.signal <==> x in p.signal))
    && (sig in p'.signal <==> HasEntry(p'.list, sig))
  }

  /** Synchronous signals go first, then the lowest number. */
  predicate Best(x: SigSet, sig: int) {
    && sig in x
    && (forall y <- x ::
      (sig in SYNCHRONOUS || y !in SYNCHRONOUS) && ((sig in SYNCHRONOUS && y !in SYNCHRONOUS) || sig <= y))
  }

  lemma {:induction false} QueuedEntry(list: seq<Info>, sig: int)
    ensures Queued(list, sig) > 0 <==> HasEntry(list, sig)
  {
    if list != [] {
      QueuedEntry(list[1..], sig);
      assert forall i :: 0 < i < |list| ==> list[i] == list[1..][i - 1];
      if HasEntry(list[1..], sig) {
        var i :| 0 <= i < |list| - 1 && list[1..][i].signo == sig;
        assert list[i + 1].signo == sig;
      }
    }
  }

  lemma {:induction false} Oldest(list: seq<Info>, sig: int) returns (k: nat)
    requires HasEntry(list, sig)
    ensures OldestAt(list, sig, k) && WithoutFirst(list, sig) == list[..k] + list[k + 1..]
  {
    if list[0].signo == sig {
      k := 0;
      assert list[..0] + list[1..] == list[1..];
    } else {
      var rest := list[1..];
      EntryBehind(list, sig);
      var j := Oldest(rest, sig);
      OldestBehind(list, sig, j);
      assert WithoutFirst(list, sig) == [list[0]] + WithoutFirst(rest, sig);
      k := j + 1;
    }
  }

  lemma {:induction false} EntryBehind(list: seq<Info>, sig: int)
    requires list != [] && list[0].signo != sig
    ensures HasEntry(list[1..], sig) <==> HasEntry(list, sig)
  {
    if i :| 0 <= i < |list| && list[i].signo == sig {
      assert list[1..][i - 1].signo == sig;
    }
    if i :| 0 <= i < |list| - 1 && list[1..][i].signo == sig {
      assert list[i + 1].signo == sig;
    }
  }

  lemma {:induction false} OldestBehind(list: seq<Info>, sig: int, j: nat)
    requires list != [] && list[0].signo != sig && OldestAt(list[1..], sig, j)
    ensures OldestAt(list, sig, j + 1)
    ensures [list[0]] + (list[1..][..j] + list[1..][j + 1..]) == list[..j + 1] + list[j + 2..]
  {
    forall i | 0 <= i < j + 1 ensures list[i].signo != sig {
      if i > 0 { assert list[i] == list[1..][i - 1]; }
    }
    assert list[j + 1] == list[1..][j];
    assert list[1..][..j] == list[1..j + 1] && list[1..][j + 1..] == list[j + 2..]
      && [list[0]] + list[1..j + 1] == list[..j + 1];
  }

  lemma {:induction false} NoEntry(list: seq<Info>, sig: int)
    requires !HasEntry(list, sig)
    ensures WithoutFirst(list, sig) == list
  {
    if list != [] {
      assert list[0].signo != sig;
      EntryBehind(list, sig);
      NoEntry(list[1..], sig);
    }
  }

  /** The info collect_signal() hands out. */
  ghost function Handed(list: seq<Info>, sig: int): Option<Info> {
    if list == [] then None else if list[0].signo == sig then Some(list[0]) else Handed(list[1..], sig)
  }

  lemma {:induction false} HandedIs(list: seq<Info>, sig: int)
    ensures !HasEntry(list, sig) ==> Handed(list, sig) == None
    ensures forall k: nat :: OldestAt(list, sig, k) ==> Handed(list, sig) == Some(list[k])
  {
    if list != [] && list[0].signo != sig {
      HandedIs(list[1..], sig);
      forall k: nat | OldestAt(list, sig, k) ensures Handed(list, sig) == Some(list[k]) {
        assert list[k] == list[1..][k - 1];
        assert forall i :: 0 <= i < k - 1 ==> list[1..][i] == list[i + 1];
        assert OldestAt(list[1..], sig, k - 1);
      }
      if HasEntry(list[1..], sig) {
        var i :| 0 <= i < |list| - 1 && list[1..][i].signo == sig;
        assert list[i + 1].signo == sig;
      }
    }
  }

  lemma {:induction false} CollectTakes(p: Pending, sig: int)
    requires PendOk(p) && sig in p.signal
    ensures OneTaken(p, Collect(p, sig), sig, Handed(p.list, sig))
  {
    var p' := Collect(p, sig);
    CollectOk(p, sig);
    QueuedEntry(p'.list, sig);
    HandedIs(p.list, sig);
    assert forall x :: x != sig ==> (x in p'.signal - {sig} <==> x in p.signal - {sig});
    if HasEntry(p.list, sig) {
      var k := Oldest(p.list, sig);
    } else {
      NoEntry(p.list, sig);
    }
  }

  // ---- sending ----

  /** The bit of sig is set, and nothing else but SIGKILL joins; the queue grows by this entry at its end unless the
      signal is a standard one already pending, or is forced, or finds no memory. */
  ghost predicate OneSent(p: Pending, p': Pending, sig: int, payload: int, origin: Origin, memory: bool) {
    && sig in p'.signal && (forall x :: x != sig && x != SIGKILL ==> (x in p'.signal <==> x in p.signal))
      && p.signal <= p'.signal
    && p'.list == if (sig < SIGRTMIN && sig in p.signal) || origin.Forced? || !memory then p.list
      else p.list + [Info(sig, payload)]
  }

  /** Nothing but a SIGKILL bit. */
  ghost predicate Untouched(p: Pending, p': Pending) {
    p'.list == p.list && p.signal <= p'.signal && forall x :: x != SIGKILL ==> (x in p'.signal <==> x in p.signal)
  }

  lemma {:induction false} DeliverKeeps(g: Group, fatal: bool, sig: int, t: Tid, x: Tid)
    requires Wf(g) && x in g.priv
    ensures x in Deliver(g, fatal, sig, t).priv && Untouched(g.priv[x], Deliver(g, fatal, sig, t).priv[x])
    ensures Deliver(g, fatal, sig, t).shared == g.shared
  {
  }

  lemma {:induction false} CompleteKeeps(g: Group, running: set<Tid>, fatal: bool, sig: int, p: Tid, group: bool,
                            x: Tid)
    requires Wf(g) && p in g.ring && x in g.priv
    ensures var g' := Complete(g, running, fatal, sig, p, group);
      x in g'.priv && Untouched(g.priv[x], g'.priv[x]) && g'.shared == g.shared
  {
    if WantsSignal(g, running, sig, p) {
      DeliverKeeps(g, fatal, sig, p, x);
    } else if group && |g.ring| > 1 {
      var r := FindTarget(g, running, sig, From(g.ring, g.target));
      if r != [] { DeliverKeeps(g.(target := r[0]), fatal, sig, r[0], x); }
    }
  }

  /** What send_signal() leaves in the queues, x standing for any thread. */
  lemma {:induction false} SendEffect(g: Group, running: set<Tid>, fatal: bool, sig: int, payload: int, origin: Origin,
                                      memory: bool, t: Tid, group: bool, x: Tid)
    requires Wf(g) && t in g.ring && x in g.ring
    ensures var r := Send(g, running, fatal, sig, payload, origin, memory, t, group);
      && (r.Eagain? <==> sig >= SIGRTMIN && !memory && origin.User? && origin.rtCode)
      && (r.Sent? ==>
            && x in r.g.priv
            && (if group then OneSent(g.shared, r.g.shared, sig, payload, origin, memory) else r.g.shared == g.shared)
            && (if !group && x == t then OneSent(g.priv[t], r.g.priv[t], sig, payload, origin, memory)
                else Untouched(g.priv[x], r.g.priv[x])))
  {
    var p := Pend(g, t, group);
    if !(sig < SIGRTMIN && sig in p.signal) {
      var list := if origin.Forced? || !memory then p.list else p.list + [Info(sig, payload)];
      var g1 := WithPend(g, t, group, Pending(p.signal + {sig}, list));
      CompleteKeeps(g1, running, fatal, sig, t, group, x);
    }
  }

  /** The set addressed has the signal, and nothing else changes in the queues but a SIGKILL that takes the group
      down. */
  ghost predicate Sends(g: Group, g': Group, sig: int, payload: int, origin: Origin, memory: bool, t: Tid, group: bool)
    requires Wf(g) && t in g.ring
  {
    && (forall x <- g.ring :: x in g'.priv && (group || x != t ==> Untouched(g.priv[x], g'.priv[x])))
    && (group ==> OneSent(g.shared, g'.shared, sig, payload, origin, memory))
    && (!group ==> g'.shared == g.shared && OneSent(g.priv[t], g'.priv[t], sig, payload, origin, memory))
  }

  lemma {:induction false} SentEffect(g: Group, running: set<Tid>, fatal: bool, sig: int, payload: int, origin: Origin,
                                      memory: bool, t: Tid, group: bool)
    requires Wf(g) && t in g.ring
    ensures var r := Send(g, running, fatal, sig, payload, origin, memory, t, group);
      && (r.Eagain? <==> sig >= SIGRTMIN && !memory && origin.User? && origin.rtCode)
      && (r.Sent? ==> Sends(g, r.g, sig, payload, origin, memory, t, group))
  {
    var r := Send(g, running, fatal, sig, payload, origin, memory, t, group);
    SendEffect(g, running, fatal, sig, payload, origin, memory, t, group, t);
    if r.Sent? {
      forall x <- g.ring ensures x in r.g.priv && (group || x != t ==> Untouched(g.priv[x], r.g.priv[x])) {
        SendEffect(g, running, fatal, sig, payload, origin, memory, t, group, x);
      }
    }
  }

  /** dequeue_signal(): from the private set if it has an unmasked signal, else from the shared one; 0 and no change
      when neither has. */
  ghost predicate Dequeues(p: Pending, shared: Pending, mask: SigSet, sig: int, info: Option<Info>, p': Pending,
                           shared': Pending) {
    && (sig == 0 <==> forall x :: x in p.signal || x in shared.signal ==> x in mask)
    && (sig == 0 ==> p' == p && shared' == shared && info == None)
    && (sig != 0 && sig in p.signal - mask ==>
      Best(p.signal - mask, sig) && OneTaken(p, p', sig, info) && shared' == shared)
    && (sig != 0 && sig !in p.signal - mask ==>
          && (forall x <- p.signal :: x in mask) && Best(shared.signal - mask, sig)
            && OneTaken(shared, shared', sig, info)
          && p' == p)
  }

  lemma {:induction false} BestChoice(p: Pending, mask: SigSet)
    requires InRange(p.signal)
    ensures NextSignal(p, mask) == 0 <==> forall x <- p.signal :: x in mask
    ensures NextSignal(p, mask) != 0 ==> Best(p.signal - mask, NextSignal(p, mask))
  {
    var u := p.signal - mask;
    if forall x <- p.signal :: x in mask {
      if u != {} { var x := SomeIn(u); }
    } else {
      var x :| x in p.signal && x !in mask;
      assert x in u;
    }
  }

  /** Calling next_signal() and collect_signal() on the one set and then on the other does that. */
  lemma {:induction false} DequeueEffect(p: Pending, shared: Pending, mask: SigSet, sig: int, info: Option<Info>,
                            p': Pending, shared': Pending)
    requires PendOk(p) && PendOk(shared)
      && sig == (if NextSignal(p, mask) != 0 then NextSignal(p, mask) else NextSignal(shared, mask))
    requires p' == if NextSignal(p, mask) != 0 then Collect(p, sig) else p
    requires shared' == if NextSignal(p, mask) == 0 && sig != 0 then Collect(shared, sig) else shared
    requires info == if sig == 0 then None else Handed(if NextSignal(p, mask) != 0 then p.list else shared.list, sig)
    ensures Dequeues(p, shared, mask, sig, info, p', shared')
  {
    BestChoice(p, mask);
    BestChoice(shared, mask);
    if NextSignal(p, mask) != 0 {
      CollectTakes(p, sig);
    } else if sig != 0 {
      CollectTakes(shared, sig);
    }
  }

  // ---- who is told ----

  /** Thread v is told of the signal: it lives, does not block sig, and unless the signal is SIGKILL it runs or had no
      signal pending. */
  predicate MayBeTold(g: Group, running: set<Tid>, sig: int, v: Tid) {
    v in g.ring && v in g.blocked && v !in g.exiting && sig !in g.blocked[v]
        && (sig == SIGKILL || v in running || v !in g.flagged)
  }

  /** v is the first thread from curr_target on that may be told. */
  ghost predicate FirstAsked(g: Group, running: set<Tid>, sig: int, v: Tid)
    requires g.target in g.ring
  {
    exists j: nat ::
      && j < |From(g.ring, g.target)| && From(g.ring, g.target)[j] == v
      && forall i :: 0 <= i < j ==> !MayBeTold(g, running, sig, From(g.ring, g.target)[i])
  }

  /** Exactly one thread is flagged, v, and with a SIGKILL that starts a group exit all are killed. */
  ghost predicate Told(g: Group, g': Group, fatal: bool, sig: int, v: Tid) {
    if fatal && sig == SIGKILL && !g.groupExit then
      g'.groupExit && forall x <- g.ring :: x in g'.flagged && x in g'.priv && SIGKILL in g'.priv[x].signal
    else
      g' == g.(flagged := g.flagged + {v}, target := g'.target)
  }

  /** The search of complete_signal() stops at the first thread that may be told. */
  lemma {:induction false} FoundFirst(g: Group, running: set<Tid>, sig: int, walk: seq<Tid>) returns (j: nat)
    requires (forall t <- walk :: t in g.blocked && t in g.ring) && FindTarget(g, running, sig, walk) != []
    ensures j < |walk| && FindTarget(g, running, sig, walk) == [walk[j]]
    ensures MayBeTold(g, running, sig, walk[j]) && forall i :: 0 <= i < j ==> !MayBeTold(g, running, sig, walk[i])
  {
    if WantsSignal(g, running, sig, walk[0]) {
      j := 0;
    } else {
      var k := FoundFirst(g, running, sig, walk[1..]);
      j := k + 1;
      assert forall i :: 0 < i < |walk| ==> walk[i] == walk[1..][i - 1];
    }
  }

  /** The addressed thread is told if it may be; else, for a group signal, the first of the ring from curr_target on
      that may, which becomes curr_target; nobody is told only if nobody may. */
  ghost predicate Completes(g: Group, g': Group, running: set<Tid>, fatal: bool, sig: int, p: Tid, group: bool,
                            v: Option<Tid>)
    requires g.target in g.ring
  {
    && (v.None? ==> g' == g)
    && (v.Some? ==> MayBeTold(g, running, sig, v.value) && Told(g, g', fatal, sig, v.value))
    && (v.Some? ==> g'.target == if v.value == p then g.target else v.value)
    && (MayBeTold(g, running, sig, p) ==> v == Some(p))
    && (!group && v.Some? ==> v == Some(p))
    && (v.None? && group ==> forall u <- g.ring :: !MayBeTold(g, running, sig, u))
    && (v.Some? && v.value != p ==> FirstAsked(g, running, sig, v.value))
  }

  lemma {:induction false} CompleteEffect(g: Group, running: set<Tid>, fatal: bool, sig: int, p: Tid, group: bool)
    returns (v: Option<Tid>)
    requires Wf(g) && p in g.ring
    ensures Completes(g, Complete(g, running, fatal, sig, p, group), running, fatal, sig, p, group, v)
  {
    v := None;
    if WantsSignal(g, running, sig, p) {
      v := Some(p);
    } else if group && |g.ring| > 1 {
      var walk := From(g.ring, g.target);
      if FindTarget(g, running, sig, walk) != [] {
        var j := FoundFirst(g, running, sig, walk);
        v := Some(walk[j]);
      } else {
        forall u <- g.ring ensures !MayBeTold(g, running, sig, u) { FromAll(g.ring, g.target, u); }
      }
    } else if group {
      assert g.ring == [g.ring[0]];
    }
  }

  // ---- flags ----

  /** Something pending is not blocked. */
  ghost predicate Deliverable(priv: SigSet, shared: SigSet, blocked: SigSet) {
    exists x :: (x in priv || x in shared) && x !in blocked
  }

  /** recalc_sigpending(): flagged exactly when something pending is not blocked, and nobody else is touched. */
  lemma {:induction false} RecalcEffect(g: Group, t: Tid)
    requires t in g.priv && t in g.blocked
    ensures t in Recalc(g, t).flagged <==> Deliverable(g.priv[t].signal, g.shared.signal, g.blocked[t])
    ensures forall u: Tid :: u != t ==> (u in Recalc(g, t).flagged <==> u in g.flagged)
  {
    var a, b := g.priv[t].signal - g.blocked[t], g.shared.signal - g.blocked[t];
    if x :| (x in g.priv[t].signal || x in g.shared.signal) && x !in g.blocked[t] {
      assert x in a || x in b;
    }
    if a != {} {
      var x := SomeIn(a);
    } else if b != {} {
      var x := SomeIn(b);
    }
  }

  /** Thread walk[k] is the first live one of the walk that does not block x. */
  predicate FirstTaker(g: Group, walk: seq<Tid>, k: nat, x: int)
    requires forall t <- walk :: t in g.blocked
  {
    k < |walk| && walk[k] !in g.exiting && x !in g.blocked[walk[k]]
    && forall i :: 0 <= i < k ==> walk[i] in g.exiting || x in g.blocked[walk[i]]
  }

  lemma {:induction false} TakerBehind(g: Group, walk: seq<Tid>, k: nat, x: int)
    requires walk != [] && forall t <- walk :: t in g.blocked
    ensures FirstTaker(g, walk, k + 1, x) <==>
      (walk[0] in g.exiting || x in g.blocked[walk[0]]) && FirstTaker(g, walk[1..], k, x)
  {
    var rest := walk[1..];
    assert forall i :: 0 <= i < |rest| ==> rest[i] == walk[i + 1];
    if (walk[0] in g.exiting || x in g.blocked[walk[0]]) && FirstTaker(g, rest, k, x) {
      forall i | 0 <= i < k + 1 ensures walk[i] in g.exiting || x in g.blocked[walk[i]] {
        if i > 0 { assert walk[i] == rest[i - 1]; }
      }
    }
    if FirstTaker(g, walk, k + 1, x) {
      forall i | 0 <= i < k ensures rest[i] in g.exiting || x in g.blocked[rest[i]] { assert rest[i] == walk[i + 1]; }
    }
  }

  /** A thread retarget_shared_pending() flags is the first to be able to take one of the signals. */
  lemma {:induction false} FlaggedTakes(g: Group, which: SigSet, walk: seq<Tid>, u: Tid) returns (k: nat, x: int)
    requires (forall t <- walk :: t in g.blocked) && u in RetargetWalk(g, which, walk)
    ensures x in which && FirstTaker(g, walk, k, x) && walk[k] == u
  {
    var t := walk[0];
    var can := which - g.blocked[t];
    if t !in g.exiting && can != {} && u == t {
      x := SomeIn(can);
      k := 0;
    } else {
      var left := if t in g.exiting || can == {} then which else which * g.blocked[t];
      RetargetUnfold(g, which, walk, left, u);
      var j;
      j, x := FlaggedTakes(g, left, walk[1..], u);
      assert t !in g.exiting && can == {} ==> x !in can;
      TakerBehind(g, walk, j, x);
      k := j + 1;
    }
  }

  /** And every thread that is first to be able to take one is flagged. */
  lemma {:induction false} TakerFlagged(g: Group, which: SigSet, walk: seq<Tid>, k: nat, x: int)
    requires (forall t <- walk :: t in g.blocked) && x in which && FirstTaker(g, walk, k, x)
    ensures walk[k] in RetargetWalk(g, which, walk)
  {
    var t := walk[0];
    var can := which - g.blocked[t];
    assert k == 0 ==> x in can;
    if k > 0 {
      var left := if t in g.exiting || can == {} then which else which * g.blocked[t];
      RetargetUnfold(g, which, walk, left, walk[k]);
      TakerBehind(g, walk, k - 1, x);
      TakerFlagged(g, left, walk[1..], k - 1, x);
    }
  }

  /** Thread u is first, after tsk on the ring, to be able to take a shared signal of which. */
  ghost predicate TakesOver(g: Group, tsk: Tid, which: SigSet, u: Tid)
    requires Wf(g) && tsk in g.ring
  {
    exists k: nat, x: int ::
      x in g.shared.signal && x in which && FirstTaker(g, From(g.ring, tsk)[1..], k, x)
          && From(g.ring, tsk)[1..][k] == u
  }

  lemma {:induction false} RetargetEffect(g: Group, tsk: Tid, which: SigSet, u: Tid)
    requires Wf(g) && tsk in g.ring
    ensures u in Retarget(g, tsk, which).flagged <==> u in g.flagged || TakesOver(g, tsk, which, u)
  {
    var r, walk := g.shared.signal * which, From(g.ring, tsk)[1..];
    if k: nat, x: int :| x in g.shared.signal && x in which && FirstTaker(g, walk, k, x) && walk[k] == u {
      assert x in r;
      TakerFlagged(g, r, walk, k, x);
    }
    if r != {} && u in RetargetWalk(g, r, walk) {
      var k, x := FlaggedTakes(g, r, walk, u);
    }
  }

  lemma {:induction false} RetargetUnfold(g: Group, which: SigSet, walk: seq<Tid>, left: SigSet, u: Tid)
    requires walk != [] && forall t <- walk :: t in g.blocked
    requires left == if walk[0] in g.exiting || which - g.blocked[walk[0]] == {} then which
      else which * g.blocked[walk[0]]
    ensures u in RetargetWalk(g, which, walk) <==>
      (walk[0] !in g.exiting && which - g.blocked[walk[0]] != {} && u == walk[0])
          || u in RetargetWalk(g, left, walk[1..])
  {
    if left == {} { NoneWanted(g, walk[1..]); }
  }

  lemma {:induction false} NoneWanted(g: Group, walk: seq<Tid>)
    requires forall t <- walk :: t in g.blocked
    ensures RetargetWalk(g, {}, walk) == {}
  {
    if walk != [] {
      assert {} - g.blocked[walk[0]] == {};
      NoneWanted(g, walk[1..]);
    }
  }

  // ---- threads come and go ----

  /** What the first half of __set_task_blocked() and the second of exit_signals() pass on, the threads flagged
      being those. */
  ghost predicate PassedOn(g: Group, tsk: Tid, which: SigSet, asked: bool, flagged: set<Tid>)
    requires Wf(g) && tsk in g.ring
  {
    forall u: Tid :: u != tsk ==> (u in flagged <==> u in g.flagged || (asked && TakesOver(g, tsk, which, u)))
  }

  /** do_sigtimedwait() and force_sig_info() on the mask: a thread that waits for signals has only the blocked ones
      of keep blocked, and one that is forced no longer has sig. */
  lemma {:induction false} UnblockEffect(g: Group, t: Tid, keep: SigSet)
    requires Wf(g) && t in g.ring
    ensures var g' := Unblock(g, t, keep);
      && (forall u <- g.ring, x :: x in g'.blocked[u] <==> x in g.blocked[u] && (u == t ==> x in keep))
      && (t in g'.flagged <==> Deliverable(g.priv[t].signal, g.shared.signal, g'.blocked[t]))
      && g'.priv == g.priv && g'.shared == g.shared
  {
    RecalcEffect(g.(blocked := g.blocked[t := g.blocked[t] * keep]), t);
  }

  /** Taking sig out of the mask by force flags the thread exactly when that makes something deliverable, and clears
      nothing. */
  lemma {:induction false} ForceUnblockEffect(g: Group, t: Tid, sig: int)
    requires Wf(g) && t in g.ring
    ensures var g' := ForceUnblock(g, t, sig);
      forall u: Tid :: u in g'.flagged <==>
        u in g.flagged || (u == t && sig in g.blocked[t]
            && Deliverable(g.priv[t].signal, g.shared.signal, g'.blocked[t]))
  {
    RecalcEffect(g.(blocked := g.blocked[t := g.blocked[t] - {sig}]), t);
  }

  /** A forced signal that was blocked and can be sent is pending, no longer blocked, and a live thread is flagged. */
  lemma {:induction false} ForceEffect(g: Group, a: Step)
    requires Inv(g) && Enabled(g, a) && a.ForceStep? && a.sig in g.blocked[a.t] && a.t !in g.exiting
    requires !(a.sig >= SIGRTMIN && !a.memory && a.origin.User? && a.origin.rtCode)
    ensures var g' := Apply(g, a);
      && a.t in g'.priv && a.sig in g'.priv[a.t].signal && a.t in g'.flagged
      && g'.blocked == g.blocked[a.t := g.blocked[a.t] - {a.sig}]
  {
    var g1 := ForceUnblock(g, a.t, a.sig);
    SendEffect(g1, a.running, a.fatal, a.sig, a.payload, a.origin, a.memory, a.t, false, a.t);
    if a.sig < SIGRTMIN && a.sig in g.priv[a.t].signal {
      assert a.sig in g1.priv[a.t].signal - g1.blocked[a.t];
    } else {
      var list := g1.priv[a.t].list + if a.origin.Forced? || !a.memory then [] else [Info(a.sig, a.payload)];
      var p := Pending(g1.priv[a.t].signal + {a.sig}, list);
      CompleteFlags(WithPend(g1, a.t, false, p), a.running, a.fatal, a.sig, a.t);
    }
  }

  lemma {:induction false} CompleteFlags(g: Group, running: set<Tid>, fatal: bool, sig: int, t: Tid)
    requires Wf(g) && t in g.ring && t !in g.exiting && sig !in g.blocked[t]
    ensures t in Complete(g, running, fatal, sig, t, false).flagged
    ensures Complete(g, running, fatal, sig, t, false).blocked == g.blocked
  {
  }

  /** A new thread joins exactly when its parent has nothing unblocked pending; it starts with the mask of its parent,
      nothing pending and no flag. */
  lemma {:induction false} CloneEffect(g: Group, parent: Tid, child: Tid)
    requires Wf(g) && parent in g.ring && child !in g.ring
    ensures var g' := Clone(g, parent, child);
      && (child in g'.ring <==> !Deliverable(g.priv[parent].signal, g.shared.signal, g.blocked[parent]))
      && g'.ring == (if child in g'.ring then g.ring + [child] else g.ring)
      && (child in g'.ring ==>
        g'.blocked[child] == g.blocked[parent] && g'.priv[child] == Pending({}, []) && child !in g'.flagged)
      && g'.shared == g.shared && forall u <- g.ring :: g'.blocked[u] == g.blocked[u] && g'.priv[u] == g.priv[u]
  {
    RecalcEffect(g, parent);
    var g' := Clone(g, parent, child);
    assert child in g'.ring ==> g'.ring == g.ring + [child];
  }

  /** A reaped thread leaves the ring, and nobody else does. */
  lemma {:induction false} ReapEffect(g: Group, t: Tid)
    requires Wf(g) && t in g.ring && |g.ring| > 1
    ensures var g' := Reap(g, t);
      && (forall u: Tid :: u in g'.ring <==> u in g.ring && u != t) && |g'.ring| == |g.ring| - 1
      && (forall u: Tid :: u != t ==> (u in g'.flagged <==> u in g.flagged))
      && g'.target == if g.target == t then NextThread(g.ring, t) else g.target
  {
    var k := IndexOf(g.ring, t);
    var r := g.ring[..k] + g.ring[k + 1..];
    forall u: Tid ensures u in r <==> u in g.ring && u != t {
      if u in g.ring && u != t {
        var i :| 0 <= i < |g.ring| && g.ring[i] == u;
        assert r[if i < k then i else i - 1] == u;
      }
      if u in r {
        var i :| 0 <= i < |r| && r[i] == u;
        assert g.ring[if i < k then i else i + 1] == u;
      }
    }
  }
}
