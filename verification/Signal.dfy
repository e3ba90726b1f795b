/** Shared-signal generation and delivery within one thread group (kernel/signal.c).
    Every operation runs under siglock, so each is one step of a run. */
module Signal {

  type Tid = nat
  type SigSet = set<int>

  const SIGKILL := 9
  const SIGRTMIN := 32
  const NSIG := 64

  /** SIGSEGV, SIGBUS, SIGILL, SIGTRAP, SIGFPE, SIGSYS */
  const SYNCHRONOUS: SigSet := {11, 7, 4, 5, 8, 31}

  /** `struct sigpending`: the bit set and the queue, which holds signal numbers with their siginfo. */
  datatype Info = Info(signo: int, payload: int)
  datatype Pending = Pending(signal: SigSet, list: seq<Info>)

  /** One thread group: the thread ring, masks, PF_EXITING and TIF_SIGPENDING per thread, private
      and shared pending signals, curr_target, SIGNAL_GROUP_EXIT. */
  datatype Group = Group(
    ring: seq<Tid>, blocked: map<Tid, SigSet>, exiting: set<Tid>, flagged: set<Tid>,
    priv: map<Tid, Pending>, shared: Pending, target: Tid, groupExit: bool)

  predicate Distinct(s: seq<Tid>) { forall i, j :: 0 <= i < j < |s| ==> s[i] != s[j] }

  predicate Wf(g: Group) {
    && Distinct(g.ring) && g.target in g.ring
    && (forall t <- g.ring :: t in g.blocked && t in g.priv)
  }

  predicate ValidSig(sig: int) { 1 <= sig <= NSIG }

  // ---- the thread ring ----

  function IndexOf(ring: seq<Tid>, t: Tid): (k: nat)
    requires t in ring
    ensures k < |ring| && ring[k] == t
  {
    if ring[0] == t then 0 else 1 + IndexOf(ring[1..], t)
  }

  /** next_thread() */
  function NextThread(ring: seq<Tid>, t: Tid): (n: Tid)
    requires t in ring
    ensures n in ring
  {
    var k := IndexOf(ring, t);
    if k + 1 < |ring| then ring[k + 1] else ring[0]
  }

  /** The ring as seen from t. */
  function From(ring: seq<Tid>, t: Tid): (r: seq<Tid>)
    requires t in ring
    ensures |r| == |ring| && r[0] == t
    ensures forall x <- r :: x in ring
  {
    var k := IndexOf(ring, t);
    ring[k..] + ring[..k]
  }

  lemma {:induction false} FromAll(ring: seq<Tid>, t: Tid, u: Tid)
    requires t in ring && u in ring
    ensures u in From(ring, t)
  {
    var k := IndexOf(ring, t);
    assert ring == ring[..k] + ring[k..];
  }

  lemma {:induction false} FromNext(ring: seq<Tid>, t: Tid, j: nat)
    requires Distinct(ring) && t in ring && j < |ring|
    ensures From(ring, t)[j] in ring
    ensures NextThread(ring, From(ring, t)[j]) == if j + 1 < |ring| then From(ring, t)[j + 1] else t
    ensures j > 0 ==> From(ring, t)[j] != t
  {
    var k := IndexOf(ring, t);
    var i := if k + j < |ring| then k + j else k + j - |ring|;
    assert From(ring, t)[j] == ring[i];
    assert IndexOf(ring, ring[i]) == i;
  }

  // ---- who may take a signal ----

  /** A thread that could take sig: it is not exiting and does not block it. */
  predicate Eligible(g: Group, sig: int, t: Tid) {
    t in g.ring && t in g.blocked && t !in g.exiting && sig !in g.blocked[t]
  }

  /** wants_signal(); running is the set of threads task_curr() is true of. */
  predicate WantsSignal(g: Group, running: set<Tid>, sig: int, t: Tid)
    requires t in g.blocked
  {
    sig !in g.blocked[t] && t !in g.exiting && (sig == SIGKILL || t in running || t !in g.flagged)
  }

  /** No shared signal is stranded: if some thread could take it, one that could is flagged. */
  ghost predicate NotStranded(g: Group) {
    forall sig: int, t: Tid :: sig in g.shared.signal && Eligible(g, sig, t) ==> Served(g, sig)
  }

  ghost predicate Served(g: Group, sig: int) {
    exists t: Tid :: Eligible(g, sig, t) && t in g.flagged
  }

  // ---- sending ----

  /** The first thread of the walk that wants the signal. */
  function FindTarget(g: Group, running: set<Tid>, sig: int, walk: seq<Tid>): (r: seq<Tid>)
    requires forall t <- walk :: t in g.blocked
    ensures |r| <= 1
    ensures r != [] ==> r[0] in walk && WantsSignal(g, running, sig, r[0])
    ensures r == [] ==> forall t <- walk :: !WantsSignal(g, running, sig, t)
  {
    if walk == [] then []
    else if WantsSignal(g, running, sig, walk[0]) then [walk[0]]
    else FindTarget(g, running, sig, walk[1..])
  }

  /** complete_signal(): choose a thread and wake it, or start a group exit.
      fatal stands for the conditions on the signal's action. */
  function Complete(g: Group, running: set<Tid>, fatal: bool, sig: int, p: Tid, group: bool): (g': Group)
    requires Wf(g) && p in g.ring
  {
    if WantsSignal(g, running, sig, p) then Deliver(g, fatal, sig, p)
    else if !group || |g.ring| == 1 then g
    else
      var r := FindTarget(g, running, sig, From(g.ring, g.target));
      if r == [] then g else Deliver(g.(target := r[0]), fatal, sig, r[0])
  }

  /** The end of complete_signal(): signal_wake_up(t), or SIGKILL to every thread. */
  function Deliver(g: Group, fatal: bool, sig: int, t: Tid): (g': Group)
    requires Wf(g)
  {
    if fatal && sig == SIGKILL && !g.groupExit then
      g.(groupExit := true,
         priv := map x | x in g.priv :: if x in g.ring then g.priv[x].(signal := g.priv[x].signal + {SIGKILL})
             else g.priv[x],
         flagged := g.flagged + set x | x in g.ring)
    else g.(flagged := g.flagged + {t})
  }

  datatype Origin = Forced | Special | User(rtCode: bool)

  /** send_signal(): the new state, or -EAGAIN when a queued real-time signal finds no memory. */
  datatype SendResult = Sent(g: Group) | Eagain

  function Pend(g: Group, t: Tid, group: bool): Pending
    requires t in g.priv
  {
    if group then g.shared else g.priv[t]
  }

  function WithPend(g: Group, t: Tid, group: bool, p: Pending): Group {
    if group then g.(shared := p) else g.(priv := g.priv[t := p])
  }

  function Send(g: Group, running: set<Tid>, fatal: bool, sig: int, payload: int, origin: Origin, memory: bool,
                t: Tid, group: bool): (r: SendResult)
    requires Wf(g) && t in g.ring
  {
    var p := Pend(g, t, group);
    if sig < SIGRTMIN && sig in p.signal then Sent(g)
    else if !origin.Forced? && !memory && origin.User? && sig >= SIGRTMIN && origin.rtCode then Eagain
    else
      var list := if origin.Forced? || !memory then p.list else p.list + [Info(sig, payload)];
      Sent(Complete(WithPend(g, t, group, Pending(p.signal + {sig}, list)), running, fatal, sig, t, group))
  }

  // ---- masks and exit ----

  predicate HasPending(p: Pending, blocked: SigSet) { p.signal - blocked != {} }

  /** recalc_sigpending() for the current thread. */
  function Recalc(g: Group, t: Tid): (g': Group)
    requires t in g.priv && t in g.blocked
    ensures g' == g.(flagged := g'.flagged)
  {
    if HasPending(g.priv[t], g.blocked[t]) || HasPending(g.shared, g.blocked[t]) then g.(flagged := g.flagged + {t})
    else g.(flagged := g.flagged - {t})
  }

  /** The walk of retarget_shared_pending(): the threads it flags. */
  function RetargetWalk(g: Group, which: SigSet, walk: seq<Tid>): (woken: set<Tid>)
    requires forall t <- walk :: t in g.blocked
    ensures forall t :: t in woken ==> t in walk && t !in g.exiting
  {
    if walk == [] then {}
    else
      var t := walk[0];
      if t in g.exiting || which - g.blocked[t] == {} then RetargetWalk(g, which, walk[1..])
      else
        var left := which * g.blocked[t];
        {t} + if left == {} then {} else RetargetWalk(g, left, walk[1..])
  }

  function Retarget(g: Group, tsk: Tid, which: SigSet): (g': Group)
    requires Wf(g) && tsk in g.ring
    ensures g' == g.(flagged := g'.flagged)
  {
    var r := g.shared.signal * which;
    if r == {} then g else g.(flagged := g.flagged + RetargetWalk(g, r, From(g.ring, tsk)[1..]))
  }

  /** __set_task_blocked() on the current thread. */
  function SetBlocked(g: Group, tsk: Tid, newset: SigSet): (g': Group)
    requires Wf(g) && tsk in g.ring
    ensures g' == g.(flagged := g'.flagged, blocked := g.blocked[tsk := newset])
  {
    var g1 := if tsk in g.flagged && |g.ring| > 1 then Retarget(g, tsk, newset - g.blocked[tsk]) else g;
    Recalc(g1.(blocked := g1.blocked[tsk := newset]), tsk)
  }

  /** exit_signals() */
  function Exit(g: Group, tsk: Tid): (g': Group)
    requires Wf(g) && tsk in g.ring
    ensures g' == g.(flagged := g'.flagged, exiting := g.exiting + {tsk})
  {
    var g1 := g.(exiting := g.exiting + {tsk});
    if |g.ring| == 1 || g.groupExit || tsk !in g.flagged then g1
    else Retarget(g1, tsk, g.shared.signal - g.blocked[tsk])
  }

  // ---- dequeueing ----

  /** The lowest signal number of a set, counting up from n; 0 when there is none. */
  function Lowest(s: SigSet, n: int): (sig: int)
    requires 1 <= n
    ensures sig == 0 || (sig in s && n <= sig)
    ensures forall x <- s :: n <= x <= NSIG ==> sig != 0 && sig <= x
    decreases NSIG - n
  {
    if n > NSIG then 0 else if n in s then n else Lowest(s, n + 1)
  }

  predicate InRange(s: SigSet) { forall x <- s :: ValidSig(x) }

  /** next_signal(): synchronous signals first, then the lowest number; 0 when all are masked. */
  function NextSignal(p: Pending, mask: SigSet): (sig: int)
    requires InRange(p.signal)
    ensures sig == 0 <==> p.signal - mask == {}
    ensures sig != 0 ==> sig in p.signal && sig !in mask
    ensures forall x <- p.signal - mask :: sig !in SYNCHRONOUS ==> x !in SYNCHRONOUS
    ensures forall x <- p.signal - mask :: (sig in SYNCHRONOUS ==> x in SYNCHRONOUS) ==> sig <= x
  {
    Pick(p.signal - mask)
  }

  /** The choice next_signal() makes among the deliverable signals. */
  function Pick(x: SigSet): (sig: int)
    requires InRange(x)
    ensures sig == 0 <==> x == {}
    ensures sig != 0 ==> sig in x
    ensures forall y <- x :: sig !in SYNCHRONOUS ==> y !in SYNCHRONOUS
    ensures forall y <- x :: (sig in SYNCHRONOUS ==> y in SYNCHRONOUS) ==> sig <= y
  {
    var sync := set y <- x | y in SYNCHRONOUS;
    if x == {} then 0
    else if sync != {} then Lowest(sync, 1)
    else
      assert forall y <- x :: y in SYNCHRONOUS ==> y in sync;
      Lowest(x, 1)
  }

  /** Number of queue entries for a signal. */
  function Queued(list: seq<Info>, sig: int): (n: nat) {
    if list == [] then 0 else (if list[0].signo == sig then 1 else 0) + Queued(list[1..], sig)
  }

  /** The queue without its first entry for sig. */
  function WithoutFirst(list: seq<Info>, sig: int): (r: seq<Info>) {
    if list == [] then [] else if list[0].signo == sig then list[1..] else [list[0]] + WithoutFirst(list[1..], sig)
  }

  /** collect_signal(): the oldest entry leaves; the bit stays exactly when another entry remains. */
  function Collect(p: Pending, sig: int): (p': Pending) {
    Pending(if Queued(p.list, sig) >= 2 then p.signal else p.signal - {sig}, WithoutFirst(p.list, sig))
  }

  /** dequeue_signal() on the current thread. */
  function Dequeue(g: Group, t: Tid, mask: SigSet): (r: (Group, int))
    requires Wf(g) && t in g.ring && InRange(g.priv[t].signal) && InRange(g.shared.signal)
  {
    var r := Taken(g, t, mask);
    (Recalc(r.0, t), r.1)
  }

  /** What it takes, from the private set before the shared one. */
  function Taken(g: Group, t: Tid, mask: SigSet): (r: (Group, int))
    requires Wf(g) && t in g.ring && InRange(g.priv[t].signal) && InRange(g.shared.signal)
  {
    var own := NextSignal(g.priv[t], mask);
    var sig := if own != 0 then own else NextSignal(g.shared, mask);
    if own != 0 then (g.(priv := g.priv[t := Collect(g.priv[t], own)]), sig)
    else if sig != 0 then (g.(shared := Collect(g.shared, sig)), sig)
    else (g, sig)
  }

  // ---- threads come and go ----

  /** The waiting half of do_sigtimedwait(): the current thread narrows its mask, then recalc_sigpending(). */
  function Unblock(g: Group, t: Tid, keep: SigSet): (g': Group)
    requires Wf(g) && t in g.ring
  {
    Recalc(g.(blocked := g.blocked[t := g.blocked[t] * keep]), t)
  }

  /** force_sig_info() before it sends: a blocked sig is unblocked, and recalc_sigpending_and_wake() flags the
      thread but never clears its flag. */
  function ForceUnblock(g: Group, t: Tid, sig: int): (g': Group)
    requires Wf(g) && t in g.ring
    ensures g' == g.(flagged := g'.flagged, blocked := g.blocked[t := g.blocked[t] - {sig}]) && g.flagged <= g'.flagged
  {
    var g1 := g.(blocked := g.blocked[t := g.blocked[t] - {sig}]);
    if sig in g.blocked[t] && (HasPending(g1.priv[t], g1.blocked[t]) || HasPending(g1.shared, g1.blocked[t])) then
      g1.(flagged := g1.flagged + {t})
    else
      g1
  }

  /** copy_process() with CLONE_THREAD: refused while the caller has a signal pending. */
  function Clone(g: Group, parent: Tid, child: Tid): (g': Group)
    requires Wf(g) && parent in g.ring
  {
    var g1 := Recalc(g, parent);
    if parent in g1.flagged then g1
    else
      g1.(ring := g1.ring + [child], blocked := g1.blocked[child := g1.blocked[parent]],
          priv := g1.priv[child := Pending({}, [])], flagged := g1.flagged - {child}, exiting := g1.exiting - {child})
  }

  /** __exit_signal() for a dead thread of a larger group. */
  function Reap(g: Group, t: Tid): (g': Group)
    requires Wf(g) && t in g.ring
  {
    var k := IndexOf(g.ring, t);
    g.(target := if g.target == t then NextThread(g.ring, t) else g.target, ring := g.ring[..k] + g.ring[k + 1..],
       flagged := g.flagged - {t})
  }

  // ---- runs ----

  datatype Step =
    | SendStep(running: set<Tid>, fatal: bool, sig: int, payload: int, origin: Origin, memory: bool, t: Tid,
        group: bool)
    | BlockStep(t: Tid, newset: SigSet)
    | UnblockStep(t: Tid, keep: SigSet)
    | ForceStep(running: set<Tid>, fatal: bool, sig: int, payload: int, origin: Origin, memory: bool, t: Tid)
    | DequeueStep(t: Tid, mask: SigSet)
    | ExitStep(t: Tid)
    | CloneStep(t: Tid, child: Tid)
    | ReapStep(t: Tid)

  predicate Enabled(g: Group, a: Step) {
    && a.t in g.ring
    && (a.SendStep? || a.ForceStep? ==> ValidSig(a.sig))
    && (a.CloneStep? ==> a.child !in g.ring)
    && (a.ReapStep? ==> a.t in g.exiting && |g.ring| > 1)
  }

  function Apply(g: Group, a: Step): (g': Group)
    requires Inv(g) && Enabled(g, a)
  {
    match a
    case SendStep(running, fatal, sig, payload, origin, memory, t, group) =>
      var r := Send(g, running, fatal, sig, payload, origin, memory, t, group);
      if r.Sent? then r.g else g
    case BlockStep(t, newset) => SetBlocked(g, t, newset)
    case UnblockStep(t, keep) => Unblock(g, t, keep)
    case ForceStep(running, fatal, sig, payload, origin, memory, t) =>
      var g1 := ForceUnblock(g, t, sig);
      var r := Send(g1, running, fatal, sig, payload, origin, memory, t, false);
      if r.Sent? then r.g else g1
    case DequeueStep(t, mask) => Dequeue(g, t, mask).0
    case ExitStep(t) => Exit(g, t)
    case CloneStep(t, child) => Clone(g, t, child)
    case ReapStep(t) => Reap(g, t)
  }

  /** A queue entry has its bit set, and a signal below SIGRTMIN is queued at most once. */
  ghost predicate PendOk(p: Pending) {
    && InRange(p.signal)
    && (forall e <- p.list :: e.signo in p.signal)
    && (forall sig :: sig < SIGRTMIN ==> Queued(p.list, sig) <= 1)
  }

  ghost predicate PendInv(g: Group) requires Wf(g) {
    PendOk(g.shared) && forall t <- g.ring :: PendOk(g.priv[t])
  }

  ghost predicate Inv(g: Group) {
    Wf(g) && PendInv(g) && (g.groupExit || NotStranded(g))
  }

  // -- no shared signal is stranded --

  /** Every shared signal someone could take is served, or thread t could take it. */
  ghost predicate ServedBut(g: Group, t: Tid) {
    forall sig: int, u: Tid :: sig in g.shared.signal && Eligible(g, sig, u) ==> Served(g, sig) || Eligible(g, sig, t)
  }

  lemma {:induction false} RecalcServes(g: Group, t: Tid)
    requires Wf(g) && t in g.ring && ServedBut(g, t)
    ensures NotStranded(Recalc(g, t))
  {
    var g' := Recalc(g, t);
    forall sig: int, u: Tid | sig in g'.shared.signal && Eligible(g', sig, u) ensures Served(g', sig) {
      assert Eligible(g, sig, u);
      if Eligible(g, sig, t) {
        assert sig in g.shared.signal - g.blocked[t];
        assert Eligible(g', sig, t) && t in g'.flagged;
      } else {
        var v: Tid :| Eligible(g, sig, v) && v in g.flagged;
        assert Eligible(g', sig, v) && v in g'.flagged;
      }
    }
  }

  /** Flagging more threads serves no fewer signals. */
  lemma {:induction false} MoreFlags(g: Group, g': Group)
    requires Wf(g) && Wf(g') && NotStranded(g)
    requires g'.ring == g.ring && g'.blocked == g.blocked && g'.exiting == g.exiting
    requires g'.shared.signal <= g.shared.signal && g.flagged <= g'.flagged
    ensures NotStranded(g')
  {
    forall sig: int, u: Tid | sig in g'.shared.signal && Eligible(g', sig, u) ensures Served(g', sig) {
      assert Eligible(g, sig, u);
      var v: Tid :| Eligible(g, sig, v) && v in g.flagged;
      assert Eligible(g', sig, v);
    }
  }

  lemma {:induction false} CompleteServes(g: Group, running: set<Tid>, fatal: bool, sig: int, p: Tid, group: bool)
    requires Wf(g) && p in g.ring
    requires group && !Complete(g, running, fatal, sig, p, group).groupExit
    ensures forall t: Tid :: Eligible(g, sig, t) ==> Served(Complete(g, running, fatal, sig, p, group), sig)
  {
    var g' := Complete(g, running, fatal, sig, p, group);
    forall t: Tid | Eligible(g, sig, t) ensures Served(g', sig) {
      assert Eligible(g', sig, t);
      if WantsSignal(g, running, sig, p) {
        assert Eligible(g', sig, p) && p in g'.flagged;
      } else if |g.ring| == 1 {
        assert t == p && t in g'.flagged;
      } else {
        var r := FindTarget(g, running, sig, From(g.ring, g.target));
        if r == [] {
          FromAll(g.ring, g.target, t);
          assert t in g'.flagged;
        } else {
          assert Eligible(g', sig, r[0]) && r[0] in g'.flagged;
        }
      }
    }
  }

  /** What waking a target leaves alone. */
  ghost predicate SameButWoken(g: Group, g': Group)
    requires Wf(g)
  {
    && Wf(g') && g'.ring == g.ring && g'.blocked == g.blocked && g'.exiting == g.exiting && g'.shared == g.shared
    && g.flagged <= g'.flagged && (g.groupExit ==> g'.groupExit)
    && (forall t <- g.ring ::
      g'.priv[t].list == g.priv[t].list && g.priv[t].signal <= g'.priv[t].signal <= g.priv[t].signal + {SIGKILL})
  }

  lemma {:induction false} DeliverFrame(g: Group, target: Tid, fatal: bool, sig: int, t: Tid)
    requires Wf(g) && target in g.ring
    ensures SameButWoken(g, Deliver(g.(target := target), fatal, sig, t))
  {
    var g' := Deliver(g.(target := target), fatal, sig, t);
    assert g.flagged <= g'.flagged;
    forall u <- g.ring ensures u in g'.priv && g'.priv[u].list == g.priv[u].list
      && g.priv[u].signal <= g'.priv[u].signal <= g.priv[u].signal + {SIGKILL} {
    }
  }

  lemma {:induction false} CompleteFrame(g: Group, running: set<Tid>, fatal: bool, sig: int, p: Tid, group: bool)
    requires Wf(g) && p in g.ring
    ensures SameButWoken(g, Complete(g, running, fatal, sig, p, group))
  {
    var g' := Complete(g, running, fatal, sig, p, group);
    if WantsSignal(g, running, sig, p) {
      DeliverFrame(g, g.target, fatal, sig, p);
    } else if group && |g.ring| != 1 {
      var r := FindTarget(g, running, sig, From(g.ring, g.target));
      if r != [] {
        DeliverFrame(g, r[0], fatal, sig, r[0]);
      }
    }
  }

  lemma {:induction false} SendServes(g: Group, running: set<Tid>, fatal: bool, sig: int, payload: int,
                            origin: Origin, memory: bool, t: Tid, group: bool)
    requires Wf(g) && t in g.ring && (g.groupExit || NotStranded(g))
    ensures var r := Send(g, running, fatal, sig, payload, origin, memory, t, group);
      r.Sent? ==> Wf(r.g) && (r.g.groupExit || NotStranded(r.g))
  {
    var r := Send(g, running, fatal, sig, payload, origin, memory, t, group);
    var p := Pend(g, t, group);
    if r.Sent? && !(sig < SIGRTMIN && sig in p.signal) {
      var list := if origin.Forced? || !memory then p.list else p.list + [Info(sig, payload)];
      var g1 := WithPend(g, t, group, Pending(p.signal + {sig}, list));
      CompleteFrame(g1, running, fatal, sig, t, group);
      if !r.g.groupExit {
        if group {
          CompleteServes(g1, running, fatal, sig, t, group);
          SentServed(g, g1, r.g, sig);
        } else {
          MoreFlags(g, r.g);
        }
      }
    }
  }

  lemma {:induction false} SentServed(g: Group, g1: Group, g': Group, sig: int)
    requires Wf(g) && Wf(g1) && Wf(g') && NotStranded(g)
    requires g1.ring == g.ring == g'.ring && g1.blocked == g.blocked == g'.blocked
      && g1.exiting == g.exiting == g'.exiting
    requires g'.shared.signal == g.shared.signal + {sig} && g.flagged <= g'.flagged
    requires forall t: Tid :: Eligible(g1, sig, t) ==> Served(g', sig)
    ensures NotStranded(g')
  {
    forall s: int, u: Tid | s in g'.shared.signal && Eligible(g', s, u) ensures Served(g', s) {
      assert Eligible(g, s, u) && Eligible(g1, s, u);
      if s != sig {
        var v: Tid :| Eligible(g, s, v) && v in g.flagged;
        assert Eligible(g', s, v);
      }
    }
  }

  /** retarget_shared_pending() finds a taker among the walked threads for each signal that has one. */
  lemma {:induction false} RetargetFinds(g: Group, which: SigSet, walk: seq<Tid>, sig: int, t: Tid) returns (v: Tid)
    requires forall u <- walk :: u in g.blocked
    requires sig in which && t in walk && t !in g.exiting && sig !in g.blocked[t]
    ensures v in walk && v !in g.exiting && sig !in g.blocked[v] && v in RetargetWalk(g, which, walk)
  {
    var u := walk[0];
    var can := which - g.blocked[u];
    assert t != u ==> t in walk[1..];
    if u in g.exiting || can == {} {
      assert t == u ==> sig in can;
      v := RetargetFinds(g, which, walk[1..], sig, t);
    } else if sig !in g.blocked[u] {
      v := u;
    } else {
      assert sig in which * g.blocked[u];
      v := RetargetFinds(g, which * g.blocked[u], walk[1..], sig, t);
    }
  }

  /** The walk of retarget_shared_pending() meets every thread but the caller. */
  lemma {:induction false} WalkIsTheOthers(ring: seq<Tid>, t: Tid)
    requires Distinct(ring) && t in ring
    ensures forall u: Tid :: u in From(ring, t)[1..] <==> u in ring && u != t
  {
    var f := From(ring, t);
    forall j | 1 <= j < |ring| ensures f[j] != t { FromNext(ring, t, j); }
    assert f == [f[0]] + f[1..];
    forall u: Tid | u in ring && u != t ensures u in f[1..] { FromAll(ring, t, u); }
  }

  /** After a retarget, what the caller alone served is served by another thread that can take it. */
  lemma {:induction false} RetargetServes(g: Group, tsk: Tid, which: SigSet, sig: int, t: Tid)
    requires Wf(g) && tsk in g.ring && sig in g.shared.signal * which && t != tsk && Eligible(g, sig, t)
    ensures exists v: Tid :: v != tsk && Eligible(g, sig, v) && v in Retarget(g, tsk, which).flagged
  {
    WalkIsTheOthers(g.ring, tsk);
    var v := RetargetFinds(g, g.shared.signal * which, From(g.ring, tsk)[1..], sig, t);
    assert v != tsk && Eligible(g, sig, v) && v in Retarget(g, tsk, which).flagged;
  }

  lemma {:induction false} BlockServes(g: Group, tsk: Tid, newset: SigSet)
    requires Wf(g) && tsk in g.ring && NotStranded(g)
    ensures Wf(SetBlocked(g, tsk, newset)) && NotStranded(SetBlocked(g, tsk, newset))
  {
    var g1 := if tsk in g.flagged && |g.ring| > 1 then Retarget(g, tsk, newset - g.blocked[tsk]) else g;
    var g2 := g1.(blocked := g1.blocked[tsk := newset]);
    forall sig: int, u: Tid | sig in g2.shared.signal && Eligible(g2, sig, u)
      ensures Served(g2, sig) || Eligible(g2, sig, tsk) {
      if !Eligible(g2, sig, tsk) {
        BlockedPassesOn(g, tsk, newset, sig, u);
        var w: Tid :| w != tsk && Eligible(g, sig, w) && w in g1.flagged;
        assert Eligible(g2, sig, w);
      }
    }
    RecalcServes(g2, tsk);
  }

  /** A signal the caller stops taking has another taker flagged before the mask changes. */
  lemma {:induction false} BlockedPassesOn(g: Group, tsk: Tid, newset: SigSet, sig: int, u: Tid)
    requires Wf(g) && tsk in g.ring && NotStranded(g)
    requires sig in g.shared.signal && u != tsk && Eligible(g, sig, u) && (tsk in g.exiting || sig in newset)
    ensures var g1 := if tsk in g.flagged && |g.ring| > 1 then Retarget(g, tsk, newset - g.blocked[tsk]) else g;
      exists w: Tid :: w != tsk && Eligible(g, sig, w) && w in g1.flagged
  {
    var g1 := if tsk in g.flagged && |g.ring| > 1 then Retarget(g, tsk, newset - g.blocked[tsk]) else g;
    var v: Tid :| Eligible(g, sig, v) && v in g.flagged;
    if v == tsk {
      assert |g.ring| > 1 by { assert tsk in g.ring && u in g.ring; }
      RetargetServes(g, tsk, newset - g.blocked[tsk], sig, u);
    } else {
      assert v in g1.flagged;
    }
  }

  lemma {:induction false} ExitServes(g: Group, tsk: Tid)
    requires Wf(g) && tsk in g.ring && !g.groupExit && NotStranded(g)
    ensures Wf(Exit(g, tsk)) && NotStranded(Exit(g, tsk))
  {
    var g' := Exit(g, tsk);
    forall sig: int, u: Tid | sig in g'.shared.signal && Eligible(g', sig, u) ensures Served(g', sig) {
      assert u != tsk && Eligible(g, sig, u);
      var v: Tid :| Eligible(g, sig, v) && v in g.flagged;
      if v == tsk {
        var g1 := g.(exiting := g.exiting + {tsk});
        assert |g.ring| > 1 by { assert tsk in g.ring && u in g.ring; }
        var which := g.shared.signal - g.blocked[tsk];
        assert sig in g.shared.signal * which;
        assert Eligible(g1, sig, u);
        RetargetServes(g1, tsk, which, sig, u);
        var w: Tid :| w != tsk && Eligible(g1, sig, w) && w in Retarget(g1, tsk, which).flagged;
        assert Eligible(g', sig, w) && w in g'.flagged;
      } else {
        assert Eligible(g', sig, v) && v in g'.flagged;
      }
    }
  }

  lemma {:induction false} UnblockServes(g: Group, t: Tid, keep: SigSet)
    requires Wf(g) && t in g.ring && NotStranded(g)
    ensures Wf(Unblock(g, t, keep)) && NotStranded(Unblock(g, t, keep))
  {
    var g1 := g.(blocked := g.blocked[t := g.blocked[t] * keep]);
    forall sig: int, u: Tid | sig in g1.shared.signal && Eligible(g1, sig, u)
      ensures Served(g1, sig) || Eligible(g1, sig, t) {
      if u != t {
        assert Eligible(g, sig, u);
        var v: Tid :| Eligible(g, sig, v) && v in g.flagged;
        assert Eligible(g1, sig, v) && v in g1.flagged;
      }
    }
    RecalcServes(g1, t);
  }

  /** Unblocking a pending signal by force leaves its thread flagged. */
  lemma {:induction false} ForceServes(g: Group, t: Tid, sig: int)
    requires Wf(g) && t in g.ring && NotStranded(g)
    ensures NotStranded(ForceUnblock(g, t, sig))
  {
    var g' := ForceUnblock(g, t, sig);
    forall x: int, u: Tid | x in g'.shared.signal && Eligible(g', x, u) ensures Served(g', x) {
      if Eligible(g, x, u) {
        var v: Tid :| Eligible(g, x, v) && v in g.flagged;
        assert Eligible(g', x, v) && v in g'.flagged;
      } else {
        assert x in g'.shared.signal - g'.blocked[t];
        assert Eligible(g', x, t) && t in g'.flagged;
      }
    }
  }

  lemma {:induction false} DequeueServes(g: Group, t: Tid, mask: SigSet)
    requires Wf(g) && t in g.ring && InRange(g.priv[t].signal) && InRange(g.shared.signal) && NotStranded(g)
    ensures Wf(Dequeue(g, t, mask).0) && NotStranded(Dequeue(g, t, mask).0)
  {
    var own := NextSignal(g.priv[t], mask);
    var sig := NextSignal(g.shared, mask);
    var g1 :=
      if own != 0 then g.(priv := g.priv[t := Collect(g.priv[t], own)])
      else if sig != 0 then g.(shared := Collect(g.shared, sig))
      else g;
    MoreFlags(g, g1);
    RecalcServes(g1, t);
  }

  lemma {:induction false} CloneServes(g: Group, parent: Tid, child: Tid)
    requires Wf(g) && parent in g.ring && child !in g.ring && NotStranded(g)
    ensures Wf(Clone(g, parent, child)) && NotStranded(Clone(g, parent, child))
  {
    RecalcServes(g, parent);
    var g1, g' := Recalc(g, parent), Clone(g, parent, child);
    var ready := g.shared.signal - g.blocked[parent];
    if parent !in g1.flagged {
      forall sig: int, u: Tid | sig in g'.shared.signal && Eligible(g', sig, u) ensures Served(g', sig) {
        assert u == child ==> sig in ready;
        assert Eligible(g1, sig, u);
        var v: Tid :| Eligible(g1, sig, v) && v in g1.flagged;
        assert Eligible(g', sig, v) && v in g'.flagged;
      }
    }
  }

  lemma {:induction false} ReapRing(g: Group, t: Tid)
    requires Wf(g) && t in g.ring
    ensures Distinct(Reap(g, t).ring)
    ensures forall u: Tid :: u in Reap(g, t).ring <==> u in g.ring && u != t
  {
    var k := IndexOf(g.ring, t);
    var r := Reap(g, t).ring;
    assert forall i :: 0 <= i < |r| ==> r[i] == if i < k then g.ring[i] else g.ring[i + 1];
    forall u: Tid | u in g.ring && u != t ensures u in r {
      var i :| 0 <= i < |g.ring| && g.ring[i] == u;
      assert r[if i < k then i else i - 1] == u;
    }
  }

  lemma {:induction false} ReapServes(g: Group, t: Tid)
    requires Wf(g) && t in g.ring && t in g.exiting && |g.ring| > 1
    ensures Wf(Reap(g, t)) && (NotStranded(g) ==> NotStranded(Reap(g, t)))
  {
    var g' := Reap(g, t);
    ReapRing(g, t);
    assert NextThread(g.ring, t) != t;
    if NotStranded(g) {
      forall sig: int, u: Tid | sig in g'.shared.signal && Eligible(g', sig, u) ensures Served(g', sig) {
        assert Eligible(g, sig, u);
        var v: Tid :| Eligible(g, sig, v) && v in g.flagged;
        assert Eligible(g', sig, v) && v in g'.flagged;
      }
    }
  }

  // -- the queues --

  lemma {:induction false} QueuedJoin(a: seq<Info>, b: seq<Info>, sig: int)
    ensures Queued(a + b, sig) == Queued(a, sig) + Queued(b, sig)
  {
    if a == [] {
      assert a + b == b;
    } else {
      QueuedJoin(a[1..], b, sig);
      assert (a + b)[1..] == a[1..] + b;
    }
  }

  lemma {:induction false} QueuedNone(list: seq<Info>, sig: int)
    ensures Queued(list, sig) == 0 <==> forall e <- list :: e.signo != sig
  {
    if list != [] {
      QueuedNone(list[1..], sig);
      assert list == [list[0]] + list[1..];
    }
  }

  /** Taking the oldest entry removes one entry of that signal and no other. */
  lemma {:induction false} WithoutFirstQueued(list: seq<Info>, sig: int, s: int)
    ensures Queued(WithoutFirst(list, sig), s) == Queued(list, s) - if s == sig && Queued(list, sig) > 0 then 1 else 0
    ensures forall e <- WithoutFirst(list, sig) :: e in list
  {
    if list != [] {
      assert list == [list[0]] + list[1..];
      if list[0].signo != sig {
        WithoutFirstQueued(list[1..], sig, s);
        assert WithoutFirst(list, sig)[1..] == WithoutFirst(list[1..], sig);
      }
    }
  }

  /** A signal sent n times with memory is collected n times: the bit outlives all but the last entry. */
  lemma {:induction false} CollectOk(p: Pending, sig: int)
    requires PendOk(p) && sig in p.signal
    ensures PendOk(Collect(p, sig))
    ensures forall s ::
      Queued(Collect(p, sig).list, s) == Queued(p.list, s) - if s == sig && Queued(p.list, s) > 0 then 1 else 0
    ensures Queued(Collect(p, sig).list, sig) > 0 <==> sig in Collect(p, sig).signal
    ensures Collect(p, sig).signal - {sig} == p.signal - {sig}
  {
    var p' := Collect(p, sig);
    forall s ensures Queued(p'.list, s) == Queued(p.list, s) - if s == sig && Queued(p.list, s) > 0 then 1 else 0 {
      WithoutFirstQueued(p.list, sig, s);
    }
    WithoutFirstQueued(p.list, sig, sig);
    QueuedNone(p'.list, sig);
  }

  lemma {:induction false} AddOk(p: Pending, sig: int, list: seq<Info>, payload: int)
    requires PendOk(p) && ValidSig(sig) && !(sig < SIGRTMIN && sig in p.signal)
    requires list == p.list || list == p.list + [Info(sig, payload)]
    ensures PendOk(Pending(p.signal + {sig}, list))
  {
    if list != p.list {
      QueuedNone(p.list, sig);
      forall s ensures Queued(list, s) == Queued(p.list, s) + if s == sig then 1 else 0 {
        QueuedJoin(p.list, [Info(sig, payload)], s);
        assert [Info(sig, payload)][1..] == [];
      }
    }
  }

  lemma {:induction false} SendPend(g: Group, running: set<Tid>, fatal: bool, sig: int, payload: int, origin: Origin,
                            memory: bool, t: Tid, group: bool)
    requires Wf(g) && t in g.ring && PendInv(g) && ValidSig(sig)
    ensures var r := Send(g, running, fatal, sig, payload, origin, memory, t, group);
      r.Sent? ==> Wf(r.g) && PendInv(r.g)
  {
    var r := Send(g, running, fatal, sig, payload, origin, memory, t, group);
    var p := Pend(g, t, group);
    if r.Sent? && !(sig < SIGRTMIN && sig in p.signal) {
      var list := if origin.Forced? || !memory then p.list else p.list + [Info(sig, payload)];
      AddOk(p, sig, list, payload);
      var g1 := WithPend(g, t, group, Pending(p.signal + {sig}, list));
      CompleteFrame(g1, running, fatal, sig, t, group);
      forall u <- r.g.ring ensures PendOk(r.g.priv[u]) {
        assert PendOk(g1.priv[u]);
      }
    }
  }

  lemma {:induction false} OwnPend(g: Group, t: Tid, p: Pending)
    requires Wf(g) && t in g.ring && PendInv(g) && PendOk(p)
    ensures Wf(Recalc(g.(priv := g.priv[t := p]), t)) && PendInv(Recalc(g.(priv := g.priv[t := p]), t))
  {
  }

  lemma {:induction false} DequeuePend(g: Group, t: Tid, mask: SigSet)
    requires Wf(g) && t in g.ring && PendInv(g)
    ensures Wf(Dequeue(g, t, mask).0) && PendInv(Dequeue(g, t, mask).0)
  {
    var p := g.priv[t];
    var own := NextSignal(p, mask);
    var sig := NextSignal(g.shared, mask);
    if own != 0 {
      CollectOk(p, own);
      OwnPend(g, t, Collect(p, own));
    } else if sig != 0 {
      CollectOk(g.shared, sig);
      OwnPend(g.(shared := Collect(g.shared, sig)), t, p);
    }
  }

  /** Steps that touch no queue keep the queues in order. */
  lemma {:induction false} SamePend(g: Group, g': Group)
    requires Wf(g) && Wf(g') && PendInv(g) && g'.shared == g.shared
    requires forall t <- g'.ring :: (t in g.ring && g'.priv[t] == g.priv[t]) || g'.priv[t] == Pending({}, [])
    ensures PendInv(g')
  {
    assert forall sig :: Queued([], sig) == 0;
  }

  // -- main results --

  /** Mask changes and exits move no thread and no pending signal. */
  lemma {:induction false} MaskFrame(g: Group, t: Tid, set1: SigSet)
    requires Wf(g) && t in g.ring
    ensures SameQueues(g, SetBlocked(g, t, set1)) && SameQueues(g, Unblock(g, t, set1)) && SameQueues(g, Exit(g, t))
  {
  }

  predicate SameQueues(g: Group, g': Group) {
    Wf(g') && g'.ring == g.ring && g'.priv == g.priv && g'.shared == g.shared && g'.groupExit == g.groupExit
  }

  lemma {:induction false} MaskStep(g: Group, a: Step)
    requires Inv(g) && Enabled(g, a) && (a.BlockStep? || a.UnblockStep? || a.ExitStep?)
    ensures Inv(Apply(g, a))
  {
    var g' := Apply(g, a);
    assert SameQueues(g, g') by {
      MaskFrame(g, a.t, if a.BlockStep? then a.newset else if a.UnblockStep? then a.keep else {});
    }
    SamePend(g, g');
    if !g.groupExit {
      match a {
        case BlockStep(t, newset) => BlockServes(g, t, newset);
        case UnblockStep(t, keep) => UnblockServes(g, t, keep);
        case ExitStep(t) => ExitServes(g, t);
      }
    }
  }

  lemma {:induction false} ThreadStep(g: Group, a: Step)
    requires Inv(g) && Enabled(g, a) && (a.CloneStep? || a.ReapStep?)
    ensures Inv(Apply(g, a))
  {
    if a.CloneStep? {
      if !g.groupExit { CloneServes(g, a.t, a.child); }
    } else {
      ReapRing(g, a.t);
      ReapServes(g, a.t);
    }
    SamePend(g, Apply(g, a));
  }

  lemma {:induction false} SendInv(g: Group, running: set<Tid>, fatal: bool, sig: int, payload: int, origin: Origin,
                            memory: bool, t: Tid, group: bool)
    requires Inv(g) && t in g.ring && ValidSig(sig)
    ensures var r := Send(g, running, fatal, sig, payload, origin, memory, t, group); r.Sent? ==> Inv(r.g)
  {
    SendServes(g, running, fatal, sig, payload, origin, memory, t, group);
    SendPend(g, running, fatal, sig, payload, origin, memory, t, group);
  }

  lemma {:induction false} ForceInv(g: Group, t: Tid, sig: int)
    requires Inv(g) && t in g.ring
    ensures Inv(ForceUnblock(g, t, sig))
  {
    SamePend(g, ForceUnblock(g, t, sig));
    if !g.groupExit { ForceServes(g, t, sig); }
  }

  /** Every step keeps the invariant. */
  lemma {:induction false} InvStep(g: Group, a: Step)
    requires Inv(g) && Enabled(g, a)
    ensures Inv(Apply(g, a))
  {
    match a {
      case SendStep(running, fatal, sig, payload, origin, memory, t, group) =>
        SendInv(g, running, fatal, sig, payload, origin, memory, t, group);
      case ForceStep(running, fatal, sig, payload, origin, memory, t) =>
        ForceInv(g, t, sig);
        SendInv(ForceUnblock(g, t, sig), running, fatal, sig, payload, origin, memory, t, false);
      case DequeueStep(t, mask) =>
        DequeuePend(g, t, mask);
        if !g.groupExit { DequeueServes(g, t, mask); }
      case CloneStep(_, _) => ThreadStep(g, a);
      case ReapStep(_) => ThreadStep(g, a);
      case _ => MaskStep(g, a);
    }
  }

  /** A run: each state comes from the one before by some step. (A step is defined on states that
      satisfy the invariant, which RunInv shows every state of a run does.) */
  ghost predicate IsRun(run: seq<Group>, steps: seq<Step>) {
    && |run| == |steps| + 1
    && (forall i :: 0 <= i < |steps| ==> Inv(run[i]) ==>
      Enabled(run[i], steps[i]) && run[i + 1] == Apply(run[i], steps[i]))
  }

  /** A group of one thread with nothing pending. */
  predicate Initial(g: Group) {
    && |g.ring| == 1 && g.target == g.ring[0] && g.target in g.blocked && g.target in g.priv
    && g.shared == Pending({}, []) && g.priv[g.target] == Pending({}, []) && !g.groupExit
  }

  lemma {:induction false} RunInv(run: seq<Group>, steps: seq<Step>, n: nat)
    requires IsRun(run, steps) && Initial(run[0]) && n < |run|
    ensures Inv(run[n])
  {
    if n > 0 {
      RunInv(run, steps, n - 1);
      InvStep(run[n - 1], steps[n - 1]);
    }
  }

  /** On every run, a shared signal that some live thread can take is on its way: a thread that can
      take it is flagged, and its next dequeue_signal() returns a signal. */
  lemma {:induction false} NoStrandedSignal(run: seq<Group>, steps: seq<Step>, n: nat, sig: int, t: Tid)
    returns (u: Tid)
    requires IsRun(run, steps) && Initial(run[0]) && n < |run|
    requires !run[n].groupExit && sig in run[n].shared.signal && Eligible(run[n], sig, t)
    ensures Inv(run[n]) && Eligible(run[n], sig, u) && u in run[n].flagged
    ensures Dequeue(run[n], u, run[n].blocked[u]).1 != 0
  {
    var g := run[n];
    RunInv(run, steps, n);
    assert Served(g, sig);
    u :| Eligible(g, sig, u) && u in g.flagged;
    assert sig in g.shared.signal - g.blocked[u];
  }
}
