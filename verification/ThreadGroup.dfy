/** The signal code of kernel/signal.c as it runs: fields updated in place, loops round the thread
    ring, each method tied to its step in module Signal. */
module ThreadGroup {
  import opened Basics
  import opened Signal
  import opened SignalEffects

  class SignalStruct {
    var ring: seq<Tid>
    var blocked: map<Tid, SigSet>
    var exiting: set<Tid>
    var flagged: set<Tid>
    var priv: map<Tid, Pending>
    var shared: Pending
    var target: Tid
    var groupExit: bool

    function View(): (g: Group)
      reads this
    {
      Group(ring, blocked, exiting, flagged, priv, shared, target, groupExit)
    }

    ghost predicate Valid()
      reads this
    {
      Inv(View())
    }

    constructor (leader: Tid, mask: SigSet)
      ensures Initial(View()) && Valid() && ring == [leader] && blocked[leader] == mask
    {
      ring, target := [leader], leader;
      blocked, priv := map[leader := mask], map[leader := Pending({}, [])];
      exiting, flagged, groupExit := {}, {}, false;
      shared := Pending({}, []);
    }

    /** The search of complete_signal(), from curr_target round the ring. */
    method FindTaker(running: set<Tid>, sig: int) returns (found: bool, t: Tid)
      requires Wf(View())
      ensures found ==> FindTarget(View(), running, sig, From(ring, target)) == [t]
      ensures !found ==> FindTarget(View(), running, sig, From(ring, target)) == []
    {
      t := target;
      ghost var walk := From(ring, target);
      ghost var j := 0;
      while !WantsSignal(View(), running, sig, t)
        invariant 0 <= j < |walk| && t == walk[j]
        invariant FindTarget(View(), running, sig, walk) == FindTarget(View(), running, sig, walk[j..])
        decreases |walk| - j
      {
        FromNext(ring, target, j);
        assert walk[j..][1..] == walk[j + 1..];
        t := NextThread(ring, t);
        if t == target {
          assert j + 1 == |walk| by {
            if j + 1 < |walk| { FromNext(ring, target, j + 1); }
          }
          return false, t;
        }
        j := j + 1;
      }
      found := true;
    }

    /** The do/while of complete_signal(): SIGKILL to every thread of the group. */
    method KillAll(p: Tid)
      requires Wf(View()) && p in ring
      modifies this`priv, this`flagged
      ensures Killed(old(priv), priv, set x | x in ring) && flagged == old(flagged) + set x | x in ring
    {
      var t := p;
      ghost var j := 0;
      KillStart(ring, p, priv);
      priv, flagged := priv[t := Kill(priv[t])], flagged + {t};
      t := NextThread(ring, t);
      j := 1;
      while t != p
        invariant j <= |ring| && KillLoop(ring, p, j, t, old(priv), priv, old(flagged), flagged)
        decreases |ring| - j
      {
        KillNext(ring, p, j, t, old(priv), priv, old(flagged), flagged);
        priv, flagged := priv[t := Kill(priv[t])], flagged + {t};
        t := NextThread(ring, t);
        j := j + 1;
      }
      CursorEnd(ring, p, j, t);
    }

    /** complete_signal() */
    method CompleteSignal(running: set<Tid>, fatal: bool, sig: int, p: Tid, group: bool)
      requires Wf(View()) && p in ring
      modifies this`target, this`priv, this`flagged, this`groupExit
      ensures View() == Complete(old(View()), running, fatal, sig, p, group)
      ensures exists v: Option<Tid> :: Completes(old(View()), View(), running, fatal, sig, p, group, v)
    {
      ghost var v := CompleteEffect(View(), running, fatal, sig, p, group);
      var t := p;
      if !WantsSignal(View(), running, sig, p) {
        if !group || |ring| == 1 {
          return;
        }
        var found;
        found, t := FindTaker(running, sig);
        if !found {
          return;
        }
        target := t;
      }
      DeliverTo(fatal, sig, p, t);
    }

    /** The end of complete_signal(): SIGKILL to all, or a flag for t. */
    method DeliverTo(fatal: bool, sig: int, p: Tid, t: Tid)
      requires Wf(View()) && p in ring
      modifies this`priv, this`flagged, this`groupExit
      ensures View() == Deliver(old(View()), fatal, sig, t)
    {
      if fatal && sig == SIGKILL && !groupExit {
        groupExit := true;
        KillAll(p);
        KilledIsMap(old(priv), priv, ring);
      } else {
        flagged := flagged + {t};
      }
    }

    /** send_signal(); false stands for -EAGAIN */
    method SendSignal(running: set<Tid>, fatal: bool, sig: int, payload: int, origin: Origin, memory: bool, t: Tid,
                      group: bool) returns (ok: bool)
      requires Valid() && t in ring && ValidSig(sig)
      modifies this
      ensures Valid() && View() == Apply(old(View()), SendStep(running, fatal, sig, payload, origin, memory, t, group))
      ensures !ok <==> sig >= SIGRTMIN && !memory && origin.User? && origin.rtCode
      ensures !ok ==> View() == old(View())
      ensures ok ==> Sends(old(View()), View(), sig, payload, origin, memory, t, group)
    {
      InvStep(View(), SendStep(running, fatal, sig, payload, origin, memory, t, group));
      SentEffect(View(), running, fatal, sig, payload, origin, memory, t, group);
      ok := Enqueue(running, fatal, sig, payload, origin, memory, t, group);
    }

    /** Its body. */
    method Enqueue(running: set<Tid>, fatal: bool, sig: int, payload: int, origin: Origin, memory: bool, t: Tid,
                   group: bool)
      returns (ok: bool)
      requires Wf(View()) && t in ring
      modifies this
      ensures var r := Send(old(View()), running, fatal, sig, payload, origin, memory, t, group);
        ok == r.Sent? && View() == if r.Sent? then r.g else old(View())
    {
      var p := if group then shared else priv[t];
      if sig < SIGRTMIN && sig in p.signal {
        return true;
      }
      var list := p.list;
      if !origin.Forced? {
        if memory {
          list := list + [Info(sig, payload)];
        } else if origin.User? && sig >= SIGRTMIN && origin.rtCode {
          return false;
        }
      }
      if group {
        shared := Pending(p.signal + {sig}, list);
      } else {
        priv := priv[t := Pending(p.signal + {sig}, list)];
      }
      CompleteSignal(running, fatal, sig, t, group);
      ok := true;
    }

    /** recalc_sigpending() */
    method RecalcSigpending(t: Tid)
      requires t in priv && t in blocked
      modifies this`flagged
      ensures View() == Recalc(old(View()), t)
      ensures t in flagged <==> Deliverable(priv[t].signal, shared.signal, blocked[t])
      ensures forall u: Tid :: u != t ==> (u in flagged <==> u in old(flagged))
    {
      RecalcEffect(View(), t);
      if HasPending(priv[t], blocked[t]) || HasPending(shared, blocked[t]) {
        flagged := flagged + {t};
      } else {
        flagged := flagged - {t};
      }
    }

    /** retarget_shared_pending() */
    method RetargetSharedPending(tsk: Tid, which: SigSet)
      requires Wf(View()) && tsk in ring
      modifies this`flagged
      ensures View() == Retarget(old(View()), tsk, which)
      ensures forall u: Tid :: u in flagged <==> u in old(flagged) || TakesOver(old(View()), tsk, which, u)
    {
      forall u: Tid ensures u in Retarget(View(), tsk, which).flagged <==>
        u in flagged || TakesOver(View(), tsk, which, u) {
        RetargetEffect(View(), tsk, which, u);
      }
      flagged := RetargetFlags(View(), tsk, which);
    }

    /** __set_task_blocked() */
    method SetTaskBlocked(tsk: Tid, newset: SigSet)
      requires Valid() && tsk in ring
      modifies this`flagged, this`blocked
      ensures Valid() && View() == SetBlocked(old(View()), tsk, newset) && blocked == old(blocked)[tsk := newset]
      ensures tsk in flagged <==> Deliverable(priv[tsk].signal, shared.signal, newset)
      ensures PassedOn(old(View()), tsk, newset - old(blocked)[tsk], tsk in old(flagged) && |ring| > 1, flagged)
    {
      InvStep(View(), BlockStep(tsk, newset));
      if tsk in flagged && |ring| > 1 {
        RetargetSharedPending(tsk, newset - blocked[tsk]);
      }
      blocked := blocked[tsk := newset];
      RecalcSigpending(tsk);
    }

    /** exit_signals() */
    method ExitSignals(tsk: Tid)
      requires Valid() && tsk in ring
      modifies this`flagged, this`exiting
      ensures Valid() && View() == Exit(old(View()), tsk) && exiting == old(exiting) + {tsk}
      ensures PassedOn(old(View()).(exiting := exiting), tsk, shared.signal - blocked[tsk],
                tsk in old(flagged) && |ring| > 1 && !groupExit, flagged)
    {
      InvStep(View(), ExitStep(tsk));
      exiting := exiting + {tsk};
      if |ring| == 1 || groupExit || tsk !in flagged {
        return;
      }
      RetargetSharedPending(tsk, shared.signal - blocked[tsk]);
    }

    /** dequeue_signal(); info is the siginfo of the entry taken, if it had one. */
    method DequeueSignal(t: Tid, mask: SigSet) returns (sig: int, info: Option<Info>)
      requires Valid() && t in ring
      modifies this`priv, this`shared, this`flagged
      ensures Valid() && (View(), sig) == Dequeue(old(View()), t, mask) && t in priv && priv == old(priv)[t := priv[t]]
      ensures Dequeues(old(priv)[t], old(shared), mask, sig, info, priv[t], shared)
      ensures t in flagged <==> Deliverable(priv[t].signal, shared.signal, blocked[t])
    {
      InvStep(View(), DequeueStep(t, mask));
      sig, info := TakePending(t, mask);
      RecalcSigpending(t);
    }

    /** __dequeue_signal() on the private set, then on the shared one. */
    method TakePending(t: Tid, mask: SigSet) returns (sig: int, info: Option<Info>)
      requires Wf(View()) && t in ring && PendOk(priv[t]) && PendOk(shared)
      modifies this`priv, this`shared
      ensures (View(), sig) == Taken(old(View()), t, mask) && t in priv && priv == old(priv)[t := priv[t]]
      ensures Dequeues(old(priv)[t], old(shared), mask, sig, info, priv[t], shared)
    {
      info := None;
      sig := NextSignal(priv[t], mask);
      if sig != 0 {
        var p;
        p, info := CollectSignal(sig, priv[t]);
        priv := priv[t := p];
      } else {
        sig := NextSignal(shared, mask);
        if sig != 0 {
          shared, info := CollectSignal(sig, shared);
        }
      }
      DequeueEffect(old(priv)[t], old(shared), mask, sig, info, priv[t], shared);
    }
  }

  /** The walk of retarget_shared_pending(), with the TIF_SIGPENDING flags it leaves. */
  method RetargetFlags(g: Group, tsk: Tid, which: SigSet) returns (flagged: set<Tid>)
    requires Wf(g) && tsk in g.ring
    ensures flagged == Retarget(g, tsk, which).flagged
  {
    flagged := g.flagged;
    var retarget := g.shared.signal * which;
    if retarget == {} {
      return;
    }
    ghost var j, goal := 1, Retarget(g, tsk, which).flagged;
    CursorStart(g.ring, tsk);
    var t := NextThread(g.ring, tsk);
    while t != tsk
      invariant j <= |g.ring| && RetargetLoop(g, tsk, j, t, retarget, flagged, goal)
      decreases |g.ring| - j
    {
      RetargetNext(g, tsk, j, t, retarget, flagged, goal);
      if t !in g.exiting && retarget - g.blocked[t] != {} {
        retarget := retarget * g.blocked[t];
        flagged := flagged + {t};
        if retarget == {} {
          return;
        }
      }
      t := NextThread(g.ring, t);
      j := j + 1;
    }
    CursorEnd(g.ring, tsk, j, t);
  }

  /** What the rest of the walk adds to the flags brings them to the goal. */
  ghost predicate RetargetLoop(g: Group, tsk: Tid, j: nat, t: Tid, retarget: SigSet, flagged: set<Tid>,
                            goal: set<Tid>) {
    Wf(g) && Cursor(g.ring, tsk, j, t) && flagged + RetargetWalk(g, retarget, From(g.ring, tsk)[j..]) == goal
  }

  lemma {:induction false} RetargetNext(g: Group, tsk: Tid, j: nat, t: Tid, retarget: SigSet, flagged: set<Tid>,
                            goal: set<Tid>)
    requires RetargetLoop(g, tsk, j, t, retarget, flagged, goal) && t != tsk
    ensures t in g.ring && j < |g.ring| && t in g.blocked
    ensures t in g.exiting || retarget - g.blocked[t] == {} ==>
      RetargetLoop(g, tsk, j + 1, NextThread(g.ring, t), retarget, flagged, goal)
    ensures t !in g.exiting && retarget - g.blocked[t] != {} && retarget * g.blocked[t] == {} ==> flagged + {t} == goal
    ensures t !in g.exiting && retarget - g.blocked[t] != {} && retarget * g.blocked[t] != {} ==>
      RetargetLoop(g, tsk, j + 1, NextThread(g.ring, t), retarget * g.blocked[t], flagged + {t}, goal)
  {
    CursorNext(g.ring, tsk, j, t);
    var walk := From(g.ring, tsk);
    assert walk[j..][0] == t && walk[j..][1..] == walk[j + 1..];
  }

  /** The loop of collect_signal(): the first entry for the signal, and whether there is a second. */
  method CollectSignal(sig: int, p: Pending) returns (p': Pending, info: Option<Info>)
    ensures p' == Collect(p, sig) && info == Handed(p.list, sig)
  {
    var i, first := 0, -1;
    assert p.list[0..] == p.list;
    while i < |p.list|
      invariant 0 <= i <= |p.list| && -1 <= first < i
      invariant first < 0 ==> Seeking(p.list, sig, i)
      invariant first >= 0 ==> Found(p.list, sig, i, first)
    {
      if first < 0 { SeekNext(p.list, sig, i); } else { FoundNext(p.list, sig, i, first); }
      if p.list[i].signo == sig {
        if first >= 0 {
          return Pending(p.signal, p.list[..first] + p.list[first + 1..]), Some(p.list[first]);
        }
        first := i;
      }
      i := i + 1;
    }
    if first >= 0 {
      FoundEnds(p.list, sig, first);
      return Pending(p.signal - {sig}, p.list[..first] + p.list[first + 1..]), Some(p.list[first]);
    }
    SeekEnds(p.list, sig);
    return Pending(p.signal - {sig}, p.list), None;
  }

  /** No entry of sig before i. */
  ghost predicate Seeking(list: seq<Info>, sig: int, i: nat) {
    && i <= |list| && Queued(list, sig) == Queued(list[i..], sig) && Handed(list, sig) == Handed(list[i..], sig)
    && WithoutFirst(list, sig) == list[..i] + WithoutFirst(list[i..], sig)
  }

  /** One entry of sig before i, at first. */
  ghost predicate Found(list: seq<Info>, sig: int, i: nat, first: nat) {
    && first < i <= |list| && Queued(list, sig) == 1 + Queued(list[i..], sig) && Handed(list, sig) == Some(list[first])
    && WithoutFirst(list, sig) == list[..first] + list[first + 1..]
  }

  lemma {:induction false} FoundEnds(list: seq<Info>, sig: int, first: nat)
    requires Found(list, sig, |list|, first)
    ensures Queued(list, sig) == 1
  {
    assert list[|list|..] == [];
  }

  lemma {:induction false} SeekEnds(list: seq<Info>, sig: int)
    requires Seeking(list, sig, |list|)
    ensures Queued(list, sig) == 0 && Handed(list, sig) == None && WithoutFirst(list, sig) == list
  {
    assert list[|list|..] == [] && list[..|list|] + [] == list;
  }

  lemma {:induction false} SeekNext(list: seq<Info>, sig: int, i: nat)
    requires Seeking(list, sig, i) && i < |list|
    ensures if list[i].signo == sig then Found(list, sig, i + 1, i) else Seeking(list, sig, i + 1)
  {
    var r := WithoutFirst(list[i + 1..], sig);
    assert list[i..][1..] == list[i + 1..] && list[i..][0] == list[i];
    if list[i].signo != sig {
      assert list[..i] + ([list[i]] + r) == list[..i + 1] + r;
    }
  }

  lemma {:induction false} FoundNext(list: seq<Info>, sig: int, i: nat, first: nat)
    requires Found(list, sig, i, first) && i < |list|
    ensures if list[i].signo == sig then Queued(list, sig) >= 2 else Found(list, sig, i + 1, first)
  {
    assert list[i..][1..] == list[i + 1..] && list[i..][0] == list[i];
  }

  lemma {:induction false} KilledIsMap(before: map<Tid, Pending>, after: map<Tid, Pending>, ring: seq<Tid>)
    requires Killed(before, after, set x | x in ring)
    ensures after == map x | x in before :: if x in ring then before[x].(signal := before[x].signal + {SIGKILL})
      else before[x]
  {
  }

  ghost predicate KillLoop(ring: seq<Tid>, p: Tid, j: nat, t: Tid, priv0: map<Tid, Pending>, priv: map<Tid, Pending>,
                           flagged0: set<Tid>, flagged: set<Tid>) {
    && Cursor(ring, p, j, t) && (forall x <- ring :: x in priv0)
    && Killed(priv0, priv, Seen(ring, p, j)) && flagged == flagged0 + Seen(ring, p, j)
  }

  lemma {:induction false} KillStart(ring: seq<Tid>, p: Tid, priv: map<Tid, Pending>)
    requires Distinct(ring) && p in ring && (forall x <- ring :: x in priv)
    ensures p in priv
    ensures forall flagged ::
      KillLoop(ring, p, 1, NextThread(ring, p), priv, priv[p := Kill(priv[p])], flagged, flagged + {p})
  {
    CursorStart(ring, p);
  }

  lemma {:induction false} KillNext(ring: seq<Tid>, p: Tid, j: nat, t: Tid, priv0: map<Tid, Pending>, priv: map<Tid,
                            Pending>, flagged0: set<Tid>, flagged: set<Tid>)
    requires KillLoop(ring, p, j, t, priv0, priv, flagged0, flagged) && t != p
    ensures t in ring && t in priv && j < |ring|
    ensures KillLoop(ring, p, j + 1, NextThread(ring, t), priv0, priv[t := Kill(priv[t])], flagged0, flagged + {t})
  {
    CursorNext(ring, p, j, t);
    KillOne(priv0, priv, Seen(ring, p, j), t);
  }

  // ---- a walk with next_thread() from p back to p ----

  ghost function Seen(ring: seq<Tid>, p: Tid, j: nat): set<Tid>
    requires p in ring && j <= |ring|
  {
    set x | x in From(ring, p)[..j]
  }

  /** t is the j-th thread after p, or p itself once all have been met. */
  ghost predicate Cursor(ring: seq<Tid>, p: Tid, j: nat, t: Tid) {
    && Distinct(ring) && p in ring && 1 <= j <= |ring|
    && t == if j < |ring| then From(ring, p)[j] else p
  }

  lemma {:induction false} CursorStart(ring: seq<Tid>, p: Tid)
    requires Distinct(ring) && p in ring
    ensures Cursor(ring, p, 1, NextThread(ring, p)) && Seen(ring, p, 1) == {p}
  {
    FromNext(ring, p, 0);
    assert From(ring, p)[..1] == [p];
  }

  lemma {:induction false} CursorNext(ring: seq<Tid>, p: Tid, j: nat, t: Tid)
    requires Cursor(ring, p, j, t) && t != p
    ensures t in ring && j < |ring| && Cursor(ring, p, j + 1, NextThread(ring, t))
    ensures t !in Seen(ring, p, j) && Seen(ring, p, j + 1) == Seen(ring, p, j) + {t}
  {
    var walk := From(ring, p);
    FromNext(ring, p, j);
    FromDistinct(ring, p);
    assert walk[..j + 1] == walk[..j] + [t];
  }

  /** The walk meets no thread twice. */
  lemma {:induction false} FromDistinct(ring: seq<Tid>, p: Tid)
    requires Distinct(ring) && p in ring
    ensures Distinct(From(ring, p))
  {
    var k, walk := IndexOf(ring, p), From(ring, p);
    assert forall i :: 0 <= i < |ring| ==> walk[i] == ring[if i + k < |ring| then i + k else i + k - |ring|];
  }

  lemma {:induction false} CursorEnd(ring: seq<Tid>, p: Tid, j: nat, t: Tid)
    requires Cursor(ring, p, j, t) && t == p
    ensures j == |ring| && Seen(ring, p, j) == set x | x in ring
  {
    if j < |ring| {
      FromNext(ring, p, j);
    }
    assert From(ring, p)[..|ring|] == From(ring, p);
    forall x | x in ring ensures x in Seen(ring, p, |ring|) { FromAll(ring, p, x); }
  }

  function Kill(p: Pending): Pending { p.(signal := p.signal + {SIGKILL}) }

  predicate Killed(before: map<Tid, Pending>, after: map<Tid, Pending>, done: set<Tid>) {
    && after.Keys == before.Keys
    && (forall x <- after :: after[x] == if x in done then Kill(before[x]) else before[x])
  }

  lemma {:induction false} KillOne(before: map<Tid, Pending>, after: map<Tid, Pending>, done: set<Tid>, t: Tid)
    requires Killed(before, after, done) && t in before && t !in done
    ensures Killed(before, after[t := Kill(after[t])], done + {t})
  {
  }
}
