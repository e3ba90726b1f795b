/** Where futex_requeue() leaves a waiter, and what a later wake-all on its word does to it (kernel/futex.c). */
module FutexMoved {
  import opened Basics
  import opened Futex

  /** A requeue has linked v to chain b and has yet to store its new key. */
  predicate Settling(pc: Pc, b: nat, v: nat) { (pc.MovePtr? || pc.MoveKey?) && pc.v == v && Dst(pc.j) == b }

  /** v, on chain b, waits on a key of that bucket, or is about to. */
  ghost predicate Settled(s: State, b: nat, v: nat) {
    || (v < |s.qs| && s.qs[v].key < |s.hash| && s.hash[s.qs[v].key] == b)
    || (exists u: nat :: u < |s.pcs| && Settling(s.pcs[u], b, v))
  }

  ghost predicate SettledInv(s: State) { forall b: nat, v: nat :: OnChain(s.chains, b, v) ==> Settled(s, b, v) }

  // ---- what a step does to the entry of a chained waiter ----

  /** The step of t keeps the entry of v, settles it on chain b, or unlinks it. */
  ghost predicate EntryMoves(s: State, t: nat, u: Update, b: nat, v: nat)
    requires UpdateWf(s, t, u) && v < |s.qs|
  {
    || (Do(s, t, u).qs[v] == s.qs[v] && (Settling(s.pcs[t], b, v) ==> Settling(u.pc, b, v)))
    || (var key := Do(s, t, u).qs[v].key; key < |s.hash| && s.hash[key] == b)
    || !OnChain(Do(s, t, u).chains, b, v)
  }

  lemma {:induction false} MovesStart(s: State, t: nat, a: Action, b: nat, v: nat)
    requires Local(s, t) && CanStart(s, t, a) && UpdateWf(s, t, Start(s, t, a)) && ChainedOk(s, b, v)
    ensures EntryMoves(s, t, Start(s, t, a), b, v)
  {}

  lemma {:induction false} MovesWaiter(s: State, t: nat, c: nat, b: nat, v: nat)
    requires Local(s, t) && CanStep(s, t, c) && Waiting(s.pcs[t]) && UpdateWf(s, t, WaiterStep(s, t, c))
      && ChainedOk(s, b, v)
    ensures EntryMoves(s, t, WaiterStep(s, t, c), b, v)
  {}

  lemma {:induction false} MovesScan(s: State, t: nat, b: nat, v: nat)
    requires Local(s, t) && s.pcs[t].Scan? && UpdateWf(s, t, ScanStep(s, t)) && OnceInv(s.chains)
      && OnChain(s.chains, b, v)
    requires ChainedOk(s, b, v)
    ensures EntryMoves(s, t, ScanStep(s, t), b, v)
  {
    var u, d, i := ScanStep(s, t), Src(s.pcs[t].j), s.pcs[t].i;
    if u.entry.Some? && u.entry.value.0 == v {
      assert OnChain(s.chains, d, v) && b == d;
      if u.chain.Drop? { OnChainDrop(s.chains, d, i); }
    }
  }

  lemma {:induction false} MovesWaker(s: State, t: nat, c: nat, b: nat, v: nat)
    requires Local(s, t) && CanStep(s, t, c) && !Waiting(s.pcs[t]) && !s.pcs[t].Scan?
      && UpdateWf(s, t, WakerStep(s, t, c))
    requires OnceInv(s.chains) && KeyInv(s) && OnChain(s.chains, b, v) && ChainedOk(s, b, v)
    ensures EntryMoves(s, t, WakerStep(s, t, c), b, v)
  {}

  lemma {:induction false} Moves(s: State, t: nat, a: Action, b: nat, v: nat)
    requires Inv(s) && Enabled(s, t, a) && UpdateWf(s, t, Plan(s, t, a)) && OnChain(s.chains, b, v)
    ensures v < |s.qs| && EntryMoves(s, t, Plan(s, t, a), b, v)
  {
    assert ChainedOk(s, b, v);
    if !a.Step? { MovesStart(s, t, a, b, v); }
    else if Waiting(s.pcs[t]) { MovesWaiter(s, t, a.c, b, v); }
    else if s.pcs[t].Scan? { MovesScan(s, t, b, v); }
    else { MovesWaker(s, t, a.c, b, v); }
  }

  /** An entry is linked by its own thread, on the chain of its key, or by a requeue that has yet to store the new
      key. */
  ghost predicate LinkOk(s: State, t: nat, u: Update)
    requires t < |s.pcs|
  {
    u.chain.Insert? ==>
      || (u.chain.v == t && s.pcs[t] == WQueue(u.chain.b) && u.entry.None?)
      || Settling(u.pc, u.chain.b, u.chain.v)
  }

  lemma {:induction false} LinksWaiter(s: State, t: nat, c: nat)
    requires Local(s, t) && CanStep(s, t, c) && Waiting(s.pcs[t])
    ensures LinkOk(s, t, WaiterStep(s, t, c))
  {}

  lemma {:induction false} LinksWaker(s: State, t: nat, c: nat)
    requires Local(s, t) && CanStep(s, t, c) && !Waiting(s.pcs[t])
    ensures LinkOk(s, t, WakerStep(s, t, c))
  {}

  lemma {:induction false} Links(s: State, t: nat, a: Action)
    requires Enabled(s, t, a)
    ensures LinkOk(s, t, Plan(s, t, a))
  {
    if a.Step? {
      if Waiting(s.pcs[t]) { LinksWaiter(s, t, a.c); } else { LinksWaker(s, t, a.c); }
    }
  }

  // ---- the invariant ----

  lemma {:induction false} StaysSettled(s: State, t: nat, u: Update, b: nat, v: nat)
    requires UpdateWf(s, t, u) && v < |s.qs| && Settled(s, b, v) && EntryMoves(s, t, u, b, v)
      && OnChain(Do(s, t, u).chains, b, v)
    ensures Settled(Do(s, t, u), b, v)
  {
    var s' := Do(s, t, u);
    if !(s.qs[v].key < |s.hash| && s.hash[s.qs[v].key] == b) {
      var w: nat :| w < |s.pcs| && Settling(s.pcs[w], b, v);
      assert w != t ==> Settling(s'.pcs[w], b, v);
      assert w == t && Settling(u.pc, b, v) ==> Settling(s'.pcs[w], b, v);
    }
  }

  lemma {:induction false} LinkSettles(s: State, t: nat, u: Update, b: nat, v: nat)
    requires UpdateWf(s, t, u) && KeyInv(s) && LinkOk(s, t, u)
    requires !OnChain(s.chains, b, v) && OnChain(Do(s, t, u).chains, b, v)
    ensures Settled(Do(s, t, u), b, v)
  {
    var s' := Do(s, t, u);
    assert u.chain.Insert? && u.chain.b == b && u.chain.v == v by {
      if u.chain.Insert? { OnChainInsert(s.chains, u.chain.b, u.chain.i, u.chain.v); }
    }
    if Settling(u.pc, b, v) { assert Settling(s'.pcs[t], b, v); }
  }

  lemma {:induction false} SettledStep(s: State, t: nat, a: Action)
    requires Inv(s) && SettledInv(s) && Enabled(s, t, a) && UpdateWf(s, t, Plan(s, t, a))
    ensures SettledInv(Do(s, t, Plan(s, t, a)))
  {
    var u := Plan(s, t, a);
    var s' := Do(s, t, u);
    Links(s, t, a);
    forall b: nat, v: nat | OnChain(s'.chains, b, v) ensures Settled(s', b, v) {
      if OnChain(s.chains, b, v) {
        Moves(s, t, a, b, v);
        StaysSettled(s, t, u, b, v);
      } else {
        LinkSettles(s, t, u, b, v);
      }
    }
  }

  lemma {:induction false} NextSettled(s: State, s': State)
    requires Inv(s) && SettledInv(s) && Next(s, s')
    ensures SettledInv(s')
  {
    var t: nat, a: Action :| Enabled(s, t, a) && UpdateWf(s, t, Plan(s, t, a)) && s' == Do(s, t, Plan(s, t, a));
    SettledStep(s, t, a);
  }

  lemma {:induction false} RunSettled(run: seq<State>, i: nat)
    requires IsRun(run) && i < |run|
    ensures SettledInv(run[i])
  {
    if i > 0 {
      var k := i - 1;
      RunSettled(run, k);
      RunInv(run, k);
      StepOf(run, k);
      NextSettled(run[k], run[k + 1]);
    }
  }

  /** A chained waiter, moved or not, is on the chain of the key it waits on, or a requeue that holds that bucket's lock
      is about to store that key. */
  lemma {:induction false} OnKeyChain(run: seq<State>, i: nat, b: nat, v: nat)
    requires IsRun(run) && i < |run| && OnChain(run[i].chains, b, v)
    ensures v < |run[i].qs| && b < |run[i].locks|
    ensures || (run[i].qs[v].key < |run[i].hash| && run[i].hash[run[i].qs[v].key] == b)
            || (run[i].locks[b].Some? && run[i].locks[b].value < |run[i].pcs|
                && Settling(run[i].pcs[run[i].locks[b].value], b, v))
  {
    RunInv(run, i);
    RunSettled(run, i);
    var s := run[i];
    assert ChainedOk(s, b, v);
    if !(s.qs[v].key < |s.hash| && s.hash[s.qs[v].key] == b) {
      var u: nat :| u < |s.pcs| && Settling(s.pcs[u], b, v);
      assert Holds(s.pcs[u], b);
    }
  }

  // ---- a wake-all that starts while a waiter is queued takes it ----

  /** v is queued on the word of this key. */
  ghost predicate WaitsOn(s: State, key: nat, v: nat) {
    key < |s.hash| && v < |s.qs| && s.qs[v].key == key && OnChain(s.chains, s.hash[key], v)
  }

  /** Until it is off the chain or moved on, a wake-all keeps it in its sights, whoever steps. */
  lemma {:induction false} SightKept(s: State, t: nat, a: Action, k: nat, key: nat, v: nat)
    requires Inv(s) && Enabled(s, t, a) && UpdateWf(s, t, Plan(s, t, a)) && k < |s.pcs|
    requires WaitsOn(s, key, v) && WaitsOn(Do(s, t, Plan(s, t, a)), key, v) && WillWake(s.chains, s.pcs[k], key, v)
    ensures WillWake(Do(s, t, Plan(s, t, a)).chains, Do(s, t, Plan(s, t, a)).pcs[k], key, v)
  {
    var b := s.hash[key];
    if k != t {
      Guarding(s, t, a);
      SightOther(s, t, Plan(s, t, a), k, key, v);
    } else if s.pcs[t].Scan? {
      SightScan(s, t, b, v);
    } else {
      SightWaker(s, t, a.c, b, v);
    }
  }

  /** How v stops waiting: a waker unlinks it, it unlinks itself, or a requeue moves it on. */
  ghost predicate Leaves(s: State, s': State, v: nat) {
    exists u: nat :: u < |s.pcs| == |s'.pcs| && LeavesBy(s, s', u, v)
  }

  predicate LeavesBy(s: State, s': State, u: nat, v: nat)
    requires u < |s.pcs| == |s'.pcs|
  {
    || (s.pcs[u].Scan? && s'.pcs[u].MarkDec? && s'.pcs[u].v == v)
    || (u == v && s.pcs[v].WVerify? && s'.pcs[v].WDel?)
    || ((s.pcs[u].Scan? || s.pcs[u].MoveKey?) && s.pcs[u].j.Requeueing? && v < |s'.qs| && s'.qs[v].moved)
  }

  lemma {:induction false} LeavesWaiter(s: State, t: nat, c: nat, key: nat, v: nat)
    requires Local(s, t) && CanStep(s, t, c) && Waiting(s.pcs[t]) && UpdateWf(s, t, WaiterStep(s, t, c))
    requires WaitsOn(s, key, v) && !WaitsOn(Do(s, t, WaiterStep(s, t, c)), key, v)
    ensures LeavesBy(s, Do(s, t, WaiterStep(s, t, c)), t, v)
  {
    var u := WaiterStep(s, t, c);
    if u.chain.Drop? { DroppedIs(s.chains, u.chain.b, u.chain.i, s.hash[key], v); }
    if u.chain.Insert? { OnChainInsert(s.chains, u.chain.b, u.chain.i, u.chain.v); }
  }

  lemma {:induction false} LeavesScan(s: State, t: nat, key: nat, v: nat)
    requires Local(s, t) && s.pcs[t].Scan? && UpdateWf(s, t, ScanStep(s, t))
    requires WaitsOn(s, key, v) && !WaitsOn(Do(s, t, ScanStep(s, t)), key, v)
    ensures LeavesBy(s, Do(s, t, ScanStep(s, t)), t, v)
  {
    var u := ScanStep(s, t);
    if u.chain.Drop? { DroppedIs(s.chains, u.chain.b, u.chain.i, s.hash[key], v); }
  }

  lemma {:induction false} LeavesWaker(s: State, t: nat, c: nat, key: nat, v: nat)
    requires Local(s, t) && CanStep(s, t, c) && !Waiting(s.pcs[t]) && !s.pcs[t].Scan?
      && UpdateWf(s, t, WakerStep(s, t, c))
    requires KeyInv(s) && WaitsOn(s, key, v) && !WaitsOn(Do(s, t, WakerStep(s, t, c)), key, v)
    ensures LeavesBy(s, Do(s, t, WakerStep(s, t, c)), t, v)
  {
    var u := WakerStep(s, t, c);
    if u.chain.Insert? { OnChainInsert(s.chains, u.chain.b, u.chain.i, u.chain.v); }
  }

  /** The only entry a drop can take off its chain is the one dropped. */
  lemma {:induction false} DroppedIs(chains: seq<seq<nat>>, d: nat, i: nat, b: nat, v: nat)
    requires d < |chains| && i < |chains[d]| && OnChain(chains, b, v)
    ensures OnChain(chains[d := DropAt(chains[d], i)], b, v) || (b == d && v == chains[d][i])
  {
    if b == d && v != chains[d][i] {
      var k: nat :| k < |chains[d]| && chains[d][k] == v;
      var r := DropAt(chains[d], i);
      assert r[if k < i then k else k - 1] == v;
    }
  }

  lemma {:induction false} LeavesStep(s: State, t: nat, a: Action, key: nat, v: nat)
    requires Inv(s) && Enabled(s, t, a) && UpdateWf(s, t, Plan(s, t, a))
    requires WaitsOn(s, key, v) && !WaitsOn(Do(s, t, Plan(s, t, a)), key, v)
    ensures Leaves(s, Do(s, t, Plan(s, t, a)), v)
  {
    var s' := Do(s, t, Plan(s, t, a));
    assert ChainedOk(s, s.hash[key], v);
    assert a.Step?;
    if Waiting(s.pcs[t]) { LeavesWaiter(s, t, a.c, key, v); }
    else if s.pcs[t].Scan? { LeavesScan(s, t, key, v); }
    else { LeavesWaker(s, t, a.c, key, v); }
    assert LeavesBy(s, s', t, v);
  }

  lemma {:induction false} NextWaits(s: State, s': State, k: nat, key: nat, v: nat)
    requires Inv(s) && Next(s, s') && k < |s.pcs| && WaitsOn(s, key, v) && WillWake(s.chains, s.pcs[k], key, v)
    ensures |s'.pcs| == |s.pcs| && if WaitsOn(s', key, v) then WillWake(s'.chains, s'.pcs[k], key, v)
      else Leaves(s, s', v)
  {
    var t: nat, a: Action :| Enabled(s, t, a) && UpdateWf(s, t, Plan(s, t, a)) && s' == Do(s, t, Plan(s, t, a));
    if WaitsOn(s', key, v) { SightKept(s, t, a, k, key, v); } else { LeavesStep(s, t, a, key, v); }
  }

  /** What NextWaits says, at every step from i to j. */
  ghost predicate Kept(run: seq<State>, i: nat, j: nat, k: nat, key: nat, v: nat)
    requires j < |run|
    decreases j - i
  {
    i < j ==>
      && (WaitsOn(run[i], key, v) && Sees(run[i], k, key, v) ==>
            if WaitsOn(run[i + 1], key, v) then Sees(run[i + 1], k, key, v) else Leaves(run[i], run[i + 1], v))
      && Kept(run, i + 1, j, k, key, v)
  }

  /** Thread k is in a wake-all that has v still before it. */
  predicate Sees(s: State, k: nat, key: nat, v: nat) { k < |s.pcs| && WillWake(s.chains, s.pcs[k], key, v) }

  lemma {:induction false} RunKeeps(run: seq<State>, i: nat, j: nat, k: nat, key: nat, v: nat)
    requires IsRun(run) && j < |run|
    ensures Kept(run, i, j, k, key, v)
    decreases j - i
  {
    if i < j {
      RunKeeps(run, i + 1, j, k, key, v);
      if WaitsOn(run[i], key, v) && Sees(run[i], k, key, v) {
        RunInv(run, i);
        StepOf(run, i);
        NextWaits(run[i], run[i + 1], k, key, v);
      }
    }
  }

  lemma {:induction false} KeptTakes(run: seq<State>, i: nat, j: nat, k: nat, key: nat, v: nat) returns (n: nat)
    requires i <= j < |run| && Kept(run, i, j, k, key, v)
    requires WaitsOn(run[i], key, v) && Sees(run[i], k, key, v) && !Sees(run[j], k, key, v)
    ensures i <= n < j && (forall m :: i <= m <= n ==> WaitsOn(run[m], key, v)) && !WaitsOn(run[n + 1], key, v)
    ensures Leaves(run[n], run[n + 1], v)
    decreases j - i
  {
    if WaitsOn(run[i + 1], key, v) {
      n := KeptTakes(run, i + 1, j, k, key, v);
    } else {
      n := i;
    }
  }

  /** A store-and-wake-all of thread k on a word v waits on, requeued there or not: when the call has returned, v
      has been woken, unless it gave up by itself or was moved on before. */
  lemma {:induction false} WakeAllTakes(run: seq<State>, i: nat, j: nat, k: nat, key: nat, v: nat) returns (n: nat)
    requires IsRun(run) && i <= j < |run| && k < |run[i].pcs| && k < |run[j].pcs|
    requires WaitsOn(run[i], key, v) && Early(run[i].pcs[k], key) && run[j].pcs[k].Idle?
    ensures i <= n < j && (forall m :: i <= m <= n ==> WaitsOn(run[m], key, v)) && !WaitsOn(run[n + 1], key, v)
    ensures Leaves(run[n], run[n + 1], v)
  {
    RunKeeps(run, i, j, k, key, v);
    n := KeptTakes(run, i, j, k, key, v);
  }
}
