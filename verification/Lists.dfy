/** Circular doubly linked lists (the kernel's `struct list_head`) as link maps,
    and the rings of addresses they represent. */
module Lists {

  type Addr = nat

  datatype Links = Links(next: map<Addr, Addr>, prev: map<Addr, Addr>)

  /** Both link fields exist at address a. */
  predicate Known(l: Links, a: Addr) { a in l.next && a in l.prev }

  /** list_empty(&a) */
  predicate SelfLinked(l: Links, a: Addr) {
    Known(l, a) && l.next[a] == a && l.prev[a] == a
  }

  predicate Distinct(s: seq<Addr>) {
    forall i, j :: 0 <= i < j < |s| ==> s[i] != s[j]
  }

  /** s lists, in order, the addresses of one ring of l, from some starting point. */
  ghost predicate Ring(l: Links, s: seq<Addr>) {
    && |s| > 0 && Distinct(s)
    && (forall i :: 0 <= i < |s| ==> Known(l, s[i]))
    && (forall i :: 0 <= i < |s| - 1 ==> l.next[s[i]] == s[i + 1])
    && (forall i :: 0 < i < |s| ==> l.prev[s[i]] == s[i - 1])
    && l.next[s[|s| - 1]] == s[0]
    && l.prev[s[0]] == s[|s| - 1]
  }

  /** Entries outside s that were unlinked still are. */
  ghost predicate Untouched(l: Links, l': Links, s: seq<Addr>) {
    forall a :: a !in s && SelfLinked(l, a) ==> SelfLinked(l', a)
  }

  /** INIT_LIST_HEAD */
  function Init(l: Links, a: Addr): Links {
    Links(l.next[a := a], l.prev[a := a])
  }

  /** __list_add: link n between the adjacent entries p and q. */
  function Link(l: Links, n: Addr, p: Addr, q: Addr): Links {
    Links(l.next[n := q][p := n], l.prev[q := n][n := p])
  }

  /** list_add_tail: insert n just before pos. */
  function AddTail(l: Links, n: Addr, pos: Addr): Links
    requires Known(l, pos)
  {
    Link(l, n, l.prev[pos], pos)
  }

  /** list_add: insert n just after pos. */
  function Add(l: Links, n: Addr, pos: Addr): Links
    requires Known(l, pos)
  {
    Link(l, n, pos, l.next[pos])
  }

  /** list_del_init */
  function DelInit(l: Links, n: Addr): Links
    requires Known(l, n)
  {
    Init(Links(l.next[l.prev[n] := l.next[n]], l.prev[l.next[n] := l.prev[n]]), n)
  }

  /** A ring may be read from any of its entries. */
  lemma {:induction false} RingRotate(l: Links, s: seq<Addr>, k: nat)
    requires Ring(l, s) && k < |s|
    ensures Ring(l, s[k..] + s[..k])
  {
    var r := s[k..] + s[..k];
    assert forall i :: 0 <= i < |s| ==> r[i] == s[if i + k < |s| then i + k else i + k - |s|];
  }

  /** Linking a new entry after the last one extends the ring. */
  lemma {:induction false} RingAppend(l: Links, s: seq<Addr>, n: Addr)
    requires Ring(l, s) && n !in s
    ensures Ring(Link(l, n, s[|s| - 1], s[0]), s + [n])
  {
    var l' := Link(l, n, s[|s| - 1], s[0]);
    var r := s + [n];
    assert forall i :: 0 <= i < |s| ==> r[i] == s[i];
    forall i | 0 <= i < |r| - 1 ensures l'.next[r[i]] == r[i + 1] {
      if i < |s| - 1 { assert l.next[s[i]] == s[i + 1] && s[i] != s[|s| - 1]; }
    }
    forall i | 0 < i < |r| ensures l'.prev[r[i]] == r[i - 1] {
      if i < |s| { assert l.prev[s[i]] == s[i - 1] && s[i] != s[0]; }
    }
  }

  /** list_add_tail before entry k puts n between k-1 and k (at the end when k is 0). */
  lemma {:induction false} RingAddTail(l: Links, s: seq<Addr>, k: nat, n: Addr)
    requires Ring(l, s) && k < |s| && n !in s
    ensures k == 0 ==> Ring(AddTail(l, n, s[k]), s + [n])
    ensures Ring(AddTail(l, n, s[k]), s[..k] + [n] + s[k..])
  {
    var r, l' := s[k..] + s[..k], AddTail(l, n, s[k]);
    RingAddLast(l, s, k, n);
    Turned(s, k, n);
    RingRotate(l', r + [n], |s| - k);
    if k == 0 { RingOf(l', r + [n], s + [n]); }
    RingOf(l', (r + [n])[|s| - k..] + (r + [n])[..|s| - k], s[..k] + [n] + s[k..]);
  }

  lemma {:induction false} RingAddLast(l: Links, s: seq<Addr>, k: nat, n: Addr)
    requires Ring(l, s) && k < |s| && n !in s
    ensures Ring(AddTail(l, n, s[k]), s[k..] + s[..k] + [n])
  {
    var r := s[k..] + s[..k];
    Turned(s, k, n);
    RingRotate(l, s, k);
    RingAppend(l, r, n);
    assert l.prev[s[k]] == r[|r| - 1];
  }

  lemma {:induction false} RingOf(l: Links, s: seq<Addr>, s': seq<Addr>)
    requires Ring(l, s) && s == s'
    ensures Ring(l, s')
  {
  }

  /** s read from entry k, with n at its end, turned back. */
  lemma {:induction false} Turned(s: seq<Addr>, k: nat, n: Addr)
    requires k < |s|
    ensures var r := s[k..] + s[..k];
      && r[0] == s[k] && r[|r| - 1] == s[if k == 0 then |s| - 1 else k - 1] && (k == 0 ==> r + [n] == s + [n])
      && (r + [n])[|s| - k..] + (r + [n])[..|s| - k] == s[..k] + [n] + s[k..]
  {
    var r := s[k..] + s[..k];
    assert (r + [n])[..|s| - k] == s[k..];
    assert (r + [n])[|s| - k..] == s[..k] + [n];
  }

  /** list_add after entry k. */
  lemma {:induction false} RingAdd(l: Links, s: seq<Addr>, k: nat, n: Addr)
    requires Ring(l, s) && k < |s| && n !in s
    ensures Ring(Add(l, n, s[k]), s[..k + 1] + [n] + s[k + 1..])
  {
    if k + 1 < |s| {
      RingAddTail(l, s, k + 1, n);
      assert Add(l, n, s[k]) == AddTail(l, n, s[k + 1]);
    } else {
      RingAppend(l, s, n);
      assert s[..k + 1] + [n] + s[k + 1..] == s + [n];
    }
  }

  /** Unlinking the last entry of a ring of two or more. */
  lemma {:induction false} RingDropLast(l: Links, s: seq<Addr>)
    requires Ring(l, s) && |s| >= 2
    ensures Ring(DelInit(l, s[|s| - 1]), s[..|s| - 1])
    ensures SelfLinked(DelInit(l, s[|s| - 1]), s[|s| - 1])
  {
    var z := |s| - 1;
    var l' := DelInit(l, s[z]);
    var r := s[..z];
    assert l.prev[s[z]] == s[z - 1] && l.next[s[z]] == s[0];
    forall i | 0 <= i < |r| - 1 ensures l'.next[r[i]] == r[i + 1] {
      assert l.next[s[i]] == s[i + 1] && s[i] != s[z - 1] && s[i] != s[z];
    }
    forall i | 0 < i < |r| ensures l'.prev[r[i]] == r[i - 1] {
      assert l.prev[s[i]] == s[i - 1] && s[i] != s[0] && s[i] != s[z];
    }
  }

  /** list_del_init of entry k. */
  lemma {:induction false} RingDel(l: Links, s: seq<Addr>, k: nat)
    requires Ring(l, s) && k < |s| && |s| >= 2
    ensures Ring(DelInit(l, s[k]), s[..k] + s[k + 1..])
    ensures SelfLinked(DelInit(l, s[k]), s[k])
  {
    var r := s[k + 1..] + s[..k + 1];
    if k + 1 < |s| { RingRotate(l, s, k + 1); } else { assert r == s; }
    assert r[|r| - 1] == s[k];
    RingDropLast(l, r);
    var q := r[..|r| - 1];
    var l' := DelInit(l, s[k]);
    assert q == s[k + 1..] + s[..k];
    if 0 < k < |s| - 1 {
      RingRotate(l', q, |s| - k - 1);
      assert q[|s| - k - 1..] + q[..|s| - k - 1] == s[..k] + s[k + 1..];
    } else {
      assert q == s[..k] + s[k + 1..];
    }
  }

  /** The neighbours of an entry are on its ring. */
  lemma {:induction false} RingNeighbours(l: Links, s: seq<Addr>, k: nat)
    requires Ring(l, s) && k < |s|
    ensures l.prev[s[k]] in s && l.next[s[k]] in s
  {
    assert k == 0 || l.prev[s[k]] == s[k - 1];
    assert k == |s| - 1 || l.next[s[k]] == s[k + 1];
  }

  lemma {:induction false} FrameAddTail(l: Links, s: seq<Addr>, k: nat, n: Addr)
    requires Ring(l, s) && k < |s|
    ensures Untouched(l, AddTail(l, n, s[k]), s + [n])
  {
    RingNeighbours(l, s, k);
  }

  lemma {:induction false} FrameAdd(l: Links, s: seq<Addr>, k: nat, n: Addr)
    requires Ring(l, s) && k < |s|
    ensures Untouched(l, Add(l, n, s[k]), s + [n])
  {
    RingNeighbours(l, s, k);
  }

  lemma {:induction false} FrameDel(l: Links, s: seq<Addr>, k: nat)
    requires Ring(l, s) && k < |s|
    ensures Untouched(l, DelInit(l, s[k]), s)
  {
    RingNeighbours(l, s, k);
  }
}
