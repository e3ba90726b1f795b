/** Symbol addresses: relative offsets as scripts/kallsyms.c stores them and kernel/kallsyms.c reads them,
    and the search for the symbol that holds an address. */
module KallsymsAddr {
  import opened Basics

  function Signed(x: int, half: nat): int
    requires half > 0
  {
    var y := x % (2 * half); if y >= half then y - 2 * half else y
  }

  /** The 32-bit offset write_src() emits, or none when it is out of range. */
  function StoreOffset(percpuAbs: bool, absolute: bool, addr: nat, base: nat): Option<int> {
    if !percpuAbs then
      var offset := Signed(addr - base, TWO63);
      if 0 <= offset < TWO32 then Some(Signed(offset, TWO31)) else None
    else if absolute then
      var offset := Signed(addr, TWO63);
      if 0 <= offset < TWO31 then Some(offset) else None
    else
      var offset := Signed(base - addr - 1, TWO63);
      if -TWO31 <= offset < 0 then Some(offset) else None
  }

  /** kallsyms_sym_address() on a relative table. */
  function SymAddress(percpuAbs: bool, offset: int, base: nat): int {
    if !percpuAbs then (base + offset % TWO32) % TWO64
    else if offset >= 0 then offset
    else (base - 1 - offset) % TWO64
  }

  /** What the tool stores, the kernel reads back. */
  lemma {:induction false} AddressRoundTrip(percpuAbs: bool, absolute: bool, addr: nat, base: nat)
    requires addr < TWO64 && base < TWO64
    ensures var r := StoreOffset(percpuAbs, absolute, addr, base);
      r.Some? ==> SymAddress(percpuAbs, r.value, base) == addr
  {
    if !percpuAbs {
      Wraps(addr - base);
      var offset := Signed(addr - base, TWO63);
      if 0 <= offset < TWO32 {
        Narrowed(offset);
        Wraps(base + offset);
      }
    } else if !absolute {
      Wraps(base - addr - 1);
      Wraps(base - 1 - Signed(base - addr - 1, TWO63));
    }
  }

  lemma {:induction false} Wraps(x: int)
    requires -TWO64 <= x < 2 * TWO64
    ensures x % TWO64 == if x < 0 then x + TWO64 else if x < TWO64 then x else x - TWO64
  {
  }

  lemma {:induction false} Narrowed(x: nat)
    requires x < TWO32
    ensures Signed(x, TWO31) % TWO32 == x
  {
  }

  // ---- the address table ----

  /** kallsyms_addresses, or kallsyms_offsets with kallsyms_relative_base. */
  datatype AddressTable =
    | Absolute(addresses: seq<int>)
    | Relative(percpuAbs: bool, base: nat, offsets: seq<int>)

  function Count(t: AddressTable): nat { if t.Absolute? then |t.addresses| else |t.offsets| }

  /** kallsyms_sym_address() */
  function AddressAt(t: AddressTable, i: nat): int
    requires i < Count(t)
  {
    if t.Absolute? then t.addresses[i] else SymAddress(t.percpuAbs, t.offsets[i], t.base)
  }

  /** The kernel reads addrs from the table. */
  predicate Reads(t: AddressTable, addrs: seq<nat>) {
    Count(t) == |addrs| && forall i :: 0 <= i < |addrs| ==> AddressAt(t, i) == addrs[i]
  }

  /** A symbol's address, and whether it is an absolute per-cpu symbol. */
  datatype Symbol = Symbol(addr: nat, absolute: bool)

  function Addresses(syms: seq<Symbol>): (r: seq<nat>) { seq(|syms|, i requires 0 <= i < |syms| => syms[i].addr) }

  /** The address fits the table: an absolute per-cpu symbol has 31 bits, any other lies within 2^32 above the base, or
      2^31 when the sign marks the absolute ones; addresses wrap around. */
  predicate InReach(percpuAbs: bool, absolute: bool, addr: nat, base: nat) {
    if percpuAbs && absolute then addr < TWO31 else (addr - base) % TWO64 < if percpuAbs then TWO31 else TWO32
  }

  predicate Storable(syms: seq<Symbol>, percpuAbs: bool, base: nat) {
    forall i :: 0 <= i < |syms| ==> InReach(percpuAbs, syms[i].absolute, syms[i].addr, base)
  }

  lemma {:induction false} StoredWhen(percpuAbs: bool, absolute: bool, addr: nat, base: nat)
    requires addr < TWO64 && base < TWO64
    ensures StoreOffset(percpuAbs, absolute, addr, base).Some? <==> InReach(percpuAbs, absolute, addr, base)
  {
    Wraps(addr - base);
    Wraps(base - addr - 1);
  }

  /** write_src()'s loop over the addresses; ok fails where it exits. The linker resolves absolute entries. */
  method WriteAddresses(syms: seq<Symbol>, relative: bool, percpuAbs: bool, base: nat)
    returns (t: AddressTable, ok: bool)
    requires base < TWO64 && forall i :: 0 <= i < |syms| ==> syms[i].addr < TWO64
    ensures ok <==> !relative || Storable(syms, percpuAbs, base)
    ensures ok ==> Reads(t, Addresses(syms))
  {
    if !relative {
      return Absolute(Addresses(syms)), true;
    }
    var offsets, i := [], 0;
    while i < |syms|
      invariant 0 <= i <= |syms| && |offsets| == i
      invariant forall j :: 0 <= j < i ==> InReach(percpuAbs, syms[j].absolute, syms[j].addr, base)
      invariant forall j :: 0 <= j < i ==>
        StoreOffset(percpuAbs, syms[j].absolute, syms[j].addr, base) == Some(offsets[j])
    {
      StoredWhen(percpuAbs, syms[i].absolute, syms[i].addr, base);
      var r := StoreOffset(percpuAbs, syms[i].absolute, syms[i].addr, base);
      if r.None? {
        return Relative(percpuAbs, base, []), false;
      }
      offsets := offsets + [r.value];
      i := i + 1;
    }
    t, ok := Relative(percpuAbs, base, offsets), true;
    forall j | 0 <= j < |syms| ensures AddressAt(t, j) == syms[j].addr {
      AddressRoundTrip(percpuAbs, syms[j].absolute, syms[j].addr, base);
    }
  }

  // ---- the search ----

  predicate Sorted(addrs: seq<nat>) { forall i, j :: 0 <= i <= j < |addrs| ==> addrs[i] <= addrs[j] }

  /** The first symbol at the highest address not above addr, or the first of all. */
  predicate Covers(addrs: seq<nat>, addr: nat, low: nat) {
    && low < |addrs| && (forall i :: 0 <= i < low ==> addrs[i] < addrs[low])
    && (addrs[0] <= addr ==> addrs[low] <= addr && forall i :: 0 <= i < |addrs| && addrs[i] <= addr ==>
      addrs[i] <= addrs[low])
    && (addrs[0] > addr ==> low == 0)
  }

  /** Where symbol low ends: at the least address above its own, or at last when there is none. */
  predicate Ends(addrs: seq<nat>, low: nat, last: nat, end: nat)
    requires low < |addrs|
  {
    if forall a <- addrs :: a <= addrs[low] then end == last
    else end in addrs && end > addrs[low] && forall a <- addrs :: a > addrs[low] ==> end <= a
  }

  lemma {:induction false} FirstAbove(addrs: seq<nat>, low: nat, i: nat, last: nat)
    requires low < i <= |addrs| && Sorted(addrs) && (forall j :: 0 <= j < i ==> addrs[j] <= addrs[low])
    requires i < |addrs| ==> addrs[i] > addrs[low]
    ensures Ends(addrs, low, last, if i < |addrs| then addrs[i] else last)
  {
    if i < |addrs| { assert addrs[i] in addrs; }
  }

  /** get_symbol_pos(): the symbol, the distance to the next higher address or to last, and the offset into it. */
  method GetSymbolPos(t: AddressTable, addr: nat, last: nat, ghost addrs: seq<nat>)
    returns (low: nat, size: int, offset: int, ghost end: nat)
    requires |addrs| > 0 && Sorted(addrs) && Reads(t, addrs)
    ensures Covers(addrs, addr, low) && offset == (addr - addrs[low]) % TWO64
    ensures Ends(addrs, low, last, end) && size == (end - addrs[low]) % TWO64
  {
    low := BinarySearch(t, addr, addrs);
    ghost var found := low;
    while low > 0 && AddressAt(t, low - 1) == AddressAt(t, low)
      invariant low <= found < |addrs| && addrs[low] == addrs[found]
    {
      low := low - 1;
    }
    var start := AddressAt(t, low);
    var i := low + 1;
    while i < Count(t) && AddressAt(t, i) <= start
      invariant low < i <= |addrs| && forall j :: 0 <= j < i ==> addrs[j] <= start
    {
      i := i + 1;
    }
    end := if i < |addrs| then addrs[i] else last;
    FirstAbove(addrs, low, i, last);
    size := ((if i < Count(t) then AddressAt(t, i) else last) - start) % TWO64;
    offset := (addr - start) % TWO64;
  }

  method BinarySearch(t: AddressTable, addr: nat, ghost addrs: seq<nat>) returns (low: nat)
    requires |addrs| > 0 && Sorted(addrs) && Reads(t, addrs)
    ensures low < |addrs| && (addrs[low] <= addr || low == 0) && (low + 1 < |addrs| ==> addrs[low + 1] > addr)
  {
    low := 0;
    var high := Count(t);
    while high - low > 1
      invariant low < high <= |addrs| && (addrs[low] <= addr || low == 0) && (high < |addrs| ==> addrs[high] > addr)
    {
      var mid := low + (high - low) / 2;
      if AddressAt(t, mid) <= addr {
        low := mid;
      } else {
        high := mid;
      }
    }
  }

}
