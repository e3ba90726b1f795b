/** Parsing integers with overflow detection (lib/kstrtox.c). A C string is a sequence of non-zero bytes. */
module Kstrtox {
  import opened Basics
  import opened Numerals
  import Decimal

  const TWO60 := 0x1000_0000_0000_0000

  datatype Result = Ok(value: int) | Inval | Range

  /** The byte at i; past the end stands the terminating zero. */
  function At(s: seq<nat>, i: nat): nat { if i < |s| then s[i] else 0 }

  // ---- the digits ----

  /** How many digits of the base s starts with. */
  function Span(s: seq<nat>, base: nat): (k: nat)
    ensures k <= |s| && Digits(s[..k], base) && (k < |s| ==> Val(s[k]) >= base)
  {
    if s == [] || Val(s[0]) >= base then 0
    else
      var k := Span(s[1..], base);
      assert s[..k + 1] == [s[0]] + s[1..][..k];
      k + 1
  }

  /** rv | KSTRTOX_OVERFLOW */
  function Flag(rv: nat): nat { if HasFlag(rv) then rv else rv + TWO31 }

  predicate HasFlag(rv: nat) { rv / TWO31 % 2 == 1 }

  /** What the loop of _parse_integer() holds: the number so far and the count with the overflow bit, in their C
      widths. */
  datatype State = State(res: nat, rv: nat)

  function Step(st: State, val: nat, base: nat): State
    requires base > 0 && val < TWO64
  {
    var over := st.res >= TWO60 && st.res > (TWO64 - 1 - val) / base;
    State((st.res * base + val) % TWO64, ((if over then Flag(st.rv) else st.rv) + 1) % TWO32)
  }

  function Run(s: seq<nat>, base: nat): State
    requires base > 0
  {
    if s == [] then State(0, 0) else Step(Run(s[..|s| - 1], base), Val(s[|s| - 1]), base)
  }

  lemma {:induction false} ExactCheck(res: nat, base: nat, val: nat)
    requires 0 < base <= 16 && val < base && res < TWO64
    ensures (res >= TWO60 && res > (TWO64 - 1 - val) / base) <==> res * base + val >= TWO64
  {
    var m := TWO64 - 1 - val;
    var q := m / base;
    assert m == q * base + m % base;
    if res >= TWO60 {
      assert res > q ==> res * base >= (q + 1) * base;
      assert res <= q ==> res * base <= q * base;
    } else {
      assert res * base <= (TWO60 - 1) * 16 by { Mul(res, TWO60 - 1, base, 16); }
    }
  }

  lemma {:induction false} Mul(a: nat, b: nat, c: nat, d: nat)
    requires a <= b && c <= d
    ensures a * c <= b * d
  {
    assert a * c <= a * d;
    assert a * d <= b * d;
  }

  /** A number v in n digits, as the loop holds it. */
  predicate Holds(st: State, v: nat, n: nat) {
    && st.res < TWO64 && st.rv == n + (if v >= TWO64 then TWO31 else 0)
    && (v < TWO64 ==> st.res == v)
  }

  lemma {:induction false} StepOk(st: State, v: nat, n: nat, val: nat, base: nat, v': nat)
    requires Holds(st, v, n) && n + 1 < TWO31 && 0 < base <= 16 && val < base && v' == base * v + val
    ensures Holds(Step(st, val, base), v', n + 1)
  {
    ExactCheck(st.res, base, val);
    if v < TWO64 {
      assert st.res * base + val == v';
    } else {
      assert base * v >= v;
    }
  }

  /** The overflow bit is exact, and without it the number is. */
  lemma {:induction false} RunOk(s: seq<nat>, base: nat)
    requires 0 < base <= 16 && Digits(s, base) && |s| < TWO31
    ensures Holds(Run(s, base), Value(s, base), |s|)
  {
    if s != [] {
      var t := s[..|s| - 1];
      RunOk(t, base);
      StepOk(Run(t, base), Value(t, base), |t|, Val(s[|s| - 1]), base, Value(s, base));
    }
  }

  lemma {:induction false} CountNext(n: nat)
    ensures (n % TWO32 + 1) % TWO32 == (n + 1) % TWO32
  {
  }

  lemma {:induction false} FlagBit(rv: nat)
    requires rv < TWO32
    ensures HasFlag(rv) <==> rv >= TWO31
  {
  }

  lemma {:induction false} StepInRange(v: nat, rv: nat, val: nat, base: nat)
    requires 0 < base <= 16 && val < base && base * v + val < TWO64
    ensures Step(State(v, rv), val, base) == State(base * v + val, (rv + 1) % TWO32)
  {
    assert base * v >= v;
    ExactCheck(v, base, val);
    assert v * base == base * v;
  }

  /** On a value that fits, whatever the length, the number is exact and the count wraps at 2^32: the overflow bit is
      then set exactly when the count runs into it. */
  lemma {:induction false} RunInRange(s: seq<nat>, base: nat)
    requires 0 < base <= 16 && Digits(s, base) && Value(s, base) < TWO64
    ensures Run(s, base) == State(Value(s, base), |s| % TWO32)
    ensures HasFlag(Run(s, base).rv) <==> |s| % TWO32 >= TWO31
  {
    if s != [] {
      var n := |s| - 1;
      var v := Value(s[..n], base);
      assert base * v >= v;
      RunInRange(s[..n], base);
      NextInRange(v, n, Val(s[n]), base);
    }
    FlagBit(|s| % TWO32);
  }

  lemma {:induction false} NextInRange(v: nat, n: nat, val: nat, base: nat)
    requires 0 < base <= 16 && val < base && base * v + val < TWO64
    ensures Step(State(v, n % TWO32), val, base) == State(base * v + val, (n + 1) % TWO32)
  {
    StepInRange(v, n % TWO32, val, base);
    CountNext(n);
  }

  /** At 2^31 digits the overflow bit says the opposite of the truth, for every string. */
  lemma {:induction false} FlagInverted(s: seq<nat>, base: nat)
    requires 0 < base <= 16 && Digits(s, base) && |s| == TWO31
    ensures HasFlag(Run(s, base).rv) <==> Value(s, base) < TWO64
  {
    if Value(s, base) < TWO64 {
      RunInRange(s, base);
    } else {
      var t, val := s[..|s| - 1], Val(s[|s| - 1]);
      RunOk(t, base);
      ExactCheck(Run(t, base).res, base, val);
      LastCount(Run(t, base), Value(t, base), val, base);
    }
  }

  lemma {:induction false} LastCount(st: State, v: nat, val: nat, base: nat)
    requires Holds(st, v, TWO31 - 1) && 0 < base <= 16 && val < base && base * v + val >= TWO64
    requires (st.res >= TWO60 && st.res > (TWO64 - 1 - val) / base) <==> st.res * base + val >= TWO64
    ensures Step(st, val, base).rv == 0
  {
  }

  /** The shortest failing input: 2^31 zeros are worth 0 and set the overflow bit. */
  lemma {:induction false} TooLong(s: seq<nat>)
    requires |s| == TWO31 && forall i :: 0 <= i < |s| ==> s[i] == ZERO
    ensures Value(s, 10) == 0 && HasFlag(Run(s, 10).rv)
  {
    ZerosWorth(s);
    FlagInverted(s, 10);
  }

  lemma {:induction false} ZerosWorth(s: seq<nat>)
    requires forall i :: 0 <= i < |s| ==> s[i] == ZERO
    ensures Value(s, 10) == 0
  {
    if s != [] {
      ZerosWorth(s[..|s| - 1]);
    }
  }

  // ---- the code ----

  /** _parse_integer_fixup_radix(): the base to use and how many bytes to skip. */
  function FixupRadix(s: seq<nat>, base: nat): (r: (nat, nat))
    ensures base <= 16 ==> 0 < r.0 <= 16
    ensures r.1 <= |s|
  {
    var b :=
      if base != 0 then base
      else if At(s, 0) == ZERO then (if ToLower(At(s, 1)) == 120 && Val(At(s, 2)) < 16 then 16 else 8)
      else 10;
    (b, if b == 16 && At(s, 0) == ZERO && ToLower(At(s, 1)) == 120 then 2 else 0)
  }

  /** One turn of the loop of _parse_integer(). */
  method AddDigit(res: nat, rv: nat, val: nat, base: nat) returns (res': nat, rv': nat)
    requires 0 < base && val < TWO64
    ensures State(res', rv') == Step(State(res, rv), val, base)
  {
    rv' := rv;
    if res >= TWO60 {
      if res > (TWO64 - 1 - val) / base {
        rv' := Flag(rv');
      }
    }
    res' := (res * base + val) % TWO64;
    rv' := (rv' + 1) % TWO32;
  }

  /** _parse_integer(): the loop runs over the digits s starts with. */
  method ParseInteger(s: seq<nat>, base: nat) returns (rv: nat, res: nat)
    requires 0 < base <= 16
    ensures State(res, rv) == Run(s[..Span(s, base)], base)
  {
    rv, res := 0, 0;
    var i := 0;
    assert s[0..] == s;
    while i < |s|
      invariant 0 <= i <= |s| && Span(s, base) == i + Span(s[i..], base)
      invariant State(res, rv) == Run(s[..i], base)
    {
      var val := Val(s[i]);
      assert s[i..][0] == s[i] && s[i..][1..] == s[i + 1..];
      if val >= base {
        return;
      }
      RunMore(s, i, base);
      res, rv := AddDigit(res, rv, val, base);
      i := i + 1;
    }
  }

  lemma {:induction false} RunMore(s: seq<nat>, i: nat, base: nat)
    requires i < |s| && base > 0
    ensures Run(s[..i + 1], base) == Step(Run(s[..i], base), Val(s[i]), base)
  {
    assert s[..i + 1][..i] == s[..i];
  }

  /** What _kstrtoull() promises: digits, at most one newline after them, and a value below 2^64. */
  function Unsigned(s: seq<nat>, base: nat): (r: Result)
    ensures r.Ok? ==> 0 <= r.value < TWO64
  {
    var (b, skip) := FixupRadix(s, base);
    var t := s[skip..];
    var k := Span(t, b);
    if Value(t[..k], b) >= TWO64 then Range
    else if k > 0 && (t[k..] == [] || t[k..] == [10]) then Ok(Value(t[..k], b))
    else Inval
  }

  /** The digits _kstrtoull() looks at, and their base. */
  function DigitsOf(s: seq<nat>, base: nat): (r: (seq<nat>, nat))
    ensures base <= 16 ==> 0 < r.1 <= 16 && Digits(r.0, r.1)
  {
    var (b, skip) := FixupRadix(s, base);
    (s[skip..][..Span(s[skip..], b)], b)
  }

  /** What _kstrtoull() does on strings of any length: from 2^31 digits on it never accepts. */
  function Parsed(s: seq<nat>, base: nat): (r: Result)
    requires base <= 16
  {
    var (ds, b) := DigitsOf(s, base);
    if |ds| < TWO31 then Unsigned(s, base) else if HasFlag(Run(ds, b).rv) then Range else Inval
  }

  /** A string is accepted exactly when it should be and has fewer than 2^31 digits; a value that fits is otherwise
      called out of range or invalid, as its digit count falls. */
  lemma {:induction false} AcceptedWhen(s: seq<nat>, base: nat)
    requires base <= 16
    ensures var (ds, b) := DigitsOf(s, base);
      && (Parsed(s, base).Ok? <==> Unsigned(s, base).Ok? && |ds| < TWO31)
      && (Parsed(s, base) == Unsigned(s, base) <== |ds| < TWO31)
      && (Value(ds, b) < TWO64 && |ds| >= TWO31 ==> Parsed(s, base) == if |ds| % TWO32 >= TWO31 then Range else Inval)
      && (|ds| == TWO31 ==> (Parsed(s, base) == Range <==> Value(ds, b) < TWO64))
  {
    var (ds, b) := DigitsOf(s, base);
    if Value(ds, b) < TWO64 { RunInRange(ds, b); }
    if |ds| == TWO31 { FlagInverted(ds, b); }
  }

  /** _kstrtoull() */
  method KstrtoullTail(s: seq<nat>, base: nat) returns (r: Result)
    requires base <= 16
    ensures r == Parsed(s, base)
  {
    var (b, skip) := FixupRadix(s, base);
    var t := s[skip..];
    var rv, res := ParseInteger(t, b);
    ghost var k := Span(t, b);
    ghost var ds := t[..k];
    RunWidth(ds, b);
    if k < TWO31 { RunOk(ds, b); }
    NoNewline(t, k, b);
    r := Finish(t, rv, res, k, Value(ds, b));
  }

  lemma {:induction false} RunWidth(s: seq<nat>, base: nat)
    requires base > 0
    ensures Run(s, base).rv < TWO32 && Run(s, base).res < TWO64
  {
  }

  lemma {:induction false} NoNewline(t: seq<nat>, k: nat, base: nat)
    requires k <= |t| && base <= 16 && Digits(t[..k], base)
    ensures forall i :: 0 <= i < k ==> t[i] != 10
  {
    forall i | 0 <= i < k ensures t[i] != 10 { assert Val(t[..k][i]) < base; }
  }

  /** The tests of _kstrtoull() after the digits; the count, in its 32 bits, is also how far it skips. */
  method Finish(t: seq<nat>, rv: nat, res: nat, ghost k: nat, ghost v: nat) returns (r: Result)
    requires k <= |t| && rv < TWO32 && (k < TWO31 ==> Holds(State(res, rv), v, k)) && (k == 0 ==> v == 0)
    requires forall i :: 0 <= i < k ==> t[i] != 10
    ensures k < TWO31 ==> r == if v >= TWO64 then Range else if k > 0 && (t[k..] == [] || t[k..] == [10]) then Ok(v)
      else Inval
    ensures k >= TWO31 ==> r == if HasFlag(rv) then Range else Inval
  {
    if HasFlag(rv) {
      return Range;
    }
    if rv == 0 {
      return Inval;
    }
    var p := rv;
    if At(t, p) == 10 {
      p := p + 1;
    }
    if p < |t| {
      return Inval;
    }
    return Ok(res);
  }

  /** kstrtoull(): a plus sign may come first. */
  method Kstrtoull(s: seq<nat>, base: nat) returns (r: Result)
    requires base <= 16
    ensures r == Parsed(if At(s, 0) == 43 then s[1..] else s, base)
  {
    var t := s;
    if At(s, 0) == 43 {
      t := s[1..];
    }
    r := KstrtoullTail(t, base);
  }

  /** x as a signed 64-bit number. */
  function Signed64(x: int): int { var y := x % TWO64; if y >= TWO63 then y - TWO64 else y }

  /** A magnitude with its sign, if that fits 64 signed bits. */
  function Sign(neg: bool, r: Result): Result {
    if !r.Ok? then r
    else if neg then (if r.value <= TWO63 then Ok(-r.value) else Range)
    else if r.value < TWO63 then r else Range
  }

  /** What kstrtoll() promises. */
  function Signed(s: seq<nat>, base: nat): Result {
    Sign(At(s, 0) == 45, Unsigned(Magnitude(s), base))
  }

  /** The string without its sign. */
  function Magnitude(s: seq<nat>): seq<nat> { if At(s, 0) == 45 || At(s, 0) == 43 then s[1..] else s }

  method ApplySign(neg: bool, m: Result) returns (r: Result)
    requires m.Ok? ==> 0 <= m.value < TWO64
    ensures r == Sign(neg, m)
  {
    if !m.Ok? {
      return m;
    }
    if neg {
      if Signed64(-m.value) > 0 {
        return Range;
      }
      return Ok(Signed64(-m.value));
    }
    if Signed64(m.value) < 0 {
      return Range;
    }
    return m;
  }

  /** kstrtoll() */
  method Kstrtoll(s: seq<nat>, base: nat) returns (r: Result)
    requires base <= 16
    ensures r == Sign(At(s, 0) == 45, Parsed(Magnitude(s), base))
    ensures |DigitsOf(Magnitude(s), base).0| < TWO31 ==> r == Signed(s, base)
  {
    if At(s, 0) == 45 {
      r := KstrtoullTail(s[1..], base);
      r := ApplySign(true, r);
    } else {
      r := Kstrtoull(s, base);
      r := ApplySign(false, r);
    }
  }

  // ---- round trips ----

  lemma {:induction false} NumeralDigits(s: seq<nat>, n: nat)
    requires Numeral(s, n)
    ensures Digits(s, 10) && Span(s, 10) == |s| && s[..|s|] == s
  {
  }

  lemma {:induction false} ValueOne(c: nat, base: nat)
    ensures Value([c], base) == Val(c)
  {
    assert [c][..0] == [];
    assert base * Value([], base) == 0;
  }

  /** The numeral of n reads back as n, in base 10 and with the base detected. */
  lemma {:induction false} RoundTrip(s: seq<nat>, n: nat, base: nat)
    requires Numeral(s, n) && (base == 10 || base == 0)
    ensures Unsigned(s, base) == if n < TWO64 then Ok(n) else Range
  {
    NumeralDigits(s, n);
    assert s[0..] == s && s[|s|..] == [];
    if base == 0 && s[0] == ZERO {
      assert s == [ZERO] && Span(s, 8) == 1;
      ValueOne(ZERO, 8);
      ValueOne(ZERO, 10);
    }
  }

  lemma {:induction false} RoundTripSigned(s: seq<nat>, n: nat)
    requires Numeral(s, n)
    ensures Signed(s, 10) == if n < TWO63 then Ok(n) else Range
    ensures Signed([45] + s, 10) == if n <= TWO63 then Ok(0 - n) else Range
  {
    RoundTrip(s, n, 10);
    assert ([45] + s)[1..] == s;
  }

  /** Printing a 64-bit number and parsing the result gives it back. */
  method PrintThenParse(buf: array<nat>, num: nat) returns (r: Result)
    requires num < TWO64 && 24 <= buf.Length
    modifies buf
    ensures r == Ok(num)
  {
    var len := Decimal.NumToStr(buf, 24, num);
    RoundTrip(buf[..len], num, 10);
    r := Kstrtoull(buf[..len], 10);
  }
}
