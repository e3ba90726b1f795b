/** Decimal printing two digits at a time (lib/vsprintf.c). */
module Decimal {
  import opened Basics
  import opened Numerals

  const RECIP := 0x28f5c29
  const RECIP_SMALL := 0x147b

  // ---- reciprocal multiplication ----

  /** (r * 0x28f5c29) >> 32 is r / 100, and r <= 1073741898 is exactly how far that goes. */
  lemma {:induction false} Reciprocal(r: nat)
    ensures r <= 1073741898 ==> r * RECIP / 0x1_0000_0000 == r / 100
    ensures r == 1073741899 ==> r * RECIP / 0x1_0000_0000 != r / 100
  {
    var q, m := r / 100, r % 100;
    assert r * RECIP == q * 0x1_0000_0000 + (4 * q + RECIP * m);
  }

  /** No other constant works for all eight-digit numbers. */
  lemma {:induction false} ReciprocalUnique(a: nat)
    ensures (forall r: nat :: r < 100_000_000 ==> Scaled(r, a) == r / 100) <==> a == RECIP
  {
    if a == RECIP {
      forall r: nat | r < 100_000_000 ensures Scaled(r, a) == r / 100 {
        Reciprocal(r);
      }
    } else if a < RECIP {
      assert Scaled(100, a) != 100 / 100;
    } else {
      assert Scaled(99_999_999, a) != 99_999_999 / 100;
    }
  }

  function Scaled(r: nat, a: nat): nat { r * a / 0x1_0000_0000 }

  /** (r * 0x147b) >> 19 is r / 100 up to 43698 and no further. */
  lemma {:induction false} ReciprocalSmall(r: nat)
    ensures r <= 43698 ==> r * RECIP_SMALL / 0x8_0000 == r / 100
    ensures r == 43699 ==> r * RECIP_SMALL / 0x8_0000 != r / 100
  {
    var q, m := r / 100, r % 100;
    assert r * RECIP_SMALL == q * 0x8_0000 + (12 * q + RECIP_SMALL * m);
  }

  // ---- numerals ----

  /** The numeral of n, last digit first, as the buffer holds it. */
  function Reversed(n: nat): (r: seq<nat>) {
    if n < 10 then [ZERO + n] else [ZERO + n % 10] + Reversed(n / 10)
  }

  /** The last k digits of n, last digit first. */
  function Low(n: nat, k: nat): (r: seq<nat>)
    ensures |r| == k
  {
    if k == 0 then [] else [ZERO + n % 10] + Low(n / 10, k - 1)
  }

  function Rev(s: seq<nat>): (r: seq<nat>)
    ensures |r| == |s| && forall i :: 0 <= i < |s| ==> r[i] == s[|s| - 1 - i]
  {
    if s == [] then [] else Rev(s[1..]) + [s[0]]
  }

  lemma {:induction false} ReversedIsNumeral(n: nat)
    ensures Numeral(Rev(Reversed(n)), n) && (n > 0 ==> Rev(Reversed(n))[0] != ZERO)
  {
    var s := Rev(Reversed(n));
    if n >= 10 {
      ReversedIsNumeral(n / 10);
      var t := Rev(Reversed(n / 10));
      assert Reversed(n)[1..] == Reversed(n / 10);
      assert s == t + [ZERO + n % 10];
      OneDigitMore(t, n / 10, n % 10);
    } else {
      assert s == [ZERO + n] && s[..0] == [];
    }
  }

  lemma {:induction false} OneDigitMore(t: seq<nat>, n: nat, d: nat)
    requires Numeral(t, n) && n > 0 && t[0] != ZERO && d < 10
    ensures Numeral(t + [ZERO + d], 10 * n + d) && (t + [ZERO + d])[0] != ZERO
  {
    var s := t + [ZERO + d];
    assert s[..|s| - 1] == t;
  }

  // ---- two digits at a time ----

  lemma {:induction false} LowPair(n: nat, k: nat)
    ensures Low(n, k + 2) == Low(n % 100, 2) + Low(n / 100, k)
  {
    assert n / 10 / 10 == n / 100 && n % 100 % 10 == n % 10 && n % 100 / 10 % 10 == n / 10 % 10;
    assert Low(n, k + 2) == [ZERO + n % 10] + ([ZERO + n / 10 % 10] + Low(n / 100, k));
    assert Low(n % 100, 2) == [ZERO + n % 10, ZERO + n / 10 % 10];
  }

  lemma {:induction false} ReversedPair(n: nat)
    ensures n >= 100 ==> Reversed(n) == Low(n % 100, 2) + Reversed(n / 100)
    ensures n < 100 ==> Reversed(n) == Low(n, if n < 10 then 1 else 2)
  {
    assert n / 10 / 10 == n / 100 && n % 100 % 10 == n % 10 && n % 100 / 10 == n / 10 % 10;
    if n >= 100 {
      assert Reversed(n) == [ZERO + n % 10] + ([ZERO + n / 10 % 10] + Reversed(n / 100));
      assert Low(n % 100, 2) == [ZERO + n % 10, ZERO + n / 10 % 10];
    }
  }

  /** Low digits by blocks of eight. */
  lemma {:induction false} ReversedLow(n: nat, k: nat, p: nat)
    requires p == Pow10(k) && n >= p
    ensures Reversed(n) == Low(n % p, k) + Reversed(n / p)
  {
    if k > 0 {
      var p' := Pow10(k - 1);
      assert n >= 10 && n / 10 >= p';
      ReversedLow(n / 10, k - 1, p');
      assert n / 10 / p' == n / p && n / 10 % p' == n % p / 10 && n % p % 10 == n % 10 by { Shift(n, p'); }
    }
  }

  function Pow10(k: nat): (p: nat)
    ensures p > 0
  {
    if k == 0 then 1 else 10 * Pow10(k - 1)
  }

  lemma {:induction false} Shift(n: nat, p: nat)
    requires p > 0
    ensures n / 10 / p == n / (10 * p) && n / 10 % p == n % (10 * p) / 10 && n % (10 * p) % 10 == n % 10
  {
    var a, r := n / 10, n % 10;
    var q, m := a / p, a % p;
    assert n == (10 * p) * q + (10 * m + r);
    DivUnique(n, 10 * p, q, 10 * m + r);
  }

  lemma {:induction false} DivUnique(n: nat, d: nat, q: nat, r: nat)
    requires n == d * q + r && r < d
    ensures n / d == q && n % d == r
  {
    var q', r' := n / d, n % d;
    assert n == d * q' + r';
    assert q' > q ==> d * q' >= d * (q + 1);
    assert q' < q ==> d * q >= d * (q' + 1);
  }

  // ---- the code ----

  /** Stores decpair[n - 100 * m]: the last digit of n, then the one before. */
  method PutPair(buf: array<nat>, pos: nat, n: nat, m: nat) returns (pos': nat)
    requires m == n / 100 && pos + 2 <= buf.Length
    modifies buf
    ensures pos' == pos + 2 && buf[..pos'] == old(buf[..pos]) + Low(n % 100, 2)
  {
    var x := n - 100 * m;
    buf[pos], buf[pos + 1] := ZERO + x % 10, ZERO + x / 10;
    pos' := pos + 2;
    assert Low(x, 2) == [ZERO + x % 10, ZERO + x / 10];
  }

  lemma {:induction false} ReversedStep(head: seq<nat>, head': seq<nat>, n: nat)
    requires n >= 100 && head' == head + Low(n % 100, 2)
    ensures head' + Reversed(n / 100) == head + Reversed(n)
  {
    ReversedPair(n);
    Regroup(head, Low(n % 100, 2), Reversed(n / 100));
  }

  lemma {:induction false} LowStep(head: seq<nat>, head': seq<nat>, n: nat, k: nat)
    requires head' == head + Low(n % 100, 2)
    ensures head' + Low(n / 100, k) == head + Low(n, k + 2)
  {
    LowPair(n, k);
    Regroup(head, Low(n % 100, 2), Low(n / 100, k));
  }

  /** put_dec_trunc8(): the numeral of n, last digit first. */
  method PutDecTrunc8(buf: array<nat>, pos0: nat, n: nat) returns (pos: nat)
    requires n < 100_000_000 && pos0 + 8 <= buf.Length
    modifies buf
    ensures pos0 < pos <= pos0 + 8 && buf[..pos] == old(buf[..pos0]) + Reversed(n)
  {
    var r, q := n, 0;
    pos := pos0;
    ghost var h := buf[..pos];
    Reciprocal(n);
    Reciprocal(n / 100);
    ReciprocalSmall(n / 100 / 100);
    if r >= 100 {
      q := r * RECIP / 0x1_0000_0000;
      pos := PutPair(buf, pos, r, q);
      ReversedStep(h, buf[..pos], n);
      h := buf[..pos];
      r := q;
      if q >= 100 {
        r := q * RECIP / 0x1_0000_0000;
        pos := PutPair(buf, pos, q, r);
        ReversedStep(h, buf[..pos], q);
        h := buf[..pos];
        if r >= 100 {
          q := r * RECIP_SMALL / 0x8_0000;
          pos := PutPair(buf, pos, r, q);
          ReversedStep(h, buf[..pos], r);
          h := buf[..pos];
          r := q;
        }
      }
    }
    pos := PutLast(buf, pos, r);
  }

  /** The last one or two digits; two are always written. */
  method PutLast(buf: array<nat>, pos: nat, r: nat) returns (pos': nat)
    requires r < 100 && pos + 2 <= buf.Length
    modifies buf
    ensures pos < pos' <= pos + 2 && buf[..pos'] == old(buf[..pos]) + Reversed(r)
  {
    ghost var h := buf[..pos];
    pos' := PutPair(buf, pos, r, 0);
    assert buf[..pos + 1] == buf[..pos + 2][..pos + 1];
    pos' := pos + if r < 10 then 1 else 2;
    ReversedPair(r);
    assert r < 10 ==> Low(r, 2)[..1] == Low(r, 1);
  }

  /** put_dec_full8(): exactly eight digits. */
  method PutDecFull8(buf: array<nat>, pos0: nat, n: nat) returns (pos: nat)
    requires n < 100_000_000 && pos0 + 8 <= buf.Length
    modifies buf
    ensures pos == pos0 + 8 && buf[..pos] == old(buf[..pos0]) + Low(n, 8)
  {
    ghost var h := buf[..pos0];
    Reciprocal(n);
    Reciprocal(n / 100);
    ReciprocalSmall(n / 100 / 100);
    var q := n * RECIP / 0x1_0000_0000;
    pos := PutPair(buf, pos0, n, q);
    LowStep(h, buf[..pos], n, 6);
    h := buf[..pos];
    var r := q * RECIP / 0x1_0000_0000;
    pos := PutPair(buf, pos, q, r);
    LowStep(h, buf[..pos], q, 4);
    h := buf[..pos];
    q := r * RECIP_SMALL / 0x8_0000;
    pos := PutPair(buf, pos, r, q);
    LowStep(h, buf[..pos], r, 2);
    h := buf[..pos];
    pos := PutPair(buf, pos, q, 0);
  }

  lemma {:induction false} EightStep(head: seq<nat>, head': seq<nat>, n: nat)
    requires n >= 100_000_000 && head' == head + Low(n % 100_000_000, 8)
    ensures head' + Reversed(n / 100_000_000) == head + Reversed(n)
  {
    assert Pow10(8) == 100_000_000;
    ReversedLow(n, 8, 100_000_000);
    Regroup(head, Low(n % 100_000_000, 8), Reversed(n / 100_000_000));
  }

  /** put_dec(): any 64-bit number. */
  method PutDec(buf: array<nat>, n0: nat) returns (pos: nat)
    requires n0 < 0x1_0000_0000_0000_0000 && 24 <= buf.Length
    modifies buf
    ensures pos <= 24 && buf[..pos] == Reversed(n0)
  {
    var n := n0;
    pos := 0;
    assert buf[..0] + Reversed(n) == Reversed(n0);
    if n >= 100_000_000 {
      pos, n := PutEight(buf, pos, n, n0);
    }
    if n >= 100_000_000 {
      pos, n := PutEight(buf, pos, n, n0);
    }
    pos := PutDecTrunc8(buf, pos, n);
  }

  /** Eight digits, and the number without them. */
  method PutEight(buf: array<nat>, pos0: nat, n: nat, ghost n0: nat) returns (pos: nat, q: nat)
    requires n >= 100_000_000 && pos0 + 8 <= buf.Length && buf[..pos0] + Reversed(n) == Reversed(n0)
    modifies buf
    ensures pos == pos0 + 8 && q == n / 100_000_000 && buf[..pos] + Reversed(q) == Reversed(n0)
  {
    ghost var h := buf[..pos0];
    pos := PutDecFull8(buf, pos0, n % 100_000_000);
    EightStep(h, buf[..pos], n);
    q := n / 100_000_000;
  }

  method PutNumber(tmp: array<nat>, num: nat) returns (len: nat)
    requires num < 0x1_0000_0000_0000_0000 && 24 <= tmp.Length
    modifies tmp
    ensures len <= 24 && tmp[..len] == Reversed(num)
  {
    if num <= 9 {
      tmp[0] := ZERO + num;
      len := 1;
    } else {
      len := PutDec(tmp, num);
    }
  }

  method CopyBack(buf: array<nat>, tmp: array<nat>, len: nat)
    requires len <= tmp.Length && len <= buf.Length && buf != tmp
    modifies buf
    ensures buf[..len] == Rev(tmp[..len]) && buf[len..] == old(buf[len..])
  {
    var i := 0;
    while i < len
      invariant 0 <= i <= len
      invariant forall k :: 0 <= k < i ==> buf[k] == tmp[len - k - 1]
      invariant buf[len..] == old(buf[len..])
    {
      buf[i] := tmp[len - i - 1];
      i := i + 1;
    }
  }

  /** num_to_str(): the numeral of num, or 0 and nothing written when it does not fit. */
  method NumToStr(buf: array<nat>, size: int, num: nat) returns (len: nat)
    requires num < 0x1_0000_0000_0000_0000 && size <= buf.Length
    modifies buf
    ensures len == 0 ==> buf[..] == old(buf[..]) && forall s :: Numeral(s, num) ==> |s| > size
    ensures len > 0 ==> len <= size && Numeral(buf[..len], num) && buf[len..] == old(buf[len..])
    ensures size >= 24 ==> len > 0
  {
    var tmp := new nat[24](_ => 0);
    len := PutNumber(tmp, num);
    ReversedIsNumeral(num);
    ghost var numeral := Rev(Reversed(num));
    if len > size {
      forall s | Numeral(s, num) ensures |s| > size { NumeralUnique(s, numeral, num); }
      return 0;
    }
    CopyBack(buf, tmp, len);
  }
}
