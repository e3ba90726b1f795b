/** Powers of two, alignment, and the bit operators the kernel uses on indices. */
module Bits {

  function Pow2(n: nat): (r: nat)
    ensures r > 0
  {
    if n == 0 then 1 else 2 * Pow2(n - 1)
  }

  lemma {:induction false} Pow2Mono(a: nat, b: nat)
    requires a <= b
    ensures Pow2(a) <= Pow2(b)
    ensures a < b ==> 2 * Pow2(a) <= Pow2(b)
  {
    if a < b {
      Pow2Mono(a, b - 1);
    }
  }

  lemma {:induction false} Pow2Nibble(n: nat)
    ensures Pow2(n + 4) == 16 * Pow2(n)
  {
    assert Pow2(n + 4) == 2 * Pow2(n + 3) && Pow2(n + 3) == 2 * Pow2(n + 2) && Pow2(n + 2) == 2 * Pow2(n + 1);
  }

  lemma {:induction false} Pow2Half(n: nat)
    ensures Pow2(n + 16) == 0x1_0000 * Pow2(n)
  {
    Pow2Nibble(n);
    Pow2Nibble(n + 4);
    Pow2Nibble(n + 8);
    Pow2Nibble(n + 12);
  }

  lemma {:induction false} Pow2Word(w: nat)
    requires w == 64
    ensures Pow2(w) == 0x1_0000_0000_0000_0000
  {
    Pow2Half(w - 16);
    Pow2Half(w - 32);
    Pow2Half(w - 48);
    Pow2Half(w - 64);
  }

  /** p is a multiple of 2^o. */
  predicate Aligned(p: int, o: nat)
    decreases o
  {
    o == 0 || (p % 2 == 0 && Aligned(p / 2, o - 1))
  }

  // ---- small facts about multiples ----

  lemma {:induction false} MulLe(a: int, b: int, k: int)
    requires a <= b && k >= 0
    ensures k * a <= k * b
  {
    assert k * (b - a) >= 0;
  }

  lemma {:induction false} QuotUnique(x: int, k: int, q: int, s: int)
    requires k > 0 && x == k * q + s && 0 <= s < k
    ensures x / k == q && x % k == s
  {
    var d, m := x / k, x % k;
    assert x == k * d + m;
    assert k * (d + 1) == k * d + k && k * (q + 1) == k * q + k;
    if d < q {
      MulLe(d + 1, q, k);
    } else if q < d {
      MulLe(q + 1, d, k);
    }
  }

  lemma {:induction false} AlignedMod(p: int, o: nat)
    ensures Aligned(p, o) <==> p % Pow2(o) == 0
    decreases o
  {
    if o > 0 {
      AlignedMod(p / 2, o - 1);
      ModHalf(p, Pow2(o - 1));
    }
  }

  lemma {:induction false} AlignedDown(p: int, o: nat, r: nat)
    requires o <= r && Aligned(p, r)
    ensures Aligned(p, o)
    decreases o
  {
    if o > 0 {
      AlignedDown(p / 2, o - 1, r - 1);
    }
  }

  lemma {:induction false} AlignedPow2(o: nat, r: nat)
    requires o <= r
    ensures Aligned(Pow2(r), o)
  {
    if o > 0 {
      AlignedPow2(o - 1, r - 1);
    }
  }

  lemma {:induction false} AlignedAdd(p: int, q: int, o: nat)
    requires Aligned(p, o)
    ensures Aligned(q, o) <==> Aligned(p + q, o)
    ensures Aligned(q, o) <==> Aligned(q - p, o)
    decreases o
  {
    if o > 0 {
      AlignedAdd(p / 2, q / 2, o - 1);
      assert (p + q) / 2 == p / 2 + q / 2 && (q - p) / 2 == q / 2 - p / 2;
    }
  }

  /** Two aligned values are equal or at least the alignment apart. */
  lemma {:induction false} AlignedApart(p: int, q: int, o: nat)
    requires Aligned(p, o) && Aligned(q, o) && p < q
    ensures p + Pow2(o) <= q
    decreases o
  {
    if o > 0 {
      AlignedApart(p / 2, q / 2, o - 1);
    }
  }

  /** Aligned blocks nest or are disjoint. */
  lemma {:induction false} Nested(p: int, o: nat, q: int, r: nat)
    requires o <= r && Aligned(p, o) && Aligned(q, r)
    ensures (q <= p && p + Pow2(o) <= q + Pow2(r)) || p + Pow2(o) <= q || q + Pow2(r) <= p
  {
    AlignedDown(q, o, r);
    AlignedPow2(o, r);
    AlignedAdd(q, Pow2(r), o);
    if p < q {
      AlignedApart(p, q, o);
    } else if p < q + Pow2(r) {
      AlignedApart(p, q + Pow2(r), o);
    }
  }

  // ---- bitwise operators on naturals ----

  function And(x: nat, y: nat): (r: nat)
    decreases x
  {
    if x == 0 then 0 else (if x % 2 == 1 && y % 2 == 1 then 1 else 0) + 2 * And(x / 2, y / 2)
  }

  function Xor(x: nat, y: nat): (r: nat)
    decreases x + y
  {
    if x + y == 0 then 0 else (x + y) % 2 + 2 * Xor(x / 2, y / 2)
  }

  /** x with bit o flipped. */
  function Flip(x: nat, o: nat): (r: nat) {
    if o > 0 then x % 2 + 2 * Flip(x / 2, o - 1) else if x % 2 == 0 then x + 1 else x - 1
  }

  lemma {:induction false} XorZero(x: nat)
    ensures Xor(x, 0) == x
  {
    if x > 0 {
      XorZero(x / 2);
    }
  }

  lemma {:induction false} AndSame(x: nat)
    ensures And(x, x) == x
  {
    if x > 0 {
      AndSame(x / 2);
    }
  }

  /** Xor and And work digit by digit. */
  lemma {:induction false} XorHalf(x: nat, y: nat)
    ensures Xor(x, y) / 2 == Xor(x / 2, y / 2) && Xor(x, y) % 2 == (x + y) % 2
  {
  }

  lemma {:induction false} AndHalf(x: nat, y: nat)
    ensures And(x, y) == (if x % 2 == 1 && y % 2 == 1 then 1 else 0) + 2 * And(x / 2, y / 2)
  {
  }

  /** x ^ (1 << o) flips bit o. */
  lemma {:induction false} XorBit(x: nat, o: nat)
    ensures Xor(x, Pow2(o)) == Flip(x, o)
    decreases o
  {
    if o == 0 {
      XorOne(x);
    } else {
      XorBit(x / 2, o - 1);
      XorEven(x, Pow2(o - 1));
    }
  }

  lemma {:induction false} XorOne(x: nat)
    ensures Xor(x, 1) == if x % 2 == 0 then x + 1 else x - 1
  {
    XorHalf(x, 1);
    XorZero(x / 2);
  }

  lemma {:induction false} XorEven(x: nat, p: nat)
    ensures Xor(x, 2 * p) == x % 2 + 2 * Xor(x / 2, p)
  {
    XorHalf(x, 2 * p);
    HalfOf(p);
    EvenSum(Xor(x, 2 * p), Xor(x / 2, p), x, p);
  }

  lemma {:induction false} HalfOf(p: nat)
    ensures 2 * p / 2 == p
  {
  }

  lemma {:induction false} EvenSum(r: nat, q: nat, x: nat, p: nat)
    requires r / 2 == q && r % 2 == (x + 2 * p) % 2
    ensures r == x % 2 + 2 * q
  {
  }

  /** (x ^ (1 << o)) & x clears bit o: the lower of the two. */
  lemma {:induction false} AndBit(x: nat, o: nat)
    ensures And(Flip(x, o), x) == if Flip(x, o) < x then Flip(x, o) else x
    decreases o
  {
    var y := Flip(x, o);
    AndHalf(y, x);
    if o == 0 {
      AndSame(x / 2);
    } else {
      AndBit(x / 2, o - 1);
      var f := Flip(x / 2, o - 1);
      LowBit(x, f);
      LowerHalf(x, f, And(f, x / 2));
    }
  }

  lemma {:induction false} LowBit(x: nat, f: nat)
    ensures (x % 2 + 2 * f) / 2 == f && (x % 2 + 2 * f) % 2 == x % 2
  {
  }

  lemma {:induction false} LowerHalf(x: nat, f: nat, a: nat)
    requires a == if f < x / 2 then f else x / 2
    ensures x % 2 + 2 * a == if x % 2 + 2 * f < x then x % 2 + 2 * f else x
  {
  }

  /** On an aligned index the flipped bit is the next one: the two halves of the enclosing block. */
  lemma {:induction false} FlipAligned(x: nat, o: nat)
    requires Aligned(x, o)
    ensures Flip(x, o) == if Aligned(x, o + 1) then x + Pow2(o) else x - Pow2(o)
    decreases o
  {
    if o > 0 {
      FlipAligned(x / 2, o - 1);
    }
  }

  /** x & (2^o - 1) keeps the low o bits. */
  lemma {:induction false} MaskLow(x: nat, o: nat)
    ensures And(x, Pow2(o) - 1) == x % Pow2(o)
    decreases o
  {
    if o == 0 {
      AndZero(x);
    } else {
      var m, k, h := Pow2(o) - 1, Pow2(o - 1), x / 2;
      AndHalf(x, m);
      assert m % 2 == 1 && m / 2 == k - 1;
      MaskLow(h, o - 1);
      ModHalf(x, k);
    }
  }

  lemma {:induction false} ModHalf(x: int, k: nat)
    requires k > 0
    ensures x % (2 * k) == x % 2 + 2 * ((x / 2) % k)
  {
    var h := x / 2;
    var d, m := h / k, h % k;
    assert h == k * d + m;
    assert x == (2 * k) * d + (x % 2 + 2 * m) by { assert 2 * (k * d) == (2 * k) * d; }
    QuotUnique(x, 2 * k, d, x % 2 + 2 * m);
  }

  lemma {:induction false} AndZero(x: nat)
    ensures And(x, 0) == 0
  {
    if x > 0 {
      AndZero(x / 2);
    }
  }

  /** round_down(x, 1 << k): the low k bits cleared */
  function RoundDown(x: nat, k: nat): (c: nat) { if k == 0 then x else 2 * RoundDown(x / 2, k - 1) }

  /** Clearing the masked bits gives the largest aligned address up to x. */
  lemma {:induction false} RoundDownOk(x: nat, k: nat)
    ensures Aligned(RoundDown(x, k), k) && RoundDown(x, k) <= x < RoundDown(x, k) + Pow2(k)
    ensures RoundDown(x, k) == x - And(x, Pow2(k) - 1)
    decreases k
  {
    if k == 0 {
      AndZero(x);
    } else {
      var (c, p) := (RoundDown(x / 2, k - 1), Pow2(k - 1));
      RoundDownOk(x / 2, k - 1);
      AndHalf(x, 2 * p - 1);
      HalfMask(x, p, c, And(x / 2, p - 1));
    }
  }

  lemma {:induction false} HalfMask(x: nat, p: nat, c: int, m: int)
    requires p > 0 && c <= x / 2 < c + p && c == x / 2 - m
    ensures 2 * c <= x < 2 * c + 2 * p && (2 * p - 1) % 2 == 1 && (2 * p - 1) / 2 == p - 1
      && 2 * c == x - (2 * m + x % 2)
  {
  }

  lemma {:induction false} RoundDownGreatest(x: nat, k: nat, c: nat)
    requires Aligned(c, k) && c <= x
    ensures c <= RoundDown(x, k)
  {
    RoundDownOk(x, k);
    if RoundDown(x, k) < c {
      AlignedApart(RoundDown(x, k), c, k);
    }
  }
}
