/** The strings _kstrtoull() accepts, as a grammar (lib/kstrtox.c): a prefix, digits and at most one newline. */
module KstrtoxForms {
  import opened Basics
  import opened Numerals
  import opened Kstrtox

  /** The character c is written for the digit d. */
  predicate Spells(c: nat, d: nat) {
    || (d < 10 && c == '0' as nat + d)
    || (10 <= d < 16 && (c == 'a' as nat + (d - 10) || c == 'A' as nat + (d - 10)))
  }

  predicate SpellsAll(s: seq<nat>, ds: seq<nat>, base: nat) {
    |s| == |ds| && forall i :: 0 <= i < |s| ==> Spells(s[i], ds[i]) && ds[i] < base
  }

  function Power(base: nat, n: nat): nat { if n == 0 then 1 else base * Power(base, n - 1) }

  /** Each digit times the power of the base for its place. */
  function Worth(ds: seq<nat>, base: nat): nat {
    if ds == [] then 0 else ds[0] * Power(base, |ds| - 1) + Worth(ds[1..], base)
  }

  predicate IsPrefix(s: seq<nat>) { s == ['0' as nat, 'x' as nat] || s == ['0' as nat, 'X' as nat] }

  /** Which base b the digits after a prefix are in when the caller asks for base, 0 leaving it to the string: a prefix
      means 16 and needs 0 or 16, a leading zero means 8, and anything else 10. */
  predicate Legal(base: nat, prefix: seq<nat>, digits: seq<nat>, b: nat) {
    || (prefix == [] && base != 0 && b == base)
    || (prefix == [] && base == 0 && digits != [] && b == if digits[0] == '0' as nat then 8 else 10)
    || (IsPrefix(prefix) && (base == 0 || base == 16) && b == 16)
  }

  /** How a string is written: prefix, digits worth ds, and a rest that starts with no further digit. */
  datatype Form = Form(prefix: seq<nat>, digits: seq<nat>, ds: seq<nat>, b: nat, rest: seq<nat>)

  predicate IsForm(s: seq<nat>, base: nat, f: Form) {
    && s == f.prefix + f.digits + f.rest && f.ds != [] && SpellsAll(f.digits, f.ds, f.b)
    && Legal(base, f.prefix, f.digits, f.b)
    && (f.rest != [] ==> forall d: nat :: d < f.b ==> !Spells(f.rest[0], d))
  }

  /** The number fits and nothing but a newline follows, or it does not fit, whatever follows. */
  predicate Decides(f: Form) { f.rest == [] || f.rest == [10] || Worth(f.ds, f.b) >= TWO64 }

  // ---- digits ----

  lemma {:induction false} SpellsVal(c: nat)
    ensures forall d: nat :: Spells(c, d) <==> d < 16 && Val(c) == d
  {
    LowerCase(c);
  }

  lemma {:induction false} LowerCase(c: nat)
    ensures 97 <= ToLower(c) <= 102 <==> 97 <= c <= 102 || 65 <= c <= 70
    ensures ToLower(c) == 120 <==> c == 120 || c == 88
    ensures 97 <= c <= 102 ==> ToLower(c) == c
    ensures 65 <= c <= 70 ==> ToLower(c) == c + 32
  {
    var q := c / 32;
    assert 32 * q <= c < 32 * q + 32;
  }

  lemma {:induction false} NoDigit(c: nat, base: nat)
    requires base <= 16 && forall d: nat :: d < base ==> !Spells(c, d)
    ensures Val(c) >= base
  {
    SpellsVal(c);
    var d: nat := Val(c);
    assert Spells(c, d) <==> d < 16;
  }

  lemma {:induction false} SpellsDigits(s: seq<nat>, ds: seq<nat>, base: nat)
    requires SpellsAll(s, ds, base)
    ensures Digits(s, base) && forall i :: 0 <= i < |s| ==> Val(s[i]) == ds[i]
  {
    forall i | 0 <= i < |s| ensures Val(s[i]) == ds[i] { SpellsVal(s[i]); }
  }

  lemma {:induction false} Regroup(x: nat, base: nat, p: nat, w: nat, d: nat)
    ensures x * (base * p) + (base * w + d) == base * (x * p + w) + d
  {
    assert x * (base * p) == base * (x * p);
    assert base * (x * p + w) == base * (x * p) + base * w;
  }

  lemma {:induction false} WorthMore(ds: seq<nat>, d: nat, base: nat)
    ensures Worth(ds + [d], base) == base * Worth(ds, base) + d
  {
    var all := ds + [d];
    if ds == [] {
      assert all == [d] && all[1..] == [] && Power(base, 0) == 1;
    } else {
      assert all[1..] == ds[1..] + [d];
      WorthMore(ds[1..], d, base);
      Regroup(ds[0], base, Power(base, |ds| - 1), Worth(ds[1..], base), d);
    }
  }

  /** The running value of the loop is the worth of the digits. */
  lemma {:induction false} ValueIsWorth(s: seq<nat>, ds: seq<nat>, base: nat)
    requires |s| == |ds| && forall i :: 0 <= i < |s| ==> Val(s[i]) == ds[i]
    ensures Value(s, base) == Worth(ds, base)
  {
    if s != [] {
      var n := |s| - 1;
      ValueIsWorth(s[..n], ds[..n], base);
      assert ds == ds[..n] + [ds[n]];
      WorthMore(ds[..n], ds[n], base);
    }
  }

  lemma {:induction false} SpanIs(s: seq<nat>, t: seq<nat>, base: nat)
    requires Digits(s, base) && (t != [] ==> Val(t[0]) >= base)
    ensures Span(s + t, base) == |s|
  {
    if s == [] {
      assert s + t == t;
    } else {
      assert (s + t)[1..] == s[1..] + t;
      SpanIs(s[1..], t, base);
    }
  }

  // ---- both directions ----

  /** Where the digits start and in which base, for a string so written. */
  lemma {:induction false} FormRadix(s: seq<nat>, base: nat, f: Form)
    requires base <= 16 && IsForm(s, base, f) && Decides(f)
    ensures FixupRadix(s, base) == (f.b, |f.prefix|) && s[|f.prefix|..] == f.digits + f.rest
  {
    SpellsDigits(f.digits, f.ds, f.b);
    LowerCase(At(s, 1));
    SpellsVal(At(s, 1));
    assert s[|f.prefix|..] == f.digits + f.rest;
    if f.prefix == [] {
      assert s[0] == f.digits[0];
      if |f.ds| > 1 {
        assert s[1] == f.digits[1];
      } else if f.rest != [] {
        assert s[1] == f.rest[0];
        SmallWorth(f.ds, f.b);
      }
    } else {
      assert s[0] == f.prefix[0] && s[1] == f.prefix[1] && s[2] == f.digits[0];
    }
  }

  lemma {:induction false} SmallWorth(ds: seq<nat>, base: nat)
    requires |ds| == 1
    ensures Worth(ds, base) == ds[0]
  {
    assert Power(base, 0) == 1 && ds[1..] == [];
  }

  lemma {:induction false} UnsignedAt(s: seq<nat>, base: nat, b: nat, skip: nat, digits: seq<nat>, rest: seq<nat>)
    requires base <= 16 && FixupRadix(s, base) == (b, skip) && s[skip..] == digits + rest
      && Span(digits + rest, b) == |digits|
    ensures Unsigned(s, base) ==
      if Value(digits, b) >= TWO64 then Range else if digits != [] && (rest == [] || rest == [10]) then
        Ok(Value(digits, b))
      else Inval
  {
    var t := digits + rest;
    assert t[..|digits|] == digits && t[|digits|..] == rest;
  }

  lemma {:induction false} FormSpan(s: seq<nat>, base: nat, f: Form)
    requires base <= 16 && IsForm(s, base, f)
    ensures Span(f.digits + f.rest, f.b) == |f.digits| && Value(f.digits, f.b) == Worth(f.ds, f.b)
  {
    SpellsDigits(f.digits, f.ds, f.b);
    if f.rest != [] { NoDigit(f.rest[0], f.b); }
    SpanIs(f.digits, f.rest, f.b);
    ValueIsWorth(f.digits, f.ds, f.b);
  }

  /** A string written in one of the forms is worth what its digits are, or out of range. */
  lemma {:induction false} FormParses(s: seq<nat>, base: nat, f: Form)
    requires base <= 16 && IsForm(s, base, f) && Decides(f)
    ensures Unsigned(s, base) == if Worth(f.ds, f.b) < TWO64 then Ok(Worth(f.ds, f.b)) else Range
  {
    FormRadix(s, base, f);
    FormSpan(s, base, f);
    UnsignedAt(s, base, f.b, |f.prefix|, f.digits, f.rest);
  }

  /** The digits that characters stand for. */
  function Vals(s: seq<nat>): (ds: seq<nat>)
    ensures |ds| == |s| && forall i :: 0 <= i < |s| ==> ds[i] == Val(s[i])
  {
    seq(|s|, i requires 0 <= i < |s| => Val(s[i]))
  }

  lemma {:induction false} DigitsSpell(s: seq<nat>, base: nat)
    requires Digits(s, base) && base <= 16
    ensures SpellsAll(s, Vals(s), base)
  {
    forall i | 0 <= i < |s| ensures Spells(s[i], Val(s[i])) { SpellsVal(s[i]); }
  }

  lemma {:induction false} RadixLegal(s: seq<nat>, base: nat, digits: seq<nat>)
    requires base <= 16 && digits != []
    requires var (b, skip) := FixupRadix(s, base); digits <= s[skip..] && Digits(digits, b)
    ensures var (b, skip) := FixupRadix(s, base); Legal(base, s[..skip], digits, b)
  {
    var (b, skip) := FixupRadix(s, base);
    LowerCase(At(s, 1));
    assert digits[0] == s[skip..][0] == s[skip];
  }

  /** Whatever is not refused as invalid is written in one of the forms. */
  lemma {:induction false} ParsedForm(s: seq<nat>, base: nat) returns (f: Form)
    requires base <= 16 && !Unsigned(s, base).Inval?
    ensures IsForm(s, base, f) && Decides(f)
  {
    var (b, skip) := FixupRadix(s, base);
    var t := s[skip..];
    var k := Span(t, b);
    f := Form(s[..skip], t[..k], Vals(t[..k]), b, t[k..]);
    assert s == s[..skip] + t[..k] + t[k..];
    DigitsSpell(t[..k], b);
    RadixLegal(s, base, t[..k]);
    if k < |t| { SpellsVal(t[k]); }
    ValueIsWorth(t[..k], f.ds, b);
  }
}
