/** What a digit string is worth. */
module Numerals {

  const ZERO := 48

  /** _tolower(): sets bit 5 of a character. */
  function ToLower(c: nat): nat { if c / 32 % 2 == 0 then c + 32 else c }

  /** The value of a digit in a base up to 16; 16 for any other character. */
  function Val(c: nat): (v: nat)
    ensures v <= 16
  {
    if 48 <= c <= 57 then c - 48 else if 97 <= ToLower(c) <= 102 then ToLower(c) - 97 + 10 else 16
  }

  predicate Digits(s: seq<nat>, base: nat) { forall i :: 0 <= i < |s| ==> Val(s[i]) < base }

  function Value(s: seq<nat>, base: nat): nat {
    if s == [] then 0 else base * Value(s[..|s| - 1], base) + Val(s[|s| - 1])
  }

  /** The decimal numeral of n: digits only, no leading zero, worth n. */
  predicate Numeral(s: seq<nat>, n: nat) {
    s != [] && (forall i :: 0 <= i < |s| ==> 48 <= s[i] <= 57) && Value(s, 10) == n && (|s| > 1 ==> s[0] != ZERO)
  }

  lemma {:induction false} NumeralPositive(s: seq<nat>)
    requires s != [] && (forall i :: 0 <= i < |s| ==> 48 <= s[i] <= 57) && s[0] != ZERO
    ensures Value(s, 10) > 0
  {
    if |s| > 1 {
      NumeralPositive(s[..|s| - 1]);
    }
  }

  /** Every number has one numeral. */
  lemma {:induction false} NumeralUnique(s: seq<nat>, s': seq<nat>, n: nat)
    requires Numeral(s, n) && Numeral(s', n)
    ensures s == s'
  {
    var (t, t') := (s[..|s| - 1], s'[..|s'| - 1]);
    assert s == t + [s[|s| - 1]] && s' == t' + [s'[|s'| - 1]];
    assert Value(t, 10) == n / 10 == Value(t', 10);
    if t != [] { NumeralPositive(t); }
    if t' != [] { NumeralPositive(t'); }
    if t != [] && t' != [] {
      NumeralUnique(t, t', n / 10);
    }
  }
}
