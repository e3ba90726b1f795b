/** The data format that scripts/kallsyms.c writes and kernel/kallsyms.c reads: symbols compressed by pairs of
    codes, the token table that expands them, and the stream of names. */
module Kallsyms {

  type Text = seq<nat>

  // ---- pairs ----

  /** How often y follows x. */
  function Pairs(s: Text, x: nat, y: nat): (n: nat) {
    if |s| < 2 then 0 else Pairs(s[..|s| - 1], x, y) + if s[|s| - 2] == x && s[|s| - 1] == y then 1 else 0
  }

  /** The same over all symbols. */
  function Total(texts: seq<Text>, x: nat, y: nat): (n: nat) {
    if texts == [] then 0 else Pairs(texts[0], x, y) + Total(texts[1..], x, y)
  }

  lemma {:induction false} TotalUpdate(texts: seq<Text>, i: nat, t: Text, x: nat, y: nat)
    requires i < |texts|
    ensures Total(texts[i := t], x, y) == Total(texts, x, y) - Pairs(texts[i], x, y) + Pairs(t, x, y)
  {
    if i == 0 {
      assert texts[0 := t][1..] == texts[1..];
    } else {
      assert texts[i := t][1..] == texts[1..][i - 1 := t];
      TotalUpdate(texts[1..], i - 1, t, x, y);
    }
  }

  lemma {:induction false} SomePair(s: Text)
    requires |s| >= 2
    ensures Pairs(s, s[|s| - 2], s[|s| - 1]) > 0
  {
  }

  lemma {:induction false} TotalAtLeast(texts: seq<Text>, i: nat, x: nat, y: nat)
    requires i < |texts|
    ensures Total(texts, x, y) >= Pairs(texts[i], x, y)
  {
    if i > 0 {
      TotalAtLeast(texts[1..], i - 1, x, y);
    }
  }

  /** Some symbol holds a pair that is counted. */
  lemma {:induction false} TotalPositive(texts: seq<Text>, x: nat, y: nat) returns (i: nat)
    requires Total(texts, x, y) > 0
    ensures i < |texts| && First(texts[i], x, y) < |texts[i]|
  {
    if Pairs(texts[0], x, y) > 0 {
      i := 0;
      PairSomewhere(texts[0], x, y);
    } else {
      var j := TotalPositive(texts[1..], x, y);
      i := j + 1;
    }
  }

  lemma {:induction false} PairSomewhere(s: Text, x: nat, y: nat)
    requires Pairs(s, x, y) > 0
    ensures First(s, x, y) < |s|
  {
    if s[|s| - 2] == x && s[|s| - 1] == y {
      FirstIsFirst(s, x, y, |s| - 2);
    } else {
      var t := s[..|s| - 1];
      PairSomewhere(t, x, y);
      var k := First(t, x, y);
      FirstIsFirst(s, x, y, k);
    }
  }

  /** Where x, y first occurs; the length if nowhere. */
  function First(s: Text, x: nat, y: nat): (k: nat)
    ensures k == |s| || (k + 1 < |s| && s[k] == x && s[k + 1] == y)
  {
    if |s| < 2 then |s| else if s[0] == x && s[1] == y then 0 else 1 + First(s[1..], x, y)
  }

  lemma {:induction false} FirstIsFirst(s: Text, x: nat, y: nat, k: nat)
    requires k + 1 < |s| && s[k] == x && s[k + 1] == y
    ensures First(s, x, y) <= k
  {
    if k > 0 {
      FirstIsFirst(s[1..], x, y, k - 1);
    }
  }

  // ---- replacing a pair ----

  /** Every pair x, y from the left becomes code c. */
  function Replace(s: Text, x: nat, y: nat, c: nat): (r: Text)
    ensures |r| <= |s|
  {
    if |s| < 2 then s
    else if s[0] == x && s[1] == y then [c] + Replace(s[2..], x, y, c)
    else [s[0]] + Replace(s[1..], x, y, c)
  }

  lemma {:induction false} ReplaceFirst(s: Text, x: nat, y: nat, c: nat)
    ensures var k := First(s, x, y);
      Replace(s, x, y, c) == if k == |s| then s else s[..k] + [c] + Replace(s[k + 2..], x, y, c)
  {
    var k := First(s, x, y);
    if |s| >= 2 && s[0] == x && s[1] == y {
      assert s[..0] + [c] == [c];
    } else if |s| >= 2 {
      var t := s[1..];
      ReplaceFirst(t, x, y, c);
      if k < |s| {
        PrependTo(s, k, c, Replace(s[k + 2..], x, y, c));
      } else {
        assert [s[0]] + t == s;
      }
    }
  }

  lemma {:induction false} PrependTo(s: Text, k: nat, c: nat, r: Text)
    requires 0 < k && k + 1 < |s|
    ensures s[1..][k - 1 + 2..] == s[k + 2..] && [s[0]] + (s[1..][..k - 1] + [c] + r) == s[..k] + [c] + r
  {
    assert s[..k] == [s[0]] + s[1..][..k - 1];
  }

  lemma {:induction false} ReplaceCodes(s: Text, x: nat, y: nat, c: nat, z: nat)
    requires z in Replace(s, x, y, c)
    ensures z in s || z == c
  {
    if |s| >= 2 {
      if s[0] == x && s[1] == y {
        if z != c { ReplaceCodes(s[2..], x, y, c, z); }
      } else if z != s[0] {
        ReplaceCodes(s[1..], x, y, c, z);
      }
    }
  }

  // ---- the token table ----

  /** best_table: nothing for a free code, the code itself for a character, two codes for a token. */
  predicate Entry(tab: seq<Text>, c: nat)
    requires |tab| == 256 && c < 256
  {
    || tab[c] == []
    || tab[c] == [c]
    || (|tab[c]| == 2 && Part(tab, c, tab[c][0]) && Part(tab, c, tab[c][1]))
  }

  /** A part of token c is a character or a token placed before, in a higher slot. */
  predicate Part(tab: seq<Text>, c: nat, z: nat)
    requires |tab| == 256
  {
    z < 256 && z != c && (tab[z] == [z] || (|tab[z]| == 2 && z > c))
  }

  predicate Table(tab: seq<Text>) { |tab| == 256 && forall c :: 0 <= c < 256 ==> Entry(tab, c) }

  /** The characters a code stands for. */
  function Code(tab: seq<Text>, c: nat): (r: Text)
    requires Table(tab) && c < 256
    decreases if |tab[c]| == 2 then 256 - c else 0
  {
    assert Entry(tab, c);
    if |tab[c]| == 2 then Code(tab, tab[c][0]) + Code(tab, tab[c][1]) else tab[c]
  }

  predicate Known(tab: seq<Text>, s: Text)
    requires |tab| == 256
  {
    forall i :: 0 <= i < |s| ==> s[i] < 256 && tab[s[i]] != []
  }

  /** The text a compressed symbol stands for. */
  function Expand(tab: seq<Text>, s: Text): (r: Text)
    requires Table(tab) && Known(tab, s)
  {
    if s == [] then [] else Code(tab, s[0]) + Expand(tab, s[1..])
  }

  lemma {:induction false} ExpandJoin(tab: seq<Text>, s: Text, t: Text)
    requires Table(tab) && Known(tab, s) && Known(tab, t)
    ensures Known(tab, s + t) && Expand(tab, s + t) == Expand(tab, s) + Expand(tab, t)
  {
    if s == [] {
      assert s + t == t;
    } else {
      assert (s + t)[1..] == s[1..] + t;
      ExpandJoin(tab, s[1..], t);
    }
  }

  // ---- a new token ----

  /** Slot c, so far free and below every token, gets the pair x, y. */
  predicate NewToken(tab: seq<Text>, c: nat, x: nat, y: nat) {
    && Table(tab) && c < 256 && tab[c] == [] && x < 256 && y < 256 && tab[x] != [] && tab[y] != []
    && forall z :: 0 <= z < 256 && |tab[z]| == 2 ==> z > c
  }

  lemma {:induction false} NewTable(tab: seq<Text>, c: nat, x: nat, y: nat)
    requires NewToken(tab, c, x, y)
    ensures Table(tab[c := [x, y]])
  {
    var tab' := tab[c := [x, y]];
    forall z | 0 <= z < 256 ensures Entry(tab', z) {
      assert Entry(tab, z) && Entry(tab, x) && Entry(tab, y);
    }
  }

  lemma {:induction false} CodeKept(tab: seq<Text>, c: nat, x: nat, y: nat, z: nat)
    requires NewToken(tab, c, x, y) && Table(tab[c := [x, y]]) && z < 256 && tab[z] != []
    ensures Code(tab[c := [x, y]], z) == Code(tab, z)
    decreases if |tab[z]| == 2 then 256 - z else 0
  {
    assert Entry(tab, z);
    if |tab[z]| == 2 {
      CodeKept(tab, c, x, y, tab[z][0]);
      CodeKept(tab, c, x, y, tab[z][1]);
    }
  }

  /** Replacing a pair by its new token keeps what a symbol stands for. */
  lemma {:induction false} ReplaceKeeps(tab: seq<Text>, c: nat, x: nat, y: nat, s: Text)
    requires NewToken(tab, c, x, y) && Known(tab, s)
    ensures var (tab', r) := (tab[c := [x, y]], Replace(s, x, y, c));
      Table(tab') && Known(tab', r) && Expand(tab', r) == Expand(tab, s)
  {
    var tab', r := tab[c := [x, y]], Replace(s, x, y, c);
    NewTable(tab, c, x, y);
    if |s| >= 2 && s[0] == x && s[1] == y {
      ReplaceKeeps(tab, c, x, y, s[2..]);
      assert r[1..] == Replace(s[2..], x, y, c);
      CodeKept(tab, c, x, y, x);
      CodeKept(tab, c, x, y, y);
      assert s[1..][1..] == s[2..];
      assert Code(tab, x) + Code(tab, y) + Expand(tab, s[2..]) == Code(tab, x) + (Code(tab, y) + Expand(tab, s[2..]));
    } else if s != [] {
      var t := Replace(s[1..], x, y, c);
      ReplaceKeeps(tab, c, x, y, s[1..]);
      assert r == [s[0]] + t && r[1..] == t;
      CodeKept(tab, c, x, y, s[0]);
    }
  }
}
