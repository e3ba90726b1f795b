/** How long the expansion of a code can get and how many codes the compression of scripts/kallsyms.c uses. */
module KallsymsBounds {
  import opened Kallsyms

  /** The longest symbol. */
  function Longest(texts: seq<Text>): (n: nat)
    ensures forall j :: 0 <= j < |texts| ==> |texts[j]| <= n
    ensures n == 0 || exists j :: 0 <= j < |texts| && |texts[j]| == n
  {
    if texts == [] then 0 else
      var k, n := |texts| - 1, Longest(texts[..|texts| - 1]);
      assert |texts[k]| == |texts[k]|;
      assert n == 0 || exists j :: 0 <= j < k && |texts[j]| == n by {
        if n > 0 {
          var j :| 0 <= j < k && |texts[..k][j]| == n;
          assert |texts[j]| == n;
        }
      }
      if |texts[k]| > n then |texts[k]| else n
  }

  /** The characters of all symbols together. */
  function Length(texts: seq<Text>): (n: nat) { if texts == [] then 0 else |texts[0]| + Length(texts[1..]) }

  /** The codes below k in use. */
  function Used(tab: seq<Text>, k: nat): (n: nat)
    requires k <= |tab|
    ensures n <= k
  {
    if k == 0 then 0 else Used(tab, k - 1) + if tab[k - 1] == [] then 0 else 1
  }

  /** Character c is in some symbol. */
  predicate Occurs(texts: seq<Text>, c: nat) { exists j :: 0 <= j < |texts| && c in texts[j] }

  /** The characters below k that occur. */
  function Chars(texts: seq<Text>, k: nat): (n: nat) {
    if k == 0 then 0 else Chars(texts, k - 1) + if Occurs(texts, k - 1) then 1 else 0
  }

  /** The codes in use are the characters that occur. */
  predicate JustChars(tab: seq<Text>, texts: seq<Text>) {
    |tab| == 256 && forall c :: 0 <= c < 256 ==> (tab[c] != [] <==> Occurs(texts, c))
  }

  /** The characters that occur have their own code, and no other character has. */
  predicate Letters(tab: seq<Text>, texts: seq<Text>) {
    |tab| == 256 && forall c :: 0 <= c < 256 ==> (|tab[c]| == 1 <==> Occurs(texts, c))
  }

  lemma {:induction false} UsedChars(tab: seq<Text>, texts: seq<Text>, k: nat)
    requires JustChars(tab, texts) && k <= 256
    ensures Used(tab, k) == Chars(texts, k)
  {
    if k > 0 {
      UsedChars(tab, texts, k - 1);
    }
  }

  /** The table has slots enough to make one code of each symbol. */
  predicate Small(texts: seq<Text>) { Chars(texts, 256) + Length(texts) < 256 + |texts| }

  /** No code in use stands for more than n characters. */
  predicate Within(tab: seq<Text>, n: nat) {
    Table(tab) && forall c :: 0 <= c < 256 && tab[c] != [] ==> 0 < |Code(tab, c)| <= n
  }

  // ---- lengths of expansions ----

  /** A symbol is no longer than what it stands for. */
  lemma {:induction false} ExpandLonger(tab: seq<Text>, s: Text, n: nat)
    requires Within(tab, n) && Known(tab, s)
    ensures |s| <= |Expand(tab, s)|
  {
    if s != [] {
      assert tab[s[0]] != [] && Known(tab, s[1..]);
      ExpandLonger(tab, s[1..], n);
    }
  }

  /** Two neighbours stand for no more than the whole symbol. */
  lemma {:induction false} PairLength(tab: seq<Text>, s: Text, k: nat)
    requires Table(tab) && Known(tab, s) && k + 1 < |s|
    ensures |Code(tab, s[k])| + |Code(tab, s[k + 1])| <= |Expand(tab, s)|
  {
    if k > 0 {
      PairLength(tab, s[1..], k - 1);
    } else {
      assert Expand(tab, s[1..]) == Code(tab, s[1]) + Expand(tab, s[1..][1..]);
    }
  }

  /** A token made of neighbours of a symbol keeps the bound. */
  lemma {:induction false} WithinStep(tab: seq<Text>, c: nat, x: nat, y: nat, s: Text, k: nat, n: nat)
    requires Within(tab, n) && NewToken(tab, c, x, y) && Known(tab, s) && k + 1 < |s| && s[k] == x && s[k + 1] == y
    requires |Expand(tab, s)| <= n
    ensures Within(tab[c := [x, y]], n)
  {
    var tab' := tab[c := [x, y]];
    NewTable(tab, c, x, y);
    PairLength(tab, s, k);
    forall z | 0 <= z < 256 && tab'[z] != [] ensures 0 < |Code(tab', z)| <= n {
      if z == c {
        CodeKept(tab, c, x, y, x);
        CodeKept(tab, c, x, y, y);
        assert Code(tab', c) == Code(tab', x) + Code(tab', y);
      } else {
        CodeKept(tab, c, x, y, z);
      }
    }
  }

  /** A code stands for characters that occur. */
  lemma {:induction false} CodeLetters(tab: seq<Text>, texts: seq<Text>, c: nat, z: nat)
    requires Table(tab) && Letters(tab, texts) && c < 256 && z in Code(tab, c)
    ensures z < 256 && Occurs(texts, z)
    decreases if |tab[c]| == 2 then 256 - c else 0
  {
    assert Entry(tab, c);
    if |tab[c]| == 2 {
      CodeLetters(tab, texts, if z in Code(tab, tab[c][0]) then tab[c][0] else tab[c][1], z);
    }
  }

  // ---- every token shortens some symbol ----

  lemma {:induction false} ReplaceShorter(s: Text, x: nat, y: nat, c: nat)
    requires First(s, x, y) < |s|
    ensures |Replace(s, x, y, c)| < |s|
  {
    ReplaceFirst(s, x, y, c);
  }

  lemma {:induction false} LengthAtMost(texts: seq<Text>, texts': seq<Text>)
    requires |texts'| == |texts| && forall j :: 0 <= j < |texts| ==> |texts'[j]| <= |texts[j]|
    ensures Length(texts') <= Length(texts)
    ensures forall j :: 0 <= j < |texts| && |texts'[j]| < |texts[j]| ==> Length(texts') < Length(texts)
  {
    if texts != [] {
      LengthAtMost(texts[1..], texts'[1..]);
      assert forall j :: 1 <= j < |texts| ==> texts'[j] == texts'[1..][j - 1] && texts[j] == texts[1..][j - 1];
    }
  }

  lemma {:induction false} UsedMore(tab: seq<Text>, c: nat, e: Text, k: nat)
    requires c < |tab| && tab[c] == [] && e != [] && k <= |tab|
    ensures Used(tab[c := e], k) == Used(tab, k) + if c < k then 1 else 0
  {
    if k > 0 {
      UsedMore(tab, c, e, k - 1);
    }
  }

  /** A new code and the symbols it shortens balance. */
  lemma {:induction false} BudgetStep(tab: seq<Text>, c: nat, x: nat, y: nat, texts: seq<Text>, texts': seq<Text>,
                            j: nat)
    requires |tab| == 256 && c < 256 && tab[c] == [] && |texts'| == |texts|
    requires forall j :: 0 <= j < |texts| ==> texts'[j] == Replace(texts[j], x, y, c)
    requires j < |texts| && First(texts[j], x, y) < |texts[j]|
    ensures Used(tab[c := [x, y]], 256) + Length(texts') <= Used(tab, 256) + Length(texts)
  {
    UsedMore(tab, c, [x, y], 256);
    ReplaceShorter(texts[j], x, y, c);
    LengthAtMost(texts, texts');
  }

  lemma {:induction false} UsedAll(tab: seq<Text>, k: nat)
    requires k <= |tab| && forall c :: 0 <= c < k ==> tab[c] != []
    ensures Used(tab, k) == k
  {
    if k > 0 {
      UsedAll(tab, k - 1);
    }
  }

  lemma {:induction false} LengthAtLeast(texts: seq<Text>)
    requires forall j :: 0 <= j < |texts| ==> texts[j] != []
    ensures Length(texts) >= |texts|
  {
    if texts != [] {
      assert forall j :: 1 <= j < |texts| ==> texts[j] == texts[1..][j - 1];
      LengthAtLeast(texts[1..]);
    }
  }
}
