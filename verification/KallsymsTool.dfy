/** The compression of scripts/kallsyms.c: symbols rewritten in place, pair counts kept along. */
module KallsymsTool {
  import opened Basics
  import opened Kallsyms
  import opened KallsymsBounds

  /** The symbol ends at n, and zeros follow up to len. */
  predicate Padded(b: seq<nat>, n: nat, len: nat) { n <= len < |b| && forall i :: n <= i <= len ==> b[i] == 0 }

  /** A pair without zeros is never found in the padding. */
  lemma {:induction false} FirstPad(s: Text, t: Text, x: nat, y: nat)
    requires y != 0 && |t| <= |s| && t == s[..|t|] && forall i :: |t| <= i < |s| ==> s[i] == 0
    ensures First(t, x, y) == (if First(s, x, y) == |s| then |t| else First(s, x, y)) <= |t|
  {
    if |t| >= 2 && !(s[0] == x && s[1] == y) {
      assert t[1..] == s[1..][..|t| - 1];
      FirstPad(s[1..], t[1..], x, y);
    }
  }

  /** First, one character further. */
  lemma {:induction false} FirstFrom(s: Text, i: nat, x: nat, y: nat)
    requires i <= |s|
    ensures i + 1 < |s| ==> First(s[i..], x, y) == if s[i] == x && s[i + 1] == y then 0 else 1 + First(s[i + 1..], x, y)
    ensures i + 1 >= |s| ==> First(s[i..], x, y) == |s| - i
  {
    if i + 1 < |s| {
      assert s[i..][1..] == s[i + 1..];
    }
  }

  /** find_token(): the first x, y in the size bytes from p; -1 if there is none. */
  method FindToken(buf: array<nat>, p: nat, size: nat, x: nat, y: nat) returns (r: int)
    requires p + size <= buf.Length
    ensures var k := First(buf[p..p + size], x, y); if k == size then r == -1 else r == p + k
  {
    var i := 0;
    ghost var s := buf[p..p + size];
    assert s[0..] == s;
    while i + 1 < size
      invariant 0 <= i <= size && First(s, x, y) == i + First(s[i..], x, y)
    {
      FirstFrom(s, i, x, y);
      assert buf[p + i] == s[i] && buf[p + i + 1] == s[i + 1];
      if buf[p + i] == x && buf[p + i + 1] == y {
        return p + i;
      }
      i := i + 1;
    }
    FirstFrom(s, i, x, y);
    return -1;
  }

  /** memmove(dst, dst + 1, size) */
  method MoveDown(buf: array<nat>, dst: nat, size: nat)
    requires dst + size < buf.Length
    modifies buf
    ensures forall j :: 0 <= j < buf.Length ==> buf[j] == if dst <= j < dst + size then old(buf[j + 1]) else old(buf[j])
  {
    var k := 0;
    while k < size
      invariant 0 <= k <= size
      invariant forall j :: 0 <= j < dst ==> buf[j] == old(buf[j])
      invariant forall j :: dst <= j < dst + k ==> buf[j] == old(buf[j + 1])
      invariant forall j :: dst + k <= j < buf.Length ==> buf[j] == old(buf[j])
    {
      buf[dst + k] := buf[dst + k + 1];
      k := k + 1;
    }
  }

  /** The pair at p replaced by code c. */
  function Put(s: Text, p: nat, c: nat): Text
    requires p + 1 < |s|
  {
    s[..p] + [c] + s[p + 2..]
  }

  /** Puts code c in the place of the pair at p. */
  method Substitute(buf: array<nat>, p: nat, c: nat, ghost n: nat, len: nat, ghost s: Text)
    requires Padded(buf[..], n, len) && p + 1 < n && s == buf[..n]
    modifies buf
    ensures Padded(buf[..], n - 1, len) && buf[..n - 1] == Put(s, p, c)
  {
    buf[p] := c;
    MoveDown(buf, p + 1, len - p - 1);
    Shifted(old(buf[..]), buf[..], p, c, n, len, s);
  }

  lemma {:induction false} PutAt(s: Text, p: nat, c: nat, j: nat)
    requires p + 1 < |s| && j + 1 < |s|
    ensures |Put(s, p, c)| == |s| - 1 && Put(s, p, c)[j] == if j < p then s[j] else if j == p then c else s[j + 1]
  {
    if j > p {
      assert Put(s, p, c)[j] == s[p + 2..][j - p - 1];
    }
  }

  lemma {:induction false} Shifted(b: seq<nat>, b': seq<nat>, p: nat, c: nat, n: nat, len: nat, s: Text)
    requires Padded(b, n, len) && p + 1 < n && |b'| == |b| && s == b[..n]
    requires forall j :: 0 <= j < |b'| ==> b'[j] == if j == p then c else if p < j < len then b[j + 1] else b[j]
    ensures Padded(b', n - 1, len) && b'[..n - 1] == Put(s, p, c)
  {
    var r, t := Put(s, p, c), b'[..n - 1];
    assert |r| == |t|;
    forall j | 0 <= j < |r| ensures t[j] == r[j] {
      assert t[j] == b'[j] == if j == p then c else if p < j < len then b[j + 1] else b[j];
      PutAt(s, p, c, j);
      assert s[j] == b[j] && s[j + 1] == b[j + 1];
    }
    assert t == r;
    forall j | n - 1 <= j <= len ensures b'[j] == 0 {
      assert b'[j] == if j == p then c else if p < j < len then b[j + 1] else b[j];
    }
  }

  /** goal is the symbol s rewritten from p1 on. */
  predicate Partly(s: Text, p1: nat, x: nat, y: nat, c: nat, goal: Text)
    decreases p1
  {
    if p1 == 0 then goal == Replace(s, x, y, c)
    else s != [] && goal != [] && s[0] == goal[0] && Partly(s[1..], p1 - 1, x, y, c, goal[1..])
  }

  lemma {:induction false} PartlyMeans(s: Text, p1: nat, x: nat, y: nat, c: nat, goal: Text)
    requires Partly(s, p1, x, y, c, goal)
    ensures p1 <= |s| && goal == s[..p1] + Replace(s[p1..], x, y, c)
  {
    if p1 == 0 {
      assert s[0..] == s;
    } else {
      PartlyMeans(s[1..], p1 - 1, x, y, c, goal[1..]);
      assert s[1..][p1 - 1..] == s[p1..] && s[..p1] == [s[0]] + s[1..][..p1 - 1];
    }
  }

  lemma {:induction false} PartlyJoin(a: Text, t: Text, x: nat, y: nat, c: nat)
    ensures Partly(a + t, |a|, x, y, c, a + Replace(t, x, y, c))
  {
    var r := Replace(t, x, y, c);
    if a == [] {
      assert a + t == t && a + r == r;
    } else {
      PartlyJoin(a[1..], t, x, y, c);
      assert (a + t)[1..] == a[1..] + t && (a + r)[1..] == a[1..] + r;
    }
  }

  lemma {:induction false} Shape(s: Text, p1: nat, k: nat, c: nat)
    requires p1 + k + 1 < |s|
    ensures Put(s, p1 + k, c) == s[..p1] + (s[p1..][..k] + [c]) + s[p1 + k + 2..] && s[p1..][k + 2..] == s[p1 + k + 2..]
  {
    assert s[..p1 + k] == s[..p1] + s[p1..][..k];
  }

  lemma {:induction false} OnePair(s: Text, p1: nat, k: nat, x: nat, y: nat, c: nat, goal: Text)
    requires Partly(s, p1, x, y, c, goal) && p1 + k + 1 < |s| && First(s[p1..], x, y) == k
    ensures Partly(Put(s, p1 + k, c), p1 + k + 1, x, y, c, goal)
  {
    var a, h, r := s[..p1], s[p1..][..k] + [c], s[p1 + k + 2..];
    var t := Replace(r, x, y, c);
    Shape(s, p1, k, c);
    assert goal == a + (h + t) by {
      PartlyMeans(s, p1, x, y, c, goal);
      ReplaceFirst(s[p1..], x, y, c);
    }
    Regroup(a, h, t);
    PartlyJoin(a + h, r, x, y, c);
  }

  lemma {:induction false} NoneLeft(s: Text, p1: nat, x: nat, y: nat, c: nat, goal: Text)
    requires Partly(s, p1, x, y, c, goal) && p1 <= |s| && First(s[p1..], x, y) == |s| - p1
    ensures s == goal
  {
    PartlyMeans(s, p1, x, y, c, goal);
    ReplaceFirst(s[p1..], x, y, c);
  }

  /** The next pair from p1, searched with the size the loop has left. */
  method NextToken(buf: array<nat>, p1: nat, size: nat, ghost s: Text, len: nat, x: nat, y: nat) returns (r: int)
    requires |s| <= len && Padded(buf[..], |s|, len) && s == buf[..|s|] && p1 <= |s| && p1 + size == len && y != 0
    ensures r == Following(s, p1, x, y)
  {
    FirstPad(buf[p1..p1 + size], s[p1..], x, y);
    if size < 2 {
      return -1;
    }
    r := FindToken(buf, p1, size, x, y);
  }

  /** Where the first pair from p1 on is; -1 if nowhere. */
  function Following(s: Text, p1: nat, x: nat, y: nat): int
    requires p1 <= |s|
  {
    var k := First(s[p1..], x, y); if k == |s| - p1 then -1 else p1 + k
  }

  /** The next pair to replace is at p2; there is none when p2 is negative. */
  predicate Ahead(s: Text, p1: nat, p2: int, x: nat, y: nat, c: nat, goal: Text) {
    p1 <= |s| && p2 == Following(s, p1, x, y) && Partly(s, p1, x, y, c, goal)
  }

  lemma {:induction false} Onward(s: Text, p1: nat, p2: nat, x: nat, y: nat, c: nat, goal: Text)
    requires Ahead(s, p1, p2, x, y, c, goal)
    ensures p1 <= p2 && p2 + 1 < |s| && Partly(Put(s, p2, c), p2 + 1, x, y, c, goal)
  {
    OnePair(s, p1, p2 - p1, x, y, c, goal);
  }

  /** One turn of the loop of compress_symbols(). */
  method Turn(buf: array<nat>, p1: nat, p2: nat, size: nat, ghost s: Text, len: nat, x: nat, y: nat, c: nat,
              ghost goal: Text)
    returns (p1': nat, p2': int, size': nat, ghost s': Text)
    requires |s| <= len && Padded(buf[..], |s|, len) && s == buf[..|s|] && p1 + size == len && y != 0
      && Ahead(s, p1, p2, x, y, c, goal)
    modifies buf
    ensures |s'| == |s| - 1 && Padded(buf[..], |s'|, len) && s' == buf[..|s'|] && p1' + size' == len
    ensures Ahead(s', p1', p2', x, y, c, goal)
  {
    Onward(s, p1, p2, x, y, c, goal);
    Substitute(buf, p2, c, |s|, len, s);
    s' := Put(s, p2, c);
    p1' := p2 + 1;
    size' := size - (p1' - p1);
    p2' := NextToken(buf, p1', size', s', len, x, y);
  }

  /** The loop of compress_symbols() on one symbol, whose first pair is at p. */
  method CompressText(buf: array<nat>, len: nat, x: nat, y: nat, c: nat, p: nat) returns (n: nat)
    requires Padded(buf[..], len, len) && y != 0 && First(buf[..len], x, y) == p < len
    modifies buf
    ensures Padded(buf[..], n, len) && buf[..n] == Replace(old(buf[..len]), x, y, c)
  {
    var p1: nat, p2: int, size: nat := 0, p, len;
    n := len;
    ghost var s := buf[..len];
    ghost var goal := Replace(s, x, y, c);
    assert s[0..] == s;
    while p2 >= 0
      invariant n == |s| <= len && Padded(buf[..], n, len) && s == buf[..n] && p1 + size == len
        && Ahead(s, p1, p2, x, y, c, goal)
      decreases n
    {
      p1, p2, size, s := Turn(buf, p1, p2, size, s, len, x, y, c, goal);
      n := n - 1;
    }
    NoneLeft(s, p1, x, y, c, goal);
  }

  // ---- pair counts ----

  /** token_profit of a pair. */
  function Slot(profit: seq<int>, x: nat, y: nat): int
    requires |profit| == 0x10000 && x < 256 && y < 256
  {
    profit[x + 256 * y]
  }

  predicate Adds(profit: seq<int>, profit': seq<int>, s: Text, sign: int) {
    && |profit| == |profit'| == 0x10000
    && forall x: nat, y: nat :: x < 256 && y < 256 ==> Slot(profit', x, y) == Slot(profit, x, y) + sign * Pairs(s, x, y)
  }

  predicate Bytes(s: Text) { forall i :: 0 <= i < |s| ==> s[i] < 256 }

  lemma {:induction false} AddsMore(profit: seq<int>, profit': seq<int>, s: Text, i: nat, sign: int)
    requires i + 1 < |s| && Bytes(s) && Adds(profit, profit', s[..i + 1], sign)
    ensures var k := s[i] + 256 * s[i + 1]; Adds(profit, profit'[k := profit'[k] + sign], s[..i + 2], sign)
  {
    var k := s[i] + 256 * s[i + 1];
    var p := profit'[k := profit'[k] + sign];
    var t := s[..i + 2];
    assert t[..|t| - 1] == s[..i + 1] && t[|t| - 2] == s[i] && t[|t| - 1] == s[i + 1];
    forall x: nat, y: nat | x < 256 && y < 256 ensures Slot(p, x, y) == Slot(profit, x, y) + sign * Pairs(t, x, y) {
      assert Slot(profit', x, y) == Slot(profit, x, y) + sign * Pairs(s[..i + 1], x, y);
      assert x + 256 * y == k <==> s[i] == x && s[i + 1] == y;
      assert sign * (Pairs(s[..i + 1], x, y) + 1) == sign * Pairs(s[..i + 1], x, y) + sign;
    }
  }

  /** learn_symbol() for sign 1, forget_symbol() for sign -1. */
  method CountSymbol(profit: array<int>, symbol: array<nat>, len: nat, sign: int)
    requires len <= symbol.Length && Bytes(symbol[..len]) && profit.Length == 0x10000
    modifies profit
    ensures symbol[..len] == old(symbol[..len])
    ensures Adds(old(profit[..]), profit[..], symbol[..len], sign)
  {
    var i := 0;
    ghost var s := symbol[..len];
    while i + 1 < len
      invariant 0 <= i && (i + 1 <= len || i == 0) && symbol[..len] == s
      invariant Adds(old(profit[..]), profit[..], s[..if len == 0 then 0 else i + 1], sign)
    {
      AddsMore(old(profit[..]), profit[..], s, i, sign);
      var k := symbol[i] + 256 * symbol[i + 1];
      profit[k] := profit[k] + sign;
      i := i + 1;
    }
    assert s[..if len == 0 then 0 else i + 1] == s;
  }

  // ---- all symbols ----

  predicate AllBytes(texts: seq<Text>) { forall j :: 0 <= j < |texts| ==> Bytes(texts[j]) }

  predicate CountsOf(profit: seq<int>, texts: seq<Text>) {
    |profit| == 0x10000 && forall x: nat, y: nat :: x < 256 && y < 256 ==> Slot(profit, x, y) == Total(texts, x, y)
  }

  /** Forgetting a symbol and learning what it became keeps the counts. */
  lemma {:induction false} Recount(p0: seq<int>, p1: seq<int>, p2: seq<int>, texts: seq<Text>, j: nat, t: Text)
    requires j < |texts| && CountsOf(p0, texts) && Adds(p0, p1, texts[j], -1) && Adds(p1, p2, t, 1)
    ensures CountsOf(p2, texts[j := t])
  {
    forall x: nat, y: nat | x < 256 && y < 256 ensures Slot(p2, x, y) == Total(texts[j := t], x, y) {
      TotalUpdate(texts, j, t, x, y);
      assert Slot(p1, x, y) == Slot(p0, x, y) - Pairs(texts[j], x, y);
    }
  }

  lemma {:induction false} ReplaceBytes(s: Text, x: nat, y: nat, c: nat)
    requires Bytes(s) && c < 256
    ensures Bytes(Replace(s, x, y, c))
  {
    var r := Replace(s, x, y, c);
    forall i | 0 <= i < |r| ensures r[i] < 256 { ReplaceCodes(s, x, y, c, r[i]); }
  }

  /** All symbols with the pair x, y replaced. */
  predicate AllReplaced(texts: seq<Text>, texts': seq<Text>, x: nat, y: nat, c: nat) {
    |texts'| == |texts| && forall j :: 0 <= j < |texts| ==> texts'[j] == Replace(texts[j], x, y, c)
  }

  /** What optimize_result() keeps: the symbols still stand for orig, and tokens sit above slot i. */
  predicate Good(tab: seq<Text>, texts: seq<Text>, orig: seq<Text>, i: int) {
    && Table(tab) && |tab[0]| != 1 && |texts| == |orig| && (forall z :: 0 <= z < 256 && |tab[z]| == 2 ==> z > i)
    && forall j :: 0 <= j < |texts| ==> StandsFor(tab, texts[j], orig[j])
  }

  predicate StandsFor(tab: seq<Text>, s: Text, t: Text)
    requires Table(tab)
  {
    Known(tab, s) && Expand(tab, s) == t
  }

  /** No symbol holds a zero while slots remain. */
  predicate NoZeros(texts: seq<Text>) { forall j :: 0 <= j < |texts| ==> NoZero(texts[j]) }

  predicate NoZero(s: Text) { forall k :: 0 <= k < |s| ==> s[k] != 0 }

  lemma {:induction false} ReplaceNoZero(s: Text, x: nat, y: nat, c: nat)
    requires NoZero(s) && c != 0
    ensures NoZero(Replace(s, x, y, c))
  {
    var r := Replace(s, x, y, c);
    forall k | 0 <= k < |r| ensures r[k] != 0 { ReplaceCodes(s, x, y, c, r[k]); }
  }

  /** The pair chosen is in use, so it can become a token. */
  lemma {:induction false} ChosenPair(tab: seq<Text>, texts: seq<Text>, orig: seq<Text>, i: nat, x: nat, y: nat)
    requires Good(tab, texts, orig, i) && i < 256 && tab[i] == [] && NoZeros(texts) && Total(texts, x, y) > 0
    ensures NewToken(tab, i, x, y) && y != 0
  {
    var j := TotalPositive(texts, x, y);
    var k := First(texts[j], x, y);
    assert StandsFor(tab, texts[j], orig[j]) && NoZero(texts[j]);
    assert texts[j][k] == x && texts[j][k + 1] == y;
  }

  /** A token more keeps what every symbol stands for. */
  lemma {:induction false} GoodStep(tab: seq<Text>, texts: seq<Text>, texts': seq<Text>, orig: seq<Text>, i: nat,
                            x: nat, y: nat)
    requires Good(tab, texts, orig, i) && NewToken(tab, i, x, y) && AllReplaced(texts, texts', x, y, i)
    ensures Good(tab[i := [x, y]], texts', orig, i - 1)
    ensures NoZeros(texts) && i > 0 ==> NoZeros(texts')
  {
    var tab' := tab[i := [x, y]];
    NewTable(tab, i, x, y);
    forall j | 0 <= j < |texts'| ensures StandsFor(tab', texts'[j], orig[j]) {
      assert StandsFor(tab, texts[j], orig[j]);
      ReplaceKeeps(tab, i, x, y, texts[j]);
    }
    if NoZeros(texts) && i > 0 {
      forall j | 0 <= j < |texts'| ensures NoZero(texts'[j]) { ReplaceNoZero(texts[j], x, y, i); }
    }
  }

  /** Nor does it make codes too long, or take a slot without shortening some symbol. */
  lemma {:induction false} TokenStep(tab: seq<Text>, texts: seq<Text>, texts': seq<Text>, orig: seq<Text>, i: nat,
                            x: nat, y: nat)
    requires Good(tab, texts, orig, i) && NewToken(tab, i, x, y) && AllReplaced(texts, texts', x, y, i)
    requires Within(tab, Longest(orig)) && Total(texts, x, y) > 0
    ensures Within(tab[i := [x, y]], Longest(orig))
    ensures Used(tab[i := [x, y]], 256) + Length(texts') <= Used(tab, 256) + Length(texts)
  {
    var j := TotalPositive(texts, x, y);
    assert StandsFor(tab, texts[j], orig[j]);
    WithinStep(tab, i, x, y, texts[j], First(texts[j], x, y), Longest(orig));
    BudgetStep(tab, i, x, y, texts, texts', j);
  }

  /** The table and the symbols before slot i is looked at. */
  predicate Made(tab: seq<Text>, texts: seq<Text>, orig: seq<Text>, i: int, budget: nat) {
    && Good(tab, texts, orig, i) && (i >= 0 ==> NoZeros(texts))
    && Within(tab, Longest(orig)) && Letters(tab, orig) && Used(tab, 256) + Length(texts) <= budget
    && forall c :: i < c < 256 && 0 <= c ==> tab[c] != []
  }

  lemma {:induction false} MadeStep(tab: seq<Text>, texts: seq<Text>, texts': seq<Text>, orig: seq<Text>, i: nat,
                            x: nat, y: nat, budget: nat)
    requires Made(tab, texts, orig, i, budget) && NewToken(tab, i, x, y) && AllReplaced(texts, texts', x, y, i)
    requires Total(texts, x, y) > 0
    ensures Made(tab[i := [x, y]], texts', orig, i - 1, budget)
  {
    GoodStep(tab, texts, texts', orig, i, x, y);
    TokenStep(tab, texts, texts', orig, i, x, y);
  }

  lemma {:induction false} MadeSkip(tab: seq<Text>, texts: seq<Text>, orig: seq<Text>, i: nat, budget: nat)
    requires Made(tab, texts, orig, i, budget) && i < 256 && tab[i] != []
    ensures Made(tab, texts, orig, i - 1, budget)
  {
  }

  lemma {:induction false} MadeEnds(tab: seq<Text>, texts: seq<Text>, orig: seq<Text>, i: nat, budget: nat)
    requires Made(tab, texts, orig, i, budget)
    ensures Good(tab, texts, orig, -1)
  {
  }

  /** When no pair counts, every symbol is at most one code. */
  lemma {:induction false} NothingLeft(texts: seq<Text>, j: nat)
    requires j < |texts| && Bytes(texts[j]) && forall x: nat, y: nat :: x < 256 && y < 256 ==> Total(texts, x, y) == 0
    ensures |texts[j]| <= 1
  {
    var s := texts[j];
    if |s| >= 2 {
      SomePair(s);
      TotalAtLeast(texts, j, s[|s| - 2], s[|s| - 1]);
    }
  }

  lemma {:induction false} TotalMore(texts: seq<Text>, t: Text, x: nat, y: nat)
    ensures Total(texts + [t], x, y) == Total(texts, x, y) + Pairs(t, x, y)
  {
    if texts == [] {
      assert (texts + [t])[1..] == [];
    } else {
      assert (texts + [t])[1..] == texts[1..] + [t];
      TotalMore(texts[1..], t, x, y);
    }
  }

  lemma {:induction false} CountMore(p: seq<int>, p': seq<int>, texts: seq<Text>, i: nat)
    requires i < |texts| && CountsOf(p, texts[..i]) && Adds(p, p', texts[i], 1)
    ensures CountsOf(p', texts[..i + 1])
  {
    assert texts[..i + 1] == texts[..i] + [texts[i]];
    forall x: nat, y: nat | x < 256 && y < 256 ensures Slot(p', x, y) == Total(texts[..i + 1], x, y) {
      TotalMore(texts[..i], texts[i], x, y);
    }
  }

  /** One buffer a symbol, with room for the zero after it. */
  method MakeBuffers(orig: seq<Text>) returns (syms: seq<array<nat>>, lens: array<nat>)
    ensures fresh(lens) && lens !in syms && fresh(syms) && |syms| == lens.Length == |orig|
    ensures forall i, j :: 0 <= i < |syms| && 0 <= j < |syms| && i != j ==> syms[i] != syms[j]
    ensures forall j :: 0 <= j < |syms| ==>
      lens[j] == |orig[j]| && syms[j].Length == |orig[j]| + 1 && syms[j][..|orig[j]|] == orig[j]
      && syms[j][|orig[j]|] == 0
  {
    lens := new nat[|orig|](i requires 0 <= i < |orig| => |orig[i]|);
    syms := [];
    while |syms| < |orig|
      invariant |syms| <= |orig| && lens !in syms && fresh(syms)
      invariant forall i, j :: 0 <= i < |syms| && 0 <= j < |syms| && i != j ==> syms[i] != syms[j]
      invariant forall j :: 0 <= j < |syms| ==>
        syms[j].Length == |orig[j]| + 1 && syms[j][..|orig[j]|] == orig[j] && syms[j][|orig[j]|] == 0
      invariant forall j :: 0 <= j < |orig| ==> lens[j] == |orig[j]|
    {
      var t := orig[|syms|];
      var a := new nat[|t| + 1](i requires 0 <= i <= |t| => if i < |t| then t[i] else 0);
      syms := syms + [a];
    }
  }

  class Tool {
    const syms: seq<array<nat>>
    const lens: array<nat>
    const profit: array<int>
    /** best_table and best_table_len */
    var tab: seq<Text>
    ghost var texts: seq<Text>

    ghost predicate HeldAt(j: nat)
      requires j < |syms| == lens.Length == |texts|
      reads this`texts, lens, syms[j]
    {
      && lens[j] == |texts[j]| && lens[j] < syms[j].Length
      && syms[j][..lens[j]] == texts[j] && syms[j][lens[j]] == 0
    }

    /** The buffers hold texts. */
    ghost predicate Stored()
      reads this`texts, lens, syms
    {
      && |syms| == lens.Length == |texts| && lens !in syms
      && (forall i, j :: 0 <= i < |syms| && 0 <= j < |syms| && i != j ==> syms[i] != syms[j])
      && (forall j :: 0 <= j < |syms| ==> HeldAt(j))
      && AllBytes(texts)
    }

    /** And token_profit counts their pairs. */
    ghost predicate Held()
      reads this`texts, lens, syms, profit
    {
      Stored() && CountsOf(profit[..], texts)
    }

    /** The symbols as read, one zero after each. */
    constructor (orig: seq<Text>)
      requires AllBytes(orig)
      ensures Held() && texts == orig && fresh(lens) && fresh(profit) && fresh(syms)
    {
      var bufs, ns := MakeBuffers(orig);
      syms, lens := bufs, ns;
      profit := new int[0x10000](_ => 0);
      texts, tab := orig, seq(256, _ => []);
      new;
      BuildInitialTokTable();
    }

    /** build_initial_tok_table(): every symbol is counted. */
    method BuildInitialTokTable()
      requires Stored() && profit.Length == 0x10000 && forall k :: 0 <= k < 0x10000 ==> profit[k] == 0
      modifies profit
      ensures Held()
    {
      var i := 0;
      while i < |syms|
        invariant 0 <= i <= |syms| && Stored() && CountsOf(profit[..], texts[..i])
      {
        assert HeldAt(i) && Bytes(texts[i]);
        ghost var p0 := profit[..];
        CountSymbol(profit, syms[i], lens[i], 1);
        CountMore(p0, profit[..], texts, i);
        i := i + 1;
      }
      assert texts[..i] == texts;
    }

    /** compress_symbols() on symbol j. */
    method CompressAt(j: nat, x: nat, y: nat, c: nat)
      requires Held() && j < |syms| && y != 0 && c < 256
      modifies this`texts, syms[j], lens, profit
      ensures Held() && texts == old(texts)[j := Replace(old(texts)[j], x, y, c)]
    {
      var len := lens[j];
      ghost var t, r, p0 := texts[j], Replace(texts[j], x, y, c), profit[..];
      assert HeldAt(j);
      assert syms[j][0..len] == t;
      var p := FindToken(syms[j], 0, len, x, y);
      ReplaceFirst(t, x, y, c);
      if p < 0 {
        return;
      }
      ReplaceBytes(t, x, y, c);
      CountSymbol(profit, syms[j], len, -1);
      ghost var p1 := profit[..];
      var n := CompressText(syms[j], len, x, y, c, p);
      lens[j] := n;
      CountSymbol(profit, syms[j], n, 1);
      Recount(p0, p1, profit[..], texts, j, r);
      texts := texts[j := r];
      forall k | 0 <= k < |syms| ensures HeldAt(k) {
        if k != j {
          assert old(HeldAt(k)) && syms[k] != syms[j];
          assert syms[k][..lens[k]] == old(syms[k][..lens[k]]);
        }
      }
    }

    /** compress_symbols() */
    method CompressSymbols(x: nat, y: nat, c: nat)
      requires Held() && y != 0 && c < 256
      modifies this`texts, syms, lens, profit
      ensures Held() && AllReplaced(old(texts), texts, x, y, c)
    {
      var i := 0;
      while i < |syms|
        invariant 0 <= i <= |syms| && Held() && |texts| == |old(texts)|
        invariant forall j :: 0 <= j < i ==> texts[j] == Replace(old(texts)[j], x, y, c)
        invariant forall j :: i <= j < |texts| ==> texts[j] == old(texts)[j]
      {
        CompressAt(i, x, y, c);
        i := i + 1;
      }
    }

    /** find_best_token(): the first of the most frequent pairs. */
    method FindBestToken() returns (best: nat)
      requires Held()
      ensures best < 0x10000 && forall k :: 0 <= k < 0x10000 ==>
        profit[k] < profit[best] || (profit[k] == profit[best] && best <= k)
    {
      best := 0;
      var bestProfit, i := -10000, 0;
      while i < 0x10000
        invariant 0 <= i <= 0x10000 && best < 0x10000
        invariant if i == 0 then bestProfit == -10000 else best < i && bestProfit == profit[best] >= 0
        invariant forall k :: 0 <= k < i ==> profit[k] < profit[best] || (profit[k] == profit[best] && best <= k)
      {
        NotNegative(profit[..], texts, i);
        if profit[i] > bestProfit {
          best, bestProfit := i, profit[i];
        }
        i := i + 1;
      }
    }

    /** What holds before slot i is looked at; budget bounds the codes in use and the characters left. */
    ghost predicate Going(orig: seq<Text>, i: int, budget: nat)
      reads this, lens, syms, profit
    {
      Held() && Made(tab, texts, orig, i, budget)
    }

    /** One turn of the loop of optimize_result(): a free slot gets the most frequent pair, if there is one. */
    method AddToken(i: nat, ghost orig: seq<Text>, ghost budget: nat) returns (done: bool)
      requires i < 256 && Going(orig, i, budget) && tab[i] == []
      modifies this, syms, lens, profit
      ensures if done then Going(orig, i, budget) && (forall j :: 0 <= j < |texts| ==> |texts[j]| <= 1)
        else Going(orig, i - 1, budget)
    {
      var best := FindBestToken();
      NotNegative(profit[..], texts, best);
      if profit[best] == 0 {
        AllZero(profit[..], texts);
        return true;
      }
      var x, y := best % 256, best / 256;
      ghost var tab0, texts0 := tab, texts;
      ChosenPair(tab, texts, orig, i, x, y);
      tab := tab[i := [x, y]];
      CompressSymbols(x, y, i);
      MadeStep(tab0, texts0, texts, orig, i, x, y, budget);
      return false;
    }

    /** optimize_result(): tokens for the most frequent pairs until slots or pairs run out. */
    method OptimizeResult(ghost orig: seq<Text>)
      requires Held() && Good(tab, texts, orig, 255) && NoZeros(texts) && Within(tab, Longest(orig))
        && Letters(tab, orig)
      modifies this, syms, lens, profit
      ensures Held() && Good(tab, texts, orig, -1) && Within(tab, Longest(orig)) && Letters(tab, orig)
      ensures Used(tab, 256) + Length(texts) <= old(Used(tab, 256)) + Length(old(texts))
      ensures (forall c :: 0 <= c < 256 ==> tab[c] != []) || (forall j :: 0 <= j < |texts| ==> |texts[j]| <= 1)
    {
      var i := 255;
      ghost var budget := Used(tab, 256) + Length(texts);
      while i >= 0
        invariant -1 <= i <= 255 && Going(orig, i, budget)
      {
        if tab[i] == [] {
          var done := AddToken(i, orig, budget);
          if done {
            MadeEnds(tab, texts, orig, i, budget);
            return;
          }
        } else {
          MadeSkip(tab, texts, orig, i, budget);
        }
        i := i - 1;
      }
    }

    /** insert_real_symbols_in_table() */
    method InsertRealSymbols()
      requires Held() && NoZeros(texts)
      modifies this`tab
      ensures Held() && Good(tab, texts, texts, 255) && Within(tab, Longest(texts))
      ensures JustChars(tab, texts) && Letters(tab, texts)
    {
      tab := seq(256, _ => []);
      var i := 0;
      while i < |syms|
        invariant 0 <= i <= |syms| && Held() && Characters(tab)
        invariant forall j :: 0 <= j < i ==> Known(tab, texts[j])
        invariant forall c :: 0 <= c < 256 && tab[c] != [] ==> Occurs(texts, c)
      {
        InsertSymbol(i);
        i := i + 1;
      }
      OwnText(tab, texts);
    }

    method InsertSymbol(i: nat)
      requires Held() && NoZeros(texts) && i < |syms| && Characters(tab)
      modifies this`tab
      ensures Held() && Characters(tab) && Known(tab, texts[i])
      ensures forall c :: 0 <= c < 256 && old(tab)[c] != [] ==> tab[c] != []
      ensures forall c :: 0 <= c < 256 && tab[c] != [] ==> old(tab)[c] != [] || Occurs(texts, c)
    {
      assert HeldAt(i) && NoZero(texts[i]) && Bytes(texts[i]);
      var j := 0;
      while j < lens[i]
        invariant 0 <= j <= lens[i] && Held() && Characters(tab)
        invariant forall k :: 0 <= k < j ==> tab[texts[i][k]] != []
        invariant forall c :: 0 <= c < 256 && old(tab)[c] != [] ==> tab[c] != []
        invariant forall c :: 0 <= c < 256 && tab[c] != [] ==> old(tab)[c] != [] || Occurs(texts, c)
      {
        assert HeldAt(i);
        var c := syms[i][j];
        assert c == texts[i][j];
        tab := tab[c := [c]];
        j := j + 1;
      }
    }
  }

  /** A table of characters only. */
  predicate Characters(tab: seq<Text>) {
    |tab| == 256 && tab[0] == [] && forall c :: 0 <= c < 256 ==> tab[c] == [] || tab[c] == [c]
  }

  lemma {:induction false} OwnText(tab: seq<Text>, texts: seq<Text>)
    requires Characters(tab) && forall j :: 0 <= j < |texts| ==> Known(tab, texts[j])
    requires forall c :: 0 <= c < 256 && tab[c] != [] ==> Occurs(texts, c)
    ensures Good(tab, texts, texts, 255) && Within(tab, Longest(texts))
    ensures JustChars(tab, texts) && Letters(tab, texts)
  {
    assert forall c :: 0 <= c < 256 ==> Entry(tab, c);
    forall c | 0 <= c < 256 && Occurs(texts, c) ensures tab[c] != [] {
      var j :| 0 <= j < |texts| && c in texts[j];
      assert Known(tab, texts[j]);
    }
    forall j | 0 <= j < |texts| ensures StandsFor(tab, texts[j], texts[j]) { OwnExpansion(tab, texts[j]); }
  }

  lemma {:induction false} OwnExpansion(tab: seq<Text>, s: Text)
    requires Characters(tab) && Table(tab) && Known(tab, s)
    ensures Expand(tab, s) == s
  {
    if s != [] {
      OwnExpansion(tab, s[1..]);
    }
  }

  lemma {:induction false} AllZero(profit: seq<int>, texts: seq<Text>)
    requires CountsOf(profit, texts) && AllBytes(texts) && forall k :: 0 <= k < 0x10000 ==> profit[k] <= 0
    ensures forall j :: 0 <= j < |texts| ==> |texts[j]| <= 1
  {
    forall x: nat, y: nat | x < 256 && y < 256
      ensures Total(texts, x, y) == 0 { assert Slot(profit, x, y) == profit[x + 256 * y]; }
    forall j | 0 <= j < |texts| ensures |texts[j]| <= 1 { NothingLeft(texts, j); }
  }

  lemma {:induction false} NotNegative(profit: seq<int>, texts: seq<Text>, i: nat)
    requires CountsOf(profit, texts) && i < 0x10000
    ensures profit[i] == Total(texts, i % 256, i / 256)
  {
    assert Slot(profit, i % 256, i / 256) == profit[i];
  }
}
