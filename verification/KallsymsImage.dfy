/** The tables write_src() emits (scripts/kallsyms.c) and the kernel's readers of them (kernel/kallsyms.c). */
module KallsymsImage {
  import opened Basics
  import opened Kallsyms
  import opened KallsymsAsm
  import opened KallsymsBounds
  import opened KallsymsTool

  const KSYM_NAME_LEN := 128

  // ---- the layout ----

  /** kallsyms_names: each symbol as its length and its codes. */
  function Stream(texts: seq<Text>): (r: Text) {
    if texts == [] then [] else [|texts[0]|] + texts[0] + Stream(texts[1..])
  }

  /** Where entry k starts. */
  function Offset(texts: seq<Text>, k: nat): (o: nat)
    requires k <= |texts|
  {
    if k == 0 then 0 else |texts[0]| + 1 + Offset(texts[1..], k - 1)
  }

  /** Entry t stands at o. */
  predicate EntryAt(r: Text, o: nat, t: Text) { o + 1 + |t| <= |r| && r[o] == |t| && r[o + 1..o + 1 + |t|] == t }

  lemma {:induction false} EntryAfter(a: Text, r: Text, o: nat, t: Text)
    requires EntryAt(r, o, t)
    ensures EntryAt(a + r, |a| + o, t)
  {
    assert (a + r)[|a| + o + 1..|a| + o + 1 + |t|] == r[o + 1..o + 1 + |t|];
  }

  lemma {:induction false} StreamAt(texts: seq<Text>, k: nat)
    requires k < |texts|
    ensures EntryAt(Stream(texts), Offset(texts, k), texts[k])
      && Offset(texts, k + 1) == Offset(texts, k) + 1 + |texts[k]|
  {
    var a, r := [|texts[0]|] + texts[0], Stream(texts[1..]);
    if k > 0 {
      StreamAt(texts[1..], k - 1);
      EntryAfter(a, r, Offset(texts[1..], k - 1), texts[k]);
    } else {
      assert (a + r)[1..1 + |texts[0]|] == texts[0];
    }
  }

  lemma {:induction false} StreamMore(texts: seq<Text>, t: Text)
    ensures Stream(texts + [t]) == Stream(texts) + [|t|] + t && |Stream(texts)| == Offset(texts, |texts|)
  {
    if texts == [] {
      assert texts + [t] == [t] && [t][1..] == [];
    } else {
      assert (texts + [t])[1..] == texts[1..] + [t];
      StreamMore(texts[1..], t);
    }
  }

  /** kallsyms_token_table up to code k: expansions, each followed by a zero. */
  function Tokens(tab: seq<Text>, k: nat): (r: Text)
    requires Table(tab) && k <= 256
  {
    if k == 0 then [] else Tokens(tab, k - 1) + (Code(tab, k - 1) + [0])
  }

  /** String e stands at o, with its zero. */
  predicate StringAt(r: Text, o: nat, e: Text) { o + |e| < |r| && r[o..o + |e|] == e && r[o + |e|] == 0 }

  lemma {:induction false} StringBefore(r: Text, b: Text, o: nat, e: Text)
    requires StringAt(r, o, e)
    ensures StringAt(r + b, o, e)
  {
    assert (r + b)[o..o + |e|] == r[o..o + |e|];
  }

  lemma {:induction false} TokenAt(tab: seq<Text>, c: nat, k: nat)
    requires Table(tab) && c < k <= 256
    ensures StringAt(Tokens(tab, k), |Tokens(tab, c)|, Code(tab, c))
  {
    var r, e := Tokens(tab, k - 1), Code(tab, k - 1);
    if c + 1 < k {
      TokenAt(tab, c, k - 1);
      StringBefore(r, e + [0], |Tokens(tab, c)|, Code(tab, c));
    } else {
      assert (r + (e + [0]))[|r|..|r| + |e|] == e;
    }
  }

  /** Every code stands for at least one character, none of them zero. */
  lemma {:induction false} CodeShape(tab: seq<Text>, c: nat)
    requires Table(tab) && |tab[0]| != 1 && c < 256
    ensures NoZero(Code(tab, c)) && (tab[c] != [] ==> Code(tab, c) != [])
    decreases if |tab[c]| == 2 then 256 - c else 0
  {
    assert Entry(tab, c);
    if |tab[c]| == 2 {
      CodeShape(tab, tab[c][0]);
      CodeShape(tab, tab[c][1]);
    }
  }

  // ---- the writer ----

  function Rank(tab: seq<Text>, c: nat): nat
    requires Table(tab) && c < 256
  {
    if |tab[c]| == 2 then 256 - c else 0
  }

  lemma {:induction false} ExpandOneMore(tab: seq<Text>, data: Text, i: nat)
    requires Table(tab) && Known(tab, data) && i < |data|
    ensures Expand(tab, data[..i + 1]) == Expand(tab, data[..i]) + Code(tab, data[i])
  {
    var one := [data[i]];
    assert data[..i + 1] == data[..i] + one && one[1..] == [];
    ExpandJoin(tab, data[..i], one);
  }

  lemma {:induction false} ExpandPrefix(tab: seq<Text>, data: Text, i: nat)
    requires Table(tab) && Known(tab, data) && i <= |data|
    ensures Expand(tab, data) == Expand(tab, data[..i]) + Expand(tab, data[i..])
  {
    assert data == data[..i] + data[i..];
    ExpandJoin(tab, data[..i], data[i..]);
  }

  /** The codes of a table entry are known, of smaller rank, and expand to what the code stands for. */
  lemma {:induction false} Descend(tab: seq<Text>, c: nat)
    requires Table(tab) && c < 256 && tab[c] != [] && tab[c] != [c]
    ensures Known(tab, tab[c]) && Expand(tab, tab[c]) == Code(tab, c) && forall z <- tab[c] ::
      Rank(tab, z) < Rank(tab, c)
  {
    assert Entry(tab, c);
    var e := tab[c];
    assert e[1..] == [e[1]] && e[1..][1..] == [] && Expand(tab, e) == Code(tab, e[0]) + Expand(tab, [e[1]]);
    assert Expand(tab, [e[1]]) == Code(tab, e[1]) + [];
  }

  /** expand_symbol(): writes what data stands for at pos, and a zero; ok says whether that stayed in the buffer. */
  method ExpandSymbol(tab: seq<Text>, data: Text, result: array<nat>, pos: nat, ghost rank: nat)
    returns (total: nat, ok: bool)
    requires Table(tab) && Known(tab, data) && pos <= result.Length && forall z <- data :: Rank(tab, z) < rank
    modifies result
    ensures ok <==> pos + |Expand(tab, data)| < result.Length
    ensures ok ==> total == |Expand(tab, data)| && result[pos + total] == 0
    ensures ok ==> result[..pos + total] == old(result[..pos]) + Expand(tab, data)
    decreases rank, 1
  {
    var i := 0;
    total, ok := 0, true;
    ghost var head := result[..pos];
    while i < |data|
      invariant 0 <= i <= |data| && total == |Expand(tab, data[..i])| && pos + total <= result.Length
      invariant result[..pos + total] == head + Expand(tab, data[..i])
    {
      ExpandOneMore(tab, data, i);
      ExpandPrefix(tab, data, i + 1);
      var rlen;
      rlen, ok := ExpandCode(tab, data[i], result, pos + total);
      if !ok {
        return;
      }
      Regroup(head, Expand(tab, data[..i]), Code(tab, data[i]));
      total := total + rlen;
      i := i + 1;
    }
    assert data[..i] == data;
    ok := pos + total < result.Length;
    if ok {
      result[pos + total] := 0;
    }
  }

  /** One turn of its loop: a character, or the codes of a token. */
  method ExpandCode(tab: seq<Text>, c: nat, result: array<nat>, pos: nat) returns (rlen: nat, ok: bool)
    requires Table(tab) && c < 256 && tab[c] != [] && pos <= result.Length
    modifies result
    ensures pos + |Code(tab, c)| < result.Length ==> ok
    ensures ok ==> rlen == |Code(tab, c)| && pos + rlen <= result.Length
    ensures ok ==> result[..pos + rlen] == old(result[..pos]) + Code(tab, c)
    decreases Rank(tab, c), 2
  {
    if tab[c] == [c] {
      rlen, ok := 1, pos < result.Length;
      if ok {
        result[pos] := c;
      }
    } else {
      Descend(tab, c);
      rlen, ok := ExpandSymbol(tab, tab[c], result, pos, Rank(tab, c));
    }
  }

  /** Marker m gives the offset of entry 256 * m. */
  predicate Markers(markers: seq<nat>, texts: seq<Text>) {
    |markers| == (|texts| + 255) / 256 && forall m :: 0 <= m < |markers| ==> markers[m] == Offset(texts, 256 * m)
  }

  /** The names stream and its markers. */
  method WriteNames(tool: Tool) returns (names: Text, markers: seq<nat>)
    requires tool.Stored()
    ensures names == Stream(tool.texts) && Markers(markers, tool.texts)
  {
    names, markers := [], [];
    var off, i := 0, 0;
    ghost var texts := tool.texts;
    while i < |tool.syms|
      invariant 0 <= i <= |texts| && names == Stream(texts[..i]) && off == |names| == Offset(texts, i)
      invariant |markers| == (i + 255) / 256 && forall m :: 0 <= m < |markers| ==> markers[m] == Offset(texts, 256 * m)
    {
      assert tool.HeldAt(i);
      if i % 256 == 0 {
        markers := markers + [off];
      }
      var len := tool.lens[i];
      names := names + [len] + tool.syms[i][..len];
      off := off + len + 1;
      assert texts[..i + 1] == texts[..i] + [texts[i]];
      StreamMore(texts[..i], texts[i]);
      StreamAt(texts, i);
      i := i + 1;
    }
    assert texts[..i] == texts;
  }

  /** strlen() */
  method StrLen(buf: array<nat>, ghost s: Text) returns (n: nat)
    requires |s| < buf.Length && buf[..|s|] == s && buf[|s|] == 0 && NoZero(s)
    ensures n == |s|
  {
    n := 0;
    assert forall i :: 0 <= i < |s| ==> buf[i] == buf[..|s|][i];
    while buf[n] != 0
      invariant n <= |s|
      decreases |s| - n
    {
      n := n + 1;
    }
  }

  predicate Index(index: seq<nat>, tab: seq<Text>, k: nat)
    requires Table(tab) && k <= 256
  {
    |index| == k && forall c :: 0 <= c < k ==> index[c] == |Tokens(tab, c)|
  }

  lemma {:induction false} EntryExpands(tab: seq<Text>, c: nat)
    requires Table(tab) && c < 256
    ensures Known(tab, tab[c]) && Expand(tab, tab[c]) == Code(tab, c) && forall z <- tab[c] :: Rank(tab, z) < 257
  {
    if tab[c] == [c] {
      assert [c][1..] == [];
    } else if tab[c] != [] {
      Descend(tab, c);
    }
  }

  /** No expansion overruns the writer's scratch buffer. */
  predicate Fits(tab: seq<Text>, n: nat)
    requires Table(tab)
  {
    forall c :: 0 <= c < 256 ==> |Code(tab, c)| < n
  }

  /** The .asciz lines of the codes below k. */
  function Lines(tab: seq<Text>, k: nat): (r: seq<Text>)
    requires Table(tab) && k <= 256
    ensures |r| == k && forall c :: 0 <= c < k ==> r[c] == Quoted(Code(tab, c))
  {
    if k == 0 then [] else Lines(tab, k - 1) + [Quoted(Code(tab, k - 1))]
  }

  /** One expansion, as a string in the buffer. */
  method WriteToken(tab: seq<Text>, c: nat, buf: array<nat>) returns (e: Text, ok: bool)
    requires Table(tab) && |tab[0]| != 1 && c < 256
    modifies buf
    ensures (ok <==> |Code(tab, c)| < buf.Length) && (ok ==> e == Code(tab, c))
  {
    EntryExpands(tab, c);
    CodeShape(tab, c);
    var total;
    e := [];
    total, ok := ExpandSymbol(tab, tab[c], buf, 0, 257);
    if ok {
      assert buf[..total] == Code(tab, c);
      var n := StrLen(buf, Code(tab, c));
      e := buf[..n];
    }
  }

  /** The lines of the token table and the index, through a scratch buffer of KSYM_NAME_LEN bytes; ok says whether every
      token stayed in it. */
  method WriteTokens(tab: seq<Text>) returns (lines: seq<Text>, index: seq<nat>, ok: bool)
    requires Table(tab) && |tab[0]| != 1
    ensures ok <==> Fits(tab, KSYM_NAME_LEN)
    ensures ok ==> lines == Lines(tab, 256) && Index(index, tab, 256)
  {
    var buf := new nat[KSYM_NAME_LEN];
    lines, index := [], [];
    var off, i := 0, 0;
    while i < 256
      invariant 0 <= i <= 256 && lines == Lines(tab, i) && off == |Tokens(tab, i)| && Index(index, tab, i)
      invariant forall c :: 0 <= c < i ==> |Code(tab, c)| < KSYM_NAME_LEN
    {
      index := index + [off];
      var e;
      e, ok := WriteToken(tab, i, buf);
      if !ok {
        return;
      }
      lines := lines + [Quoted(e)];
      off := off + |e| + 1;
      i := i + 1;
    }
    ok := true;
  }

  // ---- the assembler's reading of the token table ----

  lemma {:induction false} LinesRead(tab: seq<Text>, k: nat)
    requires Table(tab) && k <= 256 && forall c :: 0 <= c < k ==> Plain(Code(tab, c))
    ensures Assembled(Lines(tab, k)) == Some(Tokens(tab, k))
  {
    if k > 0 {
      LinesRead(tab, k - 1);
      var lines := Lines(tab, k);
      assert lines[..|lines| - 1] == Lines(tab, k - 1);
      ReadBack(Code(tab, k - 1));
    }
  }

  predicate AllPlain(orig: seq<Text>) { forall j :: 0 <= j < |orig| ==> Plain(orig[j]) }

  /** The assembler takes the lines exactly when no symbol holds a quote or a backslash, and then reads the expansions
      verbatim: a character that occurs stands on a line of its own. */
  lemma {:induction false} TokensRead(tab: seq<Text>, orig: seq<Text>)
    requires Table(tab) && Letters(tab, orig)
    ensures AllPlain(orig) ==> Assembled(Lines(tab, 256)) == Some(Tokens(tab, 256))
    ensures !AllPlain(orig) ==> Assembled(Lines(tab, 256)) == None
  {
    if AllPlain(orig) {
      forall c | 0 <= c < 256 ensures Plain(Code(tab, c)) {
        if QUOTE in Code(tab, c) { CodeLetters(tab, orig, c, QUOTE); }
        if BACKSLASH in Code(tab, c) { CodeLetters(tab, orig, c, BACKSLASH); }
      }
      LinesRead(tab, 256);
    } else {
      var j :| 0 <= j < |orig| && !Plain(orig[j]);
      var z := if QUOTE in orig[j] then QUOTE else BACKSLASH;
      assert Occurs(orig, z) && Entry(tab, z);
      NotRead(z);
      Refused(Lines(tab, 256), z);
    }
  }

  // ---- widths ----

  lemma {:induction false} TokensLength(tab: seq<Text>, n: nat, k: nat)
    requires Within(tab, n) && n <= KSYM_NAME_LEN + 1 && k <= 256
    ensures |Tokens(tab, k)| <= 130 * k
  {
    if k > 0 {
      TokensLength(tab, n, k - 1);
      assert tab[k - 1] == [] ==> Code(tab, k - 1) == [];
    }
  }

  lemma {:induction false} StreamBytes(texts: seq<Text>)
    requires AllBytes(texts) && forall j :: 0 <= j < |texts| ==> |texts[j]| < 256
    ensures Bytes(Stream(texts))
  {
    if texts != [] {
      assert forall j :: 1 <= j < |texts| ==> texts[j] == texts[1..][j - 1];
      assert Bytes(texts[0]);
      StreamBytes(texts[1..]);
    }
  }

  /** What read_symbol() can read: a type character and a name of at most KSYM_NAME_LEN characters. */
  predicate Readable(orig: seq<Text>) {
    AllBytes(orig) && NoZeros(orig) && forall j :: 0 <= j < |orig| ==> 0 < |orig[j]| <= KSYM_NAME_LEN + 1
  }

  /** What the tool writes fits the types of the kernel's tables: bytes for the names, 16 bits for the index. */
  lemma {:induction false} ImageFits(tab: seq<Text>, texts: seq<Text>, orig: seq<Text>, k: nat)
    requires Readable(orig) && AllBytes(texts) && Good(tab, texts, orig, -1) && Within(tab, Longest(orig)) && k <= 256
    ensures Bytes(Stream(texts)) && |Tokens(tab, k)| < 0x10000
  {
    forall j | 0 <= j < |texts| ensures |texts[j]| < 256 {
      assert StandsFor(tab, texts[j], orig[j]);
      ExpandLonger(tab, texts[j], Longest(orig));
    }
    StreamBytes(texts);
    TokensLength(tab, Longest(orig), k);
  }

  // ---- when the scratch buffer is long enough ----

  predicate AllShort(orig: seq<Text>) { forall j :: 0 <= j < |orig| ==> |orig[j]| < KSYM_NAME_LEN }

  /** Symbols shorter than the buffer make tokens shorter than it. */
  lemma {:induction false} ShortFits(tab: seq<Text>, orig: seq<Text>)
    requires Within(tab, Longest(orig)) && AllShort(orig)
    ensures Fits(tab, KSYM_NAME_LEN)
  {
    assert Longest(orig) < KSYM_NAME_LEN;
    forall c | 0 <= c < 256 ensures |Code(tab, c)| < KSYM_NAME_LEN {
      assert tab[c] == [] ==> Code(tab, c) == [];
    }
  }

  /** A symbol compressed to one code makes a token as long as itself. */
  lemma {:induction false} LongToken(tab: seq<Text>, s: Text, t: Text)
    requires Table(tab) && StandsFor(tab, s, t) && |s| <= 1 && |t| >= KSYM_NAME_LEN
    ensures !Fits(tab, KSYM_NAME_LEN)
  {
    assert s != [] ==> s[1..] == [] && Expand(tab, s) == Code(tab, s[0]);
  }

  /** In a small table the slots do not run out, so every symbol becomes one code. */
  lemma {:induction false} SlotsLeft(tab: seq<Text>, texts: seq<Text>, orig: seq<Text>)
    requires Readable(orig) && Good(tab, texts, orig, -1) && Small(orig)
    requires Used(tab, 256) + Length(texts) <= Chars(orig, 256) + Length(orig)
    ensures exists c :: 0 <= c < 256 && tab[c] == []
  {
    forall j | 0 <= j < |texts| ensures texts[j] != [] { assert StandsFor(tab, texts[j], orig[j]); }
    LengthAtLeast(texts);
    if forall c :: 0 <= c < 256 ==> tab[c] != [] {
      UsedAll(tab, 256);
    }
  }

  // ---- the kernel ----

  /** get_symbol_offset(): from the closest marker, skipping entries by their length. */
  method GetSymbolOffset(names: Text, markers: seq<nat>, pos: nat, ghost texts: seq<Text>) returns (off: nat)
    requires names == Stream(texts) && Markers(markers, texts) && pos < |texts|
    ensures off == Offset(texts, pos)
  {
    off := markers[pos / 256];
    var i := 0;
    while i < pos % 256
      invariant 0 <= i <= pos % 256 && off == Offset(texts, 256 * (pos / 256) + i)
    {
      StreamAt(texts, 256 * (pos / 256) + i);
      off := off + names[off] + 1;
      i := i + 1;
    }
  }

  /** The characters of p without the first are in the buffer, n of them, and left of cap remains. */
  predicate Copied(b: Text, p: Text, n: nat, left: nat, cap: nat) {
    && n + left == cap <= |b| && (cap > 0 ==> left > 0) && (p == [] ==> n == 0)
    && (p != [] ==> n == |p| - 1 && b[..n] == p[1..])
  }

  /** The buffer is full before the whole of p went in. */
  predicate Cut(b: Text, p: Text, n: nat, left: nat, cap: nat) {
    && n + left == cap <= |b| && (if cap == 0 then n == 0 else left == 1) && n + 1 < |p| && b[..n] == p[1..n + 1]
  }

  lemma {:induction false} CutMore(b: Text, p: Text, q: Text, n: nat, left: nat, cap: nat)
    requires Cut(b, p, n, left, cap)
    ensures Cut(b, p + q, n, left, cap)
  {
    assert (p + q)[1..n + 1] == p[1..n + 1];
  }

  /** One character of kallsyms_expand_symbol(); full says that it did not fit. */
  method PutChar(result: array<nat>, ch: nat, n: nat, left: nat, skipped: bool, ghost p: Text, ghost cap: nat)
    returns (n': nat, left': nat, full: bool)
    requires Copied(result[..], p, n, left, cap) && (skipped <==> p != [])
    modifies result
    ensures if full then Cut(result[..], p + [ch], n', left', cap) else Copied(result[..], p + [ch], n', left', cap)
    ensures result[cap..] == old(result[cap..])
  {
    n', left', full := n, left, false;
    if skipped {
      assert (p + [ch])[1..] == p[1..] + [ch];
      if left <= 1 {
        full := true;
        assert (p + [ch])[1..n + 1] == p[1..];
        return;
      }
      result[n] := ch;
      n', left' := n + 1, left - 1;
    }
  }

  /** The inner loop of kallsyms_expand_symbol(): one token's characters. */
  method PutToken(tokens: Text, start: nat, result: array<nat>, n0: nat, left0: nat, skipped0: bool, ghost p: Text,
                  ghost e: Text, ghost cap: nat)
    returns (n: nat, left: nat, skipped: bool, full: bool)
    requires StringAt(tokens, start, e) && NoZero(e)
    requires Copied(result[..], p, n0, left0, cap) && (skipped0 <==> p != [])
    modifies result
    ensures if full then Cut(result[..], p + e, n, left, cap)
      else Copied(result[..], p + e, n, left, cap) && (skipped <==> p + e != [])
    ensures result[cap..] == old(result[cap..])
  {
    n, left, skipped, full := n0, left0, skipped0, false;
    var tptr := start;
    ghost var k := 0;
    assert p + e[..0] == p;
    assert forall j :: start <= j < start + |e| ==> tokens[j] == tokens[start..start + |e|][j - start];
    while tokens[tptr] != 0
      invariant 0 <= k <= |e| && tptr == start + k && !full
      invariant Copied(result[..], p + e[..k], n, left, cap) && (skipped <==> p + e[..k] != [])
      invariant result[cap..] == old(result[cap..])
      decreases |e| - k
    {
      ghost var q := p + e[..k];
      assert q + [e[k]] == p + e[..k + 1];
      n, left, full := PutChar(result, tokens[tptr], n, left, skipped, q, cap);
      if full {
        CutMore(result[..], q + [e[k]], e[k + 1..], n, left, cap);
        assert q + [e[k]] + e[k + 1..] == p + e;
        return;
      }
      skipped := true;
      tptr, k := tptr + 1, k + 1;
    }
    assert e[..k] == e;
  }

  /** The name without its type character, as much as fits with the zero after it. */
  predicate NameIn(b: Text, full: Text, cap: nat) {
    && cap <= |b|
    && (cap > 0 ==>
          var name := if full == [] then [] else full[1..];
          var k := if |name| < cap then |name| else cap - 1;
          b[..k] == name[..k] && b[k] == 0)
  }

  /** The copying ended, whole or cut, and the zero is written. */
  lemma {:induction false} Terminated(b: Text, b': Text, full: bool, p: Text, n: nat, left: nat, cap: nat)
    requires if full then Cut(b, p, n, left, cap) else Copied(b, p, n, left, cap)
    requires if left > 0 then n < |b| && b' == b[n := 0] else b' == b
    ensures NameIn(b', p, cap)
  {
    if cap > 0 {
      var name := if p == [] then [] else p[1..];
      assert b'[..n] == b[..n] == name[..n];
    }
  }

  /** The characters of one code. */
  method PutCode(tokens: Text, index: seq<nat>, c: nat, result: array<nat>, n0: nat, left0: nat, skipped0: bool,
                 ghost tab: seq<Text>, ghost p: Text, ghost cap: nat)
    returns (n: nat, left: nat, skipped: bool, full: bool)
    requires Table(tab) && |tab[0]| != 1 && c < 256 && tokens == Tokens(tab, 256) && Index(index, tab, 256)
    requires Copied(result[..], p, n0, left0, cap) && (skipped0 <==> p != [])
    modifies result
    ensures var q := p + Code(tab, c);
      if full then Cut(result[..], q, n, left, cap) else Copied(result[..], q, n, left, cap) && (skipped <==> q != [])
    ensures result[cap..] == old(result[cap..])
  {
    TokenAt(tab, c, 256);
    CodeShape(tab, c);
    n, left, skipped, full := PutToken(tokens, index[c], result, n0, left0, skipped0, p, Code(tab, c), cap);
  }

  /** The loop of kallsyms_expand_symbol() over the codes of s. */
  method PutSymbol(names: Text, tokens: Text, index: seq<nat>, start: nat, len: nat, result: array<nat>, maxlen: nat,
                   ghost tab: seq<Text>, ghost s: Text)
    returns (n: nat, left: nat, full: bool)
    requires Table(tab) && |tab[0]| != 1 && Known(tab, s) && tokens == Tokens(tab, 256) && Index(index, tab, 256)
    requires start + |s| <= |names| && len == |s| && names[start..start + |s|] == s && maxlen <= result.Length
    modifies result
    ensures if full then Cut(result[..], Expand(tab, s), n, left, maxlen)
      else Copied(result[..], Expand(tab, s), n, left, maxlen)
    ensures result[maxlen..] == old(result[maxlen..])
  {
    var skipped, i := false, 0;
    n, left, full := 0, maxlen, false;
    while i < len && !full
      invariant 0 <= i <= |s| && result[maxlen..] == old(result[maxlen..])
      invariant
        var p := Expand(tab, s[..i]);
        if full then Cut(result[..], p, n, left, maxlen)
          else Copied(result[..], p, n, left, maxlen) && (skipped <==> p != [])
    {
      assert names[start + i] == names[start..start + |s|][i] == s[i];
      ExpandOneMore(tab, s, i);
      n, left, skipped, full :=
          PutCode(tokens, index, names[start + i], result, n, left, skipped, tab, Expand(tab, s[..i]), maxlen);
      i := i + 1;
    }
    ExpandPrefix(tab, s, i);
    if full {
      CutMore(result[..], Expand(tab, s[..i]), Expand(tab, s[i..]), n, left, maxlen);
    } else {
      assert s[..i] == s;
    }
  }

  /** kallsyms_expand_symbol() on the entry s at off. */
  method KernelExpandSymbol(names: Text, tokens: Text, index: seq<nat>, off: nat, result: array<nat>, maxlen: nat,
                            ghost tab: seq<Text>, ghost s: Text)
    returns (next: nat)
    requires Table(tab) && |tab[0]| != 1 && Known(tab, s) && tokens == Tokens(tab, 256) && Index(index, tab, 256)
    requires EntryAt(names, off, s) && maxlen <= result.Length
    modifies result
    ensures next == off + 1 + |s| && NameIn(result[..], Expand(tab, s), maxlen)
      && result[maxlen..] == old(result[maxlen..])
  {
    var len := names[off];
    next := off + len + 1;
    var n, left, full := PutSymbol(names, tokens, index, off + 1, len, result, maxlen, tab, s);
    ghost var b := result[..];
    if left > 0 {
      result[n] := 0;
    }
    Terminated(b, result[..], full, Expand(tab, s), n, left, maxlen);
    assert result[maxlen..] == b[maxlen..];
  }

  /** The tool's run up to its tables. ok fails when a token overruns the scratch buffer: never if every symbol with its
      type is shorter than KSYM_NAME_LEN, always if one is not and the table is small. */
  method Compress(orig: seq<Text>)
    returns (tool: Tool, names: Text, markers: seq<nat>, lines: seq<Text>, index: seq<nat>, ok: bool)
    requires Readable(orig)
    ensures fresh(tool) && |tool.texts| == |orig| && Good(tool.tab, tool.texts, orig, -1) && Letters(tool.tab, orig)
    ensures names == Stream(tool.texts) && Markers(markers, tool.texts) && Bytes(names)
    ensures ok ==> lines == Lines(tool.tab, 256) && Index(index, tool.tab, 256)
    ensures ok ==> forall c :: 0 <= c < 256 ==> index[c] < 0x10000
    ensures ok <==> Fits(tool.tab, KSYM_NAME_LEN)
    ensures AllShort(orig) ==> ok
    ensures Small(orig) ==> (ok <==> AllShort(orig))
  {
    tool := new Tool(orig);
    tool.InsertRealSymbols();
    UsedChars(tool.tab, orig, 256);
    tool.OptimizeResult(orig);
    names, markers := WriteNames(tool);
    ImageFits(tool.tab, tool.texts, orig, 0);
    lines, index, ok := WriteTokens(tool.tab);
    ghost var tab, texts := tool.tab, tool.texts;
    if ok {
      forall c | 0 <= c < 256 ensures index[c] < 0x10000 { ImageFits(tab, texts, orig, c); }
    }
    if AllShort(orig) {
      ShortFits(tab, orig);
    } else if Small(orig) {
      SlotsLeft(tab, texts, orig);
      var j :| 0 <= j < |orig| && |orig[j]| >= KSYM_NAME_LEN;
      assert StandsFor(tab, texts[j], orig[j]);
      LongToken(tab, texts[j], orig[j]);
    }
  }

  /** The tool's tables, assembled. */
  method BuildTables(orig: seq<Text>)
    returns (names: Text, markers: seq<nat>, tokens: Text, index: seq<nat>, ok: bool, ghost tab: seq<Text>,
        ghost texts: seq<Text>)
    requires Readable(orig)
    ensures Good(tab, texts, orig, -1) && names == Stream(texts) && Markers(markers, texts) && Bytes(names)
    ensures ok ==> tokens == Tokens(tab, 256) && Index(index, tab, 256) && forall c :: 0 <= c < 256 ==>
      index[c] < 0x10000
    ensures ok <==> Fits(tab, KSYM_NAME_LEN) && AllPlain(orig)
    ensures AllShort(orig) && AllPlain(orig) ==> ok
    ensures Small(orig) ==> (ok <==> AllShort(orig) && AllPlain(orig))
  {
    var tool, lines, fits;
    tool, names, markers, lines, index, fits := Compress(orig);
    tab, texts := tool.tab, tool.texts;
    TokensRead(tab, orig);
    var read := Assembled(lines);
    ok := fits && read.Some?;
    tokens := if ok then read.value else [];
  }

  /** The kernel reads back, from what the tool wrote, the name of every symbol of every table. */
  method CompressThenLookup(orig: seq<Text>, pos: nat, result: array<nat>, maxlen: nat) returns (ok: bool)
    requires Readable(orig) && pos < |orig| && maxlen <= result.Length
    modifies result
    ensures ok ==> NameIn(result[..], orig[pos], maxlen) && result[maxlen..] == old(result[maxlen..])
    ensures AllShort(orig) && AllPlain(orig) ==> ok
    ensures !AllPlain(orig) ==> !ok
    ensures Small(orig) ==> (ok <==> AllShort(orig) && AllPlain(orig))
  {
    var names, markers, tokens, index;
    ghost var tab, texts;
    names, markers, tokens, index, ok, tab, texts := BuildTables(orig);
    if ok {
      assert StandsFor(tab, texts[pos], orig[pos]);
      var off := GetSymbolOffset(names, markers, pos, texts);
      StreamAt(texts, pos);
      var next := KernelExpandSymbol(names, tokens, index, off, result, maxlen, tab, texts[pos]);
    }
  }

  // ---- maps that read_symbol() accepts and the scratch buffer or the assembler does not ----

  /** One symbol: type t and a name of 127 letters a. */
  function LongName(): Text { [116] + seq(127, _ => 97) }

  lemma {:induction false} LongNameChars(k: nat)
    ensures Chars([LongName()], k) <= (if k > 97 then 1 else 0) + (if k > 116 then 1 else 0)
  {
    if k > 0 {
      LongNameChars(k - 1);
      if Occurs([LongName()], k - 1) {
        assert k - 1 in LongName();
      }
    }
  }

  /** The map of this one symbol is readable, and its token overruns the buffer. */
  method LongNameFails() returns (ok: bool)
    ensures Readable([LongName()]) && !ok
  {
    var result := new nat[0];
    var orig := [LongName()];
    LongNameChars(256);
    assert orig[1..] == [];
    assert Length(orig) == 128 && Small(orig) && |orig[0]| == 128;
    ok := CompressThenLookup(orig, 0, result, 0);
  }

  /** Type t and the name x" make a map that fits every buffer, and a table the assembler refuses. */
  method QuoteFails() returns (ok: bool)
    ensures Readable([[116, 120, 34]]) && AllShort([[116, 120, 34]]) && !ok
  {
    var orig := [[116, 120, 34]];
    var result := new nat[0];
    assert QUOTE in orig[0];
    ok := CompressThenLookup(orig, 0, result, 0);
  }
}
