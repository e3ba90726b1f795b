/** The .asciz lines of the token table: what scripts/kallsyms.c prints between quotes, and what the assembler makes
    of it ("Strings" in the manual of GNU as). */
module KallsymsAsm {
  import opened Basics
  import opened Kallsyms

  const QUOTE: nat := 34
  const BACKSLASH: nat := 92

  /** printf(".asciz \"%s\"") */
  function Quoted(e: Text): Text { [QUOTE] + e + [QUOTE] }

  /** No character that means something else between quotes. */
  predicate Plain(e: Text) { QUOTE !in e && BACKSLASH !in e }

  // ---- the assembler ----

  predicate IsDigit(c: nat) { 48 <= c <= 57 }

  function HexValue(c: nat): (d: nat) {
    if IsDigit(c) then c - 48 else if 65 <= c <= 70 then c - 55 else if 97 <= c <= 102 then c - 87 else 16
  }

  /** Up to n octal digits at the start of s: their value on top of v, and their number. */
  function Octal(s: Text, n: nat, v: nat): (r: (nat, nat))
    ensures r.1 <= |s|
    decreases n
  {
    if n == 0 || s == [] || !IsDigit(s[0]) then (v, 0) else
      var r := Octal(s[1..], n - 1, 8 * v + s[0] - 48);
      (r.0, r.1 + 1)
  }

  function Hex(s: Text, v: nat): (r: (nat, nat))
    ensures r.1 <= |s|
  {
    if s == [] || HexValue(s[0]) == 16 then (v, 0) else
      var r := Hex(s[1..], 16 * v + HexValue(s[0]));
      (r.0, r.1 + 1)
  }

  /** What follows a backslash: the character it stands for, and how many characters that took. */
  function Escape(s: Text): (r: (nat, nat))
    requires s != []
    ensures 1 <= r.1 <= |s|
  {
    var c := s[0];
    if IsDigit(c) then var o := Octal(s[1..], 2, c - 48); (o.0 % 256, o.1 + 1)
    else if c == 120 || c == 88 then var h := Hex(s[1..], 0); (h.0 % 256, h.1 + 1)
    else (if c == 98 then 8 else if c == 102 then 12 else if c == 110 then 10 else if c == 114 then 13
          else if c == 116 then 9 else c, 1)
  }

  /** The string up to the closing quote, which must end the operand. */
  function ReadRest(s: Text): (r: Option<Text>)
    decreases |s|
  {
    if s == [] then None
    else if s[0] == QUOTE then if |s| == 1 then Some([]) else None
    else if s[0] != BACKSLASH then Prepend(s[0], ReadRest(s[1..]))
    else if |s| == 1 then None
    else
      var e := Escape(s[1..]);
      Prepend(e.0, ReadRest(s[1 + e.1..]))
  }

  function Prepend(c: nat, r: Option<Text>): Option<Text> { if r.None? then None else Some([c] + r.value) }

  /** The operand of .asciz, without the zero it adds. */
  function ReadString(line: Text): (r: Option<Text>) {
    if line == [] || line[0] != QUOTE then None else ReadRest(line[1..])
  }

  // ---- verbatim exactly without quotes and backslashes ----

  lemma {:induction false} PlainRead(e: Text)
    requires Plain(e)
    ensures ReadRest(e + [QUOTE]) == Some(e)
  {
    var s := e + [QUOTE];
    if e == [] {
      assert s == [QUOTE];
    } else {
      PlainRead(e[1..]);
      assert s[1..] == e[1..] + [QUOTE] && [e[0]] + e[1..] == e;
    }
  }

  /** Reading never lengthens, and only plain text keeps its length. */
  lemma {:induction false} ReadShorter(s: Text)
    requires ReadRest(s).Some?
    ensures s != [] && |ReadRest(s).value| < |s|
    ensures |ReadRest(s).value| == |s| - 1 ==> Plain(s[..|s| - 1])
    decreases |s|
  {
    if s[0] != QUOTE && s[0] != BACKSLASH {
      ReadShorter(s[1..]);
      assert s[..|s| - 1] == [s[0]] + s[1..][..|s| - 2];
    } else if s[0] == BACKSLASH {
      ReadShorter(s[1 + Escape(s[1..]).1..]);
    }
  }

  /** Between quotes a text is read back verbatim exactly when it is plain. */
  lemma {:induction false} ReadBack(e: Text)
    ensures ReadString(Quoted(e)) == Some(e) <==> Plain(e)
  {
    var s := e + [QUOTE];
    assert Quoted(e)[1..] == s && s[..|s| - 1] == e;
    if Plain(e) {
      PlainRead(e);
    } else if ReadRest(s) == Some(e) {
      ReadShorter(s);
    }
  }

  /** A quote or a backslash alone is not even a string. */
  lemma {:induction false} NotRead(c: nat)
    requires c == QUOTE || c == BACKSLASH
    ensures ReadString(Quoted([c])) == None
  {
    var s := [c, QUOTE];
    assert Quoted([c])[1..] == s && s[1..] == [QUOTE] && s[2..] == [];
    if c == BACKSLASH {
      assert Escape(s[1..]) == (QUOTE, 1);
      assert ReadRest(s[2..]) == None;
    }
  }

  // ---- the whole table ----

  /** What a sequence of .asciz lines assembles to, none if one of them is refused. */
  function Assembled(lines: seq<Text>): (r: Option<Text>) {
    if lines == [] then Some([]) else
      var (a, r) := (Assembled(lines[..|lines| - 1]), ReadString(lines[|lines| - 1]));
      if a.None? || r.None? then None else Some(a.value + (r.value + [0]))
  }

  lemma {:induction false} Refused(lines: seq<Text>, k: nat)
    requires k < |lines| && ReadString(lines[k]) == None
    ensures Assembled(lines) == None
  {
    if k < |lines| - 1 {
      Refused(lines[..|lines| - 1], k);
    }
  }
}
