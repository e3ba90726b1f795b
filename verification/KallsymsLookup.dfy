/** kallsyms_lookup() on the tables that scripts/kallsyms.c wrote (kernel/kallsyms.c). */
module KallsymsLookup {
  import opened Basics
  import opened Kallsyms
  import opened KallsymsAddr
  import opened KallsymsBounds
  import opened KallsymsImage
  import opened KallsymsTool

  /** The section bounds of the kernel image, and whether variables are in the table. */
  datatype Sections = Sections(stext: nat, etext: nat, sinittext: nat, einittext: nat, end: nat, allVar: bool)

  predicate IsKernelInittext(x: Sections, addr: nat) { x.sinittext <= addr <= x.einittext }

  /** is_ksym_addr() */
  predicate IsKsymAddr(x: Sections, addr: nat) {
    if x.allVar then x.stext <= addr <= x.end else IsKernelInittext(x, addr) || x.stext <= addr <= x.etext
  }

  function SectionEnd(x: Sections, addr: nat): nat {
    if IsKernelInittext(x, addr) then x.einittext else if x.allVar then x.end else x.etext
  }

  /** What the tables cover: the text sections with their bounds, or with variables everything from the text to the
      end of the image. */
  predicate InImage(x: Sections, addr: nat) {
    || (x.allVar && x.stext <= addr && addr <= x.end)
    || (!x.allVar && ((x.stext <= addr && addr <= x.etext) || (x.sinittext <= addr && addr <= x.einittext)))
  }

  /** Symbol pos ends where the next higher one starts. The highest ends with the init text if addr is in there,
      else with the image when variables are in the table, else with the text. */
  predicate EndsIn(x: Sections, addrs: seq<nat>, addr: nat, pos: nat, end: nat)
    requires pos < |addrs|
  {
    var init := x.sinittext <= addr && addr <= x.einittext;
    && (init ==> Ends(addrs, pos, x.einittext, end))
    && (!init && x.allVar ==> Ends(addrs, pos, x.end, end))
    && (!init && !x.allVar ==> Ends(addrs, pos, x.etext, end))
  }

  /** The image the kernel is linked with. */
  datatype Image = Image(table: AddressTable, names: Text, markers: seq<nat>, tokens: Text, index: seq<nat>)

  /** The image describes the symbols orig at addrs: texts are their compressed forms. */
  ghost predicate Describes(im: Image, orig: seq<Text>, addrs: seq<nat>, tab: seq<Text>, texts: seq<Text>) {
    && |orig| == |addrs| && Reads(im.table, addrs) && Good(tab, texts, orig, -1)
    && im.names == Stream(texts) && Markers(im.markers, texts) && im.tokens == Tokens(tab, 256)
      && Index(im.index, tab, 256)
  }

  /** The tool's output for a sorted symbol table, assembled; ok fails where the tool exits or a token overruns its
      buffer, or where the assembler refuses a line. */
  method WriteImage(orig: seq<Text>, syms: seq<Symbol>, relative: bool, percpuAbs: bool, base: nat)
    returns (im: Image, ok: bool, ghost tab: seq<Text>, ghost texts: seq<Text>)
    requires Readable(orig) && |syms| == |orig| && base < TWO64 && forall i :: 0 <= i < |syms| ==> syms[i].addr < TWO64
    ensures ok ==> Describes(im, orig, Addresses(syms), tab, texts)
    ensures BuildOk(orig, syms, relative, percpuAbs, base, ok)
  {
    var table, stored := WriteAddresses(syms, relative, percpuAbs, base);
    var names, markers, tokens, index, built;
    names, markers, tokens, index, built, tab, texts := BuildTables(orig);
    im, ok := Image(table, names, markers, tokens, index), stored && built;
  }

  /** When the image gets built: every offset in range, no quote or backslash and no long symbol will do, and unless the
      table uses up the codes nothing less. */
  ghost predicate BuildOk(orig: seq<Text>, syms: seq<Symbol>, relative: bool, percpuAbs: bool, base: nat, ok: bool) {
    var fine := (relative ==> Storable(syms, percpuAbs, base)) && AllPlain(orig);
    && (ok ==> fine) && (fine && AllShort(orig) ==> ok) && (Small(orig) ==> (ok <==> fine && AllShort(orig)))
  }

  /** kallsyms_lookup(): the name, size and offset of the first symbol at the highest address not above addr. */
  method Lookup(im: Image, x: Sections, addr: nat, namebuf: array<nat>, ghost orig: seq<Text>, ghost addrs: seq<nat>,
                ghost tab: seq<Text>, ghost texts: seq<Text>)
    returns (found: bool, size: int, offset: int, ghost pos: nat, ghost end: nat)
    requires Describes(im, orig, addrs, tab, texts) && orig != [] && Sorted(addrs) && namebuf.Length >= KSYM_NAME_LEN
    modifies namebuf
    ensures found <==> InImage(x, addr)
    ensures found ==> Covers(addrs, addr, pos) && NameIn(namebuf[..], orig[pos], KSYM_NAME_LEN)
    ensures found ==> offset == (addr - addrs[pos]) % TWO64
    ensures found ==> EndsIn(x, addrs, addr, pos, end) && size == (end - addrs[pos]) % TWO64
    ensures !found ==> namebuf[0] == 0
    ensures namebuf[KSYM_NAME_LEN..] == old(namebuf[KSYM_NAME_LEN..])
  {
    namebuf[KSYM_NAME_LEN - 1] := 0;
    namebuf[0] := 0;
    found, size, offset, pos, end := IsKsymAddr(x, addr), 0, 0, 0, 0;
    if found {
      var low;
      low, size, offset, end := GetSymbolPos(im.table, addr, SectionEnd(x, addr), addrs);
      pos := low;
      assert StandsFor(tab, texts[low], orig[low]);
      var off := GetSymbolOffset(im.names, im.markers, low, texts);
      StreamAt(texts, low);
      var next := KernelExpandSymbol(im.names, im.tokens, im.index, off, namebuf, KSYM_NAME_LEN, tab, texts[low]);
    }
  }

  /** From the symbol map to the kernel's answer: the name found is that of the symbol that covers the address. */
  method BuildThenLookup(orig: seq<Text>, syms: seq<Symbol>, relative: bool, percpuAbs: bool, base: nat, x: Sections,
                         addr: nat, namebuf: array<nat>)
    returns (ok: bool, found: bool, size: int, offset: int, ghost pos: nat, ghost end: nat)
    requires Readable(orig) && orig != [] && |syms| == |orig| && base < TWO64
    requires (forall i :: 0 <= i < |syms| ==> syms[i].addr < TWO64) && Sorted(Addresses(syms))
    requires namebuf.Length >= KSYM_NAME_LEN
    modifies namebuf
    ensures BuildOk(orig, syms, relative, percpuAbs, base, ok)
    ensures ok ==> (found <==> InImage(x, addr))
    ensures ok && found ==> Covers(Addresses(syms), addr, pos) && NameIn(namebuf[..], orig[pos], KSYM_NAME_LEN)
    ensures ok && found ==> offset == (addr - syms[pos].addr) % TWO64
    ensures ok && found ==> EndsIn(x, Addresses(syms), addr, pos, end) && size == (end - syms[pos].addr) % TWO64
  {
    found, size, offset, pos, end := false, 0, 0, 0, 0;
    var im;
    ghost var tab, texts;
    im, ok, tab, texts := WriteImage(orig, syms, relative, percpuAbs, base);
    if ok {
      found, size, offset, pos, end := Lookup(im, x, addr, namebuf, orig, Addresses(syms), tab, texts);
    }
  }
}
