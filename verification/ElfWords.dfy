/** What symbols stand for, and which words relocation leaves in a module's memory. */
module ElfWords {
  import opened Wrappers
  import opened Bytes
  import opened ElfSymbols
  import opened ElfLookup
  import opened ElfResolve
  import opened ElfReloc
  import opened ElfRebase

  // --------------------------------------------------------------------- symbols

  /** A name runs up to the first zero byte, or to the end of the table. */
  lemma {:induction false} NameIsCString(table: seq<Byte>, off: nat, end: nat)
    requires off <= end <= |table| && (end == |table| || table[end] == 0)
    requires forall k :: off <= k < end ==> table[k] != 0
    ensures NameAt(table, off) == table[off..end]
    decreases end - off
  {
    if off < end {
      NameIsCString(table, off + 1, end);
      assert table[off..end] == [table[off]] + table[off + 1..end];
    }
  }

  /** An undefined weak symbol. */
  predicate UndefinedWeak(s: Sym) {
    s.bind == Weak && s.shndx == 0
  }

  /** Symbol s of module e defines the name: as a global symbol, or as a weak one if those count. */
  predicate Defines(e: Elf, s: Sym, name: seq<Byte>, weakOk: bool) {
    && 0 < s.name <= |e.dynstr| && NameAt(e.dynstr, s.name) == name
    && (s.bind == Global || (weakOk && s.bind == Weak))
    && (|| UndefinedWeak(s)
        || (s.shndx != 0 && s.shndx != 0xFFFF
            && (s.typ == TlsSym || (s.typ in {NoType, ObjectSym, FuncSym} && s.value <= e.size))))
  }

  /** What it stands for: an address in its module, a thread-local offset, or nothing. */
  function Stands(e: Elf, s: Sym): nat {
    if UndefinedWeak(s) then 0
    else if s.typ == TlsSym then s.value
    else (e.load + s.value) % 0x1_0000_0000_0000_0000
  }

  /** A symbol whose name is outside the string table, or that has the name and is malformed. */
  predicate Malformed(e: Elf, s: Sym, name: seq<Byte>, weakOk: bool) {
    || s.name > |e.dynstr|
    || (&& s.name > 0 && NameAt(e.dynstr, s.name) == name && (s.bind == Global || (weakOk && s.bind == Weak))
        && s.shndx != 0 && s.shndx != 0xFFFF
        && (s.typ == OtherType || (s.typ != TlsSym && s.value > e.size)))
  }

  lemma MatchIsDefinition(e: Elf, s: Sym, name: seq<Byte>, weakOk: bool)
    ensures SymCompare(e, s, name, weakOk).Fatal? <==> Malformed(e, s, name, weakOk)
    ensures SymCompare(e, s, name, weakOk).Match? <==> Defines(e, s, name, weakOk)
    ensures Defines(e, s, name, weakOk) ==> SymCompare(e, s, name, weakOk) == Match(Stands(e, s))
  {
  }

  /** Some symbol that the module's index covers defines the name. */
  ghost predicate Has(e: Elf, name: seq<Byte>, weakOk: bool) {
    exists i: nat :: LowIndex(e) <= i < |e.syms| && Defines(e, e.syms[i], name, weakOk)
  }

  lemma HasIsOffer(e: Elf, name: seq<Byte>, weakOk: bool)
    ensures Has(e, name, weakOk) <==> Offers(e, name, weakOk)
  {
    if Has(e, name, weakOk) {
      var i: nat :| LowIndex(e) <= i < |e.syms| && Defines(e, e.syms[i], name, weakOk);
      MatchIsDefinition(e, e.syms[i], name, weakOk);
      assert Accepts(e, i, name, weakOk);
    }
    if Offers(e, name, weakOk) {
      var i: nat :| LowIndex(e) <= i && Accepts(e, i, name, weakOk);
      MatchIsDefinition(e, e.syms[i], name, weakOk);
    }
  }

  /**
   Symbol i of module m is what the name means: no module before it has a
   definition, and the symbol is a weak one only if its module has no global one.
   */
  ghost predicate IsMeant(mods: seq<Elf>, name: seq<Byte>, m: nat, i: nat) {
    && m < |mods| && (forall j :: 0 <= j < m ==> !Has(mods[j], name, true)) && LowIndex(mods[m]) <= i < |mods[m].syms|
    && Defines(mods[m], mods[m].syms[i], name, true)
    && (mods[m].syms[i].bind == Weak ==> !Has(mods[m], name, false))
  }

  ghost predicate NoneHas(mods: seq<Elf>, name: seq<Byte>) {
    forall j :: 0 <= j < |mods| ==> !Has(mods[j], name, true)
  }

  ghost predicate AllHealthy(mods: seq<Elf>, name: seq<Byte>) {
    forall j :: 0 <= j < |mods| ==> Healthy(mods[j], name)
  }

  /** Resolution finds what the name means, and what it stands for; it finds nothing exactly if no module has it. */
  lemma ResolveIsMeaning(mods: seq<Elf>, name: seq<Byte>)
    requires AllHealthy(mods, name)
    ensures match Resolve(mods, name)
            case Symbol(m, i, v) => IsMeant(mods, name, m, i) && v == Stands(mods[m], mods[m].syms[i])
            case NotFound => NoneHas(mods, name)
            case Stuck(_) => false
  {
    ResolveIsFirstOffer(mods, name, 0);
    forall j, weakOk | 0 <= j < |mods| ensures Has(mods[j], name, weakOk) <==> Offers(mods[j], name, weakOk) {
      HasIsOffer(mods[j], name, weakOk);
    }
    match Resolve(mods, name)
    case Symbol(m, i, v) =>
      MatchIsDefinition(mods[m], mods[m].syms[i], name, true);
      MatchIsDefinition(mods[m], mods[m].syms[i], name, false);
    case _ =>
  }

  // ------------------------------------------------------------------------ words

  const TWO_TO_64: nat := 0x1_0000_0000_0000_0000

  /** The symbol that a relocation names is there, in its own tables. */
  predicate IsNamed(e: Entry) {
    e.rela.sym < |e.sec.syms| && e.sec.syms[e.rela.sym].name < |e.sec.strtab|
  }

  function NameOf(e: Entry): seq<Byte>
    requires IsNamed(e)
  {
    NameAt(e.sec.strtab, e.sec.syms[e.rela.sym].name)
  }

  /** w is what the name stands for, or 0 for an undefined weak reference to a name that no module has. */
  ghost predicate SymbolWord(c: Context, e: Entry, w: nat)
    requires IsNamed(e)
  {
    || (exists m: nat, i: nat :: IsMeant(c.mods, NameOf(e), m, i)
          && w == Stands(c.mods[m], c.mods[m].syms[i]) % TWO_TO_64)
    || (NoneHas(c.mods, NameOf(e)) && UndefinedWeak(e.sec.syms[e.rela.sym]) && w == 0)
  }

  /** w is the offset from the thread pointer of symbol i of module m, which is what the relocation names. */
  ghost predicate ThreadOffset(c: Context, e: Entry, m: nat, i: nat, w: nat)
    requires IsNamed(e)
  {
    && IsMeant(c.mods, NameOf(e), m, i)
    && w == (Stands(c.mods[m], c.mods[m].syms[i]) + c.mods[m].tlsOffset + e.rela.addend) % TWO_TO_64
  }

  /** w is the thread pointer offset of what the relocation names; with no symbol, of the module's own block. */
  ghost predicate ThreadWord(c: Context, e: Entry, w: nat)
    requires InContext(c) && (e.rela.sym != 0 ==> IsNamed(e))
  {
    var own := (c.mods[c.me].tlsOffset + e.rela.addend) % TWO_TO_64;
    if e.rela.sym == 0 then w == own
    else
      || (exists m: nat, i: nat :: ThreadOffset(c, e, m, i, w))
      || (NoneHas(c.mods, NameOf(e)) && UndefinedWeak(e.sec.syms[e.rela.sym]) && w == own)
  }

  predicate IsLocal(e: Entry) {
    e.rela.typ == Abs64 && e.rela.sym < |e.sec.syms| && e.sec.syms[e.rela.sym].shndx != 0
  }

  /** The relocation has to look a name up. */
  predicate LooksUp(e: Entry) {
    || e.rela.typ == GlobDat || e.rela.typ == JumpSlot || (e.rela.typ == Abs64 && !IsLocal(e))
    || ((e.rela.typ == TlsTprel || e.rela.typ == TlsDesc) && e.rela.sym != 0)
  }

  ghost predicate HealthyFor(c: Context, e: Entry) {
    IsNamed(e) ==> AllHealthy(c.mods, NameOf(e))
  }

  lemma DynWordIs(c: Context, e: Entry)
    requires HealthyFor(c, e)
    ensures DynValue(c, e).Some? ==> IsNamed(e) && SymbolWord(c, e, DynValue(c, e).value % TWO_TO_64)
    ensures DynValue(c, e).None? <==>
              !IsNamed(e) || (NoneHas(c.mods, NameOf(e)) && !UndefinedWeak(e.sec.syms[e.rela.sym]))
  {
    if IsNamed(e) {
      ResolveIsMeaning(c.mods, NameOf(e));
      MeantIsHad(c, NameOf(e), Resolve(c.mods, NameOf(e)));
    }
  }

  lemma MeantIsHad(c: Context, name: seq<Byte>, r: Resolution)
    requires r.Symbol? ==> IsMeant(c.mods, name, r.mod, r.index)
    ensures r.Symbol? ==> !NoneHas(c.mods, name)
  {
    if r.Symbol? {
      var e := c.mods[r.mod];
      assert LowIndex(e) <= r.index < |e.syms| && Defines(e, e.syms[r.index], name, true);
      assert Has(e, name, true);
    }
  }

  lemma FoundThreadWord(c: Context, e: Entry, m: nat, i: nat, v: nat)
    requires InContext(c) && IsNamed(e) && IsMeant(c.mods, NameOf(e), m, i)
    requires v == Stands(c.mods[m], c.mods[m].syms[i])
    ensures ThreadOffset(c, e, m, i, TprelOf(c, Symbol(m, i, v), false, e.rela.addend).value)
  {
    assert ADDRESSES == TWO_TO_64;
  }

  lemma ThreadWordIs(c: Context, e: Entry)
    requires InContext(c) && HealthyFor(c, e) && TprelValue(c, e).Some?
    ensures (e.rela.sym != 0 ==> IsNamed(e)) && ThreadWord(c, e, TprelValue(c, e).value)
  {
    if e.rela.sym != 0 {
      ResolveIsMeaning(c.mods, NameOf(e));
      match Resolve(c.mods, NameOf(e))
      case Symbol(m, i, v) => FoundThreadWord(c, e, m, i, v);
      case _ =>
    }
  }

  lemma WhenThreadWordFails(c: Context, e: Entry)
    requires InContext(c) && HealthyFor(c, e)
    ensures TprelValue(c, e).None? <==>
              e.rela.sym != 0
              && (!IsNamed(e) || (NoneHas(c.mods, NameOf(e)) && !UndefinedWeak(e.sec.syms[e.rela.sym])))
  {
    if e.rela.sym != 0 && IsNamed(e) {
      var r := Resolve(c.mods, NameOf(e));
      ResolveIsMeaning(c.mods, NameOf(e));
      MeantIsHad(c, NameOf(e), r);
    }
  }

  /** What a relocation leaves at its target: the word w there, and for a descriptor another one after it. */
  ghost predicate WordMeans(c: Context, e: Entry, w: nat, second: nat)
    requires InContext(c)
  {
    var load := c.mods[c.me].load;
    && (LooksUp(e) ==> IsNamed(e))
    && match e.rela.typ
       case NoReloc => true
       case Relative => w == (load + e.rela.addend) % TWO_TO_64
       case Abs64 =>
         if IsLocal(e) then w == (load + e.sec.syms[e.rela.sym].value + e.rela.addend) % TWO_TO_64
         else SymbolWord(c, e, w)
       case GlobDat => SymbolWord(c, e, w)
       case JumpSlot => SymbolWord(c, e, w)
       case TlsTprel => ThreadWord(c, e, w)
       case TlsDesc => w == c.tlsResolver % TWO_TO_64 && ThreadWord(c, e, second)
       case Unknown => false
  }

  /** A relocation fails exactly outside the module, with an unknown type, or for want of a symbol or a definition. */
  lemma WhenRelocationFails(c: Context, e: Entry)
    requires InContext(c) && HealthyFor(c, e)
    ensures Words(c, e).None?
            <==> || e.rela.offset + (if e.rela.typ == TlsDesc then 16 else 8) >= c.mods[c.me].size
                 || e.rela.typ == Unknown
                 || (LooksUp(e)
                     && (!IsNamed(e) || (NoneHas(c.mods, NameOf(e)) && !UndefinedWeak(e.sec.syms[e.rela.sym]))))
  {
    if e.rela.typ == TlsTprel || e.rela.typ == TlsDesc {
      WhenThreadWordFails(c, e);
    } else {
      DynWordIs(c, e);
    }
  }

  function FirstOf(ws: seq<nat>): nat {
    if |ws| > 0 then ws[0] % TWO_TO_64 else 0
  }

  function SecondOf(ws: seq<nat>): nat {
    if |ws| > 1 then ws[1] % TWO_TO_64 else 0
  }

  lemma TprelFits(c: Context, e: Entry)
    requires InContext(c) && TprelValue(c, e).Some?
    ensures TprelValue(c, e).value % TWO_TO_64 == TprelValue(c, e).value
  {
    var x := TprelValue(c, e).value;
    assert 0 <= x < ADDRESSES;
  }

  lemma ThreadWordsMean(c: Context, e: Entry)
    requires InContext(c) && HealthyFor(c, e) && Words(c, e).Some? && e.rela.typ in {TlsTprel, TlsDesc}
    ensures WordMeans(c, e, FirstOf(Words(c, e).value), SecondOf(Words(c, e).value))
  {
    ThreadWordIs(c, e);
    TprelFits(c, e);
  }

  lemma SymbolWordsMean(c: Context, e: Entry)
    requires InContext(c) && HealthyFor(c, e) && Words(c, e).Some?
    requires e.rela.typ == GlobDat || e.rela.typ == JumpSlot || (e.rela.typ == Abs64 && !IsLocal(e))
    ensures WordMeans(c, e, FirstOf(Words(c, e).value), SecondOf(Words(c, e).value))
  {
    DynWordIs(c, e);
    assert FirstOf(Words(c, e).value) == DynValue(c, e).value % TWO_TO_64;
  }

  lemma WordsMean(c: Context, e: Entry)
    requires InContext(c) && HealthyFor(c, e) && Words(c, e).Some?
    ensures WordMeans(c, e, FirstOf(Words(c, e).value), SecondOf(Words(c, e).value))
  {
    if e.rela.typ == TlsTprel || e.rela.typ == TlsDesc {
      ThreadWordsMean(c, e);
    } else if e.rela.typ == GlobDat || e.rela.typ == JumpSlot || (e.rela.typ == Abs64 && !IsLocal(e)) {
      SymbolWordsMean(c, e);
    }
  }

  lemma WordStored(c: Context, e: Entry, mem: seq<Byte>)
    requires InContext(c) && HealthyFor(c, e) && |mem| == c.mods[c.me].size && Stored(c, e, mem)
    ensures InRange(c, e) && MemoryMeans(c, e, mem)
  {
    WordsFit(c, e);
    WordsMean(c, e);
    var off, ws := e.rela.offset, Words(c, e).value;
    if |ws| > 0 {
      StoredWord(mem, off, ws[0]);
    }
    if |ws| > 1 {
      StoredWord(mem, off + 8, ws[1]);
    }
  }

  /** Memory holds at the relocation's target what the relocation means. */
  ghost predicate MemoryMeans(c: Context, e: Entry, mem: seq<Byte>)
    requires InContext(c) && |mem| == c.mods[c.me].size && InRange(c, e)
  {
    var off := e.rela.offset;
    WordMeans(c, e, WordAt(mem, off), if e.rela.typ == TlsDesc then WordAt(mem, off + 8) else 0)
  }

  /** What relocation leaves in memory at each of its targets, when the targets do not overlap. */
  lemma StoredWordsAre(c: Context, es: seq<Entry>, image: seq<Byte>)
    requires InContext(c) && |image| == c.mods[c.me].size && AllApart(es) && Apply(c, es, image).Some?
    requires forall i :: 0 <= i < |es| ==> HealthyFor(c, es[i])
    ensures forall i :: 0 <= i < |es| ==> InRange(c, es[i]) && MemoryMeans(c, es[i], Apply(c, es, image).value)
  {
    var mem := Apply(c, es, image).value;
    ApplyStores(c, es, image);
    forall i | 0 <= i < |es| ensures InRange(c, es[i]) && MemoryMeans(c, es[i], mem) {
      WordStored(c, es[i], mem);
    }
  }

  // ------------------------------------------------------------------------ tables

  /** A table of count entries, of 24 bytes each, is inside a module of that size. */
  predicate Lies(addr: nat, count: nat, size: nat) {
    forall i: nat :: i < count ==> EntryLies(addr, i, size)
  }

  predicate EntryLies(addr: nat, i: nat, size: nat) {
    addr + 24 * i + 24 <= size
  }

  /** The checks on the section headers pass exactly if sizes, indices and ends are right, and no sum wraps round. */
  lemma WhenLayoutIsOk(size: nat, l: Layout)
    requires size <= TWO_TO_64
    ensures LayoutOk(size, l)
            <==> && l.rel.entSize == 24 && l.rel.addr + l.rel.size < size
                 && (l.symIdx != 0 ==>
                       && l.symIdx < l.shnum && l.sym.entSize == 24 && l.sym.addr + l.sym.size < size
                       && (l.strIdx != 0 ==> l.strIdx < l.shnum && l.str.addr + l.str.size < size))
  {
  }

  /** Then every relocation, every symbol and every byte of a name that is read lies inside the module. */
  lemma TablesLieInside(size: nat, sec: Section)
    requires LayoutOk(size, sec.layout) && AreTables(sec)
    ensures Lies(sec.layout.rel.addr, |sec.relas|, size)
    ensures sec.layout.symIdx != 0 ==> Lies(sec.layout.sym.addr, |sec.syms|, size)
    ensures sec.strtab != [] ==> sec.layout.str.addr + |sec.strtab| <= size
  {
    var l := sec.layout;
    assert 24 * (l.rel.size / 24) <= l.rel.size && 24 * (l.sym.size / 24) <= l.sym.size;
  }
}
