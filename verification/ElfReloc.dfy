/**
 AArch64 relocation of a loaded module. The relocation, symbol and string tables
 are given as values: they are taken not to be overwritten while they are read.
 */
module ElfReloc {
  import opened Wrappers
  import opened Bytes
  import opened ElfSymbols
  import opened ElfResolve

  datatype RelType = NoReloc | Abs64 | Relative | GlobDat | JumpSlot | TlsTprel | TlsDesc | Unknown

  /** addend is the 64-bit two's complement pattern. */
  datatype Rela = Rela(offset: nat, typ: RelType, sym: nat, addend: nat)

  const RELA_SIZE: nat := 24
  const SYM_SIZE: nat := 24

  /** A section header, as far as relocation looks at it; addr is from the start of the module. */
  datatype Shdr = Shdr(addr: nat, size: nat, entSize: nat)

  /** The headers that relocating a section goes by: its own, of the symbols it links to, and of their names. */
  datatype Layout = Layout(shnum: nat, rel: Shdr, symIdx: nat, sym: Shdr, strIdx: nat, str: Shdr)

  /** A relocation section with the symbol and string tables that its headers place. */
  datatype Section = Section(syms: seq<Sym>, strtab: seq<Byte>, relas: seq<Rela>, layout: Layout)

  /** No sum wraps round, and the end is inside the module. */
  predicate IsInside(size: nat, s: Shdr) {
    s.addr + s.size < ADDRESSES && s.addr + s.size < size
  }

  /** What is checked of the headers before the tables are read. */
  predicate LayoutOk(size: nat, l: Layout) {
    && l.rel.entSize == RELA_SIZE && IsInside(size, l.rel)
    && (l.symIdx != 0 ==> l.symIdx < l.shnum && l.sym.entSize == SYM_SIZE && IsInside(size, l.sym))
    && (l.symIdx != 0 && l.strIdx != 0 ==> l.strIdx < l.shnum && IsInside(size, l.str))
  }

  /** The tables are as long as their headers say. */
  predicate AreTables(sec: Section) {
    var l := sec.layout;
    && |sec.relas| == l.rel.size / RELA_SIZE
    && |sec.syms| == (if l.symIdx == 0 then 0 else l.sym.size / SYM_SIZE)
    && |sec.strtab| == (if l.symIdx == 0 || l.strIdx == 0 then 0 else l.str.size)
  }

  /** One relocation together with the tables it refers to. */
  datatype Entry = Entry(sec: Section, rela: Rela)

  /** The loaded modules, the one being relocated, and the address of ldelf's TLS descriptor resolver. */
  datatype Context = Context(mods: seq<Elf>, me: nat, tlsResolver: nat)

  predicate InContext(c: Context) {
    c.me < |c.mods|
  }

  // -------------------------------------------------------------- the values

  datatype Named = Named(name: seq<Byte>, weakUndef: bool)

  function NamedSymbol(sec: Section, idx: nat): Option<Named> {
    if idx >= |sec.syms| then None
    else if sec.syms[idx].name >= |sec.strtab| then None
    else Some(Named(NameAt(sec.strtab, sec.syms[idx].name), WeakUndef(sec.syms[idx])))
  }

  /** A symbol's value: an undefined weak reference that nothing defines is zero. */
  function DynValue(c: Context, e: Entry): Option<nat> {
    match NamedSymbol(e.sec, e.rela.sym)
    case None => None
    case Some(n) =>
      match Resolve(c.mods, n.name)
      case Symbol(_, _, v) => Some(v)
      case NotFound => if n.weakUndef then Some(0) else None
      case Stuck(_) => None
  }

  /** Offset of what a thread-local symbol resolved to from the thread pointer. */
  function TprelOf(c: Context, r: Resolution, weakUndef: bool, addend: nat): Option<nat>
    requires InContext(c) && (r.Symbol? ==> r.mod < |c.mods|)
  {
    match r
    case Symbol(m, _, v) => Some((v + c.mods[m].tlsOffset + addend) % ADDRESSES)
    case NotFound => if weakUndef then Some((c.mods[c.me].tlsOffset + addend) % ADDRESSES) else None
    case Stuck(_) => None
  }

  function TprelValue(c: Context, e: Entry): Option<nat>
    requires InContext(c)
  {
    if e.rela.sym == 0 then Some((c.mods[c.me].tlsOffset + e.rela.addend) % ADDRESSES)
    else
      match NamedSymbol(e.sec, e.rela.sym)
      case None => None
      case Some(n) => TprelOf(c, Resolve(c.mods, n.name), n.weakUndef, e.rela.addend)
  }

  function Single(v: Option<nat>): Option<seq<nat>> {
    match v case None => None case Some(x) => Some([x])
  }

  function WordCount(t: RelType): nat {
    match t
    case NoReloc => 0
    case TlsDesc => 2
    case _ => 1
  }

  predicate InRange(c: Context, e: Entry)
    requires InContext(c)
  {
    e.rela.offset + (if e.rela.typ == TlsDesc then 16 else 8) < c.mods[c.me].size
  }

  /** The 64-bit words a relocation stores, or None where the loader gives up. */
  function Words(c: Context, e: Entry): Option<seq<nat>>
    requires InContext(c)
  {
    var r := e.rela;
    var load := c.mods[c.me].load;
    if !InRange(c, e) then None
    else
      match r.typ
      case NoReloc => Some([])
      case Abs64 =>
        if r.sym >= |e.sec.syms| then None
        else if e.sec.syms[r.sym].shndx == SHN_UNDEF then Single(DynValue(c, e))
        else Some([(r.addend + load + e.sec.syms[r.sym].value) % ADDRESSES])
      case Relative => Some([(r.addend + load) % ADDRESSES])
      case GlobDat => Single(DynValue(c, e))
      case JumpSlot => Single(DynValue(c, e))
      case TlsTprel => Single(TprelValue(c, e))
      case TlsDesc =>
        (match TprelValue(c, e) case None => None case Some(x) => Some([c.tlsResolver, x]))
      case Unknown => None
  }

  // -------------------------------------------------------------- the memory

  function PutWord(image: seq<Byte>, off: nat, v: nat): (r: seq<Byte>)
    requires off + 8 <= |image|
    ensures |r| == |image|
    ensures r[off..off + 8] == ToLe(v, 8)
    ensures forall k :: 0 <= k < |image| && (k < off || off + 8 <= k) ==> r[k] == image[k]
  {
    image[..off] + ToLe(v, 8) + image[off + 8..]
  }

  function PutWords(image: seq<Byte>, off: nat, words: seq<nat>): (r: seq<Byte>)
    requires off + 8 * |words| <= |image|
    ensures |r| == |image|
    decreases words
  {
    if words == [] then image else PutWords(PutWord(image, off, words[0]), off + 8, words[1..])
  }

  function WordAt(image: seq<Byte>, off: nat): nat
    requires off + 8 <= |image|
  {
    FromLe(image[off..off + 8])
  }

  /** The module's memory after these relocations, in order. */
  function Apply(c: Context, es: seq<Entry>, image: seq<Byte>): (r: Option<seq<Byte>>)
    requires InContext(c) && |image| == c.mods[c.me].size
    ensures r.Some? ==> |r.value| == |image|
    decreases |es|
  {
    if es == [] then Some(image)
    else
      var e := es[|es| - 1];
      match Apply(c, es[..|es| - 1], image)
      case None => None
      case Some(before) =>
        match Words(c, e)
        case None => None
        case Some(ws) => WordsFit(c, e); Some(PutWords(before, e.rela.offset, ws))
  }

  lemma WordsFit(c: Context, e: Entry)
    requires InContext(c) && Words(c, e).Some?
    ensures |Words(c, e).value| == WordCount(e.rela.typ)
    ensures e.rela.offset + 8 * WordCount(e.rela.typ) <= c.mods[c.me].size
  {
  }
}
