/**
 Symbol lookup in one ELF module: what a symbol-table entry answers for a name,
 and the two hash indexes over the table. Undefined stands for a read outside
 the table or a division by zero, Loops for a walk that never ends.
 */
module ElfSymbols {
  import opened Bits
  import opened Bytes

  const ADDRESSES: nat := 0x1_0000_0000_0000_0000
  const WORD32: nat := 0x1_0000_0000
  const SHN_UNDEF: nat := 0
  const SHN_XINDEX: nat := 0xFFFF

  datatype Bind = Local | Global | Weak | OtherBind
  datatype SymType = NoType | ObjectSym | FuncSym | TlsSym | OtherType

  /** name is an offset into the string table. */
  datatype Sym = Sym(name: nat, bind: Bind, typ: SymType, shndx: nat, value: nat)

  datatype GnuTable = GnuTable(symoffset: nat, bloomShift: nat, bloom: seq<nat>, buckets: seq<nat>, chain: seq<nat>)

  datatype DtTable = DtTable(buckets: seq<nat>, chain: seq<nat>)

  datatype HashIndex = NoIndex | GnuIndex(gnu: GnuTable) | DtIndex(dt: DtTable)

  /** A loaded module: its memory spans load .. load + size. */
  datatype Elf = Elf(load: nat, size: nat, is32: bool, dynstr: seq<Byte>, syms: seq<Sym>, index: HashIndex,
                     tlsOffset: nat)

  // ---------------------------------------------------------------- names

  /** The C string at offset off of a string table, which ends it if it has no terminator. */
  function NameAt(table: seq<Byte>, off: nat): seq<Byte>
    decreases |table| - off
  {
    if off >= |table| || table[off] == 0 then [] else [table[off]] + NameAt(table, off + 1)
  }

  /** h * 33 + c over the bytes, in 32 bits. */
  function GnuHashFrom(h: nat, name: seq<Byte>): (r: nat)
    requires h < WORD32
    ensures r < WORD32
    decreases |name|
  {
    if name == [] then h else GnuHashFrom((h * 32 + h + name[0]) % WORD32, name[1..])
  }

  function GnuHash(name: seq<Byte>): (r: nat)
    ensures r < WORD32
  {
    GnuHashFrom(5381, name)
  }

  /** One byte of the System V hash; g holds the top four bits, which are folded in and then cleared. */
  function ElfHashStep(h: nat, c: Byte): nat {
    var h := (h * 16 + c) % WORD32;
    var g := h / 0x1000_0000 * 0x1000_0000;
    Xor(h, g / 0x100_0000) % 0x1000_0000
  }

  function ElfHashFrom(h: nat, name: seq<Byte>): nat
    decreases |name|
  {
    if name == [] then h else ElfHashFrom(ElfHashStep(h, name[0]), name[1..])
  }

  function ElfHash(name: seq<Byte>): nat {
    ElfHashFrom(0, name)
  }

  // -------------------------------------------------------- one table entry

  datatype Answer = NoMatch | Match(val: nat) | Fatal

  predicate BindOk(s: Sym, weakOk: bool) {
    s.bind == Global || (weakOk && s.bind == Weak)
  }

  predicate WeakUndef(s: Sym) {
    s.bind == Weak && s.shndx == SHN_UNDEF
  }

  /** Does this entry define name, and as what? */
  function SymCompare(e: Elf, s: Sym, name: seq<Byte>, weakOk: bool): Answer {
    if s.name == 0 then NoMatch
    else if s.name > |e.dynstr| then Fatal
    else if NameAt(e.dynstr, s.name) != name then NoMatch
    else if !BindOk(s, weakOk) then NoMatch
    else if WeakUndef(s) then Match(0)
    else if s.shndx == SHN_UNDEF || s.shndx == SHN_XINDEX then NoMatch
    else
      match s.typ
      case TlsSym => Match(s.value)
      case OtherType => Fatal
      case _ => if s.value > e.size then Fatal else Match((s.value + e.load) % ADDRESSES)
  }

  function CheckFound(e: Elf, name: seq<Byte>, weakOk: bool, n: nat): Answer {
    if n >= |e.syms| then Fatal else SymCompare(e, e.syms[n], name, weakOk)
  }

  // ------------------------------------------------------------------ lookups

  datatype Lookup = Hit(index: nat, val: nat) | Miss | Failed | Undefined | Loops

  /** The reference: look at the entries one after the other. */
  function Scan(e: Elf, name: seq<Byte>, weakOk: bool, i: nat): Lookup
    decreases |e.syms| - i
  {
    if i >= |e.syms| then Miss
    else
      match SymCompare(e, e.syms[i], name, weakOk)
      case Match(v) => Hit(i, v)
      case Fatal => Failed
      case NoMatch => Scan(e, name, weakOk, i + 1)
  }

  function WordBits(e: Elf): (w: nat)
    ensures 0 < w <= 64
  {
    if e.is32 then 32 else 64
  }

  /** The two bloom bits of a hash. */
  function BloomMask(e: Elf, g: GnuTable, hash: nat): nat {
    var w := WordBits(e);
    Or(PowerOfTwo(hash % w), PowerOfTwo(hash / PowerOfTwo(g.bloomShift) % w))
  }

  function BloomWord(e: Elf, g: GnuTable, hash: nat): nat
    requires |g.bloom| > 0
  {
    g.bloom[hash / WordBits(e) % |g.bloom|]
  }

  function SetLowBit(x: nat): nat {
    x / 2 * 2 + 1
  }

  function GnuWalk(e: Elf, g: GnuTable, name: seq<Byte>, weakOk: bool, hash: nat, n: nat): Lookup
    requires n >= g.symoffset
    decreases g.symoffset + |g.chain| - n
  {
    var idx := n - g.symoffset;
    if idx > |g.chain| then Miss
    else if idx == |g.chain| then Undefined
    else
      var answer := if SetLowBit(g.chain[idx]) == hash then CheckFound(e, name, weakOk, n) else NoMatch;
      match answer
      case Match(v) => Hit(n, v)
      case Fatal => Failed
      case NoMatch => if g.chain[idx] % 2 == 1 then Miss else GnuWalk(e, g, name, weakOk, hash, n + 1)
  }

  function GnuLookup(e: Elf, g: GnuTable, name: seq<Byte>, weakOk: bool): Lookup {
    var hash := GnuHash(name);
    if |g.bloom| == 0 then Undefined
    else
      var mask := BloomMask(e, g, hash);
      if And(BloomWord(e, g, hash), mask) != mask then Miss
      else if |g.buckets| == 0 then Undefined
      else
        var n := g.buckets[hash % |g.buckets|];
        if n < g.symoffset then Miss else GnuWalk(e, g, name, weakOk, SetLowBit(hash), n)
  }

  predicate IsEntry(d: DtTable, i: nat) {
    i < |d.chain|
  }

  ghost function Entries(d: DtTable): set<nat> {
    set i: nat | i < |d.chain| && IsEntry(d, i)
  }

  /** seen are the entries already passed: coming back to one of them means walking in a circle. */
  function DtWalk(e: Elf, d: DtTable, name: seq<Byte>, weakOk: bool, n: nat, seen: set<nat>): Lookup
    decreases Entries(d) - seen
  {
    if n == 0 then Miss
    else if n in seen then Loops
    else if n >= |d.chain| then Failed
    else
      match CheckFound(e, name, weakOk, n)
      case Match(v) => Hit(n, v)
      case Fatal => Failed
      case NoMatch => DtWalk(e, d, name, weakOk, d.chain[n], seen + {n})
  }

  function DtLookup(e: Elf, d: DtTable, name: seq<Byte>, weakOk: bool): Lookup {
    if |d.buckets| == 0 then Miss
    else DtWalk(e, d, name, weakOk, d.buckets[ElfHash(name) % |d.buckets|], {})
  }

  function Find(e: Elf, name: seq<Byte>, weakOk: bool): Lookup {
    match e.index
    case GnuIndex(g) => GnuLookup(e, g, name, weakOk)
    case DtIndex(d) => DtLookup(e, d, name, weakOk)
    case NoIndex => Miss
  }
}
