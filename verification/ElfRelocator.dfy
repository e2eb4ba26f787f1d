/** The relocation loops, storing into a module's memory. */
module ElfRelocator {
  import opened Wrappers
  import opened Bytes
  import opened ElfSymbols
  import opened ElfLookup
  import opened ElfResolve
  import opened ElfReloc

  /** Symbol lookups stay inside the modules' tables and come to an end. */
  ghost predicate AllSane(c: Context) {
    forall j, name :: 0 <= j < |c.mods| ==> Sane(c.mods[j], name, false) && Sane(c.mods[j], name, true)
  }

  lemma {:induction false} ScanIsSane(e: Elf, name: seq<Byte>, weakOk: bool, i: nat)
    ensures !Scan(e, name, weakOk, i).Undefined? && !Scan(e, name, weakOk, i).Loops?
    decreases |e.syms| - i
  {
    if i < |e.syms| { ScanIsSane(e, name, weakOk, i + 1); }
  }

  lemma {:induction false} DtWalkIsSane(e: Elf, d: DtTable, rank: seq<nat>, top: nat, name: seq<Byte>, weakOk: bool,
                                        n: nat, seen: set<nat>)
    requires DtOk(e, d, rank, top) && (n == 0 || n < |d.chain|)
    requires n != 0 ==> forall k :: k in seen ==> k < |rank| && rank[n] < rank[k]
    ensures var r := DtWalk(e, d, name, weakOk, n, seen); !r.Undefined? && !r.Loops?
    decreases if n == 0 then 0 else rank[n] + 1
  {
    if n != 0 {
      DtWalkIsSane(e, d, rank, top, name, weakOk, d.chain[n], seen + {n});
    }
  }

  /** Modules with well-formed hash indexes are safe to look up any name in, malformed entries or not. */
  lemma WellFormedIsSane(c: Context)
    requires forall j :: 0 <= j < |c.mods| ==> IndexOk(c.mods[j])
    ensures AllSane(c)
  {
    forall j, name, weakOk | 0 <= j < |c.mods| ensures Sane(c.mods[j], name, weakOk) {
      var e := c.mods[j];
      match e.index
      case NoIndex =>
      case GnuIndex(g) =>
        GnuLookupIsScan(e, g, name, weakOk);
        ScanIsSane(e, name, weakOk, g.symoffset);
      case DtIndex(d) =>
        var rank: seq<nat>, top: nat :| DtOk(e, d, rank, top);
        DtWalkIsSane(e, d, rank, top, name, weakOk, d.buckets[ElfHash(name) % |d.buckets|], {});
    }
  }

  method DynRela(c: Context, e: Entry) returns (v: Option<nat>)
    requires AllSane(c)
    ensures v == DynValue(c, e)
  {
    var named := NamedSymbol(e.sec, e.rela.sym);
    if named.None? {
      return None;
    }
    var found := ResolveSym(c.mods, named.value.name, None);
    match found
    case Symbol(_, _, val) => return Some(val);
    case NotFound => return if named.value.weakUndef then Some(0) else None;
    case Stuck(_) => return None;
  }

  method TlsTprelRela(c: Context, e: Entry) returns (v: Option<nat>)
    requires InContext(c) && AllSane(c)
    ensures v == TprelValue(c, e)
  {
    var mod := c.me;
    var symval: nat := 0;
    if e.rela.sym != 0 {
      var named := NamedSymbol(e.sec, e.rela.sym);
      if named.None? {
        return None;
      }
      var found := ResolveSym(c.mods, named.value.name, None);
      match found {
        case Symbol(m, _, val) => mod, symval := m, val;
        case NotFound => if !named.value.weakUndef { return None; }
        case Stuck(_) => return None;
      }
    }
    return Some((symval + c.mods[mod].tlsOffset + e.rela.addend) % ADDRESSES);
  }

  /** A 64-bit store at an offset of the module. */
  method StoreWord(mem: array<Byte>, off: nat, v: nat)
    requires off + 8 <= mem.Length
    modifies mem
    ensures mem[..] == PutWord(old(mem[..]), off, v)
  {
    var bytes := ToLe(v, 8);
    forall j | 0 <= j < 8 {
      mem[off + j] := bytes[j];
    }
    ghost var want := PutWord(old(mem[..]), off, v);
    assert want[off..off + 8] == bytes;
    forall k | 0 <= k < mem.Length ensures mem[k] == want[k] {
      if off <= k < off + 8 { assert want[off..off + 8][k - off] == want[k]; }
    }
    assert mem[..] == want;
  }

  method StoreOne(mem: array<Byte>, off: nat, v: Option<nat>) returns (ok: bool)
    requires off + 8 <= mem.Length
    modifies mem
    ensures ok == v.Some?
    ensures ok ==> mem[..] == PutWords(old(mem[..]), off, [v.value])
  {
    if v.None? {
      return false;
    }
    StoreWord(mem, off, v.value);
    assert [v.value][1..] == [];
    return true;
  }

  /** b is a with the words of this relocation stored. */
  predicate Stores(c: Context, e: Entry, a: seq<Byte>, b: seq<Byte>)
    requires InContext(c)
  {
    && Words(c, e).Some?
    && e.rela.offset + 8 * |Words(c, e).value| <= |a|
    && b == PutWords(a, e.rela.offset, Words(c, e).value)
  }

  /** One relocation; false is the loader giving up. */
  method ProcessRela(mem: array<Byte>, c: Context, e: Entry) returns (ok: bool)
    requires InContext(c) && AllSane(c) && mem.Length == c.mods[c.me].size
    modifies mem
    ensures ok == Words(c, e).Some?
    ensures ok ==> Stores(c, e, old(mem[..]), mem[..])
  {
    var r := e.rela;
    var elf := c.mods[c.me];
    var writeSize := 8;
    if r.typ == TlsDesc {
      writeSize := 16;
    }
    if r.offset + writeSize >= elf.size {
      return false;
    }
    match r.typ
    case NoReloc =>
      return true;
    case Abs64 =>
      if r.sym >= |e.sec.syms| {
        return false;
      }
      var sym := e.sec.syms[r.sym];
      var v := Some((r.addend + elf.load + sym.value) % ADDRESSES);
      if sym.shndx == SHN_UNDEF {
        v := DynRela(c, e);
      }
      ok := StoreOne(mem, r.offset, v);
    case Relative =>
      ok := StoreOne(mem, r.offset, Some((r.addend + elf.load) % ADDRESSES));
    case GlobDat =>
      var v := DynRela(c, e);
      ok := StoreOne(mem, r.offset, v);
    case JumpSlot =>
      var v := DynRela(c, e);
      ok := StoreOne(mem, r.offset, v);
    case TlsTprel =>
      var v := TlsTprelRela(c, e);
      ok := StoreOne(mem, r.offset, v);
    case TlsDesc =>
      StoreWord(mem, r.offset, c.tlsResolver);
      var v := TlsTprelRela(c, e);
      ok := StoreOne(mem, r.offset + 8, v);
      assert ok ==> [c.tlsResolver, v.value][1..] == [v.value];
    case Unknown =>
      return false;
  }

  // ------------------------------------------------------------ all sections

  function EntriesOf(sec: Section, n: nat): (es: seq<Entry>)
    requires n <= |sec.relas|
    ensures |es| == n && forall i :: 0 <= i < n ==> es[i] == Entry(sec, sec.relas[i])
  {
    seq(n, i requires 0 <= i < n => Entry(sec, sec.relas[i]))
  }

  /** The relocations of all sections, in the order in which they are processed. */
  function Flatten(secs: seq<Section>): seq<Entry> {
    if secs == [] then []
    else
      var last := secs[|secs| - 1];
      Flatten(secs[..|secs| - 1]) + EntriesOf(last, |last.relas|)
  }

  lemma {:induction false} FailureStays(c: Context, es: seq<Entry>, more: seq<Entry>, image: seq<Byte>)
    requires InContext(c) && |image| == c.mods[c.me].size && Apply(c, es, image).None?
    ensures Apply(c, es + more, image).None?
    decreases |more|
  {
    if more == [] {
      assert es + more == es;
    } else {
      var init := more[..|more| - 1];
      FailureStays(c, es, init, image);
      assert (es + more)[..|es + more| - 1] == es + init;
    }
  }

  /** These relocations turn image into now. */
  predicate Reaches(c: Context, es: seq<Entry>, image: seq<Byte>, now: seq<Byte>)
    requires InContext(c) && |image| == c.mods[c.me].size
  {
    Apply(c, es, image) == Some(now)
  }

  lemma OneMore(c: Context, es: seq<Entry>, e: Entry, image: seq<Byte>, now: seq<Byte>, next: seq<Byte>)
    requires InContext(c) && |image| == c.mods[c.me].size && Reaches(c, es, image, now) && Stores(c, e, now, next)
    ensures Reaches(c, es + [e], image, next)
  {
    assert (es + [e])[..|es + [e]| - 1] == es;
  }

  lemma RestFails(c: Context, before: seq<Entry>, sec: Section, n: nat, image: seq<Byte>)
    requires InContext(c) && |image| == c.mods[c.me].size && n < |sec.relas|
    requires Words(c, Entry(sec, sec.relas[n])).None?
    ensures Apply(c, before + EntriesOf(sec, |sec.relas|), image).None?
  {
    var all := EntriesOf(sec, |sec.relas|);
    var start := before + EntriesOf(sec, n) + [Entry(sec, sec.relas[n])];
    assert start[..|start| - 1] == before + EntriesOf(sec, n);
    assert before + all == start + all[n + 1..];
    FailureStays(c, start, all[n + 1..], image);
  }

  /** Are the tables of a section inside the module? */
  method CheckLayout(size: nat, l: Layout) returns (ok: bool)
    ensures ok == LayoutOk(size, l)
  {
    if l.rel.entSize != RELA_SIZE {
      return false;
    }
    if l.symIdx != 0 {
      if l.symIdx >= l.shnum || l.sym.entSize != SYM_SIZE {
        return false;
      }
      if l.sym.addr + l.sym.size >= ADDRESSES || l.sym.addr + l.sym.size >= size {
        return false;
      }
      if l.strIdx != 0 {
        if l.strIdx >= l.shnum {
          return false;
        }
        if l.str.addr + l.str.size >= ADDRESSES || l.str.addr + l.str.size >= size {
          return false;
        }
      }
    }
    if l.rel.addr + l.rel.size >= ADDRESSES {
      return false;
    }
    return l.rel.addr + l.rel.size < size;
  }

  /** The relocations of one section, after those of the sections before it. */
  method E64Relocate(mem: array<Byte>, c: Context, sec: Section, ghost before: seq<Entry>, ghost image: seq<Byte>)
    returns (ok: bool)
    requires InContext(c) && AllSane(c) && mem.Length == |image| == c.mods[c.me].size
    requires Reaches(c, before, image, mem[..]) && AreTables(sec)
    modifies mem
    ensures ok ==> LayoutOk(|image|, sec.layout) && Reaches(c, before + EntriesOf(sec, |sec.relas|), image, mem[..])
    ensures !ok && LayoutOk(|image|, sec.layout) ==> Apply(c, before + EntriesOf(sec, |sec.relas|), image).None?
  {
    ok := CheckLayout(mem.Length, sec.layout);
    if !ok {
      return;
    }
    assert before + EntriesOf(sec, 0) == before;
    for n := 0 to sec.layout.rel.size / RELA_SIZE
      invariant Reaches(c, before + EntriesOf(sec, n), image, mem[..])
    {
      var e := Entry(sec, sec.relas[n]);
      ghost var sofar, now := before + EntriesOf(sec, n), mem[..];
      var done := ProcessRela(mem, c, e);
      if !done {
        RestFails(c, before, sec, n, image);
        return false;
      }
      OneMore(c, sofar, e, image, now, mem[..]);
      assert before + EntriesOf(sec, n + 1) == sofar + [e];
    }
    return true;
  }

  ghost predicate AllLaidOut(size: nat, secs: seq<Section>) {
    forall i :: 0 <= i < |secs| ==> LayoutOk(size, secs[i].layout)
  }

  /** Relocate a module: every relocation section in turn. */
  method TaElfRelocate(mem: array<Byte>, c: Context, secs: seq<Section>) returns (ok: bool)
    requires InContext(c) && AllSane(c) && mem.Length == c.mods[c.me].size
    requires forall i :: 0 <= i < |secs| ==> AreTables(secs[i])
    modifies mem
    ensures ok <==> AllLaidOut(mem.Length, secs) && Apply(c, Flatten(secs), old(mem[..])).Some?
    ensures ok ==> Apply(c, Flatten(secs), old(mem[..])) == Some(mem[..])
  {
    ghost var image := mem[..];
    for n := 0 to |secs|
      invariant Reaches(c, Flatten(secs[..n]), image, mem[..]) && AllLaidOut(mem.Length, secs[..n])
    {
      assert secs[..n + 1][..n] == secs[..n];
      var done := E64Relocate(mem, c, secs[n], Flatten(secs[..n]), image);
      if !done {
        if LayoutOk(mem.Length, secs[n].layout) { SectionFails(c, secs, n + 1, image); }
        return false;
      }
    }
    assert secs[..|secs|] == secs;
    return true;
  }

  lemma {:induction false} SectionFails(c: Context, secs: seq<Section>, n: nat, image: seq<Byte>)
    requires InContext(c) && |image| == c.mods[c.me].size && n <= |secs|
    requires Apply(c, Flatten(secs[..n]), image).None?
    ensures Apply(c, Flatten(secs), image).None?
    decreases |secs| - n
  {
    if n == |secs| {
      assert secs[..n] == secs;
    } else {
      assert secs[..n + 1][..n] == secs[..n];
      FailureStays(c, Flatten(secs[..n]), EntriesOf(secs[n], |secs[n].relas|), image);
      SectionFails(c, secs, n + 1, image);
    }
  }
}
