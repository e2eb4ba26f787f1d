/**
 Moving the load addresses. Loading each module further on by an amount of its
 own changes exactly the address-valued words of the relocated image, each by
 the amount of the module that defines the address.
 */
module ElfRebase {
  import opened Wrappers
  import opened Bytes
  import opened ElfSymbols
  import opened ElfResolve
  import opened ElfReloc

  function Add(a: nat, d: nat): nat {
    (a + d) % ADDRESSES
  }

  function MoveElf(e: Elf, d: nat): Elf {
    e.(load := Add(e.load, d))
  }

  /** ds[i] is how much further module i is loaded. */
  function MoveAll(mods: seq<Elf>, ds: seq<nat>): (r: seq<Elf>)
    requires |ds| == |mods|
    ensures |r| == |mods| && forall i :: 0 <= i < |mods| ==> r[i] == MoveElf(mods[i], ds[i])
  {
    seq(|mods|, i requires 0 <= i < |mods| => MoveElf(mods[i], ds[i]))
  }

  predicate Moves(c: Context, ds: seq<nat>) {
    InContext(c) && |ds| == |c.mods|
  }

  function Move(c: Context, ds: seq<nat>): Context
    requires Moves(c, ds)
  {
    c.(mods := MoveAll(c.mods, ds))
  }

  // ------------------------------------------------- which values are addresses

  /** A definition whose value is an address in its module, not a constant or a thread-local offset. */
  predicate IsAddress(s: Sym) {
    !WeakUndef(s) && s.typ != TlsSym
  }

  function MoveLookup(e: Elf, l: Lookup, d: nat): Lookup {
    match l
    case Hit(i, v) => if i < |e.syms| && IsAddress(e.syms[i]) then Hit(i, Add(v, d)) else l
    case _ => l
  }

  function MoveResolution(mods: seq<Elf>, r: Resolution, ds: seq<nat>): Resolution
    requires |ds| == |mods|
  {
    match r
    case Symbol(m, i, v) =>
      if m < |mods| && i < |mods[m].syms| && IsAddress(mods[m].syms[i]) then Symbol(m, i, Add(v, ds[m])) else r
    case _ => r
  }

  predicate ToAddress(mods: seq<Elf>, r: Resolution)
    requires r.Symbol? ==> r.mod < |mods|
  {
    r.Symbol? && r.index < |mods[r.mod].syms| && IsAddress(mods[r.mod].syms[r.index])
  }

  predicate ResolvesToAddress(c: Context, e: Entry) {
    match NamedSymbol(e.sec, e.rela.sym)
    case None => false
    case Some(n) => ToAddress(c.mods, Resolve(c.mods, n.name))
  }

  /** The module that a symbol reference resolves to. */
  function DynDefiner(c: Context, e: Entry): (m: nat)
    requires InContext(c)
    ensures m < |c.mods|
  {
    match NamedSymbol(e.sec, e.rela.sym)
    case None => c.me
    case Some(n) =>
      match Resolve(c.mods, n.name)
      case Symbol(m, _, _) => m
      case _ => c.me
  }

  /** The module in which the address that a relocation stores lies. */
  function Definer(c: Context, e: Entry): (m: nat)
    requires InContext(c)
    ensures m < |c.mods|
  {
    if e.rela.typ.Relative? then c.me
    else if e.rela.typ.Abs64? && e.rela.sym < |e.sec.syms| && e.sec.syms[e.rela.sym].shndx != SHN_UNDEF then c.me
    else DynDefiner(c, e)
  }

  /**
   The last word this relocation stores is an address. For the two thread-local
   kinds that is so only when the symbol they name is not thread-local.
   */
  predicate AddressValued(c: Context, e: Entry) {
    match e.rela.typ
    case Relative => true
    case Abs64 => e.rela.sym < |e.sec.syms| && (e.sec.syms[e.rela.sym].shndx != SHN_UNDEF || ResolvesToAddress(c, e))
    case GlobDat => ResolvesToAddress(c, e)
    case JumpSlot => ResolvesToAddress(c, e)
    case TlsTprel => e.rela.sym != 0 && ResolvesToAddress(c, e)
    case TlsDesc => e.rela.sym != 0 && ResolvesToAddress(c, e)
    case NoReloc => false
    case Unknown => false
  }

  // ------------------------------------------------------- lookup moves along

  lemma AddAdd(a: nat, b: nat, d: nat)
    ensures (a + Add(b, d)) % ADDRESSES == Add((a + b) % ADDRESSES, d)
  {
  }

  lemma CompareMoves(e: Elf, s: Sym, name: seq<Byte>, weakOk: bool, d: nat)
    ensures SymCompare(MoveElf(e, d), s, name, weakOk)
            == match SymCompare(e, s, name, weakOk)
               case Match(v) => Match(if IsAddress(s) then Add(v, d) else v)
               case other => other
  {
    AddAdd(s.value, e.load, d);
  }

  lemma {:induction false} GnuWalkMoves(e: Elf, g: GnuTable, name: seq<Byte>, weakOk: bool, hash: nat, n: nat, d: nat)
    requires g.symoffset <= n
    ensures GnuWalk(MoveElf(e, d), g, name, weakOk, hash, n) == MoveLookup(e, GnuWalk(e, g, name, weakOk, hash, n), d)
    decreases g.symoffset + |g.chain| - n
  {
    if n < |e.syms| { CompareMoves(e, e.syms[n], name, weakOk, d); }
    if n - g.symoffset < |g.chain| { GnuWalkMoves(e, g, name, weakOk, hash, n + 1, d); }
  }

  lemma {:induction false} DtWalkMoves(e: Elf, t: DtTable, name: seq<Byte>, weakOk: bool, n: nat, seen: set<nat>,
                                       d: nat)
    ensures DtWalk(MoveElf(e, d), t, name, weakOk, n, seen) == MoveLookup(e, DtWalk(e, t, name, weakOk, n, seen), d)
    decreases Entries(t) - seen
  {
    if n < |e.syms| { CompareMoves(e, e.syms[n], name, weakOk, d); }
    if n != 0 && n < |t.chain| && n !in seen {
      assert n in Entries(t) - seen;
      DtWalkMoves(e, t, name, weakOk, t.chain[n], seen + {n}, d);
    }
  }

  lemma FindMoves(e: Elf, name: seq<Byte>, weakOk: bool, d: nat)
    ensures Find(MoveElf(e, d), name, weakOk) == MoveLookup(e, Find(e, name, weakOk), d)
  {
    match e.index
    case NoIndex =>
    case GnuIndex(g) =>
      if g.bloom != [] && g.buckets != [] {
        var n := g.buckets[GnuHash(name) % |g.buckets|];
        if g.symoffset <= n { GnuWalkMoves(e, g, name, weakOk, SetLowBit(GnuHash(name)), n, d); }
      }
    case DtIndex(t) =>
      if t.buckets != [] {
        DtWalkMoves(e, t, name, weakOk, t.buckets[ElfHash(name) % |t.buckets|], {}, d);
      }
  }

  lemma {:induction false} ResolveMoves(mods: seq<Elf>, name: seq<Byte>, k: nat, ds: seq<nat>)
    requires |ds| == |mods|
    ensures ResolveFrom(MoveAll(mods, ds), name, k) == MoveResolution(mods, ResolveFrom(mods, name, k), ds)
    decreases |mods| - k
  {
    if k < |mods| {
      FindMoves(mods[k], name, false, ds[k]);
      FindMoves(mods[k], name, true, ds[k]);
      ResolveMoves(mods, name, k + 1, ds);
    }
  }

  // --------------------------------------------------------- the stored words

  function MoveWords(ws: Option<seq<nat>>, address: bool, d: nat): Option<seq<nat>> {
    match ws
    case None => None
    case Some(v) => if address && v != [] then Some(v[|v| - 1 := Add(v[|v| - 1], d)]) else ws
  }

  lemma MoveOne(v: Option<nat>, address: bool, d: nat)
    ensures MoveWords(Single(v), address, d) == Single(MoveValue(v, address, d))
  {
    if v.Some? { assert [v.value][0 := Add(v.value, d)] == [Add(v.value, d)]; }
  }

  lemma MoveTwo(w: nat, x: nat, address: bool, d: nat)
    ensures MoveWords(Some([w, x]), address, d) == Some([w, if address then Add(x, d) else x])
  {
    assert [w, x][1 := Add(x, d)] == [w, Add(x, d)];
  }

  function MoveValue(v: Option<nat>, address: bool, d: nat): Option<nat> {
    match v
    case None => None
    case Some(x) => if address then Some(Add(x, d)) else v
  }

  lemma DynMoves(c: Context, e: Entry, ds: seq<nat>)
    requires Moves(c, ds)
    ensures DynValue(Move(c, ds), e) == MoveValue(DynValue(c, e), ResolvesToAddress(c, e), ds[DynDefiner(c, e)])
  {
    match NamedSymbol(e.sec, e.rela.sym)
    case None =>
    case Some(n) => ResolveMoves(c.mods, n.name, 0, ds);
  }

  lemma TlsSum(v: nat, offset: nat, addend: nat, d: nat)
    ensures (Add(v, d) + offset + addend) % ADDRESSES == Add((v + offset + addend) % ADDRESSES, d)
  {
    AddAdd(offset + addend, v, d);
  }

  lemma TprelOfMoves(c: Context, r: Resolution, weakUndef: bool, addend: nat, ds: seq<nat>)
    requires Moves(c, ds) && (r.Symbol? ==> r.mod < |c.mods|)
    ensures TprelOf(Move(c, ds), MoveResolution(c.mods, r, ds), weakUndef, addend)
            == MoveValue(TprelOf(c, r, weakUndef, addend), ToAddress(c.mods, r), if r.Symbol? then ds[r.mod] else 0)
  {
    match r
    case Symbol(m, _, v) => TlsSum(v, c.mods[m].tlsOffset, addend, ds[m]);
    case _ =>
  }

  lemma TprelMoves(c: Context, e: Entry, ds: seq<nat>)
    requires Moves(c, ds)
    ensures TprelValue(Move(c, ds), e)
            == MoveValue(TprelValue(c, e), e.rela.sym != 0 && ResolvesToAddress(c, e), ds[DynDefiner(c, e)])
  {
    match NamedSymbol(e.sec, e.rela.sym)
    case None =>
    case Some(n) =>
      ResolveMoves(c.mods, n.name, 0, ds);
      TprelOfMoves(c, Resolve(c.mods, n.name), n.weakUndef, e.rela.addend, ds);
  }

  lemma AbsMoves(addend: nat, load: nat, value: nat, d: nat)
    ensures (addend + Add(load, d) + value) % ADDRESSES == Add((addend + load + value) % ADDRESSES, d)
  {
    AddAdd(addend + value, load, d);
  }

  predicate WordsFollow(c: Context, e: Entry, ds: seq<nat>)
    requires Moves(c, ds)
  {
    Words(Move(c, ds), e) == MoveWords(Words(c, e), AddressValued(c, e), ds[Definer(c, e)])
  }

  lemma LocalMoves(c: Context, e: Entry, ds: seq<nat>)
    requires Moves(c, ds) && (e.rela.typ.NoReloc? || e.rela.typ.Unknown? || e.rela.typ.Relative?)
    ensures WordsFollow(c, e, ds)
  {
    var v := (e.rela.addend + c.mods[c.me].load) % ADDRESSES;
    AddAdd(e.rela.addend, c.mods[c.me].load, ds[c.me]);
    MoveOne(Some(v), true, ds[c.me]);
  }

  lemma Abs64Moves(c: Context, e: Entry, ds: seq<nat>)
    requires Moves(c, ds) && e.rela.typ.Abs64?
    ensures WordsFollow(c, e, ds)
  {
    var r := e.rela;
    if r.sym < |e.sec.syms| {
      if e.sec.syms[r.sym].shndx == SHN_UNDEF {
        DynMoves(c, e, ds);
        MoveOne(DynValue(c, e), ResolvesToAddress(c, e), ds[DynDefiner(c, e)]);
      } else {
        var load, value := c.mods[c.me].load, e.sec.syms[r.sym].value;
        AbsMoves(r.addend, load, value, ds[c.me]);
        MoveOne(Some((r.addend + load + value) % ADDRESSES), true, ds[c.me]);
      }
    }
  }

  lemma SlotMoves(c: Context, e: Entry, ds: seq<nat>)
    requires Moves(c, ds) && (e.rela.typ.GlobDat? || e.rela.typ.JumpSlot?)
    ensures WordsFollow(c, e, ds)
  {
    DynMoves(c, e, ds);
    MoveOne(DynValue(c, e), ResolvesToAddress(c, e), ds[DynDefiner(c, e)]);
  }

  lemma TlsMoves(c: Context, e: Entry, ds: seq<nat>)
    requires Moves(c, ds) && (e.rela.typ.TlsTprel? || e.rela.typ.TlsDesc?)
    ensures WordsFollow(c, e, ds)
  {
    var d := ds[DynDefiner(c, e)];
    TprelMoves(c, e, ds);
    MoveOne(TprelValue(c, e), AddressValued(c, e), d);
    if TprelValue(c, e).Some? {
      MoveTwo(c.tlsResolver, TprelValue(c, e).value, AddressValued(c, e), d);
    }
  }

  lemma WordsMove(c: Context, e: Entry, ds: seq<nat>)
    requires Moves(c, ds)
    ensures WordsFollow(c, e, ds)
  {
    match e.rela.typ
    case Abs64 => Abs64Moves(c, e, ds);
    case GlobDat => SlotMoves(c, e, ds);
    case JumpSlot => SlotMoves(c, e, ds);
    case TlsTprel => TlsMoves(c, e, ds);
    case TlsDesc => TlsMoves(c, e, ds);
    case _ => LocalMoves(c, e, ds);
  }

  // --------------------------------------------------------------- the image

  predicate Covers(e: Entry, k: nat) {
    e.rela.offset <= k < e.rela.offset + 8 * WordCount(e.rela.typ)
  }

  predicate Apart(e: Entry, f: Entry) {
    || e.rela.offset + 8 * WordCount(e.rela.typ) <= f.rela.offset
    || f.rela.offset + 8 * WordCount(f.rela.typ) <= e.rela.offset
  }

  predicate AllApart(es: seq<Entry>) {
    forall i, j :: 0 <= i < j < |es| ==> Apart(es[i], es[j])
  }

  /** The word at off differs by d if it is an address, and not at all otherwise. */
  predicate WordMoved(a: seq<Byte>, b: seq<Byte>, off: nat, address: bool, d: nat)
    requires |a| == |b| && off + 8 <= |a|
  {
    WordAt(b, off) == (WordAt(a, off) + if address then d else 0) % ADDRESSES
  }

  /** The last word of an entry's target differs by d if it is an address; the one before it never differs. */
  predicate EntryMoved(c: Context, e: Entry, d: nat, a: seq<Byte>, b: seq<Byte>)
    requires InContext(c) && InRange(c, e) && |a| == |b| == c.mods[c.me].size
  {
    match e.rela.typ
    case NoReloc => true
    case TlsDesc =>
      WordMoved(a, b, e.rela.offset, false, d) && WordMoved(a, b, e.rela.offset + 8, AddressValued(c, e), d)
    case _ => WordMoved(a, b, e.rela.offset, AddressValued(c, e), d)
  }

  predicate Untouched(es: seq<Entry>, image: seq<Byte>, a: seq<Byte>)
    requires |image| == |a|
  {
    forall k :: 0 <= k < |a| && (forall i :: 0 <= i < |es| ==> !Covers(es[i], k)) ==> a[k] == image[k]
  }

  /** What Apply leaves in memory for one entry: the bytes of its words. */
  predicate Stored(c: Context, e: Entry, a: seq<Byte>)
    requires InContext(c) && |a| == c.mods[c.me].size
  {
    && Words(c, e).Some?
    && InRange(c, e)
    && (e.rela.typ == TlsDesc ==>
          && |Words(c, e).value| == 2
          && a[e.rela.offset..e.rela.offset + 8] == ToLe(Words(c, e).value[0], 8)
          && a[e.rela.offset + 8..e.rela.offset + 16] == ToLe(Words(c, e).value[1], 8))
    && (e.rela.typ != TlsDesc && e.rela.typ != NoReloc ==>
          && |Words(c, e).value| == 1
          && a[e.rela.offset..e.rela.offset + 8] == ToLe(Words(c, e).value[0], 8))
  }

  lemma SamePart(a: seq<Byte>, b: seq<Byte>, lo: nat, hi: nat)
    requires |a| == |b| && lo <= hi <= |a| && forall k :: lo <= k < hi ==> a[k] == b[k]
    ensures a[lo..hi] == b[lo..hi]
  {
  }

  lemma PutEffect(image: seq<Byte>, off: nat, words: seq<nat>)
    requires |words| <= 2 && off + 8 * |words| <= |image|
    ensures var r := PutWords(image, off, words);
            && (forall k :: 0 <= k < |image| && (k < off || off + 8 * |words| <= k) ==> r[k] == image[k])
            && (|words| >= 1 ==> r[off..off + 8] == ToLe(words[0], 8))
            && (|words| == 2 ==> r[off + 8..off + 16] == ToLe(words[1], 8))
  {
    if |words| == 2 {
      var one := PutWord(image, off, words[0]);
      var two := PutWord(one, off + 8, words[1]);
      assert words[1..][1..] == [];
      assert PutWords(one, off + 8, words[1..]) == PutWords(two, off + 16, words[1..][1..]);
      assert PutWords(image, off, words) == two;
      SamePart(one, two, off, off + 8);
    } else if |words| == 1 {
      assert words[1..] == [];
      assert PutWords(image, off, words) == PutWord(image, off, words[0]);
    }
  }

  lemma StillStored(c: Context, e: Entry, f: Entry, a: seq<Byte>, b: seq<Byte>)
    requires InContext(c) && |a| == |b| == c.mods[c.me].size
    requires Stored(c, e, a) && Apart(e, f)
    requires forall k :: 0 <= k < |a| && !Covers(f, k) ==> b[k] == a[k]
    ensures Stored(c, e, b)
  {
    var off := e.rela.offset;
    if e.rela.typ == TlsDesc {
      SamePart(a, b, off, off + 8);
      SamePart(a, b, off + 8, off + 16);
    } else if e.rela.typ != NoReloc {
      SamePart(a, b, off, off + 8);
    }
  }

  /** Relocations whose targets do not overlap all leave their words, and touch nothing else. */
  lemma {:induction false} ApplyStores(c: Context, es: seq<Entry>, image: seq<Byte>)
    requires InContext(c) && |image| == c.mods[c.me].size
    requires AllApart(es) && Apply(c, es, image).Some?
    ensures forall i :: 0 <= i < |es| ==> Stored(c, es[i], Apply(c, es, image).value)
    ensures Untouched(es, image, Apply(c, es, image).value)
    decreases |es|
  {
    if es != [] {
      var init := es[..|es| - 1];
      var e := es[|es| - 1];
      ApplyStores(c, init, image);
      var a := Apply(c, init, image).value;
      var b := Apply(c, es, image).value;
      WordsFit(c, e);
      PutEffect(a, e.rela.offset, Words(c, e).value);
      assert Stored(c, e, b);
      forall i | 0 <= i < |init| ensures Stored(c, es[i], b) {
        assert init[i] == es[i];
        StillStored(c, es[i], e, a, b);
      }
    }
  }

  /** Relocation gives up on the same inputs wherever the modules are loaded. */
  lemma {:induction false} ApplyAgrees(c: Context, es: seq<Entry>, image: seq<Byte>, ds: seq<nat>)
    requires Moves(c, ds) && |image| == c.mods[c.me].size
    ensures Apply(Move(c, ds), es, image).Some? <==> Apply(c, es, image).Some?
    decreases |es|
  {
    if es != [] {
      ApplyAgrees(c, es[..|es| - 1], image, ds);
      WordsMove(c, es[|es| - 1], ds);
      assert WordsFollow(c, es[|es| - 1], ds);
    }
  }

  lemma StoredWord(a: seq<Byte>, off: nat, v: nat)
    requires off + 8 <= |a| && IsStored(a, off, v)
    ensures WordAt(a, off) == v % ADDRESSES
  {
    Pow256Values();
    LeRoundTrip(v, 8);
  }

  lemma AddTwice(x: nat, y: nat, v: nat, w: nat, address: bool, d: nat)
    requires x == v % ADDRESSES && y == w % ADDRESSES && w == if address then Add(v, d) else v
    ensures y == (x + if address then d else 0) % ADDRESSES
  {
  }

  predicate IsStored(a: seq<Byte>, off: nat, v: nat)
    requires off + 8 <= |a|
  {
    a[off..off + 8] == ToLe(v, 8)
  }

  lemma WordMoves(a: seq<Byte>, b: seq<Byte>, off: nat, v: nat, w: nat, address: bool, d: nat)
    requires |a| == |b| && off + 8 <= |a|
    requires IsStored(a, off, v) && IsStored(b, off, w)
    requires w == if address then Add(v, d) else v
    ensures WordMoved(a, b, off, address, d)
  {
    var x, y := WordAt(a, off), WordAt(b, off);
    assert x == v % ADDRESSES by { StoredWord(a, off, v); }
    assert y == w % ADDRESSES by { StoredWord(b, off, w); }
    AddTwice(x, y, v, w, address, d);
  }

  lemma OneEntryMoves(c: Context, e: Entry, ds: seq<nat>, a: seq<Byte>, b: seq<Byte>)
    requires Moves(c, ds) && |a| == |b| == c.mods[c.me].size
    requires Stored(c, e, a) && Stored(Move(c, ds), e, b)
    ensures InRange(c, e) && EntryMoved(c, e, ds[Definer(c, e)], a, b)
  {
    WordsMove(c, e, ds);
    var d := ds[Definer(c, e)];
    var off := e.rela.offset;
    var ws, vs := Words(c, e).value, Words(Move(c, ds), e).value;
    if e.rela.typ == TlsDesc {
      WordMoves(a, b, off, ws[0], vs[0], false, d);
      WordMoves(a, b, off + 8, ws[1], vs[1], AddressValued(c, e), d);
    } else if e.rela.typ != NoReloc {
      WordMoves(a, b, off, ws[0], vs[0], AddressValued(c, e), d);
    }
  }

  /**
   Loading each module i by ds[i] bytes further: relocation succeeds or fails
   alike, all targets lie inside the module, each address-valued word is larger
   by exactly the amount of the module that defines it, and every other word and
   every byte outside the targets is the same.
   */
  lemma Rebase(c: Context, es: seq<Entry>, image: seq<Byte>, ds: seq<nat>)
    requires Moves(c, ds) && |image| == c.mods[c.me].size && AllApart(es)
    ensures Apply(Move(c, ds), es, image).Some? <==> Apply(c, es, image).Some?
    ensures Apply(c, es, image).Some? ==>
              var a, b := Apply(c, es, image).value, Apply(Move(c, ds), es, image).value;
              && |a| == |b| == |image|
              && (forall i :: 0 <= i < |es| ==> InRange(c, es[i]) && EntryMoved(c, es[i], ds[Definer(c, es[i])], a, b))
              && Untouched(es, image, a) && Untouched(es, image, b)
  {
    ApplyAgrees(c, es, image, ds);
    if Apply(c, es, image).Some? {
      var a, b := Apply(c, es, image).value, Apply(Move(c, ds), es, image).value;
      ApplyStores(c, es, image);
      ApplyStores(Move(c, ds), es, image);
      forall i | 0 <= i < |es| ensures InRange(c, es[i]) && EntryMoved(c, es[i], ds[Definer(c, es[i])], a, b) {
        OneEntryMoves(c, es[i], ds, a, b);
      }
    }
  }

  /** In particular when all modules move together: addresses change by that much, whatever module they lie in. */
  lemma RebaseTogether(c: Context, es: seq<Entry>, image: seq<Byte>, d: nat)
    requires InContext(c) && |image| == c.mods[c.me].size && AllApart(es) && Apply(c, es, image).Some?
    ensures var ds := seq(|c.mods|, _ => d);
            && Apply(Move(c, ds), es, image).Some?
            && var a, b := Apply(c, es, image).value, Apply(Move(c, ds), es, image).value;
               && |a| == |b| == |image|
               && (forall i :: 0 <= i < |es| ==> InRange(c, es[i]) && EntryMoved(c, es[i], d, a, b))
               && Untouched(es, image, a) && Untouched(es, image, b)
  {
    var ds := seq(|c.mods|, _ => d);
    assert forall i :: 0 <= i < |es| ==> ds[Definer(c, es[i])] == d;
    Rebase(c, es, image, ds);
  }

  // ------------------------------------------- thread-local names of other symbols

  /** A module with a function f, and a thread-local relocation that names f. */
  function OneModule(): Context {
    Context([DefinesF(Global)], 0, 0)
  }

  function NamesF(): Entry {
    var r := Rela(0x20, TlsTprel, 1, 0);
    var headers := Layout(4, Shdr(0x100, 24, 24), 2, Shdr(0x200, 48, 24), 3, Shdr(0x300, 3, 1));
    Entry(Section(DefinesF(Global).syms, DefinesF(Global).dynstr, [r], headers), r)
  }

  lemma NamesFByName()
    ensures NamedSymbol(NamesF().sec, NamesF().rela.sym) == Some(Named([102], false))
  {
    var table := DefinesF(Global).dynstr;
    assert NameAt(table, 2) == [];
    assert NameAt(table, 1) == [102];
  }

  /** What should be an offset from the thread pointer is the address of f: it changes with the load address. */
  lemma ThreadLocalWordCanMove(d: nat)
    ensures Words(OneModule(), NamesF()) == Some([0x10])
    ensures Words(Move(OneModule(), [d]), NamesF()) == Some([Add(0x10, d)])
  {
    FoundAlone(Global);
    NamesFByName();
    assert Words(OneModule(), NamesF()) == Single(TprelValue(OneModule(), NamesF())) == Some([0x10]);
    assert AddressValued(OneModule(), NamesF());
    WordsMove(OneModule(), NamesF(), [d]);
    assert [0x10][0 := Add(0x10, d)] == [Add(0x10, d)];
  }
}
