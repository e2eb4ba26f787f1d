/** Symbol resolution over the queue of loaded modules. */
module ElfResolve {
  import opened Wrappers
  import opened Bits
  import opened Bytes
  import opened ElfSymbols
  import opened ElfLookup

  datatype Resolution = Symbol(mod: nat, index: nat, val: nat) | NotFound | Stuck(why: Lookup)

  /** Module by module from k on: global symbols of a module first, then its weak ones. */
  function ResolveFrom(mods: seq<Elf>, name: seq<Byte>, k: nat): (r: Resolution)
    ensures r.Symbol? ==> k <= r.mod < |mods|
    decreases |mods| - k
  {
    if k >= |mods| then NotFound
    else
      match Find(mods[k], name, false)
      case Hit(i, v) => Symbol(k, i, v)
      case Miss =>
        (match Find(mods[k], name, true)
         case Hit(i, v) => Symbol(k, i, v)
         case Miss => ResolveFrom(mods, name, k + 1)
         case other => Stuck(other))
      case other => Stuck(other)
  }

  function Resolve(mods: seq<Elf>, name: seq<Byte>): (r: Resolution)
    ensures r.Symbol? ==> r.mod < |mods|
  {
    ResolveFrom(mods, name, 0)
  }

  /** One module: its global symbols first, then its weak ones. */
  function FindEither(e: Elf, name: seq<Byte>): Lookup {
    match Find(e, name, false)
    case Miss => Find(e, name, true)
    case other => other
  }

  /** A given module before all of them. */
  function ResolveGiven(mods: seq<Elf>, name: seq<Byte>, given: Option<nat>): Resolution
    requires given.Some? ==> given.value < |mods|
  {
    match given
    case None => Resolve(mods, name)
    case Some(g) =>
      match FindEither(mods[g], name)
      case Hit(i, v) => Symbol(g, i, v)
      case Miss => Resolve(mods, name)
      case other => Stuck(other)
  }

  // ----------------------------------------------------------- what it finds

  /** Module e has an entry in its index that defines name, counting weak ones if weakOk. */
  ghost predicate Offers(e: Elf, name: seq<Byte>, weakOk: bool) {
    exists i: nat :: LowIndex(e) <= i && Accepts(e, i, name, weakOk)
  }

  ghost predicate Healthy(e: Elf, name: seq<Byte>) {
    IndexOk(e) && NoFatal(e, LowIndex(e), name, false) && NoFatal(e, LowIndex(e), name, true)
  }

  /**
   Resolution finds the first module, in queue order, that offers the name at
   all; within it a weak entry only if it has no global one; and it fails exactly
   when no module offers it.
   */
  ghost predicate FirstOffer(mods: seq<Elf>, name: seq<Byte>, k: nat, r: Resolution) {
    match r
    case Stuck(_) => false
    case NotFound => forall j :: k <= j < |mods| ==> !Offers(mods[j], name, true)
    case Symbol(m, i, v) =>
      && k <= m < |mods| && LowIndex(mods[m]) <= i < |mods[m].syms|
      && (forall j :: k <= j < m ==> !Offers(mods[j], name, true))
      && (var weak := !Offers(mods[m], name, false);
          && SymCompare(mods[m], mods[m].syms[i], name, weak) == Match(v)
          && mods[m].syms[i].bind == (if weak then Weak else Global))
  }

  lemma GlobalIsOffered(e: Elf, name: seq<Byte>)
    ensures Offers(e, name, false) ==> Offers(e, name, true)
  {
    if Offers(e, name, false) {
      var i: nat :| LowIndex(e) <= i && Accepts(e, i, name, false);
      assert Accepts(e, i, name, true);
    }
  }

  lemma HitIsOffer(e: Elf, name: seq<Byte>, weakOk: bool)
    requires Healthy(e, name)
    ensures match Find(e, name, weakOk)
            case Hit(i, v) => LowIndex(e) <= i < |e.syms| && SymCompare(e, e.syms[i], name, weakOk) == Match(v)
                              && Offers(e, name, weakOk)
            case Miss => !Offers(e, name, weakOk)
            case _ => false
  {
    FindIsRight(e, name, weakOk);
    if Find(e, name, weakOk).Hit? {
      assert Accepts(e, Find(e, name, weakOk).index, name, weakOk);
    }
  }

  lemma {:induction false} ResolveIsFirstOffer(mods: seq<Elf>, name: seq<Byte>, k: nat)
    requires forall j :: k <= j < |mods| ==> Healthy(mods[j], name)
    ensures FirstOffer(mods, name, k, ResolveFrom(mods, name, k))
    decreases |mods| - k
  {
    if k < |mods| {
      var e := mods[k];
      HitIsOffer(e, name, false);
      HitIsOffer(e, name, true);
      GlobalIsOffered(e, name);
      if Find(e, name, false).Miss? && Find(e, name, true).Hit? {
        WeakHit(e, name, Find(e, name, true).index);
      }
      if Find(e, name, false).Miss? && Find(e, name, true).Miss? {
        ResolveIsFirstOffer(mods, name, k + 1);
        NoOfferHere(mods, name, k, ResolveFrom(mods, name, k + 1));
      }
    }
  }

  lemma NoOfferHere(mods: seq<Elf>, name: seq<Byte>, k: nat, r: Resolution)
    requires k < |mods| && !Offers(mods[k], name, true) && FirstOffer(mods, name, k + 1, r)
    ensures FirstOffer(mods, name, k, r)
  {
  }

  lemma WeakHit(e: Elf, name: seq<Byte>, i: nat)
    requires LowIndex(e) <= i && Accepts(e, i, name, true) && !Offers(e, name, false)
    ensures e.syms[i].bind == Weak
  {
    assert e.syms[i].bind == Global ==> Accepts(e, i, name, false);
  }

  /** r is a symbol of module first, and a global one exactly if that module has a global one. */
  ghost predicate FoundIn(mods: seq<Elf>, name: seq<Byte>, first: nat, r: Resolution) {
    && r.Symbol? && r.mod == first < |mods| && r.index < |mods[first].syms|
    && (mods[first].syms[r.index].bind == Global <==> Offers(mods[first], name, false))
  }

  lemma FirstOfferIsFound(mods: seq<Elf>, name: seq<Byte>, first: nat, r: Resolution)
    requires FirstOffer(mods, name, 0, r) && first < |mods|
    requires Offers(mods[first], name, true) && forall j :: 0 <= j < first ==> !Offers(mods[j], name, true)
    ensures FoundIn(mods, name, first, r)
  {
    if r.Symbol? {
      GlobalIsOffered(mods[r.mod], name);
      var weak := !Offers(mods[r.mod], name, false);
      assert Accepts(mods[r.mod], r.index, name, weak);
    }
  }

  /**
   A weak definition in an earlier module wins over a global one in a later module:
   whatever later modules define, the symbol found is a global one exactly if the
   first module that offers the name has a global definition of it.
   */
  lemma EarlierWeakWins(mods: seq<Elf>, name: seq<Byte>, first: nat)
    requires first < |mods| && forall j :: 0 <= j < |mods| ==> Healthy(mods[j], name)
    requires Offers(mods[first], name, true) && forall j :: 0 <= j < first ==> !Offers(mods[j], name, true)
    ensures FoundIn(mods, name, first, Resolve(mods, name))
  {
    ResolveIsFirstOffer(mods, name, 0);
    FirstOfferIsFound(mods, name, first, Resolve(mods, name));
  }

  /**
   A given module is searched before all of them, not instead: the symbol found
   is one of its own exactly if it offers the name, and what a search of all
   modules finds otherwise.
   */
  lemma GivenIsFirst(mods: seq<Elf>, name: seq<Byte>, given: nat)
    requires given < |mods| && Healthy(mods[given], name)
    ensures var r := ResolveGiven(mods, name, Some(given));
            if Offers(mods[given], name, true) then FoundIn(mods, name, given, r) else r == Resolve(mods, name)
  {
    HitIsOffer(mods[given], name, false);
    HitIsOffer(mods[given], name, true);
    GlobalIsOffered(mods[given], name);
    if Find(mods[given], name, false).Miss? && Find(mods[given], name, true).Hit? {
      WeakHit(mods[given], name, Find(mods[given], name, true).index);
    }
  }

  /** A module that defines the function f, as a symbol of the given binding. */
  function DefinesF(bind: Bind): Elf {
    Elf(0, 0x1000, false, [0, 102, 0], [Sym(0, Local, NoType, 0, 0), Sym(1, bind, FuncSym, 1, 0x10)],
        DtIndex(DtTable([1], [0, 0])), 0)
  }

  /** What the one symbol of such a module answers for f. */
  lemma AnswersF(bind: Bind, weakOk: bool)
    ensures SymCompare(DefinesF(bind), DefinesF(bind).syms[1], [102], weakOk)
            == if BindOk(DefinesF(bind).syms[1], weakOk) then Match(0x10) else NoMatch
  {
    var e := DefinesF(bind);
    assert NameAt(e.dynstr, 2) == [];
    assert NameAt(e.dynstr, 1) == [102];
  }

  lemma DefinesFIsIndexed(bind: Bind)
    ensures IndexOk(DefinesF(bind))
  {
    var e := DefinesF(bind);
    assert Linked(e, e.index.dt, 1);
    assert DtOk(e, e.index.dt, [0, 0], 1);
  }

  lemma DefinesFIsHealthy(bind: Bind)
    ensures Healthy(DefinesF(bind), [102])
    ensures bind == Global ==> Offers(DefinesF(bind), [102], false)
    ensures bind == Weak ==> Offers(DefinesF(bind), [102], true)
  {
    var e := DefinesF(bind);
    DefinesFIsIndexed(bind);
    AnswersF(bind, false);
    AnswersF(bind, true);
    assert LowIndex(e) == 1;
    assert bind == Global ==> Accepts(e, 1, [102], false);
    assert bind == Weak ==> Accepts(e, 1, [102], true);
  }

  /** A module with a weak f before one with a global f: the weak one is what f means. */
  lemma WeakFBeforeGlobalF()
    ensures var mods := [DefinesF(Weak), DefinesF(Global)];
            Offers(mods[1], [102], false) && FoundIn(mods, [102], 0, Resolve(mods, [102]))
            && mods[0].syms[Resolve(mods, [102]).index].bind == Weak
  {
    DefinesFIsHealthy(Weak);
    DefinesFIsHealthy(Global);
    var mods := [DefinesF(Weak), DefinesF(Global)];
    EarlierWeakWins(mods, [102], 0);
  }

  // ------------------------------------------------- weak undefined references

  /**
   An undefined weak entry is not the last resort: what is found is such an entry,
   of value zero, exactly if the first module that offers the name at all has no
   global definition and a lookup in it comes to one, whatever later modules define.
   */
  lemma WhenUndefinedIsFound(mods: seq<Elf>, name: seq<Byte>, first: nat)
    requires first < |mods| && forall j :: 0 <= j < |mods| ==> Healthy(mods[j], name)
    requires Offers(mods[first], name, true) && forall j :: 0 <= j < first ==> !Offers(mods[j], name, true)
    ensures var r := Resolve(mods, name); var h := Find(mods[first], name, true);
            && FoundIn(mods, name, first, r) && h.Hit? && h.index < |mods[first].syms|
            && (WeakUndef(mods[first].syms[r.index])
                <==> !Offers(mods[first], name, false) && WeakUndef(mods[first].syms[h.index]))
            && (WeakUndef(mods[first].syms[r.index]) ==> r.val == 0)
  {
    EarlierWeakWins(mods, name, first);
    HitIsOffer(mods[first], name, true);
    HitIsOffer(mods[first], name, false);
    ResolveIsFirstOffer(mods, name, 0);
    SkipsTo(mods, name, 0, first);
  }

  /** Modules that do not offer the name are passed over. */
  lemma {:induction false} SkipsTo(mods: seq<Elf>, name: seq<Byte>, k: nat, first: nat)
    requires k <= first < |mods| && forall j :: 0 <= j < |mods| ==> Healthy(mods[j], name)
    requires forall j :: 0 <= j < first ==> !Offers(mods[j], name, true)
    ensures ResolveFrom(mods, name, k) == ResolveFrom(mods, name, first)
    decreases first - k
  {
    if k < first {
      HitIsOffer(mods[k], name, false);
      HitIsOffer(mods[k], name, true);
      GlobalIsOffered(mods[k], name);
      SkipsTo(mods, name, k + 1, first);
    }
  }

  /** A module that refers to f weakly and does not define it. */
  function NeedsF(): Elf {
    DefinesF(Weak).(syms := [Sym(0, Local, NoType, 0, 0), Sym(1, Weak, NoType, SHN_UNDEF, 0)])
  }

  /** In front of it all, such a reference hides every definition of f. */
  lemma UndefinedFHides(others: seq<Elf>)
    ensures Resolve([NeedsF()] + others, [102]) == Symbol(0, 1, 0)
  {
    var e := NeedsF();
    assert NameAt(e.dynstr, 2) == [];
    assert NameAt(e.dynstr, 1) == [102];
    assert SymCompare(e, e.syms[1], [102], false) == NoMatch && SymCompare(e, e.syms[1], [102], true) == Match(0);
    assert ([NeedsF()] + others)[0] == e;
    assert DtWalk(e, e.index.dt, [102], false, 0, {1}) == Miss;
    assert Find(e, [102], false) == Miss && Find(e, [102], true) == Hit(1, 0);
  }

  /** Alone, such a module is where f is found. */
  lemma FoundAlone(bind: Bind)
    requires bind == Global || bind == Weak
    ensures Resolve([DefinesF(bind)], [102]) == Symbol(0, 1, 0x10)
  {
    var mods := [DefinesF(bind)];
    DefinesFIsHealthy(bind);
    GlobalIsOffered(mods[0], [102]);
    ResolveIsFirstOffer(mods, [102], 0);
    AnswersF(bind, false);
    AnswersF(bind, true);
  }

  /** Asked for f in a module that does not define it, the search answers with that of another module. */
  lemma GivenWithoutF()
    ensures var mods := [DefinesF(Local), DefinesF(Global)];
            ResolveGiven(mods, [102], Some(0)).Symbol? && ResolveGiven(mods, [102], Some(0)).mod == 1
  {
    var mods := [DefinesF(Local), DefinesF(Global)];
    DefinesFIsHealthy(Local);
    DefinesFIsHealthy(Global);
    LocalIsNotOffered();
    GivenIsFirst(mods, [102], 0);
    GlobalIsOffered(mods[1], [102]);
    EarlierWeakWins(mods, [102], 1);
  }

  lemma LocalIsNotOffered()
    ensures !Offers(DefinesF(Local), [102], true)
  {
    AnswersF(Local, true);
    assert forall i: nat :: 1 <= i ==> !Accepts(DefinesF(Local), i, [102], true);
  }

  // ---------------------------------------------------------------- the code

  method GnuHashLoop(name: seq<Byte>) returns (h: nat)
    ensures h == GnuHash(name)
  {
    h := 5381;
    var p := 0;
    assert name[0..] == name;
    while p < |name|
      invariant 0 <= p <= |name| && h < WORD32
      invariant GnuHash(name) == GnuHashFrom(h, name[p..])
    {
      assert name[p..][1..] == name[p + 1..];
      h := (h * 32 + h + name[p]) % WORD32;
      p := p + 1;
    }
  }

  method ElfHashChar(h0: nat, c: Byte) returns (h: nat)
    ensures h == ElfHashStep(h0, c)
  {
    h := (h0 * 16 + c) % WORD32;
    var g := h / 0x1000_0000 * 0x1000_0000;
    if g != 0 {
      h := Xor(h, g / 0x100_0000);
    }
    h := h % 0x1000_0000;
  }

  method ElfHashLoop(name: seq<Byte>) returns (r: nat)
    ensures r == ElfHash(name)
  {
    var h := 0;
    var p := 0;
    assert name[0..] == name;
    while p < |name|
      invariant 0 <= p <= |name|
      invariant ElfHashFrom(0, name) == ElfHashFrom(h, name[p..])
    {
      assert name[p..][1..] == name[p + 1..];
      h := ElfHashChar(h, name[p]);
      p := p + 1;
    }
    r := h;
  }

  method GnuChain(e: Elf, g: GnuTable, name: seq<Byte>, weakOk: bool, hash: nat, first: nat) returns (r: Lookup)
    requires first >= g.symoffset && !GnuWalk(e, g, name, weakOk, hash, first).Undefined?
    ensures r == GnuWalk(e, g, name, weakOk, hash, first)
  {
    var n := first;
    while true
      invariant g.symoffset <= n && GnuWalk(e, g, name, weakOk, hash, first) == GnuWalk(e, g, name, weakOk, hash, n)
      decreases g.symoffset + |g.chain| - n
    {
      var idx := n - g.symoffset;
      if idx > |g.chain| {
        return Miss;
      }
      var hashval := g.chain[idx];
      if SetLowBit(hashval) == hash {
        var answer := CheckFound(e, name, weakOk, n);
        if answer.Fatal? {
          return Failed;
        }
        if answer.Match? {
          return Hit(n, answer.val);
        }
      }
      n := n + 1;
      if hashval % 2 == 1 {
        return Miss;
      }
    }
  }

  method GnuFind(e: Elf, g: GnuTable, name: seq<Byte>, weakOk: bool) returns (r: Lookup)
    requires !GnuLookup(e, g, name, weakOk).Undefined?
    ensures r == GnuLookup(e, g, name, weakOk)
  {
    var hash := GnuHashLoop(name);
    var mask := BloomMask(e, g, hash);
    if And(BloomWord(e, g, hash), mask) != mask {
      return Miss;
    }
    var n := g.buckets[hash % |g.buckets|];
    if n < g.symoffset {
      return Miss;
    }
    r := GnuChain(e, g, name, weakOk, SetLowBit(hash), n);
  }

  method DtFind(e: Elf, d: DtTable, name: seq<Byte>, weakOk: bool) returns (r: Lookup)
    requires !DtLookup(e, d, name, weakOk).Loops?
    ensures r == DtLookup(e, d, name, weakOk)
  {
    if |d.buckets| == 0 {
      return Miss;
    }
    var hash := ElfHashLoop(name);
    var n: nat := d.buckets[hash % |d.buckets|];
    ghost var seen: set<nat> := {};
    while n != 0
      invariant DtLookup(e, d, name, weakOk) == DtWalk(e, d, name, weakOk, n, seen)
      decreases Entries(d) - seen
    {
      if n >= |d.chain| {
        return Failed;
      }
      var answer := CheckFound(e, name, weakOk, n);
      if answer.Fatal? {
        return Failed;
      }
      if answer.Match? {
        return Hit(n, answer.val);
      }
      assert n in Entries(d) - seen;
      seen := seen + {n};
      n := d.chain[n];
    }
    return Miss;
  }

  /** Lookups in this module stay inside its tables and come to an end. */
  predicate Sane(e: Elf, name: seq<Byte>, weakOk: bool) {
    !Find(e, name, weakOk).Undefined? && !Find(e, name, weakOk).Loops?
  }

  method ResolveSymHelper(e: Elf, name: seq<Byte>, weakOk: bool) returns (r: Lookup)
    requires Sane(e, name, weakOk)
    ensures r == Find(e, name, weakOk)
  {
    match e.index
    case GnuIndex(g) => r := GnuFind(e, g, name, weakOk);
    case DtIndex(d) => r := DtFind(e, d, name, weakOk);
    case NoIndex => return Miss;
  }

  method ResolveEither(e: Elf, name: seq<Byte>) returns (r: Lookup)
    requires Sane(e, name, false) && Sane(e, name, true)
    ensures r == FindEither(e, name)
  {
    r := ResolveSymHelper(e, name, false);
    if r.Miss? {
      r := ResolveSymHelper(e, name, true);
    }
  }

  method ResolveSym(mods: seq<Elf>, name: seq<Byte>, given: Option<nat>) returns (r: Resolution)
    requires given.Some? ==> given.value < |mods|
    requires forall j :: 0 <= j < |mods| ==> Sane(mods[j], name, false) && Sane(mods[j], name, true)
    ensures r == ResolveGiven(mods, name, given)
  {
    if given.Some? {
      var found := ResolveEither(mods[given.value], name);
      match found {
        case Hit(i, v) => return Symbol(given.value, i, v);
        case Miss =>
        case other => return Stuck(other);
      }
    }
    for k := 0 to |mods|
      invariant ResolveGiven(mods, name, given) == ResolveFrom(mods, name, k)
    {
      var found := ResolveEither(mods[k], name);
      match found {
        case Hit(i, v) => return Symbol(k, i, v);
        case Miss =>
        case other => return Stuck(other);
      }
    }
    return NotFound;
  }
}
