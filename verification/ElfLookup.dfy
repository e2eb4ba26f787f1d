/** The hash indexes answer what a plain scan of the symbol table answers. */
module ElfLookup {
  import opened Bits
  import opened Bytes
  import opened ElfSymbols

  function SymName(e: Elf, i: nat): seq<Byte>
    requires i < |e.syms|
  {
    NameAt(e.dynstr, e.syms[i].name)
  }

  /** Only an entry of that name answers anything but no match. */
  lemma OtherNames(e: Elf, i: nat, name: seq<Byte>, weakOk: bool)
    requires i < |e.syms| && e.syms[i].name <= |e.dynstr| && SymName(e, i) != name
    ensures SymCompare(e, e.syms[i], name, weakOk) == NoMatch
  {
  }

  // -------------------------------------------------------------- DT_GNU_HASH

  function HashOf(e: Elf, i: nat): nat
    requires i < |e.syms|
  {
    GnuHash(SymName(e, i))
  }

  /** The bucket of every symbol. */
  function BucketsOf(e: Elf, g: GnuTable): (bs: seq<nat>)
    requires |g.buckets| > 0
    ensures |bs| == |e.syms|
  {
    seq(|e.syms|, i requires 0 <= i < |e.syms| => HashOf(e, i) % |g.buckets|)
  }

  /** Both bloom bits of the hash are set in its bloom word. */
  predicate InBloom(e: Elf, g: GnuTable, hash: nat)
    requires |g.bloom| > 0
  {
    var w := WordBits(e);
    var word := g.bloom[hash / w % |g.bloom|];
    HasBit(word, hash % w) && HasBit(word, hash / PowerOfTwo(g.bloomShift) % w)
  }

  /** The low bit of a chain word marks the last symbol of its bucket. */
  predicate MarksLast(bs: seq<nat>, off: nat, chain: seq<nat>, i: nat)
    requires |bs| == off + |chain| && off <= i < |bs|
  {
    chain[i - off] % 2 == 1 <==> i + 1 == |bs| || bs[i + 1] != bs[i]
  }

  /** Symbols from off on are grouped by bucket, and each bucket holds the first index of its group. */
  ghost predicate Grouped(bs: seq<nat>, off: nat, buckets: seq<nat>, chain: seq<nat>) {
    && |bs| == off + |chain|
    && (forall b :: 0 <= b < |buckets| && buckets[b] >= off ==> buckets[b] < |bs| && bs[buckets[b]] == b)
    && (forall i :: off <= i < |bs| ==> bs[i] < |buckets| && off <= buckets[bs[i]] <= i)
    && (forall i, k :: off <= i < |bs| && off <= k < |bs| && buckets[bs[i]] <= k <= i ==> bs[k] == bs[i])
    && (forall i :: off <= i < |bs| ==> MarksLast(bs, off, chain, i))
  }

  lemma AfterLast(bs: seq<nat>, off: nat, buckets: seq<nat>, chain: seq<nat>, n: nat, k: nat)
    requires Grouped(bs, off, buckets, chain) && off <= n < k < |bs| && chain[n - off] % 2 == 1
    ensures bs[k] != bs[n]
  {
    assert MarksLast(bs, off, chain, n);
    assert bs[n + 1] != bs[n];
  }

  lemma NextInGroup(bs: seq<nat>, off: nat, buckets: seq<nat>, chain: seq<nat>, n: nat)
    requires Grouped(bs, off, buckets, chain) && off <= n < |bs| && chain[n - off] % 2 == 0
    ensures n + 1 < |bs| && bs[n + 1] == bs[n]
  {
    assert MarksLast(bs, off, chain, n);
  }

  /** What the index says of one symbol: its name is in the string table, its hash in filter and chain. */
  predicate Indexed(e: Elf, g: GnuTable, i: nat)
    requires |g.bloom| > 0 && |e.syms| == g.symoffset + |g.chain| && g.symoffset <= i < |e.syms|
  {
    && e.syms[i].name <= |e.dynstr|
    && InBloom(e, g, HashOf(e, i))
    && g.chain[i - g.symoffset] / 2 == HashOf(e, i) / 2
  }

  /**
   A well-formed DT_GNU_HASH index: the hashed symbols are grouped by bucket,
   each bucket points at the first of its group, each chain word holds the hash
   of its symbol with the low bit marking the last of a group, and the bloom
   filter has every hashed symbol.
   */
  ghost predicate GnuOk(e: Elf, g: GnuTable) {
    && |g.buckets| > 0 && |g.bloom| > 0 && 0 < g.symoffset
    && Grouped(BucketsOf(e, g), g.symoffset, g.buckets, g.chain)
    && forall i :: g.symoffset <= i < |e.syms| ==> Indexed(e, g, i)
  }

  /** Entries from i up to n with other names do not change what the scan finds. */
  lemma {:induction false} ScanSkips(e: Elf, name: seq<Byte>, weakOk: bool, i: nat, n: nat)
    requires i <= n <= |e.syms|
    requires forall k: nat :: i <= k < n ==> e.syms[k].name <= |e.dynstr| && SymName(e, k) != name
    ensures Scan(e, name, weakOk, i) == Scan(e, name, weakOk, n)
    decreases n - i
  {
    if i < n {
      OtherNames(e, i, name, weakOk);
      ScanSkips(e, name, weakOk, i + 1, n);
    }
  }

  lemma SameHalf(a: nat, b: nat)
    ensures SetLowBit(a) == SetLowBit(b) <==> a / 2 == b / 2
  {
  }

  /** Comparing hashes first never hides an entry of that name. */
  lemma WalkOne(e: Elf, g: GnuTable, name: seq<Byte>, weakOk: bool, n: nat)
    requires |g.bloom| > 0 && |e.syms| == g.symoffset + |g.chain| && g.symoffset <= n < |e.syms| && Indexed(e, g, n)
    ensures GnuWalk(e, g, name, weakOk, SetLowBit(GnuHash(name)), n)
         == match SymCompare(e, e.syms[n], name, weakOk)
            case Match(v) => Hit(n, v)
            case Fatal => Failed
            case NoMatch =>
              if g.chain[n - g.symoffset] % 2 == 1 then Miss
              else GnuWalk(e, g, name, weakOk, SetLowBit(GnuHash(name)), n + 1)
  {
    SameHalf(g.chain[n - g.symoffset], GnuHash(name));
    if SymName(e, n) != name {
      OtherNames(e, n, name, weakOk);
    }
  }

  /** A symbol in another bucket, or whose hash the filter does not have, has another name. */
  lemma OtherBucket(e: Elf, g: GnuTable, name: seq<Byte>, i: nat)
    requires GnuOk(e, g) && g.symoffset <= i < |e.syms|
    requires BucketsOf(e, g)[i] != GnuHash(name) % |g.buckets| || !InBloom(e, g, GnuHash(name))
    ensures e.syms[i].name <= |e.dynstr| && SymName(e, i) != name
  {
    assert Indexed(e, g, i);
  }

  /** The walk along a group answers what the scan from there answers. */
  lemma {:induction false} WalkIsScan(e: Elf, g: GnuTable, name: seq<Byte>, weakOk: bool, n: nat)
    requires GnuOk(e, g) && g.symoffset <= n < |e.syms| && BucketsOf(e, g)[n] == GnuHash(name) % |g.buckets|
    ensures GnuWalk(e, g, name, weakOk, SetLowBit(GnuHash(name)), n) == Scan(e, name, weakOk, n)
    decreases |e.syms| - n
  {
    var bs := BucketsOf(e, g);
    assert Indexed(e, g, n);
    WalkOne(e, g, name, weakOk, n);
    if g.chain[n - g.symoffset] % 2 == 1 {
      forall k: nat | n + 1 <= k < |e.syms| ensures e.syms[k].name <= |e.dynstr| && SymName(e, k) != name {
        AfterLast(bs, g.symoffset, g.buckets, g.chain, n, k);
        OtherBucket(e, g, name, k);
      }
      ScanSkips(e, name, weakOk, n + 1, |e.syms|);
    } else {
      NextInGroup(bs, g.symoffset, g.buckets, g.chain, n);
      WalkIsScan(e, g, name, weakOk, n + 1);
    }
  }

  /** For every well-formed table the lookup is the scan of the hashed entries: same entry, same value, same errors. */
  lemma GnuLookupIsScan(e: Elf, g: GnuTable, name: seq<Byte>, weakOk: bool)
    requires GnuOk(e, g)
    ensures GnuLookup(e, g, name, weakOk) == Scan(e, name, weakOk, g.symoffset)
  {
    var bs := BucketsOf(e, g);
    var b := GnuHash(name) % |g.buckets|;
    var w := WordBits(e);
    TwoBitMask(BloomWord(e, g, GnuHash(name)), GnuHash(name) % w, GnuHash(name) / PowerOfTwo(g.bloomShift) % w);
    var n := if !InBloom(e, g, GnuHash(name)) || g.buckets[b] < g.symoffset then |e.syms| else g.buckets[b];
    forall k: nat | g.symoffset <= k < n ensures e.syms[k].name <= |e.dynstr| && SymName(e, k) != name {
      assert g.symoffset <= g.buckets[bs[k]] <= k;
      OtherBucket(e, g, name, k);
    }
    ScanSkips(e, name, weakOk, g.symoffset, n);
    if n < |e.syms| {
      WalkIsScan(e, g, name, weakOk, n);
    }
  }

  // ------------------------------------------------------------ right answers

  /** No entry from lo on is malformed for this name. */
  ghost predicate NoFatal(e: Elf, lo: nat, name: seq<Byte>, weakOk: bool) {
    forall i :: lo <= i < |e.syms| ==> !SymCompare(e, e.syms[i], name, weakOk).Fatal?
  }

  predicate Accepts(e: Elf, i: nat, name: seq<Byte>, weakOk: bool) {
    i < |e.syms| && SymCompare(e, e.syms[i], name, weakOk).Match?
  }

  /** A hit is an accepting entry from lo on, a miss means that there is none, and there is no other answer. */
  ghost predicate Right(e: Elf, lo: nat, name: seq<Byte>, weakOk: bool, r: Lookup) {
    match r
    case Hit(i, v) => lo <= i < |e.syms| && SymCompare(e, e.syms[i], name, weakOk) == Match(v)
    case Miss => forall i: nat :: lo <= i ==> !Accepts(e, i, name, weakOk)
    case _ => false
  }

  lemma {:induction false} ScanIsRight(e: Elf, lo: nat, name: seq<Byte>, weakOk: bool)
    requires NoFatal(e, lo, name, weakOk)
    ensures Right(e, lo, name, weakOk, Scan(e, name, weakOk, lo))
    decreases |e.syms| - lo
  {
    if lo < |e.syms| && SymCompare(e, e.syms[lo], name, weakOk) == NoMatch {
      ScanIsRight(e, lo + 1, name, weakOk);
    }
  }

  // ------------------------------------------------------------------ DT_HASH

  function DtBucketOf(e: Elf, d: DtTable, i: nat): (b: nat)
    requires i < |e.syms| && |d.buckets| > 0
    ensures b < |d.buckets|
  {
    ElfHash(SymName(e, i)) % |d.buckets|
  }

  /** Symbol i starts its bucket, or follows another symbol of that bucket. */
  ghost predicate Linked(e: Elf, d: DtTable, i: nat)
    requires 0 < i < |e.syms| == |d.chain| && |d.buckets| > 0
  {
    || d.buckets[DtBucketOf(e, d, i)] == i
    || exists j: nat :: 0 < j < |d.chain| && d.chain[j] == i && DtBucketOf(e, d, j) == DtBucketOf(e, d, i)
  }

  /**
   A well-formed DT_HASH index: chains run down a ranking, so they are finite,
   they stay inside the table, and every symbol but the null one hangs on the
   chain of its bucket.
   */
  ghost predicate DtOk(e: Elf, d: DtTable, rank: seq<nat>, top: nat) {
    && |d.buckets| > 0 && |e.syms| == |d.chain| == |rank|
    && (forall i :: 0 <= i < |rank| ==> rank[i] < top)
    && (forall b :: 0 <= b < |d.buckets| ==> d.buckets[b] == 0 || d.buckets[b] < |d.chain|)
    && (forall i :: 0 < i < |d.chain| ==> d.chain[i] == 0 || (d.chain[i] < |d.chain| && rank[d.chain[i]] < rank[i]))
    && (forall i: nat :: 0 < i < |e.syms| ==> e.syms[i].name <= |e.dynstr| && Linked(e, d, i))
  }

  /** i is on the chain that starts at n. */
  ghost predicate OnChain(d: DtTable, rank: seq<nat>, n: nat, i: nat)
    requires |rank| == |d.chain|
    requires forall k :: 0 < k < |d.chain| ==> d.chain[k] == 0 || (d.chain[k] < |d.chain| && rank[d.chain[k]] < rank[k])
    decreases if 0 < n < |rank| then rank[n] + 1 else 0
  {
    0 < n < |d.chain| && (n == i || OnChain(d, rank, d.chain[n], i))
  }

  lemma {:induction false} ChainExtends(e: Elf, d: DtTable, rank: seq<nat>, top: nat, n: nat, j: nat, i: nat)
    requires DtOk(e, d, rank, top) && OnChain(d, rank, n, j) && 0 < j < |d.chain| && d.chain[j] == i && i != 0
    ensures OnChain(d, rank, n, i)
    decreases rank[n]
  {
    if n == j {
      assert OnChain(d, rank, i, i);
    } else {
      ChainExtends(e, d, rank, top, d.chain[n], j, i);
    }
  }

  /** Every symbol is on the chain of its bucket. */
  lemma {:induction false} OnOwnChain(e: Elf, d: DtTable, rank: seq<nat>, top: nat, i: nat)
    requires DtOk(e, d, rank, top) && 0 < i < |e.syms|
    ensures OnChain(d, rank, d.buckets[DtBucketOf(e, d, i)], i)
    decreases top - rank[i]
  {
    assert Linked(e, d, i);
    if d.buckets[DtBucketOf(e, d, i)] != i {
      var j: nat :| 0 < j < |d.chain| && d.chain[j] == i && DtBucketOf(e, d, j) == DtBucketOf(e, d, i);
      OnOwnChain(e, d, rank, top, j);
      ChainExtends(e, d, rank, top, d.buckets[DtBucketOf(e, d, i)], j, i);
    }
  }

  lemma {:induction false} DtWalkEnds(e: Elf, d: DtTable, rank: seq<nat>, top: nat, name: seq<Byte>, weakOk: bool,
                                      n: nat, seen: set<nat>)
    requires DtOk(e, d, rank, top) && NoFatal(e, 1, name, weakOk) && (n == 0 || n < |d.chain|)
    requires n != 0 ==> forall k :: k in seen ==> k < |rank| && rank[n] < rank[k]
    ensures var r := DtWalk(e, d, name, weakOk, n, seen);
            && (r.Hit? || r.Miss?)
            && (r.Hit? ==> 0 < r.index < |e.syms| && SymCompare(e, e.syms[r.index], name, weakOk) == Match(r.val))
            && (r.Miss? ==> forall i: nat :: i < |e.syms| && OnChain(d, rank, n, i) ==>
                SymCompare(e, e.syms[i], name, weakOk) == NoMatch)
    decreases if n == 0 then 0 else rank[n] + 1
  {
    if n != 0 && SymCompare(e, e.syms[n], name, weakOk) == NoMatch {
      DtWalkEnds(e, d, rank, top, name, weakOk, d.chain[n], seen + {n});
    }
  }

  /** A well-formed DT_HASH lookup ends, and succeeds exactly when some entry but the null one accepts the name. */
  lemma DtLookupIsRight(e: Elf, d: DtTable, rank: seq<nat>, top: nat, name: seq<Byte>, weakOk: bool)
    requires DtOk(e, d, rank, top) && NoFatal(e, 1, name, weakOk)
    ensures Right(e, 1, name, weakOk, DtLookup(e, d, name, weakOk))
  {
    var b := ElfHash(name) % |d.buckets|;
    DtWalkEnds(e, d, rank, top, name, weakOk, d.buckets[b], {});
    if DtLookup(e, d, name, weakOk).Miss? {
      forall i: nat | 1 <= i < |e.syms| ensures !Accepts(e, i, name, weakOk) {
        if SymName(e, i) == name {
          OnOwnChain(e, d, rank, top, i);
        } else {
          OtherNames(e, i, name, weakOk);
        }
      }
    }
  }

  // --------------------------------------------------------------- either index

  /** The first entry that the index covers. */
  function LowIndex(e: Elf): nat {
    match e.index
    case GnuIndex(g) => g.symoffset
    case DtIndex(_) => 1
    case NoIndex => |e.syms|
  }

  ghost predicate IndexOk(e: Elf) {
    match e.index
    case GnuIndex(g) => GnuOk(e, g)
    case DtIndex(d) => exists rank: seq<nat>, top: nat :: DtOk(e, d, rank, top)
    case NoIndex => true
  }

  lemma FindIsRight(e: Elf, name: seq<Byte>, weakOk: bool)
    requires IndexOk(e) && NoFatal(e, LowIndex(e), name, weakOk)
    ensures Right(e, LowIndex(e), name, weakOk, Find(e, name, weakOk))
  {
    match e.index
    case GnuIndex(g) =>
      GnuLookupIsScan(e, g, name, weakOk);
      ScanIsRight(e, g.symoffset, name, weakOk);
    case DtIndex(d) =>
      var rank: seq<nat>, top: nat :| DtOk(e, d, rank, top);
      DtLookupIsRight(e, d, rank, top, name, weakOk);
    case NoIndex =>
  }
}
