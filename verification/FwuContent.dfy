/**
 Where secure images stand in memory, over every run: images loaded by copying
 are apart from each other, and exactly one kind of call can still write into
 one of them, the reset of another image whose copied size is left over from
 before it was authenticated in place.
 */
module FwuContent {
  import opened FwuSpec
  import opened FwuRuns

  // ---------------------------------------------------------------- memory

  predicate ApartRanges(base: nat, size: nat, base': nat, size': nat) {
    base + size <= base' || base' + size' <= base
  }

  lemma StoreElsewhere(mem: seq<Byte>, base: nat, data: seq<Byte>, base': nat, size': nat)
    requires ApartRanges(base, |data|, base', size')
    ensures Region(Store(mem, base, data), base', size') == Region(mem, base', size')
  {
  }

  lemma StoreAppends(mem: seq<Byte>, base: nat, n: nat, data: seq<Byte>)
    requires base + n + |data| <= |mem|
    ensures Region(Store(mem, base + n, data), base, n + |data|) == Region(mem, base, n) + data
  {
  }

  predicate InBoth(a: nat, base: nat, size: nat, base': nat, size': nat) {
    base <= a < base + size && base' <= a < base' + size'
  }

  /** Each byte is the old one, or it has become zero. */
  predicate KeptOrZero(before: seq<Byte>, after: seq<Byte>) {
    |before| == |after| && forall j :: 0 <= j < |before| ==> after[j] == before[j] || after[j] == 0
  }

  /** Some byte that is not zero lies in both ranges. */
  ghost predicate Meet(mem: seq<Byte>, base: nat, size: nat, base': nat, size': nat) {
    exists a: nat :: a < |mem| && InBoth(a, base, size, base', size') && mem[a] != 0
  }

  /** Zeroing one range changes another exactly where they meet. */
  lemma ZerosMeet(mem: seq<Byte>, base: nat, size: nat, base': nat, size': nat)
    requires base + size <= |mem| && base' + size' <= |mem|
    ensures var zeroed := Store(mem, base, Zeros(size));
            && KeptOrZero(Region(mem, base', size'), Region(zeroed, base', size'))
            && (Region(zeroed, base', size') == Region(mem, base', size') <==> !Meet(mem, base, size, base', size'))
  {
    var zeroed := Store(mem, base, Zeros(size));
    var before, after := Region(mem, base', size'), Region(zeroed, base', size');
    assert forall a :: 0 <= a < |mem| ==> zeroed[a] == if base <= a < base + size then 0 else mem[a];
    assert forall j :: 0 <= j < size' ==> before[j] == mem[base' + j] && after[j] == zeroed[base' + j];
    if Meet(mem, base, size, base', size') {
      var a: nat :| a < |mem| && InBoth(a, base, size, base', size') && mem[a] != 0;
      assert before[a - base'] != after[a - base'];
    } else {
      forall j | 0 <= j < size' ensures before[j] == after[j] {
        var a := base' + j;
        assert InBoth(a, base, size, base', size') ==> mem[a] == 0;
      }
    }
  }

  // -------------------------------------------------------------- invariant

  predicate SecureLoaded(p: Platform, s: Fwu, id: U32) {
    KnownImage(p, s, id) && p.attrs[id].world == Secure && s.descs[id].state != Reset
  }

  /** A loaded secure image that was copied into its place, not authenticated where it lay. */
  predicate CopiedIn(p: Platform, s: Fwu, id: U32) {
    SecureLoaded(p, s, id) && id in s.byCopy
  }

  /** It is sized, inside its slot of memory, and fully copied unless COPYING. */
  predicate Sized(p: Platform, s: Fwu, id: U32)
    requires KnownImage(p, s, id)
  {
    var d := s.descs[id];
    && 0 < d.copiedSize <= d.imageSize <= p.attrs[id].maxSize
    && (d.state != Copying ==> d.copiedSize == d.imageSize)
  }

  predicate SeparateImages(p: Platform, s: Fwu, a: U32, b: U32)
    requires KnownImage(p, s, a) && KnownImage(p, s, b)
  {
    ApartRanges(p.attrs[a].base, s.descs[a].imageSize, p.attrs[b].base, s.descs[b].imageSize)
  }

  /** Images copied in are sized and apart; COPYING and COPIED are states of such images only. */
  ghost predicate ContentInv(p: Platform, s: Fwu) {
    && (forall id :: CopiedIn(p, s, id) ==> Sized(p, s, id))
    && (forall a, b :: CopiedIn(p, s, a) && CopiedIn(p, s, b) && a != b ==> SeparateImages(p, s, a, b))
    && (forall id :: id in s.descs && (s.descs[id].state == Copying || s.descs[id].state == Copied) ==> id in s.byCopy)
  }

  /** s' differs from s in the descriptor of image id only, and in whether that was copied in. */
  predicate OnlyImage(s: Fwu, s': Fwu, id: U32) {
    && id in s.descs && id in s'.descs && s'.descs == s.descs[id := s'.descs[id]]
    && s'.byCopy - {id} == s.byCopy - {id}
  }

  ghost predicate ApartFromAll(p: Platform, s: Fwu, id: U32, size: nat)
    requires id in p.attrs
  {
    forall x :: CopiedIn(p, s, x) && x != id ==>
      ApartRanges(p.attrs[id].base, size, p.attrs[x].base, s.descs[x].imageSize)
  }

  /** A step on one image: it keeps its size, or is apart from all others, or is not one copied in. */
  lemma OneImageContent(p: Platform, s: Fwu, s': Fwu, id: U32)
    requires ContentInv(p, s) && OnlyImage(s, s', id)
    requires (s'.descs[id].state == Copying || s'.descs[id].state == Copied) ==> id in s'.byCopy
    requires CopiedIn(p, s', id) ==> Sized(p, s', id) && ApartFromAll(p, s, id, s'.descs[id].imageSize)
    ensures ContentInv(p, s')
  {
    forall x | x != id && x in s'.descs ensures x in s.descs && s'.descs[x] == s.descs[x] {
    }
    forall x | x != id ensures x in s'.byCopy <==> x in s.byCopy {
      assert x in s'.byCopy - {id} <==> x in s.byCopy - {id};
    }
    forall x | x != id ensures CopiedIn(p, s', x) <==> CopiedIn(p, s, x) {
    }
    forall a, b | CopiedIn(p, s', a) && CopiedIn(p, s', b) && a != b ensures SeparateImages(p, s', a, b) {
      assert a != id && b != id ==> SeparateImages(p, s, a, b);
    }
  }

  /** An image that was copied in before is apart from all others at its size. */
  lemma WasApart(p: Platform, s: Fwu, id: U32)
    requires ContentInv(p, s) && CopiedIn(p, s, id)
    ensures ApartFromAll(p, s, id, s.descs[id].imageSize) && Sized(p, s, id)
  {
    forall x | CopiedIn(p, s, x) && x != id
      ensures ApartRanges(p.attrs[id].base, s.descs[id].imageSize, p.attrs[x].base, s.descs[x].imageSize)
    {
      assert SeparateImages(p, s, id, x);
    }
  }

  // ------------------------------------------------- each handler keeps it

  /** The overlap check really separates the new image from every image copied in. */
  lemma ClearMeansApart(p: Platform, s: Fwu, id: U32, size: U32)
    requires PlatformOk(p) && Inv(p, s) && ContentInv(p, s)
    requires id in p.attrs && 0 < size <= p.attrs[id].maxSize
    requires CheckOverlaps(p, s.descs, s.loaded, id, size, 0).Clear?
    ensures ApartFromAll(p, s, id, size)
  {
    OverlapCheckMeaning(p, s, id, size, 0);
    forall x | CopiedIn(p, s, x) && x != id
      ensures ApartRanges(p.attrs[id].base, size, p.attrs[x].base, s.descs[x].imageSize)
    {
      assert x in s.loaded;
      var j :| 0 <= j < |s.loaded| && s.loaded[j] == x;
      assert Apart(p, s, x, id, size) && Sized(p, s, x);
    }
  }

  /** s' is s after block data went into image id, whose descriptor stood at d (state, copied, size). */
  predicate BlockCopied(p: Platform, s: Fwu, s': Fwu, id: U32, d: Desc, data: seq<Byte>)
    requires id in p.attrs
  {
    && 0 < |data| <= d.imageSize - d.copiedSize
    && s'.descs == s.descs[id := Desc(if d.copiedSize + |data| == d.imageSize then Copied else Copying,
                                      d.copiedSize + |data|, d.imageSize)]
    && s'.mem == Store(s.mem, p.attrs[id].base + d.copiedSize, data)
    && s'.byCopy == s.byCopy + {id}
    && s'.verified == s.verified
  }

  function Clipped(s: Fwu, d: Desc, src: nat, blockSize: U32): seq<Byte>
    requires d.copiedSize <= d.imageSize
  {
    var n := Min(blockSize, d.imageSize - d.copiedSize);
    if src + n <= |s.mem| then s.mem[src..src + n] else []
  }

  /** A copy leaves an image in RESET or unchanged and writes nothing, or puts its clipped block in place. */
  predicate CopyEffect(p: Platform, s: Fwu, s': Fwu, e: Event) {
    || s' == s.(loaded := s'.loaded)
    || (&& e.Copy? && KnownImage(p, s, e.id) && p.attrs[e.id].world == Secure
        && var d := s.descs[e.id]; var d0 := Desc(Reset, 0, e.imageSize);
           || (d.state == Copying && d.copiedSize < d.imageSize
               && BlockCopied(p, s, s', e.id, d, Clipped(s, d, e.src, e.blockSize)))
           || (d.state == Reset && e.id in s'.descs && s'.descs[e.id].state == Reset
               && s' == s.(descs := s.descs[e.id := s'.descs[e.id]], loaded := s'.loaded))
           || (d.state == Reset && 0 < e.imageSize <= p.attrs[e.id].maxSize
               && CheckOverlaps(p, s.descs, s.loaded, e.id, e.imageSize, 0).Clear?
               && BlockCopied(p, s, s', e.id, d0, Clipped(s, d0, e.src, e.blockSize))))
  }

  lemma BlockShape(p: Platform, s: Fwu, s1: Fwu, id: U32, src: nat, blockSize: U32, mapped: bool, preLoadOk: bool)
    requires KnownImage(p, s, id) && id in s1.descs && s1 == SetDesc(s, id, s1.descs[id])
    requires s1.descs[id].copiedSize < s1.descs[id].imageSize && blockSize > 0
    ensures var r := CopyBlock(p, s1, id, src, blockSize, mapped, preLoadOk);
            && r.Return?
            && (|| (r.next == s1.(loaded := r.next.loaded))
                || BlockCopied(p, s, r.next, id, s1.descs[id], Clipped(s, s1.descs[id], src, blockSize)))
  {
  }

  lemma CopyShape(p: Platform, s: Fwu, e: Event)
    requires e.Copy? && Step(p, s, e).Return?
    ensures CopyEffect(p, s, Step(p, s, e).next, e)
  {
    if KnownImage(p, s, e.id) && e.blockSize > 0 {
      var d := s.descs[e.id];
      if d.state == Copying && d.copiedSize < d.imageSize {
        assert s == SetDesc(s, e.id, d);
        BlockShape(p, s, s, e.id, e.src, e.blockSize, e.mapped, e.preLoadOk);
      } else if d.state == Reset && e.imageSize > 0 {
        BlockShape(p, s, SetDesc(s, e.id, Desc(Reset, 0, e.imageSize)), e.id, e.src, e.blockSize, e.mapped,
                   e.preLoadOk);
      }
    }
  }

  lemma CopyContent(p: Platform, s: Fwu, s': Fwu, e: Event)
    requires PlatformOk(p) && Inv(p, s) && ContentInv(p, s) && CopyEffect(p, s, s', e)
    ensures ContentInv(p, s')
  {
    if s' == s.(loaded := s'.loaded) {
      assert OnlyImage(s, s', p.bootId);
      OneImageContent(p, s, s', p.bootId);
    } else if s.descs[e.id].state == Copying {
      WasApart(p, s, e.id);
      OneImageContent(p, s, s', e.id);
    } else if s'.descs[e.id].state == Reset {
      OneImageContent(p, s, s', e.id);
    } else {
      ClearMeansApart(p, s, e.id, e.imageSize);
      OneImageContent(p, s, s', e.id);
    }
  }

  lemma AuthContent(p: Platform, s: Fwu, e: Event)
    requires PlatformOk(p) && Inv(p, s) && ContentInv(p, s) && e.Auth? && Step(p, s, e).Return?
    ensures ContentInv(p, Step(p, s, e).next)
  {
    var s' := Step(p, s, e).next;
    if s' != s {
      if CopiedIn(p, s, e.id) { WasApart(p, s, e.id); }
      OneImageContent(p, s, s', e.id);
    }
  }

  lemma ControlContent(p: Platform, s: Fwu, e: Event)
    requires PlatformOk(p) && Inv(p, s) && ContentInv(p, s) && (e.Execute? || e.Resume? || e.Done?)
    requires Step(p, s, e).Return?
    ensures ContentInv(p, Step(p, s, e).next)
  {
    var s' := Step(p, s, e).next;
    if s' != s {
      var id := if e.Execute? then e.id else s.secExec;
      if CopiedIn(p, s, id) { WasApart(p, s, id); }
      OneImageContent(p, s, s', id);
    }
  }

  lemma ResetContent(p: Platform, s: Fwu, e: Event)
    requires PlatformOk(p) && Inv(p, s) && ContentInv(p, s) && e.ResetImage? && Step(p, s, e).Return?
    ensures ContentInv(p, Step(p, s, e).next)
  {
    var s' := Step(p, s, e).next;
    if s' != s { OneImageContent(p, s, s', e.id); }
  }

  lemma StepContent(p: Platform, s: Fwu, e: Event)
    requires PlatformOk(p) && Inv(p, s) && ContentInv(p, s) && Step(p, s, e).Return?
    ensures ContentInv(p, Step(p, s, e).next)
  {
    match e
    case Copy(_, _, _, _, _, _) =>
      CopyShape(p, s, e);
      CopyContent(p, s, Step(p, s, e).next, e);
    case Auth(_, _, _, _, _, _) => AuthContent(p, s, e);
    case ResetImage(_) => ResetContent(p, s, e);
    case Environment(mem) =>
      assert OnlyImage(s, s.(mem := mem), p.bootId);
      OneImageContent(p, s, s.(mem := mem), p.bootId);
    case _ => ControlContent(p, s, e);
  }

  /** In every state of every run, images copied in are sized and apart. */
  lemma {:induction false} RunContent(p: Platform, states: seq<Fwu>, es: seq<Event>)
    requires PlatformOk(p) && IsRun(p, states, es)
    ensures ContentInv(p, states[|es|])
    decreases |es|
  {
    if es != [] {
      var n := |es| - 1;
      assert IsRun(p, states[..n + 1], es[..n]);
      RunContent(p, states[..n + 1], es[..n]);
      RunKeeps(p, states, es);
      assert StepsTo(p, states[n], es[n], states[n + 1]);
      StepContent(p, states[n], es[n]);
    }
  }

  // --------------------------------------------- who writes into another image

  predicate Concerns(s: Fwu, e: Event, id: U32) {
    match e
    case Resume => s.secExec == id
    case Done => s.secExec == id
    case Environment(_) => false
    case _ => e.id == id
  }

  /**
   The call resets another image that is loaded, and the bytes it counts as
   copied into that image include one of the first n bytes of image id that is
   not zero.
   */
  ghost predicate Hits(p: Platform, s: Fwu, e: Event, id: U32, n: nat)
    requires KnownImage(p, s, id)
  {
    && e.ResetImage? && e.id != id && s.world == NonSecure && KnownImage(p, s, e.id) && s.descs[e.id].state != Reset
    && Meet(s.mem, p.attrs[e.id].base, s.descs[e.id].copiedSize, p.attrs[id].base, n)
  }

  /** The first n bytes of image id: unchanged exactly if the call does not hit them, and otherwise zeroed in part. */
  ghost predicate WrittenIfHit(p: Platform, s: Fwu, e: Event, s': Fwu, id: U32, n: nat)
    requires KnownImage(p, s, id)
  {
    && KeptOrZero(Region(s.mem, p.attrs[id].base, n), Region(s'.mem, p.attrs[id].base, n))
    && (Region(s'.mem, p.attrs[id].base, n) == Region(s.mem, p.attrs[id].base, n) <==> !Hits(p, s, e, id, n))
  }

  lemma BlockElsewhere(p: Platform, s: Fwu, s': Fwu, other: U32, d: Desc, data: seq<Byte>, id: U32, n: nat)
    requires KnownImage(p, s, id) && other in p.attrs && BlockCopied(p, s, s', other, d, data)
    requires n <= s.descs[id].imageSize
    requires ApartRanges(p.attrs[other].base, d.imageSize, p.attrs[id].base, s.descs[id].imageSize)
    ensures Region(s'.mem, p.attrs[id].base, n) == Region(s.mem, p.attrs[id].base, n)
  {
    StoreElsewhere(s.mem, p.attrs[other].base + d.copiedSize, data, p.attrs[id].base, n);
  }

  lemma CopyElsewhere(p: Platform, s: Fwu, s': Fwu, e: Event, id: U32, n: nat)
    requires PlatformOk(p) && Inv(p, s) && ContentInv(p, s) && CopiedIn(p, s, id) && n <= s.descs[id].imageSize
    requires CopyEffect(p, s, s', e) && e.Copy? && e.id != id
    ensures Region(s'.mem, p.attrs[id].base, n) == Region(s.mem, p.attrs[id].base, n)
  {
    if s'.mem != s.mem {
      var d, d0 := s.descs[e.id], Desc(Reset, 0, e.imageSize);
      if d.state == Copying {
        assert CopiedIn(p, s, e.id) && SeparateImages(p, s, e.id, id);
        BlockElsewhere(p, s, s', e.id, d, Clipped(s, d, e.src, e.blockSize), id, n);
      } else {
        ClearMeansApart(p, s, e.id, e.imageSize);
        BlockElsewhere(p, s, s', e.id, d0, Clipped(s, d0, e.src, e.blockSize), id, n);
      }
    }
  }

  lemma AuthElsewhere(p: Platform, s: Fwu, e: Event, id: U32, n: nat)
    requires PlatformOk(p) && Inv(p, s) && ContentInv(p, s) && CopiedIn(p, s, id) && n <= s.descs[id].imageSize
    requires e.Auth? && e.id != id && Step(p, s, e).Return?
    ensures Region(Step(p, s, e).next.mem, p.attrs[id].base, n) == Region(s.mem, p.attrs[id].base, n)
  {
    if Step(p, s, e).next.mem != s.mem {
      assert CopiedIn(p, s, e.id) && SeparateImages(p, s, e.id, id);
      StoreElsewhere(s.mem, p.attrs[e.id].base, Zeros(s.descs[e.id].imageSize), p.attrs[id].base, n);
    }
  }

  /** What a reset writes. */
  lemma ResetWrites(p: Platform, s: Fwu, e: Event)
    requires PlatformOk(p) && Inv(p, s) && e.ResetImage? && Step(p, s, e).Return?
    ensures Step(p, s, e).next.mem
            == if s.world == NonSecure && KnownImage(p, s, e.id) && s.descs[e.id].state != Reset
                  && s.descs[e.id].copiedSize != 0
               then Store(s.mem, p.attrs[e.id].base, Zeros(s.descs[e.id].copiedSize)) else s.mem
  {
    if KnownImage(p, s, e.id) { RemoveKeepsTable(s.loaded, e.id); }
  }

  lemma ResetElsewhere(p: Platform, s: Fwu, e: Event, id: U32, n: nat)
    requires PlatformOk(p) && Inv(p, s) && ContentInv(p, s) && CopiedIn(p, s, id) && n <= s.descs[id].imageSize
    requires e.ResetImage? && e.id != id && Step(p, s, e).Return?
    ensures WrittenIfHit(p, s, e, Step(p, s, e).next, id, n)
  {
    ResetWrites(p, s, e);
    assert Sized(p, s, id);
    if KnownImage(p, s, e.id) {
      assert SizesOk(p.attrs[e.id], s.descs[e.id]);
      ZerosMeet(s.mem, p.attrs[e.id].base, s.descs[e.id].copiedSize, p.attrs[id].base, n);
    }
  }

  /** Of all calls that do not concern an image copied in, exactly those that hit it change its bytes. */
  lemma WriteElsewhere(p: Platform, s: Fwu, e: Event, id: U32, n: nat)
    requires PlatformOk(p) && Inv(p, s) && ContentInv(p, s) && CopiedIn(p, s, id) && n <= s.descs[id].imageSize
    requires !Concerns(s, e, id) && !e.Environment? && Step(p, s, e).Return?
    ensures WrittenIfHit(p, s, e, Step(p, s, e).next, id, n)
  {
    match e
    case Copy(_, _, _, _, _, _) =>
      CopyShape(p, s, e);
      CopyElsewhere(p, s, Step(p, s, e).next, e, id, n);
    case Auth(_, _, _, _, _, _) => AuthElsewhere(p, s, e, id, n);
    case ResetImage(_) => ResetElsewhere(p, s, e, id, n);
    case _ =>
  }

  /** A hit is always the reset of an image that was authenticated in place, with a copied size left over. */
  lemma HitsAreStale(p: Platform, s: Fwu, e: Event, id: U32, n: nat)
    requires PlatformOk(p) && Inv(p, s) && ContentInv(p, s) && CopiedIn(p, s, id) && n <= s.descs[id].imageSize
    requires Hits(p, s, e, id, n)
    ensures SecureLoaded(p, s, e.id) && !CopiedIn(p, s, e.id) && s.descs[e.id].copiedSize > 0
  {
    assert SizesOk(p.attrs[e.id], s.descs[e.id]);
    assert CopiedIn(p, s, e.id) ==> Sized(p, s, e.id);
    assert CopiedIn(p, s, e.id) ==> SeparateImages(p, s, e.id, id);
  }

  // ------------------------------------------------------- nothing left over

  /** Images authenticated in place have no copied size left over. */
  ghost predicate NothingStale(p: Platform, s: Fwu) {
    forall id :: SecureLoaded(p, s, id) && !CopiedIn(p, s, id) ==> s.descs[id].copiedSize == 0
  }

  /** A step on one image leaves nothing stale in the others. */
  lemma OneImageStale(p: Platform, s: Fwu, s': Fwu, id: U32)
    requires NothingStale(p, s) && OnlyImage(s, s', id)
    requires SecureLoaded(p, s', id) && !CopiedIn(p, s', id) ==> s'.descs[id].copiedSize == 0
    ensures NothingStale(p, s')
  {
    forall x | SecureLoaded(p, s', x) && !CopiedIn(p, s', x) && x != id ensures s'.descs[x].copiedSize == 0 {
      assert x in s'.byCopy - {id} <==> x in s.byCopy - {id};
      assert SecureLoaded(p, s, x) && !CopiedIn(p, s, x);
    }
  }

  lemma CopyStale(p: Platform, s: Fwu, s': Fwu, e: Event)
    requires PlatformOk(p) && Inv(p, s) && NothingStale(p, s) && CopyEffect(p, s, s', e)
    ensures NothingStale(p, s')
  {
    var id := if s' == s.(loaded := s'.loaded) then p.bootId else e.id;
    assert OnlyImage(s, s', id);
    OneImageStale(p, s, s', id);
  }

  lemma AuthStale(p: Platform, s: Fwu, e: Event)
    requires PlatformOk(p) && Inv(p, s) && ContentInv(p, s) && NothingStale(p, s) && e.Auth? && Step(p, s, e).Return?
    requires s.world == Secure && e.id in s.descs ==> s.descs[e.id].copiedSize == 0
    ensures NothingStale(p, Step(p, s, e).next)
  {
    if Step(p, s, e).next != s { OneImageStale(p, s, Step(p, s, e).next, e.id); }
  }

  lemma OtherStale(p: Platform, s: Fwu, e: Event)
    requires PlatformOk(p) && Inv(p, s) && NothingStale(p, s) && (e.Execute? || e.Resume? || e.Done? || e.ResetImage?)
    requires Step(p, s, e).Return?
    ensures NothingStale(p, Step(p, s, e).next)
  {
    if Step(p, s, e).next != s {
      OneImageStale(p, s, Step(p, s, e).next, if e.Resume? || e.Done? then s.secExec else e.id);
    }
  }

  lemma StepStale(p: Platform, s: Fwu, e: Event)
    requires PlatformOk(p) && Inv(p, s) && ContentInv(p, s) && NothingStale(p, s) && Step(p, s, e).Return?
    requires SecureInPlaceAuth(s, e) && e.id in s.descs ==> s.descs[e.id].copiedSize == 0
    ensures NothingStale(p, Step(p, s, e).next)
  {
    match e
    case Copy(_, _, _, _, _, _) =>
      CopyShape(p, s, e);
      CopyStale(p, s, Step(p, s, e).next, e);
    case Auth(_, _, _, _, _, _) => AuthStale(p, s, e);
    case Environment(mem) => OneImageStale(p, s, s.(mem := mem), p.bootId);
    case _ => OtherStale(p, s, e);
  }

  /** In a run that authenticates in place only images with nothing left over, it stays so. */
  lemma {:induction false} RunStale(p: Platform, states: seq<Fwu>, es: seq<Event>)
    requires PlatformOk(p) && IsRun(p, states, es) && CleanInPlace(states, es)
    ensures NothingStale(p, states[|es|])
    decreases |es|
  {
    if es != [] {
      var n := |es| - 1;
      assert IsRun(p, states[..n + 1], es[..n]) && CleanInPlace(states[..n + 1], es[..n]);
      RunStale(p, states[..n + 1], es[..n]);
      RunContent(p, states[..n + 1], es[..n]);
      RunKeeps(p, states, es);
      assert StepsTo(p, states[n], es[n], states[n + 1]);
      StepStale(p, states[n], es[n]);
    }
  }

  // ------------------------------------------------------------ main results

  /**
   In every run, a copy, a failed authentication's wipe, a reset or any other
   call on another image changes a byte of an image copied in exactly if it is
   the reset of an image whose left-over copied bytes meet it. No call does in a
   run that authenticates in place only images with nothing left over.
   */
  lemma OtherImagesAreNotWritten(p: Platform, states: seq<Fwu>, es: seq<Event>, e: Event, id: U32)
    requires PlatformOk(p) && IsRun(p, states, es)
    requires CopiedIn(p, states[|es|], id) && !Concerns(states[|es|], e, id)
    requires !e.Environment? && Step(p, states[|es|], e).Return?
    ensures var s := states[|es|]; var n := s.descs[id].imageSize;
            && WrittenIfHit(p, s, e, Step(p, s, e).next, id, n)
            && (Hits(p, s, e, id, n) ==>
                  SecureLoaded(p, s, e.id) && !CopiedIn(p, s, e.id) && s.descs[e.id].copiedSize > 0)
            && (CleanInPlace(states, es) ==> !Hits(p, s, e, id, n))
  {
    var s := states[|es|];
    var n := s.descs[id].imageSize;
    RunContent(p, states, es);
    RunKeeps(p, states, es);
    WriteElsewhere(p, s, e, id, n);
    if Hits(p, s, e, id, n) { HitsAreStale(p, s, e, id, n); }
    if CleanInPlace(states, es) { RunStale(p, states, es); }
  }
}
