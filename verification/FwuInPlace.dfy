/**
 Authentication in place: when the bytes that were verified are the image's own,
 and a discipline of the secure world under which every image that is executed
 holds what was verified.
 */
module FwuInPlace {
  import opened FwuSpec
  import opened FwuRuns
  import opened FwuContent
  import opened FwuHistory
  import opened FwuWrites
  import opened FwuBytes

  // -------------------------------------------------------------- right after it

  /** The call succeeds, and the image holds what was verified. */
  predicate HoldsVerified(p: Platform, r: Outcome, id: U32) {
    && r.Return? && r.code == Success && KnownImage(p, r.next, id)
    && id in r.next.verified && Whole(p, r.next, id) == r.next.verified[id]
  }

  predicate AuthenticatesInPlace(p: Platform, s: Fwu, e: Event) {
    SecureInPlaceAuth(s, e) && KnownImage(p, s, e.id) && Step(p, s, e).Return? && Step(p, s, e).code == Success
  }

  function OneAt(n: nat, k: nat): (mem: seq<Byte>)
    ensures |mem| == n && forall a :: 0 <= a < n ==> mem[a] == if a == k then 1 else 0
  {
    seq(n, a => if a == k then 1 else 0)
  }

  lemma InPlaceResult(p: Platform, s: Fwu, e: Event)
    requires AuthenticatesInPlace(p, s, e)
    ensures 0 < e.size && e.src + e.size <= |s.mem|
    ensures HoldsVerified(p, Step(p, s, e), e.id)
            <==> Region(s.mem, p.attrs[e.id].base, e.size) == Region(s.mem, e.src, e.size)
  {
  }

  lemma SucceedsWithAnyMemory(p: Platform, s: Fwu, e: Event, mem: seq<Byte>)
    requires AuthenticatesInPlace(p, s, e)
    requires |mem| == |s.mem|
    ensures AuthenticatesInPlace(p, s.(mem := mem), e)
  {
  }

  /**
   Whatever the memory holds, an image that the secure world has authenticated in
   place holds the bytes that were verified: this is so exactly if the call named
   the image's own place.
   */
  lemma InPlaceIsItsPlace(p: Platform, s: Fwu, e: Event)
    requires AuthenticatesInPlace(p, s, e)
    ensures (forall mem: seq<Byte> :: |mem| == |s.mem| ==> HoldsVerified(p, Step(p, s.(mem := mem), e), e.id))
            <==> e.src == p.attrs[e.id].base
  {
    var base := p.attrs[e.id].base;
    InPlaceResult(p, s, e);
    if e.src == base {
      forall mem: seq<Byte> | |mem| == |s.mem| ensures HoldsVerified(p, Step(p, s.(mem := mem), e), e.id) {
        SucceedsWithAnyMemory(p, s, e, mem);
        InPlaceResult(p, s.(mem := mem), e);
      }
    } else {
      var mem := OneAt(|s.mem|, e.src);
      SucceedsWithAnyMemory(p, s, e, mem);
      InPlaceResult(p, s.(mem := mem), e);
      assert Region(mem, e.src, e.size)[0] == 1;
      assert base + e.size <= |mem| ==> Region(mem, base, e.size)[0] == 0;
      assert !HoldsVerified(p, Step(p, s.(mem := mem), e), e.id);
    }
  }

  // -------------------------------------------------------- a safe way to use it

  /** A loaded secure image that was authenticated where it lay. */
  predicate Lies(p: Platform, s: Fwu, id: U32) {
    SecureLoaded(p, s, id) && id !in s.byCopy
  }

  /** The call names the image's own place, apart from all images copied in, and nothing is left over. */
  ghost predicate WellPlaced(p: Platform, s: Fwu, e: Event)
    requires e.Auth? && KnownImage(p, s, e.id)
  {
    s.descs[e.id].copiedSize == 0 && e.src == p.attrs[e.id].base && ApartFromAll(p, s, e.id, e.size)
  }

  ghost predicate PlacedIfInPlace(p: Platform, s: Fwu, e: Event) {
    SecureInPlaceAuth(s, e) && KnownImage(p, s, e.id) ==> WellPlaced(p, s, e)
  }

  /** A run in which the secure world authenticates in place only so. */
  ghost predicate AllWellPlaced(p: Platform, states: seq<Fwu>, es: seq<Event>)
    requires |states| == |es| + 1
  {
    forall i :: 0 <= i < |es| ==> PlacedIfInPlace(p, states[i], es[i])
  }

  /** The image is inside memory and apart from all images copied in. */
  ghost predicate Placed(p: Platform, s: Fwu, id: U32)
    requires KnownImage(p, s, id)
  {
    && 0 < s.descs[id].imageSize && p.attrs[id].base + s.descs[id].imageSize <= p.memSize
    && ApartFromAll(p, s, id, s.descs[id].imageSize)
  }

  ghost predicate PlacedInv(p: Platform, s: Fwu) {
    forall id :: Lies(p, s, id) ==> Placed(p, s, id)
  }

  /** Range of image id, of that size, apart from all images that lie in place. */
  ghost predicate ApartFromLying(p: Platform, s: Fwu, id: U32, size: nat)
    requires id in p.attrs
  {
    forall x :: Lies(p, s, x) && x != id ==>
      ApartRanges(p.attrs[x].base, s.descs[x].imageSize, p.attrs[id].base, size)
  }

  lemma OneImagePlaced(p: Platform, s: Fwu, s': Fwu, id: U32)
    requires PlacedInv(p, s) && OnlyImage(s, s', id) && id in p.attrs
    requires Lies(p, s', id) ==>
               && 0 < s'.descs[id].imageSize && p.attrs[id].base + s'.descs[id].imageSize <= p.memSize
               && ApartFromAll(p, s, id, s'.descs[id].imageSize)
    requires CopiedIn(p, s', id) ==> ApartFromLying(p, s, id, s'.descs[id].imageSize)
    ensures PlacedInv(p, s')
  {
    forall x | x != id
      ensures (x in s'.byCopy <==> x in s.byCopy) && (x in s.descs <==> x in s'.descs)
      ensures x in s.descs ==> s'.descs[x] == s.descs[x]
    {
      assert x in s'.byCopy - {id} <==> x in s.byCopy - {id};
    }
    forall x | Lies(p, s', x) ensures Placed(p, s', x) {
      assert x != id ==> Lies(p, s, x) && Placed(p, s, x);
      forall y | CopiedIn(p, s', y) && y != x
        ensures ApartRanges(p.attrs[x].base, s'.descs[x].imageSize, p.attrs[y].base, s'.descs[y].imageSize)
      {
        assert y != id ==> CopiedIn(p, s, y);
      }
    }
  }

  /** An image that was copied in before is apart from all that lie in place. */
  lemma WasApartFromLying(p: Platform, s: Fwu, id: U32)
    requires PlacedInv(p, s) && CopiedIn(p, s, id)
    ensures ApartFromLying(p, s, id, s.descs[id].imageSize)
  {
    forall x | Lies(p, s, x) && x != id
      ensures ApartRanges(p.attrs[x].base, s.descs[x].imageSize, p.attrs[id].base, s.descs[id].imageSize)
    {
      assert Placed(p, s, x);
    }
  }

  /** The overlap check separates the new image from these as well. */
  lemma ClearMeansApartFromLying(p: Platform, s: Fwu, id: U32, size: U32)
    requires PlatformOk(p) && Inv(p, s) && PlacedInv(p, s) && id in p.attrs && 0 < size <= p.attrs[id].maxSize
    requires CheckOverlaps(p, s.descs, s.loaded, id, size, 0).Clear?
    ensures ApartFromLying(p, s, id, size)
  {
    OverlapCheckMeaning(p, s, id, size, 0);
    forall x | Lies(p, s, x) && x != id
      ensures ApartRanges(p.attrs[x].base, s.descs[x].imageSize, p.attrs[id].base, size)
    {
      assert x in s.loaded;
      var j :| 0 <= j < |s.loaded| && s.loaded[j] == x;
      assert Apart(p, s, x, id, size) && Placed(p, s, x);
    }
  }

  lemma CopyPlaced(p: Platform, s: Fwu, s': Fwu, e: Event)
    requires PlatformOk(p) && Inv(p, s) && ContentInv(p, s) && PlacedInv(p, s) && CopyEffect(p, s, s', e)
    ensures PlacedInv(p, s')
  {
    if s' == s.(loaded := s'.loaded) {
      assert OnlyImage(s, s', p.bootId);
      OneImagePlaced(p, s, s', p.bootId);
    } else if s.descs[e.id].state == Copying {
      WasApartFromLying(p, s, e.id);
      OneImagePlaced(p, s, s', e.id);
    } else if s'.descs[e.id].state == Reset {
      OneImagePlaced(p, s, s', e.id);
    } else {
      ClearMeansApartFromLying(p, s, e.id, e.imageSize);
      OneImagePlaced(p, s, s', e.id);
    }
  }

  lemma AuthPlaced(p: Platform, s: Fwu, e: Event)
    requires PlatformOk(p) && Inv(p, s) && ContentInv(p, s) && PlacedInv(p, s) && e.Auth? && Step(p, s, e).Return?
    requires PlacedIfInPlace(p, s, e)
    ensures PlacedInv(p, Step(p, s, e).next)
  {
    var s' := Step(p, s, e).next;
    if s' != s {
      if CopiedIn(p, s, e.id) { WasApartFromLying(p, s, e.id); }
      OneImagePlaced(p, s, s', e.id);
    }
  }

  lemma OtherPlaced(p: Platform, s: Fwu, e: Event)
    requires PlatformOk(p) && Inv(p, s) && PlacedInv(p, s) && (e.Execute? || e.Resume? || e.Done? || e.ResetImage?)
    requires Step(p, s, e).Return?
    ensures PlacedInv(p, Step(p, s, e).next)
  {
    var s' := Step(p, s, e).next;
    if s' != s {
      var id := if e.Resume? || e.Done? then s.secExec else e.id;
      if CopiedIn(p, s, id) { WasApartFromLying(p, s, id); }
      assert Lies(p, s, id) ==> Placed(p, s, id);
      OneImagePlaced(p, s, s', id);
    }
  }

  lemma StepPlaced(p: Platform, s: Fwu, e: Event)
    requires PlatformOk(p) && Inv(p, s) && ContentInv(p, s) && PlacedInv(p, s) && Step(p, s, e).Return?
    requires PlacedIfInPlace(p, s, e)
    ensures PlacedInv(p, Step(p, s, e).next)
  {
    match e
    case Copy(_, _, _, _, _, _) =>
      CopyShape(p, s, e);
      CopyPlaced(p, s, Step(p, s, e).next, e);
    case Auth(_, _, _, _, _, _) => AuthPlaced(p, s, e);
    case Environment(mem) =>
      assert OnlyImage(s, s.(mem := mem), p.bootId);
      OneImagePlaced(p, s, s.(mem := mem), p.bootId);
    case _ => OtherPlaced(p, s, e);
  }

  lemma {:induction false} RunPlaced(p: Platform, states: seq<Fwu>, es: seq<Event>, n: nat)
    requires PlatformOk(p) && IsRun(p, states, es) && AllWellPlaced(p, states, es) && n <= |es|
    ensures PlacedInv(p, states[n])
  {
    if n > 0 {
      RunPlaced(p, states, es, n - 1);
      InvInRun(p, states, es, n - 1);
      assert StepsTo(p, states[n - 1], es[n - 1], states[n - 1 + 1]);
      StepPlaced(p, states[n - 1], es[n - 1]);
    }
  }

  // ------------------------------------------------ nothing is written into it

  predicate MissesAll(w: Write, base: nat, size: nat) {
    w.data == [] || ApartRanges(w.at, |w.data|, base, size)
  }

  lemma MissedIsNotOverwritten(w: Write, mem: seq<Byte>, base: nat, size: nat)
    requires MissesAll(w, base, size)
    ensures !Overwrites(w, mem, base, size)
  {
  }

  /** A range that starts at an image copied in and does not reach beyond it misses those that lie in place. */
  lemma WithinIsApart(p: Platform, s: Fwu, y: U32, at: nat, len: nat, id: U32)
    requires PlacedInv(p, s) && Lies(p, s, id) && CopiedIn(p, s, y)
    requires p.attrs[y].base <= at && at + len <= p.attrs[y].base + s.descs[y].imageSize
    ensures ApartRanges(at, len, p.attrs[id].base, s.descs[id].imageSize)
  {
    assert Placed(p, s, id);
  }

  /** A held secure image with bytes copied is one that was copied in, unless something is stale. */
  lemma IsCopiedIn(p: Platform, s: Fwu, y: U32)
    requires Inv(p, s) && ContentInv(p, s) && NothingStale(p, s) && KnownImage(p, s, y)
    requires s.descs[y].state != Reset && s.descs[y].copiedSize > 0
    ensures CopiedIn(p, s, y) && Sized(p, s, y)
  {
    assert SizesOk(p.attrs[y], s.descs[y]);
    assert SecureLoaded(p, s, y);
  }

  lemma WriteMisses(p: Platform, s: Fwu, e: Event, s': Fwu, id: U32)
    requires Inv(p, s) && ContentInv(p, s) && NothingStale(p, s) && PlacedInv(p, s)
    requires Inv(p, s') && ContentInv(p, s') && NothingStale(p, s') && PlacedInv(p, s')
    requires Lies(p, s, id) && Lies(p, s', id) && s'.descs[id] == s.descs[id] && s.descs[id].state == Authenticated
    ensures MissesAll(Written(p, s, e, s'), p.attrs[id].base, s.descs[id].imageSize)
  {
    var w := Written(p, s, e, s');
    if w.data != [] {
      var y := e.id;
      var s0 := if e.Copy? then s' else s;
      assert SizesOk(p.attrs[y], s.descs[y]);
      IsCopiedIn(p, s0, y);
      WithinIsApart(p, s0, y, w.at, |w.data|, id);
    }
  }

  lemma OkIsClean(p: Platform, states: seq<Fwu>, es: seq<Event>)
    requires PlatformOk(p) && IsRun(p, states, es) && AllWellPlaced(p, states, es)
    ensures CleanInPlace(states, es)
  {
    forall i | 0 <= i < |es| && SecureInPlaceAuth(states[i], es[i]) && es[i].id in states[i].descs
      ensures states[i].descs[es[i].id].copiedSize == 0
    {
      InvInRun(p, states, es, i);
      assert PlacedIfInPlace(p, states[i], es[i]);
    }
  }

  lemma NothingOverwritten(p: Platform, states: seq<Fwu>, es: seq<Event>, id: U32, i: nat)
    requires PlatformOk(p) && IsRun(p, states, es) && AllWellPlaced(p, states, es) && AllVouched(p, states, es)
    requires VerifiedAt(states, es, id, i, |es|) && LayThere(p, states, es, id, i)
    ensures NoOverwrites(p, states, es, p.attrs[id].base, states[|es|].descs[id].imageSize, i, |es|)
  {
    OkIsClean(p, states, es);
    var base, size := p.attrs[id].base, states[|es|].descs[id].imageSize;
    forall k | i <= k < |es| ensures !Overwrites(WrittenAt(p, states, es, k), states[k].mem, base, size) {
      if k == i {
        assert WrittenAt(p, states, es, k).data == [];
      } else {
        InvInRun(p, states, es, k);
        InvInRun(p, states, es, k + 1);
        RunPlaced(p, states, es, k);
        RunPlaced(p, states, es, k + 1);
        RecordStays(p, states, es, id, i, k);
        RecordStays(p, states, es, id, i, k + 1);
        SameAtEnd(p, states, es, id, i, k);
        assert StepsTo(p, states[k], es[k], states[k + 1]);
        WriteMisses(p, states[k], es[k], states[k + 1], id);
      }
      MissedIsNotOverwritten(WrittenAt(p, states, es, k), states[k].mem, base, size);
    }
  }

  ghost predicate LayThere(p: Platform, states: seq<Fwu>, es: seq<Event>, id: U32, i: nat)
    requires |states| == |es| + 1 && i < |es|
  {
    SecureLoaded(p, states[|es|], id) && InState(states[i], id, Reset) && SecureInPlaceAuth(states[i], es[i])
  }

  lemma SameAtEnd(p: Platform, states: seq<Fwu>, es: seq<Event>, id: U32, i: nat, k: nat)
    requires AllVouched(p, states, es) && VerifiedAt(states, es, id, i, |es|) && i < k < |es|
    requires InState(states[i], id, Reset)
    ensures id in states[k].descs && id in states[|es|].descs && states[k].descs[id] == states[|es|].descs[id]
  {
    RecordStays(p, states, es, id, i, k);
    RecordStays(p, states, es, id, i, |es|);
  }

  /**
   In every run in which the secure world authenticates in place only at the
   image's own place, apart from all images copied in and with no copied size
   left over, every image handed to execution holds the bytes that were verified.
   */
  lemma ExecutedBytesAreVerified(p: Platform, states: seq<Fwu>, es: seq<Event>, id: U32)
    requires PlatformOk(p) && IsRun(p, states, es) && AllWellPlaced(p, states, es)
    requires ImageExecute(p, states[|es|], id).code == Success
    ensures var s := states[|es|];
            KnownImage(p, s, id) && id in s.verified && Whole(p, s, id) == s.verified[id] != []
  {
    OkIsClean(p, states, es);
    var i := ExecutedBytesWereCopiedAndVerified(p, states, es, id);
    if !InState(states[i], id, Copied) {
      RunIsVouched(p, states, es);
      assert PlacedIfInPlace(p, states[i], es[i]);
      NothingOverwritten(p, states, es, id, i);
    }
  }
}
