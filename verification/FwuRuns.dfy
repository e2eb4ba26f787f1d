/**
 What every firmware-update run keeps: the loaded-ID table mirrors the image
 states, at most one image executes, and which assertions can and cannot fire.
 */
module FwuRuns {
  import opened FwuSpec

  // ------------------------------------------------------ loaded-ID table

  predicate Distinct(ids: seq<U32>) {
    forall i, j :: 0 <= i < j < |ids| && ids[i] == ids[j] ==> ids[i] == INVALID_IMAGE_ID
  }

  /** after holds what before held, and id exactly when present says so. */
  ghost predicate Holds(after: seq<U32>, before: seq<U32>, id: U32, present: bool) {
    forall x: U32 :: x != INVALID_IMAGE_ID ==> (x in after <==> if x == id then present else x in before)
  }

  lemma AddKeepsTable(ids: seq<U32>, id: U32)
    requires Distinct(ids) && id != INVALID_IMAGE_ID
    ensures AddLoaded(ids, id).Fits? ==> Distinct(AddLoaded(ids, id).ids)
    ensures AddLoaded(ids, id).Fits? ==> Holds(AddLoaded(ids, id).ids, ids, id, true)
    ensures AddLoaded(ids, id).Full? <==> id !in ids && INVALID_IMAGE_ID !in ids
  {
    var k := FindSlot(ids, INVALID_IMAGE_ID, 0);
    if id !in ids && k < |ids| {
      var ids' := ids[k := id];
      assert ids'[k] == id;
      forall x: U32 | x != INVALID_IMAGE_ID && x in ids ensures x in ids' {
        var j :| 0 <= j < |ids| && ids[j] == x;
        assert ids'[j] == x;
      }
    }
  }

  lemma RemoveKeepsTable(ids: seq<U32>, id: U32)
    requires Distinct(ids) && id != INVALID_IMAGE_ID
    ensures RemoveLoaded(ids, id).Fits? ==> Distinct(RemoveLoaded(ids, id).ids)
    ensures RemoveLoaded(ids, id).Fits? ==> Holds(RemoveLoaded(ids, id).ids, ids, id, false)
    ensures RemoveLoaded(ids, id).Fits? <==> id in ids
  {
    var k := FindSlot(ids, id, 0);
    if k < |ids| {
      var ids' := ids[k := INVALID_IMAGE_ID];
      forall x: U32 | x != INVALID_IMAGE_ID && x in ids && x != id ensures x in ids' {
        var j :| 0 <= j < |ids| && ids[j] == x;
        assert ids'[j] == x;
      }
    }
  }

  // -------------------------------------------------------------- invariant

  /** Loaded IDs are distinct and are exactly the SMC-driven images not in RESET. */
  ghost predicate TableInv(p: Platform, s: Fwu) {
    && s.descs.Keys == p.attrs.Keys
    && Distinct(s.loaded)
    && (forall id: U32 :: id != INVALID_IMAGE_ID ==>
          (id in s.loaded <==> id in s.descs && s.descs[id].state != Reset && id != p.bootId))
  }

  /** One image executes, only while the secure world runs, and it is secExec. */
  ghost predicate ExecInv(p: Platform, s: Fwu) {
    && s.descs.Keys == p.attrs.Keys
    && p.bootId in s.descs && s.descs[p.bootId].state == Executed
    && (forall id :: id in s.descs && id != p.bootId && s.descs[id].state == Executed ==>
          s.world == Secure && id == s.secExec)
    && (s.secExec != INVALID_IMAGE_ID ==>
          s.secExec in p.attrs && s.secExec != p.bootId
          && p.attrs[s.secExec].world == Secure && p.attrs[s.secExec].executable)
    && (s.world == Secure ==> s.secExec in s.descs && s.descs[s.secExec].state == Executed)
  }

  predicate SizesOk(a: Attr, d: Desc) {
    && (d.state == Copying ==> 0 < d.copiedSize < d.imageSize <= a.maxSize)
    && (d.state == Copied ==> 0 < d.copiedSize == d.imageSize <= a.maxSize)
    && (d.copiedSize != 0 ==> a.world == Secure)
    && d.copiedSize <= a.maxSize
  }

  ghost predicate SizeInv(p: Platform, s: Fwu) {
    && s.descs.Keys == p.attrs.Keys
    && |s.mem| == p.memSize
    && forall id :: id in s.descs ==> SizesOk(p.attrs[id], s.descs[id])
  }

  ghost predicate Inv(p: Platform, s: Fwu) {
    TableInv(p, s) && ExecInv(p, s) && SizeInv(p, s)
  }

  // ------------------------------------------------- each handler keeps it

  /** A handler that moves one image between non-executing states keeps the invariant. */
  lemma OneImage(p: Platform, s: Fwu, s': Fwu, id: U32, d: Desc)
    requires PlatformOk(p) && Inv(p, s)
    requires id in p.attrs && s.descs[id].state != Executed && d.state != Executed
    requires s'.descs == s.descs[id := d] && SizesOk(p.attrs[id], d)
    requires Distinct(s'.loaded) && Holds(s'.loaded, s.loaded, id, d.state != Reset)
    requires |s'.mem| == |s.mem| && s'.secExec == s.secExec && s'.world == s.world
    ensures Inv(p, s')
  {
  }

  lemma CopyBlockKeeps(p: Platform, s: Fwu, s0: Fwu, id: U32, src: nat, blockSize: U32, mapped: bool, preLoadOk: bool)
    requires PlatformOk(p) && Inv(p, s0) && id in p.attrs && p.attrs[id].world == Secure
    requires s0.descs[id].state == Reset || s0.descs[id].state == Copying
    requires id in s.descs && s == s0.(descs := s0.descs[id := s.descs[id]])
    requires s.descs[id].state == s0.descs[id].state
    requires s.descs[id].copiedSize < s.descs[id].imageSize <= p.attrs[id].maxSize
    requires s.descs[id].state == Copying ==> 0 < s.descs[id].copiedSize
    requires blockSize > 0
    ensures var r := CopyBlock(p, s, id, src, blockSize, mapped, preLoadOk);
            r.Return? && Inv(p, r.next)
  {
    var r := CopyBlock(p, s, id, src, blockSize, mapped, preLoadOk);
    AddKeepsTable(s.loaded, id);
    if AddLoaded(s.loaded, id).Fits? {
      RemoveKeepsTable(AddLoaded(s.loaded, id).ids, id);
    }
    OneImage(p, s0, r.next, id, r.next.descs[id]);
  }

  lemma CopyKeeps(p: Platform, s: Fwu, id: U32, src: nat, blockSize: U32, imageSize: U32, mapped: bool, preLoadOk: bool)
    requires PlatformOk(p) && Inv(p, s)
    ensures var r := ImageCopy(p, s, id, src, blockSize, imageSize, mapped, preLoadOk);
            r.Return? ==> Inv(p, r.next)
  {
    var r := ImageCopy(p, s, id, src, blockSize, imageSize, mapped, preLoadOk);
    if KnownImage(p, s, id) && r.Return? && r.next != s {
      var d := s.descs[id];
      if d.state == Copying {
        CopyBlockKeeps(p, s, s, id, src, blockSize, mapped, preLoadOk);
      } else if CheckOverlaps(p, s.descs, s.loaded, id, imageSize, 0).Clash? {
        OneImage(p, s, r.next, id, d.(imageSize := 0));
      } else {
        CopyBlockKeeps(p, SetDesc(s, id, d.(imageSize := imageSize, copiedSize := 0)), s, id, src, blockSize, mapped,
                       preLoadOk);
      }
    }
  }

  lemma AuthKeeps(p: Platform, s: Fwu, id: U32, src: nat, size: U32, mapped: bool, verifyOk: bool, postLoadOk: bool)
    requires PlatformOk(p) && Inv(p, s)
    ensures var r := ImageAuth(p, s, id, src, size, mapped, verifyOk, postLoadOk);
            r.Return? ==> Inv(p, r.next)
  {
    var r := ImageAuth(p, s, id, src, size, mapped, verifyOk, postLoadOk);
    if KnownImage(p, s, id) && r.Return? && r.next != s {
      AddKeepsTable(s.loaded, id);
      RemoveKeepsTable(s.loaded, id);
      if AddLoaded(s.loaded, id).Fits? {
        RemoveKeepsTable(AddLoaded(s.loaded, id).ids, id);
      }
      OneImage(p, s, r.next, id, r.next.descs[id]);
    }
  }

  lemma ResetKeeps(p: Platform, s: Fwu, id: U32)
    requires PlatformOk(p) && Inv(p, s)
    ensures ImageReset(p, s, id).Return? ==> Inv(p, ImageReset(p, s, id).next)
  {
    var r := ImageReset(p, s, id);
    if KnownImage(p, s, id) && r.Return? && r.next != s {
      RemoveKeepsTable(s.loaded, id);
      OneImage(p, s, r.next, id, Desc(Reset, 0, 0));
    }
  }

  lemma ExecuteKeeps(p: Platform, s: Fwu, id: U32)
    requires PlatformOk(p) && Inv(p, s)
    ensures ImageExecute(p, s, id).Return? && Inv(p, ImageExecute(p, s, id).next)
  {
  }

  lemma ResumeKeeps(p: Platform, s: Fwu)
    requires PlatformOk(p) && Inv(p, s)
    ensures ImageResume(p, s).Return? ==> Inv(p, ImageResume(p, s).next)
  {
    var r := ImageResume(p, s);
    if r.Return? && r.next != s {
      ResumeKeepsTable(p, s, r.next);
    }
  }

  lemma ResumeKeepsTable(p: Platform, s: Fwu, s': Fwu)
    requires PlatformOk(p) && Inv(p, s) && s.secExec in s.descs && s'.loaded == s.loaded && s'.mem == s.mem
    requires s.descs[s.secExec].state == Executed || s.descs[s.secExec].state == Interrupted
    requires exists state :: (state == Executed || state == Interrupted)
                             && s'.descs == s.descs[s.secExec := s.descs[s.secExec].(state := state)]
    ensures TableInv(p, s') && SizeInv(p, s')
  {
  }

  lemma DoneKeeps(p: Platform, s: Fwu)
    requires PlatformOk(p) && Inv(p, s)
    ensures SecImageDone(p, s).Return? && Inv(p, SecImageDone(p, s).next)
  {
    if s.world == Secure {
      RemoveKeepsTable(s.loaded, s.secExec);
    }
  }

  lemma StepKeeps(p: Platform, s: Fwu, e: Event)
    requires PlatformOk(p) && Inv(p, s) && Legal(p, s, e)
    ensures Step(p, s, e).Return? ==> Inv(p, Step(p, s, e).next)
  {
    match e
    case Copy(id, src, blockSize, imageSize, mapped, preLoadOk) =>
      CopyKeeps(p, s, id, src, blockSize, imageSize, mapped, preLoadOk);
    case Auth(id, src, size, mapped, verifyOk, postLoadOk) =>
      AuthKeeps(p, s, id, src, size, mapped, verifyOk, postLoadOk);
    case Execute(id) => ExecuteKeeps(p, s, id);
    case Resume => ResumeKeeps(p, s);
    case Done => DoneKeeps(p, s);
    case ResetImage(id) => ResetKeeps(p, s, id);
    case Environment(_) =>
  }

  /** Every state of every run satisfies the invariant. */
  lemma {:induction false} RunKeeps(p: Platform, states: seq<Fwu>, es: seq<Event>)
    requires PlatformOk(p) && IsRun(p, states, es)
    ensures forall i :: 0 <= i < |states| ==> Inv(p, states[i])
    decreases |es|
  {
    if es != [] {
      var n := |es| - 1;
      assert IsRun(p, states[..n + 1], es[..n]);
      RunKeeps(p, states[..n + 1], es[..n]);
      assert Inv(p, states[..n + 1][n]);
      StepKeeps(p, states[n], es[n]);
      assert states == states[..n + 1] + [states[n + 1]];
    }
  }

  // ------------------------------------------------ assertions that can fire

  /** A first copy request that gets as far as the overlap check. */
  predicate StartsCopy(p: Platform, s: Fwu, e: Event) {
    && e.Copy? && KnownImage(p, s, e.id) && s.world == NonSecure
    && p.attrs[e.id].world == Secure && s.descs[e.id].state == Reset
    && e.src != 0 && e.blockSize != 0 && !AddressOverflow(e.src, e.blockSize)
    && 0 < e.imageSize <= p.attrs[e.id].maxSize
  }

  /** The image in this slot ends at or before its own first byte: one byte long, or wrapping. */
  predicate Degenerate(p: Platform, s: Fwu, slot: U32) {
    KnownImage(p, s, slot) && s.descs[slot].imageSize != 0
    && LastAddress(p.attrs[slot].base, s.descs[slot].imageSize) <= p.attrs[slot].base
  }

  predicate Apart(p: Platform, s: Fwu, slot: U32, id: U32, size: U32)
    requires id in p.attrs && size > 0
  {
    || !KnownImage(p, s, slot)
    || s.descs[slot].imageSize == 0
    || LastAddress(p.attrs[slot].base, s.descs[slot].imageSize) < p.attrs[id].base
    || LastAddress(p.attrs[id].base, size) < p.attrs[slot].base
  }

  /** Slot k holds another image that is degenerate, and no earlier slot stops the check. */
  ghost predicate FirstDegenerate(p: Platform, s: Fwu, id: U32, size: U32, k: int)
    requires id in p.attrs && size > 0
  {
    && 0 <= k < |s.loaded| && s.loaded[k] != id && Degenerate(p, s, s.loaded[k])
    && forall j :: 0 <= j < k && s.loaded[j] != id ==>
         !Degenerate(p, s, s.loaded[j]) && Apart(p, s, s.loaded[j], id, size)
  }

  lemma OverlapCheckMeaning(p: Platform, s: Fwu, id: U32, size: U32, i: nat)
    requires PlatformOk(p) && Inv(p, s) && id in p.attrs && size > 0 && i <= |s.loaded|
    requires forall j :: 0 <= j < i && s.loaded[j] != id ==>
               !Degenerate(p, s, s.loaded[j]) && Apart(p, s, s.loaded[j], id, size)
    ensures var r := CheckOverlaps(p, s.descs, s.loaded, id, size, i);
            && (r.Trap? ==> r.line == 210)
            && (r.Trap? <==> exists k :: FirstDegenerate(p, s, id, size, k))
            && (r.Clear? <==> forall j :: 0 <= j < |s.loaded| && s.loaded[j] != id ==>
                  !Degenerate(p, s, s.loaded[j]) && Apart(p, s, s.loaded[j], id, size))
    decreases |s.loaded| - i
  {
    if i < |s.loaded| {
      var slot := s.loaded[i];
      var r := CheckSlot(p, s.descs, slot, id, size);
      assert slot != INVALID_IMAGE_ID ==> KnownImage(p, s, slot) && s.descs[slot].state != Reset;
      if r.Clear? {
        OverlapCheckMeaning(p, s, id, size, i + 1);
      } else if r.Trap? {
        assert FirstDegenerate(p, s, id, size, i);
      } else {
        forall k ensures !FirstDegenerate(p, s, id, size, k) {
        }
      }
    }
  }

  /** Which assertion an event fires, and exactly when. */
  ghost predicate FiresAsTold(p: Platform, s: Fwu, e: Event) {
    var r := Step(p, s, e);
    && (r.AssertFailed? ==> r.line in {210, 587, 744})
    && (r == AssertFailed(744) <==> e == ResetImage(p.bootId) && s.world == NonSecure)
    && (r == AssertFailed(587) <==>
          e.Resume? && s.world == NonSecure && s.secExec in s.descs && s.descs[s.secExec].state != Interrupted)
    && (r == AssertFailed(210) <==>
          StartsCopy(p, s, e) && exists k :: FirstDegenerate(p, s, e.id, e.imageSize, k))
  }

  lemma CopyFires(p: Platform, s: Fwu, e: Event)
    requires PlatformOk(p) && Inv(p, s) && e.Copy?
    ensures FiresAsTold(p, s, e)
  {
    if KnownImage(p, s, e.id) { assert SizesOk(p.attrs[e.id], s.descs[e.id]); }
    if StartsCopy(p, s, e) { OverlapCheckMeaning(p, s, e.id, e.imageSize, 0); }
  }

  lemma ResumeFires(p: Platform, s: Fwu)
    requires PlatformOk(p) && Inv(p, s)
    ensures FiresAsTold(p, s, Resume)
  {
  }

  lemma DoneFires(p: Platform, s: Fwu)
    requires PlatformOk(p) && Inv(p, s)
    ensures FiresAsTold(p, s, Done)
  {
    if s.world == Secure { RemoveKeepsTable(s.loaded, s.secExec); }
  }

  lemma ResetFires(p: Platform, s: Fwu, e: Event)
    requires PlatformOk(p) && Inv(p, s) && e.ResetImage?
    ensures FiresAsTold(p, s, e)
  {
    if KnownImage(p, s, e.id) { assert SizesOk(p.attrs[e.id], s.descs[e.id]); }
  }

  /**
   In every run only three assertions can fire, and exactly these calls make
   them fire; all the others are unreachable.
   */
  lemma AssertionsThatFire(p: Platform, states: seq<Fwu>, es: seq<Event>, e: Event)
    requires PlatformOk(p) && IsRun(p, states, es)
    ensures FiresAsTold(p, states[|es|], e)
  {
    RunKeeps(p, states, es);
    match e
    case Copy(_, _, _, _, _, _) => CopyFires(p, states[|es|], e);
    case Resume => ResumeFires(p, states[|es|]);
    case Done => DoneFires(p, states[|es|]);
    case ResetImage(_) => ResetFires(p, states[|es|], e);
    case _ =>
  }
}
