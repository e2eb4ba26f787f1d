/** What each call answers, over every run: exactly when it succeeds, and what it then does. */
module FwuReplies {
  import opened FwuSpec
  import opened FwuRuns
  import opened FwuContent
  import opened FwuHistory
  import opened FwuInterrupt

  predicate Succeeds(p: Platform, s: Fwu, e: Event) {
    Step(p, s, e).Return? && Step(p, s, e).code == Success
  }

  // ------------------------------------------------------------------------ copy

  /** How far an image is when it is copied to, and how large it is to become. */
  function Progress(s: Fwu, e: Event): Desc
    requires e.Copy? && e.id in s.descs
  {
    if s.descs[e.id].state == Copying then s.descs[e.id] else Desc(Reset, 0, e.imageSize)
  }

  /** There is such an image, it is secure, and it is the normal world that asks. */
  predicate MayCopy(p: Platform, s: Fwu, e: Event)
    requires e.Copy?
  {
    && KnownImage(p, s, e.id) && p.attrs[e.id].world == Secure && s.world == NonSecure
    && (s.descs[e.id].state == Reset || s.descs[e.id].state == Copying)
  }

  /** The block is a real one, mapped, and what is to be copied of it lies in memory. */
  predicate GoodBlock(p: Platform, s: Fwu, e: Event)
    requires e.Copy? && MayCopy(p, s, e)
  {
    var left := Progress(s, e).imageSize - Progress(s, e).copiedSize;
    && e.src != 0 && 0 < e.blockSize && e.src + e.blockSize < 0x1_0000_0000_0000_0000 && e.mapped
    && e.src + (if e.blockSize < left then e.blockSize else left) <= |s.mem|
  }

  /** A new image fits its place, is apart from all loaded ones, there is a slot for it, and the platform lets it in. */
  predicate MayBegin(p: Platform, s: Fwu, e: Event)
    requires e.Copy? && MayCopy(p, s, e)
  {
    && 0 < e.imageSize <= p.attrs[e.id].maxSize && INVALID_IMAGE_ID in s.loaded && e.preLoadOk
    && forall j :: 0 <= j < |s.loaded| && s.loaded[j] != e.id ==>
         !Degenerate(p, s, s.loaded[j]) && Apart(p, s, s.loaded[j], e.id, e.imageSize)
  }

  lemma BlockReplies(p: Platform, s: Fwu, s1: Fwu, id: U32, src: nat, blockSize: U32, mapped: bool, preLoadOk: bool)
    requires KnownImage(p, s, id) && id in s1.descs && s1 == SetDesc(s, id, s1.descs[id])
    requires s1.descs[id].copiedSize < s1.descs[id].imageSize && blockSize > 0
    ensures var r := CopyBlock(p, s1, id, src, blockSize, mapped, preLoadOk);
            var left := s1.descs[id].imageSize - s1.descs[id].copiedSize;
            && r.Return?
            && (r.code == Success
                <==> && mapped && src + (if blockSize < left then blockSize else left) <= |s.mem|
                     && AddLoaded(s.loaded, id).Fits? && (s1.descs[id].state == Reset ==> preLoadOk))
            && (r.code == Success ==>
                  && r.next.loaded == AddLoaded(s.loaded, id).ids
                  && BlockCopied(p, s, r.next, id, s1.descs[id], Clipped(s, s1.descs[id], src, blockSize)))
  {
  }

  /** What a copy that succeeds has done. */
  predicate Copies(p: Platform, s: Fwu, e: Event, s': Fwu)
    requires e.Copy? && KnownImage(p, s, e.id)
  {
    var d := Progress(s, e);
    && d.copiedSize < d.imageSize && e.id in s'.loaded
    && BlockCopied(p, s, s', e.id, d, Clipped(s, d, e.src, e.blockSize))
  }

  lemma GoingOnReplies(p: Platform, s: Fwu, e: Event)
    requires PlatformOk(p) && Inv(p, s) && e.Copy? && MayCopy(p, s, e) && s.descs[e.id].state == Copying
    ensures Succeeds(p, s, e) <==> GoodBlock(p, s, e)
    ensures Succeeds(p, s, e) ==> Copies(p, s, e, Step(p, s, e).next)
  {
    assert SizesOk(p.attrs[e.id], s.descs[e.id]);
    AddKeepsTable(s.loaded, e.id);
    assert s == SetDesc(s, e.id, s.descs[e.id]);
    if e.blockSize > 0 { BlockReplies(p, s, s, e.id, e.src, e.blockSize, e.mapped, e.preLoadOk); }
  }

  /** The request itself is in order. */
  predicate GoodRequest(p: Platform, e: Event)
    requires e.Copy? && e.id in p.attrs
  {
    && e.src != 0 && 0 < e.blockSize && e.src + e.blockSize < 0x1_0000_0000_0000_0000
    && 0 < e.imageSize <= p.attrs[e.id].maxSize
  }

  /** A copy that is to begin comes down to its first block, once the request is in order and nothing is in the way. */
  lemma BeginIsBlock(p: Platform, s: Fwu, e: Event)
    requires e.Copy? && MayCopy(p, s, e) && s.descs[e.id].state == Reset
    ensures !GoodRequest(p, e) ==> !Succeeds(p, s, e)
    ensures GoodRequest(p, e) ==>
              if CheckOverlaps(p, s.descs, s.loaded, e.id, e.imageSize, 0).Clear? then
                Step(p, s, e) == CopyBlock(p, SetDesc(s, e.id, Desc(Reset, 0, e.imageSize)), e.id, e.src, e.blockSize,
                                           e.mapped, e.preLoadOk)
              else !Succeeds(p, s, e)
  {
  }

  lemma NewImageSlot(p: Platform, s: Fwu, id: U32)
    requires PlatformOk(p) && Inv(p, s) && KnownImage(p, s, id) && s.descs[id].state == Reset
    ensures AddLoaded(s.loaded, id).Fits? <==> INVALID_IMAGE_ID in s.loaded
    ensures AddLoaded(s.loaded, id).Fits? ==> id in AddLoaded(s.loaded, id).ids
  {
    AddKeepsTable(s.loaded, id);
  }

  lemma BeginReplies(p: Platform, s: Fwu, e: Event)
    requires PlatformOk(p) && Inv(p, s) && e.Copy? && MayCopy(p, s, e) && s.descs[e.id].state == Reset
    ensures Succeeds(p, s, e) <==> GoodBlock(p, s, e) && MayBegin(p, s, e)
    ensures Succeeds(p, s, e) ==> Copies(p, s, e, Step(p, s, e).next)
  {
    BeginIsBlock(p, s, e);
    NewImageSlot(p, s, e.id);
    if GoodRequest(p, e) {
      OverlapCheckMeaning(p, s, e.id, e.imageSize, 0);
      var s1 := SetDesc(s, e.id, Desc(Reset, 0, e.imageSize));
      BlockReplies(p, s, s1, e.id, e.src, e.blockSize, e.mapped, e.preLoadOk);
    }
  }

  lemma CopyReplies(p: Platform, s: Fwu, e: Event)
    requires PlatformOk(p) && Inv(p, s) && e.Copy?
    ensures Succeeds(p, s, e)
            <==> MayCopy(p, s, e) && GoodBlock(p, s, e) && (s.descs[e.id].state == Reset ==> MayBegin(p, s, e))
    ensures Succeeds(p, s, e) ==> Copies(p, s, e, Step(p, s, e).next)
    ensures !MayCopy(p, s, e) ==> Step(p, s, e) == Return(EPerm, s)
  {
    if MayCopy(p, s, e) {
      if s.descs[e.id].state == Copying { GoingOnReplies(p, s, e); } else { BeginReplies(p, s, e); }
    }
  }

  ghost predicate InTheWay(p: Platform, s: Fwu, e: Event)
    requires e.Copy? && MayCopy(p, s, e) && e.imageSize > 0
  {
    exists j :: 0 <= j < |s.loaded| && s.loaded[j] != e.id
                && (Degenerate(p, s, s.loaded[j]) || !Apart(p, s, s.loaded[j], e.id, e.imageSize))
  }

  /**
   A copy that may be made but does not succeed is refused for lack of memory,
   unless it is to begin and another image is in the way, or only the platform
   does not let it in.
   */
  lemma CopyRefusals(p: Platform, s: Fwu, e: Event)
    requires PlatformOk(p) && Inv(p, s) && e.Copy? && MayCopy(p, s, e) && Step(p, s, e).Return? && !Succeeds(p, s, e)
    ensures Step(p, s, e).code
            == if && s.descs[e.id].state == Reset && GoodRequest(p, e)
                  && (InTheWay(p, s, e) || (GoodBlock(p, s, e) && INVALID_IMAGE_ID in s.loaded))
               then EPerm else ENoMem
    ensures Step(p, s, e).next.mem == s.mem
  {
    if s.descs[e.id].state == Reset {
      NewImageSlot(p, s, e.id);
      BeginIsBlock(p, s, e);
      if GoodRequest(p, e) { OverlapCheckMeaning(p, s, e.id, e.imageSize, 0); }
    } else {
      assert SizesOk(p.attrs[e.id], s.descs[e.id]);
      AddKeepsTable(s.loaded, e.id);
    }
  }

  lemma AddThenRemove(ids: seq<U32>, id: U32)
    requires id !in ids && AddLoaded(ids, id).Fits?
    ensures RemoveOrKeep(AddLoaded(ids, id).ids, id) == ids
  {
    var k := FindSlot(ids, INVALID_IMAGE_ID, 0);
    var more := ids[k := id];
    assert more[k] == id;
    assert FindSlot(more, id, 0) == k;
    assert more[k := INVALID_IMAGE_ID] == ids;
  }

  /** The sizes that a refused copy leaves in the descriptor: for an image in the way 0, else those asked for. */
  ghost function SizesLeft(p: Platform, s: Fwu, e: Event): Desc
    requires e.Copy? && MayCopy(p, s, e)
  {
    var d := s.descs[e.id];
    if d.state == Copying || !GoodRequest(p, e) then d
    else if InTheWay(p, s, e) then d.(imageSize := 0)
    else d.(imageSize := e.imageSize, copiedSize := 0)
  }

  lemma BlockRefusalLeaves(p: Platform, s: Fwu, id: U32, src: nat, blockSize: U32, mapped: bool, preLoadOk: bool)
    requires KnownImage(p, s, id) && s.descs[id].copiedSize < s.descs[id].imageSize && blockSize > 0
    requires s.descs[id].state == Reset ==> id !in s.loaded
    requires CopyBlock(p, s, id, src, blockSize, mapped, preLoadOk).code != Success
    ensures CopyBlock(p, s, id, src, blockSize, mapped, preLoadOk).next == s
  {
    if AddLoaded(s.loaded, id).Fits? && id !in s.loaded { AddThenRemove(s.loaded, id); }
  }

  /** A copy that may be made and is refused changes nothing but these sizes: no byte, no slot, no state. */
  lemma CopyRefusalLeaves(p: Platform, s: Fwu, e: Event)
    requires PlatformOk(p) && Inv(p, s) && e.Copy? && MayCopy(p, s, e) && Step(p, s, e).Return? && !Succeeds(p, s, e)
    ensures Step(p, s, e).next == SetDesc(s, e.id, SizesLeft(p, s, e))
  {
    assert s == SetDesc(s, e.id, s.descs[e.id]);
    if s.descs[e.id].state == Reset {
      NewImageSlot(p, s, e.id);
      BeginIsBlock(p, s, e);
      if GoodRequest(p, e) {
        OverlapCheckMeaning(p, s, e.id, e.imageSize, 0);
        var s1 := SetDesc(s, e.id, Desc(Reset, 0, e.imageSize));
        if !InTheWay(p, s, e) { BlockRefusalLeaves(p, s1, e.id, e.src, e.blockSize, e.mapped, e.preLoadOk); }
      }
    } else {
      assert SizesOk(p.attrs[e.id], s.descs[e.id]);
    }
  }

  // -------------------------------------------------------------- authentication

  /** The normal world has a secure image verified that is fully copied. */
  predicate OfCopied(p: Platform, s: Fwu, e: Event)
    requires e.Auth?
  {
    && KnownImage(p, s, e.id) && p.attrs[e.id].world == Secure && s.world == NonSecure
    && s.descs[e.id].state == Copied
  }

  /** An image in RESET is verified where it lies, as far as there is memory and a slot for it. */
  predicate OfLying(p: Platform, s: Fwu, e: Event)
    requires e.Auth?
  {
    && KnownImage(p, s, e.id) && (p.attrs[e.id].world == NonSecure || s.world == World.Secure)
    && s.descs[e.id].state == Reset
    && e.src != 0 && 0 < e.size && e.src + e.size < 0x1_0000_0000_0000_0000 && e.mapped && e.src + e.size <= |s.mem|
    && INVALID_IMAGE_ID in s.loaded
  }

  lemma AuthReplies(p: Platform, s: Fwu, e: Event)
    requires PlatformOk(p) && Inv(p, s) && e.Auth?
    ensures Succeeds(p, s, e) <==> (OfCopied(p, s, e) || OfLying(p, s, e)) && e.verifyOk && e.postLoadOk
    ensures Step(p, s, e) == PlatformError <==>
              (OfCopied(p, s, e) || OfLying(p, s, e)) && e.verifyOk && !e.postLoadOk
    ensures Step(p, s, e).Return? && Step(p, s, e).code == EAuth <==>
              (OfCopied(p, s, e) || OfLying(p, s, e)) && !e.verifyOk
    ensures Succeeds(p, s, e) ==>
              var s' := Step(p, s, e).next;
              && s'.descs == s.descs[e.id := s'.descs[e.id]] && s'.descs[e.id].state == Authenticated
              && s'.mem == s.mem && s'.world == s.world && s'.secExec == s.secExec && e.id in s'.loaded
    ensures Step(p, s, e).Return? && Step(p, s, e).code == EAuth ==>
              var s' := Step(p, s, e).next;
              && InState(s', e.id, Reset) && e.id !in s'.loaded
              && s'.mem == (if OfCopied(p, s, e) then
                              Store(s.mem, p.attrs[e.id].base, Zeros(s.descs[e.id].imageSize)) else s.mem)
  {
    if KnownImage(p, s, e.id) {
      AddKeepsTable(s.loaded, e.id);
      RemoveKeepsTable(s.loaded, e.id);
      if AddLoaded(s.loaded, e.id).Fits? { RemoveKeepsTable(AddLoaded(s.loaded, e.id).ids, e.id); }
    }
  }

  /** Otherwise it is refused: not permitted for an image in another state, else for lack of memory. */
  lemma AuthRefusals(p: Platform, s: Fwu, e: Event)
    requires PlatformOk(p) && Inv(p, s) && e.Auth? && !OfCopied(p, s, e) && !OfLying(p, s, e)
    ensures Step(p, s, e)
            == Return(if && KnownImage(p, s, e.id) && s.descs[e.id].state == Reset
                         && (p.attrs[e.id].world == NonSecure || s.world == World.Secure) then ENoMem else EPerm, s)
  {
    if KnownImage(p, s, e.id) { AddKeepsTable(s.loaded, e.id); }
  }

  /** The descriptor that authentication leaves, whether it works or not; in place a failure costs no slot. */
  lemma AuthLeaves(p: Platform, s: Fwu, e: Event)
    requires PlatformOk(p) && Inv(p, s) && e.Auth? && Step(p, s, e).Return?
    requires OfCopied(p, s, e) || OfLying(p, s, e)
    ensures var s', d := Step(p, s, e).next, s.descs[e.id];
            var left := d.(state := if e.verifyOk then Authenticated else Reset);
            && s'.descs == s.descs[e.id := if OfCopied(p, s, e) then left else left.(imageSize := e.size)]
            && (OfLying(p, s, e) && !e.verifyOk ==> s' == s.(descs := s'.descs))
  {
    AddKeepsTable(s.loaded, e.id);
    if OfLying(p, s, e) { AddThenRemove(s.loaded, e.id); }
  }

  // ------------------------------------------------------------ running the images

  lemma ExecuteReplies(p: Platform, s: Fwu, e: Event)
    requires e.Execute?
    ensures Succeeds(p, s, e)
            <==> && s.world == NonSecure && KnownImage(p, s, e.id) && p.attrs[e.id].world == Secure
                 && p.attrs[e.id].executable && s.descs[e.id].state == Authenticated
    ensures Step(p, s, e).Return?
    ensures var s' := Step(p, s, e).next;
            if Succeeds(p, s, e) then
              s' == s.(descs := s.descs[e.id := s.descs[e.id].(state := Executed)], secExec := e.id,
                       world := World.Secure)
            else s' == s && Step(p, s, e).code == EPerm
  {
  }

  /** The secure world's resume always works, and the normal world's one takes it back: the very same state. */
  lemma ResumeComesBack(p: Platform, s: Fwu)
    requires PlatformOk(p) && Inv(p, s) && s.world == World.Secure
    ensures Succeeds(p, s, Resume)
    ensures var s1 := Step(p, s, Resume).next;
            && s1.world == NonSecure && s1.secExec == s.secExec && InState(s1, s.secExec, Interrupted)
            && Succeeds(p, s1, Resume) && Step(p, s1, Resume).next == s
  {
    var s1 := Step(p, s, Resume).next;
    var s2 := Step(p, s1, Resume).next;
    assert s2.descs == s.descs;
  }

  /**
   In every run, the normal world's resume succeeds exactly if a secure image is
   named and was not reset while interrupted. Then that image goes on, in the
   secure world, and nothing else changes; with no image named it is refused.
   */
  lemma ResumeReplies(p: Platform, states: seq<Fwu>, es: seq<Event>)
    requires PlatformOk(p) && IsRun(p, states, es) && states[|es|].world == NonSecure
    ensures var s := states[|es|];
            && (Succeeds(p, s, Resume) <==> s.secExec != INVALID_IMAGE_ID && !WasReset(states, es, |es|))
            && (Succeeds(p, s, Resume) ==>
                  && s.secExec in s.descs
                  && var d := s.descs[s.secExec].(state := Executed);
                     Step(p, s, Resume).next == s.(descs := s.descs[s.secExec := d], world := World.Secure))
            && (Step(p, s, Resume) == Return(EPerm, s) <==> s.secExec == INVALID_IMAGE_ID)
  {
    InvInRun(p, states, es, |es|);
    ResumeTrapsAfterReset(p, states, es);
  }

  /** The secure image's end is always accepted from the secure world, and never from the normal one. */
  lemma DoneReplies(p: Platform, s: Fwu)
    requires PlatformOk(p) && Inv(p, s)
    ensures Succeeds(p, s, FwuSpec.Done) <==> s.world == World.Secure
    ensures s.world == NonSecure ==> Step(p, s, FwuSpec.Done) == Return(EPerm, s)
    ensures s.world == World.Secure ==>
              var s' := Step(p, s, FwuSpec.Done).next;
              && s.secExec in s.descs && s.secExec !in s'.loaded
              && s' == s.(descs := s.descs[s.secExec := s.descs[s.secExec].(state := Reset)], loaded := s'.loaded,
                          secExec := INVALID_IMAGE_ID, world := NonSecure)
  {
    if s.world == World.Secure { RemoveKeepsTable(s.loaded, s.secExec); }
  }

  /** Every image but the one that BL1 started can be reset by the normal world; its copied bytes are wiped. */
  lemma ResetReplies(p: Platform, s: Fwu, e: Event)
    requires PlatformOk(p) && Inv(p, s) && e.ResetImage?
    ensures Succeeds(p, s, e) <==> s.world == NonSecure && KnownImage(p, s, e.id) && e.id != p.bootId
    ensures s.world == World.Secure || !KnownImage(p, s, e.id) ==> Step(p, s, e) == Return(EPerm, s)
    ensures Succeeds(p, s, e) ==>
              var s', d := Step(p, s, e).next, s.descs[e.id];
              if d.state == Reset then s' == s
              else
                && e.id !in s'.loaded
                && s' == s.(descs := s.descs[e.id := Desc(Reset, 0, 0)], loaded := s'.loaded,
                            mem := if d.copiedSize == 0 then s.mem
                                   else Store(s.mem, p.attrs[e.id].base, Zeros(d.copiedSize)))
  {
    if KnownImage(p, s, e.id) {
      RemoveKeepsTable(s.loaded, e.id);
      assert SizesOk(p.attrs[e.id], s.descs[e.id]);
    }
  }

  // -------------------------------------------------------------------- every run

  /** What makes a call succeed, in the terms above. */
  ghost predicate Granted(p: Platform, states: seq<Fwu>, es: seq<Event>, e: Event)
    requires |states| == |es| + 1
  {
    var s := states[|es|];
    match e
    case Copy(_, _, _, _, _, _) =>
      MayCopy(p, s, e) && GoodBlock(p, s, e) && (s.descs[e.id].state == Reset ==> MayBegin(p, s, e))
    case Auth(_, _, _, _, _, _) => (OfCopied(p, s, e) || OfLying(p, s, e)) && e.verifyOk && e.postLoadOk
    case Execute(id) =>
      && s.world == NonSecure && KnownImage(p, s, id) && p.attrs[id].world == Secure && p.attrs[id].executable
      && s.descs[id].state == Authenticated
    case Resume => s.world == World.Secure || (s.secExec != INVALID_IMAGE_ID && !WasReset(states, es, |es|))
    case Done => s.world == World.Secure
    case ResetImage(id) => s.world == NonSecure && KnownImage(p, s, id) && id != p.bootId
    case Environment(_) => true
  }

  /** In every run, a call succeeds exactly if it is granted. */
  lemma WhenCallsSucceed(p: Platform, states: seq<Fwu>, es: seq<Event>, e: Event)
    requires PlatformOk(p) && IsRun(p, states, es)
    ensures Succeeds(p, states[|es|], e) <==> Granted(p, states, es, e)
  {
    var s := states[|es|];
    InvInRun(p, states, es, |es|);
    match e
    case Copy(_, _, _, _, _, _) => CopyReplies(p, s, e);
    case Auth(_, _, _, _, _, _) => AuthReplies(p, s, e);
    case Execute(_) => ExecuteReplies(p, s, e);
    case Resume => if s.world == World.Secure { ResumeComesBack(p, s); } else { ResumeReplies(p, states, es); }
    case Done => DoneReplies(p, s);
    case ResetImage(_) => ResetReplies(p, s, e);
    case Environment(_) =>
  }
}
