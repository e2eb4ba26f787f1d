/** What an image holds when it is executed, told from the states and events of the run. */
module FwuBytes {
  import opened FwuSpec
  import opened FwuRuns
  import opened FwuContent
  import opened FwuHistory
  import opened FwuWrites

  // ------------------------------------------------------------------- copies

  /** The blocks that the first n events put into the image, since the one that started it. */
  function Copies(states: seq<Fwu>, es: seq<Event>, id: U32, n: nat): seq<seq<Byte>>
    requires n <= |es| && |states| == |es| + 1
  {
    if n == 0 then []
    else
      var s, e := states[n - 1], es[n - 1];
      var before := Copies(states, es, id, n - 1);
      if !CopyWorked(s, e, states[n], id) then before
      else (if Before(s, id) > 0 then before else []) + [Block(s, e, states[n])]
  }

  /** Where the event that started the image stands. */
  function CopyStart(states: seq<Fwu>, es: seq<Event>, id: U32, n: nat): (k: nat)
    requires n <= |es| && |states| == |es| + 1
    ensures k <= n
  {
    if n == 0 then 0
    else if CopyWorked(states[n - 1], es[n - 1], states[n], id) && Before(states[n - 1], id) == 0 then n - 1
    else CopyStart(states, es, id, n - 1)
  }

  predicate HeldCopy(p: Platform, s: Fwu, id: U32) {
    CopiedIn(p, s, id) && Held(s.descs[id].state)
  }

  /** The part of the image that has been copied. */
  function Content(p: Platform, s: Fwu, id: U32): seq<Byte>
    requires KnownImage(p, s, id)
  {
    Region(s.mem, p.attrs[id].base, s.descs[id].copiedSize)
  }

  /**
   What a step does to the content of an image that BL1 holds: it gains a block,
   or loses bytes exactly if the step hits it, and then to zero.
   */
  ghost predicate Evolves(p: Platform, s: Fwu, e: Event, s': Fwu, id: U32) {
    HeldCopy(p, s', id) ==>
      && |Content(p, s', id)| == s'.descs[id].copiedSize
      && if CopyWorked(s, e, s', id) then
           if Before(s, id) > 0 then HeldCopy(p, s, id) && Content(p, s', id) == Content(p, s, id) + Block(s, e, s')
           else Content(p, s', id) == Block(s, e, s')
         else
           && HeldCopy(p, s, id) && s'.descs[id].copiedSize == s.descs[id].copiedSize
           && KeptOrZero(Content(p, s, id), Content(p, s', id))
           && (Content(p, s', id) == Content(p, s, id) <==> !Hits(p, s, e, id, s.descs[id].copiedSize))
  }

  lemma InsideMemory(p: Platform, s: Fwu, id: U32)
    requires PlatformOk(p) && Inv(p, s) && KnownImage(p, s, id)
    ensures |Content(p, s, id)| == s.descs[id].copiedSize
    ensures p.attrs[id].base + s.descs[id].copiedSize <= |s.mem|
  {
    assert SizesOk(p.attrs[id], s.descs[id]);
  }

  lemma BlockEvolves(p: Platform, s: Fwu, e: Event, s': Fwu, d: Desc)
    requires PlatformOk(p) && Inv(p, s) && ContentInv(p, s) && e.Copy? && KnownImage(p, s, e.id)
    requires p.attrs[e.id].world == Secure && d.copiedSize < d.imageSize <= p.attrs[e.id].maxSize
    requires d == (if InState(s, e.id, Copying) then s.descs[e.id] else Desc(Reset, 0, e.imageSize))
    requires InState(s, e.id, Copying) || InState(s, e.id, Reset)
    requires BlockCopied(p, s, s', e.id, d, Clipped(s, d, e.src, e.blockSize))
    ensures Evolves(p, s, e, s', e.id)
  {
    var data := Clipped(s, d, e.src, e.blockSize);
    assert SizesOk(p.attrs[e.id], s.descs[e.id]);
    assert Before(s, e.id) == d.copiedSize;
    assert Block(s, e, s') == data;
    StoreAppends(s.mem, p.attrs[e.id].base, d.copiedSize, data);
  }

  lemma Unchanged(p: Platform, s: Fwu, e: Event, s': Fwu, id: U32)
    requires PlatformOk(p) && Inv(p, s) && HeldCopy(p, s, id) && !e.ResetImage?
    requires id in s'.descs && s'.descs[id].copiedSize == s.descs[id].copiedSize && s'.mem == s.mem
    requires !CopyWorked(s, e, s', id)
    ensures Evolves(p, s, e, s', id)
  {
    InsideMemory(p, s, id);
  }

  lemma CopyEvolves(p: Platform, s: Fwu, e: Event, s': Fwu)
    requires PlatformOk(p) && Inv(p, s) && ContentInv(p, s) && e.Copy? && CopyEffect(p, s, s', e)
    ensures Evolves(p, s, e, s', e.id)
  {
    if s' != s.(loaded := s'.loaded) {
      if InState(s, e.id, Copying) {
        assert SizesOk(p.attrs[e.id], s.descs[e.id]);
        BlockEvolves(p, s, e, s', s.descs[e.id]);
      } else if !InState(s', e.id, Reset) {
        BlockEvolves(p, s, e, s', Desc(Reset, 0, e.imageSize));
      }
    } else if HeldCopy(p, s, e.id) {
      Unchanged(p, s, e, s', e.id);
    }
  }

  lemma OwnEvolves(p: Platform, s: Fwu, e: Event, s': Fwu, id: U32)
    requires PlatformOk(p) && Inv(p, s) && ContentInv(p, s) && StepsTo(p, s, e, s') && Concerns(s, e, id) && !e.Copy?
    ensures Evolves(p, s, e, s', id)
  {
    if HeldCopy(p, s', id) { InsideMemory(p, s, id); }
  }

  lemma OtherEvolves(p: Platform, s: Fwu, e: Event, s': Fwu, id: U32)
    requires PlatformOk(p) && Inv(p, s) && ContentInv(p, s) && StepsTo(p, s, e, s') && !Concerns(s, e, id)
    requires !e.Environment?
    ensures Evolves(p, s, e, s', id)
  {
    if HeldCopy(p, s', id) {
      OthersStay(p, s, e, s', id);
      InsideMemory(p, s, id);
      WriteElsewhere(p, s, e, id, s.descs[id].copiedSize);
      StepKeeps(p, s, e);
      InsideMemory(p, s', id);
    }
  }

  /** The descriptor of an image that a call does not concern stays as it is. */
  lemma OthersStay(p: Platform, s: Fwu, e: Event, s': Fwu, id: U32)
    requires PlatformOk(p) && Inv(p, s) && ContentInv(p, s) && StepsTo(p, s, e, s') && !Concerns(s, e, id)
    requires HeldCopy(p, s', id)
    ensures HeldCopy(p, s, id) && s'.descs[id] == s.descs[id] && Sized(p, s, id)
  {
    if e.Copy? {
      CopyShape(p, s, e);
      OthersStayInCopy(p, s, e, s', id);
    } else {
      OthersStayElse(p, s, e, s', id);
    }
  }

  lemma OthersStayInCopy(p: Platform, s: Fwu, e: Event, s': Fwu, id: U32)
    requires ContentInv(p, s) && e.Copy? && CopyEffect(p, s, s', e) && e.id != id && HeldCopy(p, s', id)
    ensures HeldCopy(p, s, id) && s'.descs[id] == s.descs[id] && Sized(p, s, id)
  {
    assert CopiedIn(p, s, id);
  }

  lemma OthersStayElse(p: Platform, s: Fwu, e: Event, s': Fwu, id: U32)
    requires ContentInv(p, s) && StepsTo(p, s, e, s') && !e.Copy? && !Concerns(s, e, id) && HeldCopy(p, s', id)
    ensures HeldCopy(p, s, id) && s'.descs[id] == s.descs[id] && Sized(p, s, id)
  {
  }

  lemma EnvironmentEvolves(p: Platform, s: Fwu, e: Event, s': Fwu, id: U32)
    requires PlatformOk(p) && Inv(p, s) && ContentInv(p, s) && e.Environment? && Legal(p, s, e)
             && s' == s.(mem := e.mem)
    ensures Evolves(p, s, e, s', id)
  {
    if HeldCopy(p, s', id) {
      assert HeldCopy(p, s, id) && Sized(p, s, id);
      InsideMemory(p, s, id);
      var base, n, size := p.attrs[id].base, s.descs[id].copiedSize, s.descs[id].imageSize;
      assert Region(s.mem, base, n) == Region(s.mem, base, size)[..n];
      assert Region(e.mem, base, n) == Region(e.mem, base, size)[..n];
    }
  }

  lemma StepEvolves(p: Platform, s: Fwu, e: Event, s': Fwu, id: U32)
    requires PlatformOk(p) && Inv(p, s) && ContentInv(p, s) && StepsTo(p, s, e, s') && Legal(p, s, e)
    ensures Evolves(p, s, e, s', id)
  {
    if e.Environment? {
      EnvironmentEvolves(p, s, e, s', id);
    } else if !Concerns(s, e, id) {
      OtherEvolves(p, s, e, s', id);
    } else if e.Copy? {
      CopyShape(p, s, e);
      CopyEvolves(p, s, e, s');
    } else {
      OwnEvolves(p, s, e, s', id);
    }
  }

  // ---------------------------------------------------------------- whole runs

  ghost predicate EvolvesAt(p: Platform, states: seq<Fwu>, es: seq<Event>, id: U32, i: nat)
    requires i < |es| && |states| == |es| + 1
  {
    Evolves(p, states[i], es[i], states[i + 1], id)
  }

  ghost predicate AllEvolve(p: Platform, states: seq<Fwu>, es: seq<Event>) {
    && |states| == |es| + 1
    && (forall id :: !HeldCopy(p, states[0], id))
    && forall i, id :: 0 <= i < |es| ==> EvolvesAt(p, states, es, id, i)
  }

  lemma RunEvolves(p: Platform, states: seq<Fwu>, es: seq<Event>)
    requires PlatformOk(p) && IsRun(p, states, es)
    ensures AllEvolve(p, states, es)
  {
    forall i, id | 0 <= i < |es| ensures EvolvesAt(p, states, es, id, i) {
      InvInRun(p, states, es, i);
      StepEvolves(p, states[i], es[i], states[i + 1], id);
    }
  }

  /** Event k hits the copied part of the image. */
  ghost predicate HitAt(p: Platform, states: seq<Fwu>, es: seq<Event>, id: U32, k: nat)
    requires k < |es| && |states| == |es| + 1
  {
    KnownImage(p, states[k], id) && Hits(p, states[k], es[k], id, states[k].descs[id].copiedSize)
  }

  ghost predicate NoHits(p: Platform, states: seq<Fwu>, es: seq<Event>, id: U32, from: nat, to: nat)
    requires to <= |es| && |states| == |es| + 1
  {
    forall k :: from <= k < to ==> !HitAt(p, states, es, id, k)
  }

  /** One step at a time: a loss is never made good. */
  lemma LossStays(c: seq<Byte>, r: seq<Byte>, r': seq<Byte>)
    requires KeptOrZero(c, r) && KeptOrZero(r, r')
    ensures KeptOrZero(c, r') && (r' == c <==> r == c && r' == r)
  {
    if r != c {
      var j :| 0 <= j < |c| && r[j] != c[j];
      assert r'[j] != c[j];
    }
  }

  lemma ConcatSnoc(blocks: seq<seq<Byte>>, b: seq<Byte>)
    ensures Concat(blocks + [b]) == Concat(blocks) + b
  {
    assert (blocks + [b])[..|blocks|] == blocks;
  }

  lemma BothGrow(c: seq<Byte>, r: seq<Byte>, b: seq<Byte>)
    requires KeptOrZero(c, r)
    ensures KeptOrZero(c + b, r + b) && (r + b == c + b <==> r == c)
  {
    if r + b == c + b { assert (r + b)[..|r|] == r && (c + b)[..|c|] == c; }
  }

  lemma OneMoreEvent(p: Platform, states: seq<Fwu>, es: seq<Event>, id: U32, from: nat, n: nat)
    requires from <= n < |es| && |states| == |es| + 1
    ensures NoHits(p, states, es, id, from, n + 1) <==>
              NoHits(p, states, es, id, from, n) && !HitAt(p, states, es, id, n)
  {
  }

  /**
   What an image holds: all that was copied exactly if nothing hit it since
   copying began, and otherwise zeros for some.
   */
  ghost predicate HoldsCopies(p: Platform, states: seq<Fwu>, es: seq<Event>, id: U32, n: nat)
    requires n <= |es| && |states| == |es| + 1 && KnownImage(p, states[n], id)
  {
    var c := Concat(Copies(states, es, id, n));
    && KeptOrZero(c, Content(p, states[n], id))
    && (Content(p, states[n], id) == c <==> NoHits(p, states, es, id, CopyStart(states, es, id, n), n))
  }

  lemma CopiesBegin(p: Platform, states: seq<Fwu>, es: seq<Event>, id: U32, n: nat)
    requires n < |es| && AllEvolve(p, states, es) && HeldCopy(p, states[n + 1], id)
    requires CopyWorked(states[n], es[n], states[n + 1], id) && Before(states[n], id) == 0
    ensures HoldsCopies(p, states, es, id, n + 1)
  {
    assert EvolvesAt(p, states, es, id, n);
    var b := Block(states[n], es[n], states[n + 1]);
    assert Copies(states, es, id, n + 1) == [b] by { assert [] + [b] == [b]; }
    assert Concat([b]) == b by { ConcatSnoc([], b); assert [] + [b] == [b]; }
    assert CopyStart(states, es, id, n + 1) == n;
    OneMoreEvent(p, states, es, id, n, n);
  }

  lemma CopiesGoOn(p: Platform, states: seq<Fwu>, es: seq<Event>, id: U32, n: nat)
    requires n < |es| && AllEvolve(p, states, es) && HeldCopy(p, states[n + 1], id)
    requires CopyWorked(states[n], es[n], states[n + 1], id) && Before(states[n], id) > 0
    requires HeldCopy(p, states[n], id) ==> HoldsCopies(p, states, es, id, n)
    ensures HoldsCopies(p, states, es, id, n + 1)
  {
    assert EvolvesAt(p, states, es, id, n);
    var b, c := Block(states[n], es[n], states[n + 1]), Copies(states, es, id, n);
    assert Copies(states, es, id, n + 1) == c + [b];
    assert CopyStart(states, es, id, n + 1) == CopyStart(states, es, id, n);
    ConcatSnoc(c, b);
    BothGrow(Concat(c), Content(p, states[n], id), b);
    OneMoreEvent(p, states, es, id, CopyStart(states, es, id, n), n);
  }

  lemma CopiesStay(p: Platform, states: seq<Fwu>, es: seq<Event>, id: U32, n: nat)
    requires n < |es| && AllEvolve(p, states, es) && HeldCopy(p, states[n + 1], id)
    requires !CopyWorked(states[n], es[n], states[n + 1], id)
    requires HeldCopy(p, states[n], id) ==> HoldsCopies(p, states, es, id, n)
    ensures HoldsCopies(p, states, es, id, n + 1)
  {
    assert EvolvesAt(p, states, es, id, n);
    LossStays(Concat(Copies(states, es, id, n)), Content(p, states[n], id), Content(p, states[n + 1], id));
    OneMoreEvent(p, states, es, id, CopyStart(states, es, id, n), n);
  }

  /** In every state of every run, for every image copied in and not yet executed. */
  lemma {:induction false} ContentIsCopies(p: Platform, states: seq<Fwu>, es: seq<Event>, id: U32, n: nat)
    requires AllEvolve(p, states, es) && n <= |es| && HeldCopy(p, states[n], id)
    ensures HoldsCopies(p, states, es, id, n)
  {
    if n > 0 {
      if HeldCopy(p, states[n - 1], id) { ContentIsCopies(p, states, es, id, n - 1); }
      if CopyWorked(states[n - 1], es[n - 1], states[n - 1 + 1], id) {
        if Before(states[n - 1], id) == 0 {
          CopiesBegin(p, states, es, id, n - 1);
        } else {
          CopiesGoOn(p, states, es, id, n - 1);
        }
      } else {
        CopiesStay(p, states, es, id, n - 1);
      }
    }
  }

  /** From the event that verified it on, an image keeps its bytes exactly if nothing hits it. */
  lemma {:induction false} ContentSinceVerified(p: Platform, states: seq<Fwu>, es: seq<Event>, id: U32, i: nat, n: nat)
    requires AllEvolve(p, states, es) && i < n <= |es| && VerifiedAt(states, es, id, i, n) && HeldCopy(p, states[n], id)
    ensures HeldCopy(p, states[i], id)
    ensures KeptOrZero(Content(p, states[i], id), Content(p, states[n], id))
    ensures Content(p, states[n], id) == Content(p, states[i], id) <==> NoHits(p, states, es, id, i, n)
  {
    assert EvolvesAt(p, states, es, id, n - 1);
    assert InState(states[n], id, Authenticated);
    if i < n - 1 {
      ContentSinceVerified(p, states, es, id, i, n - 1);
      LossStays(Content(p, states[i], id), Content(p, states[n - 1], id), Content(p, states[n], id));
    }
    OneMoreEvent(p, states, es, id, i, n - 1);
  }

  // -------------------------------------------------------------- main results

  /** The image as a whole, and the bytes in its place. */
  function Whole(p: Platform, s: Fwu, id: U32): seq<Byte>
    requires KnownImage(p, s, id)
  {
    Region(s.mem, p.attrs[id].base, s.descs[id].imageSize)
  }

  /**
   Where image id stands when it is executed at the end of the run, having been
   copied in and then verified by event i.
   */
  ghost predicate CopiedAndVerified(p: Platform, states: seq<Fwu>, es: seq<Event>, id: U32, i: nat)
    requires |states| == |es| + 1 && i < |es| && KnownImage(p, states[|es|], id) && KnownImage(p, states[i], id)
  {
    var s := states[|es|];
    && |Whole(p, s, id)| == s.descs[id].imageSize > 0
    && states[i].descs[id].imageSize == s.descs[id].imageSize
    && id in s.verified && s.verified[id] == Whole(p, states[i], id)
    && KeptOrZero(Whole(p, states[i], id), Whole(p, s, id))
    && KeptOrZero(Concat(Copies(states, es, id, |es|)), Whole(p, s, id))
    && (Whole(p, s, id) == Whole(p, states[i], id) <==> NoHits(p, states, es, id, i, |es|))
    && (Whole(p, s, id) == Concat(Copies(states, es, id, |es|))
        <==> NoHits(p, states, es, id, CopyStart(states, es, id, |es|), |es|))
  }

  /** All of v lies from base on, by what the events from i on wrote there last. */
  ghost predicate LastWritten(p: Platform, states: seq<Fwu>, es: seq<Event>, base: nat, v: seq<Byte>, i: nat)
    requires |states| == |es| + 1 && i <= |es|
  {
    base + |v| <= p.memSize && forall j :: 0 <= j < |v| ==> Latest(p, states, es, base + j, i, |es|) == v[j]
  }

  /**
   The same if event i verified it in place: what was verified is what lay where
   the call said. It is in the image's place exactly if it was written there last,
   so in particular if the call named that place and nothing was overwritten since.
   */
  ghost predicate VerifiedInPlace(p: Platform, states: seq<Fwu>, es: seq<Event>, id: U32, i: nat)
    requires |states| == |es| + 1 && i < |es| && KnownImage(p, states[|es|], id)
  {
    var s, base := states[|es|], p.attrs[id].base;
    && SecureInPlaceAuth(states[i], es[i]) && InState(states[i], id, Reset) && es[i].id == id
    && s.descs[id].imageSize == es[i].size > 0 && es[i].src + es[i].size <= p.memSize
    && id in s.verified && s.verified[id] == Region(states[i].mem, es[i].src, es[i].size) != []
    && (Whole(p, s, id) == s.verified[id] <==> LastWritten(p, states, es, base, s.verified[id], i))
    && (es[i].src == base && NoOverwrites(p, states, es, base, es[i].size, i, |es|) ==>
          Whole(p, s, id) == s.verified[id])
  }

  lemma WholeIsWritten(p: Platform, states: seq<Fwu>, es: seq<Event>, id: U32, i: nat, v: seq<Byte>)
    requires AllTell(p, states, es) && AllVouched(p, states, es) && VerifiedAt(states, es, id, i, |es|)
    requires !InState(states[i], id, Authenticated) && SecureLoaded(p, states[|es|], id)
    requires |states[|es|].mem| == p.memSize && |v| == states[|es|].descs[id].imageSize > 0
    ensures Whole(p, states[|es|], id) == v <==> LastWritten(p, states, es, p.attrs[id].base, v, i)
  {
    var n := |es|;
    var s, base := states[n], p.attrs[id].base;
    if base + |v| <= p.memSize {
      forall j | 0 <= j < |v| ensures Whole(p, s, id)[j] == Latest(p, states, es, base + j, i, n) {
        assert InPlace(p, s, id, base + j);
        LatestIsThere(p, states, es, id, i, n, base + j);
      }
    }
  }

  lemma WholeIsKept(p: Platform, states: seq<Fwu>, es: seq<Event>, id: U32, i: nat)
    requires AllTell(p, states, es) && AllVouched(p, states, es) && VerifiedAt(states, es, id, i, |es|)
    requires !InState(states[i], id, Authenticated) && SecureLoaded(p, states[|es|], id)
    requires |states[|es|].mem| == |states[i].mem| == p.memSize
    requires p.attrs[id].base + states[|es|].descs[id].imageSize <= p.memSize
    requires NoOverwrites(p, states, es, p.attrs[id].base, states[|es|].descs[id].imageSize, i, |es|)
    ensures Whole(p, states[|es|], id) == Region(states[i].mem, p.attrs[id].base, states[|es|].descs[id].imageSize)
  {
    var n := |es|;
    var s, base := states[n], p.attrs[id].base;
    var was := Region(states[i].mem, base, s.descs[id].imageSize);
    forall j | 0 <= j < |was| ensures Whole(p, s, id)[j] == was[j] {
      assert InPlace(p, s, id, base + j);
      KeptIfNotOverwritten(p, states, es, id, i, n, base + j);
    }
  }

  lemma InPlaceCase(p: Platform, states: seq<Fwu>, es: seq<Event>, id: U32, i: nat)
    requires PlatformOk(p) && IsRun(p, states, es) && AllVouched(p, states, es) && SecureLoaded(p, states[|es|], id)
    requires VerifiedAt(states, es, id, i, |es|) && SecureInPlaceAuth(states[i], es[i]) && InState(states[i], id, Reset)
    ensures VerifiedInPlace(p, states, es, id, i)
  {
    RunTells(p, states, es);
    RecordStays(p, states, es, id, i, |es|);
    InvInRun(p, states, es, i);
    InvInRun(p, states, es, |es|);
    WholeIsWritten(p, states, es, id, i, states[|es|].verified[id]);
    var base := p.attrs[id].base;
    if es[i].src == base && NoOverwrites(p, states, es, base, es[i].size, i, |es|) {
      WholeIsKept(p, states, es, id, i);
    }
  }

  lemma CopiedCase(p: Platform, states: seq<Fwu>, es: seq<Event>, id: U32, i: nat)
    requires PlatformOk(p) && IsRun(p, states, es) && AllVouched(p, states, es) && SecureLoaded(p, states[|es|], id)
    requires VerifiedAt(states, es, id, i, |es|) && InState(states[i], id, Copied)
    ensures KnownImage(p, states[i], id) && CopiedAndVerified(p, states, es, id, i)
  {
    var n := |es|;
    RunEvolves(p, states, es);
    RecordStays(p, states, es, id, i, n);
    InvInRun(p, states, es, n);
    InvInRun(p, states, es, i);
    assert InState(states[n], id, Authenticated);
    assert HeldCopy(p, states[n], id) && Sized(p, states[n], id);
    ContentSinceVerified(p, states, es, id, i, n);
    assert Sized(p, states[i], id);
    ContentIsCopies(p, states, es, id, n);
    InsideMemory(p, states[n], id);
  }

  /**
   In every run, an image handed to execution was verified by an event of the
   run and has not left AUTHENTICATED since. If it had been copied in, it holds
   the bytes that were verified exactly if no event since has hit it, and these
   are, in order, the blocks that the copy events of the run put into it exactly
   if no event since its first copy has; a byte that is not as it was is zero. If
   it was verified in place, it holds them exactly if they were written there last.
   */
  lemma ExecutedImageIsTheVerifiedOne(p: Platform, states: seq<Fwu>, es: seq<Event>, id: U32) returns (i: nat)
    requires PlatformOk(p) && IsRun(p, states, es)
    requires ImageExecute(p, states[|es|], id).code == Success
    ensures VerifiedAt(states, es, id, i, |es|) && KnownImage(p, states[|es|], id) && KnownImage(p, states[i], id)
    ensures if InState(states[i], id, Copied) then CopiedAndVerified(p, states, es, id, i)
            else VerifiedInPlace(p, states, es, id, i)
  {
    RunIsVouched(p, states, es);
    i := AuthenticatedWasVerified(p, states, es, id, |es|);
    WhereVerified(p, states, es, id, i);
    if InState(states[i], id, Copied) {
      CopiedCase(p, states, es, id, i);
    } else {
      InPlaceCase(p, states, es, id, i);
    }
  }

  lemma WhereVerified(p: Platform, states: seq<Fwu>, es: seq<Event>, id: U32, i: nat)
    requires PlatformOk(p) && IsRun(p, states, es) && i < |es| && Verifies(es[i], id)
    requires id in p.attrs && p.attrs[id].world == Secure
    requires !InState(states[i], id, Authenticated) && InState(states[i + 1], id, Authenticated)
    ensures id in states[i].descs
    ensures if states[i].world == NonSecure then InState(states[i], id, Copied) else InState(states[i], id, Reset)
  {
    assert StepsTo(p, states[i], es[i], states[i + 1]);
  }

  /** Nothing is ever hit in a run that authenticates in place only images with nothing left over. */
  lemma CleanRunsHitNothing(p: Platform, states: seq<Fwu>, es: seq<Event>, id: U32, from: nat)
    requires PlatformOk(p) && IsRun(p, states, es) && CleanInPlace(states, es)
    requires ThereFrom(p, states, es, id, from)
    ensures NoHits(p, states, es, id, from, |es|)
  {
    forall k | from <= k < |es| ensures !HitAt(p, states, es, id, k) {
      InvInRun(p, states, es, k);
      if HitAt(p, states, es, id, k) {
        assert Sized(p, states[k], id);
        HitsAreStale(p, states[k], es[k], id, states[k].descs[id].copiedSize);
        assert false;
      }
    }
  }

  /** An image that BL1 holds has been held since the event that started it. */
  lemma {:induction false} HeldSinceStart(p: Platform, states: seq<Fwu>, es: seq<Event>, id: U32, n: nat)
    requires AllEvolve(p, states, es) && n <= |es| && HeldCopy(p, states[n], id)
    ensures var from := CopyStart(states, es, id, n);
            from < n && es[from].Copy? && forall k :: from < k <= n ==> HeldCopy(p, states[k], id)
  {
    if n > 0 {
      assert EvolvesAt(p, states, es, id, n - 1);
      if HeldCopy(p, states[n - 1], id) { HeldSinceStart(p, states, es, id, n - 1); }
    }
  }

  /**
   So in every run that authenticates in place only images with nothing left
   over, an image handed to execution that was not itself verified in place holds
   exactly the bytes that were verified, and these are the copied blocks in order.
   */
  lemma ExecutedBytesWereCopiedAndVerified(p: Platform, states: seq<Fwu>, es: seq<Event>, id: U32) returns (i: nat)
    requires PlatformOk(p) && IsRun(p, states, es) && CleanInPlace(states, es)
    requires ImageExecute(p, states[|es|], id).code == Success
    ensures VerifiedAt(states, es, id, i, |es|) && KnownImage(p, states[|es|], id) && KnownImage(p, states[i], id)
    ensures if InState(states[i], id, Copied) then
              && id in states[|es|].verified
              && Whole(p, states[|es|], id) == Whole(p, states[i], id) == states[|es|].verified[id]
              && Whole(p, states[|es|], id) == Concat(Copies(states, es, id, |es|)) != []
            else VerifiedInPlace(p, states, es, id, i)
  {
    i := ExecutedImageIsTheVerifiedOne(p, states, es, id);
    if InState(states[i], id, Copied) {
      CleanSinceCopied(p, states, es, id, i);
    }
  }

  lemma CleanSinceCopied(p: Platform, states: seq<Fwu>, es: seq<Event>, id: U32, i: nat)
    requires PlatformOk(p) && IsRun(p, states, es) && CleanInPlace(states, es)
    requires VerifiedAt(states, es, id, i, |es|) && InState(states[i], id, Copied) && SecureLoaded(p, states[|es|], id)
    ensures NoHits(p, states, es, id, i, |es|) && NoHits(p, states, es, id, CopyStart(states, es, id, |es|), |es|)
  {
    RunEvolves(p, states, es);
    RunIsVouched(p, states, es);
    LoadedSinceCopied(p, states, es, id, i);
    CleanRunsHitNothing(p, states, es, id, CopyStart(states, es, id, |es|));
    CleanRunsHitNothing(p, states, es, id, i);
  }

  /** There all the time, but for the first copy. */
  ghost predicate ThereFrom(p: Platform, states: seq<Fwu>, es: seq<Event>, id: U32, from: nat)
    requires |states| == |es| + 1
  {
    forall k :: from <= k < |es| ==> CopiedIn(p, states[k], id) || es[k].Copy?
  }

  lemma LoadedSinceCopied(p: Platform, states: seq<Fwu>, es: seq<Event>, id: U32, i: nat)
    requires AllEvolve(p, states, es) && AllVouched(p, states, es)
    requires VerifiedAt(states, es, id, i, |es|) && InState(states[i], id, Copied) && SecureLoaded(p, states[|es|], id)
    ensures ThereFrom(p, states, es, id, i) && ThereFrom(p, states, es, id, CopyStart(states, es, id, |es|))
  {
    RecordStays(p, states, es, id, i, |es|);
    assert InState(states[|es|], id, Authenticated) && HeldCopy(p, states[|es|], id);
    HeldSinceStart(p, states, es, id, |es|);
    HeldThroughout(p, states, es, id, i, |es|);
    forall k | i <= k < |es| ensures CopiedIn(p, states[k], id) { assert HeldCopy(p, states[k], id); }
  }

  lemma {:induction false} HeldThroughout(p: Platform, states: seq<Fwu>, es: seq<Event>, id: U32, i: nat, n: nat)
    requires AllEvolve(p, states, es) && i < n <= |es| && VerifiedAt(states, es, id, i, n) && HeldCopy(p, states[n], id)
    ensures forall k :: i <= k <= n ==> HeldCopy(p, states[k], id)
  {
    assert EvolvesAt(p, states, es, id, n - 1);
    assert InState(states[n], id, Authenticated);
    if i < n - 1 { HeldThroughout(p, states, es, id, i, n - 1); }
  }
}
