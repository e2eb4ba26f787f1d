/** Concrete runs in which the three reachable assertions of the FWU handlers fire. */
module FwuWitness {
  import opened FwuSpec

  const BOOT: U32 := 0
  const FIRST: U32 := 1
  const SECOND: U32 := 2

  /** Eight bytes of memory: image FIRST at 2, image SECOND at 4, a source buffer at 6. */
  function Board(): Platform {
    Platform(map[BOOT := Attr(0, 0, NonSecure, true),
                 FIRST := Attr(2, 2, World.Secure, true),
                 SECOND := Attr(4, 2, World.Secure, true)], BOOT, 8)
  }

  function Start(): Fwu {
    Fwu(map[BOOT := Desc(Executed, 0, 0), FIRST := Desc(ImageState.Reset, 0, 0),
            SECOND := Desc(ImageState.Reset, 0, 0)],
        [INVALID_IMAGE_ID, INVALID_IMAGE_ID], INVALID_IMAGE_ID, NonSecure, Zeros(8), {}, map[])
  }

  function FirstByte(): Event {
    Copy(FIRST, 6, 1, 1, true, true)
  }

  /** FIRST, one byte long and fully copied. */
  lemma LoadsFirst() returns (s: Fwu)
    ensures StepsTo(Board(), Start(), FirstByte(), s)
    ensures s.descs == Start().descs[FIRST := Desc(Copied, 1, 1)]
    ensures s.loaded == [FIRST, INVALID_IMAGE_ID] && s.world == NonSecure && |s.mem| == 8
  {
    var start := Start();
    assert FindSlot(start.loaded, FIRST, 0) == 2;
    assert FindSlot(start.loaded, INVALID_IMAGE_ID, 0) == 0;
    assert CheckSlot(Board(), start.descs, INVALID_IMAGE_ID, FIRST, 1).Clear?;
    assert CheckOverlaps(Board(), start.descs, start.loaded, FIRST, 1, 1).Clear?;
    assert CheckOverlaps(Board(), start.descs, start.loaded, FIRST, 1, 0).Clear?;
    s := CopyBlock(Board(), SetDesc(start, FIRST, Desc(ImageState.Reset, 0, 1)), FIRST, 6, 1, true, true).next;
    assert start.loaded[0 := FIRST] == [FIRST, INVALID_IMAGE_ID];
  }

  /** A one-byte image trips the overlap check of the next image copied. */
  lemma OneByteImageTraps() returns (states: seq<Fwu>, es: seq<Event>)
    ensures PlatformOk(Board()) && IsRun(Board(), states, es)
    ensures Step(Board(), states[|es|], Copy(SECOND, 6, 2, 2, true, true)) == AssertFailed(210)
  {
    var s := LoadsFirst();
    states, es := [Start(), s], [FirstByte()];
    assert CheckSlot(Board(), s.descs, FIRST, SECOND, 2) == Trap(210);
  }

  lemma OneMoreStep(p: Platform, states: seq<Fwu>, es: seq<Event>, e: Event, s: Fwu)
    requires IsRun(p, states, es) && !e.Environment? && StepsTo(p, states[|es|], e, s)
    ensures IsRun(p, states + [s], es + [e])
  {
  }

  /** One more event on the board, in a run that ends in s. */
  lemma Extend(states: seq<Fwu>, es: seq<Event>, e: Event, s: Fwu) returns (states': seq<Fwu>, es': seq<Event>)
    requires IsRun(Board(), states, es) && !e.Environment? && StepsTo(Board(), states[|es|], e, s)
    ensures IsRun(Board(), states', es') && states'[|es'|] == s
  {
    OneMoreStep(Board(), states, es, e, s);
    states', es' := states + [s], es + [e];
  }

  lemma LoadedRun() returns (states: seq<Fwu>, es: seq<Event>)
    ensures IsRun(Board(), states, es)
    ensures var s := states[|es|];
            && s.descs == Start().descs[FIRST := Desc(Copied, 1, 1)]
            && s.loaded == [FIRST, INVALID_IMAGE_ID] && s.world == NonSecure
  {
    var s := LoadsFirst();
    states, es := [Start(), s], [FirstByte()];
  }

  lemma VerifiedRun() returns (states: seq<Fwu>, es: seq<Event>)
    ensures IsRun(Board(), states, es)
    ensures var s := states[|es|];
            && s.descs == Start().descs[FIRST := Desc(Authenticated, 1, 1)]
            && s.loaded == [FIRST, INVALID_IMAGE_ID] && s.world == NonSecure
  {
    var states0, es0 := LoadedRun();
    var e := Auth(FIRST, 0, 0, true, true, true);
    states, es := Extend(states0, es0, e, Step(Board(), states0[|es0|], e).next);
  }

  lemma RunningRun() returns (states: seq<Fwu>, es: seq<Event>)
    ensures IsRun(Board(), states, es)
    ensures var s := states[|es|];
            && s.descs == Start().descs[FIRST := Desc(Executed, 1, 1)]
            && s.loaded == [FIRST, INVALID_IMAGE_ID] && s.world == World.Secure && s.secExec == FIRST
  {
    var states0, es0 := VerifiedRun();
    states, es := Extend(states0, es0, Execute(FIRST), Step(Board(), states0[|es0|], Execute(FIRST)).next);
  }

  lemma InterruptedRun() returns (states: seq<Fwu>, es: seq<Event>)
    ensures IsRun(Board(), states, es)
    ensures var s := states[|es|];
            && s.descs == Start().descs[FIRST := Desc(Interrupted, 1, 1)]
            && s.loaded == [FIRST, INVALID_IMAGE_ID] && s.world == NonSecure && s.secExec == FIRST
  {
    var states0, es0 := RunningRun();
    states, es := Extend(states0, es0, Resume, Step(Board(), states0[|es0|], Resume).next);
  }

  /** Resetting an image that was interrupted leaves it named by secExec, and resuming it traps. */
  lemma ResetAfterInterruptTraps() returns (states: seq<Fwu>, es: seq<Event>)
    ensures PlatformOk(Board()) && IsRun(Board(), states, es)
    ensures Step(Board(), states[|es|], Resume) == AssertFailed(587)
  {
    var states0, es0 := InterruptedRun();
    var s := states0[|es0|];
    assert FindSlot(s.loaded, FIRST, 0) == 0;
    states, es := Extend(states0, es0, ResetImage(FIRST), Step(Board(), s, ResetImage(FIRST)).next);
  }

  /** Asking to reset the image BL1 itself started traps. */
  lemma ResetOfBootImageTraps()
    ensures PlatformOk(Board()) && IsRun(Board(), [Start()], [])
    ensures Step(Board(), [Start()][0], ResetImage(BOOT)) == AssertFailed(744)
  {
  }
}
