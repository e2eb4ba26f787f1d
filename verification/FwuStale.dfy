/**
 Concrete runs in which an image is executed without the bytes that were verified:
 the reset of an image authenticated in place wipes another one, and an image is
 authenticated away from its own place.
 */
module FwuStale {
  import opened FwuSpec
  import opened FwuContent
  import opened FwuWitness

  const ONE: U32 := 1
  const TWO: U32 := 2
  const THREE: U32 := 3
  const NONE: U32 := INVALID_IMAGE_ID

  /** Sixteen bytes: image TWO at 2, image ONE at 4 up to 8, image THREE at 6 up to 8, a source buffer at 8. */
  function Board3(): Platform {
    Platform(map[BOOT := Attr(0, 0, NonSecure, true), ONE := Attr(4, 4, World.Secure, true),
                 TWO := Attr(2, 2, World.Secure, true), THREE := Attr(6, 2, World.Secure, true)], BOOT, 16)
  }

  function Ones(): (mem: seq<Byte>)
    ensures |mem| == 16 && forall i :: 0 <= i < 16 ==> mem[i] == 1
  {
    seq(16, _ => 1)
  }

  function Wiped(): (mem: seq<Byte>)
    ensures |mem| == 16 && forall i :: 0 <= i < 16 ==> mem[i] == if 4 <= i < 8 then 0 else 1
  {
    seq(16, i => if 4 <= i < 8 then 0 else 1)
  }

  function Fresh(mem: seq<Byte>): Fwu {
    Fwu(map[BOOT := Desc(Executed, 0, 0), ONE := Desc(ImageState.Reset, 0, 0), TWO := Desc(ImageState.Reset, 0, 0),
            THREE := Desc(ImageState.Reset, 0, 0)], [NONE, NONE, NONE], NONE, NonSecure, mem, {}, map[])
  }

  // --------------------------------------------------------- states one by one

  /** Where events lead; clean if nothing is authenticated in place with a copied size left over. */
  datatype Played = Played(s: Fwu, clean: bool) | Stuck

  predicate CleanStep(s: Fwu, e: Event) {
    SecureInPlaceAuth(s, e) && e.id in s.descs ==> s.descs[e.id].copiedSize == 0
  }

  function Play(mem: seq<Byte>, es: seq<Event>): Played
    decreases |es|
  {
    if es == [] then Played(Fresh(mem), true)
    else
      var e := es[|es| - 1];
      match Play(mem, es[..|es| - 1])
      case Stuck => Stuck
      case Played(s, clean) =>
        var r := Step(Board3(), s, e);
        if r.Return? && !e.Environment? then Played(r.next, clean && CleanStep(s, e)) else Stuck
  }

  /** What is played is a run. */
  lemma {:induction false} PlayIsRun(mem: seq<Byte>, es: seq<Event>) returns (states: seq<Fwu>)
    requires |mem| == 16 && Play(mem, es).Played?
    ensures IsRun(Board3(), states, es) && states[|es|] == Play(mem, es).s
    ensures Play(mem, es).clean ==> CleanInPlace(states, es)
    decreases |es|
  {
    if es == [] {
      states := [Fresh(mem)];
    } else {
      var n := |es| - 1;
      states := PlayIsRun(mem, es[..n]);
      assert es == es[..n] + [es[n]];
      OneMoreStep(Board3(), states, es[..n], es[n], Play(mem, es).s);
      states := states + [Play(mem, es).s];
    }
  }

  predicate OnBoard(s: Fwu) {
    s.descs.Keys == {BOOT, ONE, TWO, THREE} && |s.loaded| == 3 && |s.mem| == 16
  }

  lemma Goes(mem: seq<Byte>, es: seq<Event>, e: Event, s': Fwu)
    requires Play(mem, es).Played? && !e.Environment? && StepsTo(Board3(), Play(mem, es).s, e, s')
    ensures Play(mem, es + [e]) == Played(s', Play(mem, es).clean && CleanStep(Play(mem, es).s, e))
  {
    assert (es + [e])[..|es + [e]| - 1] == es;
  }

  lemma Slot(ids: seq<U32>, id: U32, k: nat)
    requires |ids| == 3 && k <= 3 && (forall j :: 0 <= j < k ==> ids[j] != id) && (k < 3 ==> ids[k] == id)
    ensures FindSlot(ids, id, 0) == k
  {
  }

  /** Nothing in the way: every slot is free, or holds an image that ends before this one or begins after it. */
  predicate Free(s: Fwu, id: U32, n: U32)
    requires OnBoard(s) && id in Board3().attrs && n > 0
  {
    forall j :: 0 <= j < 3 ==> CheckSlot(Board3(), s.descs, s.loaded[j], id, n).Clear?
  }

  lemma FreeIsClear(s: Fwu, id: U32, n: U32)
    requires OnBoard(s) && id in Board3().attrs && n > 0 && Free(s, id, n)
    ensures CheckOverlaps(Board3(), s.descs, s.loaded, id, n, 0).Clear?
  {
    assert CheckOverlaps(Board3(), s.descs, s.loaded, id, n, 2).Clear?;
    assert CheckOverlaps(Board3(), s.descs, s.loaded, id, n, 1).Clear?;
  }

  /** id copied from the buffer in one block of n bytes, which changes nothing in memory, into slot k. */
  function Loaded(s: Fwu, id: U32, n: U32, k: nat): Fwu
    requires k < |s.loaded|
  {
    s.(descs := s.descs[id := Desc(Copied, n, n)], loaded := s.loaded[k := id], byCopy := s.byCopy + {id})
  }

  predicate CanLoad(s: Fwu, id: U32, n: U32, k: nat) {
    && OnBoard(s) && id in {ONE, TWO, THREE} && 0 < n <= Board3().attrs[id].maxSize && n <= 8
    && s.world == NonSecure && s.descs[id].state == Reset && Free(s, id, n)
    && FindSlot(s.loaded, id, 0) == 3 && FindSlot(s.loaded, NONE, 0) == k < 3
    && s.mem[8..8 + n] == Region(s.mem, Board3().attrs[id].base, n)
  }

  lemma SameStays(mem: seq<Byte>, base: nat, n: nat)
    requires |mem| == 16 && n <= 8 && base + n <= 16 && mem[8..8 + n] == Region(mem, base, n)
    ensures Store(mem, base, mem[8..8 + n]) == mem
  {
  }

  /** The first block of an image is copied once the request passes the checks. */
  lemma LoadIsBlock(s: Fwu, id: U32, n: U32, k: nat)
    requires CanLoad(s, id, n, k)
    ensures Step(Board3(), s, Copy(id, 8, n, n, true, true))
            == CopyBlock(Board3(), SetDesc(s, id, s.descs[id].(imageSize := n, copiedSize := 0)), id, 8, n, true, true)
  {
    FreeIsClear(s, id, n);
  }

  lemma LoadStep(s: Fwu, id: U32, n: U32, k: nat)
    requires CanLoad(s, id, n, k)
    ensures StepsTo(Board3(), s, Copy(id, 8, n, n, true, true), Loaded(s, id, n, k))
  {
    var s1 := SetDesc(s, id, s.descs[id].(imageSize := n, copiedSize := 0));
    LoadIsBlock(s, id, n, k);
    SameStays(s.mem, Board3().attrs[id].base, n);
    assert s1.descs[id := Desc(Copied, n, n)] == s.descs[id := Desc(Copied, n, n)];
  }

  function Verified(s: Fwu, id: U32): Fwu
    requires id in s.descs && id in Board3().attrs
  {
    var content := Region(s.mem, Board3().attrs[id].base, s.descs[id].imageSize);
    s.(descs := s.descs[id := s.descs[id].(state := Authenticated)], verified := s.verified[id := content])
  }

  lemma VerifyStep(s: Fwu, id: U32)
    requires OnBoard(s) && id in {ONE, TWO, THREE} && s.world == NonSecure && s.descs[id].state == Copied
    ensures StepsTo(Board3(), s, Auth(id, 0, 0, true, true, true), Verified(s, id))
  {
  }

  /** An image is loaded into the first free slot and verified. */
  lemma LoadsAndVerifies(mem: seq<Byte>, es: seq<Event>, id: U32, n: U32, k: nat) returns (es': seq<Event>)
    requires Play(mem, es).Played? && CanLoad(Play(mem, es).s, id, n, k)
    ensures Play(mem, es') == Played(Verified(Loaded(Play(mem, es).s, id, n, k), id), Play(mem, es).clean)
  {
    var s := Play(mem, es).s;
    var load := Copy(id, 8, n, n, true, true);
    LoadStep(s, id, n, k);
    Goes(mem, es, load, Loaded(s, id, n, k));
    VerifyStep(Loaded(s, id, n, k), id);
    Goes(mem, es + [load], Auth(id, 0, 0, true, true, true), Verified(Loaded(s, id, n, k), id));
    es' := es + [load] + [Auth(id, 0, 0, true, true, true)];
  }

  function Running(s: Fwu, id: U32): Fwu
    requires id in s.descs
  {
    s.(descs := s.descs[id := s.descs[id].(state := Executed)], secExec := id, world := World.Secure)
  }

  function Finished(s: Fwu, k: nat): Fwu
    requires k < |s.loaded| && s.secExec in s.descs
  {
    s.(descs := s.descs[s.secExec := s.descs[s.secExec].(state := ImageState.Reset)], loaded := s.loaded[k := NONE],
       secExec := NONE, world := NonSecure)
  }

  lemma ExecuteStep(s: Fwu, id: U32)
    requires OnBoard(s) && id in {ONE, TWO, THREE} && s.world == NonSecure && s.descs[id].state == Authenticated
    ensures StepsTo(Board3(), s, Execute(id), Running(s, id))
  {
  }

  lemma DoneStep(s: Fwu, k: nat)
    requires OnBoard(s) && s.secExec in {ONE, TWO, THREE} && s.world == World.Secure
    requires s.descs[s.secExec].state == Executed && FindSlot(s.loaded, s.secExec, 0) == k < 3
    ensures StepsTo(Board3(), s, FwuSpec.Done, Finished(s, k))
  {
  }

  /** id authenticated in place at 8, its first n bytes there, by the secure world, into slot k. */
  function Lying(s: Fwu, id: U32, n: U32, k: nat): Fwu
    requires id in s.descs && k < |s.loaded| && 8 + n <= |s.mem|
  {
    s.(descs := s.descs[id := s.descs[id].(state := Authenticated, imageSize := n)], loaded := s.loaded[k := id],
       byCopy := s.byCopy - {id}, verified := s.verified[id := s.mem[8..8 + n]])
  }

  lemma LyingStep(s: Fwu, id: U32, n: U32, k: nat)
    requires OnBoard(s) && id in {ONE, TWO, THREE} && s.world == World.Secure && s.descs[id].state == Reset
    requires 0 < n <= 8 && FindSlot(s.loaded, id, 0) == 3 && FindSlot(s.loaded, NONE, 0) == k < 3
    ensures StepsTo(Board3(), s, Auth(id, 8, n, true, true, true), Lying(s, id, n, k))
  {
  }

  /** TWO runs, has ONE authenticated in place, and is done. */
  function OnePlaced(s: Fwu, n: U32, k: nat): Fwu
    requires OnBoard(s) && k < 3 && n <= 8
  {
    Finished(Lying(Running(s, TWO), ONE, n, k), 0)
  }

  lemma PlacesOne(mem: seq<Byte>, es: seq<Event>, s: Fwu, n: U32, k: nat) returns (es': seq<Event>)
    requires Play(mem, es).Played? && Play(mem, es).s == s
    requires OnBoard(s) && s.world == NonSecure && 0 < n <= 8 && 0 < k < 3
    requires s.descs[TWO].state == Authenticated && s.descs[ONE].state == Reset && s.loaded[0] == TWO
    requires FindSlot(s.loaded, ONE, 0) == 3 && FindSlot(s.loaded, NONE, 0) == k
    ensures Play(mem, es') == Played(OnePlaced(s, n, k), Play(mem, es).clean && s.descs[ONE].copiedSize == 0)
  {
    var s1 := Running(s, TWO);
    var s2 := Lying(s1, ONE, n, k);
    var place := Auth(ONE, 8, n, true, true, true);
    ExecuteStep(s, TWO);
    Goes(mem, es, Execute(TWO), s1);
    LyingStep(s1, ONE, n, k);
    Goes(mem, es + [Execute(TWO)], place, s2);
    Slot(s2.loaded, TWO, 0);
    DoneStep(s2, 0);
    Goes(mem, es + [Execute(TWO)] + [place], FwuSpec.Done, OnePlaced(s, n, k));
    es' := es + [Execute(TWO)] + [place] + [FwuSpec.Done];
  }

  // ---------------------------------------------------- a copied size left over

  /** ONE has been executed and is done, with its copied size left over. */
  function OneDone(): Fwu {
    Finished(Running(Verified(Loaded(Fresh(Ones()), ONE, 4, 0), ONE), ONE), 0)
  }

  lemma OneIsDone() returns (es: seq<Event>)
    ensures Play(Ones(), es).Played? && Play(Ones(), es).s == OneDone()
  {
    var s := Fresh(Ones());
    Slot(s.loaded, ONE, 3);
    Slot(s.loaded, NONE, 0);
    assert s.mem[8..12] == s.mem[4..8];
    es := LoadsAndVerifies(Ones(), [], ONE, 4, 0);
    var s1 := Verified(Loaded(s, ONE, 4, 0), ONE);
    ExecuteStep(s1, ONE);
    Goes(Ones(), es, Execute(ONE), Running(s1, ONE));
    Slot(s1.loaded, ONE, 0);
    DoneStep(Running(s1, ONE), 0);
    Goes(Ones(), es + [Execute(ONE)], FwuSpec.Done, OneDone());
    es := es + [Execute(ONE)] + [FwuSpec.Done];
  }

  /** And TWO is verified. */
  function TwoVerified(): Fwu {
    Verified(Loaded(OneDone(), TWO, 2, 0), TWO)
  }

  lemma TwoIsVerified() returns (es: seq<Event>)
    ensures Play(Ones(), es).Played? && Play(Ones(), es).s == TwoVerified()
  {
    es := OneIsDone();
    Slot(OneDone().loaded, TWO, 3);
    Slot(OneDone().loaded, NONE, 0);
    assert Ones()[8..10] == Ones()[2..4];
    es := LoadsAndVerifies(Ones(), es, TWO, 2, 0);
  }

  /** The last event resets ONE and wipes THREE, which is then executed without the bytes that were verified. */
  ghost predicate WipesThree(states: seq<Fwu>, es: seq<Event>) {
    && IsRun(Board3(), states, es) && es != [] && es[|es| - 1] == ResetImage(ONE)
    && var s, s' := states[|es| - 1], states[|es|];
       && CopiedIn(Board3(), s, THREE) && !Concerns(s, es[|es| - 1], THREE)
       && Region(s.mem, 6, 2) == [1, 1] && Region(s'.mem, 6, 2) == [0, 0]
       && ImageExecute(Board3(), s', THREE).code == Success
       && THREE in s'.verified && s'.verified[THREE] == [1, 1]
  }

  function OneReset(s: Fwu, k: nat): Fwu
    requires k < |s.loaded|
  {
    s.(descs := s.descs[ONE := Desc(ImageState.Reset, 0, 0)], loaded := s.loaded[k := NONE], mem := Wiped())
  }

  lemma ResetStep(s: Fwu, k: nat)
    requires OnBoard(s) && s.world == NonSecure && s.mem == Ones() && FindSlot(s.loaded, ONE, 0) == k < 3
    requires s.descs[ONE].state == Authenticated && s.descs[ONE].copiedSize == 4
    ensures StepsTo(Board3(), s, ResetImage(ONE), OneReset(s, k))
  {
    assert Store(Ones(), 4, Zeros(4)) == Wiped();
  }

  /** THREE is verified, and ONE stands in slot k with four bytes counted as copied. */
  predicate CanWipe(s: Fwu, k: nat) {
    && OnBoard(s) && s.world == NonSecure && s.mem == Ones() && FindSlot(s.loaded, ONE, 0) == k < 3
    && s.descs[ONE].state == Authenticated && s.descs[ONE].copiedSize == 4
    && s.descs[THREE].state == Authenticated && THREE in s.byCopy
    && THREE in s.verified && s.verified[THREE] == [1, 1]
  }

  lemma ResetWipes(es: seq<Event>, s: Fwu, k: nat) returns (states: seq<Fwu>, es': seq<Event>)
    requires Play(Ones(), es).Played? && Play(Ones(), es).s == s
    requires CanWipe(s, k)
    ensures WipesThree(states, es') && states[|es'| - 1] == s
  {
    states := PlayIsRun(Ones(), es);
    ResetStep(s, k);
    OneMoreStep(Board3(), states, es, ResetImage(ONE), OneReset(s, k));
    states, es' := states + [OneReset(s, k)], es + [ResetImage(ONE)];
    assert Ones()[6..8] == [1, 1] && Wiped()[6..8] == [0, 0];
  }

  function Later(): Fwu {
    Verified(Loaded(OnePlaced(TwoVerified(), 2, 1), THREE, 2, 0), THREE)
  }

  lemma LaterCanWipe()
    ensures CanWipe(Later(), 1) && Later().descs[ONE].imageSize == 2
  {
    Slot(Later().loaded, ONE, 1);
    assert Ones()[6..8] == [1, 1];
  }

  lemma OneCanBePlaced()
    ensures var s := TwoVerified(); FindSlot(s.loaded, ONE, 0) == 3 && FindSlot(s.loaded, NONE, 0) == 1
  {
    Slot(TwoVerified().loaded, ONE, 3);
    Slot(TwoVerified().loaded, NONE, 1);
  }

  lemma ThreeCanLoadLater()
    ensures CanLoad(OnePlaced(TwoVerified(), 2, 1), THREE, 2, 0)
  {
    var s := OnePlaced(TwoVerified(), 2, 1);
    Slot(s.loaded, THREE, 3);
    Slot(s.loaded, NONE, 0);
    assert Ones()[8..10] == Ones()[6..8];
  }

  lemma LaterThree() returns (es: seq<Event>)
    ensures Play(Ones(), es).Played?
    ensures Play(Ones(), es).s == Later()
  {
    es := TwoIsVerified();
    OneCanBePlaced();
    es := PlacesOne(Ones(), es, TwoVerified(), 2, 1);
    ThreeCanLoadLater();
    es := LoadsAndVerifies(Ones(), es, THREE, 2, 0);
  }

  /**
   THREE is copied while ONE, whose copied size exceeds its new size, stands in
   the table: the overlap check passes, and the reset of ONE wipes THREE.
   */
  lemma StaleResetWipesLaterImage() returns (states: seq<Fwu>, es: seq<Event>)
    ensures PlatformOk(Board3()) && WipesThree(states, es)
    ensures states[|es| - 1].descs[ONE].copiedSize > states[|es| - 1].descs[ONE].imageSize
  {
    es := LaterThree();
    LaterCanWipe();
    states, es := ResetWipes(es, Later(), 1);
  }

  function Earlier(): Fwu {
    OnePlaced(Verified(Loaded(TwoVerified(), THREE, 2, 1), THREE), 4, 2)
  }

  lemma EarlierCanWipe()
    ensures CanWipe(Earlier(), 2) && Earlier().descs[ONE].imageSize == 4
  {
    Slot(Earlier().loaded, ONE, 2);
    assert Ones()[6..8] == [1, 1];
  }

  lemma ThreeCanLoadEarlier()
    ensures CanLoad(TwoVerified(), THREE, 2, 1)
  {
    Slot(TwoVerified().loaded, THREE, 3);
    Slot(TwoVerified().loaded, NONE, 1);
    assert Ones()[8..10] == Ones()[6..8];
  }

  lemma EarlierThree() returns (es: seq<Event>)
    ensures Play(Ones(), es).Played?
    ensures Play(Ones(), es).s == Earlier()
  {
    es := TwoIsVerified();
    ThreeCanLoadEarlier();
    es := LoadsAndVerifies(Ones(), es, THREE, 2, 1);
    var s := Verified(Loaded(TwoVerified(), THREE, 2, 1), THREE);
    Slot(s.loaded, ONE, 3);
    Slot(s.loaded, NONE, 2);
    es := PlacesOne(Ones(), es, s, 4, 2);
  }

  /** The same with a copied size that does not exceed the image size: THREE was copied before ONE was authenticated. */
  lemma StaleResetWipesEarlierImage() returns (states: seq<Fwu>, es: seq<Event>)
    ensures PlatformOk(Board3()) && WipesThree(states, es)
    ensures states[|es| - 1].descs[ONE].copiedSize == states[|es| - 1].descs[ONE].imageSize
  {
    es := EarlierThree();
    EarlierCanWipe();
    states, es := ResetWipes(es, Earlier(), 2);
  }

  // ------------------------------------------------------- away from its own place

  function Away(): Fwu {
    OnePlaced(Verified(Loaded(Fresh(Wiped()), TWO, 2, 0), TWO), 2, 1)
  }

  lemma AwayIsPlayed() returns (es: seq<Event>)
    ensures Play(Wiped(), es) == Played(Away(), true)
  {
    var s := Fresh(Wiped());
    Slot(s.loaded, TWO, 3);
    Slot(s.loaded, NONE, 0);
    assert s.mem[8..10] == s.mem[2..4];
    es := LoadsAndVerifies(Wiped(), [], TWO, 2, 0);
    s := Verified(Loaded(s, TWO, 2, 0), TWO);
    Slot(s.loaded, ONE, 3);
    Slot(s.loaded, NONE, 1);
    es := PlacesOne(Wiped(), es, s, 2, 1);
  }

  /**
   ONE, with nothing left over, is authenticated in place where its bytes lie in
   the buffer, not where it is executed: the run is clean, and ONE is executed
   without the bytes that were verified.
   */
  lemma VerifiedAwayFromItsPlace() returns (states: seq<Fwu>, es: seq<Event>)
    ensures PlatformOk(Board3()) && IsRun(Board3(), states, es) && CleanInPlace(states, es)
    ensures var s := states[|es|];
            && ImageExecute(Board3(), s, ONE).code == Success && Region(s.mem, 4, 2) == [0, 0]
            && ONE in s.verified && s.verified[ONE] == [1, 1]
  {
    es := AwayIsPlayed();
    states := PlayIsRun(Wiped(), es);
    assert Wiped()[8..10] == [1, 1] && Wiped()[4..6] == [0, 0];
  }
}
