/** Exception priorities over runs that also switch worlds, and the numbers behind priorities and levels. */
module EhfSwitch {
  import opened Bits
  import opened Ehf

  // ------------------------------------------------------------------- numbers

  lemma {:induction false} ShiftDivides(x: nat, k: nat)
    ensures ShiftRight(x, k) == x / PowerOfTwo(k)
    decreases k
  {
    if k > 0 {
      ShiftDivides(x / 2, k - 1);
      DivideTwice(x, PowerOfTwo(k - 1));
    }
  }

  lemma DivideTwice(x: nat, p: nat)
    requires p > 0
    ensures x / 2 / p == x / (2 * p)
  {
    var q := x / 2 / p;
    assert x / 2 == q * p + x / 2 % p;
    assert x == 2 * p * q + (2 * (x / 2 % p) + x % 2);
    Quotient(x, 2 * p, q, 2 * (x / 2 % p) + x % 2);
  }

  lemma Quotient(x: nat, d: nat, q: nat, r: nat)
    requires d > 0 && r < d && x == d * q + r
    ensures x / d == q
  {
    var a, b := x / d, x % d;
    assert d * a + b == d * q + r;
    assert a < q ==> d * (a + 1) <= d * q;
    assert a > q ==> d * (q + 1) <= d * a;
  }

  lemma {:induction false} ShiftMultiplies(x: nat, k: nat)
    ensures ShiftLeft(x, k) == x * PowerOfTwo(k)
    decreases k
  {
    if k > 0 { ShiftMultiplies(2 * x, k - 1); }
  }

  predicate IsUnit(u: nat) {
    u == 1 || u == 2 || u == 4 || u == 8 || u == 16 || u == 32 || u == 64
  }

  lemma Units(k: nat)
    requires k <= 6
    ensures IsUnit(PowerOfTwo(k))
  {
    assert PowerOfTwo(1) == 2 && PowerOfTwo(2) == 4 && PowerOfTwo(3) == 8;
    assert PowerOfTwo(4) == 16 && PowerOfTwo(5) == 32 && PowerOfTwo(6) == 64;
  }

  lemma RoundsDown(pri: nat, u: nat)
    requires IsUnit(u)
    ensures pri % 128 / u * u % 128 == pri <==> pri < 128 && pri % u == 0
  {
    var p := pri % 128;
    var down := p / u * u;
    assert down == p - p % u && 0 <= down < 128;
    assert down % 128 == down;
  }

  /**
   A level is what the implemented bits of a secure priority say; a priority is
   canonical exactly if it is secure and its bits that are not implemented are zero.
   */
  lemma LevelsAre(c: Config, pri: nat)
    requires ConfigOk(c)
    ensures var unit := PowerOfTwo(7 - c.priBits);
            unit > 0 && PriToIdx(c, pri) == pri % 128 / unit && (Canonical(c, pri) <==> pri < 128 && pri % unit == 0)
  {
    var unit := PowerOfTwo(7 - c.priBits);
    Units(7 - c.priBits);
    ShiftDivides(pri % 128, 7 - c.priBits);
    ShiftMultiplies(PriToIdx(c, pri), 7 - c.priBits);
    assert IdxToPri(c, PriToIdx(c, pri)) == pri % 128 / unit * unit % 128;
    RoundsDown(pri, unit);
  }

  // -------------------------------------------------------------- the stack, exactly

  /** The priority's level has a descriptor, and the priority is above the running one. */
  predicate MayUse(c: Config, pri: nat, runPri: nat)
    requires ConfigOk(c)
  {
    pri < runPri && PriToIdx(c, pri) < c.numPriorities && PriToIdx(c, pri) in c.valid
  }

  /** The mask in force: the priority last named while levels are active, and otherwise the one from before. */
  function InForce(s: Pe, ops: seq<Op>): nat {
    if Stack(ops) != [] && ops != [] && !ops[|ops| - 1].Allow? then ops[|ops| - 1].pri else MaskUnder(s, ops)
  }

  lemma StackTop(c: Config, s: Pe, ops: seq<Op>)
    requires ConfigOk(c) && s.active == 0 && Matched(ops) && Run(c, s, ops).Done?
    ensures var r := Run(c, s, ops).next;
            && (r.active == 0 <==> Stack(ops) == []) && r.mask == InForce(s, ops)
            && (r.active != 0 ==> Ctz(r.active) == PriToIdx(c, Stack(ops)[0]))
  {
    RunIsStack(c, s, ops);
    var r := Run(c, s, ops).next;
    EmptyBitmap(r.active);
    if r.active != 0 {
      TopIsCtz(r.active, 0);
      MaskIsLastNamed(c, s, ops);
      assert Levels(c, Stack(ops))[0] == PriToIdx(c, Stack(ops)[0]);
    }
  }

  /**
   After every run of matched operations from an idle CPU: a priority can be
   activated exactly if it may be used, its level is above the top of the
   reference stack, and it is above the mask in force.
   */
  lemma WhenActivationSucceeds(c: Config, s: Pe, ops: seq<Op>, pri: nat, runPri: nat)
    requires ConfigOk(c) && s.active == 0 && Matched(ops) && Run(c, s, ops).Done?
    ensures Run(c, s, ops + [Push(pri, runPri)]).Done?
            <==> && MayUse(c, pri, runPri) && pri < InForce(s, ops)
                 && (Stack(ops) != [] ==> PriToIdx(c, pri) < PriToIdx(c, Stack(ops)[0]))
  {
    StackTop(c, s, ops);
    RunOne(c, s, ops, Push(pri, runPri), Run(c, s, ops).next);
  }

  /** And one can be deactivated exactly if it may be used, is of the level on top, and is not above the mask. */
  lemma WhenDeactivationSucceeds(c: Config, s: Pe, ops: seq<Op>, pri: nat, runPri: nat)
    requires ConfigOk(c) && s.active == 0 && Matched(ops) && Run(c, s, ops).Done?
    ensures Run(c, s, ops + [Pop(pri, runPri)]).Done?
            <==> && MayUse(c, pri, runPri) && pri >= InForce(s, ops)
                 && Stack(ops) != [] && PriToIdx(c, pri) == PriToIdx(c, Stack(ops)[0])
  {
    StackTop(c, s, ops);
    RunOne(c, s, ops, Pop(pri, runPri), Run(c, s, ops).next);
  }

  /** Preemption can be allowed exactly if a mask is stashed and nothing is active; that puts the stashed mask back. */
  lemma WhenPreemptionIsAllowed(c: Config, s: Pe, ops: seq<Op>)
    requires ConfigOk(c) && s.active == 0 && Matched(ops) && Run(c, s, ops).Done?
    ensures Run(c, s, ops + [Allow]).Done? <==> s.nsMask != 0 && NoAllow(ops) && Stack(ops) == []
  {
    StackTop(c, s, ops);
    RunIsStack(c, s, ops);
    RunOne(c, s, ops, Allow, Run(c, s, ops).next);
  }

  // -------------------------------------------------------------- switching worlds

  /** The running priority is not secure and nothing is active. */
  predicate Quiet(s: Pe, runPri: nat) {
    runPri % 256 >= 128 && s.active == 0
  }

  lemma SecureIs(pri: nat)
    ensures IsPriSecure(pri) <==> pri % 256 < 128
  {
    assert pri / 128 == 2 * (pri / 256) + pri % 256 / 128;
  }

  /** The two hooks do nothing exactly if an interrupt is being handled, or on the way back if nothing is stashed. */
  lemma WhenHooksDoNothing(s: Pe, runPri: nat)
    ensures ExitedNormalWorld(s, runPri) == Done(s) <==> !Quiet(s, runPri)
    ensures EnteringNormalWorld(s, runPri) == Done(s) <==> !Quiet(s, runPri) || s.nsMask == 0
  {
    SecureIs(runPri);
    SecureIs(s.mask);
  }

  /** Leaving and entering the normal world, a secure operation, or the normal world setting its own mask. */
  datatype Event = Exit(runPri: nat) | Enter(runPri: nat) | Secure(op: Op) | SetMask(mask: nat)

  function Happens(c: Config, s: Pe, e: Event): Outcome
    requires ConfigOk(c)
  {
    match e
    case Exit(runPri) => ExitedNormalWorld(s, runPri)
    case Enter(runPri) => EnteringNormalWorld(s, runPri)
    case Secure(op) => Step(c, s, op)
    case SetMask(mask) => Done(s.(mask := mask))
  }

  function Play(c: Config, s: Pe, es: seq<Event>): Outcome
    requires ConfigOk(c)
    decreases |es|
  {
    if es == [] then Done(s)
    else
      var r := Play(c, s, es[..|es| - 1]);
      if r.Done? then Happens(c, r.next, es[|es| - 1]) else r
  }

  /** The normal world's own mask: the one it set last. */
  function OwnMask(m: nat, es: seq<Event>): nat
    decreases |es|
  {
    if es == [] then m
    else if es[|es| - 1].SetMask? then es[|es| - 1].mask
    else OwnMask(m, es[..|es| - 1])
  }

  /** The normal world only sets masks in its own range, while its mask is in force. */
  ghost predicate Orderly(c: Config, s: Pe, es: seq<Event>)
    requires ConfigOk(c)
    decreases |es|
  {
    es != [] ==>
      var init, e := es[..|es| - 1], es[|es| - 1];
      && Orderly(c, s, init)
      && (e.SetMask? ==> 128 <= e.mask < 256)
      && (e.SetMask? && Play(c, s, init).Done? ==>
            Play(c, s, init).next.active == 0 && Play(c, s, init).next.nsMask == 0)
  }

  lemma EventKeeps(c: Config, s: Pe, m: nat, e: Event)
    requires ConfigOk(c) && 128 <= m < 256 && Stashed(s, m)
    requires e.SetMask? ==> s.active == 0 && s.nsMask == 0
    ensures var r := Happens(c, s, e);
            && r != Panic(264) && r != Panic(315)
            && (r.Done? ==> Stashed(r.next, if e.SetMask? then e.mask else m))
  {
    SecureIs(m);
    if e.Secure? && Step(c, s, e.op).Done? { StashStep(c, s, m, e.op); }
  }

  /**
   Over every run of world switches and secure operations, nested and repeated in
   any order, the normal world's mask is never lost: it is in force or stashed, it
   is in force whenever nothing is stashed and nothing active, and neither switch
   can find an unexpected mask.
   */
  lemma {:induction false} NormalMaskIsNeverLost(c: Config, s: Pe, es: seq<Event>)
    requires ConfigOk(c) && s.active == 0 && s.nsMask == 0 && 128 <= s.mask < 256 && Orderly(c, s, es)
    ensures var r := Play(c, s, es);
            && r != Panic(264) && r != Panic(315) && 128 <= OwnMask(s.mask, es) < 256
            && (r.Done? ==> Stashed(r.next, OwnMask(s.mask, es)))
            && (r.Done? && r.next.active == 0 && r.next.nsMask == 0 ==> r.next.mask == OwnMask(s.mask, es))
    decreases |es|
  {
    if es != [] {
      var init, e := es[..|es| - 1], es[|es| - 1];
      NormalMaskIsNeverLost(c, s, init);
      if Play(c, s, init).Done? { EventKeeps(c, Play(c, s, init).next, OwnMask(s.mask, init), e); }
    }
  }

  lemma PlayOne(c: Config, s: Pe, es: seq<Event>, e: Event, next: Pe)
    requires ConfigOk(c) && Play(c, s, es) == Done(next)
    ensures Play(c, s, es + [e]) == Happens(c, next, e)
  {
    assert (es + [e])[..|es + [e]| - 1] == es;
  }

  /**
   After any such run, entering the normal world succeeds; if it is quiet, with the
   normal world's own mask in force and nothing stashed. Leaving it succeeds unless it
   is quiet with a mask stashed already.
   */
  lemma SwitchesAfterAnyRun(c: Config, s: Pe, es: seq<Event>, runPri: nat)
    requires ConfigOk(c) && s.active == 0 && s.nsMask == 0 && 128 <= s.mask < 256 && Orderly(c, s, es)
    requires Play(c, s, es).Done?
    ensures var now := Play(c, s, es).next;
            var own := OwnMask(s.mask, es);
            && Play(c, s, es + [Enter(runPri)])
               == Done(if Quiet(now, runPri) then now.(mask := own, nsMask := 0) else now)
            && Play(c, s, es + [Exit(runPri)])
               == if Quiet(now, runPri) && now.nsMask != 0 then AssertFailed(255)
                  else Done(if Quiet(now, runPri) then now.(mask := 128, nsMask := own) else now)
  {
    var now := Play(c, s, es).next;
    NormalMaskIsNeverLost(c, s, es);
    SecureIs(runPri);
    SecureIs(OwnMask(s.mask, es));
    PlayOne(c, s, es, Enter(runPri), now);
    PlayOne(c, s, es, Exit(runPri), now);
  }
}
