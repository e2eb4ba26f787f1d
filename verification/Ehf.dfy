/**
 EL3 exception priorities: which level is active, what priority mask the
 interrupt controller holds, and the non-secure mask stashed across a switch
 to the secure world. A panic or a failed assertion ends the run; the numbers
 they carry are line numbers of the source.
 */
module Ehf {
  import opened Bits

  const HIGHEST_NS_PRIORITY: nat := 0x80

  /** priBits is the number of implemented secure priority bits; valid the indices with a descriptor. */
  datatype Config = Config(priBits: nat, numPriorities: nat, valid: set<nat>)

  predicate ConfigOk(c: Config) {
    1 <= c.priBits <= 7 && c.numPriorities <= 32
  }

  /** One CPU's exception data, and the mask its interrupt controller interface holds. */
  datatype Pe = Pe(active: nat, initMask: nat, nsMask: nat, mask: nat)

  datatype Outcome = Done(next: Pe) | Panic(line: nat) | AssertFailed(line: nat)

  function ShiftRight(x: nat, k: nat): nat
    decreases k
  {
    if k == 0 then x else ShiftRight(x / 2, k - 1)
  }

  function ShiftLeft(x: nat, k: nat): nat
    decreases k
  {
    if k == 0 then x else ShiftLeft(2 * x, k - 1)
  }

  function PriToIdx(c: Config, pri: nat): nat
    requires ConfigOk(c)
  {
    ShiftRight(pri % 128, 7 - c.priBits)
  }

  function IdxToPri(c: Config, idx: nat): nat
    requires ConfigOk(c)
  {
    ShiftLeft(idx, 7 - c.priBits) % 128
  }

  predicate IsPriSecure(pri: nat) {
    pri / 128 % 2 == 0
  }

  /** A priority that some index denotes, as handler registration demands. */
  predicate Canonical(c: Config, pri: nat)
    requires ConfigOk(c)
  {
    IdxToPri(c, PriToIdx(c, pri)) == pri
  }

  // --------------------------------------------------------------- operations

  /** runPri is the running priority that the interrupt controller answers. */
  function Activate(c: Config, s: Pe, pri: nat, runPri: nat): Outcome
    requires ConfigOk(c)
  {
    var idx := PriToIdx(c, pri);
    if pri >= runPri then Panic(114)
    else if idx >= c.numPriorities then AssertFailed(59)
    else if idx !in c.valid then AssertFailed(60)
    else if s.active != 0 && idx >= Ctz(s.active) then Panic(128)
    else if pri >= s.mask then Panic(143)
    else Done(s.(active := Or(s.active, PowerOfTwo(idx)),
                 mask := pri,
                 initMask := if s.active == 0 then s.mask else s.initMask))
  }

  function Deactivate(c: Config, s: Pe, pri: nat, runPri: nat): Outcome
    requires ConfigOk(c)
  {
    var idx := PriToIdx(c, pri);
    if pri >= runPri then Panic(181)
    else if idx >= c.numPriorities then AssertFailed(59)
    else if idx !in c.valid then AssertFailed(60)
    else if s.active == 0 || idx != Ctz(s.active) then Panic(195)
    else
      var active := And(s.active, s.active - 1);
      if s.mask > pri then Panic(224)
      else Done(s.(active := active, mask := if active == 0 then s.initMask else pri))
  }

  function ExitedNormalWorld(s: Pe, runPri: nat): Outcome {
    if IsPriSecure(runPri) then Done(s)
    else if s.active != 0 then Done(s)
    else if s.nsMask != 0 then AssertFailed(255)
    else if IsPriSecure(s.mask) then Panic(264)
    else Done(s.(nsMask := s.mask, mask := HIGHEST_NS_PRIORITY))
  }

  function EnteringNormalWorld(s: Pe, runPri: nat): Outcome {
    if IsPriSecure(runPri) then Done(s)
    else if s.active != 0 then Done(s)
    else if s.nsMask == 0 then Done(s)
    else if s.mask != HIGHEST_NS_PRIORITY && s.mask != s.nsMask then Panic(315)
    else Done(s.(mask := s.nsMask, nsMask := 0))
  }

  function AllowNsPreemption(s: Pe): Outcome {
    if s.nsMask == 0 then AssertFailed(346)
    else if s.active != 0 then Panic(352)
    else Done(s.(mask := s.nsMask, nsMask := 0))
  }

  // --------------------------------------------------------------------- runs

  datatype Op = Push(pri: nat, runPri: nat) | Pop(pri: nat, runPri: nat) | Allow

  function Step(c: Config, s: Pe, op: Op): Outcome
    requires ConfigOk(c)
  {
    match op
    case Push(pri, runPri) => Activate(c, s, pri, runPri)
    case Pop(pri, runPri) => Deactivate(c, s, pri, runPri)
    case Allow => AllowNsPreemption(s)
  }

  function Run(c: Config, s: Pe, ops: seq<Op>): Outcome
    requires ConfigOk(c)
    decreases |ops|
  {
    if ops == [] then Done(s)
    else
      var r := Run(c, s, ops[..|ops| - 1]);
      if r.Done? then Step(c, r.next, ops[|ops| - 1]) else r
  }

  function StackNext(st: seq<nat>, op: Op): seq<nat> {
    match op
    case Push(pri, _) => [pri] + st
    case Pop(_, _) => if st == [] then [] else st[1..]
    case Allow => st
  }

  /** The reference: activations push, deactivations pop, nothing else is remembered. */
  function Stack(ops: seq<Op>): seq<nat>
    decreases |ops|
  {
    if ops == [] then [] else StackNext(Stack(ops[..|ops| - 1]), ops[|ops| - 1])
  }

  predicate AllCanonical(c: Config, ops: seq<Op>)
    requires ConfigOk(c)
  {
    forall i :: 0 <= i < |ops| && !ops[i].Allow? ==> Canonical(c, ops[i].pri)
  }

  function Levels(c: Config, st: seq<nat>): seq<nat>
    requires ConfigOk(c)
  {
    seq(|st|, i requires 0 <= i < |st| => PriToIdx(c, st[i]))
  }

  lemma SameLevel(c: Config, p: nat, q: nat)
    requires ConfigOk(c) && Canonical(c, p) && Canonical(c, q) && PriToIdx(c, p) == PriToIdx(c, q)
    ensures p == q
  {
  }

  // ------------------------------------------------------------- stack results

  /**
   The bitmap is the stack st of activated priorities, top first; m was the mask
   before the first of them, and the mask never exceeds the top.
   */
  predicate StackInv(c: Config, s: Pe, st: seq<nat>, m: nat)
    requires ConfigOk(c)
  {
    && Indices(s.active, 0) == Levels(c, st)
    && Ascending(st)
    && (st == [] ==> s.mask == m)
    && (st != [] ==> s.initMask == m && s.mask <= st[0])
  }

  lemma EmptyBitmap(x: nat)
    ensures x == 0 <==> Indices(x, 0) == []
  {
    if x != 0 { TopIsCtz(x, 0); }
  }

  lemma PushStep(c: Config, s: Pe, st: seq<nat>, m: nat, pri: nat, runPri: nat)
    requires ConfigOk(c) && StackInv(c, s, st, m) && Activate(c, s, pri, runPri).Done?
    ensures StackInv(c, Activate(c, s, pri, runPri).next, [pri] + st, m)
  {
    EmptyBitmap(s.active);
    var idx := PriToIdx(c, pri);
    PushSetsTop(s.active, idx, 0);
    assert Levels(c, [pri] + st) == [idx] + Levels(c, st);
  }

  /** Deactivating the level that was activated last never finds too low a mask. */
  lemma PopStep(c: Config, s: Pe, st: seq<nat>, m: nat, pri: nat, runPri: nat)
    requires ConfigOk(c) && StackInv(c, s, st, m) && (st != [] ==> pri == st[0])
    ensures var r := Deactivate(c, s, pri, runPri);
            && r != Panic(224)
            && (r.Done? ==> st != [] && StackInv(c, r.next, st[1..], m))
  {
    EmptyBitmap(s.active);
    if st != [] { PopBits(c, s.active, st); }
  }

  lemma PopBits(c: Config, x: nat, st: seq<nat>)
    requires ConfigOk(c) && x != 0 && st != [] && Indices(x, 0) == Levels(c, st)
    ensures Indices(And(x, x - 1), 0) == Levels(c, st[1..]) && (And(x, x - 1) == 0 <==> |st| == 1)
  {
    PopClearsTop(x, 0);
    EmptyBitmap(And(x, x - 1));
    assert Levels(c, st[1..]) == Levels(c, st)[1..];
  }

  /** Every deactivation names the priority that the matching activation named. */
  predicate Matched(ops: seq<Op>) {
    forall i :: 0 <= i < |ops| && ops[i].Pop? && Stack(ops[..i]) != [] ==> ops[i].pri == Stack(ops[..i])[0]
  }

  predicate NoAllow(ops: seq<Op>) {
    forall i :: 0 <= i < |ops| ==> !ops[i].Allow?
  }

  /** One operation over a stack; allowing preemption puts the stashed mask in force. */
  lemma StackStep(c: Config, s: Pe, st: seq<nat>, m: nat, op: Op)
    requires ConfigOk(c) && StackInv(c, s, st, m) && (op.Pop? && st != [] ==> op.pri == st[0])
    ensures Step(c, s, op) != Panic(224)
    ensures Step(c, s, op).Done? ==>
              var s' := Step(c, s, op).next;
              && StackInv(c, s', StackNext(st, op), if op.Allow? then s.nsMask else m)
              && s'.nsMask == (if op.Allow? then 0 else s.nsMask) && (op.Allow? ==> s.nsMask != 0)
  {
    match op
    case Push(pri, runPri) => if Step(c, s, op).Done? { PushStep(c, s, st, m, pri, runPri); }
    case Pop(pri, runPri) => PopStep(c, s, st, m, pri, runPri);
    case Allow => EmptyBitmap(s.active);
  }

  /** The mask from before the first activation: preemption being allowed puts back the stashed one. */
  function MaskUnder(s: Pe, ops: seq<Op>): nat {
    if NoAllow(ops) then s.mask else s.nsMask
  }

  /** What is stashed is there until preemption is allowed. */
  function StashAfter(s: Pe, ops: seq<Op>): nat {
    if NoAllow(ops) then s.nsMask else 0
  }

  lemma OneMoreOp(ops: seq<Op>)
    requires ops != []
    ensures NoAllow(ops) <==> NoAllow(ops[..|ops| - 1]) && !ops[|ops| - 1].Allow?
  {
    var init := ops[..|ops| - 1];
    assert ops == init + [ops[|ops| - 1]];
  }

  /**
   Over every run of matched activations and deactivations from an idle CPU, with
   preemption allowed wherever the code lets it, the bitmap is the reference
   stack, the mask never exceeds the highest active level, it is back to its
   first value, or to the stashed one once preemption has been allowed, whenever
   nothing is active, and the run cannot end in the mask panic of a deactivation.
   */
  lemma {:induction false} RunIsStack(c: Config, s: Pe, ops: seq<Op>)
    requires ConfigOk(c) && s.active == 0 && Matched(ops)
    ensures Run(c, s, ops) != Panic(224)
    ensures Run(c, s, ops).Done? ==>
              && StackInv(c, Run(c, s, ops).next, Stack(ops), MaskUnder(s, ops))
              && Run(c, s, ops).next.nsMask == StashAfter(s, ops)
    decreases |ops|
  {
    if ops != [] {
      var n := |ops| - 1;
      assert Matched(ops[..n]) by {
        assert forall i :: 0 <= i < n ==> ops[..n][..i] == ops[..i];
      }
      RunIsStack(c, s, ops[..n]);
      OneMoreOp(ops);
      var r := Run(c, s, ops[..n]);
      if r.Done? {
        StackStep(c, r.next, Stack(ops[..n]), MaskUnder(s, ops[..n]), ops[n]);
      }
    }
  }

  lemma {:induction false} StackCanonical(c: Config, ops: seq<Op>)
    requires ConfigOk(c) && AllCanonical(c, ops)
    ensures forall i :: 0 <= i < |Stack(ops)| ==> Canonical(c, Stack(ops)[i])
    decreases |ops|
  {
    if ops != [] { StackCanonical(c, ops[..|ops| - 1]); }
  }

  /** With canonical priorities a deactivation that gets past the level check is matched. */
  lemma {:induction false} CanonicalIsMatched(c: Config, s: Pe, ops: seq<Op>)
    requires ConfigOk(c) && s.active == 0 && AllCanonical(c, ops)
    requires Run(c, s, ops).Done?
    ensures Matched(ops)
    decreases |ops|
  {
    if ops != [] {
      var n := |ops| - 1;
      CanonicalIsMatched(c, s, ops[..n]);
      forall i | 0 <= i < |ops| && ops[i].Pop? && Stack(ops[..i]) != [] ensures ops[i].pri == Stack(ops[..i])[0] {
        if i < n {
          assert ops[..n][..i] == ops[..i] && ops[..n][i] == ops[i];
        } else {
          TopMatches(c, s, ops[..n], ops[n].pri, ops[n].runPri);
        }
      }
    }
  }

  lemma TopMatches(c: Config, s: Pe, ops: seq<Op>, pri: nat, runPri: nat)
    requires ConfigOk(c) && s.active == 0 && Matched(ops) && AllCanonical(c, ops)
    requires Canonical(c, pri) && Run(c, s, ops).Done?
    ensures var r := Deactivate(c, Run(c, s, ops).next, pri, runPri);
            r.Done? || r == Panic(224) ==> Stack(ops) != [] && pri == Stack(ops)[0]
  {
    RunIsStack(c, s, ops);
    StackCanonical(c, ops);
    var s1, st := Run(c, s, ops).next, Stack(ops);
    EmptyBitmap(s1.active);
    if st != [] {
      TopIsCtz(s1.active, 0);
      assert Levels(c, st)[0] == PriToIdx(c, st[0]);
      if PriToIdx(c, pri) == Ctz(s1.active) { SameLevel(c, pri, st[0]); }
    }
  }

  /** With canonical priorities the mask panic of a deactivation is unreachable, whatever the run. */
  lemma {:induction false} CanonicalNeverMaskPanics(c: Config, s: Pe, ops: seq<Op>)
    requires ConfigOk(c) && s.active == 0 && AllCanonical(c, ops)
    ensures Run(c, s, ops) != Panic(224)
    ensures Run(c, s, ops).Done? ==> StackInv(c, Run(c, s, ops).next, Stack(ops), MaskUnder(s, ops))
    decreases |ops|
  {
    if ops != [] {
      var n := |ops| - 1;
      CanonicalNeverMaskPanics(c, s, ops[..n]);
      if Run(c, s, ops).Done? {
        CanonicalIsMatched(c, s, ops);
        RunIsStack(c, s, ops);
      } else if Run(c, s, ops[..n]).Done? && ops[n].Pop? && Run(c, s, ops) == Panic(224) {
        CanonicalIsMatched(c, s, ops[..n]);
        TopMatches(c, s, ops[..n], ops[n].pri, ops[n].runPri);
        RunIsStack(c, s, ops[..n]);
        PopStep(c, Run(c, s, ops[..n]).next, Stack(ops[..n]), MaskUnder(s, ops[..n]), ops[n].pri, ops[n].runPri);
      }
    }
  }

  /** A deactivation may name the level by another priority than its activation did; then it can panic. */
  lemma NonCanonicalCanMaskPanic()
    ensures var c := Config(4, 16, {2});
            ConfigOk(c) && Run(c, Pe(0, 0, 0, 0xFF), [Push(0x13, 0xFF), Pop(0x10, 0xFF)]) == Panic(224)
  {
    var c := Config(4, 16, {2});
    var s := Pe(0, 0, 0, 0xFF);
    assert PowerOfTwo(1) == 2 && PowerOfTwo(2) == 4;
    assert ShiftRight(0x13, 3) == ShiftRight(0x9, 2) == ShiftRight(0x4, 1) == 2;
    assert ShiftRight(0x10, 3) == ShiftRight(0x8, 2) == ShiftRight(0x4, 1) == 2;
    assert PriToIdx(c, 0x13) == 2 && PriToIdx(c, 0x10) == 2;
    assert [Push(0x13, 0xFF), Pop(0x10, 0xFF)][..1] == [Push(0x13, 0xFF)];
    assert [Push(0x13, 0xFF)][..0] == [];
    assert Run(c, s, [Push(0x13, 0xFF)]) == Done(Pe(4, 0xFF, 0, 0x13));
    assert Ctz(2) == 1 && Ctz(4) == 2;
  }

  /** While anything is active, the mask is the priority that the last operation named. */
  lemma MaskIsLastNamed(c: Config, s: Pe, ops: seq<Op>)
    requires ConfigOk(c) && s.active == 0 && Run(c, s, ops).Done? && Run(c, s, ops).next.active != 0
    ensures ops != [] && !ops[|ops| - 1].Allow? && Run(c, s, ops).next.mask == ops[|ops| - 1].pri
  {
  }

  /**
   In every run from an idle CPU, a deactivation that gets past the level checks
   panics on the mask exactly if its priority is below the one that the operation
   before it named.
   */
  lemma WhenDeactivationMaskPanics(c: Config, s: Pe, ops: seq<Op>, pri: nat, runPri: nat)
    requires ConfigOk(c) && s.active == 0 && Run(c, s, ops).Done?
    ensures Run(c, s, ops + [Pop(pri, runPri)]) == Panic(224)
            <==> && ops != [] && !ops[|ops| - 1].Allow? && pri < ops[|ops| - 1].pri
                 && pri < runPri && PriToIdx(c, pri) < c.numPriorities && PriToIdx(c, pri) in c.valid
                 && Run(c, s, ops).next.active != 0 && PriToIdx(c, pri) == Ctz(Run(c, s, ops).next.active)
  {
    RunOne(c, s, ops, Pop(pri, runPri), Run(c, s, ops).next);
    if Run(c, s, ops).next.active != 0 { MaskIsLastNamed(c, s, ops); }
  }

  /** The level of a priority is one that may be activated over those of the bitmap. */
  predicate MayActivate(c: Config, active: nat, pri: nat, runPri: nat)
    requires ConfigOk(c)
  {
    var idx := PriToIdx(c, pri);
    pri < runPri && idx < c.numPriorities && idx in c.valid && (active != 0 ==> idx < Ctz(active))
  }

  /**
   A deactivation that leaves levels active puts the mask at the level just
   deactivated, not at the next one. So of the priorities that may be activated
   over what is left, exactly those not above the one deactivated panic on the
   mask, and exactly those above it are activated.
   */
  lemma ReactivationPanics(c: Config, s: Pe, pri: nat, runPri: nat, again: nat, runPri': nat)
    requires ConfigOk(c) && Deactivate(c, s, pri, runPri).Done? && And(s.active, s.active - 1) != 0
    ensures var r := Activate(c, Deactivate(c, s, pri, runPri).next, again, runPri');
            var may := MayActivate(c, And(s.active, s.active - 1), again, runPri');
            (r == Panic(143) <==> may && again >= pri) && (r.Done? <==> may && again < pri)
  {
  }

  lemma RunOne(c: Config, s: Pe, ops: seq<Op>, op: Op, next: Pe)
    requires ConfigOk(c) && Run(c, s, ops) == Done(next)
    ensures Run(c, s, ops + [op]) == Step(c, next, op)
  {
    assert (ops + [op])[..|ops + [op]| - 1] == ops;
  }

  /** Two levels nested, the upper one left and entered again. */
  lemma ReactivationRun()
    ensures var c, s := Config(4, 16, {2, 3}), Pe(0, 0, 0, 0xFF);
            var nested := [Push(0x18, 0xFF), Push(0x10, 0xFF)] + [Pop(0x10, 0xFF)];
            && ConfigOk(c) && Run(c, s, nested) == Done(Pe(8, 0xFF, 0, 0x10))
            && Run(c, s, nested + [Push(0x10, 0xFF)]) == Panic(143)
  {
    var c, s := Config(4, 16, {2, 3}), Pe(0, 0, 0, 0xFF);
    TwoLevels(c);
    RunOne(c, s, [], Push(0x18, 0xFF), s);
    assert [] + [Push(0x18, 0xFF)] == [Push(0x18, 0xFF)];
    RunOne(c, s, [Push(0x18, 0xFF)], Push(0x10, 0xFF), Pe(8, 0xFF, 0, 0x18));
    assert [Push(0x18, 0xFF)] + [Push(0x10, 0xFF)] == [Push(0x18, 0xFF), Push(0x10, 0xFF)];
    RunOne(c, s, [Push(0x18, 0xFF), Push(0x10, 0xFF)], Pop(0x10, 0xFF), Pe(12, 0xFF, 0, 0x10));
    RunOne(c, s, [Push(0x18, 0xFF), Push(0x10, 0xFF)] + [Pop(0x10, 0xFF)], Push(0x10, 0xFF), Pe(8, 0xFF, 0, 0x10));
  }

  lemma TwoLevels(c: Config)
    requires c == Config(4, 16, {2, 3})
    ensures PriToIdx(c, 0x18) == 3 && PriToIdx(c, 0x10) == 2 && PowerOfTwo(3) == 8 && PowerOfTwo(2) == 4
    ensures Ctz(8) == 3 && Ctz(12) == 2 && Or(0, 8) == 8 && Or(8, 4) == 12 && And(12, 11) == 8
  {
    assert PowerOfTwo(1) == 2;
    assert ShiftRight(0x18, 3) == ShiftRight(0xC, 2) == ShiftRight(6, 1) == 3;
    assert ShiftRight(0x10, 3) == ShiftRight(8, 2) == ShiftRight(4, 1) == 2;
    assert Ctz(2) == 1 && Ctz(4) == 2 && Ctz(3) == 0 && Ctz(6) == 1;
    assert Or(2, 1) == 3 && Or(4, 2) == 6;
    assert And(3, 2) == 2 && And(6, 5) == 4;
  }

  // ------------------------------------------------------ world-switch results

  /** The mask that the secure world falls back to when no level is active. */
  function BaseMask(s: Pe): nat {
    if s.active == 0 then s.mask else s.initMask
  }

  /** In the secure world, m is either stashed behind the highest non-secure mask, or back in force. */
  predicate Stashed(s: Pe, m: nat) {
    || (s.nsMask == m && BaseMask(s) == HIGHEST_NS_PRIORITY)
    || (s.nsMask == 0 && BaseMask(s) == m)
  }

  lemma StashStep(c: Config, s: Pe, m: nat, op: Op)
    requires ConfigOk(c) && Stashed(s, m) && Step(c, s, op).Done?
    ensures Stashed(Step(c, s, op).next, m)
  {
    if op.Push? {
      PushSetsTop(s.active, PriToIdx(c, op.pri), 0);
    }
  }

  lemma {:induction false} StashRun(c: Config, s: Pe, m: nat, ops: seq<Op>)
    requires ConfigOk(c) && Stashed(s, m) && Run(c, s, ops).Done?
    ensures Stashed(Run(c, s, ops).next, m)
    decreases |ops|
  {
    if ops != [] {
      StashRun(c, s, m, ops[..|ops| - 1]);
      StashStep(c, Run(c, s, ops[..|ops| - 1]).next, m, ops[|ops| - 1]);
    }
  }

  /**
   Leaving the normal world with mask m, doing anything that does not fail and
   drains its activations, and coming back restores m and empties the stash,
   without a panic, when no interrupt is running at the two switches.
   */
  lemma SecureWindowRestoresMask(c: Config, s: Pe, exitPri: nat, ops: seq<Op>, enterPri: nat)
    requires ConfigOk(c) && s.active == 0 && s.nsMask == 0 && !IsPriSecure(s.mask)
    requires !IsPriSecure(exitPri) && !IsPriSecure(enterPri)
    ensures ExitedNormalWorld(s, exitPri).Done?
    ensures var r := Run(c, ExitedNormalWorld(s, exitPri).next, ops);
            r.Done? && r.next.active == 0 ==>
              && EnteringNormalWorld(r.next, enterPri).Done?
              && var s' := EnteringNormalWorld(r.next, enterPri).next;
                 s'.mask == s.mask && s'.nsMask == 0 && s'.active == 0
  {
    var s1 := ExitedNormalWorld(s, exitPri).next;
    if Run(c, s1, ops).Done? {
      StashRun(c, s1, s.mask, ops);
    }
  }

  // -------------------------------------------------- the code on a CPU's data

  /** pe_exc_data_t of one CPU, with the priority mask register of its interrupt controller. */
  class CpuExceptionData {
    const config: Config
    var activePriBits: nat
    var initPriMask: nat
    var nsPriMask: nat
    var priorityMask: nat

    ghost function State(): Pe
      reads this
    {
      Pe(activePriBits, initPriMask, nsPriMask, priorityMask)
    }

    constructor (config: Config, mask: nat)
      requires ConfigOk(config)
      ensures this.config == config && State() == Pe(0, 0, 0, mask)
    {
      this.config := config;
      activePriBits, initPriMask, nsPriMask, priorityMask := 0, 0, 0, mask;
    }

    /** Program the mask and return the one it replaces. */
    method SetPriorityMask(mask: nat) returns (previous: nat)
      modifies this`priorityMask
      ensures priorityMask == mask && previous == old(priorityMask)
    {
      previous := priorityMask;
      priorityMask := mask;
    }

    method ActivatePriority(pri: nat, runPri: nat) returns (r: Outcome)
      requires ConfigOk(config)
      modifies this
      ensures r == Activate(config, old(State()), pri, runPri)
      ensures r.Done? ==> State() == r.next
    {
      if pri >= runPri {
        return Panic(114);
      }
      var none := activePriBits == 0;
      var idx := PriToIdx(config, pri);
      if idx >= config.numPriorities {
        return AssertFailed(59);
      }
      if idx !in config.valid {
        return AssertFailed(60);
      }
      if !none && idx >= Ctz(activePriBits) {
        return Panic(128);
      }
      activePriBits := Or(activePriBits, PowerOfTwo(idx));
      var oldMask := SetPriorityMask(pri);
      if pri >= oldMask {
        return Panic(143);
      }
      if none {
        initPriMask := oldMask;
      }
      return Done(Pe(activePriBits, initPriMask, nsPriMask, priorityMask));
    }

    method DeactivatePriority(pri: nat, runPri: nat) returns (r: Outcome)
      requires ConfigOk(config)
      modifies this
      ensures r == Deactivate(config, old(State()), pri, runPri)
      ensures r.Done? ==> State() == r.next
    {
      if pri >= runPri {
        return Panic(181);
      }
      var idx := PriToIdx(config, pri);
      if idx >= config.numPriorities {
        return AssertFailed(59);
      }
      if idx !in config.valid {
        return AssertFailed(60);
      }
      if activePriBits == 0 || idx != Ctz(activePriBits) {
        return Panic(195);
      }
      activePriBits := And(activePriBits, activePriBits - 1);
      var oldMask;
      if activePriBits == 0 {
        oldMask := SetPriorityMask(initPriMask);
      } else {
        oldMask := SetPriorityMask(pri);
      }
      if oldMask > pri {
        return Panic(224);
      }
      return Done(Pe(activePriBits, initPriMask, nsPriMask, priorityMask));
    }

    method OnExitedNormalWorld(runPri: nat) returns (r: Outcome)
      modifies this
      ensures r == ExitedNormalWorld(old(State()), runPri)
      ensures r.Done? ==> State() == r.next
    {
      if !IsPriSecure(runPri) && activePriBits == 0 {
        if nsPriMask != 0 {
          return AssertFailed(255);
        }
        nsPriMask := SetPriorityMask(HIGHEST_NS_PRIORITY);
        if IsPriSecure(nsPriMask) {
          return Panic(264);
        }
      }
      return Done(Pe(activePriBits, initPriMask, nsPriMask, priorityMask));
    }

    method OnEnteringNormalWorld(runPri: nat) returns (r: Outcome)
      modifies this
      ensures r == EnteringNormalWorld(old(State()), runPri)
      ensures r.Done? ==> State() == r.next
    {
      if !IsPriSecure(runPri) && activePriBits == 0 && nsPriMask != 0 {
        var oldMask := SetPriorityMask(nsPriMask);
        if oldMask != HIGHEST_NS_PRIORITY && oldMask != nsPriMask {
          return Panic(315);
        }
        nsPriMask := 0;
      }
      return Done(Pe(activePriBits, initPriMask, nsPriMask, priorityMask));
    }

    method AllowPreemption() returns (r: Outcome)
      modifies this
      ensures r == AllowNsPreemption(old(State()))
      ensures r.Done? ==> State() == r.next
    {
      if nsPriMask == 0 {
        return AssertFailed(346);
      }
      if activePriBits != 0 {
        return Panic(352);
      }
      var _ := SetPriorityMask(nsPriMask);
      nsPriMask := 0;
      return Done(Pe(activePriBits, initPriMask, nsPriMask, priorityMask));
    }
  }
}
