/** When a scan tries its global bootmeths: each at the first bootdev of its priority, before that bootdev. */
module BootflowTiming {
  import opened Wrappers
  import opened Bootdev
  import opened BootflowScan
  import opened BootflowRuns
  import opened BootflowOrder
  import opened BootflowGlobals
  import opened BootflowParts

  /** On a global bootmeth whose priority is reached, or at a bootdev with no such one left. */
  ghost predicate Timely(c: Config, it: Iter) {
    && (it.doingGlobal ==> it.curMethod < |c.methods| && c.methods[it.curMethod] <= it.curPrio)
    && (AtBootdev(it) ==> UsedBefore(c, it, |c.methods|))
  }

  lemma NoStartMeansNoneLeft(c: Config, it: Iter)
    requires c.haveGlobal && StartGlobal(c, it).None?
    ensures UsedBefore(c, it, |c.methods|)
  {
    NoneAllowedBefore(c, it, c.firstGlob);
    forall g | c.firstGlob <= g < |c.methods| && c.methods[g] <= it.curPrio ensures g in it.methodsDone {
      assert !GlobAllowed(c, it, g);
    }
  }

  lemma MoveIsTimely(c: Config, it: Iter, restart: bool)
    requires ConfigOk(c) && c.haveGlobal && Callable(c, it) && !it.doingGlobal
    requires c.mode.ByPriority? ==> it.curPrio < BOOTDEVP_COUNT
    ensures var (ret, it') := MoveToDevice(c, it, restart); ret == Zero ==> Timely(c, it')
  {
    var (it1, t) := NextDevice(c, it, restart);
    if t.Some? && StartGlobal(c, it1).None? { NoStartMeansNoneLeft(c, it1); }
  }

  lemma MoveOnIsTimely(c: Config, it: Iter, restart: bool)
    requires ConfigOk(c) && c.haveGlobal && Callable(c, it) && !it.doingGlobal && (it.dev.Some? ==> Timely(c, it))
    requires c.mode.ByPriority? ==> it.curPrio < BOOTDEVP_COUNT
    ensures var (ret, it') := MoveOn(c, it, restart); ret == Zero ==> Timely(c, it')
  {
    if !(it.err != NoMoreParts && it.part + 1 <= it.maxPart) {
      MoveIsTimely(c, it.(curMethod := 0, part := 0, maxPart := 0), restart);
    }
  }

  /** What a step may answer. */
  ghost predicate TimelyStep(c: Config, ret: Ret, it': Iter) {
    (ret == Zero ==> Timely(c, it')) && (ret == OtherError ==> !it'.doingGlobal && it'.dev.None?)
  }

  lemma GlobalIsTimely(c: Config, it: Iter)
    requires ConfigOk(c) && Inv(c, it) && Swept(c, it) && it.doingGlobal
    ensures var (ret, it') := Increment(c, it); TimelyStep(c, ret, it')
  {
    var k := FirstAllowed(c, it, it.curMethod + 1);
    NextSweeps(c, it, k);
    if k >= |c.methods| && it.pending.None? && it.curPrio < BOOTDEVP_COUNT {
      MoveOnIsTimely(c, it.(curMethod := k, doingGlobal := false), true);
    }
  }

  lemma PlainIsTimely(c: Config, it: Iter)
    requires ConfigOk(c) && c.haveGlobal && Inv(c, it) && !it.doingGlobal && (it.dev.Some? ==> Timely(c, it))
    ensures var (ret, it') := Increment(c, it); TimelyStep(c, ret, it')
  {
    if it.err != NoMoreDevices {
      MoveOnIsTimely(c, it.(curMethod := it.curMethod + 1), false);
    }
  }

  lemma TurnIsTimely(c: Config, it: Iter, a: Answer)
    requires ConfigOk(c) && c.haveGlobal && Inv(c, it) && Swept(c, it) && (AtBootdev(it) ==> Timely(c, it))
    ensures OneRound(c, it, a).Next? ==> Swept(c, OneRound(c, it, a).it) && Timely(c, OneRound(c, it, a).it)
  {
    if it.doingGlobal { GlobalIsTimely(c, it); } else { PlainIsTimely(c, it); }
    RoundSweeps(c, it, a);
  }

  lemma {:induction false} TurnsAreTimely(c: Config, named: Option<Target>, part: nat, oracle: nat -> Answer,
                                          trace: seq<Round>, i: nat)
    requires IsScan(c, named, part, oracle, trace) && c.haveGlobal && i < |trace| && trace[i].Next?
    ensures Swept(c, trace[i].it) && (i > 0 ==> Timely(c, trace[i].it))
  {
    if i > 0 {
      assert Link(c, trace, oracle, 1, i - 1);
      TurnsAreTimely(c, named, part, oracle, trace, i - 1);
      EveryTurnIsOk(c, named, part, oracle, trace, i - 1);
      TurnIsTimely(c, trace[i - 1].it, oracle(i));
    }
  }

  lemma {:induction false} TurnsAreSited(c: Config, named: Option<Target>, part: nat, oracle: nat -> Answer,
                                         trace: seq<Round>, i: nat)
    requires IsScan(c, named, part, oracle, trace) && c.mode.ByPriority? && i < |trace| && trace[i].Next?
    ensures Sited(c, trace[i].it)
  {
    if i == 0 {
      BeginTakes(c, named, part, oracle(0));
    } else {
      assert Link(c, trace, oracle, 1, i - 1);
      TurnsAreSited(c, named, part, oracle, trace, i - 1);
      EveryTurnIsOk(c, named, part, oracle, trace, i - 1);
      RoundTakes(c, trace[i - 1].it, oracle(i));
    }
  }

  /**
   At every turn of a scan by priority but the first: a global bootmeth that is
   tried while bootdev d waits has a priority that d has reached, and when a bootdev
   is tried every global bootmeth of its priority or an earlier one has been tried.
   */
  lemma GlobalsComeFirst(c: Config, named: Option<Target>, part: nat, oracle: nat -> Answer, trace: seq<Round>, i: nat)
    requires IsScan(c, named, part, oracle, trace) && c.haveGlobal && c.mode.ByPriority?
    requires 0 < i < |trace| && trace[i].Next?
    ensures var it := trace[i].it;
            && (it.doingGlobal && it.pending.Some? ==>
                  && it.curMethod < |c.methods| && it.pending.value.dev < |c.devs|
                  && c.methods[it.curMethod] <= c.devs[it.pending.value.dev].prio)
            && (AtBootdev(it) ==>
                  && it.dev.value < |c.devs|
                  && forall g :: c.firstGlob <= g < |c.methods| && c.methods[g] <= c.devs[it.dev.value].prio ==>
                       g in it.methodsDone)
  {
    TurnsAreTimely(c, named, part, oracle, trace, i);
    TurnsAreSited(c, named, part, oracle, trace, i);
    EveryTurnIsOk(c, named, part, oracle, trace, i);
  }
}
