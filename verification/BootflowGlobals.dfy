/** A scan that is not cut short tries every global bootmeth, and each exactly once. */
module BootflowGlobals {
  import opened Wrappers
  import opened Bootdev
  import opened BootflowScan
  import opened BootflowRuns
  import opened BootflowOrder

  /** Every global bootmeth before number m whose priority is reached has been used. */
  predicate UsedBefore(c: Config, it: Iter, m: nat) {
    forall g :: c.firstGlob <= g < m && g < |c.methods| && c.methods[g] <= it.curPrio ==> g in it.methodsDone
  }

  /** A global phase goes through the global bootmeths in order. */
  ghost predicate Swept(c: Config, it: Iter) {
    it.doingGlobal ==> UsedBefore(c, it, it.curMethod + 1)
  }

  lemma {:induction false} NoneAllowedBefore(c: Config, it: Iter, m: nat)
    ensures forall g :: m <= g < FirstAllowed(c, it, m) && g < |c.methods| ==> !GlobAllowed(c, it, g)
    decreases |c.methods| - m
  {
    if m < |c.methods| && !GlobAllowed(c, it, m) { NoneAllowedBefore(c, it, m + 1); }
  }

  /** The global bootmeths before the one a phase starts on are used. */
  lemma StartSweeps(c: Config, it: Iter)
    requires StartGlobal(c, it).Some?
    ensures UsedBefore(c, StartGlobal(c, it).value, StartGlobal(c, it).value.curMethod)
  {
    NoneAllowedBefore(c, it, c.firstGlob);
    var k := FirstAllowed(c, it, c.firstGlob);
    forall g | c.firstGlob <= g < k && g < |c.methods| && c.methods[g] <= it.curPrio ensures g in it.methodsDone {
      assert !GlobAllowed(c, it, g);
    }
  }

  /** All that could ever be allowed are used. */
  predicate AllUsed(c: Config, it: Iter) {
    forall g :: c.firstGlob <= g < |c.methods| && c.methods[g] <= BOOTDEVP_COUNT ==> g in it.methodsDone
  }

  lemma NoStartMeansAllUsed(c: Config, it: Iter)
    requires c.haveGlobal && it.curPrio == BOOTDEVP_COUNT && StartGlobal(c, it).None?
    ensures AllUsed(c, it)
  {
    NoneAllowedBefore(c, it, c.firstGlob);
    forall g | c.firstGlob <= g < |c.methods| && c.methods[g] <= BOOTDEVP_COUNT ensures g in it.methodsDone {
      assert !GlobAllowed(c, it, g);
    }
  }

  /** What a step may answer: on a global bootmeth those before it are used, and at the end all are. */
  ghost predicate SweepsOrEnds(c: Config, it: Iter, ret: Ret, it': Iter) {
    && (ret == Zero && it'.doingGlobal ==> UsedBefore(c, it', it'.curMethod))
    && (ret == OtherError ==> !it'.doingGlobal)
    && (ret == NoMoreDevices ==> it.err == NoMoreDevices || c.singlePartition || AllUsed(c, it))
  }

  lemma NoDeviceSweeps(c: Config, it0: Iter, it: Iter)
    requires c.haveGlobal && it.methodsDone == it0.methodsDone && !it.doingGlobal
    ensures var (ret, it') := NoDevice(c, it); SweepsOrEnds(c, it0, ret, it')
  {
    var it1 := it.(curPrio := BOOTDEVP_COUNT);
    if StartGlobal(c, it1).Some? { StartSweeps(c, it1); } else { NoStartMeansAllUsed(c, it1); }
  }

  lemma MoveToDeviceSweeps(c: Config, it0: Iter, it: Iter, restart: bool)
    requires ConfigOk(c) && c.haveGlobal && Inv(c, it) && it.methodsDone == it0.methodsDone && !it.doingGlobal
    requires it.pending.None? && (c.mode.ByPriority? ==> it.curPrio < BOOTDEVP_COUNT) && (restart ==> it.dev.None?)
    ensures var (ret, it') := MoveToDevice(c, it, restart); SweepsOrEnds(c, it0, ret, it')
  {
    DeviceMovesDown(c, it, restart);
    var (it1, t) := NextDevice(c, it, restart);
    if t.None? {
      NoDeviceSweeps(c, it0, if c.mode.OneDevice? then it1 else it1.(dev := None, wholeUclass := false));
    } else if restart && !Probes(c, t.value.dev) {
      NoDeviceSweeps(c, it0, it1.(dev := None, wholeUclass := false));
    } else if StartGlobal(c, it1).Some? {
      StartSweeps(c, it1);
    } else if !Probes(c, t.value.dev) {
      NoDeviceSweeps(c, it0, it1);
    }
  }

  lemma MoveOnSweeps(c: Config, it0: Iter, it: Iter, restart: bool)
    requires ConfigOk(c) && c.haveGlobal && Inv(c, it) && it.methodsDone == it0.methodsDone && !it.doingGlobal
    requires it.pending.None? && (c.mode.ByPriority? ==> it.curPrio < BOOTDEVP_COUNT) && (restart ==> it.dev.None?)
    ensures var (ret, it') := MoveOn(c, it, restart); SweepsOrEnds(c, it0, ret, it')
  {
    if !c.singlePartition && !(it.err != NoMoreParts && it.part + 1 <= it.maxPart) {
      MoveToDeviceSweeps(c, it0, it.(curMethod := 0, part := 0, maxPart := 0), restart);
    }
  }

  /** From one global bootmeth to the next, or to the end of them. */
  lemma NextSweeps(c: Config, it: Iter, k: nat)
    requires it.doingGlobal && Swept(c, it) && k == FirstAllowed(c, it, it.curMethod + 1)
    ensures UsedBefore(c, it, k)
  {
    NoneAllowedBefore(c, it, it.curMethod + 1);
    forall g | c.firstGlob <= g < k && g < |c.methods| && c.methods[g] <= it.curPrio ensures g in it.methodsDone {
      assert g > it.curMethod ==> !GlobAllowed(c, it, g);
    }
  }

  lemma GlobalSweeps(c: Config, it: Iter)
    requires ConfigOk(c) && Inv(c, it) && Swept(c, it) && it.doingGlobal
    ensures var (ret, it') := Increment(c, it); SweepsOrEnds(c, it, ret, it')
  {
    var k := FirstAllowed(c, it, it.curMethod + 1);
    NextSweeps(c, it, k);
    if k >= |c.methods| && it.pending.None? && it.curPrio < BOOTDEVP_COUNT {
      MoveOnSweeps(c, it, it.(curMethod := k, doingGlobal := false), true);
    }
  }

  lemma PlainSweeps(c: Config, it: Iter)
    requires ConfigOk(c) && c.haveGlobal && Inv(c, it) && !it.doingGlobal
    ensures var (ret, it') := Increment(c, it); SweepsOrEnds(c, it, ret, it')
  {
    var m := it.curMethod + 1;
    if it.err != NoMoreDevices && !(m < |c.methods| && !(c.haveGlobal && m >= c.firstGlob)) {
      MoveOnSweeps(c, it, it.(curMethod := m), false);
    }
  }

  /** A turn goes on with the global bootmeths in order, and ends the scan only when all are used. */
  lemma RoundSweeps(c: Config, it: Iter, a: Answer)
    requires ConfigOk(c) && c.haveGlobal && Inv(c, it) && Swept(c, it)
    ensures match OneRound(c, it, a)
            case Stopped => it.err == NoMoreDevices || c.singlePartition || AllUsed(c, it)
            case Next(it') => Swept(c, it')
  {
    if it.doingGlobal { GlobalSweeps(c, it); } else { PlainSweeps(c, it); }
  }

  // ------------------------------------------------------- what was used was tried

  /** What a turn marks as used: the global bootmeth it tries, or one that is not global or was used before. */
  ghost predicate MarksTried(c: Config, it: Iter, it': Iter) {
    && it.methodsDone <= it'.methodsDone
    && forall g :: g in it'.methodsDone && c.firstGlob <= g ==>
         g in it.methodsDone || (it'.doingGlobal && g == it'.curMethod)
  }

  /** On a bootmeth below the global ones, or on the first of all. */
  ghost predicate OnPlain(c: Config, it: Iter, ret: Ret, it': Iter) {
    ret != NoMoreDevices ==>
      && it'.methodsDone == it.methodsDone
      && (ret == Zero && !it'.doingGlobal ==> it'.curMethod < c.firstGlob || it'.curMethod == 0)
  }

  lemma NextDeviceKeeps(c: Config, it: Iter, restart: bool)
    requires Callable(c, it) && (c.mode.ByPriority? ==> it.curPrio < BOOTDEVP_COUNT)
    ensures var it' := NextDevice(c, it, restart).0;
            it'.methodsDone == it.methodsDone && it'.curMethod == it.curMethod && it'.doingGlobal == it.doingGlobal
  {
  }

  lemma DeviceToFirst(c: Config, it: Iter, restart: bool)
    requires Callable(c, it) && (c.mode.ByPriority? ==> it.curPrio < BOOTDEVP_COUNT) && it.curMethod == 0
    ensures var (ret, it') := MoveToDevice(c, it, restart); OnPlain(c, it, ret, it')
  {
    NextDeviceKeeps(c, it, restart);
    var (it1, t) := NextDevice(c, it, restart);
    var (ret, it') := MoveToDevice(c, it, restart);
    assert it'.methodsDone == it1.methodsDone;
  }

  lemma MovesToFirst(c: Config, it: Iter, restart: bool)
    requires ConfigOk(c) && Callable(c, it) && (c.mode.ByPriority? ==> it.curPrio < BOOTDEVP_COUNT)
    ensures var (ret, it') := MoveOn(c, it, restart); OnPlain(c, it, ret, it')
  {
    if !c.singlePartition && !(it.err != NoMoreParts && it.part + 1 <= it.maxPart) {
      DeviceToFirst(c, it.(curMethod := 0, part := 0, maxPart := 0), restart);
    }
  }

  /** Where a step leaves an iterator that is not on a global bootmeth. */
  lemma PlainIsBelow(c: Config, it: Iter)
    requires ConfigOk(c) && c.haveGlobal && Inv(c, it)
    ensures var (ret, it') := Increment(c, it); OnPlain(c, it, ret, it')
  {
    var k := FirstAllowed(c, it, it.curMethod + 1);
    if it.doingGlobal && it.pending.None? && it.curPrio < BOOTDEVP_COUNT {
      MovesToFirst(c, it.(curMethod := k, doingGlobal := false), true);
    } else if !it.doingGlobal {
      MovesToFirst(c, it.(curMethod := it.curMethod + 1), false);
    }
  }

  lemma RoundMarksTried(c: Config, it: Iter, a: Answer)
    requires ConfigOk(c) && c.haveGlobal && Inv(c, it) && c.firstGlob in it.methodsDone
    ensures OneRound(c, it, a).Next? ==> MarksTried(c, it, OneRound(c, it, a).it)
  {
    PlainIsBelow(c, it);
  }

  ghost predicate Complete(c: Config, it: Iter, tried: seq<nat>) {
    forall g :: c.firstGlob <= g < |c.methods| && c.methods[g] <= BOOTDEVP_COUNT ==> g in it.methodsDone || g in tried
  }

  lemma OneMoreTried(c: Config, it: Iter, it': Iter, tried: seq<nat>)
    requires MarksTried(c, it, it') && Complete(c, it', tried)
    ensures Complete(c, it, (if it'.doingGlobal then [it'.curMethod] else []) + tried)
  {
    var all := (if it'.doingGlobal then [it'.curMethod] else []) + tried;
    forall g | c.firstGlob <= g < |c.methods| && c.methods[g] <= BOOTDEVP_COUNT
      ensures g in it.methodsDone || g in all
    {
      assert g in it'.methodsDone || g in tried;
    }
  }

  lemma RestEnds(c: Config, trace: seq<Round>, oracle: nat -> Answer, k: nat, it: Iter)
    requires Ended(c, trace, oracle, k, it) && !CutShort(c, trace)
    ensures |trace| > 1 && Callable(c, it) && OneRound(c, it, oracle(k)) == trace[1]
    ensures if trace[1].Next? then Ended(c, trace[1..], oracle, k + 1, trace[1].it) && !CutShort(c, trace[1..])
            else |trace| == 2 && it.err != NoMoreDevices && !c.singlePartition
  {
    TraceRest(c, trace, oracle, k);
    var rest := trace[1..];
    assert rest[|rest| - 1] == trace[|trace| - 1];
    assert |rest| > 1 ==> rest[|rest| - 2] == trace[|trace| - 2];
  }

  lemma {:induction false} TriesAll(c: Config, trace: seq<Round>, oracle: nat -> Answer, k: nat, it: Iter)
    requires ConfigOk(c) && c.haveGlobal && OracleOk(oracle) && Inv(c, it) && Swept(c, it)
    requires c.firstGlob in it.methodsDone && Ended(c, trace, oracle, k, it) && !CutShort(c, trace)
    ensures Complete(c, it, TriedGlobals(trace))
    decreases |trace|
  {
    RestEnds(c, trace, oracle, k, it);
    TurnTries(c, it, oracle(k));
    match trace[1]
    case Stopped =>
    case Next(it') =>
      TriesAll(c, trace[1..], oracle, k + 1, it');
      OneMoreTried(c, it, it', TriedGlobals(trace[1..]));
  }

  lemma TurnTries(c: Config, it: Iter, a: Answer)
    requires ConfigOk(c) && c.haveGlobal && AnswerOk(a) && Inv(c, it) && Swept(c, it) && c.firstGlob in it.methodsDone
    ensures match OneRound(c, it, a)
            case Stopped => it.err == NoMoreDevices || c.singlePartition || AllUsed(c, it)
            case Next(it') => Inv(c, it') && Swept(c, it') && MarksTried(c, it, it')
  {
    RoundSweeps(c, it, a);
    RoundMovesDown(c, it, a);
    RoundMarksTried(c, it, a);
  }

  /**
   Over a whole scan that is not cut short, by priority or by labels, every global
   bootmeth of a priority that is ever reached is tried, and each exactly once.
   */
  lemma ScanTriesEachGlobalOnce(c: Config, named: Option<Target>, part: nat, oracle: nat -> Answer, trace: seq<Round>,
                                it: Iter)
    requires ConfigOk(c) && c.haveGlobal && OracleOk(oracle) && Begin(c, named, part, oracle(0)) == Some(it)
    requires Ended(c, trace, oracle, 1, it) && !CutShort(c, trace)
    ensures var tried := [c.firstGlob] + TriedGlobals(trace);
            && NoRepeats(tried)
            && forall g :: c.firstGlob <= g < |c.methods| && c.methods[g] <= BOOTDEVP_COUNT ==> g in tried
  {
    BeginIsGood(c, named, part, oracle(0));
    ScanTriesGlobalsOnce(c, named, part, oracle, trace);
    TriesAll(c, trace, oracle, 1, it);
    assert it.methodsDone == {c.firstGlob};
  }
}
