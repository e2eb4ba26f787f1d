/** A scan by priority visits the bootdevs in the order of their enumeration, each once, whatever comes between. */
module BootflowOrder {
  import opened Wrappers
  import opened Bootdev
  import opened BootflowScan
  import opened BootflowRuns

  /** The bootdevs still to be visited. */
  function ToCome(c: Config, it: Iter): seq<nat> {
    if it.curPrio >= BOOTDEVP_COUNT then []
    else if it.pending.Some? then [it.pending.value.dev] + Enumeration(c.devs, it.curPrio, it.pending.value.dev + 1)
    else Enumeration(c.devs, it.curPrio, if it.dev.None? then 0 else it.dev.value + 1)
  }

  /** The bootdev that a turn moves to, if any. */
  function Moves(it: Iter, it': Iter): seq<nat> {
    if it'.dev.Some? && it'.dev != it.dev then [it'.dev.value] else []
  }

  /** The bootdevs visited after the first iterator of a trace, in order. */
  function Visited(trace: seq<Round>): seq<nat> {
    if |trace| <= 1 then []
    else (if trace[0].Next? && trace[1].Next? then Moves(trace[0].it, trace[1].it) else []) + Visited(trace[1..])
  }

  /** The bootdev a scan by priority stands at was found at the current priority. */
  ghost predicate Sited(c: Config, it: Iter) {
    && (it.dev.Some? ==> it.curPrio < BOOTDEVP_COUNT && Ready(c.devs, it.curPrio, it.dev.value))
    && (it.pending.Some? ==> it.curPrio < BOOTDEVP_COUNT && Ready(c.devs, it.curPrio, it.pending.value.dev))
  }

  /** A step takes what it moves to from what is to come. */
  ghost predicate Takes(c: Config, it: Iter, it': Iter) {
    Sited(c, it') && ToCome(c, it) == Moves(it, it') + ToCome(c, it')
  }

  // ------------------------------------------------------------------ one step

  /** Choosing the next bootdev takes the first of those to come; none is chosen exactly if none is to come. */
  lemma AdvanceTakes(c: Config, it: Iter, start: nat)
    requires it.curPrio < BOOTDEVP_COUNT
    ensures var (it', t) := AdvancePrio(c, it, start);
            match t
            case None => Enumeration(c.devs, it.curPrio, start) == []
            case Some(t) => && it'.curPrio < BOOTDEVP_COUNT && Ready(c.devs, it'.curPrio, t.dev)
                            && (it'.curPrio == it.curPrio ==> start <= t.dev) && it.curPrio <= it'.curPrio
                            && Enumeration(c.devs, it.curPrio, start)
                               == [t.dev] + Enumeration(c.devs, it'.curPrio, t.dev + 1)
  {
    CallTakesHead(c.devs, it.curPrio, start);
  }

  /** Standing between bootdevs: the current one is used up. */
  ghost predicate Between(c: Config, it: Iter) {
    c.mode.ByPriority? && Callable(c, it) && Sited(c, it) && it.pending.None? && !it.doingGlobal
  }

  lemma DeviceTakes(c: Config, it: Iter, restart: bool)
    requires Between(c, it) && (restart ==> it.dev.None?)
    ensures var (it', t) := NextDevice(c, it, restart);
            && it' == it.(curPrio := it'.curPrio)
            && match t
               case None => ToCome(c, it) == []
               case Some(t) => && it'.curPrio < BOOTDEVP_COUNT && Ready(c.devs, it'.curPrio, t.dev)
                               && Some(t.dev) != it.dev
                               && ToCome(c, it) == [t.dev] + Enumeration(c.devs, it'.curPrio, t.dev + 1)
  {
    AdvanceTakes(c, it, if it.dev.None? then 0 else it.dev.value + 1);
  }

  /** What a step of the iterator may answer. */
  ghost predicate TakesOrEnds(c: Config, it: Iter, ret: Ret, it': Iter) {
    && (ret == Zero ==> Takes(c, it, it'))
    && (ret == NoMoreDevices ==> it.err == NoMoreDevices || c.singlePartition || ToCome(c, it) == [])
  }

  lemma NoDeviceTakes(c: Config, it0: Iter, it: Iter)
    requires ToCome(c, it0) == [] && it.dev.None? && it.pending.None?
    ensures var (ret, it') := NoDevice(c, it); TakesOrEnds(c, it0, ret, it')
  {
  }

  lemma MoveToDeviceTakes(c: Config, it0: Iter, it: Iter, restart: bool)
    requires Between(c, it) && (restart ==> it.dev.None?) && ToCome(c, it) == ToCome(c, it0) && it.dev == it0.dev
    ensures var (ret, it') := MoveToDevice(c, it, restart); TakesOrEnds(c, it0, ret, it')
  {
    DeviceTakes(c, it, restart);
    var (it1, t) := NextDevice(c, it, restart);
    if t.None? { NoDeviceTakes(c, it0, it1.(dev := None, wholeUclass := false)); }
  }

  lemma MoveOnTakes(c: Config, it0: Iter, it: Iter, restart: bool)
    requires Between(c, it) && (restart ==> it.dev.None?) && ToCome(c, it) == ToCome(c, it0) && it.dev == it0.dev
    ensures var (ret, it') := MoveOn(c, it, restart); TakesOrEnds(c, it0, ret, it')
  {
    var at := it.(curMethod := 0, part := 0, maxPart := 0);
    assert ToCome(c, at) == ToCome(c, it);
    if !c.singlePartition && !(it.err != NoMoreParts && it.part + 1 <= it.maxPart) {
      MoveToDeviceTakes(c, it0, at, restart);
    }
  }

  lemma GlobalTakes(c: Config, it: Iter)
    requires c.mode.ByPriority? && Inv(c, it) && Sited(c, it) && it.doingGlobal
    ensures var (ret, it') := Increment(c, it); TakesOrEnds(c, it, ret, it') && ret != OtherError
  {
    var k := FirstAllowed(c, it, it.curMethod + 1);
    if k >= |c.methods| && it.pending.None? && it.curPrio < BOOTDEVP_COUNT {
      MoveOnTakes(c, it, it.(curMethod := k, doingGlobal := false), true);
    }
  }

  lemma PlainTakes(c: Config, it: Iter)
    requires c.mode.ByPriority? && Inv(c, it) && Sited(c, it) && !it.doingGlobal
    ensures var (ret, it') := Increment(c, it); TakesOrEnds(c, it, ret, it') && ret != OtherError
  {
    var m := it.curMethod + 1;
    if it.err != NoMoreDevices && !(m < |c.methods| && !(c.haveGlobal && m >= c.firstGlob)) {
      MoveOnTakes(c, it, it.(curMethod := m), false);
    }
  }

  lemma CheckTakes(c: Config, it: Iter, it1: Iter, a: Answer)
    requires Takes(c, it, it1) && (it1.doingGlobal ==> it1.dev.None?)
    ensures Takes(c, it, Check(it1, a))
  {
  }

  // ----------------------------------------------------------------- whole scans

  /** A turn takes the bootdev it moves to from those to come, and only then ends the scan if none is left. */
  lemma RoundTakes(c: Config, it: Iter, a: Answer)
    requires ConfigOk(c) && c.mode.ByPriority? && Inv(c, it) && Sited(c, it)
    ensures match OneRound(c, it, a)
            case Stopped => it.err == NoMoreDevices || c.singlePartition || ToCome(c, it) == []
            case Next(it') => Takes(c, it, it')
  {
    var (ret, it1) := Increment(c, it);
    if it.doingGlobal {
      GlobalTakes(c, it);
      GlobalIncrement(c, it);
    } else {
      PlainTakes(c, it);
      PlainIncrement(c, it);
    }
    if ret == Zero { CheckTakes(c, it, it1, a); }
  }

  /**
   The trace stopped with bootdevs still to come: a bootmeth said that there are
   no more, or one partition was named.
   */
  ghost predicate CutShort(c: Config, trace: seq<Round>) {
    c.singlePartition || (|trace| > 1 && trace[|trace| - 2].Next? && trace[|trace| - 2].it.err == NoMoreDevices)
  }

  /** What is visited is the beginning of what was to come, and all of it when the scan ends by itself. */
  ghost predicate InOrder(c: Config, trace: seq<Round>, all: seq<nat>) {
    && Visited(trace) <= all
    && (trace != [] && trace[|trace| - 1] == Stopped && !CutShort(c, trace) ==> Visited(trace) == all)
  }

  lemma OneMoreVisit(c: Config, trace: seq<Round>, all: seq<nat>, moves: seq<nat>, rest: seq<nat>)
    requires |trace| > 1 && trace[0].Next? && trace[1].Next? && moves == Moves(trace[0].it, trace[1].it)
    requires all == moves + rest && InOrder(c, trace[1..], rest)
    ensures InOrder(c, trace, all)
  {
    assert Visited(trace) == moves + Visited(trace[1..]);
    if trace[|trace| - 1] == Stopped { assert trace[1..][|trace[1..]| - 2] == trace[|trace| - 2]; }
  }

  lemma {:induction false} VisitsInOrder(c: Config, trace: seq<Round>, oracle: nat -> Answer, k: nat, it: Iter)
    requires ConfigOk(c) && OracleOk(oracle) && c.mode.ByPriority? && Inv(c, it) && Sited(c, it)
    requires IsTrace(c, trace, oracle, k) && trace[0] == Next(it)
    ensures InOrder(c, trace, ToCome(c, it))
    decreases |trace|
  {
    if |trace| > 1 {
      TraceRest(c, trace, oracle, k);
      RoundTakes(c, it, oracle(k));
      RoundMovesDown(c, it, oracle(k));
      if trace[1].Next? {
        var it' := trace[1].it;
        VisitsInOrder(c, trace[1..], oracle, k + 1, it');
        OneMoreVisit(c, trace, ToCome(c, it), Moves(it, it'), ToCome(c, it'));
      }
    }
  }

  /** The bootdev that a scan starts on, if it does not start on a global bootmeth. */
  function StartsOn(it: Iter): seq<nat> {
    if it.dev.Some? then [it.dev.value] else []
  }

  lemma BeginTakes(c: Config, named: Option<Target>, part: nat, a: Answer)
    requires ConfigOk(c) && AnswerOk(a) && c.mode.ByPriority? && Begin(c, named, part, a).Some?
    ensures var it := Begin(c, named, part, a).value;
            Sited(c, it) && Enumeration(c.devs, 0, 0) == StartsOn(it) + ToCome(c, it)
  {
    AdvanceTakes(c, Fresh(c), 0);
  }

  /**
   A scan by priority, with global bootmeths before, between and after: the
   bootdevs it visits are a beginning of the enumeration, and the whole of it
   unless a bootmeth says that there are no more or one partition was named.
   */
  lemma ScanVisitsEnumeration(c: Config, named: Option<Target>, part: nat, oracle: nat -> Answer, trace: seq<Round>)
    requires ConfigOk(c) && OracleOk(oracle) && c.mode.ByPriority? && IsTrace(c, trace, oracle, 1) && trace[0].Next?
    requires Begin(c, named, part, oracle(0)) == Some(trace[0].it)
    ensures var visited := StartsOn(trace[0].it) + Visited(trace);
            && visited <= Enumeration(c.devs, 0, 0)
            && (trace[|trace| - 1] == Stopped && !CutShort(c, trace) ==> visited == Enumeration(c.devs, 0, 0))
  {
    var it := trace[0].it;
    BeginIsGood(c, named, part, oracle(0));
    BeginTakes(c, named, part, oracle(0));
    VisitsInOrder(c, trace, oracle, 1, it);
  }
}
