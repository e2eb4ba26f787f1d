/** Every bootflow scan ends, and tries each global bootmeth at most once. */
module BootflowRuns {
  import opened Wrappers
  import opened Bootdev
  import opened BootflowScan

  // -------------------------------------------------------------- invariant

  ghost predicate Inv(c: Config, it: Iter) {
    && Callable(c, it)
    && it.maxPart <= MAX_PART_PER_BOOTDEV
    && (it.doingGlobal ==>
          c.haveGlobal && c.firstGlob <= it.curMethod < |c.methods| && it.part == 0 && it.maxPart == 0 && it.dev.None?)
    && (it.pending.Some? ==> it.doingGlobal && it.pending.value.dev < |c.devs|)
    && (it.pending.Some? && c.mode.ByPriority? ==> Probes(c, it.pending.value.dev))
    && (c.mode.ByLabels? ==> it.curLabel <= |c.mode.labels|)
  }

  // ---------------------------------------------------------------- measure

  predicate IsGlobal(c: Config, m: nat) {
    c.haveGlobal && c.firstGlob <= m
  }

  ghost function Globals(c: Config): set<nat> {
    set m: nat | m < |c.methods| && IsGlobal(c, m)
  }

  ghost function Unused(c: Config, done: set<nat>): nat {
    |Globals(c) - done|
  }

  /** The bootdev the scan stands at, counting one held back for global bootmeths. */
  function Standing(it: Iter): Option<Target> {
    if it.pending.Some? then it.pending
    else if it.dev.Some? then Some(Target(it.dev.value, it.wholeUclass))
    else None
  }

  function Monus(a: int, b: int): nat {
    if a > b then a - b else 0
  }

  /** On the global bootmeths that come before any bootdev. */
  predicate Starting(it: Iter) {
    it.doingGlobal && it.pending.None? && it.curPrio < BOOTDEVP_COUNT
  }

  /** Priorities or labels still to come. */
  function Outer(c: Config, it: Iter): nat {
    match c.mode
    case ByPriority => Monus(BOOTDEVP_COUNT, it.curPrio)
    case ByLabels(labels) => if Starting(it) then |labels| + 1 else Monus(|labels|, it.curLabel)
    case _ => 0
  }

  /** Bootdevs still to come at this priority, label or group. */
  function Inner(c: Config, it: Iter): nat {
    match Standing(it)
    case None => if c.mode.ByPriority? then |c.devs| else 0
    case Some(t) =>
      match c.mode
      case ByPriority => Monus(|c.devs|, t.dev + 1)
      case ByLabels(_) => if t.wholeUclass then Monus(|c.devs|, t.dev) else 0
      case SameGroup => Monus(|c.devs|, t.dev)
      case OneDevice => 0
  }

  function GlobalPhase(it: Iter): nat {
    if it.doingGlobal then 1 else 0
  }

  function Parts(it: Iter): nat {
    Monus(MAX_PART_PER_BOOTDEV + 1, it.part)
  }

  function Methods(c: Config, it: Iter): nat {
    Monus(|c.methods|, it.curMethod)
  }

  datatype Rank = Rank(unused: nat, outer: nat, inner: nat, phase: nat, parts: nat, methods: nat)

  ghost function RankOf(c: Config, it: Iter): Rank {
    Rank(Unused(c, it.methodsDone), Outer(c, it), Inner(c, it), GlobalPhase(it), Parts(it), Methods(c, it))
  }

  /** Lexicographic order: unused globals, then bootdevs, then the global phase, partitions, bootmeths. */
  predicate Less(r': Rank, r: Rank) {
    || r'.unused < r.unused
    || (r'.unused == r.unused && r'.outer < r.outer)
    || (r'.unused == r.unused && r'.outer == r.outer && r'.inner < r.inner)
    || (r'.unused == r.unused && r'.outer == r.outer && r'.inner == r.inner && r'.phase < r.phase)
    || (r'.unused == r.unused && r'.outer == r.outer && r'.inner == r.inner && r'.phase == r.phase
        && (r'.parts < r.parts || (r'.parts == r.parts && r'.methods < r.methods)))
  }

  ghost predicate Below(c: Config, it': Iter, it: Iter) {
    Less(RankOf(c, it'), RankOf(c, it))
  }

  lemma FewerUnused(r: Rank, r0: Rank, n: nat)
    requires Less(r, r0) && n <= r.unused
    ensures Less(r.(unused := n), r0)
  {
  }

  lemma UseMethod(c: Config, done: set<nat>, m: nat)
    ensures Unused(c, done + {m}) <= Unused(c, done)
    ensures m in Globals(c) && m !in done ==> Unused(c, done + {m}) < Unused(c, done)
  {
    var u := Globals(c) - done;
    assert Globals(c) - (done + {m}) == u - {m};
  }

  // ------------------------------------------------------------------ one turn

  /**
   What a step of the iterator promises before the bootmeth it stopped at is
   tried: it stands on an unused global, or it is below where it was.
   */
  ghost predicate Advanced(c: Config, it: Iter, it': Iter) {
    && it'.methodsDone == it.methodsDone
    && (|| (it'.doingGlobal && it'.curMethod in Globals(c) && it'.curMethod !in it.methodsDone)
        || (!it'.doingGlobal && Below(c, it', it)))
  }

  lemma StartGlobalAdvances(c: Config, it0: Iter, it: Iter)
    requires ConfigOk(c) && it.methodsDone == it0.methodsDone && StartGlobal(c, it).Some?
    ensures Advanced(c, it0, StartGlobal(c, it).value)
  {
  }

  lemma DeviceMovesDown(c: Config, it: Iter, restart: bool)
    requires ConfigOk(c) && Inv(c, it) && it.pending.None? && !it.doingGlobal
    requires c.mode.ByPriority? ==> it.curPrio < BOOTDEVP_COUNT
    requires restart ==> it.dev.None?
    ensures var (it', t) := NextDevice(c, it, restart);
            && it' == it.(curPrio := it'.curPrio, curLabel := it'.curLabel)
            && it'.curPrio <= BOOTDEVP_COUNT && -1 <= it'.curLabel
            && (c.mode.ByLabels? ==> it'.curLabel <= |c.mode.labels|)
            && (t.Some? ==>
                 && t.value.dev < |c.devs|
                 && (c.mode.ByPriority? ==> Probes(c, t.value.dev) && it'.curPrio < BOOTDEVP_COUNT)
                 && var at := it'.(dev := Some(t.value.dev), wholeUclass := t.value.wholeUclass);
                    var was := if restart then it.(curLabel := -1) else it;
                    Outer(c, at) < Outer(c, was) || (Outer(c, at) == Outer(c, was) && Inner(c, at) < Inner(c, was)))
  {
  }

  lemma NoDeviceAdvances(c: Config, it0: Iter, it: Iter)
    requires ConfigOk(c) && Inv(c, it0) && it.methodsDone == it0.methodsDone
    requires it.pending.None? && !it.doingGlobal && it.part == 0 && it.maxPart == 0
    requires -1 <= it.curLabel && (c.mode.ByLabels? ==> it.curLabel <= |c.mode.labels|)
    ensures var (ret, it') := NoDevice(c, it);
            && (ret == Zero || ret == NoMoreDevices)
            && (ret == Zero ==> Inv(c, it') && Advanced(c, it0, it'))
  {
    var it1 := it.(curPrio := BOOTDEVP_COUNT);
    if StartGlobal(c, it1).Some? { StartGlobalAdvances(c, it0, it1); }
  }

  lemma MoveToDeviceAdvances(c: Config, it0: Iter, it: Iter, restart: bool)
    requires ConfigOk(c) && Inv(c, it0) && Inv(c, it) && it.methodsDone == it0.methodsDone
    requires it.pending.None? && !it.doingGlobal && it.part == 0 && it.maxPart == 0
    requires c.mode.ByPriority? ==> it.curPrio < BOOTDEVP_COUNT
    requires restart ==> it.dev.None?
    requires Outer(c, if restart then it.(curLabel := -1) else it) == Outer(c, it0) && Inner(c, it) == Inner(c, it0)
    ensures var (ret, it') := MoveToDevice(c, it, restart);
            && (ret == Zero || ret == NoMoreDevices)
            && (ret == Zero ==> Inv(c, it') && Advanced(c, it0, it'))
  {
    DeviceMovesDown(c, it, restart);
    var (it1, t) := NextDevice(c, it, restart);
    if t.None? {
      NoDeviceAdvances(c, it0, if c.mode.OneDevice? then it1 else it1.(dev := None, wholeUclass := false));
    } else if restart && !Probes(c, t.value.dev) {
      NoDeviceAdvances(c, it0, it1.(dev := None, wholeUclass := false));
    } else if StartGlobal(c, it1).Some? {
      StartGlobalAdvances(c, it0, it1);
    } else if !Probes(c, t.value.dev) {
      NoDeviceAdvances(c, it0, it1);
    }
  }

  lemma MoveOnAdvances(c: Config, it0: Iter, it: Iter, restart: bool)
    requires ConfigOk(c) && Inv(c, it0) && it0.pending.None?
    requires it == it0.(curMethod := it.curMethod, doingGlobal := false)
    requires restart == it0.doingGlobal && (restart ==> it0.curPrio < BOOTDEVP_COUNT)
    ensures var (ret, it') := MoveOn(c, it, restart);
            && (ret == Zero || ret == NoMoreDevices)
            && (ret == Zero ==> Inv(c, it') && Advanced(c, it0, it'))
  {
    if !c.singlePartition && !(it.err != NoMoreParts && it.part + 1 <= it.maxPart) {
      MoveToDeviceAdvances(c, it0, it.(curMethod := 0, part := 0, maxPart := 0), restart);
    }
  }

  /** What Increment may answer, and where it may leave the iterator. */
  ghost predicate Moved(c: Config, it: Iter, ret: Ret, it': Iter) {
    && ret != NoMoreParts
    && (ret == Zero ==> Inv(c, it') && Advanced(c, it, it'))
    && (ret == OtherError ==> Inv(c, it') && Below(c, it', it) && !it'.doingGlobal && it'.methodsDone == it.methodsDone)
  }

  /** The held-back bootdev is taken up. */
  lemma PendingAdvances(c: Config, it: Iter, it': Iter)
    requires ConfigOk(c) && Inv(c, it) && it.pending.Some?
    requires var t := it.pending.value;
             || it' == it.(pending := None, doingGlobal := false, dev := Some(t.dev), wholeUclass := t.wholeUclass,
                           curMethod := 0)
             || (!c.mode.ByPriority? && it' == it.(pending := None, doingGlobal := false, curMethod := it'.curMethod))
    ensures Inv(c, it') && Below(c, it', it) && it'.methodsDone == it.methodsDone && !it'.doingGlobal
  {
  }

  lemma NextGlobalAdvances(c: Config, it: Iter, k: nat)
    requires Inv(c, it) && it.doingGlobal && it.curMethod < k < |c.methods| && GlobAllowed(c, it, k)
    ensures Moved(c, it, Zero, it.(curMethod := k))
  {
    assert k in Globals(c);
  }

  /** No global bootmeth is left, and a bootdev was held back. */
  lemma GlobalToPending(c: Config, it: Iter)
    requires ConfigOk(c) && Inv(c, it) && it.doingGlobal && it.err != NoMoreDevices && it.pending.Some?
    requires FirstAllowed(c, it, it.curMethod + 1) >= |c.methods|
    ensures var (ret, it') := Increment(c, it); Moved(c, it, ret, it')
  {
    var (ret, it') := Increment(c, it);
    PendingAdvances(c, it, it');
  }

  /** No global bootmeth is left, and none was held back: the bootdevs come next, if they have not been used up. */
  lemma GlobalToDevices(c: Config, it: Iter)
    requires ConfigOk(c) && Inv(c, it) && it.doingGlobal && it.err != NoMoreDevices && it.pending.None?
    requires FirstAllowed(c, it, it.curMethod + 1) >= |c.methods|
    ensures var (ret, it') := Increment(c, it); Moved(c, it, ret, it')
  {
    if it.curPrio != BOOTDEVP_COUNT {
      var k := FirstAllowed(c, it, it.curMethod + 1);
      MoveOnAdvances(c, it, it.(curMethod := k, doingGlobal := false), true);
    }
  }

  lemma GlobalToGlobal(c: Config, it: Iter)
    requires ConfigOk(c) && Inv(c, it) && it.doingGlobal && it.err != NoMoreDevices
    requires FirstAllowed(c, it, it.curMethod + 1) < |c.methods|
    ensures var (ret, it') := Increment(c, it); Moved(c, it, ret, it')
  {
    var k := FirstAllowed(c, it, it.curMethod + 1);
    assert Increment(c, it) == (Zero, it.(curMethod := k));
    NextGlobalAdvances(c, it, k);
  }

  lemma GlobalIncrement(c: Config, it: Iter)
    requires ConfigOk(c) && Inv(c, it) && it.doingGlobal
    ensures var (ret, it') := Increment(c, it); Moved(c, it, ret, it')
  {
    if it.err != NoMoreDevices {
      if FirstAllowed(c, it, it.curMethod + 1) < |c.methods| {
        GlobalToGlobal(c, it);
      } else if it.pending.Some? {
        GlobalToPending(c, it);
      } else {
        GlobalToDevices(c, it);
      }
    }
  }

  lemma PlainIncrement(c: Config, it: Iter)
    requires ConfigOk(c) && Inv(c, it) && !it.doingGlobal
    ensures var (ret, it') := Increment(c, it); Moved(c, it, ret, it')
  {
    var m := it.curMethod + 1;
    if it.err != NoMoreDevices && !(m < |c.methods| && !(c.haveGlobal && m >= c.firstGlob)) {
      MoveOnAdvances(c, it, it.(curMethod := m), false);
    }
  }

  lemma CheckKeepsInv(c: Config, it1: Iter, a: Answer)
    requires Inv(c, it1) && AnswerOk(a)
    ensures Inv(c, Check(it1, a))
  {
  }

  lemma CheckRank(c: Config, it1: Iter, a: Answer)
    requires !it1.doingGlobal
    ensures RankOf(c, Check(it1, a)) == RankOf(c, it1).(unused := Unused(c, Check(it1, a).methodsDone))
  {
  }

  lemma CheckMovesDown(c: Config, it: Iter, it1: Iter, a: Answer)
    requires Advanced(c, it, it1)
    ensures Below(c, Check(it1, a), it)
  {
    UseMethod(c, it.methodsDone, it1.curMethod);
    if !it1.doingGlobal {
      CheckRank(c, it1, a);
      FewerUnused(RankOf(c, it1), RankOf(c, it), Unused(c, Check(it1, a).methodsDone));
    }
  }

  lemma ErrorMovesDown(c: Config, it: Iter, it1: Iter, err: Ret)
    requires Inv(c, it1) && Below(c, it1, it)
    ensures Inv(c, it1.(err := err)) && Below(c, it1.(err := err), it)
  {
    assert RankOf(c, it1.(err := err)) == RankOf(c, it1);
  }

  lemma MovedRound(c: Config, it: Iter, ret: Ret, it1: Iter, a: Answer)
    requires AnswerOk(a) && Moved(c, it, ret, it1) && ret != NoMoreDevices
    ensures var it' := if ret == Zero then Check(it1, a) else it1.(err := ret);
            Inv(c, it') && Below(c, it', it) && Marks(it, it')
  {
    if ret == Zero {
      CheckKeepsInv(c, it1, a);
      CheckMovesDown(c, it, it1, a);
    } else {
      ErrorMovesDown(c, it, it1, ret);
    }
  }

  /** A turn that lands on a global bootmeth found it unused and marks it used. */
  predicate Marks(it: Iter, it': Iter) {
    && it.methodsDone <= it'.methodsDone
    && (it'.doingGlobal ==> it'.curMethod !in it.methodsDone && it'.curMethod in it'.methodsDone)
  }

  /** A turn of the scan keeps the invariant, moves strictly down and marks what it tries. */
  lemma RoundMovesDown(c: Config, it: Iter, a: Answer)
    requires ConfigOk(c) && Inv(c, it) && AnswerOk(a)
    ensures match OneRound(c, it, a)
            case Stopped => true
            case Next(it') => Inv(c, it') && Below(c, it', it) && Marks(it, it')
  {
    if it.doingGlobal { GlobalIncrement(c, it); } else { PlainIncrement(c, it); }
    var (ret, it1) := Increment(c, it);
    if ret != NoMoreDevices { MovedRound(c, it, ret, it1, a); }
  }

  /** Every start of a scan satisfies the invariant. */
  lemma BeginIsGood(c: Config, named: Option<Target>, part: nat, a: Answer)
    requires ConfigOk(c) && AnswerOk(a)
    ensures Begin(c, named, part, a).Some? ==> Inv(c, Begin(c, named, part, a).value)
  {
  }

  // ------------------------------------------------------------------ whole scans

  /** trace[i] takes answer number k + i to trace[i + 1]. */
  ghost predicate Link(c: Config, trace: seq<Round>, oracle: nat -> Answer, k: nat, i: nat)
    requires i + 1 < |trace|
  {
    trace[i].Next? && Callable(c, trace[i].it) && OneRound(c, trace[i].it, oracle(k + i)) == trace[i + 1]
  }

  /** Turns of the scan, answered by oracle from its k-th answer on. */
  ghost predicate IsTrace(c: Config, trace: seq<Round>, oracle: nat -> Answer, k: nat) {
    trace != [] && forall i: nat :: i + 1 < |trace| ==> Link(c, trace, oracle, k, i)
  }

  lemma TraceExtends(c: Config, trace: seq<Round>, oracle: nat -> Answer, k: nat, it: Iter)
    requires IsTrace(c, trace, oracle, k) && trace[|trace| - 1] == Next(it) && Callable(c, it)
    ensures IsTrace(c, trace + [OneRound(c, it, oracle(k + |trace| - 1))], oracle, k)
  {
    var more := trace + [OneRound(c, it, oracle(k + |trace| - 1))];
    forall i: nat | i + 1 < |more| ensures Link(c, more, oracle, k, i) {
      if i + 1 < |trace| { assert Link(c, trace, oracle, k, i); }
    }
  }

  lemma TracePrepends(c: Config, it: Iter, rest: seq<Round>, oracle: nat -> Answer, k: nat)
    requires Callable(c, it) && IsTrace(c, rest, oracle, k + 1) && rest[0] == OneRound(c, it, oracle(k))
    ensures IsTrace(c, [Next(it)] + rest, oracle, k)
  {
    var trace := [Next(it)] + rest;
    forall i: nat | i + 1 < |trace| ensures Link(c, trace, oracle, k, i) {
      if i > 0 {
        assert Link(c, rest, oracle, k + 1, i - 1);
        assert k + 1 + (i - 1) == k + i;
      }
    }
  }

  lemma TraceRest(c: Config, trace: seq<Round>, oracle: nat -> Answer, k: nat)
    requires IsTrace(c, trace, oracle, k) && |trace| > 1
    ensures IsTrace(c, trace[1..], oracle, k + 1)
    ensures trace[0].Next? && Callable(c, trace[0].it) && OneRound(c, trace[0].it, oracle(k)) == trace[1]
    ensures trace[1].Stopped? ==> |trace| == 2
  {
    assert Link(c, trace, oracle, k, 0);
    var rest, k1 := trace[1..], k + 1;
    forall i: nat | i + 1 < |rest| ensures Link(c, rest, oracle, k1, i) {
      assert Link(c, trace, oracle, k, i + 1);
    }
    if |trace| > 2 { assert Link(c, trace, oracle, k, 1); }
  }

  ghost predicate OracleOk(oracle: nat -> Answer) {
    forall i: nat :: AnswerOk(oracle(i))
  }

  /** trace is the turns from iterator first to iterator it, answered by oracle from its k-th answer on. */
  ghost predicate Reached(c: Config, trace: seq<Round>, oracle: nat -> Answer, k: nat, first: Iter, it: Iter) {
    IsTrace(c, trace, oracle, k) && trace[0] == Next(first) && trace[|trace| - 1] == Next(it) && Inv(c, it)
  }

  /** trace is the turns from iterator first to the end of the bootdevs. */
  ghost predicate Ended(c: Config, trace: seq<Round>, oracle: nat -> Answer, k: nat, first: Iter) {
    IsTrace(c, trace, oracle, k) && trace[0] == Next(first) && trace[|trace| - 1] == Stopped
  }

  lemma ReachedAtFirst(c: Config, oracle: nat -> Answer, k: nat, it: Iter)
    requires Inv(c, it)
    ensures Reached(c, [Next(it)], oracle, k, it, it)
  {
  }

  /** One more turn. */
  lemma ReachesMore(c: Config, trace: seq<Round>, oracle: nat -> Answer, k: nat, first: Iter, it: Iter)
    requires ConfigOk(c) && OracleOk(oracle) && Reached(c, trace, oracle, k, first, it)
    ensures match OneRound(c, it, oracle(k + |trace| - 1))
            case Stopped => Ended(c, trace + [Stopped], oracle, k, first)
            case Next(it') => Reached(c, trace + [Next(it')], oracle, k, first, it') && Below(c, it', it)
  {
    TraceExtends(c, trace, oracle, k, it);
    RoundMovesDown(c, it, oracle(k + |trace| - 1));
  }

  /** However the bootmeths answer, the scan reaches the end of the bootdevs in finitely many turns. */
  lemma {:induction false} ScanEnds(c: Config, it: Iter, oracle: nat -> Answer, k: nat) returns (trace: seq<Round>)
    requires ConfigOk(c) && Inv(c, it) && OracleOk(oracle)
    ensures Ended(c, trace, oracle, k, it)
    decreases Unused(c, it.methodsDone), Outer(c, it), Inner(c, it), GlobalPhase(it), Parts(it), Methods(c, it)
  {
    RoundMovesDown(c, it, oracle(k));
    var rest;
    match OneRound(c, it, oracle(k)) {
      case Stopped => rest := [Stopped];
      case Next(it') => rest := ScanEnds(c, it', oracle, k + 1);
    }
    TracePrepends(c, it, rest, oracle, k);
    trace := [Next(it)] + rest;
  }

  /** Any two traces from the same iterator, with the same answers, agree as far as both go. */
  lemma {:induction false} TracesAgree(c: Config, s: seq<Round>, t: seq<Round>, oracle: nat -> Answer, k: nat)
    requires IsTrace(c, s, oracle, k) && IsTrace(c, t, oracle, k) && s[0] == t[0]
    ensures s <= t || t <= s
    decreases |s|
  {
    if |s| == 1 {
      assert s <= t;
    } else if |t| == 1 {
      assert t <= s;
    } else {
      TraceRest(c, s, oracle, k);
      TraceRest(c, t, oracle, k);
      TracesAgree(c, s[1..], t[1..], oracle, k + 1);
      assert s == [s[0]] + s[1..] && t == [t[0]] + t[1..];
    }
  }

  lemma GoesOnFrom(c: Config, t: seq<Round>, oracle: nat -> Answer, k: nat, i: nat)
    requires IsTrace(c, t, oracle, k) && i + 1 < |t|
    ensures t[i].Next?
  {
    assert Link(c, t, oracle, k, i);
  }

  /** Nothing follows the end of a scan. */
  lemma StoppedIsLast(c: Config, s: seq<Round>, t: seq<Round>, oracle: nat -> Answer, k: nat)
    requires IsTrace(c, t, oracle, k) && IsTrace(c, s, oracle, k) && s[|s| - 1] == Stopped && s <= t
    ensures s == t
  {
    if |s| < |t| { GoesOnFrom(c, t, oracle, k, |s| - 1); }
  }

  /** Every scan ends: all the turns it can take are the beginning of one sequence of turns that stops. */
  lemma EveryScanEnds(c: Config, named: Option<Target>, part: nat, oracle: nat -> Answer, it: Iter)
    returns (trace: seq<Round>)
    requires ConfigOk(c) && OracleOk(oracle) && Begin(c, named, part, oracle(0)) == Some(it)
    ensures Ended(c, trace, oracle, 1, it)
    ensures forall t :: IsTrace(c, t, oracle, 1) && t[0] == Next(it) ==> t <= trace
  {
    BeginIsGood(c, named, part, oracle(0));
    trace := ScanEnds(c, it, oracle, 1);
    forall t | IsTrace(c, t, oracle, 1) && t[0] == Next(it) ensures t <= trace {
      TracesAgree(c, trace, t, oracle, 1);
      if trace <= t { StoppedIsLast(c, trace, t, oracle, 1); }
    }
  }

  /** The global bootmeths tried after the first iterator of a trace, in order. */
  function TriedGlobals(trace: seq<Round>): seq<nat> {
    if |trace| <= 1 then []
    else (if trace[1].Next? && trace[1].it.doingGlobal then [trace[1].it.curMethod] else []) + TriedGlobals(trace[1..])
  }

  predicate NoRepeats(s: seq<nat>) {
    forall i, j :: 0 <= i < j < |s| ==> s[i] != s[j]
  }

  ghost predicate FreshTries(it: Iter, tried: seq<nat>) {
    NoRepeats(tried) && forall i :: 0 <= i < |tried| ==> tried[i] !in it.methodsDone
  }

  lemma OneMoreTry(it: Iter, it': Iter, tried: seq<nat>)
    requires Marks(it, it') && FreshTries(it', tried)
    ensures FreshTries(it, (if it'.doingGlobal then [it'.curMethod] else []) + tried)
  {
  }

  lemma TriedStep(trace: seq<Round>)
    requires |trace| > 1
    ensures trace[1].Next? ==>
              TriedGlobals(trace)
              == (if trace[1].it.doingGlobal then [trace[1].it.curMethod] else []) + TriedGlobals(trace[1..])
    ensures trace[1].Stopped? && |trace| == 2 ==> TriedGlobals(trace) == []
  {
  }

  /** Each global bootmeth is tried at most once, and never one already used. */
  lemma {:induction false} GlobalsTriedOnce(c: Config, trace: seq<Round>, oracle: nat -> Answer, k: nat)
    requires ConfigOk(c) && OracleOk(oracle) && IsTrace(c, trace, oracle, k) && trace[0].Next? && Inv(c, trace[0].it)
    ensures FreshTries(trace[0].it, TriedGlobals(trace))
    decreases |trace|
  {
    if |trace| > 1 {
      var it := trace[0].it;
      TraceRest(c, trace, oracle, k);
      RoundMovesDown(c, it, oracle(k));
      TriedStep(trace);
      if trace[1].Next? {
        GlobalsTriedOnce(c, trace[1..], oracle, k + 1);
        OneMoreTry(it, trace[1].it, TriedGlobals(trace[1..]));
      }
    }
  }

  /** Over a whole scan, whatever it starts on: no global bootmeth is tried twice. */
  lemma ScanTriesGlobalsOnce(c: Config, named: Option<Target>, part: nat, oracle: nat -> Answer, trace: seq<Round>)
    requires ConfigOk(c) && OracleOk(oracle) && IsTrace(c, trace, oracle, 1) && trace[0].Next?
    requires Begin(c, named, part, oracle(0)) == Some(trace[0].it)
    ensures NoRepeats((if c.haveGlobal then [c.firstGlob] else []) + TriedGlobals(trace))
  {
    BeginIsGood(c, named, part, oracle(0));
    GlobalsTriedOnce(c, trace, oracle, 1);
    assert c.firstGlob in trace[0].it.methodsDone || !c.haveGlobal;
  }
}
