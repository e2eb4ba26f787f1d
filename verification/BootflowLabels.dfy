/** The bootdevs that a scan by labels, of one group or of one bootdev visits, in order. */
module BootflowLabels {
  import opened Wrappers
  import opened Bootdev
  import opened BootflowScan
  import opened BootflowRuns
  import opened BootflowOrder
  import opened BootflowGlobals
  import opened BootflowParts

  // ----------------------------------------------------------------- the order

  /** The bootdevs of a group from number i on. */
  function GroupFrom(devs: seq<Dev>, group: nat, i: nat): seq<nat>
    decreases |devs| - i
  {
    if i >= |devs| then []
    else if devs[i].group == group then [i] + GroupFrom(devs, group, i + 1)
    else GroupFrom(devs, group, i + 1)
  }

  /** What follows bootdev d: the later ones of its group, if all are meant. */
  function AfterDev(devs: seq<Dev>, d: nat, whole: bool): seq<nat> {
    if whole && d < |devs| then GroupFrom(devs, devs[d].group, d + 1) else []
  }

  function Then(s: seq<nat>, t: seq<nat>): seq<nat> {
    if s == [] then t else s + t
  }

  /** The bootdevs that the labels from number k on mean; a label may mean none. */
  function OfLabels(devs: seq<Dev>, labels: seq<Option<Target>>, k: nat): seq<nat>
    decreases |labels| - k
  {
    if k >= |labels| then []
    else
      match labels[k]
      case None => OfLabels(devs, labels, k + 1)
      case Some(t) => [t.dev] + Then(AfterDev(devs, t.dev, t.wholeUclass), OfLabels(devs, labels, k + 1))
  }

  /** The bootdevs that a scan is meant to visit, where it does not go by priority. */
  function Meant(c: Config, named: Option<Target>): seq<nat> {
    match c.mode
    case ByLabels(labels) => OfLabels(c.devs, labels, 0)
    case SameGroup => if named.None? then [] else [named.value.dev] + AfterDev(c.devs, named.value.dev, true)
    case _ => if named.None? then [] else [named.value.dev]
  }

  /** Up to the first one that fails to probe. */
  function UntilFailure(c: Config, s: seq<nat>): seq<nat> {
    if s == [] || !Probes(c, s[0]) then [] else [s[0]] + UntilFailure(c, s[1..])
  }

  /** The bootdev that a turn comes to: the first bootmeth is tried on partition 0. */
  function ComesTo(r: Round): seq<nat> {
    if r.Next? && AtBootdev(r.it) && r.it.part == 0 && r.it.curMethod == 0 then [r.it.dev.value] else []
  }

  /** The bootdevs that a scan comes to, in order. */
  function Arrivals(trace: seq<Round>): seq<nat> {
    if trace == [] then [] else ComesTo(trace[0]) + Arrivals(trace[1..])
  }

  // ------------------------------------------------------------- the next bootdev

  lemma {:induction false} NextOfGroup(devs: seq<Dev>, group: nat, i: nat)
    ensures var k := NextInGroup(devs, group, i);
            GroupFrom(devs, group, i) == if k < |devs| then [k] + GroupFrom(devs, group, k + 1) else []
    decreases |devs| - i
  {
    if i < |devs| && devs[i].group != group { NextOfGroup(devs, group, i + 1); }
  }

  /** Labels that mean no bootdev contribute nothing. */
  lemma {:induction false} NextOfLabels(devs: seq<Dev>, labels: seq<Option<Target>>, k: int)
    requires -1 <= k < |labels|
    ensures OfLabels(devs, labels, k + 1) == OfLabels(devs, labels, NextLabel(labels, k))
    decreases |labels| - k
  {
    if k + 1 < |labels| && labels[k + 1].None? { NextOfLabels(devs, labels, k + 1); }
  }

  lemma ThenFirst(d: nat, s: seq<nat>, t: seq<nat>)
    ensures Then([d] + s, t) == [d] + Then(s, t)
  {
    if s == [] {
      assert [d] + s == [d];
    } else {
      assert ([d] + s) + t == [d] + (s + t);
    }
  }

  /** What is to come after bootdev d, with label l the current one. */
  function After(c: Config, d: nat, whole: bool, l: int): seq<nat>
    requires -1 <= l
  {
    match c.mode
    case ByLabels(labels) => Then(AfterDev(c.devs, d, whole), OfLabels(c.devs, labels, l + 1))
    case SameGroup => AfterDev(c.devs, d, true)
    case _ => []
  }

  /** What is to come. */
  function Rest(c: Config, it: Iter): seq<nat>
    requires -1 <= it.curLabel
  {
    if it.curPrio >= BOOTDEVP_COUNT then []
    else if it.doingGlobal && c.mode.ByLabels? then OfLabels(c.devs, c.mode.labels, 0)
    else if it.dev.Some? then After(c, it.dev.value, it.wholeUclass, it.curLabel)
    else []
  }

  predicate HasDev(c: Config, it: Iter) {
    it.dev.Some? && it.dev.value < |c.devs|
  }

  /** Where moving along the labels leads. */
  lemma LabelAdvances(labels: seq<Option<Target>>, it: Iter)
    requires -1 <= it.curLabel
    ensures var (it', t) := AdvanceLabel(labels, it);
            && it' == it.(curLabel := it'.curLabel) && -1 <= it'.curLabel
            && (t.None? ==> it.curLabel >= |labels| || NextLabel(labels, it.curLabel) >= |labels|)
            && (t.Some? ==> it'.curLabel == NextLabel(labels, it.curLabel) < |labels| && t == labels[it'.curLabel])
  {
  }

  lemma LabelFound(c: Config, labels: seq<Option<Target>>, k: int, n: nat)
    requires c.mode == ByLabels(labels) && -1 <= k < |labels| && n == NextLabel(labels, k) < |labels|
    ensures OfLabels(c.devs, labels, k + 1) == StartingWith(c, labels[n], n)
  {
    NextOfLabels(c.devs, labels, k);
    assert OfLabels(c.devs, labels, n) == StartingWith(c, labels[n], n);
  }

  lemma NoLabelLeft(c: Config, labels: seq<Option<Target>>, k: int)
    requires -1 <= k && (k >= |labels| || NextLabel(labels, k) >= |labels|)
    ensures OfLabels(c.devs, labels, k + 1) == []
  {
    if k < |labels| { NextOfLabels(c.devs, labels, k); }
  }

  /** Moving along the labels. */
  lemma LabelTakes(c: Config, labels: seq<Option<Target>>, it: Iter, it': Iter, t: Option<Target>)
    requires c.mode == ByLabels(labels) && -1 <= it.curLabel && (it', t) == AdvanceLabel(labels, it)
    ensures it' == it.(curLabel := it'.curLabel) && -1 <= it'.curLabel
    ensures OfLabels(c.devs, labels, it.curLabel + 1) == StartingWith(c, t, it'.curLabel)
  {
    LabelAdvances(labels, it);
    if t.Some? { LabelFound(c, labels, it.curLabel, it'.curLabel); } else { NoLabelLeft(c, labels, it.curLabel); }
  }

  /** A bootdev that comes next, if any, and what comes after it. */
  function StartingWith(c: Config, t: Option<Target>, l: int): seq<nat>
    requires -1 <= l
  {
    match t case None => [] case Some(t) => [t.dev] + After(c, t.dev, t.wholeUclass, l)
  }

  lemma NextLabelled(c: Config, labels: seq<Option<Target>>, it: Iter)
    requires c.mode == ByLabels(labels) && -1 <= it.curLabel && HasDev(c, it)
    ensures var (it', t) := NextDevice(c, it, false);
            && it' == it.(curLabel := it'.curLabel) && -1 <= it'.curLabel
            && After(c, it.dev.value, it.wholeUclass, it.curLabel) == StartingWith(c, t, it'.curLabel)
  {
    var d := it.dev.value;
    var group := c.devs[d].group;
    var k := NextInGroup(c.devs, group, d + 1);
    var more := OfLabels(c.devs, labels, it.curLabel + 1);
    NextOfGroup(c.devs, group, d + 1);
    if it.wholeUclass && k < |c.devs| {
      ThenFirst(k, GroupFrom(c.devs, group, k + 1), more);
    } else {
      LabelTakes(c, labels, it, NextDevice(c, it, false).0, NextDevice(c, it, false).1);
      assert AfterDev(c.devs, d, it.wholeUclass) == [];
    }
  }

  lemma NextDeviceTakes(c: Config, it: Iter)
    requires !c.mode.ByPriority? && -1 <= it.curLabel && HasDev(c, it)
    ensures var (it', t) := NextDevice(c, it, false);
            && it' == it.(curLabel := it'.curLabel) && -1 <= it'.curLabel
            && After(c, it.dev.value, it.wholeUclass, it.curLabel) == StartingWith(c, t, it'.curLabel)
  {
    if c.mode.ByLabels? {
      NextLabelled(c, c.mode.labels, it);
    } else {
      NextOfGroup(c.devs, c.devs[it.dev.value].group, it.dev.value + 1);
    }
  }

  lemma FirstDeviceTakes(c: Config, it: Iter)
    requires c.mode.ByLabels? && (it.dev.Some? ==> HasDev(c, it)) && -1 <= it.curLabel
    ensures var (it', t) := NextDevice(c, it, true);
            && it' == it.(curLabel := it'.curLabel) && -1 <= it'.curLabel
            && OfLabels(c.devs, c.mode.labels, 0) == StartingWith(c, t, it'.curLabel)
  {
    LabelTakes(c, c.mode.labels, it.(curLabel := -1), NextDevice(c, it, true).0, NextDevice(c, it, true).1);
  }

  // -------------------------------------------------------------------- one turn

  lemma UntilEmpty(c: Config, d: nat, more: seq<nat>)
    ensures UntilFailure(c, [d] + more) == if Probes(c, d) then [d] + UntilFailure(c, more) else []
  {
    assert ([d] + more)[1..] == more;
  }

  /** No global bootmeth is allowed any more at the present priority. */
  predicate NoneLeft(c: Config, it: Iter) {
    c.haveGlobal ==> UsedBefore(c, it, |c.methods|)
  }

  lemma NoneLeftNoStart(c: Config, it: Iter)
    requires NoneLeft(c, it)
    ensures StartGlobal(c, it).None?
  {
  }

  /** Where a scan that does not go by priority can be: on global bootmeths, or at a bootdev. */
  ghost predicate Placed(c: Config, it: Iter) {
    && it.pending.None? && -1 <= it.curLabel
    && (if it.doingGlobal then it.dev.None? else HasDev(c, it) && it.curPrio < BOOTDEVP_COUNT && NoneLeft(c, it))
  }

  /** A step takes the bootdev it comes to from what is to come, and ends only when nothing is. */
  ghost predicate TakesNext(c: Config, it: Iter, ret: Ret, it': Iter, came: bool)
    requires -1 <= it.curLabel
  {
    match ret
    case Zero =>
      && Placed(c, it')
      && UntilFailure(c, Rest(c, it))
         == (if came && it'.dev.Some? then [it'.dev.value] else []) + UntilFailure(c, Rest(c, it'))
    case NoMoreDevices => it.err == NoMoreDevices || c.singlePartition || UntilFailure(c, Rest(c, it)) == []
    case _ => false
  }

  /** No bootdev is left that can be used. */
  lemma EndsHere(c: Config, it0: Iter, it: Iter)
    requires -1 <= it.curLabel && -1 <= it0.curLabel && it.pending.None? && UntilFailure(c, Rest(c, it0)) == []
    ensures var (ret, it') := NoDevice(c, it); TakesNext(c, it0, ret, it', true)
  {
  }

  lemma MovesTo(c: Config, it0: Iter, it: Iter, t: Target)
    requires -1 <= it.curLabel && -1 <= it0.curLabel && Probes(c, t.dev) && it.curPrio < BOOTDEVP_COUNT
    requires it.pending.None? && !it.doingGlobal && NoneLeft(c, it)
    requires Rest(c, it0) == [t.dev] + After(c, t.dev, t.wholeUclass, it.curLabel)
    ensures TakesNext(c, it0, Zero, it.(dev := Some(t.dev), wholeUclass := t.wholeUclass), true)
  {
    UntilEmpty(c, t.dev, After(c, t.dev, t.wholeUclass, it.curLabel));
  }

  /** To the next bootdev, or away from a scan that has none. */
  lemma MoveTakes(c: Config, it0: Iter, it: Iter, restart: bool)
    requires ConfigOk(c) && !c.mode.ByPriority? && -1 <= it.curLabel && -1 <= it0.curLabel
    requires it.curPrio < BOOTDEVP_COUNT && it.pending.None? && !it.doingGlobal && NoneLeft(c, it)
    requires if restart then c.mode.ByLabels? && it.dev.None? && Rest(c, it0) == OfLabels(c.devs, c.mode.labels, 0)
             else HasDev(c, it) && Rest(c, it0) == After(c, it.dev.value, it.wholeUclass, it.curLabel)
    ensures var (ret, it') := MoveToDevice(c, it, restart); TakesNext(c, it0, ret, it', true)
  {
    var (it1, t) := NextDevice(c, it, restart);
    if restart { FirstDeviceTakes(c, it); } else { NextDeviceTakes(c, it); }
    NoneLeftNoStart(c, it1);
    var away := it1.(dev := None, wholeUclass := false);
    if t.Some? && Probes(c, t.value.dev) {
      MovesTo(c, it0, it1, t.value);
    } else {
      if t.Some? { UntilEmpty(c, t.value.dev, After(c, t.value.dev, t.value.wholeUclass, it1.curLabel)); }
      EndsHere(c, it0, away);
      EndsHere(c, it0, it1);
    }
  }

  /** From the global bootmeths. */
  lemma GlobalComes(c: Config, it: Iter)
    requires ConfigOk(c) && !c.mode.ByPriority? && Inv(c, it) && Placed(c, it) && Swept(c, it) && it.doingGlobal
    ensures var (ret, it') := Increment(c, it); TakesNext(c, it, ret, it', true)
  {
    var k := FirstAllowed(c, it, it.curMethod + 1);
    if it.err != NoMoreDevices && k >= |c.methods| && it.curPrio < BOOTDEVP_COUNT {
      NextSweeps(c, it, k);
      MoveTakes(c, it, it.(curMethod := 0, doingGlobal := false), true);
    }
  }

  /** From a bootdev. */
  lemma BootdevLeft(c: Config, it: Iter)
    requires ConfigOk(c) && !c.mode.ByPriority? && Inv(c, it) && Placed(c, it) && AtBootdev(it)
    requires it.curMethod + 1 == Plain(c) && !HasNextPart(c, it)
    ensures var (ret, it') := Increment(c, it); TakesNext(c, it, ret, it', true)
  {
    if it.err != NoMoreDevices && !c.singlePartition {
      MoveTakes(c, it, it.(curMethod := 0, part := 0, maxPart := 0), false);
    }
  }

  /** Trying a bootmeth changes nothing of what is to come. */
  lemma CheckTakesNothing(c: Config, it: Iter, a: Answer)
    requires Placed(c, it)
    ensures Placed(c, Check(it, a)) && Rest(c, Check(it, a)) == Rest(c, it)
    ensures Check(it, a).dev == it.dev && Check(it, a).part == it.part && Check(it, a).curMethod == it.curMethod
    ensures Check(it, a).doingGlobal == it.doingGlobal
  {
  }

  /** What a turn does to what is to come. */
  ghost predicate Comes(c: Config, it: Iter, r: Round)
    requires -1 <= it.curLabel
  {
    match r
    case Stopped => it.err == NoMoreDevices || c.singlePartition || UntilFailure(c, Rest(c, it)) == []
    case Next(it') => Placed(c, it') && UntilFailure(c, Rest(c, it)) == ComesTo(r) + UntilFailure(c, Rest(c, it'))
  }

  lemma StepComes(c: Config, it: Iter, ret: Ret, it1: Iter, a: Answer)
    requires -1 <= it.curLabel && TakesNext(c, it, ret, it1, true)
    requires ret == Zero && AtBootdev(it1) ==> it1.part == 0 && it1.curMethod == 0
    ensures ret != OtherError && ret != NoMoreParts
    ensures Comes(c, it, if ret == NoMoreDevices then Stopped else Next(Check(it1, a)))
  {
    if ret == Zero { CheckTakesNothing(c, it1, a); }
  }

  lemma TurnComes(c: Config, it: Iter, a: Answer)
    requires ConfigOk(c) && !c.mode.ByPriority? && TurnOk(c, Next(it)) && Placed(c, it) && Swept(c, it)
    ensures Comes(c, it, OneRound(c, it, a))
  {
    var (ret, it1) := Increment(c, it);
    if it.doingGlobal {
      GlobalComes(c, it);
      Arrives(c, it, a);
      StepComes(c, it, ret, it1, a);
    } else if it.err == NoMoreDevices {
    } else if it.curMethod + 1 == Plain(c) && !HasNextPart(c, it) {
      BootdevLeft(c, it);
      Leaves(c, it, a);
      StepComes(c, it, ret, it1, a);
    } else {
      GoesOn(c, it, a);
      assert Rest(c, OneRound(c, it, a).it) == Rest(c, it);
    }
  }

  // ----------------------------------------------------------------- whole scans

  /** What a scan comes to is the beginning of what was to come, and all of it when the scan ends by itself. */
  ghost predicate ComesInOrder(c: Config, trace: seq<Round>, all: seq<nat>) {
    && Arrivals(trace) <= all
    && (trace != [] && trace[|trace| - 1] == Stopped && !CutShort(c, trace) ==> Arrivals(trace) == all)
  }

  lemma OneMoreArrival(c: Config, trace: seq<Round>, rest: seq<nat>)
    requires |trace| > 1 && ComesInOrder(c, trace[1..], rest)
    ensures ComesInOrder(c, trace, ComesTo(trace[0]) + rest)
  {
    assert Arrivals(trace) == ComesTo(trace[0]) + Arrivals(trace[1..]);
    if trace[|trace| - 1] == Stopped { assert |trace| > 2 ==> trace[1..][|trace[1..]| - 2] == trace[|trace| - 2]; }
  }

  lemma {:induction false} ArrivesInOrder(c: Config, trace: seq<Round>, oracle: nat -> Answer, k: nat, it: Iter)
    requires ConfigOk(c) && OracleOk(oracle) && !c.mode.ByPriority? && TurnOk(c, Next(it)) && Placed(c, it)
    requires Swept(c, it) && IsTrace(c, trace, oracle, k) && trace[0] == Next(it)
    ensures ComesInOrder(c, trace, ComesTo(trace[0]) + UntilFailure(c, Rest(c, it)))
    decreases |trace|
  {
    if |trace| > 1 {
      TraceRest(c, trace, oracle, k);
      TurnComes(c, it, oracle(k));
      TurnsStayOk(c, it, oracle(k));
      if trace[1].Next? {
        if c.haveGlobal { RoundSweeps(c, it, oracle(k)); }
        ArrivesInOrder(c, trace[1..], oracle, k + 1, trace[1].it);
        OneMoreArrival(c, trace, UntilFailure(c, Rest(c, it)));
      } else {
        assert trace[1..] == [Stopped] && Arrivals(trace[1..]) == [];
      }
    }
  }

  /** The first bootdev of a scan without global bootmeths. */
  lemma FirstIsMeant(c: Config, named: Option<Target>)
    requires ConfigOk(c) && !c.mode.ByPriority?
    ensures var (it, t) := FirstDevice(c, named);
            && it == Fresh(c).(curLabel := it.curLabel) && -1 <= it.curLabel
            && Meant(c, named) == StartingWith(c, t, it.curLabel)
  {
    if c.mode.ByLabels? { FirstDeviceTakes(c, Fresh(c)); }
  }

  lemma BeginIsPlaced(c: Config, named: Option<Target>, part: nat, a: Answer)
    requires ConfigOk(c) && AnswerOk(a) && !c.mode.ByPriority? && Begin(c, named, part, a).Some?
    ensures var it := Begin(c, named, part, a).value; Placed(c, it) && Swept(c, it) && TurnOk(c, Next(it))
  {
    BeginIsGood(c, named, part, a);
    if !c.haveGlobal { FirstIsMeant(c, named); }
  }

  lemma BeginTakesFirst(c: Config, named: Option<Target>, part: nat, a: Answer)
    requires ConfigOk(c) && AnswerOk(a) && !c.mode.ByPriority? && !c.singlePartition && Begin(c, named, part, a).Some?
    ensures var it := Begin(c, named, part, a).value;
            -1 <= it.curLabel
            && ComesTo(Next(it)) + UntilFailure(c, Rest(c, it)) == UntilFailure(c, Meant(c, named))
  {
    if !c.haveGlobal {
      FirstIsMeant(c, named);
      var (it, t) := FirstDevice(c, named);
      var first := it.(dev := Some(t.value.dev), wholeUclass := t.value.wholeUclass);
      CheckTakesNothing(c, first, a);
      UntilEmpty(c, t.value.dev, After(c, t.value.dev, t.value.wholeUclass, it.curLabel));
    }
  }

  /**
   A scan by labels, of one group or of one bootdev: the bootdevs it comes to are a
   beginning of those it is meant to visit, in that order, up to the first that fails
   to probe; and all of these unless a bootmeth says that there are no more.
   */
  lemma ScanVisitsMeant(c: Config, named: Option<Target>, part: nat, oracle: nat -> Answer, trace: seq<Round>)
    requires IsScan(c, named, part, oracle, trace) && !c.mode.ByPriority? && !c.singlePartition
    ensures Arrivals(trace) <= UntilFailure(c, Meant(c, named))
    ensures trace[|trace| - 1].Stopped? && !CutShort(c, trace) ==> Arrivals(trace) == UntilFailure(c, Meant(c, named))
  {
    BeginIsPlaced(c, named, part, oracle(0));
    BeginTakesFirst(c, named, part, oracle(0));
    ArrivesInOrder(c, trace, oracle, 1, trace[0].it);
  }

  lemma {:induction false} ArrivalIsTried(trace: seq<Round>, d: nat)
    requires d in Arrivals(trace)
    ensures IsTried(trace, d, 0, 0)
    decreases |trace|
  {
    if d in ComesTo(trace[0]) {
      assert Tries(trace[0], d, 0, 0);
    } else {
      var rest := trace[1..];
      ArrivalIsTried(rest, d);
      var i :| 0 <= i < |rest| && Tries(rest[i], d, 0, 0);
      assert Tries(trace[i + 1], d, 0, 0);
    }
  }

  /** If besides no bootmeth says to go on, every bootmeth that is not global is tried on every partition. */
  lemma EverythingMeantIsTried(c: Config, named: Option<Target>, part: nat, oracle: nat -> Answer, trace: seq<Round>,
                               parts: nat -> nat)
    requires IsScan(c, named, part, oracle, trace) && !c.mode.ByPriority?
    requires trace[|trace| - 1].Stopped? && !CutShort(c, trace) && NeverCut(trace, parts)
    ensures forall d, p: nat, m: nat :: d in UntilFailure(c, Meant(c, named)) && p <= parts(d) && m < Plain(c) ==>
              IsTried(trace, d, p, m)
  {
    ScanVisitsMeant(c, named, part, oracle, trace);
    forall d, p: nat, m: nat | d in UntilFailure(c, Meant(c, named)) && p <= parts(d) && m < Plain(c)
      ensures IsTried(trace, d, p, m)
    {
      ArrivalIsTried(trace, d);
      var i :| 0 <= i < |trace| && Tries(trace[i], d, 0, 0);
      VisitTriesAll(c, named, part, oracle, trace, i, d, parts(d));
    }
  }
}
