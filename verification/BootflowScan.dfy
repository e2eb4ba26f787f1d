/**
 The bootflow scan: an iterator over bootmeths, partitions and bootdevs, with
 global bootmeths slipped in before a bootdev when their priority is reached.
 */
module BootflowScan {
  import opened Wrappers
  import opened Bootdev

  const MAX_PART_PER_BOOTDEV: nat := 30
  const BOOTMETH_MAX_COUNT: nat := 32

  /** A bootdev that a label resolves to, and whether all of its uclass is meant. */
  datatype Target = Target(dev: nat, wholeUclass: bool)

  /**
   How the scan moves to another bootdev. The last two, and singlePartition,
   belong to a scan that names a bootdev, which has no global bootmeths.
   */
  datatype Mode =
    | ByPriority
    | ByLabels(labels: seq<Option<Target>>)
    | OneDevice
    | SameGroup

  /** methods gives the global priority of each bootmeth; those from firstGlob on are global if haveGlobal. */
  datatype Config = Config(methods: seq<nat>, firstGlob: nat, haveGlobal: bool,
                           devs: seq<Dev>, mode: Mode, singlePartition: bool)

  ghost predicate ConfigOk(c: Config) {
    && 0 < |c.methods| <= BOOTMETH_MAX_COUNT
    && (c.haveGlobal ==> c.firstGlob < |c.methods|)
    && (c.haveGlobal ==> (c.mode.ByPriority? || c.mode.ByLabels?) && !c.singlePartition)
    && (c.mode.ByLabels? ==>
          forall i :: 0 <= i < |c.mode.labels| && c.mode.labels[i].Some? ==> c.mode.labels[i].value.dev < |c.devs|)
  }

  datatype Ret = Zero | NoMoreDevices | NoMoreParts | OtherError

  datatype Iter = Iter(
    dev: Option<nat>, wholeUclass: bool, part: nat, maxPart: nat, err: Ret,
    curMethod: nat, methodsDone: set<nat>, doingGlobal: bool, pending: Option<Target>,
    curPrio: nat, curLabel: int)

  // ------------------------------------------------------- global bootmeths

  predicate GlobAllowed(c: Config, it: Iter, m: nat)
    requires m < |c.methods|
  {
    m !in it.methodsDone && c.methods[m] <= it.curPrio
  }

  /** The first usable global bootmeth at or after m, or the number of bootmeths. */
  function FirstAllowed(c: Config, it: Iter, m: nat): (k: nat)
    ensures m <= |c.methods| ==> m <= k <= |c.methods|
    ensures k < |c.methods| ==> m <= k && GlobAllowed(c, it, k)
    decreases |c.methods| - m
  {
    if m >= |c.methods| then m
    else if GlobAllowed(c, it, m) then m
    else FirstAllowed(c, it, m + 1)
  }

  /** Try to start on the global bootmeths. */
  function StartGlobal(c: Config, it: Iter): Option<Iter> {
    if !c.haveGlobal then None
    else
      var k := FirstAllowed(c, it, c.firstGlob);
      if k < |c.methods| then Some(it.(curMethod := k, doingGlobal := true, dev := None)) else None
  }

  // ------------------------------------------------------------ next bootdev

  /** The next bootdev after i with the same group, or the number of bootdevs. */
  function NextInGroup(devs: seq<Dev>, group: nat, i: nat): (k: nat)
    ensures i <= |devs| ==> i <= k <= |devs|
    ensures k < |devs| ==> i <= k && devs[k].group == group
    decreases |devs| - i
  {
    if i >= |devs| || devs[i].group == group then i else NextInGroup(devs, group, i + 1)
  }

  /** The first label after k that resolves, or the number of labels. */
  function NextLabel(labels: seq<Option<Target>>, k: int): (n: int)
    requires -1 <= k
    ensures k < |labels| ==> k < n <= |labels|
    ensures n < |labels| ==> 0 <= n && k < n && labels[n].Some?
    decreases |labels| - k
  {
    if k + 1 >= |labels| then k + 1
    else if labels[k + 1].Some? then k + 1
    else NextLabel(labels, k + 1)
  }

  /** Move along the labels: the iterator with the new label, and its bootdev if there is one. */
  function AdvanceLabel(labels: seq<Option<Target>>, it: Iter): (Iter, Option<Target>)
    requires -1 <= it.curLabel
  {
    if it.curLabel >= |labels| then (it, None)
    else
      var n := NextLabel(labels, it.curLabel);
      (it.(curLabel := n), if n < |labels| then labels[n] else None)
  }

  function AdvancePrio(c: Config, it: Iter, start: nat): (Iter, Option<Target>)
    requires it.curPrio < BOOTDEVP_COUNT
  {
    match NextPrio(c.devs, it.curPrio, start)
    case Found(p, i) => (it.(curPrio := p), Some(Target(i, false)))
    case Exhausted => (it.(curPrio := BOOTDEVP_COUNT), None)
  }

  /** Select the bootdev after the current one; restart is set when none has been used yet. */
  function NextDevice(c: Config, it: Iter, restart: bool): (Iter, Option<Target>)
    requires -1 <= it.curLabel
    requires c.mode.ByPriority? ==> it.curPrio < BOOTDEVP_COUNT
    requires it.dev.Some? ==> it.dev.value < |c.devs|
  {
    match c.mode
    case OneDevice => (it, None)
    case SameGroup =>
      if it.dev.None? then (it, None)
      else
        var k := NextInGroup(c.devs, c.devs[it.dev.value].group, it.dev.value + 1);
        (it, if k < |c.devs| then Some(Target(k, false)) else None)
    case ByLabels(labels) =>
      if restart then AdvanceLabel(labels, it.(curLabel := -1))
      else if it.wholeUclass && it.dev.Some? then
        var k := NextInGroup(c.devs, c.devs[it.dev.value].group, it.dev.value + 1);
        if k < |c.devs| then (it, Some(Target(k, true))) else AdvanceLabel(labels, it)
      else AdvanceLabel(labels, it)
    case ByPriority =>
      AdvancePrio(c, it, if restart || it.dev.None? then 0 else it.dev.value + 1)
  }

  function Probes(c: Config, d: nat): bool {
    d < |c.devs| && c.devs[d].probes
  }

  /** No more bootdevs: allow global bootmeths of any priority, or give up. */
  function NoDevice(c: Config, it: Iter): (Ret, Iter) {
    var it' := it.(curPrio := BOOTDEVP_COUNT);
    match StartGlobal(c, it')
    case Some(g) => (Zero, g)
    case None => (NoMoreDevices, it')
  }

  function MoveToDevice(c: Config, it: Iter, restart: bool): (Ret, Iter)
    requires -1 <= it.curLabel
    requires c.mode.ByPriority? ==> it.curPrio < BOOTDEVP_COUNT
    requires it.dev.Some? ==> it.dev.value < |c.devs|
  {
    var (it', target) := NextDevice(c, it, restart);
    match target
    case None =>
      NoDevice(c, if c.mode.OneDevice? then it' else it'.(dev := None, wholeUclass := false))
    case Some(t) =>
      if restart && !Probes(c, t.dev) then NoDevice(c, it'.(dev := None, wholeUclass := false))
      else
        match StartGlobal(c, it')
        case Some(g) => (Zero, g.(pending := Some(t)))
        case None =>
          if Probes(c, t.dev) then (Zero, it'.(dev := Some(t.dev), wholeUclass := t.wholeUclass))
          else NoDevice(c, it')
  }

  // ---------------------------------------------------------------- iter_incr

  function MoveOn(c: Config, it: Iter, restart: bool): (Ret, Iter)
    requires -1 <= it.curLabel
    requires c.mode.ByPriority? ==> it.curPrio < BOOTDEVP_COUNT
    requires it.dev.Some? ==> it.dev.value < |c.devs|
  {
    if c.singlePartition then (NoMoreDevices, it)
    else if it.err != NoMoreParts && it.part + 1 <= it.maxPart then
      (Zero, it.(curMethod := 0, part := it.part + 1))
    else
      MoveToDevice(c, it.(curMethod := 0, part := 0, maxPart := 0), restart)
  }

  /** Where the iterator may be called: every reachable iterator is such. */
  predicate Callable(c: Config, it: Iter) {
    && -1 <= it.curLabel
    && (it.dev.Some? ==> it.dev.value < |c.devs|)
    && (c.mode.ByPriority? && (!it.doingGlobal || it.pending.Some?) ==> it.curPrio < BOOTDEVP_COUNT)
    && it.curPrio <= BOOTDEVP_COUNT
  }

  /** Move to the next bootmeth, partition or bootdev. */
  function Increment(c: Config, it: Iter): (Ret, Iter)
    requires Callable(c, it)
  {
    if it.err == NoMoreDevices then (NoMoreDevices, it)
    else if it.doingGlobal then
      var k := FirstAllowed(c, it, it.curMethod + 1);
      if k < |c.methods| then (Zero, it.(curMethod := k))
      else
        var it := it.(curMethod := k, doingGlobal := false);
        if it.pending.Some? then
          var t := it.pending.value;
          var it := it.(pending := None);
          if Probes(c, t.dev) then (Zero, it.(dev := Some(t.dev), wholeUclass := t.wholeUclass, curMethod := 0))
          else (OtherError, it)
        else if it.curPrio == BOOTDEVP_COUNT then (NoMoreDevices, it)
        else MoveOn(c, it, true)
    else
      var m := it.curMethod + 1;
      if m < |c.methods| && !(c.haveGlobal && m >= c.firstGlob) then (Zero, it.(curMethod := m))
      else MoveOn(c, it.(curMethod := m), false)
  }

  // ------------------------------------------------------------------ the scan

  /** What trying a bootmeth answers, and the partition count it may discover. */
  datatype Answer = Answer(ret: Ret, maxPart: nat)

  predicate AnswerOk(a: Answer) {
    a.maxPart <= MAX_PART_PER_BOOTDEV
  }

  /** Try the current bootmeth. */
  function Check(it: Iter, a: Answer): Iter {
    var it := it.(methodsDone := it.methodsDone + {it.curMethod});
    var it := if it.doingGlobal then it.(dev := None, wholeUclass := false) else it.(maxPart := a.maxPart);
    if a.ret == Zero then it else it.(err := a.ret)
  }

  datatype Round = Stopped | Next(it: Iter)

  /** One turn of the scan loop; the caller resumes it after a turn that found a bootflow. */
  function OneRound(c: Config, it: Iter, a: Answer): Round
    requires Callable(c, it)
  {
    var (ret, it') := Increment(c, it);
    if ret == NoMoreDevices then Stopped
    else if ret == Zero then Next(Check(it', a))
    else Next(it'.(err := ret))
  }

  // ------------------------------------------------------------------ its start

  /** The iterator before any bootdev is chosen: on the first global bootmeth if there is one. */
  function Fresh(c: Config): Iter {
    Iter(None, false, 0, 0, Zero, if c.haveGlobal then c.firstGlob else 0, {}, c.haveGlobal, None, 0, 0)
  }

  /** The first bootdev of a scan without global bootmeths; named is the one the caller names, if it names one. */
  function FirstDevice(c: Config, named: Option<Target>): (Iter, Option<Target>) {
    if c.mode.OneDevice? || c.mode.SameGroup? then (Fresh(c), named) else NextDevice(c, Fresh(c), true)
  }

  /**
   The iterator once the first bootmeth has been tried, or None if there is no
   bootdev to start with. part is the partition the caller names, if it names one.
   */
  function Begin(c: Config, named: Option<Target>, part: nat, a: Answer): Option<Iter> {
    if c.haveGlobal then Some(Check(Fresh(c), a))
    else
      var (it, target) := FirstDevice(c, named);
      match target
      case None => None
      case Some(t) =>
        if !Probes(c, t.dev) then None
        else Some(Check(it.(dev := Some(t.dev), wholeUclass := t.wholeUclass,
                            part := if c.singlePartition then part else 0), a))
  }
}
