/** The bootflow iterator as U-Boot runs it: an object whose fields each step updates. */
module BootflowIterator {
  import opened Wrappers
  import opened Bootdev
  import opened BootflowScan
  import opened BootflowRuns

  class BootflowIter {
    const config: Config
    var dev: Option<nat>
    var wholeUclass: bool
    var part: nat
    var maxPart: nat
    var err: Ret
    var curMethod: nat
    var methodsDone: set<nat>
    var doingGlobal: bool
    var pending: Option<Target>
    var curPrio: nat
    var curLabel: int

    ghost function State(): Iter
      reads this
    {
      Iter(dev, wholeUclass, part, maxPart, err, curMethod, methodsDone, doingGlobal, pending, curPrio, curLabel)
    }

    /** All zero, but on the first global bootmeth if there is one. */
    constructor (config: Config)
      ensures this.config == config && State() == Fresh(config)
    {
      this.config := config;
      dev, wholeUclass, part, maxPart, err := None, false, 0, 0, Zero;
      methodsDone, pending, curPrio, curLabel := {}, None, 0, 0;
      curMethod, doingGlobal := 0, false;
      if config.haveGlobal {
        curMethod, doingGlobal := config.firstGlob, true;
      }
    }

    /** Find the next bootdev that probes, moving to the next priority when one is used up. */
    method BootdevNextPrio(from: Option<nat>) returns (found: Option<nat>)
      requires curPrio < BOOTDEVP_COUNT
      modifies this`curPrio
      ensures match NextPrio(config.devs, old(curPrio), if from.None? then 0 else from.value + 1)
              case Found(p, i) => found == Some(i) && curPrio == p
              case Exhausted => found == None && curPrio == BOOTDEVP_COUNT
    {
      var devs := config.devs;
      ghost var result := NextPrio(devs, curPrio, if from.None? then 0 else from.value + 1);
      var d := from;
      while true
        invariant curPrio < BOOTDEVP_COUNT
        invariant result == NextPrio(devs, curPrio, if d.None? then 0 else d.value + 1)
        decreases BOOTDEVP_COUNT - curPrio, if d.None? then |devs| + 1 else |devs| - d.value
      {
        var i := if d.None? then 0 else d.value + 1;
        while i < |devs| && devs[i].prio != curPrio
          invariant result == NextPrio(devs, curPrio, i)
          invariant d.None? || d.value < i
        {
          i := i + 1;
        }
        if i >= |devs| {
          curPrio := curPrio + 1;
          if curPrio == BOOTDEVP_COUNT {
            return None;
          }
          d := None;
        } else {
          if devs[i].probes {
            return Some(i);
          }
          d := Some(i);
        }
      }
    }

    method BootdevNextLabel() returns (found: Option<Target>)
      requires config.mode.ByLabels? && -1 <= curLabel
      modifies this`curLabel
      ensures (State(), found) == AdvanceLabel(config.mode.labels, old(State()))
    {
      var labels := config.mode.labels;
      if curLabel >= |labels| {
        return None;
      }
      ghost var last := NextLabel(labels, curLabel);
      curLabel := curLabel + 1;
      while curLabel < |labels| && labels[curLabel].None?
        invariant 0 <= curLabel <= |labels|
        invariant last
               == if curLabel < |labels| && labels[curLabel].None? then NextLabel(labels, curLabel) else curLabel
        decreases |labels| - curLabel
      {
        curLabel := curLabel + 1;
      }
      return if curLabel < |labels| then labels[curLabel] else None;
    }

    method ScanNextInGroup(from: nat) returns (k: nat)
      requires from < |config.devs|
      ensures k == NextInGroup(config.devs, config.devs[from].group, from + 1)
    {
      k := from + 1;
      while k < |config.devs| && config.devs[k].group != config.devs[from].group
        invariant NextInGroup(config.devs, config.devs[from].group, from + 1)
               == NextInGroup(config.devs, config.devs[from].group, k)
      {
        k := k + 1;
      }
    }

    /** Start on the first usable global bootmeth, if any. */
    method NextGlobBootmeth() returns (ok: bool)
      modifies this
      ensures match StartGlobal(config, old(State()))
              case Some(it) => ok && State() == it
              case None => !ok && State() == old(State())
    {
      if !config.haveGlobal {
        return false;
      }
      var i := config.firstGlob;
      while i < |config.methods|
        invariant FirstAllowed(config, State(), config.firstGlob) == FirstAllowed(config, State(), i)
        invariant State() == old(State())
      {
        if i !in methodsDone && config.methods[i] <= curPrio {
          curMethod, doingGlobal, dev := i, true, None;
          return true;
        }
        i := i + 1;
      }
      return false;
    }

    /** Select the bootdev to move to. */
    method SelectDevice(restart: bool) returns (found: Option<Target>)
      requires -1 <= curLabel && (config.mode.ByPriority? ==> curPrio < BOOTDEVP_COUNT)
      requires dev.Some? ==> dev.value < |config.devs|
      modifies this
      ensures (State(), found) == NextDevice(config, old(State()), restart)
    {
      match config.mode
      case OneDevice =>
        return None;
      case SameGroup =>
        if dev.None? {
          return None;
        }
        var k := ScanNextInGroup(dev.value);
        return if k < |config.devs| then Some(Target(k, false)) else None;
      case ByLabels(labels) =>
        if restart {
          curLabel := -1;
        } else if wholeUclass && dev.Some? {
          var k := ScanNextInGroup(dev.value);
          if k < |config.devs| {
            return Some(Target(k, true));
          }
        }
        found := BootdevNextLabel();
      case ByPriority =>
        var d := BootdevNextPrio(if restart then None else dev);
        return if d.Some? then Some(Target(d.value, false)) else None;
    }

    /** The end of the bootdevs: last chance for global bootmeths. */
    method FinishDevices() returns (ret: Ret)
      modifies this
      ensures (ret, State()) == NoDevice(config, old(State()))
    {
      curPrio := BOOTDEVP_COUNT;
      var ok := NextGlobBootmeth();
      return if ok then Zero else NoMoreDevices;
    }

    method NextBootdev(restart: bool) returns (ret: Ret)
      requires -1 <= curLabel && (config.mode.ByPriority? ==> curPrio < BOOTDEVP_COUNT)
      requires dev.Some? ==> dev.value < |config.devs|
      modifies this
      ensures (ret, State()) == MoveToDevice(config, old(State()), restart)
    {
      var found := SelectDevice(restart);
      if found.Some? && !(restart && !Probes(config, found.value.dev)) {
        var global := NextGlobBootmeth();
        if global {
          pending := found;
          return Zero;
        }
        if Probes(config, found.value.dev) {
          dev, wholeUclass := Some(found.value.dev), found.value.wholeUclass;
          return Zero;
        }
      } else if !config.mode.OneDevice? {
        dev, wholeUclass := None, false;
      }
      ret := FinishDevices();
    }

    method NextPartition(restart: bool) returns (ret: Ret)
      requires -1 <= curLabel && (config.mode.ByPriority? ==> curPrio < BOOTDEVP_COUNT)
      requires dev.Some? ==> dev.value < |config.devs|
      modifies this
      ensures (ret, State()) == MoveOn(config, old(State()), restart)
    {
      if config.singlePartition {
        return NoMoreDevices;
      }
      curMethod := 0;
      if err != NoMoreParts {
        part := part + 1;
        if part <= maxPart {
          return Zero;
        }
      }
      part, maxPart := 0, 0;
      ret := NextBootdev(restart);
    }

    method IterIncr() returns (ret: Ret)
      requires Callable(config, State())
      modifies this
      ensures (ret, State()) == Increment(config, old(State()))
    {
      if err == NoMoreDevices {
        return NoMoreDevices;
      }
      var global := doingGlobal;
      curMethod := curMethod + 1;
      while curMethod < |config.methods|
        invariant State() == old(State()).(curMethod := curMethod)
        invariant global ==>
          FirstAllowed(config, old(State()), old(curMethod) + 1) == FirstAllowed(config, old(State()), curMethod)
        invariant !global ==> curMethod == old(curMethod) + 1
      {
        if doingGlobal {
          if curMethod !in methodsDone && config.methods[curMethod] <= curPrio {
            return Zero;
          }
          curMethod := curMethod + 1;
          continue;
        }
        if config.haveGlobal && curMethod >= config.firstGlob {
          break;
        }
        return Zero;
      }
      if global {
        doingGlobal := false;
        if pending.Some? {
          var t := pending.value;
          pending := None;
          if !Probes(config, t.dev) {
            return OtherError;
          }
          dev, wholeUclass, curMethod := Some(t.dev), t.wholeUclass, 0;
          return Zero;
        }
        if curPrio == BOOTDEVP_COUNT {
          return NoMoreDevices;
        }
      }
      ret := NextPartition(global);
    }

    /** Try the current bootmeth. */
    method TryMethod(answer: Answer) returns (ret: Ret)
      modifies this
      ensures State() == Check(old(State()), answer) && ret == answer.ret
    {
      methodsDone := methodsDone + {curMethod};
      if doingGlobal {
        dev, wholeUclass := None, false;
      } else {
        maxPart := answer.maxPart;
      }
      if answer.ret != Zero {
        err := answer.ret;
      }
      return answer.ret;
    }

    /** Start a scan: choose the first bootdev unless global bootmeths come first, and try the first bootmeth. */
    method ScanFirst(named: Option<Target>, namedPart: nat, answer: Answer) returns (ok: bool)
      requires ConfigOk(config) && State() == Fresh(config)
      modifies this
      ensures match Begin(config, named, namedPart, answer)
              case Some(it) => ok && State() == it
              case None => !ok
    {
      if !doingGlobal {
        if config.singlePartition {
          part := namedPart;
        }
        var found := named;
        if !config.mode.OneDevice? && !config.mode.SameGroup? {
          found := SelectDevice(true);
        }
        if found.None? || !Probes(config, found.value.dev) {
          return false;
        }
        dev, wholeUclass := Some(found.value.dev), found.value.wholeUclass;
      }
      var ret := TryMethod(answer);
      return true;
    }

    /** One turn of the scan: move on and try the bootmeth it stops at. */
    method Turn(answer: Answer) returns (ended: bool, ret: Ret)
      requires Callable(config, State())
      modifies this
      ensures match OneRound(config, old(State()), answer)
              case Stopped => ended
              case Next(it) => !ended && State() == it && (ret == Zero ==> answer.ret == Zero)
    {
      ret := IterIncr();
      if ret == NoMoreDevices {
        return true, ret;
      }
      if ret == Zero {
        ret := TryMethod(answer);
      } else {
        err := ret;
      }
      return false, ret;
    }

    /** As Turn, for the turn at the end of a trace; n is the number of the answer that is due. */
    method TurnAfter(ghost trace: seq<Round>, ghost first: Iter, oracle: nat -> Answer, ghost k: nat, n: nat)
      returns (ended: bool, ret: Ret, ghost more: seq<Round>)
      requires ConfigOk(config) && OracleOk(oracle) && k + |trace| == n + 1
      requires Reached(config, trace, oracle, k, first, State())
      modifies this
      ensures k + |more| == n + 2
      ensures if ended then Ended(config, more, oracle, k, first) else Reached(config, more, oracle, k, first, State())
      ensures !ended ==> Below(config, State(), old(State())) && (ret == Zero ==> oracle(n).ret == Zero)
    {
      ReachesMore(config, trace, oracle, k, first, State());
      more := trace + [OneRound(config, State(), oracle(n))];
      ended, ret := Turn(oracle(n));
    }

    /**
     Scan for the next bootflow; oracle holds the answers of the bootmeths, its
     k-th the next to be given and its last-th the one that ends the scan, which
     is at a bootflow or after the last bootdev.
     */
    method ScanNext(oracle: nat -> Answer, k: nat) returns (found: bool, last: nat, ghost trace: seq<Round>)
      requires ConfigOk(config) && Inv(config, State()) && OracleOk(oracle)
      modifies this
      ensures k + |trace| == last + 2
      ensures found ==> Reached(config, trace, oracle, k, old(State()), State()) && oracle(last).ret == Zero
      ensures !found ==> Ended(config, trace, oracle, k, old(State()))
    {
      last, trace := k, [Next(State())];
      ReachedAtFirst(config, oracle, k, State());
      ghost var rank := RankOf(config, State());
      while true
        invariant k + |trace| == last + 1 && Reached(config, trace, oracle, k, old(State()), State())
        invariant rank == RankOf(config, State())
        decreases rank.unused, rank.outer, rank.inner, rank.phase, rank.parts, rank.methods
      {
        var ended, ret, more := TurnAfter(trace, old(State()), oracle, k, last);
        rank, trace := RankOf(config, State()), more;
        if ended || ret == Zero {
          return !ended, last, trace;
        }
        last := last + 1;
      }
    }
  }
}
