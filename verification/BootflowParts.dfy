/** Which partitions and bootmeths a scan tries at a bootdev: all of them, in order, unless it is told to go on. */
module BootflowParts {
  import opened Wrappers
  import opened Bootdev
  import opened BootflowScan
  import opened BootflowRuns
  import opened BootflowOrder

  /** How many bootmeths are tried on a partition: those before the global ones, and at least one. */
  function Plain(c: Config): (n: nat)
    requires ConfigOk(c)
    ensures n > 0
  {
    if !c.haveGlobal then |c.methods| else if c.firstGlob == 0 then 1 else c.firstGlob
  }

  /** A bootmeth is tried on a partition of bootdev d. */
  predicate Tries(r: Round, d: nat, part: nat, m: nat) {
    r.Next? && !r.it.doingGlobal && r.it.dev == Some(d) && r.it.part == part && r.it.curMethod == m
  }

  predicate AtBootdev(it: Iter) {
    !it.doingGlobal && it.dev.Some?
  }

  /** After the last bootmeth: whether there is another partition to try. */
  predicate HasNextPart(c: Config, it: Iter) {
    !c.singlePartition && it.err != NoMoreParts && it.part < it.maxPart
  }

  // ------------------------------------------------------------------- one turn

  /** The turn after a bootmeth was tried: the next bootmeth, or the first one on the next partition. */
  lemma GoesOn(c: Config, it: Iter, a: Answer)
    requires ConfigOk(c) && Callable(c, it) && AtBootdev(it) && it.err != NoMoreDevices && it.curMethod < Plain(c)
    ensures it.curMethod + 1 < Plain(c) ==> Tries(OneRound(c, it, a), it.dev.value, it.part, it.curMethod + 1)
    ensures it.curMethod + 1 == Plain(c) && HasNextPart(c, it) ==>
              Tries(OneRound(c, it, a), it.dev.value, it.part + 1, 0)
  {
  }

  /** Where a scan stands after it has left a bootdev or the global bootmeths: it has ended, or it starts anew. */
  predicate StartsAnew(r: Round) {
    r.Next? ==> r.it.part == 0 && (AtBootdev(r.it) ==> r.it.curMethod == 0)
  }

  lemma NextDeviceStays(c: Config, it: Iter, restart: bool)
    requires Callable(c, it) && (c.mode.ByPriority? ==> it.curPrio < BOOTDEVP_COUNT)
    ensures var it' := NextDevice(c, it, restart).0;
            it'.part == it.part && it'.curMethod == it.curMethod
  {
  }

  lemma MoveStartsAnew(c: Config, it: Iter, restart: bool)
    requires Callable(c, it) && (c.mode.ByPriority? ==> it.curPrio < BOOTDEVP_COUNT)
    requires it.part == 0 && it.curMethod == 0
    ensures var (ret, it') := MoveToDevice(c, it, restart);
            ret != NoMoreDevices ==> it'.part == 0 && (!it'.doingGlobal ==> it'.curMethod == 0)
  {
    NextDeviceStays(c, it, restart);
  }

  /** The turn after the last bootmeth on the last partition. */
  lemma Leaves(c: Config, it: Iter, a: Answer)
    requires ConfigOk(c) && Inv(c, it) && AtBootdev(it) && it.curMethod < Plain(c)
    requires it.err == NoMoreDevices || (it.curMethod + 1 == Plain(c) && !HasNextPart(c, it))
    ensures StartsAnew(OneRound(c, it, a))
    ensures it.err == NoMoreDevices || c.singlePartition ==> OneRound(c, it, a).Stopped?
  {
    if it.err != NoMoreDevices && !c.singlePartition {
      MoveStartsAnew(c, it.(curMethod := 0, part := 0, maxPart := 0), false);
    }
  }

  /** The turn after a global bootmeth, or after a bootdev that failed. */
  lemma Arrives(c: Config, it: Iter, a: Answer)
    requires ConfigOk(c) && Inv(c, it) && !AtBootdev(it)
    ensures OneRound(c, it, a).Next? && AtBootdev(OneRound(c, it, a).it) ==> StartsAnew(OneRound(c, it, a))
  {
  }

  // ------------------------------------------------------------------ whole scans

  /** The turns of a scan from its start. */
  ghost predicate IsScan(c: Config, named: Option<Target>, part: nat, oracle: nat -> Answer, trace: seq<Round>) {
    && ConfigOk(c) && OracleOk(oracle) && IsTrace(c, trace, oracle, 1)
    && trace[0].Next? && Begin(c, named, part, oracle(0)) == Some(trace[0].it)
  }

  /** What holds of every turn. */
  ghost predicate TurnOk(c: Config, r: Round)
    requires ConfigOk(c)
  {
    r.Next? ==> Inv(c, r.it) && (AtBootdev(r.it) ==> r.it.curMethod < Plain(c))
  }

  lemma TurnsStayOk(c: Config, it: Iter, a: Answer)
    requires ConfigOk(c) && AnswerOk(a) && TurnOk(c, Next(it))
    ensures TurnOk(c, OneRound(c, it, a))
  {
    RoundMovesDown(c, it, a);
    if !AtBootdev(it) {
      Arrives(c, it, a);
    } else if it.err == NoMoreDevices || (it.curMethod + 1 == Plain(c) && !HasNextPart(c, it)) {
      Leaves(c, it, a);
    } else {
      GoesOn(c, it, a);
    }
  }

  lemma {:induction false} EveryTurnIsOk(c: Config, named: Option<Target>, part: nat, oracle: nat -> Answer,
                                         trace: seq<Round>, i: nat)
    requires IsScan(c, named, part, oracle, trace) && i < |trace|
    ensures TurnOk(c, trace[i])
  {
    if i == 0 {
      BeginIsGood(c, named, part, oracle(0));
    } else {
      EveryTurnIsOk(c, named, part, oracle, trace, i - 1);
      assert Link(c, trace, oracle, 1, i - 1);
      TurnsStayOk(c, trace[i - 1].it, oracle(i));
    }
  }

  /** The turn after one at a bootdev. */
  predicate Follows(c: Config, it: Iter, r: Round)
    requires ConfigOk(c) && AtBootdev(it)
  {
    if it.err == NoMoreDevices then r.Stopped?
    else if it.curMethod + 1 < Plain(c) then Tries(r, it.dev.value, it.part, it.curMethod + 1)
    else if HasNextPart(c, it) then Tries(r, it.dev.value, it.part + 1, 0)
    else StartsAnew(r) && (c.singlePartition ==> r.Stopped?)
  }

  /**
   A scan comes to a bootdev with the first bootmeth on partition 0. At a bootdev
   each turn tries the next bootmeth, or after the last one the first bootmeth on
   the next partition. It leaves after the last bootmeth on the last partition
   known by then, or if the last error says that there are no more partitions; it
   ends at once if the last error says that there are no more bootdevs.
   */
  lemma BootdevTurnByTurn(c: Config, named: Option<Target>, part: nat, oracle: nat -> Answer, trace: seq<Round>, i: nat)
    requires IsScan(c, named, part, oracle, trace) && i + 1 < |trace|
    ensures trace[i].Next?
    ensures if AtBootdev(trace[i].it) then Follows(c, trace[i].it, trace[i + 1])
            else trace[i + 1].Next? && AtBootdev(trace[i + 1].it) ==> StartsAnew(trace[i + 1])
  {
    assert Link(c, trace, oracle, 1, i);
    EveryTurnIsOk(c, named, part, oracle, trace, i);
    var it, a := trace[i].it, oracle(1 + i);
    if !AtBootdev(it) {
      Arrives(c, it, a);
    } else if it.err == NoMoreDevices || (it.curMethod + 1 == Plain(c) && !HasNextPart(c, it)) {
      Leaves(c, it, a);
    } else {
      GoesOn(c, it, a);
    }
  }

  predicate IsAt(r: Round, d: nat) {
    r.Next? && r.it.dev == Some(d)
  }

  /** No bootmeth said to go on, and at least `last` partitions are known. */
  predicate Uncut(it: Iter, last: nat) {
    it.err != NoMoreParts && it.err != NoMoreDevices && it.maxPart >= last
  }

  lemma LastOfPart(n: nat, p: nat)
    requires p > 0
    ensures (p - 1) * n + n == p * n
  {
  }

  /** The turn after the one that tried bootmeth m on partition p. */
  lemma NextTry(c: Config, named: Option<Target>, part: nat, oracle: nat -> Answer, trace: seq<Round>, i: nat,
                d: nat, last: nat, p: nat, m: nat)
    requires IsScan(c, named, part, oracle, trace) && trace[|trace| - 1].Stopped? && !c.singlePartition
    requires i < |trace| && Tries(trace[i], d, p, m) && Uncut(trace[i].it, last) && m < Plain(c)
    ensures i + 1 < |trace|
    ensures m + 1 < Plain(c) ==> Tries(trace[i + 1], d, p, m + 1)
    ensures m + 1 == Plain(c) && p < last ==> Tries(trace[i + 1], d, p + 1, 0)
  {
    BootdevTurnByTurn(c, named, part, oracle, trace, i);
  }

  /** Turn k of the visit tries bootmeth k mod n on partition k / n, where n bootmeths are tried on each. */
  lemma {:induction false} TriedInOrder(c: Config, named: Option<Target>, part: nat, oracle: nat -> Answer,
                                        trace: seq<Round>, i: nat, d: nat, last: nat, p: nat, m: nat, k: nat)
    requires IsScan(c, named, part, oracle, trace) && trace[|trace| - 1].Stopped? && !c.singlePartition
    requires i < |trace| && Tries(trace[i], d, 0, 0) && p <= last && m < Plain(c) && k == p * Plain(c) + m
    requires forall j :: i <= j < |trace| && IsAt(trace[j], d) ==> Uncut(trace[j].it, last)
    ensures i + k < |trace| && Tries(trace[i + k], d, p, m)
    decreases k
  {
    if m > 0 {
      TriedInOrder(c, named, part, oracle, trace, i, d, last, p, m - 1, k - 1);
      NextTry(c, named, part, oracle, trace, i + (k - 1), d, last, p, m - 1);
    } else if p > 0 {
      LastOfPart(Plain(c), p);
      TriedInOrder(c, named, part, oracle, trace, i, d, last, p - 1, Plain(c) - 1, k - 1);
      NextTry(c, named, part, oracle, trace, i + (k - 1), d, last, p - 1, Plain(c) - 1);
    }
  }

  /** A visit to bootdev d that is not cut short, from its first turn on, when it has partitions up to `last`. */
  lemma VisitTriesAll(c: Config, named: Option<Target>, part: nat, oracle: nat -> Answer, trace: seq<Round>, i: nat,
                      d: nat, last: nat)
    requires IsScan(c, named, part, oracle, trace) && trace[|trace| - 1].Stopped? && !c.singlePartition
    requires i < |trace| && Tries(trace[i], d, 0, 0)
    requires forall j :: i <= j < |trace| && IsAt(trace[j], d) ==> Uncut(trace[j].it, last)
    ensures forall p: nat, m: nat :: p <= last && m < Plain(c) ==> IsTried(trace, d, p, m)
  {
    forall p: nat, m: nat | p <= last && m < Plain(c) ensures IsTried(trace, d, p, m) {
      TriedInOrder(c, named, part, oracle, trace, i, d, last, p, m, p * Plain(c) + m);
    }
  }

  ghost predicate IsTried(trace: seq<Round>, d: nat, p: nat, m: nat) {
    exists i :: 0 <= i < |trace| && Tries(trace[i], d, p, m)
  }

  /** A scan that starts at a bootdev starts with the first bootmeth, on partition 0 or the one named. */
  lemma StartsAtFirst(c: Config, named: Option<Target>, part: nat, a: Answer)
    requires ConfigOk(c) && Begin(c, named, part, a).Some? && AtBootdev(Begin(c, named, part, a).value)
    ensures var it := Begin(c, named, part, a).value;
            it.curMethod == 0 && it.part == if c.singlePartition then part else 0
  {
  }

  /** What is visited was come to at some turn. */
  lemma {:induction false} VisitedIsCameTo(trace: seq<Round>, d: nat)
    requires d in Visited(trace)
    ensures exists i :: 0 < i < |trace| && CameTo(trace, i, d)
    decreases |trace|
  {
    var here := if trace[0].Next? && trace[1].Next? then Moves(trace[0].it, trace[1].it) else [];
    if d in here {
      assert CameTo(trace, 1, d);
    } else {
      var rest := trace[1..];
      VisitedIsCameTo(rest, d);
      var i :| 0 < i < |rest| && CameTo(rest, i, d);
      assert CameTo(trace, i + 1, d);
    }
  }

  predicate CameTo(trace: seq<Round>, i: nat, d: nat)
    requires 0 < i < |trace|
  {
    trace[i - 1].Next? && IsAt(trace[i], d) && trace[i - 1].it.dev != Some(d)
  }

  lemma CameToFirst(c: Config, named: Option<Target>, part: nat, oracle: nat -> Answer, trace: seq<Round>, i: nat,
                    d: nat)
    requires IsScan(c, named, part, oracle, trace) && !c.singlePartition && 0 < i < |trace| && CameTo(trace, i, d)
    ensures Tries(trace[i], d, 0, 0)
  {
    BootdevTurnByTurn(c, named, part, oracle, trace, i - 1);
    EveryTurnIsOk(c, named, part, oracle, trace, i);
  }

  /** Every turn at a bootdev d is uncut, with partitions up to parts(d). */
  ghost predicate NeverCut(trace: seq<Round>, parts: nat -> nat) {
    forall j, d: nat :: 0 <= j < |trace| && IsAt(trace[j], d) ==> Uncut(trace[j].it, parts(d))
  }

  /**
   A whole scan by priority in which no bootmeth says to go on tries every bootmeth
   that is not global on every partition of every bootdev.
   */
  lemma EverythingIsTried(c: Config, named: Option<Target>, part: nat, oracle: nat -> Answer, trace: seq<Round>,
                          parts: nat -> nat)
    requires IsScan(c, named, part, oracle, trace) && trace[|trace| - 1].Stopped? && !CutShort(c, trace)
    requires c.mode.ByPriority? && NeverCut(trace, parts)
    ensures forall d, p: nat, m: nat :: d in Enumeration(c.devs, 0, 0) && p <= parts(d) && m < Plain(c) ==>
              IsTried(trace, d, p, m)
  {
    ScanVisitsEnumeration(c, named, part, oracle, trace);
    forall d, p: nat, m: nat | d in Enumeration(c.devs, 0, 0) && p <= parts(d) && m < Plain(c)
      ensures IsTried(trace, d, p, m)
    {
      var i := WhenCameTo(c, named, part, oracle, trace, d);
      VisitTriesAll(c, named, part, oracle, trace, i, d, parts(d));
    }
  }

  lemma WhenCameTo(c: Config, named: Option<Target>, part: nat, oracle: nat -> Answer, trace: seq<Round>, d: nat)
    returns (i: nat)
    requires IsScan(c, named, part, oracle, trace) && !c.singlePartition
    requires d in StartsOn(trace[0].it) + Visited(trace)
    ensures i < |trace| && Tries(trace[i], d, 0, 0)
  {
    if d in StartsOn(trace[0].it) {
      i := 0;
      EveryTurnIsOk(c, named, part, oracle, trace, 0);
      StartsAtFirst(c, named, part, oracle(0));
    } else {
      VisitedIsCameTo(trace, d);
      i :| 0 < i < |trace| && CameTo(trace, i, d);
      CameToFirst(c, named, part, oracle, trace, i, d);
    }
  }
}
