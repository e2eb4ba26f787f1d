/** What the bootmeths answer is what a scan goes by: the last error, and the partitions known. */
module BootflowAnswers {
  import opened Wrappers
  import opened Bootdev
  import opened BootflowScan
  import opened BootflowRuns
  import opened BootflowOrder
  import opened BootflowParts
  import opened BootflowLabels

  /** A bootdev that was held back failed to probe, and no bootmeth was tried. */
  predicate ProbeFailed(it: Iter) {
    !it.doingGlobal && it.dev.None?
  }

  /** After such a failure the scan goes on to the next bootdev. */
  ghost predicate Settled(c: Config, it: Iter) {
    Inv(c, it) && (ProbeFailed(it) ==> it.part == 0 && it.maxPart == 0 && it.curMethod >= |c.methods|)
  }

  /** What a turn answered a leaves: the partitions known, and the error unless there is none. */
  ghost predicate Keeps(c: Config, it: Iter, a: Answer, it': Iter) {
    && Settled(c, it')
    && (AtBootdev(it') ==> it'.maxPart == a.maxPart)
    && it'.err == if ProbeFailed(it') then OtherError else if a.ret == Zero then it.err else a.ret
  }

  /** What a step leaves: the error as it was, and nowhere to try a bootmeth only if it says so. */
  ghost predicate Leads(it: Iter, ret: Ret, it': Iter) {
    && (ret != NoMoreDevices ==> it'.err == it.err)
    && (ret == Zero ==> !ProbeFailed(it'))
  }

  lemma MoveLeads(c: Config, it: Iter, restart: bool)
    requires Callable(c, it) && (c.mode.ByPriority? ==> it.curPrio < BOOTDEVP_COUNT)
    ensures var (ret, it') := MoveToDevice(c, it, restart); Leads(it, ret, it') && (ret == Zero || ret == NoMoreDevices)
  {
  }

  lemma MoveOnLeads(c: Config, it: Iter, restart: bool)
    requires Callable(c, it) && (c.mode.ByPriority? ==> it.curPrio < BOOTDEVP_COUNT)
    requires it.dev.Some? || (it.part == 0 && it.maxPart == 0)
    ensures var (ret, it') := MoveOn(c, it, restart); Leads(it, ret, it') && (ret == Zero || ret == NoMoreDevices)
  {
    if !c.singlePartition && !(it.err != NoMoreParts && it.part + 1 <= it.maxPart) {
      MoveLeads(c, it.(curMethod := 0, part := 0, maxPart := 0), restart);
    }
  }

  lemma GlobalLeads(c: Config, it: Iter)
    requires ConfigOk(c) && Settled(c, it) && it.doingGlobal
    ensures var (ret, it') := Increment(c, it);
            && Leads(it, ret, it') && ret != NoMoreParts
            && (ret == OtherError ==> ProbeFailed(it') && Settled(c, it'))
  {
    var k := FirstAllowed(c, it, it.curMethod + 1);
    if k >= |c.methods| && it.pending.None? && it.curPrio < BOOTDEVP_COUNT {
      MoveOnLeads(c, it.(curMethod := k, doingGlobal := false), true);
    }
  }

  lemma PlainLeads(c: Config, it: Iter)
    requires ConfigOk(c) && Settled(c, it) && !it.doingGlobal
    ensures var (ret, it') := Increment(c, it); Leads(it, ret, it') && (ret == Zero || ret == NoMoreDevices)
  {
    if it.err != NoMoreDevices { MoveOnLeads(c, it.(curMethod := it.curMethod + 1), false); }
  }

  lemma TurnKeeps(c: Config, it: Iter, a: Answer)
    requires ConfigOk(c) && AnswerOk(a) && Settled(c, it)
    ensures OneRound(c, it, a).Next? ==> Keeps(c, it, a, OneRound(c, it, a).it)
  {
    RoundMovesDown(c, it, a);
    if it.doingGlobal { GlobalLeads(c, it); } else { PlainLeads(c, it); }
  }

  /** The last error answered by turn i, or OtherError for a bootdev that failed after it. */
  ghost function LastError(trace: seq<Round>, oracle: nat -> Answer, i: nat): Ret
    requires i < |trace|
  {
    if trace[i].Next? && ProbeFailed(trace[i].it) then OtherError
    else if oracle(i).ret != Zero then oracle(i).ret
    else if i == 0 then Zero
    else LastError(trace, oracle, i - 1)
  }

  /** At every turn of a scan: its error is the last one answered, and the partitions known are those answered. */
  lemma {:induction false} AnswersAreKept(c: Config, named: Option<Target>, part: nat, oracle: nat -> Answer,
                                          trace: seq<Round>, i: nat)
    requires IsScan(c, named, part, oracle, trace) && i < |trace| && trace[i].Next?
    ensures Settled(c, trace[i].it) && trace[i].it.err == LastError(trace, oracle, i)
    ensures AtBootdev(trace[i].it) ==> trace[i].it.maxPart == oracle(i).maxPart
  {
    if i == 0 {
      BeginIsGood(c, named, part, oracle(0));
    } else {
      assert Link(c, trace, oracle, 1, i - 1);
      AnswersAreKept(c, named, part, oracle, trace, i - 1);
      TurnKeeps(c, trace[i - 1].it, oracle(i));
    }
  }

  /** No bootmeth answers that there are no more partitions or bootdevs, and at bootdev d all know of parts(d). */
  ghost predicate Helpful(oracle: nat -> Answer, trace: seq<Round>, parts: nat -> nat) {
    && (forall i: nat :: oracle(i).ret != NoMoreParts && oracle(i).ret != NoMoreDevices)
    && (forall i: nat, d: nat :: i < |trace| && IsAt(trace[i], d) ==> oracle(i).maxPart >= parts(d))
  }

  lemma {:induction false} NoLastErrorEnds(trace: seq<Round>, oracle: nat -> Answer, i: nat)
    requires i < |trace| && forall j: nat :: oracle(j).ret != NoMoreParts && oracle(j).ret != NoMoreDevices
    ensures LastError(trace, oracle, i) != NoMoreParts && LastError(trace, oracle, i) != NoMoreDevices
  {
    if i > 0 { NoLastErrorEnds(trace, oracle, i - 1); }
  }

  lemma HelpfulIsUncut(c: Config, named: Option<Target>, part: nat, oracle: nat -> Answer, trace: seq<Round>,
                       parts: nat -> nat)
    requires IsScan(c, named, part, oracle, trace) && Helpful(oracle, trace, parts) && !c.singlePartition
    ensures NeverCut(trace, parts) && !CutShort(c, trace)
  {
    forall i: nat | i < |trace| && trace[i].Next?
      ensures trace[i].it.err != NoMoreParts && trace[i].it.err != NoMoreDevices
    {
      AnswersAreKept(c, named, part, oracle, trace, i);
      NoLastErrorEnds(trace, oracle, i);
    }
    forall i, d: nat | 0 <= i < |trace| && IsAt(trace[i], d) ensures Uncut(trace[i].it, parts(d)) {
      AnswersAreKept(c, named, part, oracle, trace, i);
    }
  }

  /** The bootdevs that a scan is to try: by priority, by labels, or those named. */
  function ToTry(c: Config, named: Option<Target>): seq<nat> {
    if c.mode.ByPriority? then Enumeration(c.devs, 0, 0) else UntilFailure(c, Meant(c, named))
  }

  /**
   A whole scan of any kind in which no bootmeth answers that there are no more
   partitions or bootdevs: every bootmeth that is not global is tried on every
   partition that is known of, of every bootdev that is to be tried.
   */
  lemma NothingIsSkipped(c: Config, named: Option<Target>, part: nat, oracle: nat -> Answer, trace: seq<Round>,
                         parts: nat -> nat)
    requires IsScan(c, named, part, oracle, trace) && trace[|trace| - 1].Stopped? && !c.singlePartition
    requires Helpful(oracle, trace, parts)
    ensures forall d, p: nat, m: nat :: d in ToTry(c, named) && p <= parts(d) && m < Plain(c) ==>
              IsTried(trace, d, p, m)
  {
    HelpfulIsUncut(c, named, part, oracle, trace, parts);
    if c.mode.ByPriority? {
      EverythingIsTried(c, named, part, oracle, trace, parts);
    } else {
      EverythingMeantIsTried(c, named, part, oracle, trace, parts);
    }
  }
}
