/** The image that was interrupted, over every run: it stays so until it is resumed or reset. */
module FwuInterrupt {
  import opened FwuSpec
  import opened FwuRuns
  import opened FwuContent
  import opened FwuHistory

  /** In the normal world, with a secure image named: the image that was interrupted. */
  predicate NamesImage(s: Fwu) {
    s.world == NonSecure && s.secExec in s.descs
  }

  /** The image named is interrupted when the secure world is left, and stops being so only by its reset. */
  predicate Interrupts(s: Fwu, e: Event, s': Fwu) {
    NamesImage(s') ==>
      if s.world == Secure then InState(s', s'.secExec, Interrupted)
      else
        && s.secExec == s'.secExec && NamesImage(s)
        && (InState(s', s'.secExec, Interrupted) ==> InState(s, s.secExec, Interrupted))
        && (InState(s, s.secExec, Interrupted) && !InState(s', s'.secExec, Interrupted) ==> e == ResetImage(s.secExec))
        && (InState(s, s.secExec, Interrupted) && e == ResetImage(s.secExec) ==> !InState(s', s'.secExec, Interrupted))
  }

  lemma CopyInterrupts(p: Platform, s: Fwu, e: Event, s': Fwu)
    requires Inv(p, s) && e.Copy? && CopyEffect(p, s, s', e) && s'.world == s.world && s'.secExec == s.secExec
    requires s.world == Secure ==> s' == s
    ensures Interrupts(s, e, s')
  {
  }

  lemma CopyStaysInWorld(p: Platform, s: Fwu, e: Event, s': Fwu)
    requires e.Copy? && StepsTo(p, s, e, s')
    ensures s'.world == s.world && s'.secExec == s.secExec && (s.world == Secure ==> s' == s)
  {
  }

  lemma ResetInterrupts(p: Platform, s: Fwu, e: Event, s': Fwu)
    requires PlatformOk(p) && Inv(p, s) && e.ResetImage? && StepsTo(p, s, e, s')
    ensures Interrupts(s, e, s')
  {
    if KnownImage(p, s, e.id) { RemoveKeepsTable(s.loaded, e.id); }
  }

  lemma AuthInterrupts(p: Platform, s: Fwu, e: Event, s': Fwu)
    requires Inv(p, s) && e.Auth? && StepsTo(p, s, e, s')
    ensures Interrupts(s, e, s')
  {
  }

  lemma ControlInterrupts(p: Platform, s: Fwu, e: Event, s': Fwu)
    requires PlatformOk(p) && Inv(p, s) && !e.Copy? && !e.Auth? && !e.ResetImage? && StepsTo(p, s, e, s')
    ensures Interrupts(s, e, s')
  {
  }

  lemma StepInterrupts(p: Platform, s: Fwu, e: Event, s': Fwu)
    requires PlatformOk(p) && Inv(p, s) && StepsTo(p, s, e, s')
    ensures Interrupts(s, e, s')
  {
    if e.Copy? {
      CopyShape(p, s, e);
      CopyStaysInWorld(p, s, e, s');
      CopyInterrupts(p, s, e, s');
    } else if e.ResetImage? {
      ResetInterrupts(p, s, e, s');
    } else if e.Auth? {
      AuthInterrupts(p, s, e, s');
    } else {
      ControlInterrupts(p, s, e, s');
    }
  }

  predicate InterruptsAt(states: seq<Fwu>, es: seq<Event>, i: nat)
    requires i < |es| && |states| == |es| + 1
  {
    Interrupts(states[i], es[i], states[i + 1])
  }

  predicate AllInterrupt(states: seq<Fwu>, es: seq<Event>) {
    && |states| == |es| + 1 && !NamesImage(states[0])
    && forall i :: 0 <= i < |es| ==> InterruptsAt(states, es, i)
  }

  lemma RunInterrupts(p: Platform, states: seq<Fwu>, es: seq<Event>)
    requires PlatformOk(p) && IsRun(p, states, es)
    ensures AllInterrupt(states, es)
  {
    InvInRun(p, states, es, 0);
    forall i | 0 <= i < |es| ensures InterruptsAt(states, es, i) {
      InvInRun(p, states, es, i);
      StepInterrupts(p, states[i], es[i], states[i + 1]);
    }
  }

  /**
   Event k reset the image that was interrupted, and the normal world has kept
   running with it named, up to state n.
   */
  predicate ResetInterrupted(states: seq<Fwu>, es: seq<Event>, k: nat, n: nat)
    requires n <= |es| && |states| == |es| + 1
  {
    && k < n && InState(states[k], states[k].secExec, Interrupted) && es[k] == ResetImage(states[k].secExec)
    && forall m :: k <= m <= n ==> NamesImage(states[m]) && states[m].secExec == states[k].secExec
  }

  ghost predicate WasReset(states: seq<Fwu>, es: seq<Event>, n: nat)
    requires n <= |es| && |states| == |es| + 1
  {
    exists k: nat :: ResetInterrupted(states, es, k, n)
  }

  lemma {:induction false} NamedUntilReset(states: seq<Fwu>, es: seq<Event>, n: nat)
    requires AllInterrupt(states, es) && n <= |es| && NamesImage(states[n])
    ensures !InState(states[n], states[n].secExec, Interrupted) <==> WasReset(states, es, n)
  {
    if n > 0 {
      assert InterruptsAt(states, es, n - 1);
      if NamesImage(states[n - 1]) {
        NamedUntilReset(states, es, n - 1);
        StillReset(states, es, n);
      } else {
        NotResetYet(states, es, n);
      }
    }
  }

  lemma StillReset(states: seq<Fwu>, es: seq<Event>, n: nat)
    requires 0 < n <= |es| && |states| == |es| + 1 && NamesImage(states[n - 1]) && NamesImage(states[n])
    requires states[n].secExec == states[n - 1].secExec
    ensures WasReset(states, es, n) <==> WasReset(states, es, n - 1) || ResetInterrupted(states, es, n - 1, n)
  {
    if WasReset(states, es, n) {
      var k: nat :| ResetInterrupted(states, es, k, n);
      assert k < n - 1 ==> ResetInterrupted(states, es, k, n - 1);
    }
    if WasReset(states, es, n - 1) {
      var k: nat :| ResetInterrupted(states, es, k, n - 1);
      assert ResetInterrupted(states, es, k, n);
    }
  }

  lemma NotResetYet(states: seq<Fwu>, es: seq<Event>, n: nat)
    requires 0 < n <= |es| && |states| == |es| + 1 && (!NamesImage(states[n - 1]) || !NamesImage(states[n]))
    ensures !WasReset(states, es, n)
  {
  }

  /**
   The assertion at 587 told by events: in every run a resume fails it exactly if
   the interrupted image was reset and the normal world has not run another
   secure image since.
   */
  lemma ResumeTrapsAfterReset(p: Platform, states: seq<Fwu>, es: seq<Event>)
    requires PlatformOk(p) && IsRun(p, states, es)
    ensures Step(p, states[|es|], Resume) == AssertFailed(587) <==> WasReset(states, es, |es|)
  {
    AssertionsThatFire(p, states, es, Resume);
    RunInterrupts(p, states, es);
    if NamesImage(states[|es|]) {
      NamedUntilReset(states, es, |es|);
    } else if es != [] {
      NotResetYet(states, es, |es|);
    }
  }
}
