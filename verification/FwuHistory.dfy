/** Which event verified an image that is AUTHENTICATED, over every run. */
module FwuHistory {
  import opened FwuSpec
  import opened FwuRuns
  import opened FwuContent

  predicate InState(s: Fwu, id: U32, state: ImageState) {
    id in s.descs && s.descs[id].state == state
  }

  // ------------------------------------------------------------- verification

  predicate Verifies(e: Event, id: U32) {
    e.Auth? && e.id == id && e.verifyOk && e.postLoadOk
  }

  /** AUTHENTICATED is reached only by a successful verification, and then kept with what was verified. */
  predicate Vouched(p: Platform, s: Fwu, e: Event, s': Fwu, id: U32) {
    InState(s', id, Authenticated) ==>
      && id in s.descs && id in p.attrs
      && (if InState(s, id, Authenticated) then
            && s'.descs[id] == s.descs[id] && (id in s'.byCopy <==> id in s.byCopy)
            && (id in s.verified ==> id in s'.verified && s'.verified[id] == s.verified[id])
          else
            && Verifies(e, id) && (id in s'.byCopy <==> InState(s, id, Copied))
            && id in s'.verified
            && (if InState(s, id, Copied) then
                  && s'.descs[id].imageSize == s.descs[id].imageSize
                  && s'.verified[id] == Region(s.mem, p.attrs[id].base, s.descs[id].imageSize)
                else WhereItLay(s, e, s', id)))
  }

  /** Authenticated in place: the size and the bytes are those that the call named. */
  predicate WhereItLay(s: Fwu, e: Event, s': Fwu, id: U32)
    requires e.Auth?
  {
    && 0 < e.size && e.src + e.size <= |s.mem| && s'.mem == s.mem
    && id in s'.descs && s'.descs[id].imageSize == e.size
    && id in s'.verified && s'.verified[id] == Region(s.mem, e.src, e.size)
  }

  lemma CopyVouched(p: Platform, s: Fwu, e: Event, s': Fwu, id: U32)
    requires Inv(p, s) && ContentInv(p, s) && e.Copy? && StepsTo(p, s, e, s')
    ensures Vouched(p, s, e, s', id)
  {
    CopyShape(p, s, e);
  }

  lemma AuthVouched(p: Platform, s: Fwu, e: Event, s': Fwu, id: U32)
    requires Inv(p, s) && ContentInv(p, s) && e.Auth? && StepsTo(p, s, e, s')
    ensures Vouched(p, s, e, s', id)
  {
  }

  lemma OtherVouched(p: Platform, s: Fwu, e: Event, s': Fwu, id: U32)
    requires Inv(p, s) && !e.Copy? && !e.Auth? && StepsTo(p, s, e, s')
    ensures Vouched(p, s, e, s', id)
  {
  }

  predicate VouchedAt(p: Platform, states: seq<Fwu>, es: seq<Event>, id: U32, i: nat)
    requires i < |es| && |states| == |es| + 1
  {
    Vouched(p, states[i], es[i], states[i + 1], id)
  }

  /** Every step of these states is vouched for, and they start with nothing verified. */
  ghost predicate AllVouched(p: Platform, states: seq<Fwu>, es: seq<Event>) {
    && |states| == |es| + 1
    && (forall id :: !InState(states[0], id, Authenticated))
    && forall i, id :: 0 <= i < |es| ==> VouchedAt(p, states, es, id, i)
  }

  lemma RunPrefix(p: Platform, states: seq<Fwu>, es: seq<Event>, n: nat)
    requires IsRun(p, states, es) && n <= |es|
    ensures IsRun(p, states[..n + 1], es[..n])
    ensures CleanInPlace(states, es) ==> CleanInPlace(states[..n + 1], es[..n])
  {
  }

  lemma InvInRun(p: Platform, states: seq<Fwu>, es: seq<Event>, k: nat)
    requires PlatformOk(p) && IsRun(p, states, es) && k <= |es|
    ensures Inv(p, states[k]) && ContentInv(p, states[k])
    ensures CleanInPlace(states, es) ==> NothingStale(p, states[k])
  {
    RunPrefix(p, states, es, k);
    RunKeeps(p, states[..k + 1], es[..k]);
    RunContent(p, states[..k + 1], es[..k]);
    if CleanInPlace(states, es) { RunStale(p, states[..k + 1], es[..k]); }
  }

  lemma RunIsVouched(p: Platform, states: seq<Fwu>, es: seq<Event>)
    requires PlatformOk(p) && IsRun(p, states, es)
    ensures AllVouched(p, states, es)
  {
    forall i, id | 0 <= i < |es| ensures VouchedAt(p, states, es, id, i) {
      InvInRun(p, states, es, i);
      StepIsVouched(p, states[i], es[i], states[i + 1], id);
    }
  }

  lemma StepIsVouched(p: Platform, s: Fwu, e: Event, s': Fwu, id: U32)
    requires Inv(p, s) && ContentInv(p, s) && StepsTo(p, s, e, s')
    ensures Vouched(p, s, e, s', id)
  {
    if e.Copy? {
      CopyVouched(p, s, e, s', id);
    } else if e.Auth? {
      AuthVouched(p, s, e, s', id);
    } else {
      OtherVouched(p, s, e, s', id);
    }
  }

  /** Event i had the image verified, and it has stayed AUTHENTICATED since, up to state n. */
  predicate VerifiedAt(states: seq<Fwu>, es: seq<Event>, id: U32, i: nat, n: nat)
    requires n <= |es| && |states| == |es| + 1
  {
    i < n && Verifies(es[i], id) && forall k :: i < k <= n ==> InState(states[k], id, Authenticated)
  }

  /** An AUTHENTICATED image was verified by some event, and has not left that state since. */
  lemma {:induction false} AuthenticatedWasVerified(p: Platform, states: seq<Fwu>, es: seq<Event>, id: U32,
                                                    n: nat) returns (i: nat)
    requires AllVouched(p, states, es) && n <= |es| && InState(states[n], id, Authenticated)
    ensures VerifiedAt(states, es, id, i, n) && !InState(states[i], id, Authenticated)
  {
    if n > 0 {
      assert VouchedAt(p, states, es, id, n - 1);
      if InState(states[n - 1], id, Authenticated) {
        i := AuthenticatedWasVerified(p, states, es, id, n - 1);
      } else {
        i := n - 1;
      }
    }
  }

  /** The record of what was verified, and the size, stay as they were. */
  lemma {:induction false} RecordStays(p: Platform, states: seq<Fwu>, es: seq<Event>, id: U32, i: nat, n: nat)
    requires AllVouched(p, states, es) && i < n <= |es| && VerifiedAt(states, es, id, i, n)
    requires !InState(states[i], id, Authenticated)
    ensures id in p.attrs && id in states[n].descs && (id in states[n].byCopy <==> InState(states[i], id, Copied))
    ensures id in states[n].verified && id in states[i + 1].verified && id in states[i + 1].descs
    ensures states[n].descs[id] == states[i + 1].descs[id] && states[n].verified[id] == states[i + 1].verified[id]
    ensures if InState(states[i], id, Copied) then
              && states[n].descs[id].imageSize == states[i].descs[id].imageSize
              && states[n].verified[id] == Region(states[i].mem, p.attrs[id].base, states[i].descs[id].imageSize)
            else WhereItLay(states[i], es[i], states[i + 1], id)
  {
    assert VouchedAt(p, states, es, id, n - 1);
    assert InState(states[n], id, Authenticated);
    if i < n - 1 { RecordStays(p, states, es, id, i, n - 1); }
  }
}
