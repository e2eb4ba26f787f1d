/** Bootdev enumeration: the next bootdev that probes, in order of priority. */
module Bootdev {

  const BOOTDEVP_COUNT: nat := 8

  /** A bootdev; probes says whether probing it succeeds. */
  datatype Dev = Dev(prio: nat, probes: bool, group: nat)

  /** A found bootdev with the priority it was found at, or the end of the list. */
  datatype Next = Found(prio: nat, dev: nat) | Exhausted

  predicate Ready(devs: seq<Dev>, prio: nat, i: nat) {
    i < |devs| && devs[i].prio == prio && devs[i].probes
  }

  /** The scan from index start of the list at the given priority. */
  function NextPrio(devs: seq<Dev>, prio: nat, start: nat): (r: Next)
    requires prio < BOOTDEVP_COUNT
    ensures r.Found? ==> r.prio < BOOTDEVP_COUNT && Ready(devs, r.prio, r.dev)
    ensures r.Found? ==> prio < r.prio || (prio == r.prio && start <= r.dev)
    decreases BOOTDEVP_COUNT - prio, |devs| - start
  {
    if start >= |devs| then
      if prio + 1 == BOOTDEVP_COUNT then Exhausted else NextPrio(devs, prio + 1, 0)
    else if Ready(devs, prio, start) then Found(prio, start)
    else NextPrio(devs, prio, start + 1)
  }

  // ----------------------------------------------------------- enumeration

  /** All bootdevs that successive calls return, from a cursor on. */
  function Enumeration(devs: seq<Dev>, prio: nat, start: nat): seq<nat>
    requires prio < BOOTDEVP_COUNT
    decreases BOOTDEVP_COUNT - prio, |devs| - start
  {
    if start >= |devs| then
      if prio + 1 == BOOTDEVP_COUNT then [] else Enumeration(devs, prio + 1, 0)
    else if Ready(devs, prio, start) then [start] + Enumeration(devs, prio, start + 1)
    else Enumeration(devs, prio, start + 1)
  }

  /** The cursor after n calls from the initial iterator: priority and the index the next scan starts at. */
  datatype Cursor = At(prio: nat, start: nat) | End

  function AfterCalls(devs: seq<Dev>, n: nat): (c: Cursor)
    ensures c.At? ==> c.prio < BOOTDEVP_COUNT
  {
    if n == 0 then At(0, 0)
    else
      match AfterCalls(devs, n - 1)
      case End => End
      case At(prio, start) =>
        match NextPrio(devs, prio, start)
        case Found(p, i) => At(p, i + 1)
        case Exhausted => End
  }

  lemma {:induction false} CallTakesHead(devs: seq<Dev>, prio: nat, start: nat)
    requires prio < BOOTDEVP_COUNT
    ensures match NextPrio(devs, prio, start)
            case Found(p, i) => Enumeration(devs, prio, start) == [i] + Enumeration(devs, p, i + 1)
            case Exhausted => Enumeration(devs, prio, start) == []
    decreases BOOTDEVP_COUNT - prio, |devs| - start
  {
    if start >= |devs| {
      if prio + 1 < BOOTDEVP_COUNT { CallTakesHead(devs, prio + 1, 0); }
    } else if !Ready(devs, prio, start) {
      CallTakesHead(devs, prio, start + 1);
    }
  }

  /** The n-th call returns the n-th bootdev of the enumeration, and the call after the last one finds no more. */
  lemma {:induction false} CallsFollowEnumeration(devs: seq<Dev>, n: nat)
    ensures var all := Enumeration(devs, 0, 0); var c := AfterCalls(devs, n);
            && (n <= |all| ==> c.At? && Enumeration(devs, c.prio, c.start) == all[n..])
            && (n < |all| ==> c.At? && NextPrio(devs, c.prio, c.start).Found?
                              && NextPrio(devs, c.prio, c.start).dev == all[n])
            && (n == |all| ==> c.At? && NextPrio(devs, c.prio, c.start).Exhausted?)
  {
    var all := Enumeration(devs, 0, 0);
    if n > 0 {
      CallsFollowEnumeration(devs, n - 1);
      var c := AfterCalls(devs, n - 1);
      if n <= |all| {
        CallTakesHead(devs, c.prio, c.start);
        assert all[n - 1..][1..] == all[n..];
      }
    }
    var c := AfterCalls(devs, n);
    if n <= |all| {
      CallTakesHead(devs, c.prio, c.start);
    }
  }

  /** i comes before j: lower priority value, or the same and earlier in the list. */
  predicate Before(devs: seq<Dev>, i: nat, j: nat) {
    i < |devs| && j < |devs| && (devs[i].prio < devs[j].prio || (devs[i].prio == devs[j].prio && i < j))
  }

  /** What the cursor (prio, start) still has to deliver. */
  predicate Ahead(devs: seq<Dev>, prio: nat, start: nat, i: nat) {
    && i < |devs| && devs[i].probes && devs[i].prio < BOOTDEVP_COUNT
    && (prio < devs[i].prio || (prio == devs[i].prio && start <= i))
  }

  /** all lists exactly the bootdevs still ahead, each once, in stable order of priority. */
  ghost predicate StableOrder(devs: seq<Dev>, prio: nat, start: nat, all: seq<nat>) {
    && (forall k :: 0 <= k < |all| ==> Ahead(devs, prio, start, all[k]))
    && (forall i: nat :: Ahead(devs, prio, start, i) ==> i in all)
    && (forall a, b :: 0 <= a < b < |all| ==> Before(devs, all[a], all[b]))
  }

  /** Exactly the bootdevs that probe, each once, in stable order of priority. */
  lemma {:induction false} EnumerationIsStableOrder(devs: seq<Dev>, prio: nat, start: nat)
    requires prio < BOOTDEVP_COUNT
    ensures StableOrder(devs, prio, start, Enumeration(devs, prio, start))
    decreases BOOTDEVP_COUNT - prio, |devs| - start
  {
    if start >= |devs| {
      if prio + 1 < BOOTDEVP_COUNT {
        EnumerationIsStableOrder(devs, prio + 1, 0);
        SkipPriority(devs, prio, start, Enumeration(devs, prio + 1, 0));
      }
    } else {
      EnumerationIsStableOrder(devs, prio, start + 1);
      forall i: nat | Ahead(devs, prio, start, i) ensures i in Enumeration(devs, prio, start) {
        assert i == start || Ahead(devs, prio, start + 1, i);
      }
    }
  }

  lemma SkipPriority(devs: seq<Dev>, prio: nat, start: nat, all: seq<nat>)
    requires start >= |devs| && StableOrder(devs, prio + 1, 0, all)
    ensures StableOrder(devs, prio, start, all)
  {
    forall i: nat | Ahead(devs, prio, start, i) ensures i in all {
      assert Ahead(devs, prio + 1, 0, i);
    }
  }

  /** The eight priorities are 0 to 7: a bootdev of one of them is enumerated exactly if it probes. */
  lemma WhatIsEnumerated(devs: seq<Dev>, d: nat)
    ensures d in Enumeration(devs, 0, 0) <==> d < |devs| && devs[d].probes && devs[d].prio <= 7
  {
    EnumerationIsStableOrder(devs, 0, 0);
    assert d < |devs| && devs[d].probes && devs[d].prio <= 7 ==> Ahead(devs, 0, 0, d);
  }
}
