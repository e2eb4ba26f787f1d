/**
 A/B slot metadata: choosing a slot, counting down its tries, and keeping two
 CRC-protected copies on disk.
 */
module AndroidAb {

  const MAX_SLOTS: nat := 4
  const NUM_SLOTS: nat := 2
  const BOOT_CTRL_MAGIC: nat := 0x42414342
  const BOOT_CTRL_VERSION: nat := 1

  /** Bit-fields of a slot: 4, 3, 1, 1 and 7 bits. */
  datatype Slot = Slot(priority: nat, tries: nat, successful: bool, corrupted: bool, reserved: nat)

  /** The bootloader control record without its CRC. */
  datatype Fields = Fields(suffix: string, magic: nat, version: nat, nbSlot: nat, recoveryTries: nat,
                           reserved0: seq<nat>, slots: seq<Slot>, reserved1: seq<nat>)

  type Body = b: Fields | |b.slots| == MAX_SLOTS
    witness Fields("", 0, 0, 0, 0, [], seq(MAX_SLOTS, _ => DefaultSlot()), [])

  datatype Record = Record(body: Body, crc: nat)

  /** The CRC-32 of a record's bytes: nothing depends on which function it is. */
  type Crc = Body -> nat

  datatype Disk = Disk(primary: Record, backup: Record)

  predicate Valid(crc: Crc, r: Record) {
    r.crc == crc(r.body)
  }

  function Sealed(crc: Crc, b: Body): Record {
    Record(b, crc(b))
  }

  // ------------------------------------------------------------ slot choice

  predicate Bootable(s: Slot) {
    !s.corrupted && (s.tries != 0 || s.successful)
  }

  function BoolToInt(b: bool): int {
    if b then 1 else 0
  }

  /** Negative when a is better, positive when b is. */
  function CompareSlots(a: Slot, b: Slot): int {
    if a.priority != b.priority then b.priority - a.priority
    else if a.successful != b.successful then BoolToInt(b.successful) - BoolToInt(a.successful)
    else if a.tries != b.tries then b.tries - a.tries
    else 0
  }

  /** The best bootable slot among the first n, or -1. */
  function BestSlot(slots: seq<Slot>, n: nat): (slot: int)
    requires n <= |slots|
    ensures -1 <= slot < n
  {
    if n == 0 then -1
    else
      var best := BestSlot(slots, n - 1);
      if !Bootable(slots[n - 1]) then best
      else if best < 0 || CompareSlots(slots[n - 1], slots[best]) < 0 then n - 1
      else best
  }

  /** Better or as good by (priority, successful, tries), lexicographically. */
  predicate AtLeastAsGood(a: Slot, b: Slot) {
    || a.priority > b.priority
    || (a.priority == b.priority && a.successful && !b.successful)
    || (a.priority == b.priority && a.successful == b.successful && a.tries >= b.tries)
  }

  /** No slot is chosen exactly when none boots; the choice boots, none is better, no earlier one is as good. */
  lemma {:induction false} BestSlotIsBest(slots: seq<Slot>, n: nat)
    requires n <= |slots|
    ensures var k := BestSlot(slots, n);
            && (k < 0 <==> forall i :: 0 <= i < n ==> !Bootable(slots[i]))
            && (k >= 0 ==>
                 && Bootable(slots[k])
                 && (forall i :: 0 <= i < n && Bootable(slots[i]) ==> AtLeastAsGood(slots[k], slots[i]))
                 && (forall i :: 0 <= i < k && Bootable(slots[i]) ==> !AtLeastAsGood(slots[i], slots[k])))
  {
    if n > 0 { BestSlotIsBest(slots, n - 1); }
  }

  // --------------------------------------------------------- one selection

  function DefaultSlot(): Slot {
    Slot(15, 7, false, false, 0)
  }

  /** The re-initialised record; slots beyond NUM_SLOTS and the recovery tries keep what was read. */
  function DefaultBody(b: Body): Body {
    b.(suffix := "_a\0\0", magic := BOOT_CTRL_MAGIC, version := BOOT_CTRL_VERSION, nbSlot := NUM_SLOTS,
       reserved0 := [0, 0], slots := [DefaultSlot(), DefaultSlot()] + b.slots[2..], reserved1 := seq(8, _ => 0))
  }

  datatype Source = FromPrimary | FromBackup | Reinitialised

  function SourceOf(crc: Crc, hasBackup: bool, d: Disk): Source {
    if Valid(crc, d.primary) then FromPrimary
    else if hasBackup && Valid(crc, d.backup) then FromBackup
    else Reinitialised
  }

  /** The record body that a selection works on. */
  function Used(crc: Crc, hasBackup: bool, d: Disk): Body {
    match SourceOf(crc, hasBackup, d)
    case FromPrimary => d.primary.body
    case FromBackup => d.backup.body
    case Reinitialised => DefaultBody(d.primary.body)
  }

  predicate Understood(b: Body) {
    b.magic == BOOT_CTRL_MAGIC && b.version <= BOOT_CTRL_VERSION
  }

  function SlotSuffix(slot: nat): string
    requires slot < MAX_SLOTS
  {
    ['_', "abcd"[slot], '\0', '\0']
  }

  function Slots(b: Body): (n: nat)
    ensures n <= MAX_SLOTS
  {
    if b.nbSlot > MAX_SLOTS then MAX_SLOTS else b.nbSlot
  }

  function Choice(b: Body): (slot: int)
    ensures -1 <= slot < MAX_SLOTS
  {
    BestSlot(b.slots, Slots(b))
  }

  /** Picks a slot that has not yet booted successfully. */
  predicate PicksUnproven(b: Body) {
    Choice(b) >= 0 && !b.slots[Choice(b)].successful
  }

  function TryTaken(s: Slot): Slot {
    if s.tries > 0 then s.(tries := s.tries - 1) else s
  }

  /** The body after a selection: a try taken off an unproven choice, and the choice's suffix. */
  function Chosen(b: Body, decTries: bool): Body {
    var k := Choice(b);
    var b := b.(nbSlot := Slots(b));
    if k < 0 then b
    else b.(suffix := SlotSuffix(k),
            slots := if decTries && !b.slots[k].successful then b.slots[k := TryTaken(b.slots[k])] else b.slots)
  }

  predicate StoreNeeded(crc: Crc, hasBackup: bool, d: Disk, decTries: bool) {
    var b := Used(crc, hasBackup, d);
    SourceOf(crc, hasBackup, d) != FromPrimary || Chosen(b, decTries) != b
  }

  datatype Result = Selected(slot: nat) | NoSlot | NoData | WriteFailed

  function ResultOf(b: Body): Result {
    if !Understood(b) then NoData else if Choice(b) < 0 then NoSlot else Selected(Choice(b))
  }

  predicate SomeBootable(b: Body) {
    exists i :: 0 <= i < Slots(b) && Bootable(b.slots[i])
  }

  /** Every slot that boots has priority 0, which the record's format calls unbootable. */
  predicate AllMarkedUnbootable(b: Body) {
    forall i :: 0 <= i < Slots(b) && Bootable(b.slots[i]) ==> b.slots[i].priority == 0
  }

  /**
   A slot of priority 0 is selected exactly if the record is understood, some
   slot boots, and every one that does is marked so.
   */
  lemma WhenUnbootablePriorityIsSelected(b: Body)
    ensures ResultOf(b).Selected? && b.slots[ResultOf(b).slot].priority == 0
            <==> Understood(b) && SomeBootable(b) && AllMarkedUnbootable(b)
  {
    BestSlotIsBest(b.slots, Slots(b));
  }

  /** A record with one slot, of priority 0: it is selected. */
  lemma UnbootablePriorityIsSelected()
    ensures var b := Fields("_a", BOOT_CTRL_MAGIC, BOOT_CTRL_VERSION, 1, 0, [],
                            [Slot(0, 7, false, false, 0), DefaultSlot(), DefaultSlot(), DefaultSlot()], []);
            ResultOf(b) == Selected(0) && b.slots[0].priority == 0
  {
    var b: Body := Fields("_a", BOOT_CTRL_MAGIC, BOOT_CTRL_VERSION, 1, 0, [],
                          [Slot(0, 7, false, false, 0), DefaultSlot(), DefaultSlot(), DefaultSlot()], []);
    assert Slots(b) == 1 && Bootable(b.slots[0]);
    assert SomeBootable(b) && AllMarkedUnbootable(b);
    WhenUnbootablePriorityIsSelected(b);
  }

  /** The disk after a selection in which no write fails. */
  function Select(crc: Crc, hasBackup: bool, d: Disk, decTries: bool): Disk {
    var b := Used(crc, hasBackup, d);
    if !Understood(b) then d
    else
      var r := Sealed(crc, Chosen(b, decTries));
      Disk(r, if hasBackup then r else d.backup)
  }

  // ----------------------------------------------------------- power failure

  /** What an interrupted write leaves: the old copy, the new one, or one whose CRC does not match. */
  datatype Tear = Untouched | Complete | Garbage(left: Record)

  predicate TearOk(crc: Crc, t: Tear) {
    t.Garbage? ==> !Valid(crc, t.left)
  }

  function Torn(before: Record, after: Record, t: Tear): Record {
    match t
    case Untouched => before
    case Complete => after
    case Garbage(left) => left
  }

  /** d' may be on disk when power fails during a selection on d, before, in or between its writes. */
  ghost predicate MayLeave(crc: Crc, hasBackup: bool, d: Disk, decTries: bool, d': Disk) {
    var b := Used(crc, hasBackup, d);
    var r := Sealed(crc, Chosen(b, decTries));
    || d' == d
    || (&& Understood(b) && StoreNeeded(crc, hasBackup, d, decTries)
        && exists t :: TearOk(crc, t) && d' == Disk(Torn(d.primary, r, t), d.backup))
    || (&& Understood(b) && hasBackup && d.backup != r
        && exists t :: TearOk(crc, t) && d' == Disk(r, Torn(d.backup, r, t)))
  }

  /**
   With both copies good, a power failure in any one write never loses the
   metadata: the next selection uses the old or the new record and ends with two
   identical valid copies.
   */
  lemma PowerFailureIsSurvived(crc: Crc, d: Disk, decTries: bool, d': Disk, decTries': bool)
    requires Valid(crc, d.primary) && Valid(crc, d.backup)
    requires Understood(d.primary.body) && Understood(d.backup.body)
    requires MayLeave(crc, true, d, decTries, d')
    ensures SourceOf(crc, true, d') != Reinitialised
    ensures Used(crc, true, d') in {d.primary.body, d.backup.body, Chosen(d.primary.body, decTries)}
    ensures ResultOf(Used(crc, true, d')) != NoData
    ensures var end := Select(crc, true, d', decTries'); end.primary == end.backup && Valid(crc, end.primary)
  {
  }

  /**
   Exactly when a power failure can lose both copies: no backup copy is good,
   and the primary is bad already or about to be rewritten.
   */
  lemma WhenPowerFailureCanLoseBoth(crc: Crc, d: Disk, decTries: bool)
    ensures (exists d' :: MayLeave(crc, true, d, decTries, d') && SourceOf(crc, true, d') == Reinitialised)
            <==> !Valid(crc, d.backup)
                 && (Valid(crc, d.primary) ==> Understood(d.primary.body) && StoreNeeded(crc, true, d, decTries))
  {
    var b := Used(crc, true, d);
    if !Valid(crc, d.backup) {
      if !Valid(crc, d.primary) {
        assert MayLeave(crc, true, d, decTries, d);
      } else if Understood(b) && StoreNeeded(crc, true, d, decTries) {
        var t := Garbage(Record(b, crc(b) + 1));
        assert TearOk(crc, t);
        var d' := Disk(t.left, d.backup);
        assert d' == Disk(Torn(d.primary, Sealed(crc, Chosen(b, decTries)), t), d.backup);
        assert MayLeave(crc, true, d, decTries, d');
      }
    }
  }

  /** A torn backup and then a torn primary do reach re-initialisation. */
  lemma TwoFailuresCanLoseBoth(crc: Crc, d: Disk) returns (d1: Disk, d2: Disk)
    requires Valid(crc, d.primary) && d.backup == d.primary
    requires Understood(d.primary.body) && PicksUnproven(d.primary.body)
    requires PicksUnproven(Chosen(d.primary.body, true))
    ensures MayLeave(crc, true, d, true, d1) && MayLeave(crc, true, d1, true, d2)
    ensures SourceOf(crc, true, d2) == Reinitialised
  {
    var b := d.primary.body;
    UnprovenPickChanges(b);
    var r := Sealed(crc, Chosen(b, true));
    var t := Garbage(Record(b, crc(b) + 1));
    assert TearOk(crc, t);
    d1 := Disk(r, t.left);
    assert d1 == Disk(r, Torn(d.backup, r, t));
    UnprovenPickChanges(r.body);
    WhenPowerFailureCanLoseBoth(crc, d1, true);
    d2 :| MayLeave(crc, true, d1, true, d2) && SourceOf(crc, true, d2) == Reinitialised;
  }

  lemma UnprovenPickChanges(b: Body)
    requires PicksUnproven(b)
    ensures b.slots[Choice(b)].tries > 0
    ensures Chosen(b, true).slots != b.slots
  {
    BestSlotIsBest(b.slots, Slots(b));
    var k := Choice(b);
    assert Chosen(b, true).slots[k].tries == b.slots[k].tries - 1;
  }

  /** Both copies good and readable. */
  predicate Sound(crc: Crc, d: Disk) {
    && Valid(crc, d.primary) && Valid(crc, d.backup)
    && Understood(d.primary.body) && Understood(d.backup.body)
  }

  /** A history of boots: each takes disks[i] to disks[i + 1], complete or cut short, never cut short twice running. */
  ghost predicate History(crc: Crc, disks: seq<Disk>, cut: seq<bool>, decTries: seq<bool>) {
    && |disks| == |cut| + 1 && |decTries| == |cut|
    && (forall i :: 0 <= i < |cut| ==>
          if cut[i] then MayLeave(crc, true, disks[i], decTries[i], disks[i + 1])
          else disks[i + 1] == Select(crc, true, disks[i], decTries[i]))
    && (forall i :: 0 < i < |cut| && cut[i] ==> !cut[i - 1])
  }

  /** From a sound disk no boot of such a history ever finds the metadata gone. */
  lemma {:induction false} HistoryNeverReinitialises(crc: Crc, disks: seq<Disk>, cut: seq<bool>, decTries: seq<bool>)
    requires History(crc, disks, cut, decTries) && Sound(crc, disks[0])
    ensures forall i :: 0 <= i < |disks| ==> SourceOf(crc, true, disks[i]) != Reinitialised
    ensures forall i :: 0 <= i < |cut| && !cut[i] ==>
              Sound(crc, disks[i + 1]) && disks[i + 1].primary == disks[i + 1].backup
    ensures forall i :: 0 <= i < |disks| ==> Understood(Used(crc, true, disks[i]))
    decreases |cut|
  {
    if cut != [] {
      var n := |cut| - 1;
      assert History(crc, disks[..n + 1], cut[..n], decTries[..n]);
      HistoryNeverReinitialises(crc, disks[..n + 1], cut[..n], decTries[..n]);
      assert disks == disks[..n + 1] + [disks[n + 1]];
      var d := disks[..n + 1][n];
      assert SourceOf(crc, true, d) != Reinitialised && Understood(Used(crc, true, d));
      if cut[n] {
        assert Sound(crc, d) by {
          if n > 0 { assert !cut[..n][n - 1]; }
        }
        PowerFailureIsSurvived(crc, d, decTries[n], disks[n + 1], true);
      }
      forall i | 0 <= i < |cut| && !cut[i]
        ensures Sound(crc, disks[i + 1]) && disks[i + 1].primary == disks[i + 1].backup
      {
        if i < n { assert !cut[..n][i] && disks[..n + 1][i + 1] == disks[i + 1]; }
      }
      forall i | 0 <= i < |disks|
        ensures SourceOf(crc, true, disks[i]) != Reinitialised && Understood(Used(crc, true, disks[i]))
      {
        if i <= n { assert disks[..n + 1][i] == disks[i]; }
      }
    }
  }

  // ------------------------------------------------------------ repeated boots

  /** The body that the n-th of a series of decrementing selections works on. */
  function NthBody(b: Body, n: nat): Body {
    if n == 0 then b else Chosen(NthBody(b, n - 1), true)
  }

  function NthDisk(crc: Crc, hasBackup: bool, d: Disk, n: nat): Disk {
    if n == 0 then d else Select(crc, hasBackup, NthDisk(crc, hasBackup, d, n - 1), true)
  }

  lemma {:induction false} DiskCarriesBody(crc: Crc, hasBackup: bool, d: Disk, n: nat)
    requires Understood(Used(crc, hasBackup, d))
    ensures Used(crc, hasBackup, NthDisk(crc, hasBackup, d, n)) == NthBody(Used(crc, hasBackup, d), n)
    ensures Understood(NthBody(Used(crc, hasBackup, d), n))
  {
    if n > 0 { DiskCarriesBody(crc, hasBackup, d, n - 1); }
  }

  function TriesLeft(slots: seq<Slot>, n: nat): nat
    requires n <= |slots|
  {
    if n == 0 then 0 else TriesLeft(slots, n - 1) + slots[n - 1].tries
  }

  /** How many of the first n boots from b went to a slot not yet marked successful. */
  function UnprovenPicks(b: Body, n: nat): nat {
    if n == 0 then 0
    else UnprovenPicks(b, n - 1) + (if PicksUnproven(NthBody(b, n - 1)) then 1 else 0)
  }

  lemma {:induction false} TriesLeftUpdate(slots: seq<Slot>, n: nat, k: nat)
    requires n <= |slots| && k < |slots| && slots[k].tries > 0
    ensures TriesLeft(slots[k := TryTaken(slots[k])], n) == TriesLeft(slots, n) - (if k < n then 1 else 0)
  {
    if n > 0 { TriesLeftUpdate(slots, n - 1, k); }
  }

  /** Boots of unproven slots and tries left always add up to the tries there were at first. */
  lemma {:induction false} TriesAreConserved(b: Body, n: nat)
    ensures UnprovenPicks(b, n) + TriesLeft(NthBody(b, n).slots, Slots(NthBody(b, n))) == TriesLeft(b.slots, Slots(b))
    ensures Slots(NthBody(b, n)) == Slots(b)
  {
    if n > 0 {
      TriesAreConserved(b, n - 1);
      var c := NthBody(b, n - 1);
      if PicksUnproven(c) {
        UnprovenPickChanges(c);
        TriesLeftUpdate(c.slots, Slots(c), Choice(c));
      }
    }
  }

  /** A boot that picks a proven slot, or none, is repeated by every later boot. */
  lemma {:induction false} SettledChoiceIsFinal(b: Body, i: nat, j: nat)
    requires i <= j && !PicksUnproven(NthBody(b, i))
    ensures NthBody(b, j).slots == NthBody(b, i).slots && Choice(NthBody(b, j)) == Choice(NthBody(b, i))
    ensures !PicksUnproven(NthBody(b, j))
    decreases j
  {
    if i < j { SettledChoiceIsFinal(b, i, j - 1); }
  }

  /** The same on disk, whatever state it is in: what a boot returns once settled is returned for ever. */
  lemma SettledResultIsFinal(crc: Crc, hasBackup: bool, d: Disk, i: nat, j: nat)
    requires i <= j
    requires var b := Used(crc, hasBackup, NthDisk(crc, hasBackup, d, i)); !Understood(b) || !PicksUnproven(b)
    ensures ResultOf(Used(crc, hasBackup, NthDisk(crc, hasBackup, d, j)))
         == ResultOf(Used(crc, hasBackup, NthDisk(crc, hasBackup, d, i)))
    decreases j
  {
    var b := Used(crc, hasBackup, d);
    if Understood(b) {
      DiskCarriesBody(crc, hasBackup, d, i);
      DiskCarriesBody(crc, hasBackup, d, j);
      SettledChoiceIsFinal(b, i, j);
    } else {
      UnreadableStays(crc, hasBackup, d, i);
      UnreadableStays(crc, hasBackup, d, j);
    }
  }

  lemma {:induction false} UnreadableStays(crc: Crc, hasBackup: bool, d: Disk, n: nat)
    requires !Understood(Used(crc, hasBackup, d))
    ensures NthDisk(crc, hasBackup, d, n) == d
  {
    if n > 0 { UnreadableStays(crc, hasBackup, d, n - 1); }
  }

  /** Looking without taking a try, and then booting, gives the slot that was looked up. */
  lemma PeekThenBoot(crc: Crc, hasBackup: bool, d: Disk)
    ensures ResultOf(Used(crc, hasBackup, Select(crc, hasBackup, d, false))) == ResultOf(Used(crc, hasBackup, d))
  {
  }

  // --------------------------------------------------------- the code on disk

  /** When one of the two writes of a selection fails, and what it leaves. */
  datatype Fault = NoFault | InPrimary(t: Tear) | InBackup(t: Tear)

  class MiscPartition {
    const hasBackup: bool
    var primary: Record
    var backup: Record

    ghost function Contents(): Disk
      reads this
    {
      Disk(primary, backup)
    }

    constructor (hasBackup: bool, primary: Record, backup: Record)
      ensures this.hasBackup == hasBackup && Contents() == Disk(primary, backup)
    {
      this.hasBackup := hasBackup;
      this.primary, this.backup := primary, backup;
    }

    static method FindSlot(b: Body) returns (slot: int)
      ensures slot == Choice(b)
    {
      slot := -1;
      for i := 0 to Slots(b)
        invariant slot == BestSlot(b.slots, i)
      {
        if !Bootable(b.slots[i]) {
          continue;
        }
        if slot < 0 || CompareSlots(b.slots[i], b.slots[slot]) < 0 {
          slot := i;
        }
      }
    }

    /** The record to work on: the primary, else the backup, else a fresh one. */
    method LoadRecord(crc: Crc) returns (abc: Record, storeNeeded: bool)
      ensures abc == Sealed(crc, Used(crc, hasBackup, Contents()))
      ensures storeNeeded == (SourceOf(crc, hasBackup, Contents()) != FromPrimary)
    {
      abc, storeNeeded := primary, false;
      if abc.crc != crc(abc.body) {
        if hasBackup && backup.crc == crc(backup.body) {
          abc := backup;
        } else {
          abc := Sealed(crc, DefaultBody(abc.body));
        }
        storeNeeded := true;
      }
    }

    static method ChooseSlot(b: Body, decTries: bool) returns (slot: int, body: Body, changed: bool)
      ensures slot == Choice(b) && body == Chosen(b, decTries) && changed == (body != b)
    {
      body, changed := b, false;
      if body.nbSlot > MAX_SLOTS {
        body := body.(nbSlot := MAX_SLOTS);
        changed := true;
      }
      slot := FindSlot(body);
      if slot >= 0 && !body.slots[slot].successful && decTries {
        BestSlotIsBest(body.slots, Slots(body));
        body := body.(slots := body.slots[slot := body.slots[slot].(tries := body.slots[slot].tries - 1)]);
        assert body.slots[slot] != b.slots[slot];
        changed := true;
      }
      if slot >= 0 && body.suffix != SlotSuffix(slot) {
        body := body.(suffix := SlotSuffix(slot));
        changed := true;
      }
    }

    method SelectSlot(crc: Crc, decTries: bool, fault: Fault) returns (r: Result)
      requires !fault.NoFault? ==> TearOk(crc, fault.t)
      modifies this
      ensures r == WriteFailed || r == ResultOf(Used(crc, hasBackup, old(Contents())))
      ensures r != WriteFailed ==> Contents() == Select(crc, hasBackup, old(Contents()), decTries)
      ensures r == WriteFailed ==> !fault.NoFault? && MayLeave(crc, hasBackup, old(Contents()), decTries, Contents())
    {
      var abc, storeNeeded := LoadRecord(crc);
      if abc.body.magic != BOOT_CTRL_MAGIC || abc.body.version > BOOT_CTRL_VERSION {
        return NoData;
      }
      var slot, body, changed := ChooseSlot(abc.body, decTries);
      if storeNeeded || changed {
        abc := Sealed(crc, body);
        if fault.InPrimary? {
          primary := Torn(primary, abc, fault.t);
          return WriteFailed;
        }
        primary := abc;
      }
      if hasBackup && backup != abc {
        if fault.InBackup? {
          backup := Torn(backup, abc, fault.t);
          return WriteFailed;
        }
        backup := abc;
      }
      return if slot < 0 then NoSlot else Selected(slot);
    }
  }
}
