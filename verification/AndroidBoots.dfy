/** What the slot metadata decides, field by field, and what a board with lost metadata does. */
module AndroidBoots {
  import opened AndroidAb

  // --------------------------------------------------------------- one selection

  /** A slot can be booted. */
  predicate CanBoot(s: Slot) {
    !s.corrupted && (s.tries > 0 || s.successful)
  }

  /** Slot i would be taken rather than slot j. */
  predicate Beats(slots: seq<Slot>, i: nat, j: nat)
    requires i < |slots| && j < |slots|
  {
    var a, b := slots[i], slots[j];
    if a.priority != b.priority then a.priority > b.priority
    else if a.successful != b.successful then a.successful
    else if a.tries != b.tries then a.tries > b.tries
    else i < j
  }

  /** How many slots are looked at. */
  function Looked(b: Body): nat {
    if b.nbSlot < 4 then b.nbSlot else 4
  }

  /**
   A record is refused exactly if its magic number is another or its version is
   above 1. Otherwise the slot returned is the one that can be booted and beats
   all others that can, and there is none exactly if none can.
   */
  lemma SelectedIsTheBest(b: Body, k: nat)
    ensures ResultOf(b) == NoData <==> b.magic != 0x42414342 || b.version > 1
    ensures ResultOf(b) == NoSlot
            <==> ResultOf(b) != NoData && forall i :: 0 <= i < Looked(b) ==> !CanBoot(b.slots[i])
    ensures ResultOf(b) == Selected(k)
            <==> && ResultOf(b) != NoData && k < Looked(b) && CanBoot(b.slots[k])
                 && forall i :: 0 <= i < Looked(b) && i != k && CanBoot(b.slots[i]) ==> Beats(b.slots, k, i)
  {
    BestSlotIsBest(b.slots, Slots(b));
    assert forall i :: 0 <= i < 4 ==> (Bootable(b.slots[i]) <==> CanBoot(b.slots[i]));
  }

  /** The suffix that the selected slot gets, its only other trace being the try it takes. */
  lemma SelectedLeavesItsMark(b: Body, k: nat, decTries: bool)
    requires ResultOf(b) == Selected(k)
    ensures var b' := Chosen(b, decTries);
            && k < 4 && b'.suffix == ["_a\0\0", "_b\0\0", "_c\0\0", "_d\0\0"][k]
            && b'.nbSlot == Looked(b) && b'.magic == b.magic && b'.version == b.version
            && (forall i :: 0 <= i < 4 && i != k ==> b'.slots[i] == b.slots[i])
            && b'.slots[k] == b.slots[k].(tries := b'.slots[k].tries)
            && b'.slots[k].tries == b.slots[k].tries - (if decTries && !b.slots[k].successful then 1 else 0)
  {
    BestSlotIsBest(b.slots, Slots(b));
  }

  /** A boot that got as far as its primary copy is remembered, however its backup was left. */
  lemma InterruptedBootIsRemembered(crc: Crc, d: Disk, decTries: bool, d': Disk)
    requires MayLeave(crc, true, d, decTries, d') && Understood(Used(crc, true, d))
    requires d'.primary == Sealed(crc, Chosen(Used(crc, true, d), decTries))
    ensures Used(crc, true, d') == Chosen(Used(crc, true, d), decTries)
  {
  }

  // ---------------------------------------------------------- metadata that is lost

  /** After n boots from lost metadata: slots a and b take turns. */
  predicate AfterBoots(b: Body, n: nat) {
    && n <= 14 && b.magic == 0x42414342 && b.version <= 1 && b.nbSlot == 2
    && b.slots[0] == Slot(15, 7 - (n + 1) / 2, false, false, 0) && b.slots[1] == Slot(15, 7 - n / 2, false, false, 0)
  }

  lemma OneMoreBoot(b: Body, n: nat)
    requires AfterBoots(b, n)
    ensures ResultOf(b) == if n < 14 then Selected(n % 2) else NoSlot
    ensures AfterBoots(Chosen(b, true), if n < 14 then n + 1 else 14)
  {
    if n < 14 {
      assert Beats(b.slots, n % 2, 1 - n % 2);
      SelectedIsTheBest(b, n % 2);
      SelectedLeavesItsMark(b, n % 2, true);
    } else {
      SelectedIsTheBest(b, 0);
    }
  }

  lemma {:induction false} BootsFromFresh(b: Body, n: nat)
    requires AfterBoots(b, 0)
    ensures AfterBoots(NthBody(b, n), if n < 14 then n else 14)
  {
    if n > 0 {
      BootsFromFresh(b, n - 1);
      OneMoreBoot(NthBody(b, n - 1), if n - 1 < 14 then n - 1 else 14);
    }
  }

  /**
   On a disk with no good copy, as on a board's first boot, slot a is selected. Of
   the boots that follow, if none is marked successful, the first fourteen select
   slots a and b in turn, seven times each, and every later one finds no slot.
   */
  lemma LostMetadataBoots(crc: Crc, hasBackup: bool, d: Disk, n: nat)
    requires d.primary.crc != crc(d.primary.body) && (hasBackup ==> d.backup.crc != crc(d.backup.body))
    ensures ResultOf(Used(crc, hasBackup, NthDisk(crc, hasBackup, d, n))) == if n < 14 then Selected(n % 2) else NoSlot
  {
    var b := Used(crc, hasBackup, d);
    assert AfterBoots(b, 0);
    DiskCarriesBody(crc, hasBackup, d, n);
    BootsFromFresh(b, n);
    OneMoreBoot(NthBody(b, n), if n < 14 then n else 14);
  }

  /** The record that the first of these boots writes, in full: a try of slot a is taken. */
  lemma LostMetadataIsRewritten(crc: Crc, hasBackup: bool, d: Disk)
    requires d.primary.crc != crc(d.primary.body) && (hasBackup ==> d.backup.crc != crc(d.backup.body))
    ensures var was := d.primary.body;
            var b := Fields("_a\0\0", 0x42414342, 1, 2, was.recoveryTries, [0, 0],
                            [Slot(15, 6, false, false, 0), Slot(15, 7, false, false, 0)] + was.slots[2..],
                            [0, 0, 0, 0, 0, 0, 0, 0]);
            && Select(crc, hasBackup, d, true).primary == Record(b, crc(b))
            && Select(crc, hasBackup, d, true).backup == if hasBackup then Record(b, crc(b)) else d.backup
  {
    var b := Used(crc, hasBackup, d);
    OneMoreBoot(b, 0);
    SelectedLeavesItsMark(b, 0, true);
    assert b.slots[0 := Slot(15, 6, false, false, 0)]
        == [Slot(15, 6, false, false, 0), Slot(15, 7, false, false, 0)] + d.primary.body.slots[2..];
    assert b.reserved1 == [0, 0, 0, 0, 0, 0, 0, 0];
  }
}
