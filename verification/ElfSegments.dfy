/**
 Merging the loadable segments of a module so that no two share a page. Sizes
 and addresses are 64-bit; a failed assertion carries its line in ta_elf.c.
 */
module ElfSegments {
  import opened Bits

  const PAGE: nat := 4096
  const SIZES: nat := 0x1_0000_0000_0000_0000
  const PF_W_BIT: nat := 1

  datatype Segment = Segment(offset: nat, vaddr: nat, filesz: nat, memsz: nat, flags: nat, align: nat, remapped: bool)
  {
    function End(): nat { vaddr + memsz }
    function FileEnd(): nat { vaddr + filesz }
  }

  datatype Outcome = Ok(segs: seq<Segment>) | AssertFailed(line: nat)

  function RoundDown(v: nat): (r: nat)
    ensures r <= v < r + PAGE && r % PAGE == 0
  {
    v / PAGE * PAGE
  }

  // ------------------------------------------------------------ sanity check

  /** The assertion that segment k fails, or 0. */
  function SanityLine(segs: seq<Segment>, k: nat): nat
    requires k < |segs|
  {
    var s := segs[k];
    if s.align < PAGE then 640
    else if s.End() >= SIZES then 641
    else if s.filesz > s.memsz then 642
    else if s.offset % PAGE != s.vaddr % PAGE then 643
    else if k > 0 && s.vaddr < segs[k - 1].End() then 648
    else if k > 0 && s.offset < (segs[k - 1].offset + segs[k - 1].filesz) % SIZES then 649
    else if s.align != segs[0].align then 654
    else 0
  }

  function FirstInsane(segs: seq<Segment>, k: nat): nat
    decreases |segs| - k
  {
    if k >= |segs| then 0 else if SanityLine(segs, k) != 0 then SanityLine(segs, k) else FirstInsane(segs, k + 1)
  }

  predicate Sane(segs: seq<Segment>) {
    forall k :: 0 <= k < |segs| ==> SanityLine(segs, k) == 0
  }

  /** Segment i, from k on, is the first that fails an assertion. */
  predicate FailsFirst(segs: seq<Segment>, k: nat, i: nat) {
    k <= i < |segs| && SanityLine(segs, i) != 0 && forall j :: k <= j < i ==> SanityLine(segs, j) == 0
  }

  lemma {:induction false} PassesIfSane(segs: seq<Segment>, k: nat)
    ensures FirstInsane(segs, k) == 0 <==> forall i :: k <= i < |segs| ==> SanityLine(segs, i) == 0
    decreases |segs| - k
  {
    if k < |segs| { PassesIfSane(segs, k + 1); }
  }

  /** The check passes exactly if all segments do; otherwise it fails the assertion of the first that does not. */
  lemma {:induction false} FirstInsaneMeaning(segs: seq<Segment>, k: nat)
    ensures FirstInsane(segs, k) == 0 <==> forall i :: k <= i < |segs| ==> SanityLine(segs, i) == 0
    ensures forall i: nat :: FailsFirst(segs, k, i) ==> FirstInsane(segs, k) == SanityLine(segs, i)
    decreases |segs| - k
  {
    PassesIfSane(segs, k);
    if k < |segs| {
      FirstInsaneMeaning(segs, k + 1);
      forall i: nat | FailsFirst(segs, k, i) ensures FirstInsane(segs, k) == SanityLine(segs, i) {
        assert i != k ==> FailsFirst(segs, k + 1, i);
      }
    }
  }

  // ------------------------------------------------------------- adjustment

  /** Segment s becomes part of the one before it. */
  function Merged(prev: Segment, s: Segment): Segment
    requires prev.vaddr <= s.vaddr
  {
    prev.(filesz := s.FileEnd() - prev.vaddr, memsz := s.End() - prev.vaddr, flags := Or(prev.flags, s.flags))
  }

  function Aligned(s: Segment, remapped: bool): Segment {
    var slack := s.vaddr - RoundDown(s.vaddr);
    s.(filesz := s.filesz + slack, memsz := s.memsz + slack, vaddr := RoundDown(s.vaddr),
       offset := RoundDown(s.offset), remapped := s.remapped || remapped)
  }

  predicate SharesPage(prev: Segment, s: Segment) {
    RoundDown(s.vaddr) < prev.End()
  }

  predicate SharesFilePage(prev: Segment, s: Segment, mask: nat) {
    And(s.offset, mask) != 0 && RoundDown(s.offset) < (prev.offset + prev.filesz) % SIZES
  }

  /** The next segment s, after the adjusted ones before it. */
  function AdjustOne(out: seq<Segment>, s: Segment, mask: nat): (r: Outcome)
    requires out != [] && out[|out| - 1].vaddr <= s.vaddr
    ensures r.Ok? ==> r.segs != [] && EndsLike(r.segs[|r.segs| - 1], s)
  {
    var prev := out[|out| - 1];
    if SharesPage(prev, s) then
      if And(s.vaddr, mask) != And(s.offset, mask) then AssertFailed(682)
      else if prev.memsz != prev.filesz then AssertFailed(683)
      else Ok(out[..|out| - 1] + [Merged(prev, s)])
    else if SharesFilePage(prev, s, mask) && !HasBit(s.flags, PF_W_BIT) then AssertFailed(707)
    else Ok(out + [Aligned(s, SharesFilePage(prev, s, mask))])
  }

  function Mask(segs: seq<Segment>): nat
    requires Sane(segs) && segs != []
  {
    assert SanityLine(segs, 0) == 0;
    segs[0].align - 1
  }

  /** The first n segments adjusted. */
  function AdjustPrefix(segs: seq<Segment>, n: nat): (r: Outcome)
    requires Sane(segs) && n <= |segs|
    ensures r.Ok? && n > 0 ==> r.segs != [] && EndsLike(r.segs[|r.segs| - 1], segs[n - 1])
  {
    if n == 0 then Ok([])
    else if n == 1 then Ok([segs[0]])
    else
      match AdjustPrefix(segs, n - 1)
      case AssertFailed(line) => AssertFailed(line)
      case Ok(out) =>
        Later(segs, n - 1); AdjustOne(out, segs[n - 1], Mask(segs))
  }

  lemma Later(segs: seq<Segment>, k: nat)
    requires Sane(segs) && 0 < k < |segs|
    ensures segs[k - 1].End() <= segs[k].vaddr && segs[k].align == segs[0].align >= PAGE
    ensures segs[k].filesz <= segs[k].memsz && segs[k].offset % PAGE == segs[k].vaddr % PAGE
  {
    assert SanityLine(segs, k) == 0;
  }

  predicate EndsLike(o: Segment, s: Segment) {
    o.vaddr <= s.vaddr && o.End() == s.End() && o.FileEnd() == s.FileEnd()
  }

  function Adjust(segs: seq<Segment>): Outcome {
    if FirstInsane(segs, 0) != 0 then AssertFailed(FirstInsane(segs, 0))
    else PassesIfSane(segs, 0); AdjustPrefix(segs, |segs|)
  }

  // ------------------------------------------------------------------ the code

  class LoadedElf {
    var segs: seq<Segment>

    constructor (s: seq<Segment>)
      ensures segs == s
    {
      segs := s;
    }

    method SanityCheck() returns (line: nat)
      ensures line == FirstInsane(segs, 0)
    {
      var align := 0;
      for k := 0 to |segs|
        invariant align == if k == 0 then 0 else segs[0].align
        invariant k > 0 ==> align >= PAGE
        invariant FirstInsane(segs, 0) == FirstInsane(segs, k)
      {
        var s := segs[k];
        if s.align < PAGE { return 640; }
        if s.vaddr + s.memsz >= SIZES { return 641; }
        if s.filesz > s.memsz { return 642; }
        if s.offset % PAGE != s.vaddr % PAGE { return 643; }
        if k > 0 {
          var prev := segs[k - 1];
          if s.vaddr < prev.vaddr + prev.memsz { return 648; }
          if s.offset < (prev.offset + prev.filesz) % SIZES { return 649; }
        }
        if align == 0 {
          align := s.align;
        }
        if align != s.align { return 654; }
      }
      return 0;
    }

    /** The segment at i, next to the adjusted one before it; i then is the next one to look at. */
    method AdjustAt(i: nat, mask: nat) returns (line: nat, next: nat)
      requires 0 < i < |segs| && segs[i - 1].vaddr <= segs[i].vaddr
      modifies this
      ensures match AdjustOne(old(segs)[..i], old(segs)[i], mask)
              case AssertFailed(l) => line == l != 0
              case Ok(out) => line == 0 && next == |out| && segs == out + old(segs)[i + 1..]
    {
      var prev, s := segs[i - 1], segs[i];
      ghost var before := segs[..i];
      next := i;
      if RoundDown(s.vaddr) < prev.vaddr + prev.memsz {
        if And(s.vaddr, mask) != And(s.offset, mask) { line := 682; return; }
        if prev.memsz != prev.filesz { line := 683; return; }
        prev := prev.(filesz := s.vaddr + s.filesz - prev.vaddr,
                      memsz := s.vaddr + s.memsz - prev.vaddr,
                      flags := Or(prev.flags, s.flags));
        segs := segs[..i - 1] + [prev] + segs[i + 1..];
        assert before[..|before| - 1] == old(segs)[..i - 1];
        return 0, i;
      }
      if And(s.offset, mask) != 0 && RoundDown(s.offset) < (prev.offset + prev.filesz) % SIZES {
        if !HasBit(s.flags, PF_W_BIT) { line := 707; return; }
        s := s.(remapped := true);
      }
      s := s.(filesz := s.filesz + (s.vaddr - RoundDown(s.vaddr)));
      s := s.(memsz := s.memsz + (s.vaddr - RoundDown(s.vaddr)));
      s := s.(vaddr := RoundDown(s.vaddr));
      s := s.(offset := RoundDown(s.offset));
      segs := segs[i := s];
      assert segs == before + [s] + old(segs)[i + 1..];
      return 0, i + 1;
    }

    /** Returns the line of the assertion that failed, or 0 with the segments adjusted in place. */
    method AdjustSegments() returns (line: nat)
      modifies this
      ensures match Adjust(old(segs))
              case AssertFailed(l) => line == l != 0
              case Ok(out) => line == 0 && segs == out
    {
      ghost var all := segs;
      line := SanityCheck();
      PassesIfSane(all, 0);
      if line != 0 {
        return;
      }
      if |segs| == 0 {
        return 0;
      }
      var mask := segs[0].align - 1;
      var i: nat := 1;
      ghost var n := 1;
      while i < |segs|
        invariant 0 < n <= |all| && Sane(all) && mask == Mask(all)
        invariant HalfDone(all, n, i, segs)
        decreases |all| - n
      {
        HalfDoneMeans(all, n, i, segs);
        line, i := AdjustAt(i, mask);
        if line != 0 {
          FailsLater(all, n + 1);
          return;
        }
        n := n + 1;
      }
      assert all[n..] == [];
    }
  }

  /** The first n segments are adjusted, to i of them; the rest is as it was. */
  predicate HalfDone(all: seq<Segment>, n: nat, i: nat, segs: seq<Segment>)
    requires Sane(all) && 0 < n <= |all|
  {
    match AdjustPrefix(all, n)
    case AssertFailed(_) => false
    case Ok(out) => i == |out| && segs == out + all[n..]
  }

  lemma HalfDoneMeans(all: seq<Segment>, n: nat, i: nat, segs: seq<Segment>)
    requires Sane(all) && 0 < n <= |all| && HalfDone(all, n, i, segs) && i < |segs|
    ensures n < |all| && 0 < i && segs[i - 1].vaddr <= segs[i].vaddr
    ensures segs[i + 1..] == all[n + 1..]
    ensures AdjustPrefix(all, n + 1) == AdjustOne(segs[..i], segs[i], Mask(all))
  {
    var out := AdjustPrefix(all, n).segs;
    assert segs[..i] == out && segs[i] == all[n];
    Later(all, n);
  }

  lemma {:induction false} FailsLater(segs: seq<Segment>, n: nat)
    requires Sane(segs) && n <= |segs| && AdjustPrefix(segs, n).AssertFailed?
    ensures AdjustPrefix(segs, |segs|) == AdjustPrefix(segs, n)
    decreases |segs| - n
  {
    if n < |segs| { FailsLater(segs, n + 1); }
  }
}
