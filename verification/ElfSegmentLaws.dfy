/** What adjusting the segments achieves, read off the segments as they were. */
module ElfSegmentLaws {
  import opened Bits
  import opened ElfSegments

  // ------------------------------------------------------------ runs of segments

  /** Segment k starts on a page that the ones before it have not reached. */
  predicate Splits(segs: seq<Segment>, k: nat)
    requires 0 < k < |segs|
  {
    segs[k - 1].End() <= RoundDown(segs[k].vaddr)
  }

  /** The first segment of the run of page-sharing segments that k belongs to. */
  function RunStart(segs: seq<Segment>, k: nat): (lo: nat)
    requires k < |segs|
    ensures lo <= k
  {
    if k == 0 || Splits(segs, k) then k else RunStart(segs, k - 1)
  }

  function Base(segs: seq<Segment>, lo: nat): (b: nat)
    requires lo < |segs|
    ensures b <= segs[lo].vaddr
  {
    if lo == 0 then segs[0].vaddr else RoundDown(segs[lo].vaddr)
  }

  function FileBase(segs: seq<Segment>, lo: nat): (b: nat)
    requires lo < |segs|
    ensures b <= segs[lo].offset
  {
    if lo == 0 then segs[0].offset else RoundDown(segs[lo].offset)
  }

  function RunFlags(segs: seq<Segment>, lo: nat, hi: nat): nat
    requires lo < hi <= |segs|
  {
    if hi == lo + 1 then segs[lo].flags else Or(RunFlags(segs, lo, hi - 1), segs[hi - 1].flags)
  }

  lemma {:induction false} SaneInOrder(segs: seq<Segment>, i: nat, j: nat)
    requires Sane(segs) && i < j < |segs|
    ensures segs[i].End() <= segs[j].vaddr
    decreases j
  {
    Later(segs, j);
    if i < j - 1 { SaneInOrder(segs, i, j - 1); }
  }

  /** File offset one past the part of the run up to segment k that comes from the file. */
  function RunFileEnd(segs: seq<Segment>, k: nat): int
    requires k < |segs|
  {
    var lo := RunStart(segs, k);
    FileBase(segs, lo) + segs[k].FileEnd() - Base(segs, lo)
  }

  /** The page of the file with the start of run lo is also mapped for the run before it. */
  predicate Remaps(segs: seq<Segment>, lo: nat)
    requires Sane(segs) && 0 < lo < |segs|
  {
    And(segs[lo].offset, Mask(segs)) != 0 && RoundDown(segs[lo].offset) < RunFileEnd(segs, lo - 1) % SIZES
  }

  lemma {:induction false} StartIsBefore(segs: seq<Segment>, k: nat)
    requires Sane(segs) && k < |segs|
    ensures segs[RunStart(segs, k)].vaddr <= segs[k].vaddr
  {
    if k > 0 {
      Later(segs, k);
      if !Splits(segs, k) { StartIsBefore(segs, k - 1); }
    }
  }

  /** The segments lo .. hi as one, from its page on. */
  function Run(segs: seq<Segment>, lo: nat, hi: nat): Segment
    requires Sane(segs) && lo < hi <= |segs| && segs[lo].vaddr <= segs[hi - 1].vaddr
  {
    var last := segs[hi - 1];
    Segment(FileBase(segs, lo), Base(segs, lo), last.FileEnd() - Base(segs, lo), last.End() - Base(segs, lo),
            RunFlags(segs, lo, hi), segs[lo].align, segs[lo].remapped || (lo > 0 && Remaps(segs, lo)))
  }

  /** The first n segments, each run of page-sharing ones as one. */
  function Runs(segs: seq<Segment>, n: nat): seq<Segment>
    requires Sane(segs) && n <= |segs|
  {
    if n == 0 then []
    else
      var lo := RunStart(segs, n - 1);
      StartIsBefore(segs, n - 1);
      Runs(segs, lo) + [Run(segs, lo, n)]
  }

  /** The assertion that segment k fails, or 0. */
  function Trouble(segs: seq<Segment>, k: nat): nat
    requires Sane(segs) && 0 < k < |segs|
  {
    if Splits(segs, k) then
      if Remaps(segs, k) && !HasBit(segs[k].flags, PF_W_BIT) then 707 else 0
    else if And(segs[k].vaddr, Mask(segs)) != And(segs[k].offset, Mask(segs)) then 682
    else if segs[k - 1].memsz != segs[k - 1].filesz then 683
    else 0
  }

  predicate NoTrouble(segs: seq<Segment>, n: nat)
    requires Sane(segs) && n <= |segs|
  {
    forall k :: 0 < k < n ==> Trouble(segs, k) == 0
  }

  // ------------------------------------------------ the result, and when it fails

  lemma LastRun(segs: seq<Segment>, n: nat)
    requires Sane(segs) && 0 < n <= |segs|
    ensures var out := Runs(segs, n); var lo := RunStart(segs, n - 1);
            && segs[lo].vaddr <= segs[n - 1].vaddr
            && out != [] && out[|out| - 1] == Run(segs, lo, n) && out[..|out| - 1] == Runs(segs, lo)
            && EndsLike(out[|out| - 1], segs[n - 1])
            && out[|out| - 1].offset + out[|out| - 1].filesz == RunFileEnd(segs, n - 1)
  {
    StartIsBefore(segs, n - 1);
    var lo := RunStart(segs, n - 1);
    assert (Runs(segs, lo) + [Run(segs, lo, n)])[..|Runs(segs, lo)|] == Runs(segs, lo);
  }

  lemma AlignedIsRun(segs: seq<Segment>, n: nat)
    requires Sane(segs) && 0 < n < |segs| && Splits(segs, n)
    ensures Runs(segs, n + 1) == Runs(segs, n) + [Aligned(segs[n], Remaps(segs, n))]
  {
    assert RunStart(segs, n) == n;
    var s := segs[n];
    var slack := s.vaddr - RoundDown(s.vaddr);
    assert Run(segs, n, n + 1) == Aligned(s, Remaps(segs, n));
  }

  lemma MergedIsRun(segs: seq<Segment>, n: nat)
    requires Sane(segs) && 0 < n < |segs| && !Splits(segs, n)
    ensures var out := Runs(segs, n);
            && out != [] && out[|out| - 1].vaddr <= segs[n].vaddr
            && Runs(segs, n + 1) == out[..|out| - 1] + [Merged(out[|out| - 1], segs[n])]
  {
    Later(segs, n);
    LastRun(segs, n);
    var lo := RunStart(segs, n - 1);
    assert RunStart(segs, n) == lo;
    StartIsBefore(segs, n);
    assert RunFlags(segs, lo, n + 1) == Or(RunFlags(segs, lo, n), segs[n].flags);
    assert Run(segs, lo, n + 1) == Merged(Run(segs, lo, n), segs[n]);
  }

  predicate StepIs(segs: seq<Segment>, n: nat, out: seq<Segment>)
    requires Sane(segs) && 0 < n < |segs| && out != [] && out[|out| - 1].vaddr <= segs[n].vaddr
  {
    AdjustOne(out, segs[n], Mask(segs))
    == if Trouble(segs, n) == 0 then Ok(Runs(segs, n + 1)) else AssertFailed(Trouble(segs, n))
  }

  lemma OneApart(segs: seq<Segment>, n: nat, out: seq<Segment>)
    requires Sane(segs) && 0 < n < |segs| && Splits(segs, n) && out == Runs(segs, n)
    ensures out != [] && out[|out| - 1].vaddr <= segs[n].vaddr && StepIs(segs, n, out)
  {
    Later(segs, n);
    LastRun(segs, n);
    AlignedIsRun(segs, n);
    var prev := out[|out| - 1];
    assert !SharesPage(prev, segs[n]);
    assert SharesFilePage(prev, segs[n], Mask(segs)) == Remaps(segs, n);
  }

  lemma OneShared(segs: seq<Segment>, n: nat, out: seq<Segment>)
    requires Sane(segs) && 0 < n < |segs| && !Splits(segs, n) && out == Runs(segs, n)
    ensures out != [] && out[|out| - 1].vaddr <= segs[n].vaddr && StepIs(segs, n, out)
  {
    Later(segs, n);
    LastRun(segs, n);
    MergedIsRun(segs, n);
    var prev := out[|out| - 1];
    assert SharesPage(prev, segs[n]);
    assert prev.memsz == prev.filesz <==> segs[n - 1].memsz == segs[n - 1].filesz;
  }

  lemma FirstRun(segs: seq<Segment>)
    requires Sane(segs) && segs != []
    ensures Runs(segs, 1) == [segs[0]]
  {
    assert RunStart(segs, 0) == 0;
    assert Runs(segs, 0) == [];
    assert Run(segs, 0, 1) == segs[0];
  }

  /** What the first n segments come to. */
  ghost predicate Explained(segs: seq<Segment>, n: nat, r: Outcome)
    requires Sane(segs) && n <= |segs|
  {
    match r
    case Ok(out) => NoTrouble(segs, n) && out == Runs(segs, n)
    case AssertFailed(line) => exists k :: 0 < k < n && NoTrouble(segs, k) && Trouble(segs, k) == line != 0
  }

  /** One more segment: it fails exactly as told from the original segments, or the runs grow by it. */
  lemma OneMore(segs: seq<Segment>, n: nat, out: seq<Segment>)
    requires Sane(segs) && 0 < n < |segs| && out == Runs(segs, n) && NoTrouble(segs, n)
    ensures out != [] && out[|out| - 1].vaddr <= segs[n].vaddr
    ensures Explained(segs, n + 1, AdjustOne(out, segs[n], Mask(segs)))
  {
    if Splits(segs, n) { OneApart(segs, n, out); } else { OneShared(segs, n, out); }
    assert StepIs(segs, n, out);
  }

  /**
   Adjusting yields the runs of page-sharing segments, unless an assertion
   fails; which one, and when, follows from the original segments.
   */
  lemma {:induction false} AdjustIsRuns(segs: seq<Segment>, n: nat)
    requires Sane(segs) && n <= |segs|
    ensures Explained(segs, n, AdjustPrefix(segs, n))
  {
    if n == 1 {
      FirstRun(segs);
    } else if n > 1 {
      AdjustIsRuns(segs, n - 1);
      match AdjustPrefix(segs, n - 1)
      case Ok(out) => OneMore(segs, n - 1, out);
      case AssertFailed(_) =>
    }
  }

  // ------------------------------------------------------------------ the layout

  predicate Has(s: Segment, a: nat) {
    s.vaddr <= a < s.End()
  }

  /** No two segments have a page in common, and they are in address order. */
  predicate PagesApart(out: seq<Segment>) {
    forall i, j :: 0 <= i < j < |out| ==> out[i].End() <= out[j].vaddr && out[j].vaddr % PAGE == 0
  }

  lemma EndsGrow(segs: seq<Segment>, i: nat, j: nat)
    requires Sane(segs) && i <= j < |segs|
    ensures segs[i].End() <= segs[j].End()
  {
    if i < j { SaneInOrder(segs, i, j); }
  }

  lemma {:induction false} RunsEnd(segs: seq<Segment>, n: nat)
    requires Sane(segs) && 0 < n <= |segs|
    ensures forall j :: 0 <= j < |Runs(segs, n)| ==> Runs(segs, n)[j].End() <= segs[n - 1].End()
  {
    LastRun(segs, n);
    var lo := RunStart(segs, n - 1);
    if lo > 0 {
      RunsEnd(segs, lo);
      EndsGrow(segs, lo - 1, n - 1);
    }
  }

  lemma {:induction false} StartSplits(segs: seq<Segment>, k: nat)
    requires k < |segs|
    ensures RunStart(segs, k) > 0 ==> Splits(segs, RunStart(segs, k))
  {
    if k > 0 && !Splits(segs, k) { StartSplits(segs, k - 1); }
  }

  lemma {:induction false} RunsApart(segs: seq<Segment>, n: nat)
    requires Sane(segs) && n <= |segs|
    ensures PagesApart(Runs(segs, n))
  {
    if n > 0 {
      LastRun(segs, n);
      var lo := RunStart(segs, n - 1);
      StartSplits(segs, n - 1);
      RunsApart(segs, lo);
      if lo > 0 { RunsEnd(segs, lo); }
    }
  }

  lemma {:induction false} SameRun(segs: seq<Segment>, k: nat, m: nat)
    requires k <= m < |segs| && RunStart(segs, m) <= k
    ensures RunStart(segs, k) == RunStart(segs, m)
  {
    if k < m { SameRun(segs, k, m - 1); }
  }

  /** Segment k went into output j, which spans the original segments up to hi. */
  predicate WentInto(segs: seq<Segment>, n: nat, k: nat, j: nat, hi: nat)
    requires Sane(segs) && k < n <= |segs|
  {
    && j < |Runs(segs, n)| && k < hi <= n
    && RunStart(segs, hi - 1) == RunStart(segs, k)
    && segs[RunStart(segs, k)].vaddr <= segs[hi - 1].vaddr
    && Runs(segs, n)[j] == Run(segs, RunStart(segs, k), hi)
  }

  lemma {:induction false} EachGoesSomewhere(segs: seq<Segment>, n: nat, k: nat) returns (j: nat, hi: nat)
    requires Sane(segs) && k < n <= |segs|
    ensures WentInto(segs, n, k, j, hi)
    decreases n
  {
    LastRun(segs, n);
    var lo := RunStart(segs, n - 1);
    if lo <= k {
      SameRun(segs, k, n - 1);
      j, hi := |Runs(segs, n)| - 1, n;
    } else {
      j, hi := EachGoesSomewhere(segs, lo, k);
      assert Runs(segs, n)[j] == Runs(segs, n)[..|Runs(segs, n)| - 1][j];
    }
  }

  lemma {:induction false} FlagsKept(segs: seq<Segment>, lo: nat, hi: nat, k: nat)
    requires lo <= k < hi <= |segs|
    ensures Contains(RunFlags(segs, lo, hi), segs[k].flags)
  {
    if hi > lo + 1 {
      OrContains(RunFlags(segs, lo, hi - 1), segs[hi - 1].flags);
      if k < hi - 1 { FlagsKept(segs, lo, hi - 1, k); }
    }
  }

  // -------------------------------------------------------------- what is loaded

  /** The byte at address a comes from the file; the others are zeros. */
  predicate FromFile(s: Segment, a: nat) {
    a < s.FileEnd()
  }

  function FileOffset(s: Segment, a: nat): int {
    s.offset + a - s.vaddr
  }

  function Shift(s: Segment): int {
    s.vaddr - s.offset
  }

  lemma BaseShift(segs: seq<Segment>, lo: nat)
    requires Sane(segs) && lo < |segs|
    ensures Base(segs, lo) - FileBase(segs, lo) == Shift(segs[lo])
  {
    if lo > 0 { Later(segs, lo); }
  }

  /** A segment that does not end its run has no zero-filled part. */
  lemma InnerIsFull(segs: seq<Segment>, k: nat, hi: nat)
    requires Sane(segs) && k + 1 < hi <= |segs| && NoTrouble(segs, |segs|)
    requires RunStart(segs, hi - 1) == RunStart(segs, k)
    ensures segs[k].memsz == segs[k].filesz
  {
    SameRun(segs, k + 1, hi - 1);
    assert Trouble(segs, k + 1) == 0;
  }

  /** Output o holds the byte at a of segment k as the segment had it. */
  ghost predicate Serves(segs: seq<Segment>, k: nat, a: nat, o: Segment)
    requires k < |segs|
  {
    && Has(o, a) && Contains(o.flags, segs[k].flags)
    && (FromFile(o, a) <==> FromFile(segs[k], a))
    && (FileOffset(o, a) == FileOffset(segs[k], a) <==> Shift(segs[k]) == Shift(segs[RunStart(segs, k)]))
  }

  lemma RunServes(segs: seq<Segment>, k: nat, a: nat, hi: nat)
    requires Sane(segs) && k < hi <= |segs| && NoTrouble(segs, |segs|)
    requires RunStart(segs, hi - 1) == RunStart(segs, k) && segs[RunStart(segs, k)].vaddr <= segs[hi - 1].vaddr
    requires Has(segs[k], a)
    ensures Serves(segs, k, a, Run(segs, RunStart(segs, k), hi))
  {
    var lo := RunStart(segs, k);
    BaseShift(segs, lo);
    StartIsBefore(segs, k);
    EndsGrow(segs, k, hi - 1);
    FlagsKept(segs, lo, hi, k);
    if k + 1 < hi {
      InnerIsFull(segs, k, hi);
      SaneInOrder(segs, k, hi - 1);
    }
  }

  /**
   After a successful adjustment the segments are in order and share no page,
   and every byte of an original segment lies in exactly one of them, with at
   least its permissions, file-backed exactly if it was. Its file offset is the
   original one exactly if the segment has the same distance between address and
   offset as the first segment it was merged with.
   */
  lemma AdjustKeepsMeaning(segs: seq<Segment>, k: nat, a: nat) returns (j: nat)
    requires Adjust(segs).Ok? && k < |segs| && Has(segs[k], a)
    ensures var out := Adjust(segs).segs;
            && PagesApart(out)
            && j < |out| && Serves(segs, k, a, out[j])
            && forall i :: 0 <= i < |out| && Has(out[i], a) ==> i == j
  {
    PassesIfSane(segs, 0);
    AdjustIsRuns(segs, |segs|);
    RunsApart(segs, |segs|);
    var hi;
    j, hi := EachGoesSomewhere(segs, |segs|, k);
    RunServes(segs, k, a, hi);
  }

  /** A byte alone in its run, or first in it, always keeps its file offset. */
  lemma FirstKeepsOffset(segs: seq<Segment>, k: nat, a: nat)
    requires Adjust(segs).Ok? && k < |segs| && Has(segs[k], a) && (k == 0 || Splits(segs, k))
    ensures exists o :: o in Adjust(segs).segs && Has(o, a) && FileOffset(o, a) == FileOffset(segs[k], a)
  {
    var j := AdjustKeepsMeaning(segs, k, a);
    assert Adjust(segs).segs[j] in Adjust(segs).segs;
  }

  /** The assertions accept merged segments whose bytes then come from elsewhere in the file. */
  lemma OffsetCanChange(a: nat)
    requires 0x900 <= a < 0xA00
    ensures var one := Segment(0, 0, 0x800, 0x800, 5, PAGE, false);
            var two := Segment(0x1900, 0x900, 0x100, 0x100, 6, PAGE, false);
            && Adjust([one, two]).Ok? && Has(two, a)
            && forall o :: o in Adjust([one, two]).segs && Has(o, a) ==> FileOffset(o, a) != FileOffset(two, a)
  {
    var one := Segment(0, 0, 0x800, 0x800, 5, PAGE, false);
    var two := Segment(0x1900, 0x900, 0x100, 0x100, 6, PAGE, false);
    var segs := [one, two];
    TwoPass(one, two);
    var j := AdjustKeepsMeaning(segs, 1, a);
    assert RunStart(segs, 1) == RunStart(segs, 0) == 0;
  }

  lemma TwoPass(one: Segment, two: Segment)
    requires one == Segment(0, 0, 0x800, 0x800, 5, PAGE, false)
    requires two == Segment(0x1900, 0x900, 0x100, 0x100, 6, PAGE, false)
    ensures Sane([one, two]) && Adjust([one, two]).Ok? && !Splits([one, two], 1)
  {
    var segs := [one, two];
    assert SanityLine(segs, 0) == 0 && SanityLine(segs, 1) == 0;
    PassesIfSane(segs, 0);
    assert RoundDown(0x900) == 0;
    assert !Splits(segs, 1);
    MaskBits();
    AdjustIsRuns(segs, 2);
    assert Trouble(segs, 1) == 0;
  }

  lemma MaskBits()
    ensures And(0x900, PAGE - 1) == And(0x1900, PAGE - 1)
  {
    assert PowerOfTwo(4) == 16;
    assert PowerOfTwo(8) == 16 * PowerOfTwo(4);
    assert PowerOfTwo(12) == 16 * PowerOfTwo(8);
    MaskIgnores(0x900, PAGE - 1, 12);
  }

  // ------------------------------------------------------------ the sanity check

  /** A segment is in order by itself. */
  predicate IsSound(s: Segment) {
    && s.align >= 4096 && s.vaddr + s.memsz < 0x1_0000_0000_0000_0000 && s.filesz <= s.memsz
    && s.offset % 4096 == s.vaddr % 4096
  }

  /** In the file a segment begins where the one before it ends, or later. */
  predicate FollowsInFile(segs: seq<Segment>, k: nat)
    requires 0 < k < |segs|
  {
    (segs[k - 1].offset + segs[k - 1].filesz) % 0x1_0000_0000_0000_0000 <= segs[k].offset
  }

  /** No assertion fails on segment k. */
  lemma SanityMeans(segs: seq<Segment>, k: nat)
    requires k < |segs|
    ensures SanityLine(segs, k) == 0
            <==> && IsSound(segs[k]) && segs[k].align == segs[0].align
                 && (k > 0 ==> segs[k - 1].vaddr + segs[k - 1].memsz <= segs[k].vaddr && FollowsInFile(segs, k))
  {
  }

  /**
   Every segment is in order by itself, all have the same alignment, each follows
   the one before it in the file, and in memory no two overlap or are out of order.
   */
  predicate AllSound(segs: seq<Segment>) {
    && (forall k :: 0 <= k < |segs| ==> IsSound(segs[k]) && segs[k].align == segs[0].align)
    && (forall k: nat :: 0 < k < |segs| ==> FollowsInFile(segs, k))
    && (forall i, j :: 0 <= i < j < |segs| ==> segs[i].vaddr + segs[i].memsz <= segs[j].vaddr)
  }

  lemma SaneIsSound(segs: seq<Segment>)
    requires Sane(segs)
    ensures AllSound(segs)
  {
    forall k | 0 <= k < |segs| ensures IsSound(segs[k]) && segs[k].align == segs[0].align {
      SanityMeans(segs, k);
    }
    forall k: nat | 0 < k < |segs| ensures FollowsInFile(segs, k) {
      SanityMeans(segs, k);
    }
    forall i, j | 0 <= i < j < |segs| ensures segs[i].vaddr + segs[i].memsz <= segs[j].vaddr {
      SaneInOrder(segs, i, j);
    }
  }

  /** The sanity check passes exactly if all this holds. */
  lemma SaneMeans(segs: seq<Segment>)
    ensures FirstInsane(segs, 0) == 0 <==> AllSound(segs)
  {
    PassesIfSane(segs, 0);
    if FirstInsane(segs, 0) == 0 { SaneIsSound(segs); }
    if AllSound(segs) {
      forall k | 0 <= k < |segs| ensures SanityLine(segs, k) == 0 {
        SanityMeans(segs, k);
      }
    }
  }
}
