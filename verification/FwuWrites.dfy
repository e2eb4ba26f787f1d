/**
 What each call writes, over every run: the byte at an address of an image that
 BL1 holds is the one that the last call to write there wrote.
 */
module FwuWrites {
  import opened FwuSpec
  import opened FwuRuns
  import opened FwuContent
  import opened FwuHistory

  // ------------------------------------------------------------------ one step

  /** How far the image was when the copy event came. */
  function Before(s: Fwu, id: U32): nat {
    if InState(s, id, Copying) then s.descs[id].copiedSize else 0
  }

  /** The event put a block into the image: one being copied, or not yet begun, has grown. */
  predicate CopyWorked(s: Fwu, e: Event, s': Fwu, id: U32) {
    && e.Copy? && e.id == id && (InState(s, id, Reset) || InState(s, id, Copying))
    && (InState(s', id, Copying) || InState(s', id, Copied)) && s'.descs[id].copiedSize > Before(s, id)
  }

  /** That block: as much of the source as the image grew. */
  function Block(s: Fwu, e: Event, s': Fwu): seq<Byte>
    requires e.Copy?
  {
    var n := (if e.id in s'.descs then s'.descs[e.id].copiedSize else 0) - Before(s, e.id);
    if 0 <= n && e.src + n <= |s.mem| then s.mem[e.src..e.src + n] else []
  }

  datatype Write = Write(at: nat, data: seq<Byte>)

  /** What an event writes: a block, or zeros over an image that fails authentication or is reset. */
  function Written(p: Platform, s: Fwu, e: Event, s': Fwu): Write {
    if (e.Copy? || e.Auth? || e.ResetImage?) && KnownImage(p, s, e.id) then
      var base, d := p.attrs[e.id].base, s.descs[e.id];
      if e.Copy? && CopyWorked(s, e, s', e.id) then Write(base + Before(s, e.id), Block(s, e, s'))
      else if e.Auth? && d.state == Copied && InState(s', e.id, Reset) then Write(base, Zeros(d.imageSize))
      else if e.ResetImage? && d.state != Reset && InState(s', e.id, Reset) then Write(base, Zeros(d.copiedSize))
      else Write(0, [])
    else Write(0, [])
  }

  predicate Touches(w: Write, a: nat) {
    w.at <= a < w.at + |w.data|
  }

  function ByteAt(mem: seq<Byte>, a: nat): Byte {
    if a < |mem| then mem[a] else 0
  }

  /** The byte at a once w is written over mem. */
  function Over(w: Write, mem: seq<Byte>, a: nat): Byte {
    if Touches(w, a) then w.data[a - w.at] else ByteAt(mem, a)
  }

  lemma StoreIsOver(mem: seq<Byte>, w: Write, a: nat)
    requires w.at + |w.data| <= |mem|
    ensures ByteAt(Store(mem, w.at, w.data), a) == Over(w, mem, a)
  {
  }

  lemma EmptyStore(mem: seq<Byte>)
    ensures Store(mem, 0, []) == mem
  {
  }

  ghost predicate WritesJust(s: Fwu, s': Fwu, w: Write) {
    w.at + |w.data| <= |s.mem| && s'.mem == Store(s.mem, w.at, w.data)
  }

  lemma BlockIsWritten(p: Platform, s: Fwu, e: Event, s': Fwu, d: Desc)
    requires PlatformOk(p) && Inv(p, s) && e.Copy? && KnownImage(p, s, e.id)
    requires d.copiedSize < d.imageSize <= p.attrs[e.id].maxSize
    requires d == (if InState(s, e.id, Copying) then s.descs[e.id] else Desc(Reset, 0, e.imageSize))
    requires InState(s, e.id, Copying) || InState(s, e.id, Reset)
    requires BlockCopied(p, s, s', e.id, d, Clipped(s, d, e.src, e.blockSize))
    ensures WritesJust(s, s', Written(p, s, e, s'))
  {
    assert Before(s, e.id) == d.copiedSize;
    assert Block(s, e, s') == Clipped(s, d, e.src, e.blockSize);
  }

  lemma CopyWrites(p: Platform, s: Fwu, e: Event, s': Fwu)
    requires PlatformOk(p) && Inv(p, s) && e.Copy? && CopyEffect(p, s, s', e)
    ensures WritesJust(s, s', Written(p, s, e, s'))
  {
    EmptyStore(s.mem);
    if s' != s.(loaded := s'.loaded) {
      assert SizesOk(p.attrs[e.id], s.descs[e.id]);
      if InState(s, e.id, Copying) {
        BlockIsWritten(p, s, e, s', s.descs[e.id]);
      } else if !InState(s', e.id, Reset) {
        BlockIsWritten(p, s, e, s', Desc(Reset, 0, e.imageSize));
      }
    }
  }

  lemma AuthWrites(p: Platform, s: Fwu, e: Event, s': Fwu)
    requires PlatformOk(p) && Inv(p, s) && e.Auth? && StepsTo(p, s, e, s')
    ensures WritesJust(s, s', Written(p, s, e, s'))
  {
    EmptyStore(s.mem);
    if KnownImage(p, s, e.id) { assert SizesOk(p.attrs[e.id], s.descs[e.id]); }
  }

  lemma ResetWritesJust(p: Platform, s: Fwu, e: Event, s': Fwu)
    requires PlatformOk(p) && Inv(p, s) && e.ResetImage? && StepsTo(p, s, e, s')
    ensures WritesJust(s, s', Written(p, s, e, s'))
  {
    EmptyStore(s.mem);
    ResetWrites(p, s, e);
    if KnownImage(p, s, e.id) {
      assert SizesOk(p.attrs[e.id], s.descs[e.id]);
      RemoveKeepsTable(s.loaded, e.id);
      if s.descs[e.id].copiedSize == 0 { assert Store(s.mem, p.attrs[e.id].base, []) == s.mem; }
    }
  }

  /** Every call writes just that, inside memory. */
  lemma StepWrites(p: Platform, s: Fwu, e: Event, s': Fwu)
    requires PlatformOk(p) && Inv(p, s) && StepsTo(p, s, e, s') && !e.Environment?
    ensures WritesJust(s, s', Written(p, s, e, s'))
  {
    match e
    case Copy(_, _, _, _, _, _) =>
      CopyShape(p, s, e);
      CopyWrites(p, s, e, s');
    case Auth(_, _, _, _, _, _) => AuthWrites(p, s, e, s');
    case ResetImage(_) => ResetWritesJust(p, s, e, s');
    case _ => EmptyStore(s.mem);
  }

  // ---------------------------------------------------------------- whole runs

  /** The place of an image, with room for all of it. */
  predicate InPlace(p: Platform, s: Fwu, id: U32, a: nat) {
    && KnownImage(p, s, id) && p.attrs[id].base + s.descs[id].imageSize <= p.memSize
    && p.attrs[id].base <= a < p.attrs[id].base + s.descs[id].imageSize
  }

  /** At addresses of a secure image that BL1 holds, the event writes what it is said to, and nothing else happens. */
  ghost predicate Tells(p: Platform, s: Fwu, e: Event, s': Fwu, id: U32) {
    InState(s', id, Authenticated) && id in p.attrs && p.attrs[id].world == Secure ==>
      forall a: nat :: InPlace(p, s', id, a) ==> ByteAt(s'.mem, a) == Over(Written(p, s, e, s'), s.mem, a)
  }

  lemma StepTells(p: Platform, s: Fwu, e: Event, s': Fwu, id: U32)
    requires PlatformOk(p) && Inv(p, s) && StepsTo(p, s, e, s') && Legal(p, s, e)
    ensures Tells(p, s, e, s', id)
  {
    if !e.Environment? {
      StepWrites(p, s, e, s');
      forall a: nat ensures ByteAt(s'.mem, a) == Over(Written(p, s, e, s'), s.mem, a) {
        StoreIsOver(s.mem, Written(p, s, e, s'), a);
      }
    } else if InState(s', id, Authenticated) && id in p.attrs && p.attrs[id].world == Secure {
      EnvironmentTells(p, s, e, s', id);
    }
  }

  lemma EnvironmentTells(p: Platform, s: Fwu, e: Event, s': Fwu, id: U32)
    requires |s.mem| == p.memSize && e.Environment? && Legal(p, s, e) && s' == s.(mem := e.mem)
    requires InState(s, id, Authenticated) && id in p.attrs && p.attrs[id].world == Secure
    ensures Tells(p, s, e, s', id)
  {
    var base, size := p.attrs[id].base, s.descs[id].imageSize;
    assert Region(e.mem, base, size) == Region(s.mem, base, size);
    forall a: nat | InPlace(p, s', id, a) ensures ByteAt(e.mem, a) == ByteAt(s.mem, a) {
      assert Region(e.mem, base, size)[a - base] == Region(s.mem, base, size)[a - base];
    }
  }

  ghost predicate TellsAt(p: Platform, states: seq<Fwu>, es: seq<Event>, id: U32, i: nat)
    requires i < |es| && |states| == |es| + 1
  {
    Tells(p, states[i], es[i], states[i + 1], id)
  }

  ghost predicate AllTell(p: Platform, states: seq<Fwu>, es: seq<Event>) {
    |states| == |es| + 1 && forall i, id :: 0 <= i < |es| ==> TellsAt(p, states, es, id, i)
  }

  lemma RunTells(p: Platform, states: seq<Fwu>, es: seq<Event>)
    requires PlatformOk(p) && IsRun(p, states, es)
    ensures AllTell(p, states, es)
  {
    forall i, id | 0 <= i < |es| ensures TellsAt(p, states, es, id, i) {
      InvInRun(p, states, es, i);
      StepTells(p, states[i], es[i], states[i + 1], id);
    }
  }

  function WrittenAt(p: Platform, states: seq<Fwu>, es: seq<Event>, k: nat): Write
    requires k < |es| && |states| == |es| + 1
  {
    Written(p, states[k], es[k], states[k + 1])
  }

  /** The byte at a that the last of the events i to n to write there wrote, or the one that was there. */
  function Latest(p: Platform, states: seq<Fwu>, es: seq<Event>, a: nat, i: nat, n: nat): Byte
    requires i <= n <= |es| && |states| == |es| + 1
    decreases n
  {
    if n == i then ByteAt(states[i].mem, a)
    else
      var w := WrittenAt(p, states, es, n - 1);
      if Touches(w, a) then w.data[a - w.at] else Latest(p, states, es, a, i, n - 1)
  }

  /** An image that is AUTHENTICATED since event i holds the bytes written last. */
  lemma {:induction false} LatestIsThere(p: Platform, states: seq<Fwu>, es: seq<Event>, id: U32, i: nat, n: nat, a: nat)
    requires AllTell(p, states, es) && AllVouched(p, states, es) && i < n <= |es| && VerifiedAt(states, es, id, i, n)
    requires !InState(states[i], id, Authenticated) && InPlace(p, states[n], id, a) && p.attrs[id].world == Secure
    ensures ByteAt(states[n].mem, a) == Latest(p, states, es, a, i, n)
  {
    assert TellsAt(p, states, es, id, n - 1);
    assert InState(states[n], id, Authenticated);
    if i < n - 1 {
      assert VouchedAt(p, states, es, id, n - 1) && InState(states[n - 1], id, Authenticated);
      LatestIsThere(p, states, es, id, i, n - 1, a);
    }
  }

  /** The write puts a byte into the range base to base + n that was another before. */
  ghost predicate Overwrites(w: Write, mem: seq<Byte>, base: nat, n: nat) {
    exists a: nat :: base <= a < base + n && Touches(w, a) && Over(w, mem, a) != ByteAt(mem, a)
  }

  lemma StoreOverwrites(mem: seq<Byte>, w: Write, base: nat, n: nat)
    requires w.at + |w.data| <= |mem| && base + n <= |mem|
    ensures Region(Store(mem, w.at, w.data), base, n) == Region(mem, base, n) <==> !Overwrites(w, mem, base, n)
  {
    var mem' := Store(mem, w.at, w.data);
    var before, after := Region(mem, base, n), Region(mem', base, n);
    forall j: nat | j < n ensures before[j] == ByteAt(mem, base + j) && after[j] == Over(w, mem, base + j) {
      StoreIsOver(mem, w, base + j);
    }
    if Overwrites(w, mem, base, n) {
      var a: nat :| base <= a < base + n && Touches(w, a) && Over(w, mem, a) != ByteAt(mem, a);
      assert before[a - base] != after[a - base];
    } else {
      forall j: nat | j < n ensures before[j] == after[j] {
        assert Touches(w, base + j) ==> Over(w, mem, base + j) == ByteAt(mem, base + j);
      }
    }
  }

  /** A call changes a byte of a range of memory exactly if it overwrites one. */
  lemma ChangedIfOverwritten(p: Platform, s: Fwu, e: Event, s': Fwu, base: nat, n: nat)
    requires PlatformOk(p) && Inv(p, s) && StepsTo(p, s, e, s') && !e.Environment? && base + n <= |s.mem|
    ensures Region(s'.mem, base, n) == Region(s.mem, base, n) <==> !Overwrites(Written(p, s, e, s'), s.mem, base, n)
  {
    StepWrites(p, s, e, s');
    StoreOverwrites(s.mem, Written(p, s, e, s'), base, n);
  }

  /** No event from i to n overwrites that range. */
  ghost predicate NoOverwrites(p: Platform, states: seq<Fwu>, es: seq<Event>, base: nat, size: nat, i: nat, n: nat)
    requires n <= |es| && |states| == |es| + 1
  {
    forall k :: i <= k < n ==> !Overwrites(WrittenAt(p, states, es, k), states[k].mem, base, size)
  }

  /** And if no event has overwritten any, they are the bytes from before event i. */
  lemma {:induction false} KeptIfNotOverwritten(p: Platform, states: seq<Fwu>, es: seq<Event>, id: U32, i: nat, n: nat,
                                                a: nat)
    requires AllTell(p, states, es) && AllVouched(p, states, es) && i < n <= |es| && VerifiedAt(states, es, id, i, n)
    requires !InState(states[i], id, Authenticated) && InPlace(p, states[n], id, a) && p.attrs[id].world == Secure
    requires NoOverwrites(p, states, es, p.attrs[id].base, states[n].descs[id].imageSize, i, n)
    ensures ByteAt(states[n].mem, a) == ByteAt(states[i].mem, a)
  {
    assert TellsAt(p, states, es, id, n - 1);
    assert InState(states[n], id, Authenticated);
    var base, size := p.attrs[id].base, states[n].descs[id].imageSize;
    assert !Overwrites(WrittenAt(p, states, es, n - 1), states[n - 1].mem, base, size);
    if i < n - 1 {
      assert VouchedAt(p, states, es, id, n - 1) && InState(states[n - 1], id, Authenticated);
      KeptIfNotOverwritten(p, states, es, id, i, n - 1, a);
    }
  }
}
