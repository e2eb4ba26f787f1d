/**
 The BL1 firmware-update state machine as a function on values: six SMC
 handlers over a table of image descriptors, a bounded table of loaded IDs and
 the memory they copy into. A failed assertion or a platform error ends the run.
 */
module FwuSpec {
  import Bytes

  type Byte = Bytes.Byte
  type U32 = x: int | 0 <= x < 0x1_0000_0000

  const INVALID_IMAGE_ID: U32 := 0xFFFF_FFFF
  const ADDRESS_SPACE: nat := 0x1_0000_0000_0000_0000

  datatype World = Secure | NonSecure

  datatype ImageState = Reset | Copied | Copying | Authenticated | Executed | Interrupted

  /** The part of an image descriptor that no handler changes. */
  datatype Attr = Attr(base: nat, maxSize: nat, world: World, executable: bool)

  /** The part of an image descriptor that the handlers change. */
  datatype Desc = Desc(state: ImageState, copiedSize: U32, imageSize: U32)

  /** bootId is the image BL1 itself started before the first SMC. */
  datatype Platform = Platform(attrs: map<U32, Attr>, bootId: U32, memSize: nat)

  predicate PlatformOk(p: Platform) {
    && INVALID_IMAGE_ID !in p.attrs
    && p.bootId in p.attrs
    && p.attrs[p.bootId].world == NonSecure
    && p.memSize <= ADDRESS_SPACE
    && forall id :: id in p.attrs ==> p.attrs[id].base + p.attrs[id].maxSize <= p.memSize
  }

  /**
   world is the security state the next exception return goes to, hence the
   caller of the next SMC. byCopy and verified are history: the images that were
   last loaded by copying, not in place, and the bytes that the last successful
   authentication of an image read.
   */
  datatype Fwu = Fwu(
    descs: map<U32, Desc>,
    loaded: seq<U32>,
    secExec: U32,
    world: World,
    mem: seq<Byte>,
    byCopy: set<U32>,
    verified: map<U32, seq<Byte>>)

  datatype Code = Success | EPerm | ENoMem | EAuth

  datatype Outcome =
    | Return(code: Code, next: Fwu)
    | AssertFailed(line: nat)
    | PlatformError

  // ---------------------------------------------------------------- memory

  function Region(mem: seq<Byte>, base: nat, size: nat): seq<Byte> {
    if base + size <= |mem| then mem[base..base + size] else []
  }

  function Store(mem: seq<Byte>, base: nat, data: seq<Byte>): seq<Byte> {
    if base + |data| <= |mem| then mem[..base] + data + mem[base + |data|..] else mem
  }

  function Zeros(n: nat): seq<Byte> {
    seq(n, _ => 0)
  }

  function Concat(blocks: seq<seq<Byte>>): seq<Byte> {
    if blocks == [] then [] else Concat(blocks[..|blocks| - 1]) + blocks[|blocks| - 1]
  }

  // ------------------------------------------------------ loaded-ID table

  /** The first slot at or after i that holds id, or |ids| if there is none. */
  function FindSlot(ids: seq<U32>, id: U32, i: nat): (k: nat)
    requires i <= |ids|
    ensures i <= k <= |ids|
    ensures k < |ids| ==> ids[k] == id
    ensures forall j :: i <= j < k ==> ids[j] != id
    decreases |ids| - i
  {
    if i == |ids| || ids[i] == id then i else FindSlot(ids, id, i + 1)
  }

  datatype TableResult = Fits(ids: seq<U32>) | Full

  function AddLoaded(ids: seq<U32>, id: U32): TableResult {
    if FindSlot(ids, id, 0) < |ids| then Fits(ids)
    else
      var k := FindSlot(ids, INVALID_IMAGE_ID, 0);
      if k < |ids| then Fits(ids[k := id]) else Full
  }

  function RemoveLoaded(ids: seq<U32>, id: U32): TableResult {
    var k := FindSlot(ids, id, 0);
    if k < |ids| then Fits(ids[k := INVALID_IMAGE_ID]) else Full
  }

  function RemoveOrKeep(ids: seq<U32>, id: U32): seq<U32> {
    match RemoveLoaded(ids, id)
    case Fits(l) => l
    case Full => ids
  }

  // --------------------------------------------------------- overlap check

  datatype OverlapResult = Clear | Clash | Trap(line: nat)

  /** Last address of an image, in the pointer width of the platform. */
  function LastAddress(base: nat, size: nat): nat
    requires size > 0
  {
    (base + size - 1) % ADDRESS_SPACE
  }

  /** What one loaded slot says about an image (id, size) about to be copied. */
  function CheckSlot(p: Platform, descs: map<U32, Desc>, slot: U32, id: U32, size: U32): OverlapResult
    requires id in p.attrs && size > 0
  {
    if slot == INVALID_IMAGE_ID || slot == id then Clear
    else if slot !in p.attrs || slot !in descs || descs[slot].state == Reset then Trap(195)
    else if descs[slot].imageSize == 0 then Clear
    else
      var base, end := p.attrs[slot].base, LastAddress(p.attrs[slot].base, descs[slot].imageSize);
      var checkedBase, checkedEnd := p.attrs[id].base, LastAddress(p.attrs[id].base, size);
      if end <= base then Trap(210)
      else if end < checkedBase || checkedEnd < base then Clear
      else Clash
  }

  function CheckOverlaps(p: Platform, descs: map<U32, Desc>, ids: seq<U32>, id: U32, size: U32, i: nat): OverlapResult
    requires id in p.attrs && size > 0 && i <= |ids|
    decreases |ids| - i
  {
    if i == |ids| then Clear
    else
      var r := CheckSlot(p, descs, ids[i], id, size);
      if r.Clear? then CheckOverlaps(p, descs, ids, id, size, i + 1) else r
  }

  // --------------------------------------------------------------- handlers

  predicate KnownImage(p: Platform, s: Fwu, id: U32) {
    id in p.attrs && id in s.descs
  }

  function SetDesc(s: Fwu, id: U32, d: Desc): Fwu {
    s.(descs := s.descs[id := d])
  }

  predicate AddressOverflow(src: nat, size: nat) {
    src + size >= ADDRESS_SPACE
  }

  /** mapped and preLoadOk are the platform's answers to the two platform hooks. */
  function ImageCopy(p: Platform, s: Fwu, id: U32, src: nat, blockSize: U32, imageSize: U32,
                     mapped: bool, preLoadOk: bool): Outcome
  {
    if !KnownImage(p, s, id) then Return(EPerm, s)
    else
      var d := s.descs[id];
      if s.world == Secure || p.attrs[id].world == NonSecure then Return(EPerm, s)
      else if d.state != Reset && d.state != Copying then Return(EPerm, s)
      else if src == 0 || blockSize == 0 || AddressOverflow(src, blockSize) then Return(ENoMem, s)
      else if d.state == Copying then
        if d.copiedSize == 0 then AssertFailed(277)
        else if d.imageSize == 0 then AssertFailed(283)
        else if d.copiedSize >= d.imageSize then AssertFailed(284)
        else CopyBlock(p, s, id, src, blockSize, mapped, preLoadOk)
      else if imageSize == 0 || imageSize > p.attrs[id].maxSize then Return(ENoMem, s)
      else
        match CheckOverlaps(p, s.descs, s.loaded, id, imageSize, 0)
        case Trap(line) => AssertFailed(line)
        case Clash => Return(EPerm, SetDesc(s, id, d.(imageSize := 0)))
        case Clear =>
          CopyBlock(p, SetDesc(s, id, d.(imageSize := imageSize, copiedSize := 0)),
                    id, src, blockSize, mapped, preLoadOk)
  }

  function Min(a: int, b: int): int {
    if a < b then a else b
  }

  /** The tail of a copy, once size and copied size are settled in the descriptor. */
  function CopyBlock(p: Platform, s: Fwu, id: U32, src: nat, blockSize: U32,
                     mapped: bool, preLoadOk: bool): Outcome
    requires KnownImage(p, s, id)
    requires s.descs[id].copiedSize < s.descs[id].imageSize
  {
    var d := s.descs[id];
    var remaining := d.imageSize - d.copiedSize;
    var size := Min(blockSize, remaining);
    if !mapped || src + size > |s.mem| then Return(ENoMem, s)
    else
      match AddLoaded(s.loaded, id)
      case Full => Return(ENoMem, s)
      case Fits(ids) =>
        if d.state == Reset && !preLoadOk then Return(EPerm, s.(loaded := RemoveOrKeep(ids, id)))
        else
          var data := s.mem[src..src + size];
          Return(Success, s.(
            descs := s.descs[id := Desc(if size == remaining then Copied else Copying,
                                        d.copiedSize + size, d.imageSize)],
            loaded := ids,
            mem := Store(s.mem, p.attrs[id].base + d.copiedSize, data),
            byCopy := s.byCopy + {id}))
  }

  /** verifyOk is what authentication of these bytes answers. */
  function ImageAuth(p: Platform, s: Fwu, id: U32, src: nat, size: U32,
                     mapped: bool, verifyOk: bool, postLoadOk: bool): Outcome
  {
    if !KnownImage(p, s, id) then Return(EPerm, s)
    else
      var d := s.descs[id];
      var expected := if s.world == NonSecure && p.attrs[id].world == Secure then Copied else Reset;
      if d.state != expected then Return(EPerm, s)
      else if d.state == Copied then
        var content := Region(s.mem, p.attrs[id].base, d.imageSize);
        if !verifyOk then
          Return(EAuth, s.(
            descs := s.descs[id := d.(state := Reset)],
            loaded := RemoveOrKeep(s.loaded, id),
            mem := Store(s.mem, p.attrs[id].base, Zeros(d.imageSize))))
        else Authenticate(s, id, d, content, postLoadOk)
      else if src == 0 || size == 0 || AddressOverflow(src, size) then Return(ENoMem, s)
      else if !mapped || src + size > |s.mem| then Return(ENoMem, s)
      else
        match AddLoaded(s.loaded, id)
        case Full => Return(ENoMem, s)
        case Fits(ids) =>
          var d' := d.(imageSize := size);
          if !verifyOk then
            Return(EAuth, SetDesc(s, id, d').(loaded := RemoveOrKeep(ids, id)))
          else Authenticate(s.(loaded := ids, byCopy := s.byCopy - {id}), id, d', s.mem[src..src + size], postLoadOk)
  }

  function Authenticate(s: Fwu, id: U32, d: Desc, content: seq<Byte>, postLoadOk: bool): Outcome {
    if !postLoadOk then PlatformError
    else Return(Success, SetDesc(s, id, d.(state := Authenticated)).(verified := s.verified[id := content]))
  }

  function ImageExecute(p: Platform, s: Fwu, id: U32): Outcome {
    if !KnownImage(p, s, id) || s.world == Secure || p.attrs[id].world == NonSecure
       || !p.attrs[id].executable || s.descs[id].state != Authenticated
    then Return(EPerm, s)
    else Return(Success, SetDesc(s, id, s.descs[id].(state := Executed)).(secExec := id, world := Secure))
  }

  function ImageResume(p: Platform, s: Fwu): Outcome {
    if !KnownImage(p, s, s.secExec) then
      if s.world == NonSecure then Return(EPerm, s) else AssertFailed(574)
    else
      var d := s.descs[s.secExec];
      if p.attrs[s.secExec].world != Secure then AssertFailed(577)
      else if !p.attrs[s.secExec].executable then AssertFailed(578)
      else if s.world == Secure then
        if d.state != Executed then AssertFailed(581)
        else Return(Success, SetDesc(s, s.secExec, d.(state := Interrupted)).(world := NonSecure))
      else
        if d.state != Interrupted then AssertFailed(587)
        else Return(Success, SetDesc(s, s.secExec, d.(state := Executed)).(world := Secure))
  }

  function SecImageDone(p: Platform, s: Fwu): Outcome {
    if s.world == NonSecure then Return(EPerm, s)
    else if !KnownImage(p, s, s.secExec) then AssertFailed(637)
    else
      var d := s.descs[s.secExec];
      if p.attrs[s.secExec].world != Secure then AssertFailed(638)
      else if !p.attrs[s.secExec].executable then AssertFailed(639)
      else if d.state != Executed then AssertFailed(640)
      else
        match RemoveLoaded(s.loaded, s.secExec)
        case Full => AssertFailed(644)
        case Fits(ids) =>
          Return(Success, SetDesc(s, s.secExec, d.(state := Reset)).(
            loaded := ids, secExec := INVALID_IMAGE_ID, world := NonSecure))
  }

  function ImageReset(p: Platform, s: Fwu, id: U32): Outcome {
    if !KnownImage(p, s, id) || s.world == Secure then Return(EPerm, s)
    else
      var d := s.descs[id];
      match d.state
      case Reset => Return(Success, s)
      case Executed => AssertFailed(744)
      case _ =>
        match RemoveLoaded(s.loaded, id)
        case Full => Return(EPerm, s)
        case Fits(ids) =>
          if d.copiedSize != 0 && p.attrs[id].world != Secure then AssertFailed(723)
          else
            Return(Success, s.(
              descs := s.descs[id := Desc(Reset, 0, 0)],
              loaded := ids,
              mem := if d.copiedSize != 0 then Store(s.mem, p.attrs[id].base, Zeros(d.copiedSize)) else s.mem))
  }

  // ------------------------------------------------------------------- runs

  datatype Event =
    | Copy(id: U32, src: nat, blockSize: U32, imageSize: U32, mapped: bool, preLoadOk: bool)
    | Auth(id: U32, src: nat, size: U32, mapped: bool, verifyOk: bool, postLoadOk: bool)
    | Execute(id: U32)
    | Resume
    | Done
    | ResetImage(id: U32)
    | Environment(mem: seq<Byte>)

  /** States in which an image's bytes are still BL1's: copied or verified, never yet run. */
  predicate Held(state: ImageState) {
    state == Copying || state == Copied || state == Authenticated
  }

  /**
   Between SMCs the running world may write memory, but not the secure images
   that BL1 holds: the normal world cannot reach secure RAM, and a running
   secure image leaves the others alone.
   */
  ghost predicate EnvironmentOk(p: Platform, s: Fwu, mem: seq<Byte>) {
    && |mem| == |s.mem|
    && forall id :: id in s.descs && id in p.attrs && p.attrs[id].world == Secure && Held(s.descs[id].state) ==>
         Region(mem, p.attrs[id].base, s.descs[id].imageSize)
         == Region(s.mem, p.attrs[id].base, s.descs[id].imageSize)
  }

  function Step(p: Platform, s: Fwu, e: Event): Outcome {
    match e
    case Copy(id, src, blockSize, imageSize, mapped, preLoadOk) =>
      ImageCopy(p, s, id, src, blockSize, imageSize, mapped, preLoadOk)
    case Auth(id, src, size, mapped, verifyOk, postLoadOk) =>
      ImageAuth(p, s, id, src, size, mapped, verifyOk, postLoadOk)
    case Execute(id) => ImageExecute(p, s, id)
    case Resume => ImageResume(p, s)
    case Done => SecImageDone(p, s)
    case ResetImage(id) => ImageReset(p, s, id)
    case Environment(mem) => Return(Success, s.(mem := mem))
  }

  ghost predicate Legal(p: Platform, s: Fwu, e: Event) {
    e.Environment? ==> EnvironmentOk(p, s, e.mem)
  }

  /** Secure-world authentication is in place, and the one path that leaves a stale copied size in use. */
  predicate SecureInPlaceAuth(s: Fwu, e: Event) {
    e.Auth? && s.world == Secure
  }

  /** The state when BL1 has started the normal-world updater: nothing loaded yet. */
  predicate Initial(p: Platform, s: Fwu) {
    && s.descs.Keys == p.attrs.Keys
    && (forall id :: id in s.descs ==>
          s.descs[id] == Desc(if id == p.bootId then Executed else Reset, 0, 0))
    && (forall i :: 0 <= i < |s.loaded| ==> s.loaded[i] == INVALID_IMAGE_ID)
    && s.secExec == INVALID_IMAGE_ID
    && s.world == NonSecure
    && |s.mem| == p.memSize
  }

  predicate StepsTo(p: Platform, s: Fwu, e: Event, s': Fwu) {
    var r := Step(p, s, e);
    r.Return? && r.next == s'
  }

  /** A run: states[i] takes the legal event es[i] to states[i + 1]; no event ended it. */
  ghost predicate IsRun(p: Platform, states: seq<Fwu>, es: seq<Event>) {
    && |states| == |es| + 1
    && Initial(p, states[0])
    && forall i :: 0 <= i < |es| ==> Legal(p, states[i], es[i]) && StepsTo(p, states[i], es[i], states[i + 1])
  }

  /** A run in which what the secure world authenticates in place never has a copied size left over. */
  ghost predicate CleanInPlace(states: seq<Fwu>, es: seq<Event>)
    requires |states| == |es| + 1
  {
    forall i :: 0 <= i < |es| && SecureInPlaceAuth(states[i], es[i]) && es[i].id in states[i].descs ==>
      states[i].descs[es[i].id].copiedSize == 0
  }
}
