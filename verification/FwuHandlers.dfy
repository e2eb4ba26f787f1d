/**
 The firmware-update handlers as BL1 runs them: descriptors, the loaded-ID
 array and memory are updated in place. Every handler is proved to do what its
 specification function says.
 */
module FwuHandlers {
  import opened FwuSpec

  /** What a handler does: return a code, or stop in an assertion or a platform error. */
  datatype Reply = Replied(code: Code) | Asserted(line: nat) | Died

  /** The overlap check never looks at the descriptor of the image being checked. */
  lemma {:induction false} OwnDescriptorIgnored(p: Platform, descs: map<U32, Desc>, d: Desc, ids: seq<U32>, id: U32,
                                                size: U32, i: nat)
    requires id in p.attrs && size > 0 && i <= |ids|
    ensures CheckOverlaps(p, descs[id := d], ids, id, size, i) == CheckOverlaps(p, descs, ids, id, size, i)
    decreases |ids| - i
  {
    if i < |ids| {
      OwnDescriptorIgnored(p, descs, d, ids, id, size, i + 1);
    }
  }

  class FirmwareUpdate {
    const plat: Platform
    const loadedIds: array<U32>
    var descs: map<U32, Desc>
    var secExec: U32
    var running: World
    var mem: seq<Byte>
    ghost var byCopy: set<U32>
    ghost var verified: map<U32, seq<Byte>>

    ghost function State(): Fwu
      reads this, loadedIds
    {
      Fwu(descs, loadedIds[..], secExec, running, mem, byCopy, verified)
    }

    /** The handler's reply and the new state are those of a specified outcome. */
    ghost predicate Does(reply: Reply, outcome: Outcome)
      reads this, loadedIds
    {
      match outcome
      case Return(code, next) => reply == Replied(code) && State() == next
      case AssertFailed(line) => reply == Asserted(line)
      case PlatformError => reply == Died
    }

    constructor (plat: Platform, slots: nat, mem: seq<Byte>)
      requires PlatformOk(plat) && |mem| == plat.memSize
      ensures this.plat == plat && loadedIds.Length == slots && this.mem == mem && fresh(loadedIds)
      ensures Initial(plat, State())
    {
      this.plat := plat;
      this.loadedIds := new U32[slots](_ => INVALID_IMAGE_ID);
      descs := map id | id in plat.attrs :: Desc(if id == plat.bootId then Executed else ImageState.Reset, 0, 0);
      secExec := INVALID_IMAGE_ID;
      running := NonSecure;
      this.mem := mem;
      byCopy, verified := {}, map[];
    }

    method AddLoadedId(id: U32) returns (ok: bool)
      modifies loadedIds
      ensures match AddLoaded(old(loadedIds[..]), id)
              case Fits(ids) => ok && loadedIds[..] == ids
              case Full => !ok && loadedIds[..] == old(loadedIds[..])
    {
      for i := 0 to loadedIds.Length
        invariant FindSlot(loadedIds[..], id, 0) == FindSlot(loadedIds[..], id, i)
        invariant loadedIds[..] == old(loadedIds[..])
      {
        if loadedIds[i] == id {
          return true;
        }
      }
      for i := 0 to loadedIds.Length
        invariant FindSlot(loadedIds[..], INVALID_IMAGE_ID, 0) == FindSlot(loadedIds[..], INVALID_IMAGE_ID, i)
        invariant loadedIds[..] == old(loadedIds[..])
      {
        if loadedIds[i] == INVALID_IMAGE_ID {
          loadedIds[i] := id;
          return true;
        }
      }
      return false;
    }

    method RemoveLoadedId(id: U32) returns (ok: bool)
      modifies loadedIds
      ensures match RemoveLoaded(old(loadedIds[..]), id)
              case Fits(ids) => ok && loadedIds[..] == ids
              case Full => !ok && loadedIds[..] == old(loadedIds[..])
    {
      for i := 0 to loadedIds.Length
        invariant FindSlot(loadedIds[..], id, 0) == FindSlot(loadedIds[..], id, i)
        invariant loadedIds[..] == old(loadedIds[..])
      {
        if loadedIds[i] == id {
          loadedIds[i] := INVALID_IMAGE_ID;
          return true;
        }
      }
      return false;
    }

    method ImageCheckOverlaps(id: U32) returns (r: OverlapResult)
      requires id in plat.attrs && id in descs && descs[id].imageSize > 0
      ensures r == CheckOverlaps(plat, descs, loadedIds[..], id, descs[id].imageSize, 0)
    {
      var checkedBase := plat.attrs[id].base;
      var checkedEnd := (checkedBase + descs[id].imageSize - 1) % ADDRESS_SPACE;
      for i := 0 to loadedIds.Length
        invariant CheckOverlaps(plat, descs, loadedIds[..], id, descs[id].imageSize, 0)
               == CheckOverlaps(plat, descs, loadedIds[..], id, descs[id].imageSize, i)
      {
        var slot := loadedIds[i];
        if slot == INVALID_IMAGE_ID || slot == id {
          continue;
        }
        if slot !in plat.attrs || slot !in descs || descs[slot].state == ImageState.Reset {
          return Trap(195);
        }
        if descs[slot].imageSize == 0 {
          continue;
        }
        var base := plat.attrs[slot].base;
        var end := (base + descs[slot].imageSize - 1) % ADDRESS_SPACE;
        if !(end > base) {
          return Trap(210);
        }
        if !(end < checkedBase || checkedEnd < base) {
          return Clash;
        }
      }
      return Clear;
    }

    /** memcpy into image id at its copied size, and the descriptor update that follows. */
    method CopyBlockIn(id: U32, src: nat, blockSize: U32, mapped: bool, preLoadOk: bool) returns (r: Reply)
      requires KnownImage(plat, State(), id) && descs[id].copiedSize < descs[id].imageSize
      modifies this, loadedIds
      ensures Does(r, CopyBlock(plat, old(State()), id, src, blockSize, mapped, preLoadOk))
    {
      var d := descs[id];
      var remaining := d.imageSize - d.copiedSize;
      var size := blockSize;
      if size > remaining {
        size := remaining;
      }
      if !mapped || src + size > |mem| {
        return Replied(ENoMem);
      }
      var ok := AddLoadedId(id);
      if !ok {
        return Replied(ENoMem);
      }
      if d.state == ImageState.Reset && !preLoadOk {
        var _ := RemoveLoadedId(id);
        return Replied(EPerm);
      }
      var data := mem[src..src + size];
      mem := Store(mem, plat.attrs[id].base + d.copiedSize, data);
      byCopy := byCopy + {id};
      descs := descs[id := Desc(if size == remaining then Copied else Copying, d.copiedSize + size, d.imageSize)];
      return Replied(Success);
    }

    method ImageCopyHandler(id: U32, src: nat, blockSize: U32, imageSize: U32, mapped: bool, preLoadOk: bool)
      returns (r: Reply)
      modifies this, loadedIds
      ensures Does(r, ImageCopy(plat, old(State()), id, src, blockSize, imageSize, mapped, preLoadOk))
    {
      if id !in plat.attrs || id !in descs {
        return Replied(EPerm);
      }
      var d := descs[id];
      if running == Secure || plat.attrs[id].world == NonSecure {
        return Replied(EPerm);
      }
      if d.state != ImageState.Reset && d.state != Copying {
        return Replied(EPerm);
      }
      if src == 0 || blockSize == 0 || src + blockSize >= ADDRESS_SPACE {
        return Replied(ENoMem);
      }
      if d.state == Copying {
        if d.copiedSize == 0 {
          return Asserted(277);
        }
        if d.imageSize == 0 {
          return Asserted(283);
        }
        if !(d.copiedSize < d.imageSize) {
          return Asserted(284);
        }
      } else {
        if imageSize == 0 || imageSize > plat.attrs[id].maxSize {
          return Replied(ENoMem);
        }
        descs := descs[id := d.(imageSize := imageSize)];
        var overlap := ImageCheckOverlaps(id);
        OwnDescriptorIgnored(plat, old(descs), descs[id], loadedIds[..], id, imageSize, 0);
        if overlap.Trap? {
          return Asserted(overlap.line);
        }
        if overlap.Clash? {
          descs := descs[id := descs[id].(imageSize := 0)];
          return Replied(EPerm);
        }
        descs := descs[id := descs[id].(copiedSize := 0)];
        assert State() == SetDesc(old(State()), id, d.(imageSize := imageSize, copiedSize := 0));
      }
      r := CopyBlockIn(id, src, blockSize, mapped, preLoadOk);
    }

    method ImageAuthHandler(id: U32, src: nat, size: U32, mapped: bool, verifyOk: bool, postLoadOk: bool)
      returns (r: Reply)
      modifies this, loadedIds
      ensures Does(r, ImageAuth(plat, old(State()), id, src, size, mapped, verifyOk, postLoadOk))
    {
      if id !in plat.attrs || id !in descs {
        return Replied(EPerm);
      }
      var state := descs[id].state;
      if running == Secure {
        if state != ImageState.Reset {
          return Replied(EPerm);
        }
      } else if plat.attrs[id].world == Secure {
        if state != Copied {
          return Replied(EPerm);
        }
      } else if state != ImageState.Reset {
        return Replied(EPerm);
      }
      var base, total := plat.attrs[id].base, descs[id].imageSize;
      if state != Copied {
        if src == 0 || size == 0 || src + size >= ADDRESS_SPACE {
          return Replied(ENoMem);
        }
        if !mapped || src + size > |mem| {
          return Replied(ENoMem);
        }
        var added := AddLoadedId(id);
        if !added {
          return Replied(ENoMem);
        }
        base, total := src, size;
        descs := descs[id := descs[id].(imageSize := total)];
      }
      if !verifyOk {
        if state == Copied {
          mem := Store(mem, base, Zeros(total));
          descs := descs[id := descs[id].(state := ImageState.Reset)];
        }
        var _ := RemoveLoadedId(id);
        return Replied(EAuth);
      }
      if state != Copied {
        byCopy := byCopy - {id};
      }
      verified := verified[id := Region(mem, base, total)];
      descs := descs[id := descs[id].(state := Authenticated)];
      if !postLoadOk {
        return Died;
      }
      return Replied(Success);
    }

    method ImageExecuteHandler(id: U32) returns (r: Reply)
      modifies this
      ensures Does(r, ImageExecute(plat, old(State()), id))
    {
      if id !in plat.attrs || id !in descs || running == Secure || plat.attrs[id].world == NonSecure
         || !plat.attrs[id].executable || descs[id].state != Authenticated {
        return Replied(EPerm);
      }
      descs := descs[id := descs[id].(state := Executed)];
      secExec := id;
      running := Secure;
      return Replied(Success);
    }

    method ImageResumeHandler() returns (r: Reply)
      modifies this
      ensures Does(r, ImageResume(plat, old(State())))
    {
      var known := secExec in plat.attrs && secExec in descs;
      if running == NonSecure {
        if !known {
          return Replied(EPerm);
        }
      } else if !known {
        return Asserted(574);
      }
      if plat.attrs[secExec].world != Secure {
        return Asserted(577);
      }
      if !plat.attrs[secExec].executable {
        return Asserted(578);
      }
      if running == Secure {
        if descs[secExec].state != Executed {
          return Asserted(581);
        }
        descs := descs[secExec := descs[secExec].(state := Interrupted)];
        running := NonSecure;
      } else {
        if descs[secExec].state != Interrupted {
          return Asserted(587);
        }
        descs := descs[secExec := descs[secExec].(state := Executed)];
        running := Secure;
      }
      return Replied(Success);
    }

    method SecImageDoneHandler() returns (r: Reply)
      modifies this, loadedIds
      ensures Does(r, SecImageDone(plat, old(State())))
    {
      if running == NonSecure {
        return Replied(EPerm);
      }
      if secExec !in plat.attrs || secExec !in descs {
        return Asserted(637);
      }
      if plat.attrs[secExec].world != Secure {
        return Asserted(638);
      }
      if !plat.attrs[secExec].executable {
        return Asserted(639);
      }
      if descs[secExec].state != Executed {
        return Asserted(640);
      }
      var ok := RemoveLoadedId(secExec);
      if !ok {
        return Asserted(644);
      }
      descs := descs[secExec := descs[secExec].(state := ImageState.Reset)];
      secExec := INVALID_IMAGE_ID;
      running := NonSecure;
      return Replied(Success);
    }

    method ImageResetHandler(id: U32) returns (r: Reply)
      modifies this, loadedIds
      ensures Does(r, ImageReset(plat, old(State()), id))
    {
      if id !in plat.attrs || id !in descs || running == Secure {
        return Replied(EPerm);
      }
      match descs[id].state
      case Reset =>
        return Replied(Success);
      case Executed =>
        return Asserted(744);
      case _ =>
        var ok := RemoveLoadedId(id);
        if !ok {
          return Replied(EPerm);
        }
        if descs[id].copiedSize != 0 {
          if plat.attrs[id].world != Secure {
            return Asserted(723);
          }
          mem := Store(mem, plat.attrs[id].base, Zeros(descs[id].copiedSize));
        }
        descs := descs[id := Desc(ImageState.Reset, 0, 0)];
        return Replied(Success);
    }
  }
}
