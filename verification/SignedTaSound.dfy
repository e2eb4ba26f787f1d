/** Exactly which files verification accepts, said about all images of a file at once. */
module SignedTaSound {
  import opened Wrappers
  import opened Bytes
  import opened SignedTa
  import opened SignedTaChain
  import opened SignedTaAccept
  import opened SignedTaVerify

  function Identity(b: Body): seq<Byte> {
    if b.Subkey? then b.uuid else b.taUuid
  }

  /** What the digest of an image is taken of, behind its header; None where it does not decrypt. */
  function Content(c: Crypto, encKey: Option<seq<Byte>>, b: Body): Option<seq<Byte>> {
    match b
    case Bootstrap(u, v, img) => Some(u + v + img)
    case Subkey(_, _, _, _, _, _, img, _, _) => Some(img)
    case Encrypted(u, v, ehdr, nonce, tag, text) =>
      if encKey.None? then None
      else
        match c.decrypt(encKey.value, nonce, text + tag)
        case None => None
        case Some(plain) => Some(u + v + ehdr + nonce + tag + plain)
  }

  /**
   The signature is one of the digest under this key, the digest is that of
   header and content, and an application decrypts and is the one asked for.
   */
  predicate SelfOk(c: Crypto, encKey: Option<seq<Byte>>, uuid: Uuid, im: Image, key: PublicKey) {
    && c.verify(key, im.alg, im.sig, im.digest)
    && Content(c, encKey, im.body).Some? && im.digest == c.digest(im.shdr + Content(c, encKey, im.body).value)
    && (!im.body.Subkey? ==> im.body.taUuid == uuid)
  }

  lemma SelfOkIsChecked(c: Crypto, encKey: Option<seq<Byte>>, uuid: Uuid, im: Image, key: PublicKey)
    ensures im.body.Subkey? ==> (SelfOk(c, encKey, uuid, im, key) <==> Authentic(c, im, key, im.body.img))
    ensures !im.body.Subkey? ==>
              (SelfOk(c, encKey, uuid, im, key) <==> AppVerifies(c, encKey, uuid, im, key, Anything))
  {
    match im.body
    case Encrypted(u, v, ehdr, nonce, tag, text) =>
      if encKey.Some? && c.decrypt(encKey.value, nonce, text + tag).Some? {
        var plain := c.decrypt(encKey.value, nonce, text + tag).value;
        assert u + v + ehdr + nonce + tag + plain == u + v + (ehdr + nonce + tag) + plain;
      }
    case _ =>
  }

  /** The image's identity is derived from the subkey in front of it, by a name, and its depth is smaller. */
  predicate Follows(c: Crypto, front: Body, b: Body) {
    && front.Subkey? && front.nameSize > 0 && c.utf8(front.nameImg)
    && Identity(b) == c.uuid5(front.uuid, NameText(front.nameImg))
    && (b.Subkey? ==> b.maxDepth < front.maxDepth)
  }

  /** The key that has to have signed image i: the given one, or that of the subkey in front. */
  function KeyFor(ims: seq<Image>, key: PublicKey, i: nat): PublicKey
    requires i < |ims|
  {
    if i == 0 || !ims[i - 1].body.Subkey? then key else ims[i - 1].body.key
  }

  predicate ImageOk(c: Crypto, encKey: Option<seq<Byte>>, uuid: Uuid, ims: seq<Image>, key: PublicKey, i: nat)
    requires i < |ims|
  {
    && SelfOk(c, encKey, uuid, ims[i], KeyFor(ims, key, i))
    && (i > 0 ==> Follows(c, ims[i - 1].body, ims[i].body))
  }

  /** The file ends where its last image does. */
  predicate Ended(ims: seq<Image>) {
    ims != [] && var last := ims[|ims| - 1].body; last.Subkey? ==> last.next == []
  }

  predicate AllOk(c: Crypto, encKey: Option<seq<Byte>>, uuid: Uuid, ims: seq<Image>, key: PublicKey) {
    Ended(ims) && forall i :: 0 <= i < |ims| ==> ImageOk(c, encKey, uuid, ims, key, i)
  }

  /** What is asked of the first image because of what stands in front of the file. */
  predicate FirstOk(b: Body, want: Want, depth: int) {
    Meets(want, Identity(b)) && (b.Subkey? && depth >= 0 ==> b.maxDepth < depth)
  }

  // --------------------------------------------------------------- one by one

  lemma OneOk(c: Crypto, encKey: Option<seq<Byte>>, uuid: Uuid, im: Image, key: PublicKey)
    requires im.body.Subkey? ==> im.body.next == []
    ensures AllOk(c, encKey, uuid, [im], key) <==> SelfOk(c, encKey, uuid, im, key)
  {
    if SelfOk(c, encKey, uuid, im, key) {
      forall i | 0 <= i < |[im]| ensures ImageOk(c, encKey, uuid, [im], key, i) { assert i == 0; }
    }
    if AllOk(c, encKey, uuid, [im], key) { assert ImageOk(c, encKey, uuid, [im], key, 0); }
  }

  /** The rest of a file, its images shifted by one. */
  lemma RestOk(c: Crypto, encKey: Option<seq<Byte>>, uuid: Uuid, im: Image, ims: seq<Image>, key: PublicKey, i: nat)
    requires im.body.Subkey? && 0 < i < |ims| + 1
    ensures ImageOk(c, encKey, uuid, [im] + ims, key, i)
            <==> ImageOk(c, encKey, uuid, ims, im.body.key, i - 1) && (i == 1 ==> Follows(c, im.body, ims[0].body))
  {
    var all := [im] + ims;
    assert all[i] == ims[i - 1];
    assert i > 1 ==> all[i - 1] == ims[i - 2];
  }

  lemma MoreOk(c: Crypto, encKey: Option<seq<Byte>>, uuid: Uuid, im: Image, ims: seq<Image>, key: PublicKey)
    requires im.body.Subkey? && ims != []
    ensures AllOk(c, encKey, uuid, [im] + ims, key)
            <==> && SelfOk(c, encKey, uuid, im, key) && Follows(c, im.body, ims[0].body)
                 && AllOk(c, encKey, uuid, ims, im.body.key)
  {
    var all := [im] + ims;
    assert all[|all| - 1] == ims[|ims| - 1];
    assert ImageOk(c, encKey, uuid, all, key, 0) <==> SelfOk(c, encKey, uuid, im, key);
    forall i | 0 < i < |all|
      ensures ImageOk(c, encKey, uuid, all, key, i)
              <==> ImageOk(c, encKey, uuid, ims, im.body.key, i - 1) && (i == 1 ==> Follows(c, im.body, ims[0].body))
    {
      RestOk(c, encKey, uuid, im, ims, key, i);
    }
    if AllOk(c, encKey, uuid, all, key) {
      forall i | 0 <= i < |ims| ensures ImageOk(c, encKey, uuid, ims, im.body.key, i) {
        assert ImageOk(c, encKey, uuid, all, key, i + 1);
      }
      assert ImageOk(c, encKey, uuid, all, key, 1);
    }
    if SelfOk(c, encKey, uuid, im, key) && Follows(c, im.body, ims[0].body)
      && AllOk(c, encKey, uuid, ims, im.body.key) {
      forall i | 0 <= i < |all| ensures ImageOk(c, encKey, uuid, all, key, i) {
        if i > 0 { assert ImageOk(c, encKey, uuid, ims, im.body.key, i - 1); }
      }
    }
  }

  lemma AppWants(c: Crypto, encKey: Option<seq<Byte>>, uuid: Uuid, im: Image, key: PublicKey, want: Want)
    requires !im.body.Subkey?
    ensures AppVerifies(c, encKey, uuid, im, key, want)
            <==> AppVerifies(c, encKey, uuid, im, key, Anything) && Meets(want, im.body.taUuid)
  {
  }

  /** Wanting what the name says, of something in front of which the subkey stands. */
  lemma FollowsIsWanted(c: Crypto, front: Body, b: Body)
    requires front.Subkey?
    ensures Follows(c, front, b)
            <==> match WantAfter(c, front) case None => false case Some(w) => FirstOk(b, w, front.maxDepth)
  {
  }

  // ------------------------------------------------------------------ the whole

  lemma NoImages(c: Crypto, inf: seq<Byte>)
    ensures Images(c, inf) == [] <==> Parse(c, inf) == None
  {
  }

  lemma LastImage(c: Crypto, inf: seq<Byte>, im: Image)
    requires Parse(c, inf) == Some(im) && (im.body.Subkey? ==> im.body.next == [])
    ensures Images(c, inf) == [im]
  {
  }

  lemma NoneRejects(c: Crypto, encKey: Option<seq<Byte>>, uuid: Uuid, inf: seq<Byte>, key: PublicKey, want: Want,
                    depth: int)
    requires Parse(c, inf) == None
    ensures !VerifyFrom(c, encKey, uuid, inf, key, want, depth)
  {
  }

  /**
   A file as the rest of another: accepted exactly if its images are all right
   and the first fits what stands in front.
   */
  ghost predicate Exact(c: Crypto, encKey: Option<seq<Byte>>, uuid: Uuid, inf: seq<Byte>, key: PublicKey, want: Want,
                        depth: int) {
    VerifyFrom(c, encKey, uuid, inf, key, want, depth)
    <==> AllOk(c, encKey, uuid, Images(c, inf), key) && FirstOk(Images(c, inf)[0].body, want, depth)
  }

  lemma EndIsExact(c: Crypto, encKey: Option<seq<Byte>>, uuid: Uuid, inf: seq<Byte>, key: PublicKey, want: Want,
                   depth: int, im: Image)
    requires Parse(c, inf) == Some(im) && (im.body.Subkey? ==> im.body.next == [])
    ensures Exact(c, encKey, uuid, inf, key, want, depth)
  {
    LastImage(c, inf, im);
    OneOk(c, encKey, uuid, im, key);
    SelfOkIsChecked(c, encKey, uuid, im, key);
    if im.body.Subkey? {
      VerifyStep(c, encKey, uuid, inf, key, want, depth, im);
    } else {
      AppStep(c, encKey, uuid, inf, key, want, depth, im);
      AppWants(c, encKey, uuid, im, key, want);
    }
  }

  /** One subkey with something behind it that is judged exactly. */
  lemma StepIsExact(c: Crypto, encKey: Option<seq<Byte>>, uuid: Uuid, inf: seq<Byte>, key: PublicKey, want: Want,
                    depth: int, im: Image, ims: seq<Image>)
    requires Parse(c, inf) == Some(im) && im.body.Subkey? && im.body.next != []
    requires ims == Images(c, im.body.next)
    requires ims == [] ==> Parse(c, im.body.next) == None
    requires ims != [] && WantAfter(c, im.body).Some? ==>
               Exact(c, encKey, uuid, im.body.next, im.body.key, WantAfter(c, im.body).value, im.body.maxDepth)
    ensures Exact(c, encKey, uuid, inf, key, want, depth)
  {
    ImagesStep(c, inf, im);
    VerifyStep(c, encKey, uuid, inf, key, want, depth, im);
    SelfOkIsChecked(c, encKey, uuid, im, key);
    if ims == [] {
      assert [im] + ims == [im];
      assert !Ended([im]);
      if WantAfter(c, im.body).Some? {
        NoneRejects(c, encKey, uuid, im.body.next, im.body.key, WantAfter(c, im.body).value, im.body.maxDepth);
      }
    } else {
      MoreOk(c, encKey, uuid, im, ims, key);
      FollowsIsWanted(c, im.body, ims[0].body);
      assert ([im] + ims)[0] == im;
    }
  }

  lemma {:induction false} VerifyIsExact(c: Crypto, encKey: Option<seq<Byte>>, uuid: Uuid, inf: seq<Byte>,
                                         key: PublicKey, want: Want, depth: int)
    ensures Exact(c, encKey, uuid, inf, key, want, depth)
    decreases |inf|
  {
    match Parse(c, inf)
    case None =>
      NoImages(c, inf);
      NoneRejects(c, encKey, uuid, inf, key, want, depth);
    case Some(im) =>
      if im.body.Subkey? && im.body.next != [] {
        NextIsShorter(c, inf);
        NoImages(c, im.body.next);
        if WantAfter(c, im.body).Some? {
          VerifyIsExact(c, encKey, uuid, im.body.next, im.body.key, WantAfter(c, im.body).value, im.body.maxDepth);
        }
        StepIsExact(c, encKey, uuid, inf, key, want, depth, im, Images(c, im.body.next));
      } else {
        EndIsExact(c, encKey, uuid, inf, key, want, depth, im);
      }
  }

  /**
   On every input, verification accepts exactly if parsing goes through to the
   end, every image is signed under the key of the subkey in front of it (the
   first under the given key) and has the right digest, every image behind a
   subkey has the identity derived from a name, depths fall, and an application
   is the one asked for and decrypts.
   */
  lemma AcceptedExactlyIfAllRight(c: Crypto, encKey: Option<seq<Byte>>, uuid: Uuid, inf: seq<Byte>, key: PublicKey)
    ensures Verify(c, encKey, uuid, inf, key) <==> AllOk(c, encKey, uuid, Images(c, inf), key)
  {
    VerifyIsExact(c, encKey, uuid, inf, key, Anything, -1);
  }

  // --------------------------------------------------------------- tampering

  /** The part of an image that the content does not belong to. */
  predicate SameFront(a: Image, b: Image) {
    a.shdr == b.shdr && a.digest == b.digest && a.sig == b.sig
  }

  predicate Collide(c: Crypto, x: seq<Byte>, y: seq<Byte>) {
    x != y && c.digest(x) == c.digest(y)
  }

  lemma SameDigestSameContent(c: Crypto, shdr: seq<Byte>, x: seq<Byte>, y: seq<Byte>)
    requires c.digest(shdr + x) == c.digest(shdr + y) && !Collide(c, shdr + x, shdr + y)
    ensures x == y
  {
    assert (shdr + x)[|shdr|..] == x && (shdr + y)[|shdr|..] == y;
  }

  /**
   Of two accepted files, images at the same place with the same header, digest
   and signature have the same content, unless the digest has a collision there.
   */
  lemma TamperingIsNoticed(c: Crypto, encKey: Option<seq<Byte>>, uuid: Uuid, inf: seq<Byte>, inf': seq<Byte>,
                           key: PublicKey, i: nat)
    requires Verify(c, encKey, uuid, inf, key) && Verify(c, encKey, uuid, inf', key)
    requires i < |Images(c, inf)| && i < |Images(c, inf')| && SameFront(Images(c, inf)[i], Images(c, inf')[i])
    ensures var x, y := Content(c, encKey, Images(c, inf)[i].body), Content(c, encKey, Images(c, inf')[i].body);
            && x.Some? && y.Some?
            && (x == y || Collide(c, Images(c, inf)[i].shdr + x.value, Images(c, inf)[i].shdr + y.value))
  {
    AcceptedExactlyIfAllRight(c, encKey, uuid, inf, key);
    AcceptedExactlyIfAllRight(c, encKey, uuid, inf', key);
    var a, b := Images(c, inf)[i], Images(c, inf')[i];
    assert ImageOk(c, encKey, uuid, Images(c, inf), key, i) && ImageOk(c, encKey, uuid, Images(c, inf'), key, i);
    var x, y := Content(c, encKey, a.body).value, Content(c, encKey, b.body).value;
    if !Collide(c, a.shdr + x, a.shdr + y) { SameDigestSameContent(c, a.shdr, x, y); }
  }
}
