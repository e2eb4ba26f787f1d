/** The image object of the signing tool, and its loops over the images of a file. */
module SignedTaTool {
  import opened Wrappers
  import opened Bytes
  import opened SignedTa
  import opened SignedTaChain

  class BinaryImage {
    const c: Crypto
    const inf: seq<Byte>
    const key: PublicKey
    var shdr: seq<Byte>
    var sigAlgo: Alg
    var imgDigest: seq<Byte>
    var sig: seq<Byte>
    var body: Option<Body>

    constructor (c0: Crypto, bytes: seq<Byte>, k: PublicKey)
      ensures c == c0 && inf == bytes && key == k && body == None
    {
      c, inf, key := c0, bytes, k;
      shdr, sigAlgo, imgDigest, sig, body := [], Pss, [], [], None;
    }

    /** What parsing has filled in. */
    function Seen(): Image
      requires body.Some?
      reads this
    {
      Image(shdr, sigAlgo, imgDigest, sig, body.value)
    }

    method LookUpAttr(offs: nat, attr: nat, count: nat) returns (r: Option<seq<Byte>>)
      ensures r == FindAttr(inf, offs, attr, 0, count)
    {
      if count <= 0 {
        return None;
      }
      for n := 0 to count
        invariant FindAttr(inf, offs, attr, 0, count) == FindAttr(inf, offs, attr, n, count)
      {
        var entry := Slice(inf, offs + UUID_SIZE + SK_HDR_SIZE + n * 12, 12);
        if |entry| != 12 {
          return None;
        }
        if Word(entry, 0, 4) == attr {
          return Some(Slice(inf, offs + Word(entry, 4, 4), Word(entry, 8, 4)));
        }
      }
      return None;
    }

    method ReadTa(start: nat, encrypted: bool, imgSize: nat) returns (b: Option<Body>)
      ensures b == if encrypted then ParseEncrypted(inf, start, imgSize) else ParseBootstrap(inf, start, imgSize)
    {
      var offs := start;
      var taUuid := Slice(inf, offs, UUID_SIZE);
      offs := offs + UUID_SIZE;
      var taVersion := Slice(inf, offs, 4);
      offs := offs + 4;
      if encrypted {
        var ehdr := Slice(inf, offs, EHDR_SIZE);
        offs := offs + EHDR_SIZE;
        if |ehdr| != EHDR_SIZE || Word(ehdr, 0, 4) != AES_GCM {
          return None;
        }
        var nonceLen := Word(ehdr, 8, 2);
        if nonceLen != 12 {
          return None;
        }
        var nonce := Slice(inf, offs, nonceLen);
        offs := offs + nonceLen;
        var tagLen := Word(ehdr, 10, 2);
        if tagLen != 16 {
          return None;
        }
        var tag := Slice(inf, offs, tagLen);
        offs := offs + tagLen;
        var ciphertext := From(inf, offs);
        if |ciphertext| != imgSize {
          return None;
        }
        return Some(Encrypted(taUuid, taVersion, ehdr, nonce, tag, ciphertext));
      }
      var img := From(inf, offs);
      if |img| != imgSize {
        return None;
      }
      return Some(Bootstrap(taUuid, taVersion, img));
    }

    method ReadKey(start: nat, count: nat) returns (r: Option<PublicKey>)
      ensures r == ParseKey(c, inf, start, count)
    {
      var n := LookUpAttr(start, RSA_MODULUS, count);
      var e := LookUpAttr(start, RSA_PUBLIC_EXPONENT, count);
      if n.None? || e.None? {
        return None;
      }
      var subkey := PublicKey(FromBe(n.value), FromBe(e.value));
      return if c.usable(subkey) then Some(subkey) else None;
    }

    method ReadSubkey(start: nat, imgSize: nat) returns (b: Option<Body>)
      ensures b == ParseSubkey(c, inf, start, imgSize)
    {
      var hdr := Slice(inf, start + UUID_SIZE, SK_HDR_SIZE);
      if |hdr| != SK_HDR_SIZE {
        return None;
      }
      var subkey := ReadKey(start, Word(hdr, 16, 4));
      if subkey.None? {
        return None;
      }
      return SubkeyRest(inf, start, imgSize, hdr, subkey.value);
    }

    /** false is an exception. */
    method ParseImage() returns (ok: bool)
      modifies this
      ensures ok == Parse(c, inf).Some?
      ensures ok ==> body.Some? && Parse(c, inf) == Some(Seen())
    {
      var offs := 0;
      shdr := Slice(inf, offs, SHDR_SIZE);
      offs := offs + SHDR_SIZE;
      var header := ParseHeader(shdr);
      if header.None? {
        return false;
      }
      var h := header.value;
      sigAlgo := h.alg;
      imgDigest := Slice(inf, offs, HASH_SIZE);
      offs := offs + HASH_SIZE;
      sig := Slice(inf, offs, h.sigSize);
      offs := offs + h.sigSize;
      if h.typ == SHDR_BOOTSTRAP_TA || h.typ == SHDR_ENCRYPTED_TA {
        body := ReadTa(offs, h.typ == SHDR_ENCRYPTED_TA, h.size);
      } else if h.typ == SHDR_SUBKEY {
        body := ReadSubkey(offs, h.size);
      } else {
        body := None;
      }
      assert ParseFront(inf) == Some(Front(shdr, h, imgDigest, sig, offs));
      assert body == ParseBody(c, inf, h.typ, offs, h.size);
      return body.Some?;
    }
  }

  /** The subkey that a new image is to be put behind: walk to the last one of the file. */
  method FindLastSubkey(c: Crypto, file: seq<Byte>, anyKey: PublicKey) returns (last: Option<Body>)
    ensures last == LastSubkey(c, file)
  {
    var image := new BinaryImage(c, file, anyKey);
    var ok := image.ParseImage();
    if !ok || !image.body.value.Subkey? {
      return None;
    }
    while image.body.value.next != []
      invariant fresh(image) && image.c == c && image.body.Some? && image.body.value.Subkey?
      invariant Parse(c, image.inf) == Some(image.Seen())
      invariant LastSubkey(c, file) == LastSubkey(c, image.inf)
      decreases |image.inf|
    {
      NextIsShorter(c, image.inf);
      image := new BinaryImage(c, image.body.value.next, anyKey);
      ok := image.ParseImage();
      if !ok || !image.body.value.Subkey? {
        return None;
      }
    }
    return image.body;
  }

  /** Authentic, as the tool checks it: the signature first, then the digest. */
  method CheckAuthentic(image: BinaryImage, content: seq<Byte>) returns (ok: bool)
    requires image.body.Some?
    ensures ok == Authentic(image.c, image.Seen(), image.key, content)
  {
    if !image.c.verify(image.key, image.sigAlgo, image.sig, image.imgDigest) {
      return false;
    }
    return image.imgDigest == image.c.digest(image.shdr + content);
  }

  method CheckApp(image: BinaryImage, encKey: Option<seq<Byte>>, uuid: Uuid, want: Want) returns (ok: bool)
    requires image.body.Some? && !image.body.value.Subkey?
    ensures ok == AppVerifies(image.c, encKey, uuid, image.Seen(), image.key, want)
  {
    var b := image.body.value;
    if |b.taUuid| != UUID_SIZE || !Meets(want, b.taUuid) {
      return false;
    }
    var content := [];
    match b {
      case Bootstrap(u, v, img) => content := u + v + img;
      case Encrypted(u, v, ehdr, nonce, tag, text) =>
        if encKey.None? {
          return false;
        }
        var plain := image.c.decrypt(encKey.value, nonce, text + tag);
        if plain.None? {
          return false;
        }
        content := u + v + (ehdr + nonce + tag) + plain.value;
    }
    ok := CheckAuthentic(image, content);
    ok := ok && b.taUuid == uuid;
  }

  method CheckSubkey(image: BinaryImage, want: Want, depth: int) returns (ok: bool)
    requires image.body.Some? && image.body.value.Subkey?
    ensures ok == SubkeyVerifies(image.c, image.Seen(), image.key, want, depth)
  {
    ok := CheckAuthentic(image, image.body.value.img);
    if !ok || !Meets(want, image.body.value.uuid) {
      return false;
    }
    return depth < 0 || image.body.value.maxDepth < depth;
  }

  /** verify: walk the chain, and end on every input. */
  method CommandVerify(c: Crypto, encKey: Option<seq<Byte>>, uuid: Uuid, inf: seq<Byte>, key: PublicKey)
    returns (accepted: bool)
    ensures accepted == Verify(c, encKey, uuid, inf, key)
  {
    var image := new BinaryImage(c, inf, key);
    var want := Anything;
    var depth: int := -1;
    while true
      invariant fresh(image) && image.c == c
      invariant Verify(c, encKey, uuid, inf, key) == VerifyFrom(c, encKey, uuid, image.inf, image.key, want, depth)
      decreases |image.inf|
    {
      var ok := image.ParseImage();
      if !ok {
        return false;
      }
      var b := image.body.value;
      if !b.Subkey? {
        accepted := CheckApp(image, encKey, uuid, want);
        return;
      }
      ok := CheckSubkey(image, want, depth);
      if !ok {
        return false;
      }
      if b.next == [] {
        return true;
      }
      var wanted := WantAfter(c, b);
      if wanted.None? {
        return false;
      }
      NextIsShorter(c, image.inf);
      want, depth := wanted.value, b.maxDepth;
      image := new BinaryImage(c, b.next, b.key);
    }
  }
}
