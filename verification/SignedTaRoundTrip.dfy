/** Parsing undoes writing, for each kind of container. */
module SignedTaRoundTrip {
  import opened Wrappers
  import opened Bits
  import opened Bytes
  import opened SignedTa

  lemma WordIs(s: seq<Byte>, o: nat, v: nat, n: nat)
    requires At(s, o, ToLe(v, n)) && v < Pow256(n)
    ensures Word(s, o, n) == v
  {
    AtSlice(s, o, ToLe(v, n));
    LeRoundTrip(v, n);
  }

  lemma Word4(s: seq<Byte>, o: nat, v: nat)
    requires At(s, o, ToLe(v, 4)) && v < WORD
    ensures Word(s, o, 4) == v
  {
    Pow256Values();
    WordIs(s, o, v, 4);
  }

  lemma Word2(s: seq<Byte>, o: nat, v: nat)
    requires At(s, o, ToLe(v, 2)) && v < HALF
    ensures Word(s, o, 2) == v
  {
    Pow256Values();
    WordIs(s, o, v, 2);
  }

  lemma HeaderPlaced(h: Header, s: seq<Byte>)
    requires s == HeaderBytes(h)
    ensures At(s, 0, ToLe(SHDR_MAGIC, 4)) && At(s, 4, ToLe(h.typ, 4)) && At(s, 8, ToLe(h.size, 4))
    ensures At(s, 12, ToLe(AlgValue(h.alg), 4)) && At(s, 16, ToLe(HASH_SIZE, 2)) && At(s, 18, ToLe(h.sigSize, 2))
  {
    var a, b, d, e := ToLe(SHDR_MAGIC, 4), ToLe(h.typ, 4), ToLe(h.size, 4), ToLe(AlgValue(h.alg), 4);
    var f, g := ToLe(HASH_SIZE, 2), ToLe(h.sigSize, 2);
    assert At(s, 0, a + b + d + e + f + g);
    AtSplit(s, 0, a + b + d + e + f, g);
    AtSplit(s, 0, a + b + d + e, f);
    AtSplit(s, 0, a + b + d, e);
    AtSplit(s, 0, a + b, d);
    AtSplit(s, 0, a, b);
  }

  lemma HeaderWords(h: Header, s: seq<Byte>)
    requires HeaderFits(h) && s == HeaderBytes(h)
    ensures Word(s, 0, 4) == SHDR_MAGIC && Word(s, 4, 4) == h.typ && Word(s, 8, 4) == h.size
    ensures Word(s, 12, 4) == AlgValue(h.alg) && Word(s, 16, 2) == HASH_SIZE && Word(s, 18, 2) == h.sigSize
  {
    HeaderPlaced(h, s);
    Word4(s, 0, SHDR_MAGIC);
    Word4(s, 4, h.typ);
    Word4(s, 8, h.size);
    Word4(s, 12, AlgValue(h.alg));
    Word2(s, 16, HASH_SIZE);
    Word2(s, 18, h.sigSize);
  }

  lemma HeaderRoundTrip(h: Header)
    requires HeaderFits(h)
    ensures ParseHeader(HeaderBytes(h)) == Some(h)
  {
    HeaderWords(h, HeaderBytes(h));
  }

  // ---------------------------------------------------------- the signed front

  /** The library keeps its promises about lengths. */
  ghost predicate LengthsOk(c: Crypto) {
    && (forall d :: |c.digest(d)| == HASH_SIZE)
    && (forall k, a, salt, d :: |c.sign(k, a, salt, d)| == c.sigSize(c.publicOf(k)))
    && (forall k, n, p :: |c.encrypt(k, n, p)| == |p| + TAG_SIZE)
  }

  /** inf is a header, a digest, a signature, and rest. */
  lemma FrontParses(h: Header, d: seq<Byte>, sig: seq<Byte>, rest: seq<Byte>, inf: seq<Byte>, offs: nat)
    requires HeaderFits(h) && |d| == HASH_SIZE && |sig| == h.sigSize && offs == 52 + h.sigSize
    requires inf == HeaderBytes(h) + d + sig + rest
    ensures At(inf, offs, rest) && |inf| == offs + |rest|
    ensures ParseFront(inf) == Some(Front(HeaderBytes(h), h, d, sig, offs))
  {
    HeaderRoundTrip(h);
    assert At(inf, 0, HeaderBytes(h) + d + sig + rest);
    AtSplit(inf, 0, HeaderBytes(h) + d + sig, rest);
    AtSplit(inf, 0, HeaderBytes(h) + d, sig);
    AtSplit(inf, 0, HeaderBytes(h), d);
    AtSlice(inf, 0, HeaderBytes(h));
    AtSlice(inf, 20, d);
    AtSlice(inf, 52, sig);
  }

  lemma ParseJoins(c: Crypto, inf: seq<Byte>, f: Front, typ: nat, offs: nat, size: nat, b: Body)
    requires ParseFront(inf) == Some(f) && f.h.typ == typ && f.h.size == size && f.offs == offs
    requires ParseBody(c, inf, typ, offs, size) == Some(b)
    ensures Parse(c, inf) == Some(Image(f.shdr, f.h.alg, f.digest, f.sig, b))
  {
  }

  // ------------------------------------------------------------- applications

  function AppBody(c: Crypto, a: App): Body {
    var version := ToLe(a.version, 4);
    match a.enc
    case Clear => Bootstrap(a.uuid, version, a.plain)
    case AesGcm(key, keyType, nonce) =>
      var out := c.encrypt(key, nonce, a.plain);
      Encrypted(a.uuid, version, EncHeader(keyType, |Tag(out)|), nonce, Tag(out), Ciphertext(out))
  }

  function AppContent(c: Crypto, a: App): seq<Byte> {
    var id := a.uuid + ToLe(a.version, 4);
    match a.enc
    case Clear => id + a.plain
    case AesGcm(key, keyType, nonce) =>
      var tag := Tag(c.encrypt(key, nonce, a.plain));
      id + (EncHeader(keyType, |tag|) + nonce + tag) + a.plain
  }

  function AppImage(c: Crypto, signer: PrivateKey, a: App): Image {
    var h := AppHeader(c, signer, a);
    var d := c.digest(HeaderBytes(h) + AppContent(c, a));
    Image(HeaderBytes(h), a.alg, d, c.sign(signer, a.alg, a.salt, d), AppBody(c, a))
  }

  lemma BootstrapParses(inf: seq<Byte>, offs: nat, uuid: Uuid, version: seq<Byte>, img: seq<Byte>)
    requires |version| == 4 && At(inf, offs, uuid + version + img) && |inf| == offs + 20 + |img|
    ensures ParseBootstrap(inf, offs, |img|) == Some(Bootstrap(uuid, version, img))
  {
    AtSplit(inf, offs, uuid + version, img);
    AtSplit(inf, offs, uuid, version);
    AtSlice(inf, offs, uuid);
    AtSlice(inf, offs + 16, version);
    AtEnd(inf, offs + 20, img);
  }

  lemma EncHeaderFields(keyType: nat)
    ensures var e := EncHeader(keyType, TAG_SIZE);
            Word(e, 0, 4) == AES_GCM && Word(e, 8, 2) == NONCE_SIZE && Word(e, 10, 2) == TAG_SIZE
  {
    var e := EncHeader(keyType, TAG_SIZE);
    var a, b, d, f := ToLe(AES_GCM, 4), ToLe(keyType, 4), ToLe(NONCE_SIZE, 2), ToLe(TAG_SIZE, 2);
    assert At(e, 0, a + b + d + f);
    AtSplit(e, 0, a + b + d, f);
    AtSplit(e, 0, a + b, d);
    AtSplit(e, 0, a, b);
    Word4(e, 0, AES_GCM);
    Word2(e, 8, NONCE_SIZE);
    Word2(e, 10, TAG_SIZE);
  }

  lemma EncryptedParses(inf: seq<Byte>, offs: nat, uuid: Uuid, version: seq<Byte>, keyType: nat, nonce: Nonce,
                        tag: seq<Byte>, text: seq<Byte>)
    requires |version| == 4 && |tag| == TAG_SIZE && |inf| == offs + 60 + |text|
    requires At(inf, offs, uuid + version + (EncHeader(keyType, TAG_SIZE) + nonce + tag) + text)
    ensures ParseEncrypted(inf, offs, |text|)
            == Some(Encrypted(uuid, version, EncHeader(keyType, TAG_SIZE), nonce, tag, text))
  {
    var ehdr := EncHeader(keyType, TAG_SIZE);
    AtSplit(inf, offs, uuid + version + (ehdr + nonce + tag), text);
    AtSplit(inf, offs, uuid + version, ehdr + nonce + tag);
    AtSplit(inf, offs, uuid, version);
    AtSplit(inf, offs + 20, ehdr + nonce, tag);
    AtSplit(inf, offs + 20, ehdr, nonce);
    AtSlice(inf, offs, uuid);
    AtSlice(inf, offs + 16, version);
    AtSlice(inf, offs + 20, ehdr);
    AtSlice(inf, offs + 32, nonce);
    AtSlice(inf, offs + 44, tag);
    AtEnd(inf, offs + 60, text);
    EncHeaderFields(keyType);
  }

  lemma ClearRoundTrip(c: Crypto, signer: PrivateKey, a: App, inf: seq<Byte>)
    requires LengthsOk(c) && a.enc.Clear? && AppFile(c, signer, a) == Some(inf)
    ensures Parse(c, inf) == Some(AppImage(c, signer, a))
  {
    var h := AppHeader(c, signer, a);
    var version := ToLe(a.version, 4);
    var rest := a.uuid + version + a.plain;
    var d := c.digest(HeaderBytes(h) + rest);
    var sig := c.sign(signer, a.alg, a.salt, d);
    assert inf == HeaderBytes(h) + d + sig + rest;
    var offs := 52 + h.sigSize;
    FrontParses(h, d, sig, rest, inf, offs);
    BootstrapParses(inf, offs, a.uuid, version, a.plain);
  }

  /** Identity, encryption header, nonce and tag, and then the ciphertext. */
  function EncryptedRest(a: App, out: seq<Byte>): seq<Byte>
    requires a.enc.AesGcm?
  {
    a.uuid + ToLe(a.version, 4) + (EncHeader(a.enc.keyType, TAG_SIZE) + a.enc.nonce + Tag(out)) + Ciphertext(out)
  }

  lemma EncryptedFileIs(c: Crypto, signer: PrivateKey, a: App, inf: seq<Byte>)
    requires LengthsOk(c) && a.enc.AesGcm? && AppFile(c, signer, a) == Some(inf)
    ensures var h, d := AppHeader(c, signer, a), c.digest(HeaderBytes(AppHeader(c, signer, a)) + AppContent(c, a));
            inf == HeaderBytes(h) + d + c.sign(signer, a.alg, a.salt, d)
                   + EncryptedRest(a, c.encrypt(a.enc.key, a.enc.nonce, a.plain))
  {
  }

  lemma EncryptedBodyIs(c: Crypto, a: App, inf: seq<Byte>, offs: nat)
    requires LengthsOk(c) && a.enc.AesGcm? && a.version < WORD
    requires var rest := EncryptedRest(a, c.encrypt(a.enc.key, a.enc.nonce, a.plain));
             At(inf, offs, rest) && |inf| == offs + |rest|
    ensures ParseEncrypted(inf, offs, |a.plain|) == Some(AppBody(c, a))
  {
    var out := c.encrypt(a.enc.key, a.enc.nonce, a.plain);
    EncryptedParses(inf, offs, a.uuid, ToLe(a.version, 4), a.enc.keyType, a.enc.nonce, Tag(out), Ciphertext(out));
  }

  /** A file whose front and encrypted body are known. */
  lemma EncryptedJoins(c: Crypto, inf: seq<Byte>, f: Front, b: Body)
    requires ParseFront(inf) == Some(f) && f.h.typ == SHDR_ENCRYPTED_TA
    requires ParseEncrypted(inf, f.offs, f.h.size) == Some(b)
    ensures Parse(c, inf) == Some(Image(f.shdr, f.h.alg, f.digest, f.sig, b))
  {
  }

  lemma EncryptedRoundTrip(c: Crypto, signer: PrivateKey, a: App, inf: seq<Byte>)
    requires LengthsOk(c) && a.enc.AesGcm? && AppFile(c, signer, a) == Some(inf)
    ensures Parse(c, inf) == Some(AppImage(c, signer, a))
  {
    var h := AppHeader(c, signer, a);
    var out := c.encrypt(a.enc.key, a.enc.nonce, a.plain);
    var d := c.digest(HeaderBytes(h) + AppContent(c, a));
    var sig := c.sign(signer, a.alg, a.salt, d);
    var offs := 52 + h.sigSize;
    EncryptedFileIs(c, signer, a, inf);
    FrontParses(h, d, sig, EncryptedRest(a, out), inf, offs);
    EncryptedBodyIs(c, a, inf, offs);
    EncryptedJoins(c, inf, Front(HeaderBytes(h), h, d, sig, offs), AppBody(c, a));
  }

  /** Parsing the container of an application gives back every field of it. */
  lemma AppRoundTrip(c: Crypto, signer: PrivateKey, a: App)
    requires LengthsOk(c) && AppFile(c, signer, a).Some?
    ensures Parse(c, AppFile(c, signer, a).value) == Some(AppImage(c, signer, a))
  {
    match a.enc
    case Clear => ClearRoundTrip(c, signer, a, AppFile(c, signer, a).value);
    case AesGcm(_, _, _) => EncryptedRoundTrip(c, signer, a, AppFile(c, signer, a).value);
  }

  // ------------------------------------------------------------------- subkeys

  lemma {:induction false} BelowPower(x: nat, b: nat)
    requires BitLength(x) <= b
    ensures x < PowerOfTwo(b)
    decreases b
  {
    if x != 0 { BelowPower(x / 2, b - 1); }
  }

  lemma {:induction false} BytePowers(k: nat)
    ensures Pow256(k) == PowerOfTwo(8 * k)
  {
    if k > 0 {
      BytePowers(k - 1);
      var p := PowerOfTwo(8 * (k - 1));
      Doubled(8 * (k - 1));
    }
  }

  lemma Doubled(b: nat)
    ensures PowerOfTwo(b + 8) == 256 * PowerOfTwo(b)
  {
    assert PowerOfTwo(b + 2) == 4 * PowerOfTwo(b);
    assert PowerOfTwo(b + 4) == 4 * PowerOfTwo(b + 2);
    assert PowerOfTwo(b + 6) == 4 * PowerOfTwo(b + 4);
    assert PowerOfTwo(b + 8) == 4 * PowerOfTwo(b + 6);
  }

  lemma IntRoundTrip(x: nat)
    ensures FromBe(IntBytes(x)) == x
  {
    var k := (BitLength(x) + 8) / 8;
    BelowPower(x, 8 * k);
    BytePowers(k);
    BeRoundTrip(x, k);
  }

  function SubkeyBody(c: Crypto, s: Sub, rest: seq<Byte>): Body {
    Subkey(s.uuid, s.nameSize, s.version, s.maxDepth, AlgValue(s.alg), c.publicOf(s.owner), SubkeyImage(c, s),
           Slice(rest, 0, s.nameSize), From(rest, s.nameSize))
  }

  function SubkeyParsed(c: Crypto, s: Sub, rest: seq<Byte>): Image {
    var h := SubHeader(c, s);
    var d := c.digest(HeaderBytes(h) + SubkeyImage(c, s));
    Image(HeaderBytes(h), s.alg, d, c.sign(s.signer, s.alg, s.salt, d), SubkeyBody(c, s, rest))
  }

  lemma SubHdrFields(s: Sub)
    requires s.nameSize < WORD && s.version < WORD && s.maxDepth < WORD
    ensures var r := SubHdr(s);
            && Word(r, 0, 4) == s.nameSize && Word(r, 4, 4) == s.version && Word(r, 8, 4) == s.maxDepth
            && Word(r, 12, 4) == AlgValue(s.alg) && Word(r, 16, 4) == 2
  {
    var a, b, d := ToLe(s.nameSize, 4), ToLe(s.version, 4), ToLe(s.maxDepth, 4);
    var e, f := ToLe(AlgValue(s.alg), 4), ToLe(2, 4);
    var r := SubHdr(s);
    assert At(r, 0, a + b + d + e + f);
    AtSplit(r, 0, a + b + d + e, f);
    AtSplit(r, 0, a + b + d, e);
    AtSplit(r, 0, a + b, d);
    AtSplit(r, 0, a, b);
    Word4(r, 0, s.nameSize);
    Word4(r, 4, s.version);
    Word4(r, 8, s.maxDepth);
    Word4(r, 12, AlgValue(s.alg));
    Word4(r, 16, 2);
  }

  lemma AttrFields(attr: nat, offs: nat, len: nat)
    requires attr < WORD && offs < WORD && len < WORD
    ensures var r := AttrEntry(attr, offs, len);
            Word(r, 0, 4) == attr && Word(r, 4, 4) == offs && Word(r, 8, 4) == len
  {
    var a, b, d := ToLe(attr, 4), ToLe(offs, 4), ToLe(len, 4);
    var r := AttrEntry(attr, offs, len);
    assert At(r, 0, a + b + d);
    AtSplit(r, 0, a + b, d);
    AtSplit(r, 0, a, b);
    Word4(r, 0, attr);
    Word4(r, 4, offs);
    Word4(r, 8, len);
  }

  lemma ImagePlaced(inf: seq<Byte>, offs: nat, u: Uuid, h: seq<Byte>, n: seq<Byte>, e: seq<Byte>)
    requires |h| == SK_HDR_SIZE && At(inf, offs, KeyImage(u, h, n, e))
    ensures At(inf, offs, u) && At(inf, offs + 16, h)
    ensures At(inf, offs + 36, AttrEntry(RSA_MODULUS, ATTRS_END, |n|))
    ensures At(inf, offs + 48, AttrEntry(RSA_PUBLIC_EXPONENT, ATTRS_END + |n|, |e|))
    ensures At(inf, offs + 60, n) && At(inf, offs + 60 + |n|, e)
  {
    var a, b := AttrEntry(RSA_MODULUS, ATTRS_END, |n|), AttrEntry(RSA_PUBLIC_EXPONENT, ATTRS_END + |n|, |e|);
    assert KeyImage(u, h, n, e) == u + h + a + b + n + e;
    AtSplit(inf, offs, u + h + a + b + n, e);
    AtSplit(inf, offs, u + h + a + b, n);
    AtSplit(inf, offs, u + h + a, b);
    AtSplit(inf, offs, u + h, a);
    AtSplit(inf, offs, u, h);
  }

  /** An attribute table entry for the bytes v, which stand where it says. */
  lemma AttrHere(inf: seq<Byte>, offs: nat, i: nat, attr: nat, where: nat, v: seq<Byte>, count: nat)
    requires i < count && attr < WORD && where < WORD && |v| < WORD
    requires At(inf, offs + 36 + i * 12, AttrEntry(attr, where, |v|)) && At(inf, offs + where, v)
    ensures FindAttr(inf, offs, attr, i, count) == Some(v)
    ensures forall other :: other != attr ==>
              FindAttr(inf, offs, other, i, count) == FindAttr(inf, offs, other, i + 1, count)
  {
    var entry := AttrEntry(attr, where, |v|);
    AttrFields(attr, where, |v|);
    AtSlice(inf, offs + 36 + i * 12, entry);
    AtSlice(inf, offs + where, v);
  }

  lemma AttrsFound(inf: seq<Byte>, offs: nat, n: seq<Byte>, e: seq<Byte>, i: nat, count: nat)
    requires 60 + |n| + |e| < WORD && i == 0 && count == 2
    requires At(inf, offs + 36, AttrEntry(RSA_MODULUS, ATTRS_END, |n|))
    requires At(inf, offs + 48, AttrEntry(RSA_PUBLIC_EXPONENT, ATTRS_END + |n|, |e|))
    requires At(inf, offs + 60, n) && At(inf, offs + 60 + |n|, e)
    ensures FindAttr(inf, offs, RSA_MODULUS, i, count) == Some(n)
    ensures FindAttr(inf, offs, RSA_PUBLIC_EXPONENT, i, count) == Some(e)
  {
    AttrHere(inf, offs, i, RSA_MODULUS, ATTRS_END, n, count);
    AttrHere(inf, offs, i + 1, RSA_PUBLIC_EXPONENT, ATTRS_END + |n|, e, count);
  }

  lemma SliceInside(inf: seq<Byte>, o: nat, rest: seq<Byte>, n: nat)
    requires At(inf, o, rest) && |inf| == o + |rest|
    ensures Slice(inf, o, n) == Slice(rest, 0, n) && From(inf, o + n) == From(rest, n)
  {
    assert inf[o..] == rest;
    if n <= |rest| { assert inf[o..o + n] == rest[..n] && inf[o + n..] == rest[n..]; }
  }

  /** The parts of a subkey are found at offs. */
  predicate KeyFound(inf: seq<Byte>, offs: nat, u: Uuid, h: seq<Byte>, n: seq<Byte>, e: seq<Byte>, count: nat) {
    && Slice(inf, offs, 16) == u && Slice(inf, offs + 16, SK_HDR_SIZE) == h
    && FindAttr(inf, offs, RSA_MODULUS, 0, count) == Some(n)
    && FindAttr(inf, offs, RSA_PUBLIC_EXPONENT, 0, count) == Some(e)
  }

  predicate HdrFields(s: Sub, h: seq<Byte>, count: nat) {
    && |h| == SK_HDR_SIZE
    && Word(h, 0, 4) == s.nameSize && Word(h, 4, 4) == s.version && Word(h, 8, 4) == s.maxDepth
    && Word(h, 12, 4) == AlgValue(s.alg) && Word(h, 16, 4) == count
  }

  lemma KeyImageFound(inf: seq<Byte>, offs: nat, u: Uuid, h: seq<Byte>, n: seq<Byte>, e: seq<Byte>)
    requires |h| == SK_HDR_SIZE && At(inf, offs, KeyImage(u, h, n, e)) && 60 + |n| + |e| < WORD
    ensures KeyFound(inf, offs, u, h, n, e, 2)
  {
    ImagePlaced(inf, offs, u, h, n, e);
    AttrsFound(inf, offs, n, e, 0, 2);
    AtSlice(inf, offs, u);
    AtSlice(inf, offs + 16, h);
  }

  lemma RestAssembles(s: Sub, inf: seq<Byte>, offs: nat, h: seq<Byte>, img: seq<Byte>, count: nat, key: PublicKey,
                      nameImg: seq<Byte>, next: seq<Byte>)
    requires HdrFields(s, h, count) && Slice(inf, offs, 16) == s.uuid
    requires 36 <= |img| && Slice(inf, offs, |img|) == img && |Slice(inf, offs + 36, |img| - 36)| == |img| - 36
    requires Slice(inf, offs + |img|, s.nameSize) == nameImg && From(inf, offs + |img| + s.nameSize) == next
    ensures SubkeyRest(inf, offs, |img|, h, key)
            == Some(Subkey(s.uuid, s.nameSize, s.version, s.maxDepth, AlgValue(s.alg), key, img, nameImg, next))
  {
  }

  /** The body of a subkey from its parts. */
  lemma SubkeyAssembles(c: Crypto, s: Sub, inf: seq<Byte>, offs: nat, h: seq<Byte>, n: seq<Byte>, e: seq<Byte>,
                        size: nat,
                        count: nat, key: PublicKey, b: Option<Body>)
    requires KeyFound(inf, offs, s.uuid, h, n, e, count) && HdrFields(s, h, count)
    requires key == PublicKey(FromBe(n), FromBe(e)) && c.usable(key)
    requires SubkeyRest(inf, offs, size, h, key) == b
    ensures ParseSubkey(c, inf, offs, size) == b
  {
  }

  lemma SliceLength(inf: seq<Byte>, offs: nat, n: nat)
    requires offs + n <= |inf|
    ensures |Slice(inf, offs, n)| == n
  {
  }

  lemma SubkeyPlaced(c: Crypto, s: Sub, inf: seq<Byte>, offs: nat, h: seq<Byte>, n: seq<Byte>, e: seq<Byte>,
                     img: seq<Byte>, count: nat, key: PublicKey, rest: seq<Byte>)
    requires KeyFound(inf, offs, s.uuid, h, n, e, count) && HdrFields(s, h, count)
    requires key == PublicKey(FromBe(n), FromBe(e)) && c.usable(key)
    requires 36 <= |img| && At(inf, offs, img + rest) && |inf| == offs + |img + rest|
    ensures ParseSubkey(c, inf, offs, |img|)
            == Some(Subkey(s.uuid, s.nameSize, s.version, s.maxDepth, AlgValue(s.alg), key, img,
                           Slice(rest, 0, s.nameSize), From(rest, s.nameSize)))
  {
    AtSplit(inf, offs, img, rest);
    AtSlice(inf, offs, img);
    SliceLength(inf, offs + 36, |img| - 36);
    SliceInside(inf, offs + |img|, rest, s.nameSize);
    RestAssembles(s, inf, offs, h, img, count, key, Slice(rest, 0, s.nameSize), From(rest, s.nameSize));
    SubkeyAssembles(c, s, inf, offs, h, n, e, |img|, count, key, SubkeyRest(inf, offs, |img|, h, key));
  }

  /** The four facts about the bytes of a subkey that its parsing rests on. */
  lemma SubkeyParts(c: Crypto, s: Sub, inf: seq<Byte>, offs: nat, img: seq<Byte>, rest: seq<Byte>)
    returns (h: seq<Byte>, n: seq<Byte>, e: seq<Byte>, count: nat)
    requires SubkeyFits(c, s) && img == SubkeyImage(c, s) && At(inf, offs, img + rest)
    ensures KeyFound(inf, offs, s.uuid, h, n, e, count) && HdrFields(s, h, count) && 36 <= |img|
    ensures c.publicOf(s.owner) == PublicKey(FromBe(n), FromBe(e))
  {
    var key := c.publicOf(s.owner);
    h, n, e, count := SubHdr(s), IntBytes(key.n), IntBytes(key.e), 2;
    AtSplit(inf, offs, img, rest);
    assert c.publicOf(s.owner) == PublicKey(FromBe(n), FromBe(e)) by { IntRoundTrip(key.n); IntRoundTrip(key.e); }
    assert HdrFields(s, h, count) by { SubHdrFields(s); }
    assert KeyFound(inf, offs, s.uuid, h, n, e, count) by { KeyImageFound(inf, offs, s.uuid, h, n, e); }
  }

  lemma SubkeyFront(c: Crypto, s: Sub, rest: seq<Byte>, inf: seq<Byte>, h: Header, img: seq<Byte>, d: seq<Byte>,
                    sig: seq<Byte>)
    requires LengthsOk(c) && HeaderFits(h) && inf == SubkeyBlock(c, s) + rest
    requires h == SubHeader(c, s) && img == SubkeyImage(c, s) && d == c.digest(HeaderBytes(h) + img)
    requires sig == c.sign(s.signer, s.alg, s.salt, d)
    ensures ParseFront(inf) == Some(Front(HeaderBytes(h), h, d, sig, 52 + h.sigSize))
    ensures At(inf, 52 + h.sigSize, img + rest) && |inf| == 52 + h.sigSize + |img + rest|
  {
    BlockShape(c, s, rest);
    FrontParses(h, d, sig, img + rest, inf, 52 + h.sigSize);
  }

  lemma SubkeyKind(c: Crypto, inf: seq<Byte>, offs: nat, size: nat, b: Option<Body>)
    requires ParseSubkey(c, inf, offs, size) == b
    ensures ParseBody(c, inf, SHDR_SUBKEY, offs, size) == b
  {
  }

  lemma SubkeyBack(c: Crypto, s: Sub, rest: seq<Byte>, inf: seq<Byte>, offs: nat, img: seq<Byte>)
    requires SubkeyFits(c, s) && c.usable(c.publicOf(s.owner)) && img == SubkeyImage(c, s)
    requires At(inf, offs, img + rest) && |inf| == offs + |img + rest|
    ensures ParseBody(c, inf, SHDR_SUBKEY, offs, |img|) == Some(SubkeyBody(c, s, rest))
  {
    var hdr, n, e, count := SubkeyParts(c, s, inf, offs, img, rest);
    SubkeyPlaced(c, s, inf, offs, hdr, n, e, img, count, c.publicOf(s.owner), rest);
    SubkeyKind(c, inf, offs, |img|, Some(SubkeyBody(c, s, rest)));
  }

  /** Parsing a subkey gives back every field, its RSA key, the name behind it and what follows. */
  lemma SubkeyRoundTrip(c: Crypto, s: Sub, rest: seq<Byte>)
    requires LengthsOk(c) && SubkeyFits(c, s) && c.usable(c.publicOf(s.owner))
    ensures Parse(c, SubkeyBlock(c, s) + rest) == Some(SubkeyParsed(c, s, rest))
  {
    var h := SubHeader(c, s);
    var img := SubkeyImage(c, s);
    var d := c.digest(HeaderBytes(h) + img);
    var sig := c.sign(s.signer, s.alg, s.salt, d);
    var inf := SubkeyBlock(c, s) + rest;
    var offs := 52 + h.sigSize;
    SubkeyFront(c, s, rest, inf, h, img, d, sig);
    SubkeyBack(c, s, rest, inf, offs, img);
    ParseJoins(c, inf, Front(HeaderBytes(h), h, d, sig, offs), SHDR_SUBKEY, offs, |img|, SubkeyBody(c, s, rest));
  }

  lemma BlockShape(c: Crypto, s: Sub, rest: seq<Byte>)
    ensures var h, img := SubHeader(c, s), SubkeyImage(c, s);
            var d := c.digest(HeaderBytes(h) + img);
            SubkeyBlock(c, s) + rest == HeaderBytes(h) + d + c.sign(s.signer, s.alg, s.salt, d) + (img + rest)
  {
    var h, img := SubHeader(c, s), SubkeyImage(c, s);
    var d := c.digest(HeaderBytes(h) + img);
    Regroup(HeaderBytes(h) + d + c.sign(s.signer, s.alg, s.salt, d), img, rest);
  }

  lemma Regroup(a: seq<Byte>, b: seq<Byte>, d: seq<Byte>)
    ensures a + b + d == a + (b + d)
  {
  }
}
