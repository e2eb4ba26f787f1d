/**
 The signed container of a trusted application: a signed header, and behind it
 the application in the clear, an encrypted application, or a subkey that
 certifies the key of what follows. None stands for an exception.
 */
module SignedTa {
  import opened Wrappers
  import opened Bytes

  type Uuid = s: seq<Byte> | |s| == 16 witness [0, 0, 0, 0, 0, 0, 0, 0, 0, 0, 0, 0, 0, 0, 0, 0]
  type Nonce = s: seq<Byte> | |s| == 12 witness [0, 0, 0, 0, 0, 0, 0, 0, 0, 0, 0, 0]

  const WORD: nat := 0x1_0000_0000
  const HALF: nat := 0x1_0000

  const SHDR_MAGIC: nat := 0x4f545348
  const SHDR_BOOTSTRAP_TA: nat := 1
  const SHDR_ENCRYPTED_TA: nat := 2
  const SHDR_SUBKEY: nat := 3
  const SHDR_SIZE: nat := 20
  const SK_HDR_SIZE: nat := 20
  const EHDR_SIZE: nat := 12
  const UUID_SIZE: nat := 16
  const NONCE_SIZE: nat := 12
  const TAG_SIZE: nat := 16
  const HASH_SIZE: nat := 32
  const AES_GCM: nat := 0x40000810
  const RSA_MODULUS: nat := 0xD0000130
  const RSA_PUBLIC_EXPONENT: nat := 0xD0000230

  datatype Alg = Pss | Pkcs1

  function AlgValue(a: Alg): nat {
    if a.Pss? then 0x70414930 else 0x70004830
  }

  function AlgOf(v: nat): Option<Alg> {
    if v == 0x70414930 then Some(Pss) else if v == 0x70004830 then Some(Pkcs1) else None
  }

  // ------------------------------------------------------------- primitives

  datatype PublicKey = PublicKey(n: nat, e: nat)

  type PrivateKey = nat

  /** What the cryptography library and the text encoding provide; salt is the randomness of a signature. */
  datatype Crypto = Crypto(
    digest: seq<Byte> -> seq<Byte>,
    publicOf: PrivateKey -> PublicKey,
    usable: PublicKey -> bool,
    sigSize: PublicKey -> nat,
    sign: (PrivateKey, Alg, nat, seq<Byte>) -> seq<Byte>,
    verify: (PublicKey, Alg, seq<Byte>, seq<Byte>) -> bool,
    encrypt: (seq<Byte>, Nonce, seq<Byte>) -> seq<Byte>,
    decrypt: (seq<Byte>, seq<Byte>, seq<Byte>) -> Option<seq<Byte>>,
    uuid5: (seq<Byte>, seq<Byte>) -> Uuid,
    utf8: seq<Byte> -> bool)

  // ------------------------------------------------------------ signed header

  datatype Header = Header(typ: nat, size: nat, alg: Alg, sigSize: nat)

  function HeaderBytes(h: Header): (r: seq<Byte>)
    ensures |r| == SHDR_SIZE
  {
    ToLe(SHDR_MAGIC, 4) + ToLe(h.typ, 4) + ToLe(h.size, 4) + ToLe(AlgValue(h.alg), 4) + ToLe(HASH_SIZE, 2)
    + ToLe(h.sigSize, 2)
  }

  predicate HeaderFits(h: Header) {
    h.typ < WORD && h.size < WORD && h.sigSize < HALF
  }

  function Word(s: seq<Byte>, o: nat, n: nat): nat {
    FromLe(Slice(s, o, n))
  }

  function ParseHeader(shdr: seq<Byte>): Option<Header> {
    if |shdr| != SHDR_SIZE then None
    else if Word(shdr, 0, 4) != SHDR_MAGIC then None
    else
      match AlgOf(Word(shdr, 12, 4))
      case None => None
      case Some(a) =>
        if Word(shdr, 16, 2) != HASH_SIZE then None
        else Some(Header(Word(shdr, 4, 4), Word(shdr, 8, 4), a, Word(shdr, 18, 2)))
  }

  // ----------------------------------------------------------------- parsing

  datatype Body =
    | Bootstrap(taUuid: seq<Byte>, taVersion: seq<Byte>, img: seq<Byte>)
    | Encrypted(taUuid: seq<Byte>, taVersion: seq<Byte>, ehdr: seq<Byte>, nonce: seq<Byte>, tag: seq<Byte>,
                ciphertext: seq<Byte>)
    | Subkey(uuid: seq<Byte>, nameSize: nat, version: nat, maxDepth: nat, algo: nat, key: PublicKey,
             img: seq<Byte>, nameImg: seq<Byte>, next: seq<Byte>)

  datatype Image = Image(shdr: seq<Byte>, alg: Alg, digest: seq<Byte>, sig: seq<Byte>, body: Body)

  function ParseBootstrap(inf: seq<Byte>, offs: nat, size: nat): Option<Body> {
    var img := From(inf, offs + 20);
    if |img| != size then None else Some(Bootstrap(Slice(inf, offs, 16), Slice(inf, offs + 16, 4), img))
  }

  function ParseEncrypted(inf: seq<Byte>, offs: nat, size: nat): Option<Body> {
    var ehdr := Slice(inf, offs + 20, EHDR_SIZE);
    if |ehdr| != EHDR_SIZE then None
    else if Word(ehdr, 0, 4) != AES_GCM then None
    else if Word(ehdr, 8, 2) != NONCE_SIZE then None
    else if Word(ehdr, 10, 2) != TAG_SIZE then None
    else
      var ciphertext := From(inf, offs + 60);
      if |ciphertext| != size then None
      else Some(Encrypted(Slice(inf, offs, 16), Slice(inf, offs + 16, 4), ehdr, Slice(inf, offs + 32, 12),
                          Slice(inf, offs + 44, 16), ciphertext))
  }

  /** The first of the attributes n .. count with this number; None also where the table is cut off. */
  function FindAttr(inf: seq<Byte>, offs: nat, attr: nat, n: nat, count: nat): Option<seq<Byte>>
    decreases count - n
  {
    if n >= count then None
    else
      var entry := Slice(inf, offs + UUID_SIZE + SK_HDR_SIZE + n * 12, 12);
      if |entry| != 12 then None
      else if Word(entry, 0, 4) == attr then Some(Slice(inf, offs + Word(entry, 4, 4), Word(entry, 8, 4)))
      else FindAttr(inf, offs, attr, n + 1, count)
  }

  /** The RSA key in a subkey's attribute table. */
  function ParseKey(c: Crypto, inf: seq<Byte>, offs: nat, count: nat): Option<PublicKey> {
    var n, e := FindAttr(inf, offs, RSA_MODULUS, 0, count), FindAttr(inf, offs, RSA_PUBLIC_EXPONENT, 0, count);
    if n.None? || e.None? then None
    else
      var key := PublicKey(FromBe(n.value), FromBe(e.value));
      if c.usable(key) then Some(key) else None
  }

  /** The rest of a subkey once its header and key are known. */
  function SubkeyRest(inf: seq<Byte>, offs: nat, size: nat, hdr: seq<Byte>, key: PublicKey): Option<Body> {
    var nameSize := Word(hdr, 0, 4);
    var attrs := if size < 36 then [] else Slice(inf, offs + 36, size - 36);
    var nameOffs := offs + 36 + |attrs|;
    var img := Slice(inf, offs, 36 + |attrs|);
    if |img| != size then None
    else Some(Subkey(Slice(inf, offs, 16), nameSize, Word(hdr, 4, 4), Word(hdr, 8, 4), Word(hdr, 12, 4), key, img,
                     Slice(inf, nameOffs, nameSize), From(inf, nameOffs + nameSize)))
  }

  function ParseSubkey(c: Crypto, inf: seq<Byte>, offs: nat, size: nat): Option<Body> {
    var hdr := Slice(inf, offs + 16, SK_HDR_SIZE);
    if |hdr| != SK_HDR_SIZE then None
    else
      match ParseKey(c, inf, offs, Word(hdr, 16, 4))
      case None => None
      case Some(key) => SubkeyRest(inf, offs, size, hdr, key)
  }

  function ParseBody(c: Crypto, inf: seq<Byte>, typ: nat, offs: nat, size: nat): Option<Body> {
    if typ == SHDR_BOOTSTRAP_TA then ParseBootstrap(inf, offs, size)
    else if typ == SHDR_ENCRYPTED_TA then ParseEncrypted(inf, offs, size)
    else if typ == SHDR_SUBKEY then ParseSubkey(c, inf, offs, size)
    else None
  }

  /** Header, digest and signature, and where the rest starts. */
  datatype Front = Front(shdr: seq<Byte>, h: Header, digest: seq<Byte>, sig: seq<Byte>, offs: nat)

  function ParseFront(inf: seq<Byte>): Option<Front> {
    var shdr := Slice(inf, 0, SHDR_SIZE);
    match ParseHeader(shdr)
    case None => None
    case Some(h) => Some(Front(shdr, h, Slice(inf, 20, HASH_SIZE), Slice(inf, 52, h.sigSize), 52 + h.sigSize))
  }

  function Parse(c: Crypto, inf: seq<Byte>): Option<Image> {
    match ParseFront(inf)
    case None => None
    case Some(f) =>
      match ParseBody(c, inf, f.h.typ, f.offs, f.h.size)
      case None => None
      case Some(b) => Some(Image(f.shdr, f.h.alg, f.digest, f.sig, b))
  }

  // ---------------------------------------------------------------- building

  /** header, digest, signature and what is signed: its bytes start with the header and go on with content. */
  function Signed(c: Crypto, signer: PrivateKey, salt: nat, h: Header, content: seq<Byte>): seq<Byte> {
    var digest := c.digest(HeaderBytes(h) + content);
    HeaderBytes(h) + digest + c.sign(signer, h.alg, salt, digest)
  }

  datatype Encryption = Clear | AesGcm(key: seq<Byte>, keyType: nat, nonce: Nonce)

  /** What goes into signing an application. */
  datatype App = App(alg: Alg, salt: nat, uuid: Uuid, version: nat, plain: seq<Byte>, enc: Encryption)

  function Ciphertext(out: seq<Byte>): seq<Byte> {
    if |out| < TAG_SIZE then [] else out[..|out| - TAG_SIZE]
  }

  function Tag(out: seq<Byte>): seq<Byte> {
    if |out| < TAG_SIZE then out else out[|out| - TAG_SIZE..]
  }

  function EncHeader(keyType: nat, tagLen: nat): (r: seq<Byte>)
    ensures |r| == EHDR_SIZE
  {
    ToLe(AES_GCM, 4) + ToLe(keyType, 4) + ToLe(NONCE_SIZE, 2) + ToLe(tagLen, 2)
  }

  function AppHeader(c: Crypto, signer: PrivateKey, a: App): Header {
    Header(if a.enc.Clear? then SHDR_BOOTSTRAP_TA else SHDR_ENCRYPTED_TA, |a.plain|, a.alg,
           c.sigSize(c.publicOf(signer)))
  }

  /** The container of an application, or None where a number does not fit its field. */
  function AppFile(c: Crypto, signer: PrivateKey, a: App): Option<seq<Byte>> {
    var h := AppHeader(c, signer, a);
    var id := a.uuid + ToLe(a.version, 4);
    if !HeaderFits(h) || a.version >= WORD then None
    else
      match a.enc
      case Clear => Some(Signed(c, signer, a.salt, h, id + a.plain) + id + a.plain)
      case AesGcm(key, keyType, nonce) =>
        var out := c.encrypt(key, nonce, a.plain);
        var extra := EncHeader(keyType, |Tag(out)|) + nonce + Tag(out);
        if keyType > 1 then None
        else Some(Signed(c, signer, a.salt, h, id + extra + a.plain) + id + extra + Ciphertext(out))
  }

  function BitLength(x: nat): nat {
    if x == 0 then 0 else 1 + BitLength(x / 2)
  }

  /** Big endian, always with a zero bit in front. */
  function IntBytes(x: nat): seq<Byte> {
    ToBe(x, (BitLength(x) + 8) / 8)
  }

  /** A subkey: signer certifies owner's key; name is given to what will follow it. */
  datatype Sub = Sub(signer: PrivateKey, owner: PrivateKey, alg: Alg, salt: nat, uuid: Uuid, version: nat,
                     maxDepth: nat, nameSize: nat, name: seq<Byte>)

  const ATTRS_END: nat := 60

  function SubHdr(s: Sub): (r: seq<Byte>)
    ensures |r| == SK_HDR_SIZE
  {
    ToLe(s.nameSize, 4) + ToLe(s.version, 4) + ToLe(s.maxDepth, 4) + ToLe(AlgValue(s.alg), 4) + ToLe(2, 4)
  }

  function AttrEntry(attr: nat, offs: nat, len: nat): (r: seq<Byte>)
    ensures |r| == 12
  {
    ToLe(attr, 4) + ToLe(offs, 4) + ToLe(len, 4)
  }

  /** Identity, header and the two attributes of an RSA key. */
  function KeyImage(uuid: Uuid, hdr: seq<Byte>, n: seq<Byte>, e: seq<Byte>): (r: seq<Byte>)
    requires |hdr| == SK_HDR_SIZE
    ensures |r| == 60 + |n| + |e|
  {
    uuid + hdr + AttrEntry(RSA_MODULUS, ATTRS_END, |n|) + AttrEntry(RSA_PUBLIC_EXPONENT, ATTRS_END + |n|, |e|) + n + e
  }

  function SubkeyImage(c: Crypto, s: Sub): seq<Byte> {
    var key := c.publicOf(s.owner);
    KeyImage(s.uuid, SubHdr(s), IntBytes(key.n), IntBytes(key.e))
  }

  function SubHeader(c: Crypto, s: Sub): Header {
    Header(SHDR_SUBKEY, |SubkeyImage(c, s)|, s.alg, c.sigSize(c.publicOf(s.signer)))
  }

  predicate SubkeyFits(c: Crypto, s: Sub) {
    HeaderFits(SubHeader(c, s)) && s.nameSize < WORD && s.version < WORD && s.maxDepth < WORD
  }

  function SubkeyBlock(c: Crypto, s: Sub): seq<Byte> {
    Signed(c, s.signer, s.salt, SubHeader(c, s), SubkeyImage(c, s)) + SubkeyImage(c, s)
  }

  function Zeros(n: nat): (z: seq<Byte>)
    ensures |z| == n && forall i :: 0 <= i < n ==> z[i] == 0
  {
    seq(n, _ => 0)
  }

  /** A name in its field; a longer name is not cut. */
  function NameField(name: seq<Byte>, size: nat): seq<Byte> {
    if |name| >= size then name else name + Zeros(size - |name|)
  }
}
