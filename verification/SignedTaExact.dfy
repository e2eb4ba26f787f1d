/** What parsing accepts, byte by byte, and that it drops nothing of a file. */
module SignedTaExact {
  import opened Wrappers
  import opened Bytes
  import opened SignedTa
  import opened SignedTaChain
  import opened SignedTaSound

  // ------------------------------------------------------------------ numbers

  function Num2(a: int, b: int): int {
    a + 0x100 * b
  }

  function Num4(a: int, b: int, d: int, e: int): int {
    a + 0x100 * b + 0x1_0000 * d + 0x100_0000 * e
  }

  lemma TwoBytes(bs: seq<Byte>)
    requires |bs| == 2
    ensures FromLe(bs) == Num2(bs[0], bs[1])
  {
    assert FromLe(bs[1..]) == bs[1] by { assert bs[1..][1..] == []; }
  }

  lemma FourBytes(bs: seq<Byte>)
    requires |bs| == 4
    ensures FromLe(bs) == Num4(bs[0], bs[1], bs[2], bs[3])
  {
    TwoBytes(bs[2..]);
    assert bs[1..][1..] == bs[2..];
    assert FromLe(bs[1..]) == bs[1] + 256 * FromLe(bs[2..]);
  }

  lemma WordOfTwo(s: seq<Byte>, o: nat)
    requires o + 2 <= |s|
    ensures Word(s, o, 2) == Num2(s[o], s[o + 1])
  {
    TwoBytes(s[o..o + 2]);
  }

  lemma WordOfFour(s: seq<Byte>, o: nat)
    requires o + 4 <= |s|
    ensures Word(s, o, 4) == Num4(s[o], s[o + 1], s[o + 2], s[o + 3])
  {
    FourBytes(s[o..o + 4]);
  }

  // ------------------------------------------------------------------- header

  function AlgBytes(a: Alg): seq<Byte> {
    match a
    case Pss => [0x30, 0x49, 0x41, 0x70]
    case Pkcs1 => [0x30, 0x48, 0x00, 0x70]
  }

  /** A header is accepted exactly if it has its magic number, one of the two algorithms and the size of SHA-256. */
  lemma HeaderIsAccepted(s: seq<Byte>)
    ensures ParseHeader(s).Some?
            <==> && |s| == 20 && s[..4] == [0x48, 0x53, 0x54, 0x4F] && s[16..18] == [0x20, 0x00]
                 && (s[12..16] == AlgBytes(Pss) || s[12..16] == AlgBytes(Pkcs1))
    ensures ParseHeader(s).Some? ==>
              var h := ParseHeader(s).value;
              && h.typ == Num4(s[4], s[5], s[6], s[7]) && h.size == Num4(s[8], s[9], s[10], s[11])
              && h.sigSize == Num2(s[18], s[19]) && s[12..16] == AlgBytes(h.alg)
  {
    if |s| == 20 {
      WordOfFour(s, 0);
      WordOfFour(s, 4);
      WordOfFour(s, 8);
      WordOfFour(s, 12);
      WordOfTwo(s, 16);
      WordOfTwo(s, 18);
    }
  }

  // ------------------------------------------------------------ nothing dropped

  /** Everything behind the signature. */
  function Rest(b: Body): seq<Byte> {
    match b
    case Bootstrap(u, v, img) => u + (v + img)
    case Encrypted(u, v, ehdr, nonce, tag, text) => u + (v + (ehdr + (nonce + (tag + text))))
    case Subkey(_, _, _, _, _, _, img, nameImg, next) => img + (nameImg + next)
  }

  lemma SliceThenRest(s: seq<Byte>, a: nat, n: nat)
    ensures Slice(s, a, n) + From(s, a + n) == From(s, a)
  {
  }

  lemma BootstrapIsRest(inf: seq<Byte>, offs: nat, size: nat, b: Body)
    requires ParseBootstrap(inf, offs, size) == Some(b)
    ensures b.Bootstrap? && Rest(b) == From(inf, offs) && |b.img| == size
  {
    SliceThenRest(inf, offs + 16, 4);
    SliceThenRest(inf, offs, 16);
  }

  lemma EncryptedIsRest(inf: seq<Byte>, offs: nat, size: nat, b: Body)
    requires ParseEncrypted(inf, offs, size) == Some(b)
    ensures b.Encrypted? && Rest(b) == From(inf, offs) && |b.ciphertext| == size
  {
    FiveSlices(inf, offs, b.taUuid, b.taVersion, b.ehdr, b.nonce, b.tag, b.ciphertext);
  }

  lemma FiveSlices(s: seq<Byte>, o: nat, u: seq<Byte>, v: seq<Byte>, e: seq<Byte>, n: seq<Byte>, t: seq<Byte>,
                   r: seq<Byte>)
    requires u == Slice(s, o, 16) && v == Slice(s, o + 16, 4) && e == Slice(s, o + 20, 12)
    requires n == Slice(s, o + 32, 12) && t == Slice(s, o + 44, 16) && r == From(s, o + 60)
    ensures u + (v + (e + (n + (t + r)))) == From(s, o)
  {
    SliceThenRest(s, o + 44, 16);
    SliceThenRest(s, o + 32, 12);
    SliceThenRest(s, o + 20, 12);
    Joins(e, n, t, r, From(s, o + 44), From(s, o + 32), From(s, o + 20));
    SliceThenRest(s, o + 16, 4);
    SliceThenRest(s, o, 16);
  }

  lemma Joins(a: seq<Byte>, b: seq<Byte>, d: seq<Byte>, r: seq<Byte>, dr: seq<Byte>, bdr: seq<Byte>, all: seq<Byte>)
    requires d + r == dr && b + dr == bdr && a + bdr == all
    ensures a + (b + (d + r)) == all
  {
  }

  lemma EncHeaderIs(inf: seq<Byte>, offs: nat, size: nat, b: Body)
    requires ParseEncrypted(inf, offs, size) == Some(b)
    ensures |b.ehdr| == 12 && b.ehdr[..4] == [0x10, 0x08, 0x00, 0x40] && b.ehdr[8..] == [12, 0, 16, 0]
  {
    EncWords(b.ehdr);
  }

  lemma EncWords(e: seq<Byte>)
    requires |e| == 12 && Word(e, 0, 4) == 0x40000810 && Word(e, 8, 2) == 12 && Word(e, 10, 2) == 16
    ensures e[..4] == [0x10, 0x08, 0x00, 0x40] && e[8..] == [12, 0, 16, 0]
  {
    WordOfFour(e, 0);
    WordOfTwo(e, 8);
    WordOfTwo(e, 10);
  }

  lemma SubkeyIsRest(inf: seq<Byte>, offs: nat, size: nat, hdr: seq<Byte>, key: PublicKey, b: Body)
    requires SubkeyRest(inf, offs, size, hdr, key) == Some(b)
    ensures b.Subkey? && Rest(b) == From(inf, offs) && |b.img| == size
  {
    var attrs := if size < 36 then [] else Slice(inf, offs + 36, size - 36);
    TwoSlices(inf, offs, 36 + |attrs|, b.nameSize, b.img, b.nameImg, b.next);
  }

  lemma TwoSlices(s: seq<Byte>, o: nat, k: nat, l: nat, x: seq<Byte>, y: seq<Byte>, r: seq<Byte>)
    requires x == Slice(s, o, k) && y == Slice(s, o + k, l) && r == From(s, o + k + l)
    ensures x + (y + r) == From(s, o)
  {
    var rest := From(s, o + k);
    assert y + r == rest by { SliceThenRest(s, o + k, l); }
    assert x + rest == From(s, o) by { SliceThenRest(s, o, k); }
  }

  /** A subkey is parsed from its header and key. */
  lemma SubkeyPieces(c: Crypto, inf: seq<Byte>, offs: nat, size: nat, b: Body)
    requires ParseSubkey(c, inf, offs, size) == Some(b)
    ensures var hdr := Slice(inf, offs + 16, 20);
            |hdr| == 20 && b.Subkey? && SubkeyRest(inf, offs, size, hdr, b.key) == Some(b)
  {
  }

  lemma SliceOfSlice(s: seq<Byte>, o: nat, n: nat, i: nat, j: nat)
    requires o + n <= |s| && i <= j <= n
    ensures s[o..o + n][i..j] == s[o + i..o + j]
  {
    var t := s[o..o + n];
    forall k | 0 <= k < j - i ensures t[i..j][k] == s[o + i..o + j][k] {
      assert t[i + k] == s[o + (i + k)];
    }
  }

  lemma HdrInImage(inf: seq<Byte>, offs: nat, size: nat, b: Body)
    requires var hdr := Slice(inf, offs + 16, 20);
             |hdr| == 20 && b.Subkey? && SubkeyRest(inf, offs, size, hdr, b.key) == Some(b)
    ensures |b.img| == size >= 36 && Slice(inf, offs + 16, 20) == b.img[16..36] && b.uuid == b.img[..16]
    ensures b.nameSize == Word(b.img[16..36], 0, 4) && b.version == Word(b.img[16..36], 4, 4)
    ensures b.maxDepth == Word(b.img[16..36], 8, 4) && b.algo == Word(b.img[16..36], 12, 4)
  {
    assert |inf| >= offs + 36;
    assert size >= 36 && b.img == inf[offs..offs + size];
    SliceOfSlice(inf, offs, size, 16, 36);
    SliceOfSlice(inf, offs, size, 0, 16);
    assert Slice(inf, offs + 16, 20) == inf[offs + 16..offs + 36] && Slice(inf, offs, 16) == inf[offs..offs + 16];
  }

  /** Which kind of body a file has, and how it was parsed. */
  lemma BodyIsRest(c: Crypto, inf: seq<Byte>, typ: nat, offs: nat, size: nat, b: Body)
    requires ParseBody(c, inf, typ, offs, size) == Some(b)
    ensures Rest(b) == From(inf, offs) && typ == KindNumber(b)
  {
    if typ == 1 {
      BootstrapIsRest(inf, offs, size, b);
    } else if typ == 2 {
      EncryptedIsRest(inf, offs, size, b);
    } else {
      SubkeyPieces(c, inf, offs, size, b);
      SubkeyIsRest(inf, offs, size, Slice(inf, offs + 16, 20), b.key, b);
    }
  }

  function KindNumber(b: Body): Byte {
    match b
    case Bootstrap(_, _, _) => 1
    case Encrypted(_, _, _, _, _, _) => 2
    case Subkey(_, _, _, _, _, _, _, _, _) => 3
  }

  lemma ParsePieces(c: Crypto, inf: seq<Byte>, im: Image) returns (f: Front)
    requires Parse(c, inf) == Some(im)
    ensures ParseFront(inf) == Some(f) && ParseBody(c, inf, f.h.typ, f.offs, f.h.size) == Some(im.body)
    ensures f.shdr == im.shdr && f.h.alg == im.alg && f.digest == im.digest && f.sig == im.sig
    ensures ParseHeader(im.shdr) == Some(f.h)
  {
    f := ParseFront(inf).value;
  }

  lemma FrontIsWhole(inf: seq<Byte>, f: Front)
    requires ParseFront(inf) == Some(f)
    ensures inf == f.shdr + (f.digest + (f.sig + From(inf, f.offs)))
  {
    var rest := From(inf, 52);
    assert f.sig + From(inf, f.offs) == rest by { SliceThenRest(inf, 52, f.h.sigSize); }
    assert f.shdr + (f.digest + rest) == inf by { FrontPieces(inf, f.shdr, f.digest, rest); }
  }

  lemma FrontPieces(inf: seq<Byte>, shdr: seq<Byte>, digest: seq<Byte>, rest: seq<Byte>)
    requires shdr == Slice(inf, 0, 20) && digest == Slice(inf, 20, 32) && rest == From(inf, 52)
    ensures shdr + (digest + rest) == inf
  {
    TwoSlices(inf, 0, 20, 32, shdr, digest, rest);
    assert From(inf, 0) == inf;
  }

  lemma SmallNumber(s: seq<Byte>, k: Byte)
    requires |s| == 20 && Num4(s[4], s[5], s[6], s[7]) == k
    ensures s[4..8] == [k, 0, 0, 0]
  {
  }

  /**
   A parsed file is its header, digest, signature and the parts of its body, one
   behind the other, and the header says which kind of body it is and how long.
   */
  lemma ParsedIsWhole(c: Crypto, inf: seq<Byte>, im: Image)
    requires Parse(c, inf) == Some(im)
    ensures inf == im.shdr + (im.digest + (im.sig + Rest(im.body)))
    ensures ParseHeader(im.shdr).Some? && ParseHeader(im.shdr).value.alg == im.alg && |im.shdr| == 20
    ensures im.shdr[4..8] == [KindNumber(im.body), 0, 0, 0]
  {
    var f := ParsePieces(c, inf, im);
    FrontIsWhole(inf, f);
    BodyIsRest(c, inf, f.h.typ, f.offs, f.h.size, im.body);
    HeaderIsAccepted(im.shdr);
    SmallNumber(im.shdr, KindNumber(im.body));
  }

  // ------------------------------------------------------------------- the bodies

  function SizeOf(shdr: seq<Byte>): int
    requires |shdr| == 20
  {
    Num4(shdr[8], shdr[9], shdr[10], shdr[11])
  }

  /** The application is as long as the header says, encrypted or not; encryption is AES-GCM with the usual lengths. */
  lemma AppFieldsAre(c: Crypto, inf: seq<Byte>, im: Image)
    requires Parse(c, inf) == Some(im) && !im.body.Subkey?
    ensures |im.shdr| == 20
    ensures im.body.Bootstrap? ==> |im.body.img| == SizeOf(im.shdr)
    ensures im.body.Encrypted? ==>
              && |im.body.ciphertext| == SizeOf(im.shdr)
              && |im.body.ehdr| == 12 && im.body.ehdr[..4] == [0x10, 0x08, 0x00, 0x40]
              && im.body.ehdr[8..] == [12, 0, 16, 0]
  {
    var f := ParsePieces(c, inf, im);
    HeaderIsAccepted(im.shdr);
    BodyIsRest(c, inf, f.h.typ, f.offs, f.h.size, im.body);
    if f.h.typ == 1 {
      BootstrapIsRest(inf, f.offs, f.h.size, im.body);
    } else {
      EncryptedIsRest(inf, f.offs, f.h.size, im.body);
      EncHeaderIs(inf, f.offs, f.h.size, im.body);
    }
  }

  lemma NumbersOf(img: seq<Byte>, h: seq<Byte>)
    requires |img| >= 36 && h == img[16..36]
    ensures Word(h, 0, 4) == Num4(img[16], img[17], img[18], img[19])
    ensures Word(h, 4, 4) == Num4(img[20], img[21], img[22], img[23])
    ensures Word(h, 8, 4) == Num4(img[24], img[25], img[26], img[27])
    ensures Word(h, 12, 4) == Num4(img[28], img[29], img[30], img[31])
  {
    WordOfFour(h, 0);
    WordOfFour(h, 4);
    WordOfFour(h, 8);
    WordOfFour(h, 12);
  }

  /** The numbers of a subkey, as they stand in its image. */
  predicate NumbersStand(b: Body)
    requires b.Subkey?
  {
    var s := b.img;
    && |s| >= 36 && b.uuid == s[..16]
    && b.nameSize == Num4(s[16], s[17], s[18], s[19]) && b.version == Num4(s[20], s[21], s[22], s[23])
    && b.maxDepth == Num4(s[24], s[25], s[26], s[27]) && b.algo == Num4(s[28], s[29], s[30], s[31])
  }

  lemma SubkeyNumbers(c: Crypto, inf: seq<Byte>, offs: nat, size: nat, b: Body)
    requires ParseSubkey(c, inf, offs, size) == Some(b)
    ensures b.Subkey? && |b.img| == size && NumbersStand(b)
  {
    SubkeyPieces(c, inf, offs, size, b);
    HdrInImage(inf, offs, size, b);
    NumbersOf(b.img, b.img[16..36]);
  }

  /** Identity, name size, version, depth and algorithm of a subkey, and the length of its image. */
  lemma SubkeyFieldsAre(c: Crypto, inf: seq<Byte>, im: Image)
    requires Parse(c, inf) == Some(im) && im.body.Subkey?
    ensures |im.shdr| == 20 && |im.body.img| == SizeOf(im.shdr) && NumbersStand(im.body)
  {
    var f := ParsePieces(c, inf, im);
    HeaderIsAccepted(im.shdr);
    BodyIsRest(c, inf, f.h.typ, f.offs, f.h.size, im.body);
    SubkeyNumbers(c, inf, f.offs, f.h.size, im.body);
  }

  /** Entry i of the attribute table at offs, 36 bytes behind the start of the subkey, 12 bytes each. */
  function TableEntry(inf: seq<Byte>, offs: nat, i: nat): seq<Byte> {
    Slice(inf, offs + 36 + i * 12, 12)
  }

  /** Entry i says that attribute number attr is v: its number, where it lies from offs on, and its length. */
  predicate Gives(inf: seq<Byte>, offs: nat, i: nat, attr: nat, v: seq<Byte>) {
    var e := TableEntry(inf, offs, i);
    && |e| == 12 && Num4(e[0], e[1], e[2], e[3]) == attr
    && v == Slice(inf, offs + FromLe(e[4..8]), FromLe(e[8..12]))
  }

  /** The first of count entries with that number gives v. */
  ghost predicate FirstGives(inf: seq<Byte>, offs: nat, count: nat, attr: nat, v: seq<Byte>) {
    exists i: nat :: i < count && Gives(inf, offs, i, attr, v) && NoneBefore(inf, offs, 0, i, attr)
  }

  predicate NoneBefore(inf: seq<Byte>, offs: nat, n: nat, i: nat, attr: nat) {
    forall j: nat :: n <= j < i ==>
      var e := TableEntry(inf, offs, j); |e| == 12 && Num4(e[0], e[1], e[2], e[3]) != attr
  }

  lemma {:induction false} AttrIsFound(inf: seq<Byte>, offs: nat, attr: nat, n: nat, count: nat) returns (i: nat)
    requires FindAttr(inf, offs, attr, n, count).Some?
    ensures n <= i < count && Gives(inf, offs, i, attr, FindAttr(inf, offs, attr, n, count).value)
    ensures NoneBefore(inf, offs, n, i, attr)
    decreases count - n
  {
    var e := TableEntry(inf, offs, n);
    WordOfFour(e, 0);
    if Word(e, 0, 4) == attr {
      i := n;
    } else {
      i := AttrIsFound(inf, offs, attr, n + 1, count);
    }
  }

  /** The key of a subkey is the pair of numbers that the table has under 0xD0000130 and 0xD0000230. */
  lemma SubkeyKeyIs(c: Crypto, inf: seq<Byte>, offs: nat, size: nat, b: Body)
    requires ParseSubkey(c, inf, offs, size) == Some(b)
    ensures exists n, e :: IsKey(inf, offs, Word(Slice(inf, offs + 16, 20), 16, 4), n, e)
                           && b.key == PublicKey(FromBe(n), FromBe(e))
    ensures c.usable(b.key)
  {
    var count := Word(Slice(inf, offs + 16, 20), 16, 4);
    var n, e := FindAttr(inf, offs, RSA_MODULUS, 0, count), FindAttr(inf, offs, RSA_PUBLIC_EXPONENT, 0, count);
    var i := AttrIsFound(inf, offs, RSA_MODULUS, 0, count);
    var j := AttrIsFound(inf, offs, RSA_PUBLIC_EXPONENT, 0, count);
    assert IsKey(inf, offs, count, n.value, e.value);
  }

  ghost predicate IsKey(inf: seq<Byte>, offs: nat, count: nat, n: seq<Byte>, e: seq<Byte>) {
    FirstGives(inf, offs, count, 0xD0000130, n) && FirstGives(inf, offs, count, 0xD0000230, e)
  }

  /** An application is signed exactly if its numbers fit their fields and the key type is one of the two there are. */
  lemma WhenAppIsSigned(c: Crypto, signer: PrivateKey, a: App)
    ensures AppFile(c, signer, a).Some?
            <==> && |a.plain| < 0x1_0000_0000 && a.version < 0x1_0000_0000 && c.sigSize(c.publicOf(signer)) < 0x1_0000
                 && (a.enc.AesGcm? ==> a.enc.keyType == 0 || a.enc.keyType == 1)
  {
  }

  // -------------------------------------------------------------------- tampering

  /**
   An accepted application in the clear is the only accepted file with its
   header, digest and signature, unless the digest has a collision: no byte of
   it can be changed.
   */
  lemma ClearFileCannotBeChanged(c: Crypto, encKey: Option<seq<Byte>>, uuid: Uuid, inf: seq<Byte>, inf': seq<Byte>,
                                 key: PublicKey, im: Image, im': Image)
    requires Parse(c, inf) == Some(im) && Parse(c, inf') == Some(im') && SameFront(im, im') && im.body.Bootstrap?
    requires Verify(c, encKey, uuid, inf, key) && Verify(c, encKey, uuid, inf', key)
    ensures im'.body.Bootstrap?
    ensures inf == inf' || Collide(c, im.shdr + Rest(im.body), im.shdr + Rest(im'.body))
  {
    ParsedIsWhole(c, inf, im);
    ParsedIsWhole(c, inf', im');
    assert im.shdr[4..8][0] == im'.shdr[4..8][0];
    LastImage(c, inf, im);
    LastImage(c, inf', im');
    TamperingIsNoticed(c, encKey, uuid, inf, inf', key, 0);
    ContentIsRest(c, encKey, im.body);
    ContentIsRest(c, encKey, im'.body);
  }

  lemma ContentIsRest(c: Crypto, encKey: Option<seq<Byte>>, b: Body)
    requires b.Bootstrap?
    ensures Content(c, encKey, b) == Some(Rest(b))
  {
    assert b.taUuid + b.taVersion + b.img == Rest(b);
  }
}
