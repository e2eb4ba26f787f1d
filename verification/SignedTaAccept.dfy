/** What building guarantees, and exactly when verification accepts what was built. */
module SignedTaAccept {
  import opened Wrappers
  import opened Bytes
  import opened SignedTa
  import opened SignedTaRoundTrip
  import opened SignedTaChain

  /** The cryptography library and the text encoding do what they promise. */
  ghost predicate CryptoOk(c: Crypto) {
    && LengthsOk(c)
    && (forall k :: c.usable(c.publicOf(k)))
    && (forall k, a, salt, d :: c.verify(c.publicOf(k), a, c.sign(k, a, salt, d), d))
    && (forall k, n: Nonce, p :: c.decrypt(k, n, c.encrypt(k, n, p)) == Some(p))
    && (forall name, n :: c.utf8(name) ==> c.utf8(name + Zeros(n)))
  }

  /** One key, empty signatures, encryption that adds a tag of zeros. */
  function Plain(): Crypto {
    Crypto(
      _ => Zeros(HASH_SIZE), _ => PublicKey(0, 0), _ => true, _ => 0,
      (_, _, _, _) => [], (_, _, _, _) => true,
      (_, _, p) => p + Zeros(TAG_SIZE),
      (_, _, out) => if |out| < TAG_SIZE then None else Some(out[..|out| - TAG_SIZE]),
      (_, _) => Zeros(UUID_SIZE), _ => true)
  }

  /** The promises can be kept together. */
  lemma PromisesAreConsistent()
    ensures CryptoOk(Plain())
  {
    var c := Plain();
    forall k, n: Nonce, p ensures c.decrypt(k, n, c.encrypt(k, n, p)) == Some(p) {
      assert (p + Zeros(TAG_SIZE))[..|p|] == p;
    }
    assert CryptoOk(c);
  }

  // -------------------------------------------------------------------- names

  /** What follows a subkey is found exactly if the name fits its field. */
  lemma NameFitsField(name: seq<Byte>, size: nat, rest: seq<Byte>)
    ensures From(NameField(name, size) + rest, size) == rest <==> |name| <= size
    ensures |name| <= size ==> Slice(NameField(name, size) + rest, 0, size) == NameField(name, size)
  {
    var field := NameField(name, size);
    var s := field + rest;
    if |name| <= size {
      assert |field| == size;
      assert s[..size] == field && s[size..] == rest;
    } else {
      assert |s[size..]| == |name| - size + |rest|;
    }
  }

  predicate NoZero(name: seq<Byte>) {
    forall i :: 0 <= i < |name| ==> name[i] != 0
  }

  lemma {:induction false} NameTextBack(name: seq<Byte>, zeros: seq<Byte>)
    requires NoZero(name) && (zeros == [] || zeros[0] == 0)
    ensures NameText(name + zeros) == name
    decreases |name|
  {
    if name == [] {
      assert name + zeros == zeros;
    } else {
      assert (name + zeros)[1..] == name[1..] + zeros;
      NameTextBack(name[1..], zeros);
    }
  }

  lemma FieldBack(name: seq<Byte>, size: nat)
    requires NoZero(name) && |name| <= size
    ensures NameText(NameField(name, size)) == name
  {
    if |name| == size {
      assert name + [] == name;
      NameTextBack(name, []);
    } else {
      NameTextBack(name, Zeros(size - |name|));
    }
  }

  // ------------------------------------------------------------------- parsing

  predicate NameOk(c: Crypto, s: Sub) {
    |s.name| <= s.nameSize && NoZero(s.name) && c.utf8(s.name)
  }

  predicate SubOk(c: Crypto, s: Sub) {
    SubkeyFits(c, s) && NameOk(c, s)
  }

  /** A subkey with its name field, in front of rest. */
  function Link(c: Crypto, s: Sub, rest: seq<Byte>): seq<Byte> {
    SubkeyBlock(c, s) + (NameField(s.name, s.nameSize) + rest)
  }

  function LinkImage(c: Crypto, s: Sub, nameImg: seq<Byte>, next: seq<Byte>): Image {
    var h := SubHeader(c, s);
    var d := c.digest(HeaderBytes(h) + SubkeyImage(c, s));
    Image(HeaderBytes(h), s.alg, d, c.sign(s.signer, s.alg, s.salt, d),
          Subkey(s.uuid, s.nameSize, s.version, s.maxDepth, AlgValue(s.alg), c.publicOf(s.owner), SubkeyImage(c, s),
                 nameImg, next))
  }

  lemma LinkParses(c: Crypto, s: Sub, rest: seq<Byte>)
    requires CryptoOk(c) && SubkeyFits(c, s) && |s.name| <= s.nameSize
    ensures Parse(c, Link(c, s, rest)) == Some(LinkImage(c, s, NameField(s.name, s.nameSize), rest))
  {
    SubkeyRoundTrip(c, s, NameField(s.name, s.nameSize) + rest);
    NameFitsField(s.name, s.nameSize, rest);
  }

  lemma BlockParses(c: Crypto, s: Sub)
    requires CryptoOk(c) && SubkeyFits(c, s)
    ensures Parse(c, SubkeyBlock(c, s)) == Some(LinkImage(c, s, [], []))
  {
    SubkeyRoundTrip(c, s, []);
    assert SubkeyBlock(c, s) + [] == SubkeyBlock(c, s);
  }

  /** The images of a file, one behind the other. */
  function Images(c: Crypto, inf: seq<Byte>): seq<Image>
    decreases |inf|
  {
    match Parse(c, inf)
    case None => []
    case Some(im) =>
      if !im.body.Subkey? || im.body.next == [] then [im] else NextIsShorter(c, inf); [im] + Images(c, im.body.next)
  }

  predicate IsLink(c: Crypto, subs: seq<Sub>, tail: seq<Byte>, i: nat, im: Image)
    requires i < |subs|
  {
    im == LinkImage(c, subs[i], NameField(subs[i].name, subs[i].nameSize), Wire(c, subs[i + 1..], tail))
  }

  lemma WireIsLink(c: Crypto, subs: seq<Sub>, tail: seq<Byte>)
    requires subs != []
    ensures Wire(c, subs, tail) == Link(c, subs[0], Wire(c, subs[1..], tail))
  {
  }

  lemma BlockIsLong(c: Crypto, s: Sub)
    requires LengthsOk(c)
    ensures |SubkeyBlock(c, s)| > 0
  {
  }

  lemma WireIsLong(c: Crypto, subs: seq<Sub>, tail: seq<Byte>)
    requires LengthsOk(c) && tail != []
    ensures Wire(c, subs, tail) != []
  {
    if subs != [] { BlockIsLong(c, subs[0]); }
  }

  lemma ImagesStep(c: Crypto, inf: seq<Byte>, im: Image)
    requires Parse(c, inf) == Some(im) && im.body.Subkey? && im.body.next != []
    ensures Images(c, inf) == [im] + Images(c, im.body.next)
  {
    NextIsShorter(c, inf);
  }

  /** Parsing on and on recovers every subkey of a chain with its name, whatever its length, and then the rest. */
  lemma {:induction false} ChainParses(c: Crypto, subs: seq<Sub>, tail: seq<Byte>)
    requires CryptoOk(c) && tail != []
    requires forall i :: 0 <= i < |subs| ==> SubkeyFits(c, subs[i]) && |subs[i].name| <= subs[i].nameSize
    ensures var ims := Images(c, Wire(c, subs, tail));
            && |ims| == |subs| + |Images(c, tail)| && ims[|subs|..] == Images(c, tail)
            && forall i :: 0 <= i < |subs| ==> IsLink(c, subs, tail, i, ims[i])
    decreases |subs|
  {
    if subs != [] {
      var rest := Wire(c, subs[1..], tail);
      var im := LinkImage(c, subs[0], NameField(subs[0].name, subs[0].nameSize), rest);
      LinkParses(c, subs[0], rest);
      WireIsLink(c, subs, tail);
      WireIsLong(c, subs[1..], tail);
      ImagesStep(c, Wire(c, subs, tail), im);
      ChainParses(c, subs[1..], tail);
      ChainJoins(c, subs, tail, im, Images(c, rest), Images(c, Wire(c, subs, tail)));
    }
  }

  lemma FirstAndRest<T>(x: T, s: seq<T>, n: nat)
    requires 0 < n <= |s| + 1
    ensures ([x] + s)[n..] == s[n - 1..]
  {
  }

  lemma ChainJoins(c: Crypto, subs: seq<Sub>, tail: seq<Byte>, im: Image, ims: seq<Image>, all: seq<Image>)
    requires subs != [] && all == [im] + ims && |ims| >= |subs| - 1 && IsLink(c, subs, tail, 0, im)
    requires forall i :: 0 <= i < |subs| - 1 ==> IsLink(c, subs[1..], tail, i, ims[i])
    ensures all[|subs|..] == ims[|subs| - 1..]
    ensures forall i :: 0 <= i < |subs| ==> IsLink(c, subs, tail, i, all[i])
  {
    FirstAndRest(im, ims, |subs|);
    forall i | 0 <= i < |subs| ensures IsLink(c, subs, tail, i, all[i]) {
      if i > 0 {
        var k := i - 1;
        LinkOfRest(c, subs, tail, i, ims[k]);
      }
    }
  }

  lemma LinkOfRest(c: Crypto, subs: seq<Sub>, tail: seq<Byte>, i: nat, im: Image)
    requires 0 < i < |subs| && IsLink(c, subs[1..], tail, i - 1, im)
    ensures IsLink(c, subs, tail, i, im)
  {
    assert subs[1..][i..] == subs[i + 1..];
  }
}
