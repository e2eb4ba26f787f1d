/** Exactly when verification accepts a chain that was built with matching keys. */
module SignedTaVerify {
  import opened Wrappers
  import opened Bytes
  import opened SignedTa
  import opened SignedTaRoundTrip
  import opened SignedTaChain
  import opened SignedTaAccept

  // ------------------------------------------------------------- one step each

  lemma {:induction false} ImpossibleRejects(c: Crypto, encKey: Option<seq<Byte>>, uuid: Uuid, inf: seq<Byte>,
                                             key: PublicKey, depth: int)
    ensures !VerifyFrom(c, encKey, uuid, inf, key, Impossible, depth)
  {
  }

  lemma LinkIsAuthentic(c: Crypto, s: Sub, nameImg: seq<Byte>, next: seq<Byte>)
    requires CryptoOk(c)
    ensures Authentic(c, LinkImage(c, s, nameImg, next), c.publicOf(s.signer), SubkeyImage(c, s))
  {
  }

  /** The name behind a subkey decides what the next identity must be. */
  lemma LinkWants(c: Crypto, s: Sub, next: seq<Byte>)
    requires CryptoOk(c) && NameOk(c, s)
    ensures WantAfter(c, LinkImage(c, s, NameField(s.name, s.nameSize), next).body)
            == Some(if s.nameSize > 0 then Exactly(c.uuid5(s.uuid, s.name)) else Impossible)
  {
    if s.nameSize > 0 {
      FieldBack(s.name, s.nameSize);
      if |s.name| < s.nameSize { assert c.utf8(s.name + Zeros(s.nameSize - |s.name|)); }
    }
  }

  /** A subkey in front of something: it must be named, and what follows must verify. */
  lemma LinkVerifies(c: Crypto, encKey: Option<seq<Byte>>, uuid: Uuid, s: Sub, rest: seq<Byte>, inf: seq<Byte>,
                     want: Want, depth: int)
    requires CryptoOk(c) && SubOk(c, s) && rest != [] && inf == Link(c, s, rest)
    requires depth >= 0 ==> s.maxDepth < depth
    ensures VerifyFrom(c, encKey, uuid, inf, c.publicOf(s.signer), want, depth)
            <==> && Meets(want, s.uuid) && s.nameSize > 0
                 && VerifyFrom(c, encKey, uuid, rest, c.publicOf(s.owner), Exactly(c.uuid5(s.uuid, s.name)), s.maxDepth)
  {
    var field := NameField(s.name, s.nameSize);
    var im := LinkImage(c, s, field, rest);
    LinkParses(c, s, rest);
    LinkIsAuthentic(c, s, field, rest);
    LinkWants(c, s, rest);
    LinkStep(c, encKey, uuid, s, rest, inf, want, depth, im);
  }

  lemma LinkStep(c: Crypto, encKey: Option<seq<Byte>>, uuid: Uuid, s: Sub, rest: seq<Byte>, inf: seq<Byte>,
                 want: Want, depth: int, im: Image)
    requires Parse(c, inf) == Some(im) && im.body.Subkey? && im.body.next == rest != []
    requires im.body.key == c.publicOf(s.owner) && im.body.maxDepth == s.maxDepth && im.body.uuid == s.uuid
    requires depth >= 0 ==> s.maxDepth < depth
    requires Authentic(c, im, c.publicOf(s.signer), im.body.img)
    requires WantAfter(c, im.body) == Some(if s.nameSize > 0 then Exactly(c.uuid5(s.uuid, s.name)) else Impossible)
    ensures VerifyFrom(c, encKey, uuid, inf, c.publicOf(s.signer), want, depth)
            <==> && Meets(want, s.uuid) && s.nameSize > 0
                 && VerifyFrom(c, encKey, uuid, rest, c.publicOf(s.owner), Exactly(c.uuid5(s.uuid, s.name)), s.maxDepth)
  {
    VerifyStep(c, encKey, uuid, inf, c.publicOf(s.signer), want, depth, im);
    ImpossibleRejects(c, encKey, uuid, rest, c.publicOf(s.owner), s.maxDepth);
  }

  lemma BlockVerifies(c: Crypto, encKey: Option<seq<Byte>>, uuid: Uuid, s: Sub, want: Want, depth: int)
    requires CryptoOk(c) && SubkeyFits(c, s) && (depth >= 0 ==> s.maxDepth < depth)
    ensures VerifyFrom(c, encKey, uuid, SubkeyBlock(c, s), c.publicOf(s.signer), want, depth) <==> Meets(want, s.uuid)
  {
    BlockParses(c, s);
    LinkIsAuthentic(c, s, [], []);
    VerifyStep(c, encKey, uuid, SubkeyBlock(c, s), c.publicOf(s.signer), want, depth, LinkImage(c, s, [], []));
  }

  // ---------------------------------------------------------------- applications

  predicate HasKey(encKey: Option<seq<Byte>>, a: App) {
    a.enc.AesGcm? ==> encKey == Some(a.enc.key)
  }

  lemma AppIsRight(c: Crypto, encKey: Option<seq<Byte>>, uuid: Uuid, signer: PrivateKey, a: App, want: Want)
    requires CryptoOk(c) && HasKey(encKey, a)
    ensures AppVerifies(c, encKey, uuid, AppImage(c, signer, a), c.publicOf(signer), want)
            <==> Meets(want, a.uuid) && uuid == a.uuid
  {
    match a.enc
    case Clear =>
    case AesGcm(key, keyType, nonce) =>
      var out := c.encrypt(key, nonce, a.plain);
      assert Ciphertext(out) + Tag(out) == out;
  }

  lemma AppStep(c: Crypto, encKey: Option<seq<Byte>>, uuid: Uuid, inf: seq<Byte>, key: PublicKey, want: Want,
                depth: int, im: Image)
    requires Parse(c, inf) == Some(im) && !im.body.Subkey?
    ensures VerifyFrom(c, encKey, uuid, inf, key, want, depth) <==> AppVerifies(c, encKey, uuid, im, key, want)
  {
  }

  lemma AppAccepted(c: Crypto, encKey: Option<seq<Byte>>, uuid: Uuid, signer: PrivateKey, a: App, want: Want,
                    depth: int)
    requires CryptoOk(c) && HasKey(encKey, a) && AppFile(c, signer, a).Some?
    ensures VerifyFrom(c, encKey, uuid, AppFile(c, signer, a).value, c.publicOf(signer), want, depth)
            <==> Meets(want, a.uuid) && uuid == a.uuid
  {
    AppRoundTrip(c, signer, a);
    AppIsRight(c, encKey, uuid, signer, a, want);
    AppStep(c, encKey, uuid, AppFile(c, signer, a).value, c.publicOf(signer), want, depth, AppImage(c, signer, a));
  }

  // -------------------------------------------------------------------- chains

  function FirstUuid(subs: seq<Sub>, end: Uuid): Uuid {
    if subs == [] then end else subs[0].uuid
  }

  /** The key that signs what stands behind the subkeys. */
  function EndKey(root: PrivateKey, subs: seq<Sub>): PrivateKey {
    if subs == [] then root else subs[|subs| - 1].owner
  }

  /** Each subkey is signed by the one before it and has a smaller depth. */
  predicate WellBuilt(c: Crypto, root: PrivateKey, subs: seq<Sub>, depth: int)
    decreases |subs|
  {
    subs != [] ==>
      && SubOk(c, subs[0]) && subs[0].signer == root && (depth >= 0 ==> subs[0].maxDepth < depth)
      && WellBuilt(c, subs[0].owner, subs[1..], subs[0].maxDepth)
  }

  /** Each subkey has a name field, and what follows it the identity derived from its name; end is the last one. */
  predicate Derived(c: Crypto, subs: seq<Sub>, end: Uuid) {
    forall i :: 0 <= i < |subs| ==>
      subs[i].nameSize > 0 && FirstUuid(subs[i + 1..], end) == c.uuid5(subs[i].uuid, subs[i].name)
  }

  lemma DerivedSplits(c: Crypto, subs: seq<Sub>, end: Uuid)
    requires subs != []
    ensures Derived(c, subs, end)
            <==> && subs[0].nameSize > 0 && FirstUuid(subs[1..], end) == c.uuid5(subs[0].uuid, subs[0].name)
                 && Derived(c, subs[1..], end)
  {
    var rest := subs[1..];
    assert forall i :: 0 <= i < |rest| ==> rest[i] == subs[i + 1] && rest[i + 1..] == subs[i + 1 + 1..];
    if !Derived(c, subs, end) && subs[0].nameSize > 0 && FirstUuid(rest, end) == c.uuid5(subs[0].uuid, subs[0].name) {
      var i :| 0 <= i < |subs|
               && !(subs[i].nameSize > 0 && FirstUuid(subs[i + 1..], end) == c.uuid5(subs[i].uuid, subs[i].name));
      assert rest[i - 1] == subs[i];
    }
  }

  lemma EndKeyOfRest(root: PrivateKey, subs: seq<Sub>)
    requires subs != []
    ensures EndKey(subs[0].owner, subs[1..]) == EndKey(root, subs)
  {
  }

  /** An induction step: what follows the first subkey must have the derived identity, and rest be true of it. */
  lemma ChainStep(c: Crypto, encKey: Option<seq<Byte>>, uuid: Uuid, root: PrivateKey, subs: seq<Sub>, end: Uuid,
                  tail: seq<Byte>, want: Want, depth: int, rest: bool)
    requires CryptoOk(c) && subs != [] && WellBuilt(c, root, subs, depth) && tail != []
    requires VerifyFrom(c, encKey, uuid, Wire(c, subs[1..], tail), c.publicOf(subs[0].owner),
                        Exactly(c.uuid5(subs[0].uuid, subs[0].name)), subs[0].maxDepth)
             <==> FirstUuid(subs[1..], end) == c.uuid5(subs[0].uuid, subs[0].name) && Derived(c, subs[1..], end) && rest
    ensures VerifyFrom(c, encKey, uuid, Wire(c, subs, tail), c.publicOf(root), want, depth)
            <==> Meets(want, subs[0].uuid) && Derived(c, subs, end) && rest
  {
    WireIsLong(c, subs[1..], tail);
    WireIsLink(c, subs, tail);
    LinkVerifies(c, encKey, uuid, subs[0], Wire(c, subs[1..], tail), Wire(c, subs, tail), want, depth);
    DerivedSplits(c, subs, end);
  }

  lemma {:induction false} AppChainFrom(c: Crypto, encKey: Option<seq<Byte>>, uuid: Uuid, root: PrivateKey,
                                        subs: seq<Sub>, a: App, f: seq<Byte>, want: Want, depth: int)
    requires CryptoOk(c) && HasKey(encKey, a) && AppFile(c, EndKey(root, subs), a) == Some(f) && f != []
    requires WellBuilt(c, root, subs, depth)
    ensures VerifyFrom(c, encKey, uuid, Wire(c, subs, f), c.publicOf(root), want, depth)
            <==> Meets(want, FirstUuid(subs, a.uuid)) && Derived(c, subs, a.uuid) && uuid == a.uuid
    decreases |subs|
  {
    if subs == [] {
      AppAccepted(c, encKey, uuid, root, a, want, depth);
    } else {
      var s := subs[0];
      EndKeyOfRest(root, subs);
      AppChainFrom(c, encKey, uuid, s.owner, subs[1..], a, f, Exactly(c.uuid5(s.uuid, s.name)), s.maxDepth);
      ChainStep(c, encKey, uuid, root, subs, a.uuid, f, want, depth, uuid == a.uuid);
    }
  }

  lemma AppIsLong(c: Crypto, signer: PrivateKey, a: App)
    requires LengthsOk(c) && AppFile(c, signer, a).Some?
    ensures AppFile(c, signer, a).value != []
  {
  }

  /**
   A chain built with matching keys and falling depths, ending in an application,
   is accepted exactly if the application is the one asked for, every subkey has
   a name field, and every identity is the one derived from the subkey in front.
   */
  lemma AppChainAccepted(c: Crypto, encKey: Option<seq<Byte>>, uuid: Uuid, root: PrivateKey, subs: seq<Sub>, a: App)
    requires CryptoOk(c) && HasKey(encKey, a) && AppFile(c, EndKey(root, subs), a).Some?
    requires WellBuilt(c, root, subs, -1)
    ensures Verify(c, encKey, uuid, Wire(c, subs, AppFile(c, EndKey(root, subs), a).value), c.publicOf(root))
            <==> Derived(c, subs, a.uuid) && uuid == a.uuid
  {
    AppIsLong(c, EndKey(root, subs), a);
    AppChainFrom(c, encKey, uuid, root, subs, a, AppFile(c, EndKey(root, subs), a).value, Anything, -1);
  }

  lemma {:induction false} SubkeyChainFrom(c: Crypto, encKey: Option<seq<Byte>>, uuid: Uuid, root: PrivateKey,
                                           subs: seq<Sub>, last: Sub, want: Want, depth: int)
    requires CryptoOk(c) && SubkeyFits(c, last) && last.signer == EndKey(root, subs) && WellBuilt(c, root, subs, depth)
    requires if subs == [] then depth >= 0 ==> last.maxDepth < depth else last.maxDepth < subs[|subs| - 1].maxDepth
    ensures VerifyFrom(c, encKey, uuid, Wire(c, subs, SubkeyBlock(c, last)), c.publicOf(root), want, depth)
            <==> Meets(want, FirstUuid(subs, last.uuid)) && Derived(c, subs, last.uuid)
    decreases |subs|
  {
    if subs == [] {
      BlockVerifies(c, encKey, uuid, last, want, depth);
    } else {
      var s := subs[0];
      EndKeyOfRest(root, subs);
      BlockIsLong(c, last);
      SubkeyChainFrom(c, encKey, uuid, s.owner, subs[1..], last, Exactly(c.uuid5(s.uuid, s.name)), s.maxDepth);
      ChainStep(c, encKey, uuid, root, subs, last.uuid, SubkeyBlock(c, last), want, depth, true);
    }
  }

  /** The same for a chain that ends in a subkey, whose own name field does not matter. */
  lemma SubkeyChainAccepted(c: Crypto, encKey: Option<seq<Byte>>, uuid: Uuid, root: PrivateKey, subs: seq<Sub>,
                            last: Sub)
    requires CryptoOk(c) && SubkeyFits(c, last) && last.signer == EndKey(root, subs)
    requires WellBuilt(c, root, subs, -1) && (subs != [] ==> last.maxDepth < subs[|subs| - 1].maxDepth)
    ensures Verify(c, encKey, uuid, Wire(c, subs, SubkeyBlock(c, last)), c.publicOf(root))
            <==> Derived(c, subs, last.uuid)
  {
    SubkeyChainFrom(c, encKey, uuid, root, subs, last, Anything, -1);
  }
}
