/** Signing one subkey or application after the other builds exactly the chains that verification is about. */
module SignedTaBuild {
  import opened Wrappers
  import opened Bytes
  import opened SignedTa
  import opened SignedTaChain
  import opened SignedTaAccept
  import opened SignedTaVerify

  // ------------------------------------------------------- appending to a file

  lemma {:induction false} WireAppends(c: Crypto, subs: seq<Sub>, tail: seq<Byte>, more: seq<Byte>)
    ensures Wire(c, subs, tail) + more == Wire(c, subs, tail + more)
    decreases |subs|
  {
    if subs != [] {
      var block, field := SubkeyBlock(c, subs[0]), NameField(subs[0].name, subs[0].nameSize);
      var rest := Wire(c, subs[1..], tail);
      WireAppends(c, subs[1..], tail, more);
      Associate(block, field, rest, more);
    }
  }

  lemma Associate(a: seq<Byte>, b: seq<Byte>, d: seq<Byte>, e: seq<Byte>)
    ensures a + (b + d) + e == a + (b + (d + e))
  {
  }

  lemma {:induction false} WireEndsIn(c: Crypto, subs: seq<Sub>, s: Sub, tail: seq<Byte>)
    ensures Wire(c, subs + [s], tail) == Wire(c, subs, Link(c, s, tail))
    decreases |subs|
  {
    if subs == [] {
      assert [s][1..] == [];
      assert subs + [s] == [s];
    } else {
      assert (subs + [s])[1..] == subs[1..] + [s];
      WireEndsIn(c, subs[1..], s, tail);
    }
  }

  lemma Three(a: seq<Byte>, b: seq<Byte>, d: seq<Byte>)
    ensures a + b + d == a + (b + d)
  {
  }

  lemma WireThree(c: Crypto, subs: seq<Sub>, block: seq<Byte>, field: seq<Byte>, more: seq<Byte>)
    ensures Wire(c, subs, block) + field + more == Wire(c, subs, block + (field + more))
  {
    WireAppends(c, subs, block, field);
    WireAppends(c, subs, block + field, more);
    Three(block, field, more);
  }

  lemma RenamedBlock(c: Crypto, s: Sub, name: seq<Byte>)
    ensures SubkeyBlock(c, s.(name := name)) == SubkeyBlock(c, s)
  {
  }

  lemma LinkIs(c: Crypto, s: Sub, name: seq<Byte>, more: seq<Byte>)
    ensures Link(c, s.(name := name), more) == SubkeyBlock(c, s) + (NameField(name, s.nameSize) + more)
  {
    RenamedBlock(c, s, name);
  }

  /** A file, the name field of its last subkey, and more: the chain grows by one. */
  lemma FileGrows(c: Crypto, subs: seq<Sub>, last: Sub, name: seq<Byte>, more: seq<Byte>, file: seq<Byte>)
    requires file == ChainFile(c, subs, last) + NameField(name, last.nameSize) + more
    ensures file == Wire(c, subs + [last.(name := name)], more)
  {
    WireThree(c, subs, SubkeyBlock(c, last), NameField(name, last.nameSize), more);
    LinkIs(c, last, name, more);
    WireEndsIn(c, subs, last.(name := name), more);
  }

  // ------------------------------------------------------------ the last subkey

  lemma LastStep(c: Crypto, inf: seq<Byte>, im: Image)
    requires Parse(c, inf) == Some(im) && im.body.Subkey?
    ensures LastSubkey(c, inf) == if im.body.next == [] then Some(im.body) else LastSubkey(c, im.body.next)
  {
    NextIsShorter(c, inf);
  }

  /** Walking a chain comes to its last subkey. */
  lemma {:induction false} LastIsLast(c: Crypto, subs: seq<Sub>, last: Sub)
    requires CryptoOk(c) && SubkeyFits(c, last)
    requires forall i :: 0 <= i < |subs| ==> SubkeyFits(c, subs[i]) && |subs[i].name| <= subs[i].nameSize
    ensures LastSubkey(c, Wire(c, subs, SubkeyBlock(c, last))) == Some(LinkImage(c, last, [], []).body)
    decreases |subs|
  {
    var tail := SubkeyBlock(c, last);
    if subs == [] {
      BlockParses(c, last);
      LastStep(c, tail, LinkImage(c, last, [], []));
    } else {
      var rest := Wire(c, subs[1..], tail);
      BlockIsLong(c, last);
      WireIsLong(c, subs[1..], tail);
      WireIsLink(c, subs, tail);
      LinkParses(c, subs[0], rest);
      LastStep(c, Wire(c, subs, tail), LinkImage(c, subs[0], NameField(subs[0].name, subs[0].nameSize), rest));
      LastIsLast(c, subs[1..], last);
    }
  }

  // ------------------------------------------------------------- one more signature

  /** The subkeys subs and then last, as a file of their own. */
  predicate GoodChain(c: Crypto, root: PrivateKey, subs: seq<Sub>, last: Sub) {
    && SubkeyFits(c, last) && last.signer == EndKey(root, subs) && WellBuilt(c, root, subs, -1)
    && (subs != [] ==> last.maxDepth < subs[|subs| - 1].maxDepth)
  }

  function ChainFile(c: Crypto, subs: seq<Sub>, last: Sub): seq<Byte> {
    Wire(c, subs, SubkeyBlock(c, last))
  }

  lemma {:induction false} WellBuiltMembers(c: Crypto, root: PrivateKey, subs: seq<Sub>, depth: int)
    requires WellBuilt(c, root, subs, depth)
    ensures forall i :: 0 <= i < |subs| ==> SubOk(c, subs[i])
    decreases |subs|
  {
    if subs != [] {
      WellBuiltMembers(c, subs[0].owner, subs[1..], subs[0].maxDepth);
      forall i | 0 < i < |subs| ensures SubOk(c, subs[i]) { assert SubOk(c, subs[1..][i - 1]); }
    }
  }

  lemma {:induction false} WellBuiltGrows(c: Crypto, root: PrivateKey, subs: seq<Sub>, last: Sub, depth: int)
    requires WellBuilt(c, root, subs, depth) && SubOk(c, last) && last.signer == EndKey(root, subs)
    requires if subs == [] then depth >= 0 ==> last.maxDepth < depth else last.maxDepth < subs[|subs| - 1].maxDepth
    ensures WellBuilt(c, root, subs + [last], depth)
    decreases |subs|
  {
    if subs == [] {
      assert subs + [last] == [last];
      assert [last][1..] == [];
    } else {
      EndKeyOfRest(root, subs);
      WellBuiltGrows(c, subs[0].owner, subs[1..], last, subs[0].maxDepth);
      assert (subs + [last])[1..] == subs[1..] + [last];
    }
  }

  /**
   The depth rule: given a parent of depth p, a new subkey is signed exactly if
   there is a depth from 0 to p - 1 for it, the one asked for if one was asked
   for, and the numbers fit their fields.
   */
  lemma DepthRule(c: Crypto, r: Request, p: nat)
    ensures NewSubkey(c, r, Some(p)).Some?
            <==> && (match r.maxDepth case None => p > 0 case Some(d) => 0 <= d < p)
                 && SubkeyFits(c, Asked(r, if r.maxDepth.None? then p - 1 else r.maxDepth.value, []))
    ensures NewSubkey(c, r, Some(p)).Some? ==>
              && 0 <= NewSubkey(c, r, Some(p)).value.maxDepth < p
              && (r.maxDepth.Some? ==> NewSubkey(c, r, Some(p)).value.maxDepth == r.maxDepth.value)
  {
  }

  lemma LastOfGood(c: Crypto, root: PrivateKey, subs: seq<Sub>, last: Sub)
    requires CryptoOk(c) && GoodChain(c, root, subs, last)
    ensures LastSubkey(c, ChainFile(c, subs, last)) == Some(LinkImage(c, last, [], []).body)
  {
    WellBuiltMembers(c, root, subs, -1);
    LastIsLast(c, subs, last);
  }

  /** The subkey that a request asks for, with a depth and the name of what follows it. */
  function Asked(r: Request, depth: nat, name: seq<Byte>): Sub {
    Sub(r.signer, r.owner, r.alg, r.salt, r.uuid, r.version, depth, r.nameSize, name)
  }

  lemma SignSubkeyShape(c: Crypto, parent: seq<Byte>, last: Body, name: seq<Byte>, r: Request, file: seq<Byte>)
    returns (s: Sub)
    requires LastSubkey(c, parent) == Some(last) && last.Subkey?
    requires SignSubkey(c, Some(parent), name, r) == Some(file)
    ensures s == Asked(r, s.maxDepth, []) && SubkeyFits(c, s) && s.maxDepth < last.maxDepth
    ensures file == parent + NameField(name, last.nameSize) + SubkeyBlock(c, s)
  {
    s := NewSubkey(c, r, Some(last.maxDepth)).value;
    DepthRule(c, r, last.maxDepth);
  }

  lemma SignAppShape(c: Crypto, parent: seq<Byte>, last: Body, name: seq<Byte>, signer: PrivateKey, a: App,
                     file: seq<Byte>)
    returns (f: seq<Byte>)
    requires LastSubkey(c, parent) == Some(last) && last.Subkey?
    requires SignApp(c, parent, name, signer, a) == Some(file)
    ensures AppFile(c, signer, a) == Some(f)
    ensures file == parent + NameField(name, last.nameSize) + f
  {
    f := AppFile(c, signer, a).value;
  }

  lemma ChainGrows(c: Crypto, root: PrivateKey, subs: seq<Sub>, last: Sub, name: seq<Byte>)
    requires GoodChain(c, root, subs, last) && NameOk(c, last.(name := name))
    ensures WellBuilt(c, root, subs + [last.(name := name)], -1)
  {
    assert SubkeyFits(c, last.(name := name));
    WellBuiltGrows(c, root, subs, last.(name := name), -1);
  }

  lemma GoodGrows(c: Crypto, root: PrivateKey, subs: seq<Sub>, last: Sub, name: seq<Byte>, s: Sub)
    requires GoodChain(c, root, subs, last) && NameOk(c, last.(name := name))
    requires SubkeyFits(c, s) && s.signer == last.owner && s.maxDepth < last.maxDepth
    ensures GoodChain(c, root, subs + [last.(name := name)], s)
  {
    ChainGrows(c, root, subs, last, name);
  }

  /** sign-subkey on top of a good chain makes a good chain, one longer, with a smaller depth at its end. */
  lemma SignSubkeyGrows(c: Crypto, root: PrivateKey, subs: seq<Sub>, last: Sub, name: seq<Byte>, r: Request,
                        file: seq<Byte>)
    returns (s: Sub)
    requires CryptoOk(c) && GoodChain(c, root, subs, last)
    requires SignSubkey(c, Some(ChainFile(c, subs, last)), name, r) == Some(file)
    requires NameOk(c, last.(name := name)) && r.signer == last.owner
    ensures s == Asked(r, s.maxDepth, []) && s.maxDepth < last.maxDepth
    ensures file == ChainFile(c, subs + [last.(name := name)], s)
    ensures GoodChain(c, root, subs + [last.(name := name)], s)
  {
    LastOfGood(c, root, subs, last);
    s := SignSubkeyShape(c, ChainFile(c, subs, last), LinkImage(c, last, [], []).body, name, r, file);
    FileGrows(c, subs, last, name, SubkeyBlock(c, s), file);
    GoodGrows(c, root, subs, last, name, s);
  }

  /** sign-enc on top of a good chain puts the application behind it. */
  lemma SignAppGrows(c: Crypto, root: PrivateKey, subs: seq<Sub>, last: Sub, name: seq<Byte>, a: App, file: seq<Byte>)
    requires CryptoOk(c) && GoodChain(c, root, subs, last) && NameOk(c, last.(name := name))
    requires SignApp(c, ChainFile(c, subs, last), name, last.owner, a) == Some(file)
    ensures AppFile(c, last.owner, a).Some?
    ensures file == Wire(c, subs + [last.(name := name)], AppFile(c, last.owner, a).value)
    ensures WellBuilt(c, root, subs + [last.(name := name)], -1)
  {
    LastOfGood(c, root, subs, last);
    var f := SignAppShape(c, ChainFile(c, subs, last), LinkImage(c, last, [], []).body, name, last.owner, a, file);
    FileGrows(c, subs, last, name, f, file);
    ChainGrows(c, root, subs, last, name);
  }

  /** The file of an application signed on top of a good chain is accepted exactly if every identity is derived. */
  lemma SignedAppIsAccepted(c: Crypto, root: PrivateKey, subs: seq<Sub>, last: Sub, name: seq<Byte>, a: App,
                            file: seq<Byte>, encKey: Option<seq<Byte>>, uuid: Uuid)
    requires CryptoOk(c) && GoodChain(c, root, subs, last) && HasKey(encKey, a) && NameOk(c, last.(name := name))
    requires SignApp(c, ChainFile(c, subs, last), name, last.owner, a) == Some(file)
    ensures Verify(c, encKey, uuid, file, c.publicOf(root))
            <==> Derived(c, subs + [last.(name := name)], a.uuid) && uuid == a.uuid
  {
    var all := subs + [last.(name := name)];
    SignAppGrows(c, root, subs, last, name, a, file);
    assert EndKey(root, all) == last.owner;
    AppChainAccepted(c, encKey, uuid, root, all, a);
  }

  // ------------------------------------------------------- signing one after the other

  /** Signing the requests in turn, each on top of the file so far; names[i] is for what follows the i-th subkey. */
  function SignAll(c: Crypto, rs: seq<Request>, names: seq<seq<Byte>>): Option<seq<Byte>>
    requires 0 < |rs| <= |names| + 1
    decreases |rs|
  {
    var k := |rs| - 1;
    if k == 0 then SignSubkey(c, None, [], rs[0])
    else
      match SignAll(c, rs[..k], names)
      case None => None
      case Some(file) => SignSubkey(c, Some(file), names[k - 1], rs[k])
  }

  /** Each request is signed with the key that the one before it certifies. */
  predicate KeysMatch(rs: seq<Request>) {
    forall i :: 0 < i < |rs| ==> rs[i].signer == rs[i - 1].owner
  }

  /** A name that the field of a request's subkey can hold and give back. */
  predicate NameFits(c: Crypto, r: Request, name: seq<Byte>) {
    |name| <= r.nameSize && NoZero(name) && c.utf8(name)
  }

  predicate AllNamesFit(c: Crypto, rs: seq<Request>, names: seq<seq<Byte>>, n: nat)
    requires n <= |rs| && n <= |names|
  {
    forall i :: 0 <= i < n ==> NameFits(c, rs[i], names[i])
  }

  /** subs are the first requests, each with its name. */
  predicate AreAsked(subs: seq<Sub>, rs: seq<Request>, names: seq<seq<Byte>>) {
    && |subs| <= |rs| && |subs| <= |names|
    && forall i :: 0 <= i < |subs| ==> subs[i] == Asked(rs[i], subs[i].maxDepth, names[i])
  }

  /** The depth of a root subkey: the one asked for, or none left to give. */
  function RootDepth(r: Request): int {
    if r.maxDepth.None? then 0 else r.maxDepth.value
  }

  function FirstDepth(subs: seq<Sub>, last: Sub): nat {
    if subs == [] then last.maxDepth else subs[0].maxDepth
  }

  /** subs and last are the requests, they are a good chain, and file is the file of that chain. */
  predicate IsSigned(c: Crypto, rs: seq<Request>, names: seq<seq<Byte>>, subs: seq<Sub>, last: Sub, file: seq<Byte>)
    requires rs != []
  {
    && |subs| == |rs| - 1 && AreAsked(subs, rs, names) && last == Asked(rs[|rs| - 1], last.maxDepth, [])
    && GoodChain(c, rs[0].signer, subs, last) && file == ChainFile(c, subs, last)
    && FirstDepth(subs, last) == RootDepth(rs[0])
  }

  lemma FirstIsSigned(c: Crypto, r: Request, names: seq<seq<Byte>>, file: seq<Byte>)
    requires SignSubkey(c, None, [], r) == Some(file)
    ensures NewSubkey(c, r, None).Some? && IsSigned(c, [r], names, [], NewSubkey(c, r, None).value, file)
  {
  }

  lemma AskedGrow(subs: seq<Sub>, s: Sub, rs: seq<Request>, names: seq<seq<Byte>>, name: seq<Byte>)
    requires AreAsked(subs, rs, names) && |subs| + 1 == |rs| <= |names| && name == names[|subs|]
    requires s == Asked(rs[|subs|], s.maxDepth, [])
    ensures AreAsked(subs + [s.(name := name)], rs, names)
  {
  }

  lemma AskedOfFirst(subs: seq<Sub>, rs: seq<Request>, n: nat, names: seq<seq<Byte>>)
    requires |subs| <= n <= |rs|
    ensures AreAsked(subs, rs, names) <==> AreAsked(subs, rs[..n], names)
  {
  }

  lemma AskedOfMore(subs: seq<Sub>, rs: seq<Request>, more: seq<Request>, names: seq<seq<Byte>>)
    requires |subs| <= |rs|
    ensures AreAsked(subs, rs, names) <==> AreAsked(subs, rs + more, names)
  {
  }

  lemma LastComesLast(rs: seq<Request>)
    requires rs != []
    ensures rs[..|rs| - 1] + [rs[|rs| - 1]] == rs
  {
  }

  /** One request more, on top of the file of those before it. */
  lemma NextIsSigned(c: Crypto, rs: seq<Request>, names: seq<seq<Byte>>, subs: seq<Sub>, last: Sub, before: seq<Byte>,
                     r: Request, name: seq<Byte>, file: seq<Byte>)
    returns (s: Sub)
    requires CryptoOk(c) && rs != [] && IsSigned(c, rs, names, subs, last, before)
    requires |rs| <= |names| && name == names[|rs| - 1] && NameFits(c, rs[|rs| - 1], name)
    requires r.signer == rs[|rs| - 1].owner && SignSubkey(c, Some(before), name, r) == Some(file)
    ensures IsSigned(c, rs + [r], names, subs + [last.(name := name)], s, file)
  {
    AskedGrow(subs, last, rs, names, name);
    AskedOfMore(subs + [last.(name := name)], rs, [r], names);
    s := SignSubkeyGrows(c, rs[0].signer, subs, last, name, r, file);
  }

  lemma SignAllStep(c: Crypto, rs: seq<Request>, names: seq<seq<Byte>>, file: seq<Byte>) returns (before: seq<Byte>)
    requires 1 < |rs| <= |names| + 1 && SignAll(c, rs, names) == Some(file)
    ensures SignAll(c, rs[..|rs| - 1], names) == Some(before)
    ensures SignSubkey(c, Some(before), names[|rs| - 2], rs[|rs| - 1]) == Some(file)
  {
    before := SignAll(c, rs[..|rs| - 1], names).value;
  }

  lemma AllButLast(c: Crypto, rs: seq<Request>, names: seq<seq<Byte>>)
    requires 1 < |rs| <= |names| + 1 && KeysMatch(rs) && AllNamesFit(c, rs, names, |rs| - 1)
    ensures KeysMatch(rs[..|rs| - 1]) && AllNamesFit(c, rs[..|rs| - 1], names, |rs| - 2)
    ensures NameFits(c, rs[|rs| - 2], names[|rs| - 2]) && rs[|rs| - 1].signer == rs[|rs| - 2].owner
  {
  }

  /** Whatever is signed in turn, with keys that match, is a good chain of just those subkeys. */
  lemma {:induction false} SignAllIsGood(c: Crypto, rs: seq<Request>, names: seq<seq<Byte>>, file: seq<Byte>)
    returns (subs: seq<Sub>, last: Sub)
    requires CryptoOk(c) && 0 < |rs| <= |names| + 1 && SignAll(c, rs, names) == Some(file)
    requires KeysMatch(rs) && AllNamesFit(c, rs, names, |rs| - 1)
    ensures IsSigned(c, rs, names, subs, last, file)
    decreases |rs|
  {
    var k := |rs| - 1;
    LastComesLast(rs);
    if k == 0 {
      FirstIsSigned(c, rs[0], names, file);
      subs, last := [], NewSubkey(c, rs[0], None).value;
    } else {
      AllButLast(c, rs, names);
      var before := SignAllStep(c, rs, names, file);
      subs, last := SignAllIsGood(c, rs[..k], names, before);
      var s := NextIsSigned(c, rs[..k], names, subs, last, before, rs[k], names[k - 1], file);
      subs, last := subs + [last.(name := names[k - 1])], s;
    }
  }

  /** The identity of what follows the i-th subkey; end is what follows the last. */
  function IdAfter(rs: seq<Request>, i: nat, end: Uuid): Uuid
    requires i < |rs|
  {
    if i + 1 < |rs| then rs[i + 1].uuid else end
  }

  /** Every subkey asked for has a name field, and what follows it the identity derived from its name. */
  predicate AllDerived(c: Crypto, rs: seq<Request>, names: seq<seq<Byte>>, end: Uuid)
    requires |rs| == |names|
  {
    forall i :: 0 <= i < |rs| ==> rs[i].nameSize > 0 && IdAfter(rs, i, end) == c.uuid5(rs[i].uuid, names[i])
  }

  lemma DerivedAsAsked(c: Crypto, subs: seq<Sub>, rs: seq<Request>, names: seq<seq<Byte>>, end: Uuid)
    requires |subs| == |rs| == |names| && AreAsked(subs, rs, names)
    ensures Derived(c, subs, end) <==> AllDerived(c, rs, names, end)
  {
    assert forall i :: 0 <= i < |subs| ==> FirstUuid(subs[i + 1..], end) == IdAfter(rs, i, end);
  }

  lemma AppOnTop(c: Crypto, rs: seq<Request>, names: seq<seq<Byte>>, subs: seq<Sub>, last: Sub, parent: seq<Byte>,
                 name: seq<Byte>, a: App, file: seq<Byte>, encKey: Option<seq<Byte>>, uuid: Uuid)
    requires CryptoOk(c) && HasKey(encKey, a) && 0 < |rs| == |names| && IsSigned(c, rs, names, subs, last, parent)
    requires name == names[|rs| - 1] && NameFits(c, rs[|rs| - 1], name)
    requires SignApp(c, parent, name, last.owner, a) == Some(file)
    ensures Verify(c, encKey, uuid, file, c.publicOf(rs[0].signer))
            <==> AllDerived(c, rs, names, a.uuid) && uuid == a.uuid
  {
    AskedGrow(subs, last, rs, names, name);
    SignedAppIsAccepted(c, rs[0].signer, subs, last, name, a, file, encKey, uuid);
    DerivedAsAsked(c, subs + [last.(name := name)], rs, names, a.uuid);
  }

  /**
   Every file that signing subkeys in turn and then an application makes: as long
   as each signature is made with the key certified before it, verification with
   the root key accepts the file exactly if the application is the one asked for,
   every subkey has a name field, and every identity is the derived one.
   */
  lemma SignedInTurnIsAccepted(c: Crypto, rs: seq<Request>, names: seq<seq<Byte>>, parent: seq<Byte>, a: App,
                               file: seq<Byte>, encKey: Option<seq<Byte>>, uuid: Uuid)
    requires CryptoOk(c) && HasKey(encKey, a) && 0 < |rs| == |names| && KeysMatch(rs)
    requires AllNamesFit(c, rs, names, |rs|) && SignAll(c, rs, names) == Some(parent)
    requires SignApp(c, parent, names[|rs| - 1], rs[|rs| - 1].owner, a) == Some(file)
    ensures Verify(c, encKey, uuid, file, c.publicOf(rs[0].signer))
            <==> AllDerived(c, rs, names, a.uuid) && uuid == a.uuid
  {
    var subs, last := SignAllIsGood(c, rs, names, parent);
    AppOnTop(c, rs, names, subs, last, parent, names[|rs| - 1], a, file, encKey, uuid);
  }

  lemma SubkeysAlone(c: Crypto, rs: seq<Request>, names: seq<seq<Byte>>, subs: seq<Sub>, last: Sub, file: seq<Byte>,
                     encKey: Option<seq<Byte>>, uuid: Uuid)
    requires CryptoOk(c) && 0 < |rs| == |names| + 1 && IsSigned(c, rs, names, subs, last, file)
    ensures Verify(c, encKey, uuid, file, c.publicOf(rs[0].signer))
            <==> AllDerived(c, rs[..|names|], names, rs[|names|].uuid)
  {
    AskedOfFirst(subs, rs, |names|, names);
    SubkeyChainAccepted(c, encKey, uuid, rs[0].signer, subs, last);
    DerivedAsAsked(c, subs, rs[..|names|], names, last.uuid);
  }

  /** A file of subkeys alone is accepted exactly if this is so of all but the last of them. */
  lemma SubkeysInTurnAreAccepted(c: Crypto, rs: seq<Request>, names: seq<seq<Byte>>, file: seq<Byte>,
                                 encKey: Option<seq<Byte>>, uuid: Uuid)
    requires CryptoOk(c) && 0 < |rs| == |names| + 1 && KeysMatch(rs)
    requires AllNamesFit(c, rs, names, |names|) && SignAll(c, rs, names) == Some(file)
    ensures Verify(c, encKey, uuid, file, c.publicOf(rs[0].signer))
            <==> AllDerived(c, rs[..|names|], names, rs[|names|].uuid)
  {
    var subs, last := SignAllIsGood(c, rs, names, file);
    SubkeysAlone(c, rs, names, subs, last, file, encKey, uuid);
  }

  /** Depths fall by at least one from subkey to subkey. */
  lemma {:induction false} WellBuiltIsShort(c: Crypto, root: PrivateKey, subs: seq<Sub>, depth: nat)
    requires WellBuilt(c, root, subs, depth)
    ensures |subs| <= depth && (subs != [] ==> subs[|subs| - 1].maxDepth + |subs| <= depth)
    decreases |subs|
  {
    if subs != [] {
      WellBuiltIsShort(c, subs[0].owner, subs[1..], subs[0].maxDepth);
    }
  }

  lemma GoodIsShort(c: Crypto, root: PrivateKey, subs: seq<Sub>, last: Sub)
    requires GoodChain(c, root, subs, last) && subs != []
    ensures last.maxDepth + |subs| <= subs[0].maxDepth
  {
    WellBuiltIsShort(c, subs[0].owner, subs[1..], subs[0].maxDepth);
  }

  /** Signing in turn ends: under a root of depth d at most d more subkeys can be signed. */
  lemma SignedInTurnIsShort(c: Crypto, rs: seq<Request>, names: seq<seq<Byte>>, file: seq<Byte>)
    requires CryptoOk(c) && 0 < |rs| <= |names| + 1 && SignAll(c, rs, names) == Some(file)
    requires KeysMatch(rs) && AllNamesFit(c, rs, names, |rs| - 1)
    ensures |rs| <= RootDepth(rs[0]) + 1
  {
    var subs, last := SignAllIsGood(c, rs, names, file);
    if subs != [] { GoodIsShort(c, rs[0].signer, subs, last); }
  }

  /**
   The shortest case that fails: a root subkey without name field, an
   application with its identity signed under it. All keys and identities are
   what the subkey-uuid command tells, and the file is rejected.
   */
  lemma NamelessIsRejected(c: Crypto, r: Request, file: seq<Byte>, a: App, out: seq<Byte>, encKey: Option<seq<Byte>>)
    requires CryptoOk(c) && c.utf8([]) && HasKey(encKey, a)
    requires r.nameSize == 0 && a.uuid == r.uuid
    requires SignSubkey(c, None, [], r) == Some(file) && SignApp(c, file, [], r.owner, a) == Some(out)
    ensures !Verify(c, encKey, a.uuid, out, c.publicOf(r.signer))
  {
    SignedInTurnIsAccepted(c, [r], [[]], file, a, out, encKey, a.uuid);
    assert [r][0].nameSize == 0;
  }

  /** There is such a file. */
  lemma NamelessInstance() returns (r: Request, a: App, out: seq<Byte>)
    ensures CryptoOk(Plain()) && SignSubkey(Plain(), None, [], r).Some? && r.nameSize == 0 && a.uuid == r.uuid
    ensures SignApp(Plain(), SignSubkey(Plain(), None, [], r).value, [], r.owner, a) == Some(out)
    ensures !Verify(Plain(), None, a.uuid, out, Plain().publicOf(r.signer))
  {
    var c := Plain();
    PromisesAreConsistent();
    r := Request(0, 0, Pss, 0, Zeros(UUID_SIZE), 0, None, 0);
    a := App(Pss, 0, Zeros(UUID_SIZE), 0, [], Clear);
    var s := Asked(r, 0, []);
    assert IntBytes(0) == ToBe(0, 1);
    assert SubkeyFits(c, s);
    var file := SubkeyBlock(c, s);
    LastOfGood(c, 0, [], s);
    out := SignApp(c, file, [], r.owner, a).value;
    NamelessIsRejected(c, r, file, a, out, None);
  }
}
