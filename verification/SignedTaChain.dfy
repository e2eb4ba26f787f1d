/** Chains of subkeys: building them one signature at a time, and verifying them. */
module SignedTaChain {
  import opened Wrappers
  import opened Bytes
  import opened SignedTa

  // ---------------------------------------------------------------- verifying

  /**
   What the identity of the next image is compared with. Impossible is a byte
   string where a UUID object was meant: no UUID object ever equals it.
   */
  datatype Want = Anything | Exactly(uuid: seq<Byte>) | Impossible

  predicate Meets(e: Want, u: seq<Byte>) {
    match e
    case Anything => true
    case Exactly(v) => u == v
    case Impossible => false
  }

  /** The name in its field, up to the first zero byte. */
  function NameText(field: seq<Byte>): seq<Byte> {
    if field == [] || field[0] == 0 then [] else [field[0]] + NameText(field[1..])
  }

  /** None where the name is not text. */
  function WantAfter(c: Crypto, b: Body): Option<Want>
    requires b.Subkey?
  {
    if b.nameSize > 0 then
      if c.utf8(b.nameImg) then Some(Exactly(c.uuid5(b.uuid, NameText(b.nameImg)))) else None
    else Some(Impossible)
  }

  lemma NextIsShorter(c: Crypto, inf: seq<Byte>)
    requires Parse(c, inf).Some? && Parse(c, inf).value.body.Subkey?
    ensures |Parse(c, inf).value.body.next| < |inf|
  {
  }

  predicate Authentic(c: Crypto, im: Image, key: PublicKey, content: seq<Byte>) {
    c.verify(key, im.alg, im.sig, im.digest) && im.digest == c.digest(im.shdr + content)
  }

  /** Is this the application that was asked for? */
  predicate AppVerifies(c: Crypto, encKey: Option<seq<Byte>>, uuid: Uuid, im: Image, key: PublicKey, want: Want)
    requires !im.body.Subkey?
  {
    && |im.body.taUuid| == UUID_SIZE && Meets(want, im.body.taUuid) && im.body.taUuid == uuid
    && match im.body
       case Bootstrap(u, v, img) => Authentic(c, im, key, u + v + img)
       case Encrypted(u, v, ehdr, nonce, tag, text) =>
         encKey.Some? &&
         (match c.decrypt(encKey.value, nonce, text + tag)
          case None => false
          case Some(plain) => Authentic(c, im, key, u + v + (ehdr + nonce + tag) + plain))
  }

  predicate SubkeyVerifies(c: Crypto, im: Image, key: PublicKey, want: Want, depth: int)
    requires im.body.Subkey?
  {
    && Authentic(c, im, key, im.body.img) && Meets(want, im.body.uuid)
    && (depth >= 0 ==> im.body.maxDepth < depth)
  }

  /** depth is the depth of the subkey in front, or -1. */
  predicate VerifyFrom(c: Crypto, encKey: Option<seq<Byte>>, uuid: Uuid, inf: seq<Byte>, key: PublicKey, want: Want,
                       depth: int)
    decreases |inf|
  {
    match Parse(c, inf)
    case None => false
    case Some(im) =>
      if im.body.Subkey? then
        NextIsShorter(c, inf);
        && SubkeyVerifies(c, im, key, want, depth)
        && (|| im.body.next == []
            || (match WantAfter(c, im.body)
                case None => false
                case Some(e) => VerifyFrom(c, encKey, uuid, im.body.next, im.body.key, e, im.body.maxDepth)))
      else AppVerifies(c, encKey, uuid, im, key, want)
  }

  predicate Verify(c: Crypto, encKey: Option<seq<Byte>>, uuid: Uuid, inf: seq<Byte>, key: PublicKey) {
    VerifyFrom(c, encKey, uuid, inf, key, Anything, -1)
  }

  lemma VerifyStep(c: Crypto, encKey: Option<seq<Byte>>, uuid: Uuid, inf: seq<Byte>, key: PublicKey, want: Want,
                   depth: int, im: Image)
    requires Parse(c, inf) == Some(im) && im.body.Subkey?
    ensures |im.body.next| < |inf|
    ensures VerifyFrom(c, encKey, uuid, inf, key, want, depth)
            <==> && SubkeyVerifies(c, im, key, want, depth)
                 && (|| im.body.next == []
                     || (match WantAfter(c, im.body)
                         case None => false
                         case Some(w) => VerifyFrom(c, encKey, uuid, im.body.next, im.body.key, w, im.body.maxDepth)))
  {
    NextIsShorter(c, inf);
  }

  // ------------------------------------------------------- accepted chains end

  /** The depths of the subkeys in a file, from its start on. */
  function Depths(c: Crypto, inf: seq<Byte>): seq<nat>
    decreases |inf|
  {
    match Parse(c, inf)
    case None => []
    case Some(im) =>
      if !im.body.Subkey? then []
      else
        NextIsShorter(c, inf);
        [im.body.maxDepth] + (if im.body.next == [] then [] else Depths(c, im.body.next))
  }

  predicate Falling(ds: seq<nat>) {
    forall i, j :: 0 <= i < j < |ds| ==> ds[j] < ds[i]
  }

  lemma {:induction false} FallingIsShort(ds: seq<nat>, below: nat)
    requires Falling(ds) && forall i :: 0 <= i < |ds| ==> ds[i] < below
    ensures |ds| <= below
    decreases |ds|
  {
    if ds != [] {
      assert forall i :: 0 <= i < |ds[1..]| ==> ds[1..][i] == ds[i + 1] < ds[0];
      FallingIsShort(ds[1..], ds[0]);
    }
  }

  lemma DepthsStep(c: Crypto, inf: seq<Byte>, im: Image)
    requires Parse(c, inf) == Some(im)
    ensures im.body.Subkey? ==> |im.body.next| < |inf|
    ensures Depths(c, inf) == if !im.body.Subkey? then []
                              else if im.body.next == [] then [im.body.maxDepth]
                              else [im.body.maxDepth] + Depths(c, im.body.next)
  {
    if im.body.Subkey? { NextIsShorter(c, inf); }
  }

  predicate AllBelow(ds: seq<nat>, depth: int) {
    forall i :: 0 <= i < |ds| ==> ds[i] < depth
  }

  lemma FallingJoins(d: nat, ds: seq<nat>)
    requires Falling(ds) && AllBelow(ds, d)
    ensures Falling([d] + ds) && forall depth :: d < depth ==> AllBelow([d] + ds, depth)
  {
  }

  lemma {:induction false} AcceptedFalls(c: Crypto, encKey: Option<seq<Byte>>, uuid: Uuid, inf: seq<Byte>,
                                         key: PublicKey, want: Want,
                                         depth: int, im: Image)
    requires Parse(c, inf) == Some(im) && VerifyFrom(c, encKey, uuid, inf, key, want, depth)
    ensures Falling(Depths(c, inf)) && (depth >= 0 ==> AllBelow(Depths(c, inf), depth))
    decreases |inf|
  {
    DepthsStep(c, inf, im);
    if im.body.Subkey? {
      VerifyStep(c, encKey, uuid, inf, key, want, depth, im);
      if im.body.next != [] {
        var w := WantAfter(c, im.body).value;
        assert Parse(c, im.body.next).Some?;
        AcceptedFalls(c, encKey, uuid, im.body.next, im.body.key, w, im.body.maxDepth, Parse(c, im.body.next).value);
        FallingJoins(im.body.maxDepth, Depths(c, im.body.next));
      }
    }
  }

  /** An accepted file has at most one subkey more than the depth of its first one. */
  lemma AcceptedIsShort(c: Crypto, encKey: Option<seq<Byte>>, uuid: Uuid, inf: seq<Byte>, key: PublicKey)
    requires Verify(c, encKey, uuid, inf, key)
    ensures var ds := Depths(c, inf); Falling(ds) && (ds != [] ==> |ds| <= ds[0] + 1)
  {
    AcceptedFalls(c, encKey, uuid, inf, key, Anything, -1, Parse(c, inf).value);
    var ds := Depths(c, inf);
    if ds != [] { FallingIsShort(ds, ds[0] + 1); }
  }

  // ------------------------------------------------------------------ building

  /** A file: subkeys, each with the name of what follows it, and then tail. */
  function Wire(c: Crypto, subs: seq<Sub>, tail: seq<Byte>): seq<Byte> {
    if subs == [] then tail
    else SubkeyBlock(c, subs[0]) + (NameField(subs[0].name, subs[0].nameSize) + Wire(c, subs[1..], tail))
  }

  /** The last subkey of a file. */
  function LastSubkey(c: Crypto, inf: seq<Byte>): Option<Body>
    decreases |inf|
  {
    match Parse(c, inf)
    case None => None
    case Some(im) =>
      if !im.body.Subkey? then None
      else if im.body.next == [] then Some(im.body)
      else NextIsShorter(c, inf); LastSubkey(c, im.body.next)
  }

  /** The depth of a new subkey, given that of its parent and the one asked for. */
  function DepthFor(parent: Option<nat>, asked: Option<int>): Option<int> {
    match asked
    case None =>
      (match parent
       case None => Some(0)
       case Some(p) => if p <= 0 then None else Some(p - 1))
    case Some(d) => if parent.Some? && d >= parent.value then None else Some(d)
  }

  /** What is asked of sign-subkey, apart from parent and name. */
  datatype Request = Request(signer: PrivateKey, owner: PrivateKey, alg: Alg, salt: nat, uuid: Uuid, version: nat,
                             maxDepth: Option<int>, nameSize: nat)

  function NewSubkey(c: Crypto, r: Request, parent: Option<nat>): Option<Sub> {
    match DepthFor(parent, r.maxDepth)
    case None => None
    case Some(d) =>
      if d < 0 then None
      else
        var s := Sub(r.signer, r.owner, r.alg, r.salt, r.uuid, r.version, d, r.nameSize, []);
        if SubkeyFits(c, s) then Some(s) else None
  }

  /** sign-subkey: the file of the parent, its name field, and the new subkey. */
  function SignSubkey(c: Crypto, parent: Option<seq<Byte>>, name: seq<Byte>, r: Request): Option<seq<Byte>> {
    match parent
    case None =>
      (match NewSubkey(c, r, None)
       case None => None
       case Some(s) => Some(SubkeyBlock(c, s)))
    case Some(file) =>
      match LastSubkey(c, file)
      case None => None
      case Some(last) =>
        if !last.Subkey? then None
        else
          match NewSubkey(c, r, Some(last.maxDepth))
          case None => None
          case Some(s) => Some(file + NameField(name, last.nameSize) + SubkeyBlock(c, s))
  }

  /** sign-enc with a subkey file. */
  function SignApp(c: Crypto, parent: seq<Byte>, name: seq<Byte>, signer: PrivateKey, a: App): Option<seq<Byte>> {
    match LastSubkey(c, parent)
    case None => None
    case Some(last) =>
      if !last.Subkey? then None
      else
        match AppFile(c, signer, a)
        case None => None
        case Some(f) => Some(parent + NameField(name, last.nameSize) + f)
  }
}
